// Notions that more than one component uses.
module Common {
  const WORD := 0x1_0000_0000   // the number of values of an `unsigned int`

  datatype Option<+T> = None | Some(value: T)

  ghost predicate Distinct<X>(s: seq<X>) {
    forall i, j :: 0 <= i < j < |s| ==> s[i] != s[j]
  }

  // The sequence without its k-th element.
  function Without<X>(s: seq<X>, k: nat): (r: seq<X>)
    requires k < |s|
    ensures |r| == |s| - 1
  {
    s[..k] + s[k + 1..]
  }
}
