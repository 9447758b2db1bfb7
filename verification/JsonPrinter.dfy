// The JSON_ENCODE macros of include/mjson.h as ac/sql.c uses them, and what the
// reader makes of their output.
module JsonPrinter {
  import opened Common
  import opened JsonModel
  import opened JsonRoundTrip
  import JsonReader

  // A column name and its value in a row.
  datatype Pair = Pair(name: string, value: string)

  function Member(p: Pair): string { "\"" + p.name + "\":\"" + p.value + "\"," }

  function Members(row: seq<Pair>): string {
    if row == [] then "" else Member(row[0]) + Members(row[1..])
  }

  // The text before JSON_ENCODE_END.
  function Opened(row: seq<Pair>): string { "{" + Members(row) }

  // The same without its last comma.
  function Unclosed(row: seq<Pair>): string {
    if row == [] then "{" else Opened(row)[..|Opened(row)| - 1]
  }

  function Printed(row: seq<Pair>): string { Unclosed(row) + "}" }

  // How many columns are printed into a buffer with this much left: the loop
  // stops when no more than two characters are.
  function Printable(row: seq<Pair>, len: int): (k: nat)
    ensures k <= |row|
  {
    if row == [] || len <= 2 then 0 else 1 + Printable(row[1..], len - |Member(row[0])|)
  }

  lemma NextPrintable(row: seq<Pair>, i: nat, len: int)
    requires i < |row| && len > 2
    ensures Printable(row[i..], len) == 1 + Printable(row[i + 1..], len - |Member(row[i])|)
  {
    assert row[i..][1..] == row[i + 1..];
  }

  // ---- the macros -------------------------------------------------------------------

  class Writer {
    const buf: array<char>
    var at: nat              // how far the macros have advanced the buf pointer
    var len: int             // what is left of the buffer, negative when a text was cut off
    ghost var text: string   // what was to be printed before the pointer

    ghost predicate Valid()
      reads this, buf
    {
      at == |text| && at + len == buf.Length && (0 < len ==> buf[..at] == text)
    }

    // A closing brace and a NUL stand at the pointer.
    ghost predicate Closed()
      reads this, buf
    {
      at + 2 <= buf.Length && buf[..at] == text && buf[at] == '}' && buf[at + 1] == NUL
    }

    constructor (size: nat)
      ensures Valid() && text == "" && len == size && fresh(buf)
    {
      buf := new char[size];
      at, len, text := 0, size, "";
    }

    // snprintf: what does not fit is cut off.
    method Snprintf(s: string)
      requires Valid() && 0 <= len
      modifies buf
      ensures Valid()
      ensures |s| < len ==> buf[at..at + |s|] == s && buf[at + |s|] == NUL
      ensures 0 < len <= |s| ==> buf[at..] == s[..len - 1] + [NUL]
    {
      if len > 0 {
        var n := if |s| < len then |s| else len - 1;
        forall i | 0 <= i < n {
          buf[at + i] := s[i];
        }
        buf[at + n] := NUL;
      }
    }

    method Advance(s: string)
      requires Valid() && 0 <= len
      modifies this, buf
      ensures Valid() && text == old(text) + s && len == old(len) - |s| && at == old(at) + |s|
    {
      Snprintf(s);
      if |s| < len {
        assert buf[..at + |s|] == buf[..at] + buf[at..at + |s|];
      }
      len := len - |s|;
      at := at + |s|;
      text := text + s;
    }

    // JSON_ENCODE_START
    method EncodeStart()
      requires Valid() && 0 <= len
      modifies this, buf
      ensures Valid() && text == old(text) + "{" && len == old(len) - 1
    {
      Advance("{");
    }

    // JSON_ENCODE
    method Encode(key: string, value: string)
      requires Valid() && 0 <= len
      modifies this, buf
      ensures Valid() && text == old(text) + Member(Pair(key, value))
      ensures len == old(len) - |Member(Pair(key, value))|
    {
      Advance("\"" + key + "\":\"" + value + "\",");
    }

    // JSON_ENCODE_END; the closing brace is written but not passed.  `ok` is
    // whether the assertion holds; otherwise the program ends there.
    method EncodeEnd() returns (ok: bool)
      requires Valid() && at > 0
      modifies this, buf
      ensures ok <==> old(len) >= 2
      ensures ok ==> Valid() && Closed() && at + len == buf.Length
      ensures ok ==> text == if old(text)[old(at) - 1] == ',' then old(text)[..old(at) - 1] else old(text)
    {
      if len < 2 {
        return false;
      }
      if buf[at - 1] == ',' {
        buf[at - 1] := NUL;
        len := len + 1;
        at := at - 1;
        text := text[..at];
      }
      Snprintf("}");
      return true;
    }

    // The column loop of sql_query_res.
    method EncodeColumns(cols: seq<string>, row: seq<string>) returns (ghost k: nat)
      requires Valid() && |row| == |cols|
      modifies this, buf
      ensures Valid() && k == Printable(Zip(cols, row), old(len))
      ensures text == old(text) + Members(Zip(cols, row)[..k]) && len == old(len) - |Members(Zip(cols, row)[..k])|
    {
      ghost var pairs := Zip(cols, row);
      var i := 0;
      assert text + Members(pairs[..0]) == text && pairs[0..] == pairs;
      while i < |cols| && len > 2
        invariant i <= |cols| && Valid()
        invariant text == old(text) + Members(pairs[..i]) && len == old(len) - |Members(pairs[..i])|
        invariant Printable(pairs, old(len)) == i + Printable(pairs[i..], len)
      {
        NextMember(old(text), pairs, i);
        NextPrintable(pairs, i, len);
        Encode(cols[i], row[i]);
        i := i + 1;
      }
      k := i;
    }

    // The body of the row loop of sql_query_res, into any buffer.
    method PrintRow(cols: seq<string>, row: seq<string>) returns (ok: bool, ghost k: nat)
      requires Valid() && |row| == |cols| && 0 <= len
      modifies this, buf
      ensures k == Printable(Zip(cols, row), old(len) - 1)
      ensures ok <==> |Opened(Zip(cols, row)[..k])| + 2 <= old(len)
      ensures ok ==> Valid() && Closed() && text == old(text) + Unclosed(Zip(cols, row)[..k])
    {
      ghost var before, pairs := text, Zip(cols, row);
      EncodeStart();
      k := EncodeColumns(cols, row);
      assert text == before + Opened(pairs[..k]);
      LastComma(before, pairs[..k]);
      ok := EncodeEnd();
    }
  }

  lemma {:induction false} PrintableFits(row: seq<Pair>, len: int)
    ensures |Members(row)| + 2 <= len ==> Printable(row, len) == |row|
    ensures Printable(row, len) < |row| ==> len - |Members(row[..Printable(row, len)])| <= 2
    decreases |row|
  {
    if row != [] && len > 2 {
      var k := Printable(row, len);
      PrintableFits(row[1..], len - |Member(row[0])|);
      assert row[..k][0] == row[0] && row[..k][1..] == row[1..][..k - 1];
      assert |Members(row)| == |Member(row[0])| + |Members(row[1..])|;
      assert |Members(row[..k])| == |Member(row[0])| + |Members(row[1..][..k - 1])|;
    }
  }

  // The whole row is printed and closed exactly when it fits with its brace and
  // the NUL.  A shorter one is closed exactly when two characters are left, so
  // that the remaining columns are dropped without notice.
  lemma PrintsWholeRow(row: seq<Pair>, len: nat)
    ensures var k := Printable(row, len - 1);
            && (k == |row| && |Opened(row[..k])| + 2 <= len <==> |Opened(row)| + 2 <= len)
            && (k < |row| ==> (|Opened(row[..k])| + 2 <= len <==> |Opened(row[..k])| + 2 == len))
  {
    PrintableFits(row, len - 1);
    assert row[..|row|] == row;
  }

  function Zip(cols: seq<string>, row: seq<string>): (r: seq<Pair>)
    requires |cols| == |row|
    ensures |r| == |row| && forall i :: 0 <= i < |r| ==> r[i] == Pair(cols[i], row[i])
  {
    seq(|cols|, i requires 0 <= i < |cols| => Pair(cols[i], row[i]))
  }

  lemma {:induction false} MembersAppend(a: seq<Pair>, b: seq<Pair>)
    ensures Members(a + b) == Members(a) + Members(b)
    decreases |a|
  {
    if a == [] {
      assert a + b == b;
    } else {
      assert (a + b)[0] == a[0] && (a + b)[1..] == a[1..] + b;
      MembersAppend(a[1..], b);
    }
  }

  lemma MemberAlone(p: Pair)
    ensures Members([p]) == Member(p)
  {
  }

  lemma NextMember(before: string, row: seq<Pair>, i: nat)
    requires i < |row|
    ensures before + Members(row[..i]) + Member(row[i]) == before + Members(row[..i + 1])
    ensures |Members(row[..i + 1])| == |Members(row[..i])| + |Member(row[i])| <= |Members(row)|
  {
    assert row[..i + 1] == row[..i] + [row[i]];
    assert row == row[..i + 1] + row[i + 1..];
    MembersAppend(row[..i], [row[i]]);
    MemberAlone(row[i]);
    MembersAppend(row[..i + 1], row[i + 1..]);
  }

  lemma LastComma(before: string, row: seq<Pair>)
    ensures var s := before + Opened(row);
            && (row == [] ==> s[|s| - 1] == '{')
            && (row != [] ==> s[|s| - 1] == ',' && s[..|s| - 1] == before + Unclosed(row))
  {
    if row != [] {
      MembersEnd(row);
    }
  }

  lemma {:induction false} MembersEnd(row: seq<Pair>)
    requires row != []
    ensures Members(row) != "" && Members(row)[|Members(row)| - 1] == ','
    decreases |row|
  {
    var m := Member(row[0]);
    assert m[|m| - 1] == ',';
    if |row| > 1 {
      MembersEnd(row[1..]);
    } else {
      assert row[1..] == [] && m + "" == m;
    }
  }

  // ---- printing, then reading -------------------------------------------------------

  function ItemOf(p: Pair): Item { Item("", p.name, "", "", p.value, "") }

  function Items(row: seq<Pair>): (r: seq<Item>)
    ensures |r| == |row| && forall i :: 0 <= i < |row| ==> r[i] == ItemOf(row[i])
  {
    seq(|row|, i requires 0 <= i < |row| => ItemOf(row[i]))
  }

  lemma ItemIsMember(p: Pair, s: string)
    ensures Member(p) != "" && ItemThen(ItemOf(p), s) == Member(p)[..|Member(p)| - 1] + s
    ensures ItemThen(ItemOf(p), "," + s) == Member(p) + s
  {
  }

  lemma {:induction false} BodyIsMembers(row: seq<Pair>, s: string)
    requires row != []
    ensures Members(row) != "" && BodyThen(Items(row), s) == Members(row)[..|Members(row)| - 1] + ("}" + s)
    decreases |row|
  {
    var m := Member(row[0]);
    if |row| == 1 {
      ItemIsMember(row[0], "}" + s);
      assert Members(row) == m by {
        assert row[1..] == [] && m + "" == m;
      }
    } else {
      assert Items(row)[1..] == Items(row[1..]);
      BodyIsMembers(row[1..], s);
      var rest := Members(row[1..]);
      ItemIsMember(row[0], BodyThen(Items(row[1..]), s));
      assert m + (rest[..|rest| - 1] + ("}" + s)) == (m + rest)[..|m + rest| - 1] + ("}" + s);
    }
  }

  lemma Regrouped(a: string, s: string)
    ensures "" + ("{" + (a + ("}" + s))) == "{" + a + "}" + s
  {
  }

  // What is printed for one row is an object as JsonRoundTrip reads it, without
  // white space.
  lemma PrintedIsObject(row: seq<Pair>, s: string)
    requires row != []
    ensures Printed(row) + s == ObjectThen("", Items(row), s)
  {
    BodyIsMembers(row, s);
    var ms := Members(row);
    var but := ms[..|ms| - 1];
    assert Unclosed(row) == "{" + but;
    Regrouped(but, s);
  }

  predicate GoodRow(t: seq<Attr>, row: seq<Pair>) {
    forall i :: 0 <= i < |row| ==>
      && NoneOf(row[i].name, {'"'}) && |row[i].name| <= JSON_ATTR_MAX - 1 && Find(t, row[i].name) < |t|
      && Acceptable(row[i].value, t[Find(t, row[i].name)].len)
  }

  // Printing and reading undo each other: every column is in its field, fields
  // without a column are empty, and *end is behind the object.
  lemma PrintThenRead(t: seq<Attr>, memory: seq<string>, row: seq<Pair>, rest: string)
    requires Fits(t, memory) && DistinctNames(t) && row != [] && GoodRow(t, row)
    ensures var o := ReadObject(t, memory, Printed(row) + rest);
            o.code == Ok && Holding(t, o.fields, Items(row)) && o.end == Some(|SkipSpace(rest)|)
  {
    PrintedIsObject(row, rest);
    RoundTrip(t, memory, "", Items(row), rest);
  }

  // The two programs together: a row printed into a fresh buffer that it fits is
  // read back, column by column.
  method PrintAndRead(attrs: seq<Attr>, memory: seq<string>, cols: seq<string>, row: seq<string>, size: nat)
    returns (o: Outcome)
    requires Fits(attrs, memory) && DistinctNames(attrs)
    requires |cols| == |row| && cols != [] && GoodRow(attrs, Zip(cols, row))
    requires |Opened(Zip(cols, row))| + 2 <= size && forall i :: 0 <= i < |cols| ==> NUL !in cols[i]
    ensures o.code == Ok && Holding(attrs, o.fields, Items(Zip(cols, row))) && o.end == Some(0)
  {
    ghost var pairs := Zip(cols, row);
    var writer := new Writer(size);
    PrintsWholeRow(pairs, size);
    var ok, k := writer.PrintRow(cols, row);
    assert pairs[..k] == pairs;
    var input := writer.buf[..writer.at + 1];
    assert input == Printed(pairs) + "";
    NoNulPrinted(pairs);
    PrintThenRead(attrs, memory, pairs, "");
    o := JsonReader.JsonReadObject(attrs, memory, input);
  }

  lemma {:induction false} NoNulMembers(row: seq<Pair>)
    requires forall i :: 0 <= i < |row| ==> NUL !in row[i].name && NUL !in row[i].value
    ensures NUL !in Members(row)
    decreases |row|
  {
    if row != [] { NoNulMembers(row[1..]); }
  }

  lemma NoNulPrinted(row: seq<Pair>)
    requires forall i :: 0 <= i < |row| ==> NUL !in row[i].name && NUL !in row[i].value
    ensures NUL !in Printed(row)
  {
    NoNulMembers(row);
  }

  // JSON_ENCODE_END does not pass its brace, so a second round of the row loop
  // would overwrite it, and the reader refuses such a text there.
  lemma SecondRowRefused(t: seq<Attr>, memory: seq<string>, row: seq<Pair>, next: string)
    requires Fits(t, memory) && row != [] && GoodRow(t, row)
    ensures ReadObject(t, memory, Unclosed(row) + ("{" + next)).code == BadTrail
  {
    var items := Items(row);
    var but, last := items[..|items| - 1], items[|items| - 1];
    UnclosedIsCommas(row, "{" + next);
    var text := CommasThen(but, ItemThen(last, "{" + next));
    assert "" + ("{" + text) == "{" + text;
    GarbageRefused(t, memory, "", but, last, '{', next);
  }

  lemma {:induction false} CommasAreMembers(row: seq<Pair>, s: string)
    ensures CommasThen(Items(row), s) == Members(row) + s
    decreases |row|
  {
    if row == [] {
      assert Members(row) + s == s;
    } else {
      assert Items(row)[1..] == Items(row[1..]);
      CommasAreMembers(row[1..], s);
      ItemIsMember(row[0], CommasThen(Items(row[1..]), s));
      assert Member(row[0]) + (Members(row[1..]) + s) == Members(row) + s;
    }
  }

  lemma UnclosedIsCommas(row: seq<Pair>, s: string)
    requires row != []
    ensures var items := Items(row);
            Unclosed(row) + s == "{" + CommasThen(items[..|items| - 1], ItemThen(items[|items| - 1], s))
  {
    var n := |row| - 1;
    assert row == row[..n] + [row[n]];
    assert Items(row)[..n] == Items(row[..n]);
    MembersAppend(row[..n], [row[n]]);
    MemberAlone(row[n]);
    ItemIsMember(row[n], s);
    CommasAreMembers(row[..n], ItemThen(ItemOf(row[n]), s));
    var front, m := Members(row[..n]), Member(row[n]);
    assert Unclosed(row) == "{" + (front + m[..|m| - 1]);
  }
}
