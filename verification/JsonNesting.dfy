// Objects within arrays within objects in lib/mjson.c: the mutual recursion of
// json_internal_read_object and json_read_array.  Attributes are strings, read by
// the machine of JsonModel, or arrays; what the elements of an array store is left
// out, so that only codes and positions are modelled.
module JsonNesting {
  import opened Common
  import opened JsonModel

  // A template refers to the templates of its sub-objects by their number, since
  // it can contain itself.
  datatype Element =
    | Strings(storelen: nat)
    | Objects(subtype: nat, inStruct: bool)   // t_structobject, otherwise t_object
    | Numbers                                 // integers and reals
    | Booleans
    | Times                                   // compiled without TIME_ENABLE
    | Others

  datatype Array = Array(element: Element, maxlen: nat)

  datatype Kind = Text(len: nat) | List(elems: Array)

  datatype Entry = Entry(name: string, kind: Kind)

  type Templates = seq<seq<Entry>>

  predicate Closed(ts: Templates) {
    forall k, i :: 0 <= k < |ts| && 0 <= i < |ts[k]| && ts[k][i].kind.List? && ts[k][i].kind.elems.element.Objects? ==>
      ts[k][i].kind.elems.element.subtype < |ts|
  }

  predicate Refers(ts: Templates, e: Element) { e.Objects? ==> e.subtype < |ts| }

  // The template as the machine for strings sees it.
  function Flat(t: seq<Entry>): (f: seq<Attr>)
    ensures |f| == |t| && forall i :: 0 <= i < |t| ==> f[i].name == t[i].name
    ensures forall i :: 0 <= i < |t| && t[i].kind.Text? ==> f[i].len == t[i].kind.len
  {
    seq(|t|, i requires 0 <= i < |t| => Attr(t[i].name, if t[i].kind.Text? then t[i].kind.len else 1))
  }

  // Success with the text that is left at *end, or the error returned.
  datatype Read = Done(rest: string) | Failed(code: Code)

  // The same for an array, with what is stored at its count.
  datatype ArrayRead = Filled(rest: string, count: nat) | Refused(code: Code)

  // A state of the loop: as in JsonModel, or post_array.
  datatype State = At(m: Machine) | AfterArray(m: Machine)

  predicate AwaitsArray(t: seq<Entry>, st: State) {
    st.At? && st.m.mode == AwaitValue && st.m.cursor < |t| && t[st.m.cursor].kind.List?
  }

  function Rank(st: State): nat { if st.At? && st.m.mode == InValToken then 2 else 1 }

  predicate Standing(t: seq<Entry>, st: State) {
    Sane(Flat(t), st.m)
  }

  // What the switch does at a character: go on to the next one, look at it again,
  // call json_read_array, or return.
  datatype Turn = Onward(st: State) | Again(st: State) | Enter(elems: Array) | Return(read: Read)

  function Onwards(n: Next, s: string): Turn
    requires n.Stop? && n.outcome.code == Ok ==> n.outcome.end.Some? && n.outcome.end.value < |s|
  {
    match n
    case Continue(m) => Onward(At(m))
    case PushBack(m) => Again(At(m))
    case Stop(o) => Return(if o.code == Ok then Done(s[|s| - o.end.value..]) else Failed(o.code))
  }

  // The search for another entry of the same name in the case post_val.
  function Seek(t: seq<Entry>, name: string, cursor: nat): (k: nat)
    requires cursor < |t|
    ensures cursor <= k < |t|
    decreases |t| - cursor
  {
    if cursor + 1 < |t| && t[cursor + 1].name == name then Seek(t, name, cursor + 1) else cursor
  }

  // A value without quotes, for which the search ends at an array: it is ignored.
  predicate Ignored(t: seq<Entry>, m: Machine)
    requires Sane(Flat(t), m)
  {
    m.mode == PostVal && !m.quoted && t[Seek(t, m.attrbuf, m.cursor)].kind.List?
  }

  function Switch(t: seq<Entry>, st: State, s: string): (turn: Turn)
    requires Standing(t, st) && s != ""
    ensures turn.Onward? || turn.Again? ==> Standing(t, turn.st)
    ensures turn.Again? ==> Rank(turn.st) < Rank(st)
    ensures turn.Enter? ==> AwaitsArray(t, st) && turn.elems == t[st.m.cursor].kind.elems && s[0] == '['
    ensures turn.Return? && turn.read.Done? ==> |turn.read.rest| < |s|
  {
    if st.AfterArray? then
      if IsSpace(s[0]) then Onward(st) else Onwards(PostArray(st.m, s), s)
    else if AwaitsArray(t, st) then
      if IsSpace(s[0]) || s[0] == ':' then Onward(st)
      else if s[0] == '[' then Enter(t[st.m.cursor].kind.elems)
      else Return(Failed(NoBrak))
    else if Ignored(t, st.m) then
      Onwards(PostArray(st.m.(cursor := Seek(t, st.m.attrbuf, st.m.cursor)), s), s)
    else
      Onwards(Step(Flat(t), st.m, s), s)
  }

  // The loop of json_internal_read_object.  A success uses some of the text, unless
  // there is none.
  function ReadObjectFrom(ts: Templates, number: string -> nat, k: nat, st: State, s: string): (r: Read)
    requires Closed(ts) && k < |ts| && Standing(ts[k], st)
    ensures r.Done? ==> |r.rest| <= |s| && (s == "" || |r.rest| < |s|)
    decreases |s|, Rank(st)
  {
    if s == "" then Done("")
    else
      match Switch(ts[k], st, s)
      case Onward(st') => ReadObjectFrom(ts, number, k, st', s[1..])
      case Again(st') => ReadObjectFrom(ts, number, k, st', s)
      case Return(read) => read
      case Enter(elems) =>
        match ReadArray(ts, number, elems, s)
        case Refused(code) => Failed(code)
        case Filled(rest, _) => ReadObjectFrom(ts, number, k, AfterArray(st.m), rest[1..])
  }

  function Fresh(t: seq<Entry>): (m: Machine)
    ensures Sane(Flat(t), m) && m.mode == Init
  {
    Machine(Init, "", "", 0, false, seq(|t|, _ => ""), None)
  }

  // json_internal_read_object for an element of an array.
  function ReadElement(ts: Templates, number: string -> nat, k: nat, inStruct: bool, offset: nat, s: string): (r: Read)
    requires Closed(ts) && k < |ts|
    ensures r.Done? ==> |r.rest| <= |s| && (s == "" || |r.rest| < |s|)
    decreases |s|, 3
  {
    if !inStruct && offset > 0 && exists i :: 0 <= i < |ts[k]| && ts[k][i].kind.Text? then Failed(NoParStr)
    else ReadObjectFrom(ts, number, k, At(Fresh(ts[k])), s)
  }

  // The characters of a string element up to its closing quote; `used` are the
  // characters of the store that are taken.
  function ReadStored(storelen: nat, used: nat, s: string): (r: Option<(nat, string)>)
    ensures r.Some? ==> |r.value.1| < |s| && used < r.value.0 <= storelen
    decreases |s|
  {
    if used >= storelen || s == "" then None
    else if s[0] == '"' then Some((used + 1, s[1..]))
    else ReadStored(storelen, used + 1, s[1..])
  }

  function SkipAtMostOne(s: string): (r: string)
    ensures |r| <= |s|
  {
    if s != "" && IsSpace(s[0]) then s[1..] else s
  }

  function ReadString(storelen: nat, used: nat, s: string): (r: (Read, nat))
    ensures r.0.Done? ==> |r.0.rest| <= |s|
  {
    var s1 := SkipAtMostOne(s);
    if s1 == "" || s1[0] != '"' then (Failed(BadString), used)
    else
      match ReadStored(storelen, used, s1[1..])
      case None => (Failed(BadString), used)
      case Some((used', rest)) => (Done(rest), used')
  }

  predicate Begins(s: string, word: string) { |word| <= |s| && s[..|word|] == word }

  // The switch over the element type: the text behind the element, and how much of
  // the store is then taken.
  function ReadValue(ts: Templates, number: string -> nat, e: Element, offset: nat, used: nat, s: string)
    : (r: (Read, nat))
    requires Closed(ts) && Refers(ts, e)
    ensures r.0.Done? ==> |r.0.rest| <= |s|
    decreases |s|, 4
  {
    match e
    case Strings(storelen) => ReadString(storelen, used, s)
    case Objects(subtype, inStruct) => (ReadElement(ts, number, subtype, inStruct, offset, s), used)
    case Numbers =>
      var n := if number(s) <= |s| then number(s) else |s|;
      (if n == 0 then Failed(BadNum) else Done(s[n..]), used)
    case Booleans => (Done(if Begins(s, "true") then s[4..] else if Begins(s, "false") then s[5..] else s), used)
    case Times => (Done(s), used)
    case Others => (Failed(SubType), used)
  }

  // The loop of json_read_array, from its offset on.
  function ReadElements(ts: Templates, number: string -> nat, a: Array, offset: nat, used: nat, s: string)
    : (r: ArrayRead)
    requires Closed(ts) && Refers(ts, a.element)
    ensures r.Filled? ==> r.rest != "" && r.rest[0] == ']' && |r.rest| <= |s|
    ensures r.Filled? ==> offset < r.count <= a.maxlen
    decreases |s|, 5
  {
    if offset >= a.maxlen then Refused(SubTooLong)
    else
      var (value, used') := ReadValue(ts, number, a.element, offset, used, s);
      match value
      case Failed(code) => Refused(code)
      case Done(rest) =>
        var s1 := SkipAtMostOne(rest);
        if s1 != "" && s1[0] == ']' then Filled(s1, offset + 1)
        else if s1 != "" && s1[0] == ',' then ReadElements(ts, number, a, offset + 1, used', s1[1..])
        else Refused(BadSubTrail)
  }

  // json_read_array.  A success uses some of the text and leaves the bracket.
  function ReadArray(ts: Templates, number: string -> nat, a: Array, s: string): (r: ArrayRead)
    requires Closed(ts) && Refers(ts, a.element)
    ensures r.Filled? ==> r.rest != "" && r.rest[0] == ']' && |r.rest| < |s| && r.count <= a.maxlen
    decreases |s|, 0
  {
    var s1 := SkipSpace(s);
    if s1 == "" || s1[0] != '[' then Refused(ArrayStart)
    else
      var s2 := SkipSpace(s1[1..]);
      if s2 != "" && s2[0] == ']' then Filled(s2, 0) else ReadElements(ts, number, a, 0, 0, s2)
  }

  // ---- one turn of each loop -----------------------------------------------------------

  // The loop of json_read_array will return this, and so will json_read_array.
  ghost predicate Collects(ts: Templates, number: string -> nat, a: Array, offset: nat, used: nat, s: string,
                           read: ArrayRead) {
    Closed(ts) && Refers(ts, a.element) && ReadElements(ts, number, a, offset, used, s) == read
  }

  ghost predicate Gives(ts: Templates, number: string -> nat, a: Array, s: string, read: ArrayRead) {
    Closed(ts) && Refers(ts, a.element) && ReadArray(ts, number, a, s) == read
  }

  // The same behind an element.
  ghost predicate Continues(ts: Templates, number: string -> nat, a: Array, offset: nat, used: nat, s: string,
                            read: ArrayRead) {
    var s1 := SkipAtMostOne(s);
    if s1 != "" && s1[0] == ']' then read == Filled(s1, offset + 1)
    else if s1 != "" && s1[0] == ',' then Collects(ts, number, a, offset + 1, used, s1[1..], read)
    else read == Refused(BadSubTrail)
  }

  lemma ElementTurn(ts: Templates, number: string -> nat, a: Array, offset: nat, used: nat, s: string, read: ArrayRead,
                    value: (Read, nat))
    requires Collects(ts, number, a, offset, used, s, read) && offset < a.maxlen
    requires value == ReadValue(ts, number, a.element, offset, used, s)
    ensures value.0.Failed? ==> read == Refused(value.0.code)
    ensures value.0.Done? ==> Continues(ts, number, a, offset, value.1, value.0.rest, read)
  {
  }

  lemma ArrayTurn(ts: Templates, number: string -> nat, a: Array, s: string, read: ArrayRead)
    requires Gives(ts, number, a, s, read)
    ensures var s1 := SkipSpace(s);
            if s1 == "" || s1[0] != '[' then read == Refused(ArrayStart)
            else
              var s2 := SkipSpace(s1[1..]);
              if s2 != "" && s2[0] == ']' then read == Filled(s2, 0) else Collects(ts, number, a, 0, 0, s2, read)
  {
  }

  // From here on the loop of json_internal_read_object will return this.
  ghost predicate Leads(ts: Templates, number: string -> nat, k: nat, st: State, s: string, read: Read)
    requires Closed(ts)
  {
    k < |ts| && Standing(ts[k], st) && ReadObjectFrom(ts, number, k, st, s) == read
  }

  lemma ObjectTurn(ts: Templates, number: string -> nat, k: nat, st: State, s: string, read: Read)
    requires Closed(ts) && Leads(ts, number, k, st, s, read) && s != ""
    ensures var turn := Switch(ts[k], st, s);
            && (turn.Onward? ==> Leads(ts, number, k, turn.st, s[1..], read))
            && (turn.Again? ==> Leads(ts, number, k, turn.st, s, read))
            && (turn.Return? ==> read == turn.read)
  {
  }

  lemma CallTurn(ts: Templates, number: string -> nat, k: nat, st: State, s: string, read: Read, elements: ArrayRead)
    requires Closed(ts) && Leads(ts, number, k, st, s, read) && s != ""
    requires var turn := Switch(ts[k], st, s); turn.Enter? && Gives(ts, number, turn.elems, s, elements)
    ensures elements.Refused? ==> read == Failed(elements.code)
    ensures elements.Filled? ==>
              && elements.rest != "" && |elements.rest| < |s|
              && Leads(ts, number, k, AfterArray(st.m), elements.rest[1..], read)
  {
  }

  // ---- what the recursion comes to ---------------------------------------------------

  // An object read may use nothing, at the end of the text, and it may reach the
  // end of the text; the array then refuses it.
  lemma TruncatedRefused(ts: Templates, number: string -> nat, a: Array, offset: nat, used: nat, s: string)
    requires Closed(ts) && Refers(ts, a.element) && a.element.Objects? && offset < a.maxlen
    requires ReadElement(ts, number, a.element.subtype, a.element.inStruct, offset, s) == Done("")
    ensures ReadElements(ts, number, a, offset, used, s) == Refused(BadSubTrail)
  {
    assert ReadValue(ts, number, a.element, offset, used, s) == (Done(""), used);
    assert SkipAtMostOne("") == "";
  }

  lemma NothingLeft(ts: Templates, number: string -> nat, k: nat, st: State)
    requires Closed(ts) && k < |ts| && Standing(ts[k], st)
    ensures ReadObjectFrom(ts, number, k, st, "") == Done("")
  {
  }

  // String elements with commas between them, a bracket, and then s.
  function StringsThen(items: seq<string>, s: string): string
    requires items != []
  {
    StringThen(items[0], if |items| == 1 then "]" + s else "," + StringsThen(items[1..], s))
  }

  function StringThen(item: string, s: string): string { "\"" + (item + ("\"" + s)) }

  predicate Storable(items: seq<string>) { forall i :: 0 <= i < |items| ==> '"' !in items[i] }

  // What these elements take of the store, each with its NUL.
  function Size(items: seq<string>): nat {
    if items == [] then 0 else |items[0]| + 1 + Size(items[1..])
  }

  lemma {:induction false} StoresString(storelen: nat, used: nat, item: string, s: string)
    requires '"' !in item && used + |item| < storelen
    ensures ReadStored(storelen, used, item + ("\"" + s)) == Some((used + |item| + 1, s))
    decreases |item|
  {
    var text := item + ("\"" + s);
    if item == "" {
      assert text == "\"" + s && text[1..] == s;
    } else {
      assert text[0] == item[0] && text[1..] == item[1..] + ("\"" + s);
      StoresString(storelen, used + 1, item[1..], s);
    }
  }

  lemma ReadsString(storelen: nat, used: nat, item: string, s: string)
    requires '"' !in item && used + |item| < storelen
    ensures ReadString(storelen, used, "\"" + (item + ("\"" + s))) == (Done(s), used + |item| + 1)
  {
    var text := "\"" + (item + ("\"" + s));
    assert SkipAtMostOne(text) == text && text[1..] == item + ("\"" + s);
    StoresString(storelen, used, item, s);
  }

  lemma LastElement(ts: Templates, number: string -> nat, a: Array, offset: nat, used: nat, s: string, used': nat,
                    rest: string)
    requires Closed(ts) && Refers(ts, a.element) && offset < a.maxlen
    requires ReadValue(ts, number, a.element, offset, used, s) == (Done("]" + rest), used')
    ensures ReadElements(ts, number, a, offset, used, s) == Filled("]" + rest, offset + 1)
  {
    var value := "]" + rest;
    assert value[0] == ']' && SkipAtMostOne(value) == value;
  }

  lemma MoreElements(ts: Templates, number: string -> nat, a: Array, offset: nat, used: nat, s: string, used': nat,
                     rest: string)
    requires Closed(ts) && Refers(ts, a.element) && offset < a.maxlen
    requires ReadValue(ts, number, a.element, offset, used, s) == (Done("," + rest), used')
    ensures ReadElements(ts, number, a, offset, used, s) == ReadElements(ts, number, a, offset + 1, used', rest)
  {
    var value := "," + rest;
    assert value[0] == ',' && SkipAtMostOne(value) == value && value[1..] == rest;
  }

  lemma TooMany(ts: Templates, number: string -> nat, a: Array, offset: nat, used: nat, s: string)
    requires Closed(ts) && Refers(ts, a.element) && offset >= a.maxlen
    ensures ReadElements(ts, number, a, offset, used, s) == Refused(SubTooLong)
  {
  }

  // What an array of these strings is read as.
  function Counted(items: seq<string>, offset: nat, maxlen: nat, s: string): ArrayRead {
    if offset + |items| <= maxlen then Filled("]" + s, offset + |items|) else Refused(SubTooLong)
  }

  lemma LastString(ts: Templates, number: string -> nat, a: Array, offset: nat, used: nat, item: string, s: string)
    requires Closed(ts) && a.element.Strings? && offset < a.maxlen
    requires '"' !in item && used + |item| < a.element.storelen
    ensures ReadElements(ts, number, a, offset, used, StringThen(item, "]" + s)) == Filled("]" + s, offset + 1)
  {
    ReadsString(a.element.storelen, used, item, "]" + s);
    LastElement(ts, number, a, offset, used, StringThen(item, "]" + s), used + |item| + 1, s);
  }

  lemma NextString(ts: Templates, number: string -> nat, a: Array, offset: nat, used: nat, item: string, more: string)
    requires Closed(ts) && a.element.Strings? && offset < a.maxlen
    requires '"' !in item && used + |item| < a.element.storelen
    ensures ReadElements(ts, number, a, offset, used, StringThen(item, "," + more))
         == ReadElements(ts, number, a, offset + 1, used + |item| + 1, more)
  {
    ReadsString(a.element.storelen, used, item, "," + more);
    MoreElements(ts, number, a, offset, used, StringThen(item, "," + more), used + |item| + 1, more);
  }

  // An array of strings that fit the store is read to its bracket exactly when it
  // has at most maxlen elements, and they are counted.
  lemma {:induction false} ReadsStrings(ts: Templates, number: string -> nat, a: Array, offset: nat, used: nat,
                                        items: seq<string>, s: string)
    requires Closed(ts) && a.element.Strings? && items != [] && Storable(items)
    requires used + Size(items) <= a.element.storelen
    ensures ReadElements(ts, number, a, offset, used, StringsThen(items, s)) == Counted(items, offset, a.maxlen, s)
    decreases |items|
  {
    if offset >= a.maxlen {
      TooMany(ts, number, a, offset, used, StringsThen(items, s));
    } else if |items| == 1 {
      LastString(ts, number, a, offset, used, items[0], s);
    } else {
      var more := StringsThen(items[1..], s);
      ReadsStrings(ts, number, a, offset + 1, used + |items[0]| + 1, items[1..], s);
      NextString(ts, number, a, offset, used, items[0], more);
      assert StringsThen(items, s) == StringThen(items[0], "," + more);
    }
  }

  lemma {:induction false} StoreTooSmall(storelen: nat, used: nat, item: string, s: string)
    requires '"' !in item && used + |item| >= storelen
    ensures ReadStored(storelen, used, item + ("\"" + s)) == None
    decreases |item|
  {
    if used < storelen {
      var text := item + ("\"" + s);
      assert text[0] == item[0] && text[1..] == item[1..] + ("\"" + s);
      StoreTooSmall(storelen, used + 1, item[1..], s);
    }
  }

  lemma ElementRefused(ts: Templates, number: string -> nat, a: Array, offset: nat, used: nat, item: string, s: string)
    requires Closed(ts) && a.element.Strings? && offset < a.maxlen
    requires '"' !in item && used + |item| >= a.element.storelen
    ensures ReadElements(ts, number, a, offset, used, StringThen(item, s)) == Refused(BadString)
  {
    var text := StringThen(item, s);
    assert SkipAtMostOne(text) == text && text[1..] == item + ("\"" + s);
    StoreTooSmall(a.element.storelen, used, item, s);
    assert ReadValue(ts, number, a.element, offset, used, text) == (Failed(BadString), used);
  }

  // If they do not fit, and are not more than maxlen, the array is refused.
  lemma {:induction false} StringsRefused(ts: Templates, number: string -> nat, a: Array, offset: nat, used: nat,
                                          items: seq<string>, s: string)
    requires Closed(ts) && a.element.Strings? && items != [] && Storable(items)
    requires used + Size(items) > a.element.storelen && offset + |items| <= a.maxlen
    ensures ReadElements(ts, number, a, offset, used, StringsThen(items, s)) == Refused(BadString)
    decreases |items|
  {
    if used + |items[0]| >= a.element.storelen {
      ElementRefused(ts, number, a, offset, used, items[0],
                     if |items| == 1 then "]" + s else "," + StringsThen(items[1..], s));
    } else {
      var more := StringsThen(items[1..], s);
      StringsRefused(ts, number, a, offset + 1, used + |items[0]| + 1, items[1..], s);
      NextString(ts, number, a, offset, used, items[0], more);
      assert StringsThen(items, s) == StringThen(items[0], "," + more);
    }
  }

  ghost predicate AllText(t: seq<Entry>) {
    forall i :: 0 <= i < |t| ==> t[i].kind.Text?
  }

  lemma SwitchIsStep(t: seq<Entry>, m: Machine, s: string)
    requires AllText(t) && Sane(Flat(t), m) && s != ""
    ensures Switch(t, At(m), s) == Onwards(Step(Flat(t), m, s), s)
  {
  }

  // A read as the outcome of the machine for strings says it.
  predicate Agrees(o: Outcome, read: Read, s: string) {
    if o.code == Ok then o.end.Some? && o.end.value <= |s| && read == Done(s[|s| - o.end.value..])
    else read == Failed(o.code)
  }

  lemma ObjectTurns(ts: Templates, number: string -> nat, k: nat, m: Machine, s: string)
    requires Closed(ts) && k < |ts| && AllText(ts[k]) && Sane(Flat(ts[k]), m) && s != ""
    ensures var read, n := ReadObjectFrom(ts, number, k, At(m), s), Step(Flat(ts[k]), m, s);
            && (n.Continue? ==> read == ReadObjectFrom(ts, number, k, At(n.m), s[1..]))
            && (n.PushBack? ==> read == ReadObjectFrom(ts, number, k, At(n.m), s))
            && (n.Stop? ==> Agrees(n.outcome, read, s))
  {
    SwitchIsStep(ts[k], m, s);
  }

  // What the machine leaves of a text's tail it leaves of the text.
  lemma AgreesLater(o: Outcome, read: Read, s: string)
    requires s != "" && Agrees(o, read, s[1..])
    ensures Agrees(o, read, s)
  {
    if o.code == Ok {
      var n := o.end.value;
      assert s[1..][|s| - 1 - n..] == s[|s| - n..];
    }
  }

  // On templates of strings this is the machine of JsonModel.
  lemma {:induction false} SameAsParse(ts: Templates, number: string -> nat, k: nat, m: Machine, s: string)
    requires Closed(ts) && k < |ts| && AllText(ts[k]) && Sane(Flat(ts[k]), m)
    ensures Agrees(Parse(Flat(ts[k]), m, s), ReadObjectFrom(ts, number, k, At(m), s), s)
    decreases |s|, if m.mode == InValToken then 1 else 0
  {
    if s != "" {
      ObjectTurns(ts, number, k, m, s);
      ParseTurns(Flat(ts[k]), m, s);
      match Step(Flat(ts[k]), m, s)
      case Continue(m') =>
        SameAsParse(ts, number, k, m', s[1..]);
        AgreesLater(Parse(Flat(ts[k]), m', s[1..]), ReadObjectFrom(ts, number, k, At(m'), s[1..]), s);
      case PushBack(m') => SameAsParse(ts, number, k, m', s);
      case Stop(_) =>
    }
  }
}
