// Arrays in objects and objects in arrays, as JsonNesting reads them: texts that
// are written out, read to their brackets and braces.
module JsonDocuments {
  import opened Common
  import opened JsonModel
  import opened JsonNesting
  import JsonRoundTrip

  // An element of an array is read from this text, up to the separator behind it.
  ghost predicate Reads(ts: Templates, number: string -> nat, e: Element, text: string)
    requires Closed(ts) && Refers(ts, e)
  {
    forall offset: nat, used: nat, s {:trigger ReadValue(ts, number, e, offset, used, text + s)} ::
      s != "" && s[0] in {',', ']'} ==> ReadValue(ts, number, e, offset, used, text + s) == (Done(s), used)
  }

  ghost predicate AllRead(ts: Templates, number: string -> nat, e: Element, texts: seq<string>)
    requires Closed(ts) && Refers(ts, e)
  {
    forall i :: 0 <= i < |texts| ==> Reads(ts, number, e, texts[i])
  }

  // These texts with commas between them, a bracket, and then s.
  function ListThen(texts: seq<string>, s: string): string
    requires texts != []
  {
    texts[0] + if |texts| == 1 then "]" + s else "," + ListThen(texts[1..], s)
  }

  // Elements that can be read are read to the bracket and counted, or refused if
  // there are more than maxlen.
  lemma {:induction false} ListRead(ts: Templates, number: string -> nat, a: Array, offset: nat, used: nat,
                                    texts: seq<string>, s: string)
    requires Closed(ts) && Refers(ts, a.element) && texts != [] && AllRead(ts, number, a.element, texts)
    ensures ReadElements(ts, number, a, offset, used, ListThen(texts, s))
         == if offset + |texts| <= a.maxlen then Filled("]" + s, offset + |texts|) else Refused(SubTooLong)
    decreases |texts|
  {
    if offset >= a.maxlen {
      TooMany(ts, number, a, offset, used, ListThen(texts, s));
    } else {
      assert Reads(ts, number, a.element, texts[0]);
      if |texts| == 1 {
        LastElement(ts, number, a, offset, used, ListThen(texts, s), used, s);
      } else {
        var more := ListThen(texts[1..], s);
        assert ("," + more)[0] == ',';
        ListRead(ts, number, a, offset + 1, used, texts[1..], s);
        MoreElements(ts, number, a, offset, used, ListThen(texts, s), used, more);
      }
    }
  }

  // Between an element and its separator there may be one white space, but not two.
  lemma OneSpaceBehind(ts: Templates, number: string -> nat, a: Array, offset: nat, used: nat, s: string,
                       c: char, d: char, rest: string, used': nat)
    requires Closed(ts) && Refers(ts, a.element) && offset < a.maxlen && IsSpace(c)
    requires ReadValue(ts, number, a.element, offset, used, s) == (Done([c, d] + rest), used')
    ensures ReadElements(ts, number, a, offset, used, s)
         == if d == ']' then Filled([d] + rest, offset + 1)
            else if d == ',' then ReadElements(ts, number, a, offset + 1, used', rest)
            else Refused(BadSubTrail)
  {
    var behind := [c, d] + rest;
    assert behind[1..] == [d] + rest && ([d] + rest)[1..] == rest;
    assert SkipAtMostOne(behind) == [d] + rest;
  }

  // ---- elements that can be read ---------------------------------------------------------

  lemma BooleanReads(ts: Templates, number: string -> nat, b: bool)
    requires Closed(ts)
    ensures Reads(ts, number, Booleans, if b then "true" else "false")
  {
    var text := if b then "true" else "false";
    forall offset: nat, used: nat, s | s != "" && s[0] in {',', ']'}
      ensures ReadValue(ts, number, Booleans, offset, used, text + s) == (Done(s), used)
    {
      assert (text + s)[..|text|] == text && (text + s)[|text|..] == s;
      assert (text + s)[0] == text[0];
    }
  }

  // strtol and the others stop at the separator.
  lemma NumberReads(ts: Templates, number: string -> nat, text: string)
    requires Closed(ts) && text != ""
    requires forall s :: s != "" && s[0] in {',', ']'} ==> number(text + s) == |text|
    ensures Reads(ts, number, Numbers, text)
  {
    forall offset: nat, used: nat, s | s != "" && s[0] in {',', ']'}
      ensures ReadValue(ts, number, Numbers, offset, used, text + s) == (Done(s), used)
    {
      assert (text + s)[|text|..] == s;
    }
  }

  // Nothing is read of an array of times, so its elements are empty texts.
  lemma TimeReads(ts: Templates, number: string -> nat)
    requires Closed(ts)
    ensures Reads(ts, number, Times, "")
  {
    forall s
      ensures "" + s == s
    {
    }
  }

  lemma NotANumber(ts: Templates, number: string -> nat, a: Array, offset: nat, used: nat, s: string)
    requires Closed(ts) && a.element.Numbers? && offset < a.maxlen && number(s) == 0
    ensures ReadElements(ts, number, a, offset, used, s) == Refused(BadNum)
  {
    assert ReadValue(ts, number, a.element, offset, used, s) == (Failed(BadNum), used);
  }

  // Arrays of any other type have no elements, and are refused unless maxlen is 0.
  lemma OthersRefused(ts: Templates, number: string -> nat, a: Array, s: string)
    requires Closed(ts) && a.element.Others? && a.maxlen > 0
    ensures ReadElements(ts, number, a, 0, 0, s) == Refused(SubType)
  {
    assert ReadValue(ts, number, a.element, 0, 0, s) == (Failed(SubType), 0);
  }

  // An object as JsonRoundTrip writes it, with nothing behind it.
  function ObjectText(w: string, items: seq<JsonRoundTrip.Item>): string
    requires items != []
  {
    JsonRoundTrip.ObjectThen(w, items, "")
  }

  lemma ItemAppends(it: JsonRoundTrip.Item, a: string, b: string)
    ensures JsonRoundTrip.ItemThen(it, a + b) == JsonRoundTrip.ItemThen(it, a) + b
  {
    var v := it.value + ("\"" + (it.w4 + a));
    assert it.value + ("\"" + (it.w4 + (a + b))) == v + b;
    var n := it.w2 + (":" + (it.w3 + ("\"" + v)));
    assert it.w2 + (":" + (it.w3 + ("\"" + (v + b)))) == n + b;
    assert it.w1 + ("\"" + (it.name + ("\"" + (n + b)))) == it.w1 + ("\"" + (it.name + ("\"" + n))) + b;
  }

  lemma {:induction false} BodyAppends(items: seq<JsonRoundTrip.Item>, s: string)
    requires items != []
    ensures JsonRoundTrip.BodyThen(items, s) == JsonRoundTrip.BodyThen(items, "") + s
    decreases |items|
  {
    if |items| == 1 {
      assert "}" + s == ("}" + "") + s;
      ItemAppends(items[0], "}" + "", s);
    } else {
      var more := "," + JsonRoundTrip.BodyThen(items[1..], "");
      BodyAppends(items[1..], s);
      assert "," + JsonRoundTrip.BodyThen(items[1..], s) == more + s;
      ItemAppends(items[0], more, s);
    }
  }

  lemma ObjectAppends(w: string, items: seq<JsonRoundTrip.Item>, s: string)
    requires items != []
    ensures ObjectText(w, items) + s == JsonRoundTrip.ObjectThen(w, items, s)
  {
    BodyAppends(items, s);
    var body := JsonRoundTrip.BodyThen(items, "");
    Before("{", body, s);
    Before(w, "{" + body, s);
  }

  lemma ObjectParses(t: seq<Attr>, m: Machine, w: string, items: seq<JsonRoundTrip.Item>, s: string)
    requires Sane(t, m) && m.mode == Init && JsonRoundTrip.AllSpace(w)
    requires items != [] && JsonRoundTrip.GoodItems(t, items)
    ensures var o := Parse(t, m, JsonRoundTrip.ObjectThen(w, items, s)); o.code == Ok && o.end == Some(|SkipSpace(s)|)
  {
    var body := JsonRoundTrip.BodyThen(items, s);
    JsonRoundTrip.Spaces(t, m, w, "{" + body);
    JsonRoundTrip.One(t, m, '{', body);
    JsonRoundTrip.ReadBody(t, m.(mode := AwaitAttr), items, s);
  }

  // A non-empty object of strings is read by json_internal_read_object.
  lemma ObjectRead(ts: Templates, number: string -> nat, k: nat, w: string, items: seq<JsonRoundTrip.Item>, s: string)
    requires Closed(ts) && k < |ts| && AllText(ts[k]) && JsonRoundTrip.AllSpace(w)
    requires items != [] && JsonRoundTrip.GoodItems(Flat(ts[k]), items)
    requires s != "" && s[0] in {',', ']'}
    ensures ReadObjectFrom(ts, number, k, At(Fresh(ts[k])), ObjectText(w, items) + s) == Done(s)
  {
    var text := JsonRoundTrip.ObjectThen(w, items, s);
    ObjectAppends(w, items, s);
    ObjectParses(Flat(ts[k]), Fresh(ts[k]), w, items, s);
    SameAsParse(ts, number, k, Fresh(ts[k]), text);
    JsonRoundTrip.ObjectEnds(w, items, s);
    var o, read := Parse(Flat(ts[k]), Fresh(ts[k]), text), ReadObjectFrom(ts, number, k, At(Fresh(ts[k])), text);
    DoneAt(o, read, text, s);
  }

  lemma DoneAt(o: Outcome, read: Read, text: string, s: string)
    requires Agrees(o, read, text) && o.code == Ok && o.end == Some(|SkipSpace(s)|)
    requires JsonRoundTrip.EndsWith(text, s) && s != "" && !IsSpace(s[0])
    ensures read == Done(s)
  {
  }

  lemma ObjectReads(ts: Templates, number: string -> nat, k: nat, w: string, items: seq<JsonRoundTrip.Item>)
    requires Closed(ts) && k < |ts| && AllText(ts[k]) && JsonRoundTrip.AllSpace(w)
    requires items != [] && JsonRoundTrip.GoodItems(Flat(ts[k]), items)
    ensures Reads(ts, number, Objects(k, true), ObjectText(w, items))
  {
    var text := ObjectText(w, items);
    forall offset: nat, used: nat, s | s != "" && s[0] in {',', ']'}
      ensures ReadValue(ts, number, Objects(k, true), offset, used, text + s) == (Done(s), used)
    {
      ObjectRead(ts, number, k, w, items, s);
      StructRead(ts, number, k, offset, used, text + s);
    }
  }

  lemma StructRead(ts: Templates, number: string -> nat, k: nat, offset: nat, used: nat, s: string)
    requires Closed(ts) && k < |ts|
    ensures ReadValue(ts, number, Objects(k, true), offset, used, s)
         == (ReadObjectFrom(ts, number, k, At(Fresh(ts[k])), s), used)
  {
  }

  lemma FirstParallel(ts: Templates, number: string -> nat, k: nat, used: nat, s: string)
    requires Closed(ts) && k < |ts|
    ensures ReadValue(ts, number, Objects(k, false), 0, used, s)
         == (ReadObjectFrom(ts, number, k, At(Fresh(ts[k])), s), used)
  {
  }

  lemma SecondParallel(ts: Templates, number: string -> nat, a: Array, k: nat, used: nat, s: string)
    requires Closed(ts) && k < |ts| && AllText(ts[k]) && ts[k] != [] && a.element == Objects(k, false) && a.maxlen >= 2
    ensures ReadElements(ts, number, a, 1, used, s) == Refused(NoParStr)
  {
    assert ts[k][0].kind.Text?;
    assert ReadValue(ts, number, Objects(k, false), 1, used, s) == (Failed(NoParStr), used);
  }

  // In an array of parallel objects a string attribute allows for one object only.
  lemma ParallelStringsRefused(ts: Templates, number: string -> nat, a: Array, k: nat, w: string,
                               items: seq<JsonRoundTrip.Item>, more: string)
    requires Closed(ts) && k < |ts| && AllText(ts[k]) && ts[k] != [] && JsonRoundTrip.AllSpace(w)
    requires items != [] && JsonRoundTrip.GoodItems(Flat(ts[k]), items)
    requires a.element == Objects(k, false) && a.maxlen >= 2
    ensures ReadElements(ts, number, a, 0, 0, ObjectText(w, items) + ("," + more)) == Refused(NoParStr)
  {
    var text, comma := ObjectText(w, items), "," + more;
    assert comma[0] == ',';
    ObjectRead(ts, number, k, w, items, comma);
    FirstParallel(ts, number, k, 0, text + comma);
    MoreElements(ts, number, a, 0, 0, text + comma, 0, more);
    SecondParallel(ts, number, a, k, 0, more);
  }

  // ---- an array as a value ---------------------------------------------------------------

  function BodyOf(texts: seq<string>, s: string): string { if texts == [] then "]" + s else ListThen(texts, s) }

  // An array of such elements, with white space before and behind its bracket.
  function ArrayThen(w: string, gap: string, texts: seq<string>, s: string): string {
    w + ("[" + (gap + BodyOf(texts, s)))
  }

  lemma {:induction false} SpaceSkipped(w: string, s: string)
    requires JsonRoundTrip.AllSpace(w) && (s == "" || !IsSpace(s[0]))
    ensures SkipSpace(w + s) == s
    decreases |w|
  {
    if w == "" {
      assert w + s == s;
    } else {
      assert (w + s)[0] == w[0] && (w + s)[1..] == w[1..] + s;
      SpaceSkipped(w[1..], s);
    }
  }

  // It is read to its bracket and counted, or refused if it is too long.
  lemma ArrayIsRead(ts: Templates, number: string -> nat, a: Array, w: string, gap: string, texts: seq<string>,
                    s: string)
    requires Closed(ts) && Refers(ts, a.element) && JsonRoundTrip.AllSpace(w) && JsonRoundTrip.AllSpace(gap)
    requires AllRead(ts, number, a.element, texts)
    requires forall i :: 0 <= i < |texts| ==> texts[i] != "" && !IsSpace(texts[i][0]) && texts[i][0] != ']'
    ensures ReadArray(ts, number, a, ArrayThen(w, gap, texts, s))
         == if |texts| <= a.maxlen then Filled("]" + s, |texts|) else Refused(SubTooLong)
  {
    var body := BodyOf(texts, s);
    var text := ArrayThen(w, gap, texts, s);
    assert body != "" && !IsSpace(body[0]) && (texts != [] ==> body[0] != ']');
    assert ("[" + (gap + body))[0] == '[' && ("[" + (gap + body))[1..] == gap + body;
    SpaceSkipped(w, "[" + (gap + body));
    SpaceSkipped(gap, body);
    ArrayTurn(ts, number, a, text, ReadArray(ts, number, a, text));
    if texts != [] {
      ListRead(ts, number, a, 0, 0, texts, s);
    }
  }

  // ---- an array in an object -------------------------------------------------------------

  lemma OneTurn(ts: Templates, number: string -> nat, k: nat, st: State, c: char, s: string)
    requires Closed(ts) && k < |ts| && Standing(ts[k], st)
    ensures ([c] + s)[0] == c && ([c] + s)[1..] == s
    ensures var (turn, read) := (Switch(ts[k], st, [c] + s), ReadObjectFrom(ts, number, k, st, [c] + s));
            && (turn.Onward? ==> read == ReadObjectFrom(ts, number, k, turn.st, s))
            && (turn.Return? ==> read == turn.read)
  {
  }

  predicate SkipsSpace(st: State) { st.AfterArray? || st.m.mode in {Init, AwaitAttr, AwaitValue} }

  lemma {:induction false} SpaceTurns(ts: Templates, number: string -> nat, k: nat, st: State, w: string, s: string)
    requires Closed(ts) && k < |ts| && Standing(ts[k], st) && SkipsSpace(st) && JsonRoundTrip.AllSpace(w)
    ensures ReadObjectFrom(ts, number, k, st, w + s) == ReadObjectFrom(ts, number, k, st, s)
    decreases |w|
  {
    if w == "" {
      assert w + s == s;
    } else {
      assert w + s == [w[0]] + (w[1..] + s);
      OneTurn(ts, number, k, st, w[0], w[1..] + s);
      SpaceTurns(ts, number, k, st, w[1..], s);
    }
  }

  lemma {:induction false} NameTurns(ts: Templates, number: string -> nat, k: nat, m: Machine, name: string, s: string)
    requires Closed(ts) && k < |ts| && Sane(Flat(ts[k]), m) && m.mode == InAttr
    requires JsonRoundTrip.NoneOf(name, {'"'}) && |m.attrbuf| + |name| <= JSON_ATTR_MAX - 1
    ensures ReadObjectFrom(ts, number, k, At(m), name + s)
         == ReadObjectFrom(ts, number, k, At(m.(attrbuf := m.attrbuf + name)), s)
    decreases |name|
  {
    if name == "" {
      assert name + s == s && m.attrbuf + name == m.attrbuf;
    } else {
      var c, more := name[0], name[1..];
      assert name == [c] + more;
      Before([c], more, s);
      OneTurn(ts, number, k, At(m), c, more + s);
      NameTurns(ts, number, k, m.(attrbuf := m.attrbuf + [c]), more, s);
      Before(m.attrbuf, [c], more);
    }
  }

  // The name of an attribute up to its colon, with white space.
  datatype Tag = Tag(w1: string, name: string, w2: string, w3: string) {
    predicate Fits(t: seq<Entry>) {
      && JsonRoundTrip.AllSpace(w1) && JsonRoundTrip.AllSpace(w2) && JsonRoundTrip.AllSpace(w3)
      && JsonRoundTrip.NoneOf(name, {'"'}) && |name| <= JSON_ATTR_MAX - 1 && Find(Flat(t), name) < |t|
    }

    function Then(s: string): string { w1 + ("\"" + (name + ("\"" + (w2 + (":" + (w3 + s)))))) }
  }

  lemma NameRead(ts: Templates, number: string -> nat, k: nat, m: Machine, tag: Tag, s: string) returns (m': Machine)
    requires Closed(ts) && k < |ts| && Sane(Flat(ts[k]), m) && m.mode == AwaitAttr && tag.Fits(ts[k])
    ensures Sane(Flat(ts[k]), m') && m'.mode == InAttr && m'.attrbuf == tag.name
    ensures ReadObjectFrom(ts, number, k, At(m), tag.w1 + ("\"" + (tag.name + s)))
         == ReadObjectFrom(ts, number, k, At(m'), s)
  {
    SpaceTurns(ts, number, k, At(m), tag.w1, "\"" + (tag.name + s));
    OneTurn(ts, number, k, At(m), '"', tag.name + s);
    var m1 := m.(mode := InAttr, attrbuf := "", end := Some(|"\"" + (tag.name + s)|));
    NameTurns(ts, number, k, m1, tag.name, s);
    assert "" + tag.name == tag.name;
    m' := m1.(attrbuf := tag.name);
  }

  lemma ColonRead(ts: Templates, number: string -> nat, k: nat, m: Machine, w2: string, w3: string, s: string)
    requires Closed(ts) && k < |ts| && Sane(Flat(ts[k]), m) && m.mode == AwaitValue
    requires JsonRoundTrip.AllSpace(w2) && JsonRoundTrip.AllSpace(w3)
    ensures ReadObjectFrom(ts, number, k, At(m), w2 + (":" + (w3 + s))) == ReadObjectFrom(ts, number, k, At(m), s)
  {
    SpaceTurns(ts, number, k, At(m), w2, ":" + (w3 + s));
    OneTurn(ts, number, k, At(m), ':', w3 + s);
    SpaceTurns(ts, number, k, At(m), w3, s);
  }

  lemma TagRead(ts: Templates, number: string -> nat, k: nat, m: Machine, tag: Tag, s: string) returns (m': Machine)
    requires Closed(ts) && k < |ts| && Sane(Flat(ts[k]), m) && m.mode == AwaitAttr && tag.Fits(ts[k])
    ensures Sane(Flat(ts[k]), m') && m'.mode == AwaitValue && m'.cursor == Find(Flat(ts[k]), tag.name)
    ensures ReadObjectFrom(ts, number, k, At(m), tag.Then(s)) == ReadObjectFrom(ts, number, k, At(m'), s)
  {
    var colon := tag.w2 + (":" + (tag.w3 + s));
    var m1 := NameRead(ts, number, k, m, tag, "\"" + colon);
    OneTurn(ts, number, k, At(m1), '"', colon);
    m' := m1.(mode := AwaitValue, cursor := Find(Flat(ts[k]), tag.name), valbuf := "");
    ColonRead(ts, number, k, m', tag.w2, tag.w3, s);
  }

  // The array of an attribute is read, and the loop goes on behind its bracket.
  lemma ArrayEntered(ts: Templates, number: string -> nat, k: nat, m: Machine, w: string, texts: seq<string>, s: string)
    requires Closed(ts) && k < |ts| && Sane(Flat(ts[k]), m) && AwaitsArray(ts[k], At(m))
    requires var a := ts[k][m.cursor].kind.elems;
             Refers(ts, a.element) && AllRead(ts, number, a.element, texts) && |texts| <= a.maxlen
    requires JsonRoundTrip.AllSpace(w)
    requires forall i :: 0 <= i < |texts| ==> texts[i] != "" && !IsSpace(texts[i][0]) && texts[i][0] != ']'
    ensures ReadObjectFrom(ts, number, k, At(m), ArrayThen("", w, texts, s))
         == ReadObjectFrom(ts, number, k, AfterArray(m), s)
  {
    var a, text := ts[k][m.cursor].kind.elems, ArrayThen("", w, texts, s);
    ArrayIsRead(ts, number, a, "", w, texts, s);
    assert text != "" && text[0] == '[';
    var elements := ReadArray(ts, number, a, text);
    assert elements == Filled("]" + s, |texts|) && elements.rest[1..] == s;
    CallTurn(ts, number, k, At(m), text, ReadObjectFrom(ts, number, k, At(m), text), elements);
  }

  // Anything else in the place of an array is refused.
  lemma NotAnArray(ts: Templates, number: string -> nat, k: nat, m: Machine, c: char, s: string)
    requires Closed(ts) && k < |ts| && Sane(Flat(ts[k]), m) && AwaitsArray(ts[k], At(m))
    requires !IsSpace(c) && c != ':' && c != '['
    ensures ReadObjectFrom(ts, number, k, At(m), [c] + s) == Failed(NoBrak)
  {
    OneTurn(ts, number, k, At(m), c, s);
  }

  lemma {:induction false} SeeksLast(t: seq<Entry>, name: string, cursor: nat, last: nat)
    requires cursor <= last < |t| && forall i :: cursor < i <= last ==> t[i].name == name
    requires last + 1 < |t| ==> t[last + 1].name != name
    ensures Seek(t, name, cursor) == last
    decreases last - cursor
  {
    if cursor < last { SeeksLast(t, name, cursor + 1, last); }
  }

  // A value without quotes is refused, unless the last of the neighbouring entries
  // of its name is an array: then it is read over.
  lemma UnquotedValue(ts: Templates, number: string -> nat, k: nat, m: Machine, last: nat, s: string)
    requires Closed(ts) && k < |ts| && Sane(Flat(ts[k]), m) && m.mode == PostVal && !m.quoted
    requires m.cursor <= last < |ts[k]| && forall i :: m.cursor < i <= last ==> ts[k][i].name == m.attrbuf
    requires last + 1 < |ts[k]| ==> ts[k][last + 1].name != m.attrbuf
    ensures ReadObjectFrom(ts, number, k, At(m), "," + s)
         == if ts[k][last].kind.List? then ReadObjectFrom(ts, number, k, At(m.(mode := AwaitAttr, cursor := last)), s)
            else Failed(NonQString)
  {
    SeeksLast(ts[k], m.attrbuf, m.cursor, last);
    OneTurn(ts, number, k, At(m), ',', s);
  }

  // An object with one attribute that is an array, of anything that can be read, is
  // read to its brace, whatever the white space; *end is then the first non-space
  // after it.
  lemma ObjectOfArrayRead(ts: Templates, number: string -> nat, k: nat, w: string, tag: Tag, gap: string,
                          texts: seq<string>, trail: string, rest: string)
    requires Closed(ts) && k < |ts| && tag.Fits(ts[k]) && ts[k][Find(Flat(ts[k]), tag.name)].kind.List?
    requires var a := ts[k][Find(Flat(ts[k]), tag.name)].kind.elems;
             Refers(ts, a.element) && AllRead(ts, number, a.element, texts) && |texts| <= a.maxlen
    requires JsonRoundTrip.AllSpace(w) && JsonRoundTrip.AllSpace(gap) && JsonRoundTrip.AllSpace(trail)
    requires forall i :: 0 <= i < |texts| ==> texts[i] != "" && !IsSpace(texts[i][0]) && texts[i][0] != ']'
    ensures ReadObjectFrom(ts, number, k, At(Fresh(ts[k])),
                           w + ("{" + tag.Then(ArrayThen("", gap, texts, trail + ("}" + rest)))))
         == Done(SkipSpace(rest))
  {
    var tail := trail + ("}" + rest);
    var list := ArrayThen("", gap, texts, tail);
    var body := tag.Then(list);
    var m := BraceRead(ts, number, k, w, body);
    var m' := TagRead(ts, number, k, m, tag, list);
    RestRead(ts, number, k, m', gap, texts, trail, rest);
  }

  lemma BraceRead(ts: Templates, number: string -> nat, k: nat, w: string, body: string) returns (m: Machine)
    requires Closed(ts) && k < |ts| && JsonRoundTrip.AllSpace(w)
    ensures Sane(Flat(ts[k]), m) && m.mode == AwaitAttr
    ensures ReadObjectFrom(ts, number, k, At(Fresh(ts[k])), w + ("{" + body))
         == ReadObjectFrom(ts, number, k, At(m), body)
  {
    SpaceTurns(ts, number, k, At(Fresh(ts[k])), w, "{" + body);
    OneTurn(ts, number, k, At(Fresh(ts[k])), '{', body);
    m := Fresh(ts[k]).(mode := AwaitAttr);
  }

  lemma RestRead(ts: Templates, number: string -> nat, k: nat, m: Machine, gap: string, texts: seq<string>,
                 trail: string, rest: string)
    requires Closed(ts) && k < |ts| && Sane(Flat(ts[k]), m) && AwaitsArray(ts[k], At(m))
    requires var a := ts[k][m.cursor].kind.elems;
             Refers(ts, a.element) && AllRead(ts, number, a.element, texts) && |texts| <= a.maxlen
    requires JsonRoundTrip.AllSpace(gap) && JsonRoundTrip.AllSpace(trail)
    requires forall i :: 0 <= i < |texts| ==> texts[i] != "" && !IsSpace(texts[i][0]) && texts[i][0] != ']'
    ensures ReadObjectFrom(ts, number, k, At(m), ArrayThen("", gap, texts, trail + ("}" + rest)))
         == Done(SkipSpace(rest))
  {
    ArrayEntered(ts, number, k, m, gap, texts, trail + ("}" + rest));
    SpaceTurns(ts, number, k, AfterArray(m), trail, "}" + rest);
    ClosesAfterArray(ts, number, k, m, rest);
  }

  lemma ClosesAfterArray(ts: Templates, number: string -> nat, k: nat, m: Machine, rest: string)
    requires Closed(ts) && k < |ts| && Sane(Flat(ts[k]), m)
    ensures ReadObjectFrom(ts, number, k, AfterArray(m), "}" + rest) == Done(SkipSpace(rest))
  {
    OneTurn(ts, number, k, AfterArray(m), '}', rest);
    SpaceBehindBrace(rest);
  }

  lemma SpaceBehindBrace(rest: string)
    ensures var text := "}" + rest; text[|text| - |SkipSpace(rest)|..] == SkipSpace(rest)
  {
    var w := JsonRoundTrip.SkipsSpaces(rest);
  }

  // Behind a comma the next attribute is read.
  lemma GoesOnAfterArray(ts: Templates, number: string -> nat, k: nat, m: Machine, rest: string)
    requires Closed(ts) && k < |ts| && Sane(Flat(ts[k]), m)
    ensures ReadObjectFrom(ts, number, k, AfterArray(m), "," + rest)
         == ReadObjectFrom(ts, number, k, At(m.(mode := AwaitAttr)), rest)
  {
    OneTurn(ts, number, k, AfterArray(m), ',', rest);
  }

  // ---- any depth -------------------------------------------------------------------------

  // Such an object as a text of its own.
  function NestText(w: string, tag: Tag, gap: string, texts: seq<string>, trail: string): string {
    w + ("{" + tag.Then(ArrayThen("", gap, texts, trail + "}")))
  }

  lemma Before(p: string, a: string, b: string)
    ensures p + (a + b) == (p + a) + b
  {
  }

  lemma {:induction false} ListAppends(texts: seq<string>, a: string, b: string)
    requires texts != []
    ensures ListThen(texts, a + b) == ListThen(texts, a) + b
    decreases |texts|
  {
    if |texts| == 1 {
      Before("]", a, b);
      Before(texts[0], "]" + a, b);
    } else {
      var more := ListThen(texts[1..], a);
      ListAppends(texts[1..], a, b);
      Before(",", more, b);
      Before(texts[0], "," + more, b);
    }
  }

  lemma ArrayAppends(gap: string, texts: seq<string>, a: string, b: string)
    ensures ArrayThen("", gap, texts, a + b) == ArrayThen("", gap, texts, a) + b
  {
    if texts == [] {
      Before("]", a, b);
    } else {
      ListAppends(texts, a, b);
    }
    var body := BodyOf(texts, a);
    assert BodyOf(texts, a + b) == body + b;
    Before(gap, body, b);
    Before("[", gap + body, b);
    Before("", "[" + (gap + body), b);
  }

  lemma TagAppends(tag: Tag, a: string, b: string)
    ensures tag.Then(a + b) == tag.Then(a) + b
  {
    var s1 := tag.w3 + a;
    Before(tag.w3, a, b);
    var s2 := ":" + s1;
    Before(":", s1, b);
    var s3 := tag.w2 + s2;
    Before(tag.w2, s2, b);
    var s4 := "\"" + s3;
    Before("\"", s3, b);
    var s5 := tag.name + s4;
    Before(tag.name, s4, b);
    var s6 := "\"" + s5;
    Before("\"", s5, b);
    Before(tag.w1, s6, b);
  }

  lemma NestAppends(w: string, tag: Tag, gap: string, texts: seq<string>, trail: string, s: string)
    ensures NestText(w, tag, gap, texts, trail) + s
         == w + ("{" + tag.Then(ArrayThen("", gap, texts, trail + ("}" + s))))
  {
    Before(trail, "}", s);
    var close := trail + "}";
    ArrayAppends(gap, texts, close, s);
    var list := ArrayThen("", gap, texts, close);
    TagAppends(tag, list, s);
    var body := tag.Then(list);
    Before("{", body, s);
    Before(w, "{" + body, s);
  }

  // It can be read as an element of another array, and so on to any depth.
  lemma NestReads(ts: Templates, number: string -> nat, k: nat, w: string, tag: Tag, gap: string,
                  texts: seq<string>, trail: string)
    requires Closed(ts) && k < |ts| && tag.Fits(ts[k]) && ts[k][Find(Flat(ts[k]), tag.name)].kind.List?
    requires var a := ts[k][Find(Flat(ts[k]), tag.name)].kind.elems;
             Refers(ts, a.element) && AllRead(ts, number, a.element, texts) && |texts| <= a.maxlen
    requires JsonRoundTrip.AllSpace(w) && JsonRoundTrip.AllSpace(gap) && JsonRoundTrip.AllSpace(trail)
    requires forall i :: 0 <= i < |texts| ==> texts[i] != "" && !IsSpace(texts[i][0]) && texts[i][0] != ']'
    ensures Reads(ts, number, Objects(k, true), NestText(w, tag, gap, texts, trail))
  {
    var text := NestText(w, tag, gap, texts, trail);
    forall offset: nat, used: nat, s | s != "" && s[0] in {',', ']'}
      ensures ReadValue(ts, number, Objects(k, true), offset, used, text + s) == (Done(s), used)
    {
      NestAppends(w, tag, gap, texts, trail, s);
      ObjectOfArrayRead(ts, number, k, w, tag, gap, texts, trail, s);
      StructRead(ts, number, k, offset, used, text + s);
    }
  }
}
