// Reading back what the JSON_ENCODE macros print, with any white space between
// the tokens.
module JsonRoundTrip {
  import opened Common
  import opened JsonModel

  // One attribute as it stands in a text: w1 "name" w2 : w3 "value" w4
  datatype Item = Item(w1: string, name: string, w2: string, w3: string, value: string, w4: string)

  // An item, followed by s.
  function ItemThen(it: Item, s: string): string {
    it.w1 + ("\"" + NameThen(it, it.w2 + (":" + ValueThen(it, s))))
  }

  function NameThen(it: Item, s: string): string { it.name + ("\"" + s) }

  function ValueThen(it: Item, s: string): string { it.w3 + ("\"" + (it.value + ("\"" + (it.w4 + s)))) }

  // Items, each followed by a comma, and then s.
  function CommasThen(items: seq<Item>, s: string): string {
    if items == [] then s else ItemThen(items[0], "," + CommasThen(items[1..], s))
  }

  // Items with commas between them, a closing brace, and then s.
  function BodyThen(items: seq<Item>, s: string): string
    requires items != []
    decreases |items|
  {
    if |items| == 1 then ItemThen(items[0], "}" + s) else ItemThen(items[0], "," + BodyThen(items[1..], s))
  }

  // A non-empty object after white space w, and then s.
  function ObjectThen(w: string, items: seq<Item>, s: string): string
    requires items != []
  {
    w + ("{" + BodyThen(items, s))
  }

  predicate AllSpace(w: string) { forall i :: 0 <= i < |w| ==> IsSpace(w[i]) }

  predicate NoneOf(s: string, bad: set<char>) { forall i :: 0 <= i < |s| ==> s[i] !in bad }

  // The reader takes this value for an attribute of this length: it has no
  // escapes and at most len characters.
  predicate Acceptable(value: string, len: nat) {
    NoneOf(value, {'"', '\\', NUL}) && |value| <= len && |value| <= JSON_VAL_MAX
  }

  // The name is one of the template.
  predicate Named(t: seq<Attr>, it: Item) {
    && AllSpace(it.w1) && AllSpace(it.w2) && AllSpace(it.w3) && AllSpace(it.w4)
    && NoneOf(it.name, {'"'}) && |it.name| <= JSON_ATTR_MAX - 1
    && Find(t, it.name) < |t|
  }

  predicate GoodItem(t: seq<Attr>, it: Item) {
    Named(t, it) && Acceptable(it.value, t[Find(t, it.name)].len)
  }

  predicate GoodItems(t: seq<Attr>, items: seq<Item>) {
    forall i :: 0 <= i < |items| ==> GoodItem(t, items[i])
  }

  // The fields after these items.
  function Assign(t: seq<Attr>, fields: seq<string>, items: seq<Item>): (r: seq<string>)
    requires |fields| == |t| && GoodItems(t, items)
    ensures |r| == |t|
    decreases |items|
  {
    if items == [] then fields
    else
      var k := Find(t, items[0].name);
      Assign(t, fields[k := Strncpy(items[0].value, t[k].len)], items[1..])
  }

  // ---- stretches of text -----------------------------------------------------------

  lemma One(t: seq<Attr>, m: Machine, c: char, s: string)
    requires Sane(t, m)
    ensures ([c] + s)[0] == c && ([c] + s)[1..] == s
    ensures Step(t, m, [c] + s).Continue? ==> Parse(t, m, [c] + s) == Parse(t, Step(t, m, [c] + s).m, s)
    ensures Step(t, m, [c] + s).Stop? ==> Parse(t, m, [c] + s) == Step(t, m, [c] + s).outcome
  {
  }

  lemma {:induction false} Spaces(t: seq<Attr>, m: Machine, w: string, s: string)
    requires Sane(t, m) && m.mode in {Init, AwaitAttr, AwaitValue} && AllSpace(w)
    ensures Parse(t, m, w + s) == Parse(t, m, s)
    decreases |w|
  {
    if w == "" {
      assert w + s == s;
    } else {
      assert w + s == [w[0]] + (w[1..] + s);
      One(t, m, w[0], w[1..] + s);
      Spaces(t, m, w[1..], s);
    }
  }

  lemma {:induction false} SpacesAfterValue(t: seq<Attr>, m: Machine, w: string, s: string)
    requires Sane(t, m) && m.mode == PostVal && m.quoted && AllSpace(w) && s != ""
    ensures Parse(t, m, w + s) == Parse(t, Stored(t, m), s)
    decreases |w|
  {
    assert Stored(t, Stored(t, m)) == Stored(t, m);
    if w == "" {
      assert w + s == s;
      assert s == [s[0]] + s[1..];
    } else {
      assert w + s == [w[0]] + (w[1..] + s);
      One(t, m, w[0], w[1..] + s);
      SpacesAfterValue(t, Stored(t, m), w[1..], s);
    }
  }

  lemma {:induction false} NameChars(t: seq<Attr>, m: Machine, name: string, s: string)
    requires Sane(t, m) && m.mode == InAttr && NoneOf(name, {'"'}) && |m.attrbuf| + |name| <= JSON_ATTR_MAX - 1
    ensures Parse(t, m, name + s) == Parse(t, m.(attrbuf := m.attrbuf + name), s)
    decreases |name|
  {
    if name == "" {
      assert name + s == s && m.attrbuf + name == m.attrbuf;
    } else {
      assert name + s == [name[0]] + (name[1..] + s);
      One(t, m, name[0], name[1..] + s);
      var m' := m.(attrbuf := m.attrbuf + [name[0]]);
      NameChars(t, m', name[1..], s);
      assert m'.attrbuf + name[1..] == m.attrbuf + name;
    }
  }

  lemma {:induction false} ValueChars(t: seq<Attr>, m: Machine, value: string, s: string)
    requires Sane(t, m) && m.mode == InValString && NoneOf(value, {'"', '\\', NUL})
    requires |m.valbuf| + |value| <= t[m.cursor].len && |m.valbuf| + |value| <= JSON_VAL_MAX
    ensures Parse(t, m, value + s) == Parse(t, m.(valbuf := m.valbuf + value), s)
    decreases |value|
  {
    if value == "" {
      assert value + s == s && m.valbuf + value == m.valbuf;
    } else {
      assert value + s == [value[0]] + (value[1..] + s);
      One(t, m, value[0], value[1..] + s);
      var m' := m.(valbuf := m.valbuf + [value[0]]);
      ValueChars(t, m', value[1..], s);
      assert m'.valbuf + value[1..] == m.valbuf + value;
    }
  }

  // ---- one item -----------------------------------------------------------------------

  lemma ReadName(t: seq<Attr>, m: Machine, it: Item, s: string) returns (m': Machine)
    requires Sane(t, m) && m.mode == AwaitAttr && Named(t, it)
    ensures m' == Machine(AwaitValue, it.name, "", Find(t, it.name), m.quoted, m.fields, Some(|NameThen(it, s)| + 1))
    ensures Sane(t, m')
    ensures Parse(t, m, it.w1 + ("\"" + NameThen(it, s))) == Parse(t, m', s)
  {
    var tail := NameThen(it, s);
    Spaces(t, m, it.w1, "\"" + tail);
    One(t, m, '"', tail);
    var m1 := m.(mode := InAttr, attrbuf := "", end := Some(|"\"" + tail|));
    NameChars(t, m1, it.name, "\"" + s);
    assert "" + it.name == it.name;
    var m2 := m1.(attrbuf := it.name);
    One(t, m2, '"', s);
    m' := m2.(mode := AwaitValue, cursor := Find(t, it.name), valbuf := "");
  }

  lemma ReadValue(t: seq<Attr>, m: Machine, it: Item, s: string) returns (m': Machine)
    requires Sane(t, m) && m.mode == AwaitValue && GoodItem(t, it) && m.cursor == Find(t, it.name) && s != ""
    ensures m' == Stored(t, m.(mode := PostVal, quoted := true, valbuf := it.value)) && Sane(t, m')
    ensures Parse(t, m, it.w2 + (":" + ValueThen(it, s))) == Parse(t, m', s)
  {
    var v := it.value + ("\"" + (it.w4 + s));
    Spaces(t, m, it.w2, ":" + ValueThen(it, s));
    One(t, m, ':', ValueThen(it, s));
    Spaces(t, m, it.w3, "\"" + v);
    One(t, m, '"', v);
    var m1 := m.(mode := InValString, quoted := true, valbuf := "");
    ValueChars(t, m1, it.value, "\"" + (it.w4 + s));
    assert "" + it.value == it.value;
    var m2 := m1.(valbuf := it.value);
    One(t, m2, '"', it.w4 + s);
    var m3 := m2.(mode := PostVal);
    SpacesAfterValue(t, m3, it.w4, s);
    m' := Stored(t, m3);
  }

  lemma ReadItem(t: seq<Attr>, m: Machine, it: Item, s: string) returns (m': Machine)
    requires Sane(t, m) && m.mode == AwaitAttr && GoodItem(t, it) && s != ""
    ensures Sane(t, m') && m'.mode == PostVal && m'.quoted && Stored(t, m') == m'
    ensures m'.fields == Assign(t, m.fields, [it])
    ensures Parse(t, m, ItemThen(it, s)) == Parse(t, m', s)
  {
    var m1 := ReadName(t, m, it, it.w2 + (":" + ValueThen(it, s)));
    m' := ReadValue(t, m1, it, s);
    assert [it][1..] == [];
  }

  // ---- objects ---------------------------------------------------------------------------

  lemma {:induction false} AssignAppend(t: seq<Attr>, fields: seq<string>, a: seq<Item>, b: seq<Item>)
    requires |fields| == |t| && GoodItems(t, a) && GoodItems(t, b)
    ensures Assign(t, fields, a + b) == Assign(t, Assign(t, fields, a), b)
    decreases |a|
  {
    if a == [] {
      assert a + b == b;
    } else {
      assert (a + b)[0] == a[0] && (a + b)[1..] == a[1..] + b;
      AssignAppend(t, fields[Find(t, a[0].name) := Strncpy(a[0].value, t[Find(t, a[0].name)].len)], a[1..], b);
    }
  }

  lemma ReadItemAndComma(t: seq<Attr>, m: Machine, it: Item, s: string) returns (m': Machine)
    requires Sane(t, m) && m.mode == AwaitAttr && GoodItem(t, it)
    ensures Sane(t, m') && m'.mode == AwaitAttr && m'.fields == Assign(t, m.fields, [it])
    ensures Parse(t, m, ItemThen(it, "," + s)) == Parse(t, m', s)
  {
    var m1 := ReadItem(t, m, it, "," + s);
    One(t, m1, ',', s);
    m' := m1.(mode := AwaitAttr);
  }

  lemma {:induction false} ReadCommas(t: seq<Attr>, m: Machine, items: seq<Item>, s: string) returns (m': Machine)
    requires Sane(t, m) && m.mode == AwaitAttr && GoodItems(t, items)
    ensures Sane(t, m') && m'.mode == AwaitAttr && m'.fields == Assign(t, m.fields, items)
    ensures Parse(t, m, CommasThen(items, s)) == Parse(t, m', s)
    decreases |items|
  {
    if items == [] {
      m' := m;
    } else {
      var tail := CommasThen(items[1..], s);
      var m1 := ReadItemAndComma(t, m, items[0], tail);
      m' := ReadCommas(t, m1, items[1..], s);
      assert items == [items[0]] + items[1..];
      AssignAppend(t, m.fields, [items[0]], items[1..]);
    }
  }

  lemma Opens(t: seq<Attr>, memory: seq<string>, w: string, body: string) returns (m: Machine)
    requires Fits(t, memory) && AllSpace(w)
    ensures Sane(t, m) && m.mode == AwaitAttr && m.fields == Defaults(memory)
    ensures ReadObject(t, memory, w + ("{" + body)) == Parse(t, m, body)
  {
    var start := Start(t, memory);
    Spaces(t, start, w, "{" + body);
    One(t, start, '{', body);
    m := start.(mode := AwaitAttr);
  }

  lemma CloseStep(t: seq<Attr>, m: Machine, s: string)
    requires Sane(t, m) && m.mode == PostVal && m.quoted && s != "" && s[0] == '}'
    ensures Step(t, m, s) == Stop(Outcome(Ok, Stored(t, m).fields, Some(|SkipSpace(s[1..])|)))
  {
  }

  lemma CloseBrace(t: seq<Attr>, m: Machine, rest: string)
    requires Sane(t, m) && m.mode == PostVal && m.quoted && Stored(t, m) == m
    ensures Parse(t, m, "}" + rest) == Outcome(Ok, m.fields, Some(|SkipSpace(rest)|))
  {
    One(t, m, '}', rest);
    CloseStep(t, m, ['}'] + rest);
  }

  lemma Closes(t: seq<Attr>, m: Machine, it: Item, rest: string)
    requires Sane(t, m) && m.mode == AwaitAttr && GoodItem(t, it)
    ensures Parse(t, m, ItemThen(it, "}" + rest)) == Outcome(Ok, Assign(t, m.fields, [it]), Some(|SkipSpace(rest)|))
  {
    var m' := ReadItem(t, m, it, "}" + rest);
    CloseBrace(t, m', rest);
  }

  lemma {:induction false} ReadBody(t: seq<Attr>, m: Machine, items: seq<Item>, rest: string)
    requires Sane(t, m) && m.mode == AwaitAttr && items != [] && GoodItems(t, items)
    ensures Parse(t, m, BodyThen(items, rest)) == Outcome(Ok, Assign(t, m.fields, items), Some(|SkipSpace(rest)|))
    decreases |items|
  {
    assert items == [items[0]] + items[1..];
    if |items| == 1 {
      Closes(t, m, items[0], rest);
    } else {
      var m' := ReadItemAndComma(t, m, items[0], BodyThen(items[1..], rest));
      ReadBody(t, m', items[1..], rest);
      AssignAppend(t, m.fields, [items[0]], items[1..]);
    }
  }

  // A non-empty object is read to its closing brace, whatever follows; *end is
  // then the first non-space after it.
  lemma ReadsObject(t: seq<Attr>, memory: seq<string>, w: string, items: seq<Item>, rest: string)
    requires Fits(t, memory) && AllSpace(w) && items != [] && GoodItems(t, items)
    ensures ReadObject(t, memory, ObjectThen(w, items, rest))
         == Outcome(Ok, Assign(t, Defaults(memory), items), Some(|SkipSpace(rest)|))
  {
    var m := Opens(t, memory, w, BodyThen(items, rest));
    ReadBody(t, m, items, rest);
  }

  // ---- what the fields hold --------------------------------------------------------------

  predicate Terminated(field: string) { NUL in field }

  // The value of the last item with this name, or the empty string.
  function ValueOf(items: seq<Item>, name: string): string {
    if items == [] then ""
    else if items[|items| - 1].name == name then items[|items| - 1].value
    else ValueOf(items[..|items| - 1], name)
  }

  lemma {:induction false} CStringOfNuls(v: string, n: nat)
    requires NoneOf(v, {NUL})
    ensures CString(v + Nuls(n)) == v
    decreases |v|
  {
    var s := v + Nuls(n);
    if v != "" {
      assert s[0] == v[0] && s[1..] == v[1..] + Nuls(n);
      CStringOfNuls(v[1..], n);
      assert CString(s) == [s[0]] + CString(s[1..]);
    }
  }

  // A stored value is that value; it is terminated unless it fills its array.
  lemma StoredValue(v: string, len: nat)
    requires Acceptable(v, len)
    ensures CString(Strncpy(v, len)) == v
    ensures Terminated(Strncpy(v, len)) <==> |v| < len
    ensures v <= Strncpy(v, len) && forall i :: |v| <= i < len ==> Strncpy(v, len)[i] == NUL
  {
    CStringOfNuls(v, len - |v|);
    var s := Strncpy(v, len);
    if |v| < len {
      assert s[|v|] == NUL;
    } else {
      assert v + Nuls(0) == v == s;
    }
  }

  predicate DistinctNames(t: seq<Attr>) {
    forall i, j :: 0 <= i < j < |t| ==> t[i].name != t[j].name
  }

  // Every field holds its item's value, and is terminated unless that fills it.
  ghost predicate Holding(t: seq<Attr>, fields: seq<string>, items: seq<Item>) {
    && |fields| == |t|
    && (forall i :: 0 <= i < |t| ==> CString(fields[i]) == ValueOf(items, t[i].name))
    && (forall i :: 0 <= i < |t| ==> (Terminated(fields[i]) <==> |ValueOf(items, t[i].name)| < t[i].len))
  }

  lemma {:induction false} AssignHolds(t: seq<Attr>, memory: seq<string>, items: seq<Item>)
    requires Fits(t, memory) && DistinctNames(t) && GoodItems(t, items)
    ensures Holding(t, Assign(t, Defaults(memory), items), items)
    decreases |items|
  {
    if items == [] {
      assert forall i :: 0 <= i < |t| ==> Defaults(memory)[i][0] == NUL && CString(Defaults(memory)[i]) == "";
    } else {
      var n := |items| - 1;
      var before := Assign(t, Defaults(memory), items[..n]);
      AssignHolds(t, memory, items[..n]);
      AssignAppend(t, Defaults(memory), items[..n], [items[n]]);
      assert items == items[..n] + [items[n]];
      AssignOne(t, before, items[..n], items[n]);
    }
  }

  lemma AssignOne(t: seq<Attr>, fields: seq<string>, items: seq<Item>, it: Item)
    requires DistinctNames(t) && GoodItems(t, items) && GoodItem(t, it) && Holding(t, fields, items)
    ensures Holding(t, Assign(t, fields, [it]), items + [it])
  {
    var k := Find(t, it.name);
    StoredValue(it.value, t[k].len);
    var after := Assign(t, fields, [it]);
    var one := [it];
    assert one[0] == it && one[1..] == [];
    assert after == Assign(t, fields[k := Strncpy(it.value, t[k].len)], one[1..]);
    assert (items + [it])[..|items|] == items;
    forall i | 0 <= i < |t|
      ensures CString(after[i]) == ValueOf(items + [it], t[i].name)
      ensures Terminated(after[i]) <==> |ValueOf(items + [it], t[i].name)| < t[i].len
    {
      assert i != k ==> t[i].name != it.name;
    }
  }

  // ---- the main results ----------------------------------------------------------------------

  // Every attribute of a printed object is read into its field, whatever the
  // white space, and fields without one become empty.
  lemma RoundTrip(t: seq<Attr>, memory: seq<string>, w: string, items: seq<Item>, rest: string)
    requires Fits(t, memory) && DistinctNames(t) && AllSpace(w) && items != [] && GoodItems(t, items)
    ensures var o := ReadObject(t, memory, ObjectThen(w, items, rest));
            o.code == Ok && Holding(t, o.fields, items) && o.end == Some(|SkipSpace(rest)|)
  {
    ReadsObject(t, memory, w, items, rest);
    AssignHolds(t, memory, items);
  }

  ghost predicate DistinctItems(items: seq<Item>) {
    forall i, j :: 0 <= i < j < |items| ==> items[i].name != items[j].name
  }

  ghost predicate Gives(items: seq<Item>, name: string, value: string) {
    exists i :: 0 <= i < |items| && items[i].name == name && items[i].value == value
  }

  lemma {:induction false} ValueOfGiven(items: seq<Item>, name: string, value: string)
    requires DistinctItems(items) && Gives(items, name, value)
    ensures ValueOf(items, name) == value
    decreases |items|
  {
    var n := |items| - 1;
    var i :| 0 <= i < |items| && items[i].name == name && items[i].value == value;
    if i < n {
      assert items[..n][i] == items[i];
      ValueOfGiven(items[..n], name, value);
    }
  }

  lemma {:induction false} ValueOfAbsent(items: seq<Item>, name: string)
    requires forall i :: 0 <= i < |items| ==> items[i].name != name
    ensures ValueOf(items, name) == ""
    decreases |items|
  {
    if items != [] { ValueOfAbsent(items[..|items| - 1], name); }
  }

  lemma SameValues(items: seq<Item>, items': seq<Item>, name: string)
    requires DistinctItems(items) && DistinctItems(items')
    requires forall n, v :: Gives(items, n, v) <==> Gives(items', n, v)
    ensures ValueOf(items, name) == ValueOf(items', name)
  {
    if i :| 0 <= i < |items| && items[i].name == name {
      assert Gives(items, name, items[i].value);
      ValueOfGiven(items, name, items[i].value);
      ValueOfGiven(items', name, items[i].value);
    } else {
      forall i | 0 <= i < |items'|
        ensures items'[i].name != name
      {
        assert Gives(items', items'[i].name, items'[i].value);
      }
      ValueOfAbsent(items, name);
      ValueOfAbsent(items', name);
    }
  }

  // Neither the order of the attributes nor the white space matters: reading two
  // objects with the same attributes leaves the same value in every field.
  lemma OrderDoesNotMatter(t: seq<Attr>, memory: seq<string>, w: string, items: seq<Item>, rest: string,
                           memory': seq<string>, w': string, items': seq<Item>, rest': string)
    requires Fits(t, memory) && Fits(t, memory') && DistinctNames(t) && AllSpace(w) && AllSpace(w')
    requires items != [] && items' != [] && GoodItems(t, items) && GoodItems(t, items')
    requires DistinctItems(items) && DistinctItems(items')
    requires forall n, v :: Gives(items, n, v) <==> Gives(items', n, v)
    ensures var o := ReadObject(t, memory, ObjectThen(w, items, rest));
            var o' := ReadObject(t, memory', ObjectThen(w', items', rest'));
            && o.code == o'.code == Ok && |o.fields| == |o'.fields| == |t|
            && forall i :: 0 <= i < |t| ==> CString(o.fields[i]) == CString(o'.fields[i])
  {
    RoundTrip(t, memory, w, items, rest);
    RoundTrip(t, memory', w', items', rest');
    forall i | 0 <= i < |t|
      ensures ValueOf(items, t[i].name) == ValueOf(items', t[i].name)
    {
      SameValues(items, items', t[i].name);
    }
  }

  // *end points into the input at the place from which its tail is left.
  predicate PointsAt(input: string, end: Option<nat>, tail: string) {
    end == Some(|tail|) && EndsWith(input, tail)
  }

  // *end is at the first non-space after the object.
  lemma EndsAtRest(t: seq<Attr>, memory: seq<string>, w: string, items: seq<Item>, rest: string)
    requires Fits(t, memory) && AllSpace(w) && items != [] && GoodItems(t, items)
    ensures PointsAt(ObjectThen(w, items, rest), ReadObject(t, memory, ObjectThen(w, items, rest)).end, SkipSpace(rest))
  {
    ReadsObject(t, memory, w, items, rest);
    ObjectEnds(w, items, rest);
    SkipIsSuffix(ObjectThen(w, items, rest), rest);
  }

  // A concatenation of objects is read one by one: *end of the first read is
  // where the second object starts.
  lemma ReadsOneByOne(t: seq<Attr>, memory: seq<string>, w: string, items: seq<Item>,
                      w': string, items': seq<Item>, rest: string)
    requires Fits(t, memory) && items != [] && items' != [] && GoodItems(t, items) && GoodItems(t, items')
    requires AllSpace(w) && AllSpace(w')
    ensures var input := ObjectThen(w, items, ObjectThen(w', items', rest));
            PointsAt(input, ReadObject(t, memory, input).end, ObjectThen("", items', rest))
  {
    EndsAtRest(t, memory, w, items, ObjectThen(w', items', rest));
    SkipsToObject(w', items', rest);
  }

  lemma SkipsToObject(w: string, items: seq<Item>, s: string)
    requires AllSpace(w) && items != []
    ensures SkipSpace(ObjectThen(w, items, s)) == ObjectThen("", items, s)
  {
    var body := BodyThen(items, s);
    SkipsAll(w, "{" + body);
    assert "" + ("{" + body) == "{" + body;
  }

  lemma SkipIsSuffix(input: string, tail: string)
    requires EndsWith(input, tail)
    ensures EndsWith(input, SkipSpace(tail))
  {
  }

  lemma {:induction false} SkipsAll(w: string, s: string)
    requires AllSpace(w) && s != "" && !IsSpace(s[0])
    ensures SkipSpace(w + s) == s
    decreases |w|
  {
    if w == "" {
      assert w + s == s;
    } else {
      assert (w + s)[0] == w[0] && (w + s)[1..] == w[1..] + s;
      SkipsAll(w[1..], s);
    }
  }

  predicate EndsWith(s: string, tail: string) { |tail| <= |s| && s[|s| - |tail|..] == tail }

  lemma EndsTrans(a: string, b: string, c: string)
    requires EndsWith(a, b) && EndsWith(b, c)
    ensures EndsWith(a, c)
  {
  }

  lemma Prepended(p: string, s: string)
    ensures EndsWith(p + s, s)
  {
  }

  lemma ItemEnds(it: Item, s: string)
    ensures EndsWith(ItemThen(it, s), s)
  {
  }

  lemma {:induction false} BodyEnds(items: seq<Item>, s: string)
    requires items != []
    ensures EndsWith(BodyThen(items, s), s)
    decreases |items|
  {
    if |items| == 1 {
      ItemEnds(items[0], "}" + s);
      Prepended("}", s);
      EndsTrans(BodyThen(items, s), "}" + s, s);
    } else {
      var more := BodyThen(items[1..], s);
      BodyEnds(items[1..], s);
      Prepended(",", more);
      EndsTrans("," + more, more, s);
      ItemEnds(items[0], "," + more);
      EndsTrans(BodyThen(items, s), "," + more, s);
    }
  }

  lemma ObjectEnds(w: string, items: seq<Item>, s: string)
    requires items != []
    ensures EndsWith(ObjectThen(w, items, s), s)
  {
    var body := BodyThen(items, s);
    BodyEnds(items, s);
    Prepended("{", body);
    Prepended(w, "{" + body);
    EndsTrans("{" + body, body, s);
    EndsTrans(w + ("{" + body), "{" + body, s);
  }

  // ---- inside an object ----------------------------------------------------------------------------

  // An object that goes on with s behind some items.
  function Unfinished(w: string, items: seq<Item>, s: string): string { w + ("{" + CommasThen(items, s)) }

  // An item up to its colon, and then s.
  function Naming(it: Item, s: string): string { it.w1 + ("\"" + NameThen(it, it.w2 + (":" + s))) }

  // The fields when these items have been read.
  function After(t: seq<Attr>, memory: seq<string>, items: seq<Item>): seq<string>
    requires Fits(t, memory) && GoodItems(t, items)
  {
    Assign(t, Defaults(memory), items)
  }

  lemma AtAttribute(t: seq<Attr>, memory: seq<string>, w: string, items: seq<Item>, s: string) returns (m: Machine)
    requires Fits(t, memory) && AllSpace(w) && GoodItems(t, items)
    ensures Sane(t, m) && m.mode == AwaitAttr && m.fields == After(t, memory, items)
    ensures ReadObject(t, memory, Unfinished(w, items, s)) == Parse(t, m, s)
  {
    var m0 := Opens(t, memory, w, CommasThen(items, s));
    m := ReadCommas(t, m0, items, s);
  }

  // *end is at the opening quote of the name.
  lemma AtValue(t: seq<Attr>, memory: seq<string>, w: string, items: seq<Item>, it: Item, s: string)
    returns (m: Machine)
    requires Fits(t, memory) && AllSpace(w) && GoodItems(t, items) && Named(t, it)
    ensures Sane(t, m) && m.mode == AwaitValue && m.cursor == Find(t, it.name) && m.fields == After(t, memory, items)
    ensures m.end == Some(|NameThen(it, it.w2 + (":" + s))| + 1)
    ensures ReadObject(t, memory, Unfinished(w, items, Naming(it, s))) == Parse(t, m, s)
  {
    var m0 := AtAttribute(t, memory, w, items, Naming(it, s));
    m := ReadName(t, m0, it, it.w2 + (":" + s));
    Spaces(t, m, it.w2, ":" + s);
    One(t, m, ':', s);
  }

  lemma AtString(t: seq<Attr>, memory: seq<string>, w: string, items: seq<Item>, it: Item, s: string)
    returns (m: Machine)
    requires Fits(t, memory) && AllSpace(w) && GoodItems(t, items) && Named(t, it)
    ensures Sane(t, m) && m.mode == InValString && m.quoted && m.valbuf == ""
    ensures m.cursor == Find(t, it.name) && m.fields == After(t, memory, items)
    ensures m.end == Some(|NameThen(it, it.w2 + (":" + (it.w3 + ("\"" + s))))| + 1)
    ensures ReadObject(t, memory, Unfinished(w, items, Naming(it, it.w3 + ("\"" + s)))) == Parse(t, m, s)
  {
    var m0 := AtValue(t, memory, w, items, it, it.w3 + ("\"" + s));
    Spaces(t, m0, it.w3, "\"" + s);
    One(t, m0, '"', s);
    m := m0.(mode := InValString, quoted := true, valbuf := "");
  }

  // ---- what is refused -----------------------------------------------------------------------------

  // A text that does not start with a brace, after white space, is refused there.
  lemma NotAnObject(t: seq<Attr>, memory: seq<string>, w: string, c: char, s: string)
    requires Fits(t, memory) && AllSpace(w) && !IsSpace(c) && c != '{'
    ensures ReadObject(t, memory, w + ([c] + s)) == Outcome(ObStart, Defaults(memory), Some(|[c] + s|))
  {
    var m := Start(t, memory);
    Spaces(t, m, w, [c] + s);
    One(t, m, c, s);
  }

  // Where an attribute is awaited, anything but a quote or a brace is refused.
  lemma NotAnAttribute(t: seq<Attr>, memory: seq<string>, w: string, items: seq<Item>, w1: string, c: char, s: string)
    requires Fits(t, memory) && AllSpace(w) && GoodItems(t, items) && AllSpace(w1)
    requires !IsSpace(c) && c != '"' && c != '}'
    ensures ReadObject(t, memory, Unfinished(w, items, w1 + ([c] + s)))
         == Outcome(AttrStart, After(t, memory, items), Some(|[c] + s|))
  {
    var m := AtAttribute(t, memory, w, items, w1 + ([c] + s));
    Spaces(t, m, w1, [c] + s);
    One(t, m, c, s);
  }

  // An unknown attribute after some items: the fields keep what was read, and
  // *end is left at the opening quote of the name.
  lemma UnknownName(t: seq<Attr>, memory: seq<string>, w: string, items: seq<Item>, w1: string, name: string, s: string)
    requires Fits(t, memory) && AllSpace(w) && GoodItems(t, items) && AllSpace(w1)
    requires NoneOf(name, {'"'}) && |name| <= 30 && Find(t, name) == |t|
    ensures ReadObject(t, memory, Unfinished(w, items, w1 + ("\"" + (name + ("\"" + s)))))
         == Outcome(BadAttr, After(t, memory, items), Some(|"\"" + (name + ("\"" + s))|))
  {
    var tail := name + ("\"" + s);
    var m1 := AtAttribute(t, memory, w, items, w1 + ("\"" + tail));
    Spaces(t, m1, w1, "\"" + tail);
    One(t, m1, '"', tail);
    var m2 := m1.(mode := InAttr, attrbuf := "", end := Some(|"\"" + tail|));
    NameChars(t, m2, name, "\"" + s);
    assert "" + name == name;
    One(t, m2.(attrbuf := name), '"', s);
  }

  // A name of 31 or more characters.
  lemma LongName(t: seq<Attr>, memory: seq<string>, w: string, items: seq<Item>, w1: string, name: string, s: string)
    requires Fits(t, memory) && AllSpace(w) && GoodItems(t, items) && AllSpace(w1)
    requires NoneOf(name, {'"'}) && |name| >= 31
    ensures ReadObject(t, memory, Unfinished(w, items, w1 + ("\"" + (name + s))))
         == Outcome(AttrLen, After(t, memory, items), Some(|"\"" + (name + s)|))
  {
    var tail := name + s;
    var m1 := AtAttribute(t, memory, w, items, w1 + ("\"" + tail));
    Spaces(t, m1, w1, "\"" + tail);
    One(t, m1, '"', tail);
    LongNameChars(t, m1.(mode := InAttr, attrbuf := "", end := Some(|"\"" + tail|)), name, s);
  }

  lemma LongNameChars(t: seq<Attr>, m: Machine, name: string, s: string)
    requires Sane(t, m) && m.mode == InAttr && m.attrbuf == "" && NoneOf(name, {'"'}) && |name| >= JSON_ATTR_MAX
    ensures Parse(t, m, name + s) == Outcome(AttrLen, m.fields, m.end)
  {
    var fit, over := name[..JSON_ATTR_MAX - 1], name[JSON_ATTR_MAX..] + s;
    assert name + s == fit + ([name[JSON_ATTR_MAX - 1]] + over);
    assert |fit| == JSON_ATTR_MAX - 1 && NoneOf(fit, {'"'});
    NameChars(t, m, fit, [name[JSON_ATTR_MAX - 1]] + over);
    assert "" + fit == fit;
    One(t, m.(attrbuf := fit), name[JSON_ATTR_MAX - 1], over);
  }

  // A string value without escapes is taken exactly when it has at most len
  // characters (and at most 512), so one that fills its field unterminated too.
  lemma LongValue(t: seq<Attr>, memory: seq<string>, w: string, items: seq<Item>, it: Item, s: string)
    requires Fits(t, memory) && AllSpace(w) && GoodItems(t, items) && Named(t, it)
    requires NoneOf(it.value, {'"', '\\', NUL}) && !Acceptable(it.value, t[Find(t, it.name)].len)
    ensures ReadObject(t, memory, Unfinished(w, items, Naming(it, it.w3 + ("\"" + (it.value + s)))))
         == Outcome(StrLong, After(t, memory, items),
                    Some(|NameThen(it, it.w2 + (":" + (it.w3 + ("\"" + (it.value + s)))))| + 1))
  {
    var m := AtString(t, memory, w, items, it, it.value + s);
    LongValueChars(t, m, it.value, s);
  }

  lemma LongValueChars(t: seq<Attr>, m: Machine, value: string, s: string)
    requires Sane(t, m) && m.mode == InValString && m.valbuf == "" && NoneOf(value, {'"', '\\', NUL})
    requires t[m.cursor].len >= 1 && !Acceptable(value, t[m.cursor].len)
    ensures Parse(t, m, value + s) == Outcome(StrLong, m.fields, m.end)
  {
    var room := if t[m.cursor].len < JSON_VAL_MAX then t[m.cursor].len else JSON_VAL_MAX;
    var fit, over := value[..room], value[room + 1..] + s;
    assert value + s == fit + ([value[room]] + over);
    ValueChars(t, m, fit, [value[room]] + over);
    assert "" + fit == fit;
    One(t, m.(valbuf := fit), value[room], over);
  }

  // An array is refused at its bracket.
  lemma ArrayRefused(t: seq<Attr>, memory: seq<string>, w: string, items: seq<Item>, it: Item, s: string)
    requires Fits(t, memory) && AllSpace(w) && GoodItems(t, items) && Named(t, it)
    ensures ReadObject(t, memory, Unfinished(w, items, Naming(it, it.w3 + ("[" + s))))
         == Outcome(NoArray, After(t, memory, items), Some(|"[" + s|))
  {
    var m := AtValue(t, memory, w, items, it, it.w3 + ("[" + s));
    Spaces(t, m, it.w3, "[" + s);
    One(t, m, '[', s);
  }

  predicate Token(token: string) {
    && 0 < |token| <= JSON_VAL_MAX && token[0] !in {'"', '[', ':'}
    && forall i :: 0 <= i < |token| ==> !IsSpace(token[i]) && token[i] != ',' && token[i] != '}'
  }

  lemma {:induction false} TokenChars(t: seq<Attr>, m: Machine, token: string, s: string)
    requires Sane(t, m) && m.mode == InValToken && |m.valbuf| + |token| <= JSON_VAL_MAX
    requires forall i :: 0 <= i < |token| ==> !IsSpace(token[i]) && token[i] != ',' && token[i] != '}'
    ensures Parse(t, m, token + s) == Parse(t, m.(valbuf := m.valbuf + token), s)
    decreases |token|
  {
    if token == "" {
      assert token + s == s && m.valbuf + token == m.valbuf;
    } else {
      assert token + s == [token[0]] + (token[1..] + s);
      One(t, m, token[0], token[1..] + s);
      var m' := m.(valbuf := m.valbuf + [token[0]]);
      TokenChars(t, m', token[1..], s);
      assert m'.valbuf + token[1..] == m.valbuf + token;
    }
  }

  // An unquoted value is read to its delimiter and refused: at a comma or brace,
  // which is looked at again, or at the character behind a white space.
  lemma TokenRefused(t: seq<Attr>, memory: seq<string>, w: string, items: seq<Item>, it: Item, d: char, s: string)
    requires Fits(t, memory) && AllSpace(w) && GoodItems(t, items) && Named(t, it) && Token(it.value)
    requires d == ',' || d == '}' || (IsSpace(d) && s != "")
    ensures ReadObject(t, memory, Unfinished(w, items, Naming(it, it.w3 + (it.value + ([d] + s)))))
         == Outcome(NonQString, After(t, memory, items),
                    Some(|NameThen(it, it.w2 + (":" + (it.w3 + (it.value + ([d] + s)))))| + 1))
  {
    var m := AtValue(t, memory, w, items, it, it.w3 + (it.value + ([d] + s)));
    Spaces(t, m, it.w3, it.value + ([d] + s));
    TokenRead(t, m, it.value, d, s);
  }

  // One of more than 512 characters is refused there.
  lemma LongToken(t: seq<Attr>, memory: seq<string>, w: string, items: seq<Item>, it: Item, s: string)
    requires Fits(t, memory) && AllSpace(w) && GoodItems(t, items) && Named(t, it)
    requires |it.value| == 513 && Token(it.value[..512])
    requires !IsSpace(it.value[512]) && it.value[512] != ',' && it.value[512] != '}'
    ensures ReadObject(t, memory, Unfinished(w, items, Naming(it, it.w3 + (it.value + s))))
         == Outcome(TokLong, After(t, memory, items),
                    Some(|NameThen(it, it.w2 + (":" + (it.w3 + (it.value + s))))| + 1))
  {
    var m := AtValue(t, memory, w, items, it, it.w3 + (it.value + s));
    Spaces(t, m, it.w3, it.value + s);
    LongTokenChars(t, m, it.value, s);
  }

  lemma LongTokenChars(t: seq<Attr>, m: Machine, token: string, s: string)
    requires Sane(t, m) && m.mode == AwaitValue && |token| == JSON_VAL_MAX + 1 && Token(token[..JSON_VAL_MAX])
    requires !IsSpace(token[JSON_VAL_MAX]) && token[JSON_VAL_MAX] != ',' && token[JSON_VAL_MAX] != '}'
    ensures Parse(t, m, token + s) == Outcome(TokLong, m.fields, m.end)
  {
    var fit, d := token[..JSON_VAL_MAX], token[JSON_VAL_MAX];
    var c, more := fit[0], fit[1..];
    assert token + s == [c] + (more + ([d] + s));
    One(t, m, c, more + ([d] + s));
    var m1 := m.(mode := InValToken, quoted := false, valbuf := [c]);
    TokenChars(t, m1, more, [d] + s);
    One(t, m1.(valbuf := [c] + more), d, s);
  }

  lemma TokenRead(t: seq<Attr>, m: Machine, token: string, d: char, s: string)
    requires Sane(t, m) && m.mode == AwaitValue && Token(token)
    requires d == ',' || d == '}' || (IsSpace(d) && s != "")
    ensures Parse(t, m, token + ([d] + s)) == Outcome(NonQString, m.fields, m.end)
  {
    var c, more := token[0], token[1..];
    assert token + ([d] + s) == [c] + (more + ([d] + s));
    One(t, m, c, more + ([d] + s));
    var m1 := m.(mode := InValToken, quoted := false, valbuf := [c]);
    TokenChars(t, m1, more, [d] + s);
    TokenEnds(t, m1.(valbuf := [c] + more), d, s);
  }

  lemma TokenEnds(t: seq<Attr>, m: Machine, d: char, s: string)
    requires Sane(t, m) && m.mode == InValToken && !m.quoted
    requires d == ',' || d == '}' || (IsSpace(d) && s != "")
    ensures Parse(t, m, [d] + s) == Outcome(NonQString, m.fields, m.end)
  {
    One(t, m, d, s);
    var m' := m.(mode := PostVal);
    if IsSpace(d) {
      One(t, m', s[0], s[1..]);
      assert s == [s[0]] + s[1..];
    } else {
      assert Step(t, m, [d] + s) == PushBack(m');
      One(t, m', d, s);
    }
  }

  // Garbage after a value: the value is stored before it is refused.
  lemma GarbageRefused(t: seq<Attr>, memory: seq<string>, w: string, items: seq<Item>, it: Item, c: char, s: string)
    requires Fits(t, memory) && AllSpace(w) && GoodItems(t, items) && GoodItem(t, it)
    requires !IsSpace(c) && c != ',' && c != '}'
    ensures ReadObject(t, memory, Unfinished(w, items, ItemThen(it, [c] + s)))
         == Outcome(BadTrail, After(t, memory, items + [it]), Some(|[c] + s|))
  {
    var m := AtAttribute(t, memory, w, items, ItemThen(it, [c] + s));
    var m' := ReadItem(t, m, it, [c] + s);
    AssignAppend(t, Defaults(memory), items, [it]);
    One(t, m', c, s);
  }

  // ---- escapes ---------------------------------------------------------------------------------------

  // A character of a value as it is written.
  datatype Glyph = Plain(c: char) | Escape(c: char)

  predicate Readable(g: Glyph) {
    match g
    case Plain(c) => c !in {'"', '\\', NUL}
    case Escape(c) => c != 'u' && c != NUL
  }

  predicate AllReadable(gs: seq<Glyph>) { forall i :: 0 <= i < |gs| ==> Readable(gs[i]) }

  function GlyphThen(g: Glyph, s: string): string {
    match g
    case Plain(c) => [c] + s
    case Escape(c) => "\\" + ([c] + s)
  }

  // These characters as they are written, and then s.
  function WrittenThen(gs: seq<Glyph>, s: string): string {
    if gs == [] then s else GlyphThen(gs[0], WrittenThen(gs[1..], s))
  }

  function Value(g: Glyph): char { if g.Plain? then g.c else Escaped(g.c) }

  function Meaning(gs: seq<Glyph>): (v: string)
    ensures |v| == |gs|
  {
    if gs == [] then "" else [Value(gs[0])] + Meaning(gs[1..])
  }

  lemma Joined(a: string, b: string, c: string)
    ensures (a + b) + c == a + (b + c)
  {
  }

  lemma {:induction false} Glyphs(t: seq<Attr>, m: Machine, gs: seq<Glyph>, s: string)
    requires Sane(t, m) && m.mode == InValString && AllReadable(gs)
    requires |m.valbuf| + |gs| <= t[m.cursor].len && |m.valbuf| + |gs| <= JSON_VAL_MAX
    ensures Parse(t, m, WrittenThen(gs, s)) == Parse(t, m.(valbuf := m.valbuf + Meaning(gs)), s)
    decreases |gs|
  {
    if gs == [] {
      assert m.valbuf + Meaning(gs) == m.valbuf;
    } else {
      var v := [Value(gs[0])];
      GlyphReads(t, m, gs[0], WrittenThen(gs[1..], s));
      Glyphs(t, m.(valbuf := m.valbuf + v), gs[1..], s);
      Joined(m.valbuf, v, Meaning(gs[1..]));
    }
  }

  lemma GlyphReads(t: seq<Attr>, m: Machine, g: Glyph, s: string)
    requires Sane(t, m) && m.mode == InValString && Readable(g)
    requires |m.valbuf| < t[m.cursor].len && |m.valbuf| < JSON_VAL_MAX
    ensures Parse(t, m, GlyphThen(g, s)) == Parse(t, m.(valbuf := m.valbuf + [Value(g)]), s)
  {
    if g.Plain? {
      One(t, m, g.c, s);
    } else {
      One(t, m, '\\', [g.c] + s);
      One(t, m.(mode := InEscape), g.c, s);
    }
  }

  lemma StringCloses(t: seq<Attr>, m: Machine, w: string, rest: string)
    requires Sane(t, m) && m.mode == InValString && m.quoted && |m.valbuf| <= JSON_VAL_MAX && AllSpace(w)
    ensures Parse(t, m, "\"" + (w + ("}" + rest))) == Outcome(Ok, Stored(t, m).fields, Some(|SkipSpace(rest)|))
  {
    One(t, m, '"', w + ("}" + rest));
    var m' := m.(mode := PostVal);
    SpacesAfterValue(t, m', w, "}" + rest);
    CloseBrace(t, Stored(t, m'), rest);
  }

  // A value with escapes is read as what it means: the last attribute of an object.
  lemma EscapesRead(t: seq<Attr>, memory: seq<string>, w: string, items: seq<Item>, it: Item, gs: seq<Glyph>,
                    rest: string)
    requires Fits(t, memory) && AllSpace(w) && GoodItems(t, items) && Named(t, it) && AllReadable(gs)
    requires |gs| <= t[Find(t, it.name)].len && |gs| <= JSON_VAL_MAX
    ensures var value := WrittenThen(gs, "\"" + (it.w4 + ("}" + rest)));
            ReadObject(t, memory, Unfinished(w, items, Naming(it, it.w3 + ("\"" + value))))
              == Outcome(Ok, After(t, memory, items)[Find(t, it.name) := Strncpy(Meaning(gs), t[Find(t, it.name)].len)],
                         Some(|SkipSpace(rest)|))
  {
    var tail := "\"" + (it.w4 + ("}" + rest));
    var m := AtString(t, memory, w, items, it, WrittenThen(gs, tail));
    Glyphs(t, m, gs, tail);
    assert "" + Meaning(gs) == Meaning(gs);
    StringCloses(t, m.(valbuf := Meaning(gs)), it.w4, rest);
  }

  // A character in quotes, as RFC 8259, section 7, writes it.
  function Quoted(c: char): Glyph {
    if c == 8 as char then Escape('b')
    else if c == 12 as char then Escape('f')
    else if c == '\n' then Escape('n')
    else if c == '\r' then Escape('r')
    else if c == '\t' then Escape('t')
    else if c == '"' || c == '\\' then Escape(c)
    else Plain(c)
  }

  function QuotedAll(v: string): (gs: seq<Glyph>)
    ensures |gs| == |v|
  {
    if v == "" then [] else [Quoted(v[0])] + QuotedAll(v[1..])
  }

  lemma {:induction false} QuotedMeans(v: string)
    requires NoneOf(v, {NUL})
    ensures AllReadable(QuotedAll(v)) && Meaning(QuotedAll(v)) == v
    decreases |v|
  {
    if v != "" {
      QuotedMeans(v[1..]);
      var gs := QuotedAll(v);
      assert gs[0] == Quoted(v[0]) && gs[1..] == QuotedAll(v[1..]);
      assert Readable(gs[0]) && Value(gs[0]) == v[0];
      forall i | 0 <= i < |gs|
        ensures Readable(gs[i])
      {
        assert i > 0 ==> gs[i] == gs[1..][i - 1];
      }
    }
  }

  // So any value without NUL that fits, written with escapes, is read back as itself.
  lemma AnyValueReads(t: seq<Attr>, memory: seq<string>, w: string, items: seq<Item>, it: Item, rest: string)
    requires Fits(t, memory) && AllSpace(w) && GoodItems(t, items) && Named(t, it) && NoneOf(it.value, {NUL})
    requires |it.value| <= t[Find(t, it.name)].len && |it.value| <= JSON_VAL_MAX
    ensures var value := WrittenThen(QuotedAll(it.value), "\"" + (it.w4 + ("}" + rest)));
            var o := ReadObject(t, memory, Unfinished(w, items, Naming(it, it.w3 + ("\"" + value))));
            && o.code == Ok && o.end == Some(|SkipSpace(rest)|) && |o.fields| == |t|
            && CString(o.fields[Find(t, it.name)]) == it.value
  {
    QuotedMeans(it.value);
    EscapesRead(t, memory, w, items, it, QuotedAll(it.value), rest);
    CStringOfNuls(it.value, t[Find(t, it.name)].len - |it.value|);
    assert it.value + Nuls(0) == it.value;
  }

  // When the model gives up: at a \u escape, and where the C code would write
  // behind valbuf, which holds 512 characters and a NUL.
  lemma GivesUp(t: seq<Attr>, m: Machine, s: string)
    requires Sane(t, m) && s != ""
    ensures Step(t, m, s).Stop? && Step(t, m, s).outcome.code == Unmodelled <==>
            || (m.mode == InEscape && (s[0] == 'u' || |m.valbuf| > JSON_VAL_MAX))
            || (m.mode == InValString && s[0] == '"' && |m.valbuf| > JSON_VAL_MAX)
  {
  }

  // A text without a backslash never gets there.
  lemma {:induction false} NeverGivesUp(t: seq<Attr>, m: Machine, s: string)
    requires Sane(t, m) && m.mode != InEscape && |m.valbuf| <= JSON_VAL_MAX && '\\' !in s
    ensures Parse(t, m, s).code != Unmodelled
    decreases |s|, if m.mode == InValToken then 1 else 0
  {
    if s != "" {
      GivesUp(t, m, s);
      match Step(t, m, s)
      case Continue(m') => NeverGivesUp(t, m', s[1..]);
      case PushBack(m') => NeverGivesUp(t, m', s);
      case Stop(_) =>
    }
  }

  // A read that succeeds on some text uses some of it.
  lemma {:induction false} OkConsumes(t: seq<Attr>, m: Machine, s: string)
    requires Sane(t, m) && s != "" && Parse(t, m, s).code == Ok
    ensures Parse(t, m, s).end.Some? && Parse(t, m, s).end.value < |s|
    decreases |s|, if m.mode == InValToken then 1 else 0
  {
    match Step(t, m, s)
    case Continue(m') => if s[1..] != "" { OkConsumes(t, m', s[1..]); }
    case PushBack(m') => OkConsumes(t, m', s);
    case Stop(_) =>
  }

  lemma {:induction false} SkipsSpaces(s: string) returns (w: string)
    ensures s == w + SkipSpace(s) && AllSpace(w)
  {
    if s != "" && IsSpace(s[0]) {
      w := SkipsSpaces(s[1..]);
      w := [s[0]] + w;
    } else {
      w := "";
    }
  }

  // Where an attribute may follow, the read succeeds with *end at the end of the
  // white space exactly when there is nothing else.
  lemma AwaitingEnds(t: seq<Attr>, m: Machine, rest: string)
    requires Sane(t, m) && m.mode == AwaitAttr
    ensures var o := Parse(t, m, rest);
            o.code == Ok && o.end == Some(|SkipSpace(rest)|) <==> SkipSpace(rest) == ""
  {
    var tail := SkipSpace(rest);
    var w := SkipsSpaces(rest);
    Spaces(t, m, w, tail);
    if tail != "" && Parse(t, m, tail).code == Ok {
      OkConsumes(t, m, tail);
    }
  }

  lemma BraceGoesOn(t: seq<Attr>, m: Machine, w: string, rest: string)
    requires Sane(t, m) && m.mode == AwaitAttr && AllSpace(w)
    ensures Parse(t, m, w + ("}" + rest)) == Parse(t, m, rest)
  {
    Spaces(t, m, w, "}" + rest);
    One(t, m, '}', rest);
  }

  // The brace of an empty object does not end the parse: what follows is read as
  // attributes.  So it is read as an empty object followed by other text exactly
  // when that text is white space.
  lemma EmptyObjectGoesOn(t: seq<Attr>, memory: seq<string>, w: string, w1: string, rest: string) returns (m: Machine)
    requires Fits(t, memory) && AllSpace(w) && AllSpace(w1)
    ensures Sane(t, m) && m.mode == AwaitAttr && m.fields == Defaults(memory)
    ensures ReadObject(t, memory, w + ("{" + (w1 + ("}" + rest)))) == Parse(t, m, rest)
    ensures var o := ReadObject(t, memory, w + ("{" + (w1 + ("}" + rest))));
            o.code == Ok && o.end == Some(|SkipSpace(rest)|) <==> SkipSpace(rest) == ""
  {
    m := Opens(t, memory, w, w1 + ("}" + rest));
    BraceGoesOn(t, m, w1, rest);
    AwaitingEnds(t, m, rest);
  }
}
