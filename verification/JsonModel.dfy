// The character machine of json_internal_read_object in lib/mjson.c, for
// templates whose attributes are all strings, as those of ac/resource.h are.
module JsonModel {
  import opened Common

  const JSON_ATTR_MAX := 31
  const JSON_VAL_MAX := 512
  const NUL: char := '\0'

  // A template entry: the attribute's name and the size of its char array.
  datatype Attr = Attr(name: string, len: nat)

  datatype Code = Ok | ObStart | AttrStart | BadAttr | AttrLen | NoArray | StrLong | TokLong | BadTrail | NonQString
    | NoBrak | ArrayStart | BadString | BadNum | SubTooLong | BadSubTrail | SubType | NoParStr   // of json_read_array
    | Unmodelled   // a \u escape, or an escape written beyond the value buffer

  // `end` is the number of characters left at *end; None is NULL.
  datatype Outcome = Outcome(code: Code, fields: seq<string>, end: Option<nat>)

  datatype Mode = Init | AwaitAttr | InAttr | AwaitValue | InValString | InEscape | InValToken | PostVal

  datatype Machine = Machine(mode: Mode, attrbuf: string, valbuf: string, cursor: nat, quoted: bool,
                             fields: seq<string>, end: Option<nat>)

  datatype Next = Continue(m: Machine) | PushBack(m: Machine) | Stop(outcome: Outcome)

  predicate IsSpace(c: char) { c in {' ', '\t', '\n', '\r', 11 as char, 12 as char} }

  function SkipSpace(s: string): (r: string)
    ensures |r| <= |s|
  {
    if s != "" && IsSpace(s[0]) then SkipSpace(s[1..]) else s
  }

  // The first template entry with this name, or the template's length.
  function Find(t: seq<Attr>, name: string): (k: nat)
    ensures k <= |t| && (k < |t| ==> t[k].name == name)
    ensures forall i :: 0 <= i < k ==> t[i].name != name
  {
    if t == [] || t[0].name == name then 0 else 1 + Find(t[1..], name)
  }

  function Nuls(n: nat): (s: string)
    ensures |s| == n
  {
    seq(n, _ => NUL)
  }

  // strncpy(field, v, len) for a v without NUL
  function Strncpy(v: string, len: nat): (s: string)
    ensures |s| == len
  {
    if |v| < len then v + Nuls(len - |v|) else v[..len]
  }

  // The C string in a char array: up to the first NUL.
  function CString(field: string): (v: string)
    ensures |v| <= |field|
  {
    if field == "" || field[0] == NUL then "" else [field[0]] + CString(field[1..])
  }

  // ---- one character -------------------------------------------------------------

  function Fail(m: Machine, code: Code): Next { Stop(Outcome(code, m.fields, m.end)) }

  function FailAt(m: Machine, code: Code, s: string): Next { Stop(Outcome(code, m.fields, Some(|s|))) }

  function Escaped(c: char): char {
    match c
    case 'b' => 8 as char
    case 'f' => 12 as char
    case 'n' => '\n'
    case 'r' => '\r'
    case 't' => '\t'
    case _ => c
  }

  // The store at the head of the post_val case.
  function Stored(t: seq<Attr>, m: Machine): Machine
    requires m.cursor < |t| && |m.fields| == |t|
  {
    m.(fields := m.fields[m.cursor := Strncpy(m.valbuf, t[m.cursor].len)])
  }

  // The case post_array, into which post_val falls.
  function PostArray(m: Machine, s: string): (n: Next)
    requires s != ""
    ensures !n.PushBack? && (n.Continue? ==> n.m == m || n.m == m.(mode := AwaitAttr))
    ensures n.Stop? && n.outcome.code == Ok ==> n.outcome.end.Some? && n.outcome.end.value < |s|
  {
    if IsSpace(s[0]) then Continue(m)
    else if s[0] == ',' then Continue(m.(mode := AwaitAttr))
    else if s[0] == '}' then Stop(Outcome(Ok, m.fields, Some(|SkipSpace(s[1..])|)))
    else FailAt(m, BadTrail, s)
  }

  predicate Sane(t: seq<Attr>, m: Machine) {
    && |m.fields| == |t|
    && (m.mode in {AwaitValue, InValString, InEscape, InValToken, PostVal} ==> m.cursor < |t|)
  }

  // The switch, at the first character of s.
  function Step(t: seq<Attr>, m: Machine, s: string): (n: Next)
    requires Sane(t, m) && s != ""
    ensures n.Continue? ==> Sane(t, n.m)
    ensures n.PushBack? ==> Sane(t, n.m) && m.mode == InValToken && n.m.mode == PostVal
    ensures n.Stop? && n.outcome.code == Ok ==> n.outcome.end.Some? && n.outcome.end.value < |s|
  {
    var c := s[0];
    match m.mode
    case Init =>
      if IsSpace(c) then Continue(m)
      else if c == '{' then Continue(m.(mode := AwaitAttr))
      else FailAt(m, ObStart, s)
    case AwaitAttr =>
      if IsSpace(c) then Continue(m)
      else if c == '"' then Continue(m.(mode := InAttr, attrbuf := "", end := Some(|s|)))
      else if c == '}' then Continue(m)
      else FailAt(m, AttrStart, s)
    case InAttr =>
      if c == '"' then
        var k := Find(t, m.attrbuf);
        if k == |t| then Fail(m, BadAttr) else Continue(m.(mode := AwaitValue, cursor := k, valbuf := ""))
      else if |m.attrbuf| >= JSON_ATTR_MAX - 1 then Fail(m, AttrLen)
      else Continue(m.(attrbuf := m.attrbuf + [c]))
    case AwaitValue =>
      if IsSpace(c) || c == ':' then Continue(m)
      else if c == '[' then FailAt(m, NoArray, s)
      else if c == '"' then Continue(m.(mode := InValString, quoted := true, valbuf := ""))
      else Continue(m.(mode := InValToken, quoted := false, valbuf := [c]))
    case InValString =>
      if c == '\\' then Continue(m.(mode := InEscape))
      else if c == '"' then
        if |m.valbuf| > JSON_VAL_MAX then Fail(m, Unmodelled) else Continue(m.(mode := PostVal))
      else if |m.valbuf| > JSON_VAL_MAX - 1 || |m.valbuf| > t[m.cursor].len - 1 then Fail(m, StrLong)
      else Continue(m.(valbuf := m.valbuf + [c]))
    case InEscape =>
      if c == 'u' || |m.valbuf| > JSON_VAL_MAX then Fail(m, Unmodelled)
      else Continue(m.(mode := InValString, valbuf := m.valbuf + [Escaped(c)]))
    case InValToken =>
      if IsSpace(c) then Continue(m.(mode := PostVal))
      else if c == ',' || c == '}' then PushBack(m.(mode := PostVal))
      else if |m.valbuf| > JSON_VAL_MAX - 1 then Fail(m, TokLong)
      else Continue(m.(valbuf := m.valbuf + [c]))
    case PostVal =>
      if !m.quoted then Fail(m, NonQString) else PostArray(Stored(t, m), s)
  }

  // The loop.  It ends although a token may push its last character back: what
  // decreases is the rest of the input, then whether a token is being read.
  function Parse(t: seq<Attr>, m: Machine, s: string): Outcome
    requires Sane(t, m)
    decreases |s|, if m.mode == InValToken then 1 else 0
  {
    if s == "" then Outcome(Ok, m.fields, Some(0))
    else
      match Step(t, m, s)
      case Continue(m') => Parse(t, m', s[1..])
      case PushBack(m') => Parse(t, m', s)
      case Stop(o) => o
  }

  lemma ParseTurns(t: seq<Attr>, m: Machine, s: string)
    requires Sane(t, m) && s != ""
    ensures var n := Step(t, m, s);
            && (n.Continue? ==> Parse(t, m, s) == Parse(t, n.m, s[1..]))
            && (n.PushBack? ==> Parse(t, m, s) == Parse(t, n.m, s))
            && (n.Stop? ==> Parse(t, m, s) == n.outcome)
  {
  }

  // The char arrays of a template, before the call.
  predicate Fits(t: seq<Attr>, memory: seq<string>) {
    |memory| == |t| && forall i :: 0 <= i < |t| ==> |memory[i]| == t[i].len >= 1
  }

  // The defaults: every array starts with NUL.
  function Defaults(memory: seq<string>): (r: seq<string>)
    requires forall i :: 0 <= i < |memory| ==> |memory[i]| >= 1
    ensures |r| == |memory| && forall i :: 0 <= i < |r| ==> r[i] == memory[i][0 := NUL]
  {
    seq(|memory|, i requires 0 <= i < |memory| => memory[i][0 := NUL])
  }

  function Start(t: seq<Attr>, memory: seq<string>): (m: Machine)
    requires Fits(t, memory)
    ensures Sane(t, m)
  {
    Machine(Init, "", "", 0, false, Defaults(memory), None)
  }

  // json_read_object on the NUL-terminated text s.
  function ReadObject(t: seq<Attr>, memory: seq<string>, s: string): Outcome
    requires Fits(t, memory)
  {
    Parse(t, Start(t, memory), s)
  }
}
