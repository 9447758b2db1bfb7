// json_internal_read_object and json_read_array calling each other, proved to
// compute JsonNesting.ReadObjectFrom and JsonNesting.ReadArray, and to end.
module JsonNestedReader {
  import opened Common
  import opened JsonModel
  import opened JsonNesting
  import opened JsonReader

  lemma Tail(input: string, cp: nat)
    requires cp < |input|
    ensures input[cp..] != "" && input[cp..][0] == input[cp] && input[cp..][1..] == input[cp + 1..]
  {
  }

  lemma TailOfTail(input: string, cp: nat, left: nat)
    requires cp <= |input| && left <= |input| - cp
    ensures input[cp..][|input| - cp - left..] == input[|input| - left..]
  {
  }

  method SkipSpaces(input: string, start: nat) returns (cp: nat)
    requires start <= |input|
    ensures start <= cp <= |input| && input[cp..] == SkipSpace(input[start..])
  {
    cp := start;
    while cp < |input| && IsSpace(input[cp])
      invariant start <= cp <= |input|
      invariant SkipSpace(input[start..]) == SkipSpace(input[cp..])
    {
      SkipOne(input, cp);
      cp := cp + 1;
    }
    SkipNone(input, cp);
  }

  // if(isspace(*cp)) cp++
  method SkipSpaceOnce(input: string, start: nat) returns (cp: nat)
    requires start <= |input|
    ensures start <= cp <= |input| && input[cp..] == SkipAtMostOne(input[start..])
  {
    cp := start;
    if cp < |input| {
      Tail(input, cp);
      if IsSpace(input[cp]) {
        cp := cp + 1;
      }
    }
  }

  // The loop of the case t_string, behind the opening quote.
  method StoreAt(storelen: nat, used: nat, input: string, start: nat) returns (ok: bool, tp: nat, cp: nat)
    requires start <= |input|
    ensures ok ==> start <= cp <= |input|
    ensures ReadStored(storelen, used, input[start..]) == if ok then Some((tp, input[cp..])) else None
  {
    tp, cp, ok := used, start, false;
    ghost var wanted := ReadStored(storelen, used, input[cp..]);
    while tp < storelen && cp < |input| && input[cp] != '"'
      invariant start <= cp <= |input|
      invariant ReadStored(storelen, tp, input[cp..]) == wanted
      decreases |input| - cp
    {
      Tail(input, cp);
      cp, tp := cp + 1, tp + 1;
    }
    if tp < storelen && cp < |input| {
      Tail(input, cp);
      ok, cp, tp := true, cp + 1, tp + 1;
    }
  }

  // The case t_string.
  method ReadStringAt(storelen: nat, used: nat, input: string, start: nat) returns (r: Read, tp: nat, cp: nat)
    requires start <= |input|
    ensures (r, tp) == ReadString(storelen, used, input[start..])
    ensures r.Done? ==> start <= cp <= |input| && r.rest == input[cp..]
  {
    cp := SkipSpaceOnce(input, start);
    r, tp := Failed(BadString), used;
    if cp < |input| && input[cp] == '"' {
      Tail(input, cp);
      var ok, tp', cp' := StoreAt(storelen, used, input, cp + 1);
      if ok {
        r, tp, cp := Done(input[cp'..]), tp', cp';
      }
    }
  }

  // The switch over the element type.
  method ReadValueAt(ts: Templates, number: string -> nat, e: Element, offset: nat, used: nat,
                     input: string, start: nat)
    returns (r: Read, tp: nat, cp: nat)
    requires Closed(ts) && Refers(ts, e) && start <= |input| && NUL !in input
    ensures (r, tp) == ReadValue(ts, number, e, offset, used, input[start..])
    ensures r.Done? ==> start <= cp <= |input| && r.rest == input[cp..]
    decreases |input| - start, 2
  {
    cp, tp := start, used;
    match e
    case Strings(storelen) => r, tp, cp := ReadStringAt(storelen, used, input, start);
    case Objects(subtype, inStruct) =>
      if !inStruct && offset > 0 && exists i :: 0 <= i < |ts[subtype]| && ts[subtype][i].kind.Text? {
        r := Failed(NoParStr);
      } else {
        r, cp := ReadObjectAt(ts, number, subtype, input, start);
      }
    case Numbers =>
      var text := input[start..];
      var n := if number(text) <= |text| then number(text) else |text|;
      if n == 0 {
        r := Failed(BadNum);
      } else {
        cp := start + n;
        r := Done(input[cp..]);
      }
    case Booleans =>
      var text := input[start..];
      if Begins(text, "true") {
        cp := start + 4;
      } else if Begins(text, "false") {
        cp := start + 5;
      }
      r := Done(input[cp..]);
    case Times => r := Done(input[cp..]);
    case Others => r := Failed(SubType);
  }

  // json_read_array
  method ReadArrayAt(ts: Templates, number: string -> nat, a: Array, input: string, start: nat)
    returns (r: ArrayRead, cp: nat)
    requires Closed(ts) && Refers(ts, a.element) && start <= |input| && NUL !in input
    ensures Gives(ts, number, a, input[start..], r)
    ensures r.Filled? ==> start < cp < |input| && input[cp] == ']' && r.rest == input[cp..]
    decreases |input| - start, 0
  {
    ghost var s, wanted := input[start..], ReadArray(ts, number, a, input[start..]);
    ArrayTurn(ts, number, a, s, wanted);
    cp := SkipSpaces(input, start);
    r := Refused(ArrayStart);
    if cp < |input| && input[cp] == '[' {
      Tail(input, cp);
      cp := SkipSpaces(input, cp + 1);
      if cp < |input| && input[cp] == ']' {
        r := Filled(input[cp..], 0);
      } else {
        r, cp := ReadElementsAt(ts, number, a, input, cp);
      }
    }
  }

  // The end of that turn.
  method AfterElement(ts: Templates, number: string -> nat, a: Array, offset: nat, ghost used: nat,
                      input: string, start: nat, ghost wanted: ArrayRead)
    returns (done: Option<ArrayRead>, cp: nat)
    requires start <= |input| && Continues(ts, number, a, offset, used, input[start..], wanted)
    ensures done.None? ==> start <= cp <= |input| && Collects(ts, number, a, offset + 1, used, input[cp..], wanted)
    ensures done.Some? ==> done.value == wanted
    ensures done.Some? && wanted.Filled? ==> start <= cp < |input| && input[cp] == ']' && wanted.rest == input[cp..]
  {
    cp := SkipSpaceOnce(input, start);
    done := Some(Refused(BadSubTrail));
    if cp < |input| {
      Tail(input, cp);
      if input[cp] == ']' {
        done := Some(Filled(input[cp..], offset + 1));
      } else if input[cp] == ',' {
        done, cp := None, cp + 1;
      }
    }
  }

  // One turn of the loop of json_read_array.
  method ElementAt(ts: Templates, number: string -> nat, a: Array, offset: nat, used: nat, input: string, start: nat,
                   ghost wanted: ArrayRead)
    returns (done: Option<ArrayRead>, tp: nat, cp: nat)
    requires start <= |input| && NUL !in input && offset < a.maxlen
    requires Collects(ts, number, a, offset, used, input[start..], wanted)
    ensures done.None? ==> start <= cp <= |input| && Collects(ts, number, a, offset + 1, tp, input[cp..], wanted)
    ensures done.Some? ==> done.value == wanted
    ensures done.Some? && wanted.Filled? ==> start <= cp < |input| && input[cp] == ']' && wanted.rest == input[cp..]
    decreases |input| - start, 3
  {
    var value;
    value, tp, cp := ReadValueAt(ts, number, a.element, offset, used, input, start);
    ElementTurn(ts, number, a, offset, used, input[start..], wanted, (value, tp));
    if value.Failed? {
      done := Some(Refused(value.code));
    } else {
      done, cp := AfterElement(ts, number, a, offset, tp, input, cp, wanted);
    }
  }

  // The loop of json_read_array.
  method ReadElementsAt(ts: Templates, number: string -> nat, a: Array, input: string, start: nat)
    returns (r: ArrayRead, cp: nat)
    requires Closed(ts) && Refers(ts, a.element) && start <= |input| && NUL !in input
    ensures Collects(ts, number, a, 0, 0, input[start..], r)
    ensures r.Filled? ==> start <= cp < |input| && input[cp] == ']' && r.rest == input[cp..]
    decreases |input| - start, 4
  {
    cp := start;
    var offset, tp := 0, 0;
    ghost var wanted := ReadElements(ts, number, a, 0, 0, input[start..]);
    while offset < a.maxlen
      invariant start <= cp <= |input|
      invariant Collects(ts, number, a, offset, tp, input[cp..], wanted)
      decreases a.maxlen - offset
    {
      var done;
      done, tp, cp := ElementAt(ts, number, a, offset, tp, input, cp, wanted);
      if done.Some? {
        return done.value, cp;
      }
      offset := offset + 1;
    }
    return Refused(SubTooLong), cp;
  }

  // Where the loop of json_internal_read_object stands.
  ghost function Now(reader: Reader, post: bool): State
    requires reader.Valid()
    reads reader, reader.attrbuf, reader.valbuf
  {
    if post then AfterArray(reader.Machine()) else At(reader.Machine())
  }

  // What the loop does after the switch: next character, the same one again, call
  // json_read_array, or return with *end here.
  datatype Act = Forward | Stay | Call | Leave(read: Read, end: nat)

  // These are the state and the act of this turn.
  ghost predicate Follows(turn: Turn, act: Act, reader: Reader, post: bool, input: string)
    requires reader.Valid()
    reads reader, reader.attrbuf, reader.valbuf
  {
    match turn
    case Onward(st) => act == Forward && Now(reader, post) == st
    case Again(st) => act == Stay && Now(reader, post) == st
    case Enter(_) => act == Call
    case Return(read) =>
      act.Leave? && act.read == read && (read.Done? ==> act.end <= |input| && read.rest == input[act.end..])
  }

  method LeaveWith(code: Code, end: Option<nat>, input: string, cp: nat) returns (act: Act)
    requires cp < |input|
    requires code == Ok ==> end.Some? && end.value < |input| - cp
    ensures act.Leave? && act.read == if code == Ok then Done(input[cp..][|input| - cp - end.value..]) else Failed(code)
    ensures act.read.Done? ==> act.end <= |input| && act.read.rest == input[act.end..]
  {
    if code == Ok {
      TailOfTail(input, cp, end.value);
      var at := |input| - end.value;
      return Leave(Done(input[at..]), at);
    }
    return Leave(Failed(code), cp);
  }

  // The switch, where no array is awaited.
  method SwitchText(t: seq<Entry>, reader: Reader, input: string, cp: nat) returns (act: Act)
    requires reader.Valid() && reader.attrs == Flat(t) && cp < |input| && input[cp] != NUL
    requires !AwaitsArray(t, Now(reader, false)) && !Ignored(t, reader.Machine())
    modifies reader, reader.attrbuf, reader.valbuf
    ensures reader.Valid() && Follows(Switch(t, old(Now(reader, false)), input[cp..]), act, reader, false, input)
  {
    var v := reader.OnChar(input, cp);
    match v
    case Go => act := Forward;
    case Back => act := Stay;
    case Halt(code) => act := LeaveWith(code, reader.end, input, cp);
  }

  // The case post_array.
  method SwitchAfterArray(t: seq<Entry>, reader: Reader, input: string, cp: nat) returns (act: Act, post: bool)
    requires reader.Valid() && reader.attrs == Flat(t) && cp < |input|
    modifies reader, reader.attrbuf, reader.valbuf
    ensures reader.Valid() && Follows(Switch(t, old(Now(reader, true)), input[cp..]), act, reader, post, input)
  {
    Tail(input, cp);
    var v := reader.OnPostArray(input, cp);
    post := IsSpace(input[cp]);
    match v
    case Go => act := Forward;
    case Back => act := Stay;
    case Halt(code) => act := LeaveWith(code, reader.end, input, cp);
  }

  // The case await_value for an array.
  method SwitchArray(t: seq<Entry>, reader: Reader, input: string, cp: nat) returns (act: Act)
    requires reader.Valid() && reader.attrs == Flat(t) && cp < |input|
    requires AwaitsArray(t, Now(reader, false))
    ensures Follows(Switch(t, Now(reader, false), input[cp..]), act, reader, false, input)
  {
    Tail(input, cp);
    if IsSpace(input[cp]) || input[cp] == ':' {
      act := Forward;
    } else if input[cp] == '[' {
      act := Call;
    } else {
      act := Leave(Failed(NoBrak), cp);
    }
  }

  // The case post_val without quotes, its search ending at an array.
  method SwitchIgnored(t: seq<Entry>, reader: Reader, input: string, cp: nat, k: nat) returns (act: Act)
    requires reader.Valid() && reader.attrs == Flat(t) && cp < |input| && Ignored(t, reader.Machine())
    requires k == Seek(t, reader.Machine().attrbuf, reader.cursor)
    modifies reader
    ensures reader.Valid() && Follows(Switch(t, old(Now(reader, false)), input[cp..]), act, reader, false, input)
  {
    reader.cursor := k;
    var v := reader.OnPostArray(input, cp);
    match v
    case Go => act := Forward;
    case Back => act := Stay;
    case Halt(code) => act := LeaveWith(code, reader.end, input, cp);
  }

  // The search in the case post_val, for a value without quotes.
  method SeekAt(t: seq<Entry>, name: string, cursor: nat) returns (k: nat)
    requires cursor < |t|
    ensures cursor <= k < |t| && k == Seek(t, name, cursor)
  {
    k := cursor;
    while k + 1 < |t| && t[k + 1].name == name
      invariant cursor <= k < |t|
      invariant Seek(t, name, cursor) == Seek(t, name, k)
    {
      k := k + 1;
    }
  }

  method SwitchAt(t: seq<Entry>, reader: Reader, post: bool, input: string, cp: nat) returns (act: Act, post': bool)
    requires reader.Valid() && reader.attrs == Flat(t) && cp < |input| && input[cp] != NUL
    modifies reader, reader.attrbuf, reader.valbuf
    ensures reader.Valid() && Follows(Switch(t, old(Now(reader, post)), input[cp..]), act, reader, post', input)
    ensures act == Call ==> Now(reader, post') == old(Now(reader, post))
  {
    post' := false;
    if post {
      act, post' := SwitchAfterArray(t, reader, input, cp);
    } else if reader.mode == AwaitValue && t[reader.cursor].kind.List? {
      act := SwitchArray(t, reader, input, cp);
    } else {
      var k := 0;
      if reader.mode == PostVal && !reader.quoted {
        k := SeekAt(t, reader.attrbuf[..reader.pattr], reader.cursor);
      }
      if reader.mode == PostVal && !reader.quoted && t[k].kind.List? {
        act := SwitchIgnored(t, reader, input, cp, k);
      } else {
        act := SwitchText(t, reader, input, cp);
      }
    }
  }

  // The call of json_read_array in a turn.
  method CallAt(ts: Templates, number: string -> nat, k: nat, ghost st: State, elems: Array, input: string, cp: nat,
                ghost wanted: Read)
    returns (done: Option<Read>, cp': nat)
    requires Closed(ts) && k < |ts| && Standing(ts[k], st) && cp < |input| && NUL !in input
    requires Switch(ts[k], st, input[cp..]) == Enter(elems) && Leads(ts, number, k, st, input[cp..], wanted)
    ensures done.None? ==> cp < cp' <= |input| && Leads(ts, number, k, AfterArray(st.m), input[cp'..], wanted)
    ensures done.Some? ==> done.value == wanted && wanted.Failed?
    decreases |input| - cp, 1
  {
    var elements;
    elements, cp' := ReadArrayAt(ts, number, elems, input, cp);
    CallTurn(ts, number, k, st, input[cp..], wanted, elements);
    if elements.Refused? {
      done := Some(Failed(elements.code));
    } else {
      Tail(input, cp');
      done, cp' := None, cp' + 1;
    }
  }

  // One turn of the loop.
  method TurnAt(ts: Templates, number: string -> nat, k: nat, reader: Reader, post: bool, input: string, cp: nat,
                ghost start: nat, ghost st: State, ghost wanted: Read)
    returns (done: Option<Read>, post': bool, cp': nat, ghost st': State)
    requires Closed(ts) && k < |ts| && reader.Valid() && reader.attrs == Flat(ts[k])
    requires st == Now(reader, post) && start <= cp < |input| && NUL !in input
    requires cp == start ==> !AwaitsArray(ts[k], st)
    requires Leads(ts, number, k, st, input[cp..], wanted)
    modifies reader, reader.attrbuf, reader.valbuf
    ensures done.None? ==> reader.Valid() && st' == Now(reader, post')
    ensures done.None? ==> cp <= cp' <= |input| && Leads(ts, number, k, st', input[cp'..], wanted)
    ensures done.None? ==> cp < cp' || Rank(st') < Rank(st)
    ensures done.Some? ==> done.value == wanted
    ensures done.Some? && wanted.Done? ==> cp < cp' <= |input| && wanted.rest == input[cp'..]
    decreases |input| - start, 0
  {
    Tail(input, cp);
    ObjectTurn(ts, number, k, st, input[cp..], wanted);
    var act;
    done, cp' := None, cp;
    act, post' := SwitchAt(ts[k], reader, post, input, cp);
    st' := Now(reader, post');
    match act
    case Forward => cp' := cp + 1;
    case Stay =>
    case Leave(read, end) => done, cp' := Some(read), end;
    case Call =>
      done, cp' := CallAt(ts, number, k, st, ts[k][reader.cursor].kind.elems, input, cp, wanted);
      post' := true;
      st' := AfterArray(st.m);
  }

  // json_internal_read_object
  method ReadObjectAt(ts: Templates, number: string -> nat, k: nat, input: string, start: nat)
    returns (r: Read, cp: nat)
    requires Closed(ts) && k < |ts| && start <= |input| && NUL !in input
    ensures r == ReadObjectFrom(ts, number, k, At(Fresh(ts[k])), input[start..])
    ensures r.Done? ==> start <= cp <= |input| && r.rest == input[cp..] && (start < |input| ==> start < cp)
    decreases |input| - start, 1
  {
    var t := ts[k];
    var reader := new Reader(Flat(t), seq(|t|, _ => ""));
    cp := start;
    var post := false;
    ghost var st := At(Fresh(t));
    ghost var wanted := ReadObjectFrom(ts, number, k, st, input[start..]);
    while cp < |input|
      invariant start <= cp <= |input|
      invariant reader.Valid() && reader.attrs == Flat(t)
      invariant fresh(reader) && fresh(reader.attrbuf) && fresh(reader.valbuf)
      invariant st == Now(reader, post) && (cp == start ==> !AwaitsArray(t, st))
      invariant Leads(ts, number, k, st, input[cp..], wanted)
      decreases |input| - cp, Rank(st)
    {
      var done;
      done, post, cp, st := TurnAt(ts, number, k, reader, post, input, cp, start, st, wanted);
      if done.Some? {
        return done.value, cp;
      }
    }
    return Done(""), cp;
  }
}
