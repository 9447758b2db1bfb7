// json_internal_read_object in lib/mjson.c: the loop and its buffers, proved to
// compute JsonModel.ReadObject.
module JsonReader {
  import opened Common
  import opened JsonModel

  lemma {:induction false} Terminates(s: string, n: nat)
    requires n < |s| && s[n] == NUL && NUL !in s[..n]
    ensures CString(s) == s[..n]
  {
    if n > 0 {
      assert s[0] in s[..n] && s[1..][..n - 1] == s[..n][1..];
      Terminates(s[1..], n - 1);
    }
  }

  lemma SkipOne(input: string, cp: nat)
    requires cp < |input| && IsSpace(input[cp])
    ensures SkipSpace(input[cp..]) == SkipSpace(input[cp + 1..])
  {
    var s := input[cp..];
    assert s[0] == input[cp] && s[1..] == input[cp + 1..];
    assert SkipSpace(s) == SkipSpace(s[1..]);
  }

  lemma SkipNone(input: string, cp: nat)
    requires cp <= |input| && (cp < |input| ==> !IsSpace(input[cp]))
    ensures SkipSpace(input[cp..]) == input[cp..]
  {
  }

  // What the loop does after the switch: next character, the same character
  // again, or return.
  datatype Verdict = Go | Back | Halt(code: Code)

  class Reader {
    const attrs: seq<Attr>
    const attrbuf: array<char>
    const valbuf: array<char>
    var mode: Mode
    var pattr: nat      // characters in attrbuf, without the NUL
    var pval: nat       // characters in valbuf, without the NUL
    var cursor: nat
    var quoted: bool
    var fields: seq<string>
    var end: Option<nat>

    ghost predicate Valid()
      reads this, attrbuf, valbuf
    {
      && attrbuf.Length == JSON_ATTR_MAX + 1 && pattr < JSON_ATTR_MAX && NUL !in attrbuf[..pattr]
      && valbuf.Length == JSON_VAL_MAX + 1 && pval <= JSON_VAL_MAX + 1 && NUL !in valbuf[..pval]
      && (mode == InValToken ==> pval <= JSON_VAL_MAX)
      && (mode == PostVal ==> pval <= JSON_VAL_MAX && valbuf[pval] == NUL)
      && Sane(attrs, Machine())
    }

    ghost function Machine(): Machine
      requires pattr <= attrbuf.Length && pval <= valbuf.Length
      reads this, attrbuf, valbuf
    {
      JsonModel.Machine(mode, attrbuf[..pattr], valbuf[..pval], cursor, quoted, fields, end)
    }

    // The state and verdict are those of this outcome of the switch.
    ghost predicate Follows(n: Next, v: Verdict)
      requires Valid()
      reads this, attrbuf, valbuf
    {
      match n
      case Continue(m) => v == Go && Machine() == m
      case PushBack(m) => v == Back && Machine() == m
      case Stop(o) => v == Halt(o.code) && fields == o.fields && end == o.end
    }

    // The declarations; `fields` are the char arrays after the defaults.
    constructor (attrs: seq<Attr>, fields: seq<string>)
      requires |fields| == |attrs|
      ensures Valid() && fresh(attrbuf) && fresh(valbuf) && this.attrs == attrs
      ensures Machine() == JsonModel.Machine(Init, "", "", 0, false, fields, None)
    {
      this.attrs := attrs;
      attrbuf := new char[JSON_ATTR_MAX + 1];
      valbuf := new char[JSON_VAL_MAX + 1];
      mode, pattr, pval, cursor, quoted, end := Init, 0, 0, 0, false, None;
      this.fields := fields;
    }

    // strcmp reads both strings up to their NUL.
    method FindAttr() returns (k: nat)
      requires Valid() && attrbuf[pattr] == NUL
      ensures k == Find(attrs, attrbuf[..pattr])
    {
      Terminates(attrbuf[..], pattr);
      k := 0;
      while k < |attrs|
        invariant k <= |attrs|
        invariant Find(attrs, attrbuf[..pattr]) == k + Find(attrs[k..], attrbuf[..pattr])
      {
        if attrs[k].name == CString(attrbuf[..]) {
          return;
        }
        k := k + 1;
      }
    }

    method OnInit(c: char, ghost s: string, left: nat) returns (v: Verdict)
      requires Valid() && mode == Init && s != "" && s[0] == c && left == |s|
      modifies this
      ensures Valid() && Follows(Step(attrs, old(Machine()), s), v)
    {
      if IsSpace(c) {
        return Go;
      } else if c == '{' {
        mode := AwaitAttr;
        return Go;
      }
      end := Some(left);
      return Halt(ObStart);
    }

    method OnAwaitAttr(c: char, ghost s: string, left: nat) returns (v: Verdict)
      requires Valid() && mode == AwaitAttr && s != "" && s[0] == c && left == |s|
      modifies this
      ensures Valid() && Follows(Step(attrs, old(Machine()), s), v)
    {
      if IsSpace(c) {
        return Go;
      } else if c == '"' {
        mode, pattr, end := InAttr, 0, Some(left);
        return Go;
      } else if c == '}' {
        return Go;
      }
      end := Some(left);
      return Halt(AttrStart);
    }

    method OnInAttr(c: char, ghost s: string) returns (v: Verdict)
      requires Valid() && mode == InAttr && s != "" && s[0] == c && c != NUL
      modifies this, attrbuf
      ensures Valid() && Follows(Step(attrs, old(Machine()), s), v)
    {
      if c == '"' {
        attrbuf[pattr] := NUL;
        var k := FindAttr();
        if k == |attrs| {
          return Halt(BadAttr);
        }
        mode, cursor, pval := AwaitValue, k, 0;
        return Go;
      } else if pattr >= JSON_ATTR_MAX - 1 {
        return Halt(AttrLen);
      }
      attrbuf[pattr] := c;
      pattr := pattr + 1;
      return Go;
    }

    method OnAwaitValue(c: char, ghost s: string, left: nat) returns (v: Verdict)
      requires Valid() && mode == AwaitValue && s != "" && s[0] == c && c != NUL && left == |s|
      modifies this, valbuf
      ensures Valid() && Follows(Step(attrs, old(Machine()), s), v)
    {
      if IsSpace(c) || c == ':' {
        return Go;
      } else if c == '[' {
        end := Some(left);
        return Halt(NoArray);
      } else if c == '"' {
        quoted, mode, pval := true, InValString, 0;
      } else {
        quoted, mode := false, InValToken;
        valbuf[0] := c;
        pval := 1;
      }
      return Go;
    }

    method OnInValString(c: char, ghost s: string) returns (v: Verdict)
      requires Valid() && mode == InValString && s != "" && s[0] == c && c != NUL
      modifies this, valbuf
      ensures Valid() && Follows(Step(attrs, old(Machine()), s), v)
    {
      if c == '\\' {
        mode := InEscape;
      } else if c == '"' {
        if pval > JSON_VAL_MAX {
          return Halt(Unmodelled);
        }
        valbuf[pval] := NUL;
        mode := PostVal;
      } else if pval > JSON_VAL_MAX - 1 || pval > attrs[cursor].len - 1 {
        return Halt(StrLong);
      } else {
        valbuf[pval] := c;
        pval := pval + 1;
      }
      return Go;
    }

    method OnInEscape(c: char, ghost s: string) returns (v: Verdict)
      requires Valid() && mode == InEscape && s != "" && s[0] == c && c != NUL
      modifies this, valbuf
      ensures Valid() && Follows(Step(attrs, old(Machine()), s), v)
    {
      if c == 'u' || pval > JSON_VAL_MAX {
        return Halt(Unmodelled);
      }
      valbuf[pval] := Escaped(c);
      pval := pval + 1;
      mode := InValString;
      return Go;
    }

    method OnInValToken(c: char, ghost s: string) returns (v: Verdict)
      requires Valid() && mode == InValToken && s != "" && s[0] == c && c != NUL
      modifies this, valbuf
      ensures Valid() && Follows(Step(attrs, old(Machine()), s), v)
    {
      if IsSpace(c) || c == ',' || c == '}' {
        valbuf[pval] := NUL;
        mode := PostVal;
        return if c == '}' || c == ',' then Back else Go;
      } else if pval > JSON_VAL_MAX - 1 {
        return Halt(TokLong);
      }
      valbuf[pval] := c;
      pval := pval + 1;
      return Go;
    }

    // strncpy reads the value up to its NUL.
    method StoreValue()
      requires Valid() && mode == PostVal
      modifies this`fields
      ensures Valid() && Machine() == Stored(attrs, old(Machine()))
    {
      Terminates(valbuf[..], pval);
      assert valbuf[..][..pval] == valbuf[..pval];
      fields := fields[cursor := Strncpy(CString(valbuf[..]), attrs[cursor].len)];
    }

    method AwaitNext()
      requires Valid()
      modifies this`mode
      ensures Valid() && Machine() == old(Machine()).(mode := AwaitAttr)
    {
      mode := AwaitAttr;
    }

    method EndAt(left: nat)
      requires Valid()
      modifies this`end
      ensures Valid() && Machine() == old(Machine()).(end := Some(left))
    {
      end := Some(left);
    }

    // good_parse
    method CloseObject(input: string, cp: nat)
      requires Valid() && cp < |input|
      modifies this`end
      ensures Valid() && Machine() == old(Machine()).(end := Some(|SkipSpace(input[cp..][1..])|))
    {
      assert input[cp..][1..] == input[cp + 1..];
      var rest := SkipTrailing(input, cp + 1);
      EndAt(|input| - rest);
    }

    method OnPostArray(input: string, cp: nat) returns (v: Verdict)
      requires Valid() && cp < |input|
      modifies this
      ensures Valid() && Follows(PostArray(old(Machine()), input[cp..]), v)
    {
      var c := input[cp];
      v := Go;
      if IsSpace(c) {
      } else if c == ',' {
        AwaitNext();
      } else if c == '}' {
        CloseObject(input, cp);
        v := Halt(Ok);
      } else {
        EndAt(|input| - cp);
        v := Halt(BadTrail);
      }
    }

    method OnPostVal(input: string, cp: nat) returns (v: Verdict)
      requires Valid() && mode == PostVal && cp < |input|
      modifies this
      ensures Valid() && Follows(Step(attrs, old(Machine()), input[cp..]), v)
    {
      if !quoted {
        return Halt(NonQString);
      }
      StoreValue();
      v := OnPostArray(input, cp);
    }

    // The while loop behind good_parse.
    method SkipTrailing(input: string, start: nat) returns (cp: nat)
      requires start <= |input|
      ensures cp <= |input| && |input| - cp == |SkipSpace(input[start..])|
    {
      cp := start;
      while cp < |input| && IsSpace(input[cp])
        invariant cp <= |input|
        invariant SkipSpace(input[start..]) == SkipSpace(input[cp..])
      {
        SkipOne(input, cp);
        cp := cp + 1;
      }
      SkipNone(input, cp);
    }

    // The switch.
    method OnChar(input: string, cp: nat) returns (v: Verdict)
      requires Valid() && cp < |input| && input[cp] != NUL
      modifies this, attrbuf, valbuf
      ensures Valid() && Follows(Step(attrs, old(Machine()), input[cp..]), v)
    {
      var c, left := input[cp], |input| - cp;
      ghost var s := input[cp..];
      match mode
      case Init => v := OnInit(c, s, left);
      case AwaitAttr => v := OnAwaitAttr(c, s, left);
      case InAttr => v := OnInAttr(c, s);
      case AwaitValue => v := OnAwaitValue(c, s, left);
      case InValString => v := OnInValString(c, s);
      case InEscape => v := OnInEscape(c, s);
      case InValToken => v := OnInValToken(c, s);
      case PostVal => v := OnPostVal(input, cp);
    }

    // The loop; it stops on every input although a token pushes back.
    method Loop(input: string) returns (code: Code)
      requires Valid() && NUL !in input
      modifies this, attrbuf, valbuf
      ensures Valid() && Outcome(code, fields, end) == Parse(attrs, old(Machine()), input)
    {
      var cp := 0;
      ghost var wanted := Parse(attrs, Machine(), input);
      assert input[0..] == input;
      while cp < |input|
        invariant cp <= |input| && Valid()
        invariant Parse(attrs, Machine(), input[cp..]) == wanted
        decreases |input| - cp, if mode == InValToken then 1 else 0
      {
        ghost var s := input[cp..];
        assert s[1..] == input[cp + 1..];
        ParseTurns(attrs, Machine(), s);
        var v := OnChar(input, cp);
        match v
        case Halt(c) => return c;
        case Back =>
        case Go => cp := cp + 1;
      }
      end := Some(0);
      return Ok;
    }
  }

  // The loop that stuffs the fields with their defaults.
  method StuffDefaults(memory: seq<string>) returns (fields: seq<string>)
    requires forall i :: 0 <= i < |memory| ==> |memory[i]| >= 1
    ensures fields == Defaults(memory)
  {
    fields := memory;
    for i := 0 to |memory|
      invariant |fields| == |memory|
      invariant forall k :: 0 <= k < i ==> fields[k] == memory[k][0 := NUL]
      invariant forall k :: i <= k < |memory| ==> fields[k] == memory[k]
    {
      fields := fields[i := fields[i][0 := NUL]];
    }
  }

  // json_read_object
  method JsonReadObject(attrs: seq<Attr>, memory: seq<string>, input: string) returns (o: Outcome)
    requires Fits(attrs, memory) && NUL !in input
    ensures o == ReadObject(attrs, memory, input)
  {
    var fields := StuffDefaults(memory);
    var reader := new Reader(attrs, fields);
    var code := reader.Loop(input);
    o := Outcome(code, reader.fields, reader.end);
  }
}
