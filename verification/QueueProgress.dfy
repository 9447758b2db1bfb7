// The queue of QueueSteps does its work: its threads can always go on, what is
// inserted is linked, and what is linked is delivered.
module QueueProgress {
  import opened Common
  import opened QueueSteps

  function Last(states: seq<State>): State
    requires states != []
  {
    states[|states| - 1]
  }

  // These states follow one after the other, by statements of the consumer, of one
  // producer, or of anyone.
  ghost predicate ConsumerPath(path: seq<State>) {
    forall k :: 0 <= k < |path| - 1 ==> ConsumerStep(path[k], path[k + 1])
  }

  ghost predicate ProducerPath(path: seq<State>, p: Producer, m: Msg) {
    forall k :: 0 <= k < |path| - 1 ==> ProducerStep(path[k], p, m, path[k + 1])
  }

  ghost predicate Path(path: seq<State>) {
    forall k :: 0 <= k < |path| - 1 ==> Step(path[k], path[k + 1])
  }

  lemma Continues(states: seq<State>, more: seq<State>)
    requires IsRun(states) && Path([Last(states)] + more)
    ensures IsRun(states + more)
  {
    var all, path, n := states + more, [Last(states)] + more, |states| - 1;
    forall k | 0 <= k < |all| - 1
      ensures Step(all[k], all[k + 1])
    {
      if k >= n {
        assert all[k] == path[k - n] && all[k + 1] == path[k - n + 1];
      }
    }
  }

  lemma Joins(a: seq<State>, b: seq<State>)
    requires a != [] && b != [] && Last(a) == b[0]
    ensures ConsumerPath(a) && ConsumerPath(b) ==> ConsumerPath(a + b[1..])
    ensures Path(a) && Path(b) ==> Path(a + b[1..])
  {
    var c, n := a + b[1..], |a| - 1;
    forall k | 0 <= k < |c| - 1
      ensures ConsumerPath(a) && ConsumerPath(b) ==> ConsumerStep(c[k], c[k + 1])
      ensures Path(a) && Path(b) ==> Step(c[k], c[k + 1])
    {
      if k >= n {
        assert c[k] == b[k - n] && c[k + 1] == b[k - n + 1];
      }
    }
  }

  // Nobody is between taking the lock and releasing it.
  predicate AtRest(s: State) { s.lock == Unlocked && s.consumer == Outside }

  // ---- delivery --------------------------------------------------------------------------

  // The seven statements of message_delete.
  lemma DeletePath(s: State, q: seq<Msg>) returns (path: seq<State>)
    requires InvWith(s, q) && AtRest(s) && q != []
    ensures |path| == 8 && path[0] == s && ConsumerPath(path) && AtRest(path[7])
    ensures path[7].delivered == s.delivered + [q[0]] && path[7].linked == s.linked && path[7].producers == s.producers
  {
    var m := q[0];
    var s1 := s.(consumer := SawMessage);
    var s2 := s1.(lock := ByConsumer, consumer := Entered);
    var s3 := s2.(consumer := Took(m));
    var s4 := s3.(head := s3.next[m], consumer := Unlinked(m));
    var s5 := s4.(count := s4.count - 1, consumer := Uncounted(m));
    var s6 := s5.(ptail := if s5.ptail == NextOf(m) then HeadSlot else s5.ptail, consumer := Fixed(m));
    var s7 := s6.(lock := Unlocked, consumer := Outside, delivered := s6.delivered + [m]);
    path := [s, s1, s2, s3, s4, s5, s6, s7];
  }

  // In every reachable state in which the lock is free and the consumer is outside:
  // if a message is undelivered, the consumer alone can go on to deliver exactly the
  // oldest one and be outside again; otherwise it stays outside.
  lemma DeliversNext(states: seq<State>) returns (more: seq<State>)
    requires IsRun(states) && AtRest(Last(states))
    ensures var s := Last(states);
            && (s.delivered == s.linked ==> more == [] && forall s' :: ConsumerStep(s, s') <==> s' == s)
            && (s.delivered != s.linked ==>
                  && |s.delivered| < |s.linked| && |more| == 7
                  && ConsumerPath([s] + more) && IsRun(states + more) && AtRest(Last(more))
                  && Last(more).delivered == s.delivered + [s.linked[|s.delivered|]]
                  && Last(more).linked == s.linked && Last(more).producers == s.producers)
  {
    var s := Last(states);
    RunKeeps(states, |states| - 1);
    var q :| InvWith(s, q);
    if q == [] {
      more := [];
    } else {
      var path := DeletePath(s, q);
      more := path[1..];
      assert [s] + more == path;
      Continues(states, more);
    }
  }

  // The consumer alone can deliver everything that is linked, in order.
  lemma {:induction false} Drains(states: seq<State>) returns (more: seq<State>)
    requires IsRun(states) && AtRest(Last(states)) && |Last(states).delivered| <= |Last(states).linked|
    ensures ConsumerPath([Last(states)] + more) && IsRun(states + more) && AtRest(Last(states + more))
    ensures Last(states + more).delivered == Last(states + more).linked == Last(states).linked
    decreases |Last(states).linked| - |Last(states).delivered|
  {
    var s := Last(states);
    var seven := DeliversNext(states);
    if s.delivered == s.linked {
      more := [];
      assert states + more == states;
    } else {
      var rest := Drains(states + seven);
      more := seven + rest;
      Joins([s] + seven, [Last(seven)] + rest);
      assert ([s] + seven) + ([Last(seven)] + rest)[1..] == [s] + more;
      assert (states + seven) + rest == states + more;
    }
  }

  // ---- insertion -------------------------------------------------------------------------

  // The six statements of message_insert.
  lemma InsertPath(s: State, p: Producer, m: Msg) returns (path: seq<State>)
    requires s.lock == Unlocked && p in s.producers && s.producers[p] == Idle && m !in s.next
    ensures |path| == 7 && path[0] == s && ProducerPath(path, p, m) && path[6].lock == Unlocked
    ensures path[6].linked == s.linked + [m] && path[6].delivered == s.delivered
    ensures path[6].consumer == s.consumer && path[6].producers == s.producers
  {
    var s1 := s.(next := s.next[m := None], producers := s.producers[p := Waiting(m)]);
    var s2 := s1.(lock := ByProducer(p), producers := s1.producers[p := Locked(m)]);
    var s3 := Store(s2, s2.ptail, Some(m)).(linked := s2.linked + [m], producers := s2.producers[p := Linked(m)]);
    var s4, s5, s6 := InsertEnds(s3, p, m);
    path := [s, s1, s2, s3, s4, s5, s6];
    assert s6.producers == s.producers;
  }

  lemma InsertEnds(s: State, p: Producer, m: Msg) returns (s1: State, s2: State, s3: State)
    requires p in s.producers && s.producers[p] == Linked(m)
    ensures ProducerStep(s, p, m, s1) && ProducerStep(s1, p, m, s2) && ProducerStep(s2, p, m, s3)
    ensures s3 == s.(ptail := NextOf(m), count := s.count + 1, lock := Unlocked, producers := s.producers[p := Idle])
  {
    s1 := s.(ptail := NextOf(m), producers := s.producers[p := Moved(m)]);
    s2 := s1.(count := s1.count + 1, producers := s1.producers[p := Counted(m)]);
    s3 := s2.(lock := Unlocked, producers := s2.producers[p := Idle]);
  }

  // In every reachable state in which the lock is free, an idle producer alone can
  // link a new message behind all others.
  lemma Inserts(states: seq<State>, p: Producer, m: Msg) returns (more: seq<State>)
    requires IsRun(states) && Last(states).lock == Unlocked
    requires var s := Last(states); p in s.producers && s.producers[p] == Idle && m !in s.next
    ensures |more| == 6 && ProducerPath([Last(states)] + more, p, m) && IsRun(states + more)
    ensures Last(more).lock == Unlocked && Last(more).linked == Last(states).linked + [m]
    ensures Last(more).delivered == Last(states).delivered && Last(more).producers == Last(states).producers
  {
    var s := Last(states);
    var path := InsertPath(s, p, m);
    more := path[1..];
    assert [s] + more == path;
    Continues(states, more);
  }

  // ---- no deadlock -----------------------------------------------------------------------

  // How far the holder of the lock and the consumer are from rest.
  function HolderRank(s: State): nat {
    match HolderPc(s)
    case Locked(_) => 4
    case Linked(_) => 3
    case Moved(_) => 2
    case Counted(_) => 1
    case _ => 0
  }

  function ConsumerRank(s: State): nat {
    match s.consumer
    case SawMessage => 6
    case Entered => 5
    case Took(_) => 4
    case Unlinked(_) => 3
    case Uncounted(_) => 2
    case Fixed(_) => 1
    case _ => 0
  }

  lemma HolderGoesOn(s: State, q: seq<Msg>) returns (s': State)
    requires InvWith(s, q) && s.lock.ByProducer?
    ensures Step(s, s') && HolderRank(s') + ConsumerRank(s') < HolderRank(s) + ConsumerRank(s)
    ensures s.linked <= s'.linked
  {
    var p := s.lock.p;
    match s.producers[p]
    case Locked(x) =>
      s' := Store(s, s.ptail, Some(x)).(linked := s.linked + [x], producers := s.producers[p := Linked(x)]);
      assert ProducerStep(s, p, 0, s');
    case Linked(x) =>
      s' := s.(ptail := NextOf(x), producers := s.producers[p := Moved(x)]);
      assert ProducerStep(s, p, 0, s');
    case Moved(x) =>
      s' := s.(count := s.count + 1, producers := s.producers[p := Counted(x)]);
      assert ProducerStep(s, p, 0, s');
    case Counted(x) =>
      s' := s.(lock := Unlocked, producers := s.producers[p := Idle]);
      assert ProducerStep(s, p, 0, s');
  }

  // The consumer's next statement can be done.
  predicate Ready(s: State) {
    match s.consumer
    case SawMessage => s.lock == Unlocked
    case Entered => s.head.Some?
    case Took(m) => m in s.next
    case Crashed => false
    case _ => true
  }

  lemma ConsumerReady(s: State, q: seq<Msg>)
    requires InvWith(s, q) && !s.lock.ByProducer?
    ensures Ready(s)
  {
  }

  lemma ConsumerGoesOn(s: State) returns (s': State)
    requires Ready(s) && !s.lock.ByProducer? && s.consumer != Outside
    ensures Step(s, s') && HolderRank(s') + ConsumerRank(s') < HolderRank(s) + ConsumerRank(s)
    ensures s'.linked == s.linked
  {
    match s.consumer
    case SawMessage => s' := s.(lock := ByConsumer, consumer := Entered);
    case Entered => s' := s.(consumer := Took(s.head.value));
    case Took(m) => s' := s.(head := s.next[m], consumer := Unlinked(m));
    case Unlinked(m) => s' := s.(count := s.count - 1, consumer := Uncounted(m));
    case Uncounted(m) => s' := s.(ptail := if s.ptail == NextOf(m) then HeadSlot else s.ptail, consumer := Fixed(m));
    case Fixed(m) => s' := s.(lock := Unlocked, consumer := Outside, delivered := s.delivered + [m]);
    assert ConsumerStep(s, s') && HolderPc(s') == HolderPc(s) == Idle;
  }

  // One statement towards rest.
  lemma SomeoneGoesOn(s: State) returns (s': State)
    requires Inv(s) && !AtRest(s)
    ensures Step(s, s') && HolderRank(s') + ConsumerRank(s') < HolderRank(s) + ConsumerRank(s)
    ensures s.linked <= s'.linked
  {
    var q :| InvWith(s, q);
    if s.lock.ByProducer? {
      s' := HolderGoesOn(s, q);
    } else {
      ConsumerReady(s, q);
      s' := ConsumerGoesOn(s);
    }
  }

  // From every reachable state the threads can go on until the lock is free and the
  // consumer outside.
  lemma {:induction false} ComesToRest(states: seq<State>) returns (more: seq<State>)
    requires IsRun(states)
    ensures IsRun(states + more) && AtRest(Last(states + more)) && Last(states).linked <= Last(states + more).linked
    decreases HolderRank(Last(states)) + ConsumerRank(Last(states))
  {
    var s := Last(states);
    if AtRest(s) {
      more := [];
      assert states + more == states;
    } else {
      RunKeeps(states, |states| - 1);
      var s' := SomeoneGoesOn(s);
      Continues(states, [s']);
      var rest := ComesToRest(states + [s']);
      more := [s'] + rest;
      assert states + [s'] + rest == states + more;
    }
  }

  // From every reachable state they can go on until every message linked so far is
  // delivered, once and in order.
  lemma EverythingDelivered(states: seq<State>) returns (more: seq<State>)
    requires IsRun(states)
    ensures IsRun(states + more) && AtRest(Last(states + more))
    ensures Last(states).linked <= Last(states + more).delivered == Last(states + more).linked
  {
    var first := ComesToRest(states);
    DeliveredOnceInOrder(states + first, |states + first| - 1);
    var rest := Drains(states + first);
    more := first + rest;
    assert states + first + rest == states + more;
  }
}
