// The message queue of one access point in ac/aphash.c, statement by statement:
// any number of producers whose insertion is three writes under the lock, and
// one consumer that tests for emptiness before it takes the lock.
module QueueSteps {
  import opened Common

  type Msg = nat
  type Producer = nat

  // Where ptail points: at aphash->next, or at the next field of a message.
  datatype Slot = HeadSlot | NextOf(m: Msg)

  datatype Lock = Unlocked | ByProducer(p: Producer) | ByConsumer

  // Where a producer stands in message_insert.
  datatype InsertPc =
    | Idle
    | Waiting(m: Msg)   // msg->next = NULL is done
    | Locked(m: Msg)
    | Linked(m: Msg)    // *(aphash->ptail) = msg is done
    | Moved(m: Msg)     // aphash->ptail = &msg->next is done
    | Counted(m: Msg)   // aphash->count++ is done

  // Where the consumer stands in message_delete.
  datatype DeletePc =
    | Outside
    | SawMessage        // aphash->next was not NULL
    | Entered           // the lock is taken
    | Took(m: Msg)      // msg = aphash->next is done
    | Unlinked(m: Msg)  // aphash->next = msg->next is done
    | Uncounted(m: Msg) // aphash->count-- is done
    | Fixed(m: Msg)     // ptail is adjusted
    | Crashed           // msg was NULL where msg->next is read

  datatype State = State(
    head: Option<Msg>, next: map<Msg, Option<Msg>>, ptail: Slot, count: int, lock: Lock,
    producers: map<Producer, InsertPc>, consumer: DeletePc,
    linked: seq<Msg>,      // all messages ever linked, in order
    delivered: seq<Msg>)   // all messages returned by message_delete, in order

  ghost predicate Init(s: State) {
    && s.head == None && s.next == map[] && s.ptail == HeadSlot && s.count == 0 && s.lock == Unlocked
    && (forall p :: p in s.producers ==> s.producers[p] == Idle)
    && s.consumer == Outside && s.linked == [] && s.delivered == []
  }

  // *slot = m
  function Store(s: State, slot: Slot, m: Option<Msg>): State {
    match slot
    case HeadSlot => s.(head := m)
    case NextOf(x) => s.(next := s.next[x := m])
  }

  // ---- the statements ----------------------------------------------------------

  // The next statement of producer p; m is the message it starts with if idle.
  ghost predicate ProducerStep(s: State, p: Producer, m: Msg, s': State) {
    p in s.producers &&
    match s.producers[p]
    case Idle => m !in s.next && s' == s.(next := s.next[m := None], producers := s.producers[p := Waiting(m)])
    case Waiting(x) => s.lock == Unlocked && s' == s.(lock := ByProducer(p), producers := s.producers[p := Locked(x)])
    case Locked(x) =>
      s' == Store(s, s.ptail, Some(x)).(linked := s.linked + [x], producers := s.producers[p := Linked(x)])
    case Linked(x) => s' == s.(ptail := NextOf(x), producers := s.producers[p := Moved(x)])
    case Moved(x) => s' == s.(count := s.count + 1, producers := s.producers[p := Counted(x)])
    case Counted(x) => s' == s.(lock := Unlocked, producers := s.producers[p := Idle])
  }

  // The next statement of the consumer.
  ghost predicate ConsumerStep(s: State, s': State) {
    match s.consumer
    case Outside => s' == if s.head == None then s else s.(consumer := SawMessage)
    case SawMessage => s.lock == Unlocked && s' == s.(lock := ByConsumer, consumer := Entered)
    case Entered => s' == s.(consumer := if s.head.Some? then Took(s.head.value) else Crashed)
    case Took(m) => m in s.next && s' == s.(head := s.next[m], consumer := Unlinked(m))
    case Unlinked(m) => s' == s.(count := s.count - 1, consumer := Uncounted(m))
    case Uncounted(m) => s' == s.(ptail := if s.ptail == NextOf(m) then HeadSlot else s.ptail, consumer := Fixed(m))
    case Fixed(m) => s' == s.(lock := Unlocked, consumer := Outside, delivered := s.delivered + [m])
    case Crashed => false
  }

  ghost predicate Step(s: State, s': State) {
    ConsumerStep(s, s') || exists p, m :: ProducerStep(s, p, m, s')
  }

  ghost predicate IsRun(states: seq<State>) {
    states != [] && Init(states[0]) && forall k :: 0 <= k < |states| - 1 ==> Step(states[k], states[k + 1])
  }

  // ---- the queue a state represents ----------------------------------------------

  // The consumer has unlinked a message but not yet returned it.
  predicate InHand(s: State) { s.consumer.Unlinked? || s.consumer.Uncounted? || s.consumer.Fixed? }

  // The number of messages that have left the queue.
  function Gone(s: State): nat { |s.delivered| + if InHand(s) then 1 else 0 }

  // Linked so far are the delivered messages, the one in hand and q, in order.
  ghost predicate Accounted(s: State, q: seq<Msg>) {
    && |s.delivered| <= Gone(s) <= |s.linked|
    && s.delivered == s.linked[..|s.delivered|]
    && (InHand(s) ==> s.linked[|s.delivered|] == s.consumer.m)
    && q == s.linked[Gone(s)..]
  }

  // q is linked from the head on, in order.
  ghost predicate Chained(s: State, q: seq<Msg>) {
    && s.head == (if q == [] then None else Some(q[0]))
    && forall i {:trigger q[i]} :: 0 <= i < |q| ==>
         q[i] in s.next && s.next[q[i]] == if i + 1 < |q| then Some(q[i + 1]) else None
  }

  function SlotAfter(q: seq<Msg>): Slot {
    if q == [] then HeadSlot else NextOf(q[|q| - 1])
  }

  function HolderPc(s: State): InsertPc {
    if s.lock.ByProducer? && s.lock.p in s.producers then s.producers[s.lock.p] else Idle
  }

  // Where ptail points and what count is, statement by statement.
  function ExpectedTail(s: State, q: seq<Msg>): Slot {
    if HolderPc(s).Linked? && q != [] then SlotAfter(q[..|q| - 1])
    else if (s.consumer.Unlinked? || s.consumer.Uncounted?) && q == [] then NextOf(s.consumer.m)
    else SlotAfter(q)
  }

  function ExpectedCount(s: State, q: seq<Msg>): int {
    if HolderPc(s).Linked? || HolderPc(s).Moved? then |q| - 1
    else if s.consumer.Unlinked? then |q| + 1
    else |q|
  }

  predicate InsideInsert(pc: InsertPc) { pc.Locked? || pc.Linked? || pc.Moved? || pc.Counted? }

  predicate InsideDelete(pc: DeletePc) { pc.Entered? || pc.Took? || pc.Unlinked? || pc.Uncounted? || pc.Fixed? }

  // The lock is held by whoever is between taking and releasing it.
  ghost predicate LockOk(s: State) {
    && (forall p :: p in s.producers ==> (InsideInsert(s.producers[p]) <==> s.lock == ByProducer(p)))
    && (s.lock.ByProducer? ==> s.lock.p in s.producers)
    && (InsideDelete(s.consumer) <==> s.lock == ByConsumer)
  }

  // Producer p has this message, not linked yet.
  predicate Pending(s: State, p: Producer, m: Msg) {
    p in s.producers && (s.producers[p] == Waiting(m) || s.producers[p] == Locked(m))
  }

  // A pending message ends in NULL and belongs to one producer.
  ghost predicate PendingOk(s: State) {
    && (forall p, m :: Pending(s, p, m) ==> m !in s.linked && m in s.next && s.next[m] == None)
    && (forall p, p', m :: Pending(s, p, m) && Pending(s, p', m) ==> p == p')
    && (forall i :: 0 <= i < |s.linked| ==> s.linked[i] in s.next)
  }

  // What the consumer relies on: once it saw a message, there is one.
  ghost predicate ConsumerOk(s: State, q: seq<Msg>) {
    && !s.consumer.Crashed?
    && (s.consumer.SawMessage? || s.consumer.Entered? ==> q != [])
    && (s.consumer.Took? ==> q != [] && q[0] == s.consumer.m)
    && (HolderPc(s).Linked? || HolderPc(s).Moved? ==> q != [] && q[|q| - 1] == HolderPc(s).m)
  }

  ghost predicate Placed(s: State, q: seq<Msg>) {
    s.ptail == ExpectedTail(s, q) && s.count == ExpectedCount(s, q) && ConsumerOk(s, q)
  }

  ghost predicate InvWith(s: State, q: seq<Msg>) {
    && Accounted(s, q) && Distinct(s.linked) && Chained(s, q)
    && LockOk(s) && PendingOk(s) && Placed(s, q)
  }

  ghost predicate Inv(s: State) {
    exists q :: InvWith(s, q)
  }

  // ---- parts of the invariant that a statement leaves alone -------------------------

  lemma ChainedFrame(s: State, s': State, q: seq<Msg>)
    requires Chained(s, q) && s'.head == s.head
    requires forall i :: 0 <= i < |q| ==> q[i] in s'.next && s'.next[q[i]] == s.next[q[i]]
    ensures Chained(s', q)
  {
  }

  lemma AccountedFrame(s: State, s': State, q: seq<Msg>)
    requires Accounted(s, q) && s'.linked == s.linked && s'.delivered == s.delivered
    requires InHand(s') == InHand(s) && (InHand(s) ==> s'.consumer.m == s.consumer.m)
    ensures Accounted(s', q)
  {
  }

  lemma PendingFrame(s: State, s': State)
    requires PendingOk(s) && s'.linked == s.linked
    requires forall p, m :: Pending(s', p, m) ==> Pending(s, p, m)
    requires forall m :: m in s.next ==> m in s'.next && s'.next[m] == s.next[m]
    ensures PendingOk(s')
  {
  }

  // The queue is the end of what was linked.
  lemma InLinked(s: State, q: seq<Msg>)
    requires Accounted(s, q)
    ensures forall i :: 0 <= i < |q| ==> q[i] == s.linked[Gone(s) + i] && q[i] in s.linked
  {
  }

  // ---- every statement keeps it ------------------------------------------------------

  lemma TakePending(s: State, p: Producer, m: Msg, s': State)
    requires PendingOk(s) && ProducerStep(s, p, m, s') && s.producers[p].Idle?
    ensures PendingOk(s')
  {
    assert m !in s.linked;
    forall p', m' | Pending(s', p', m')
      ensures (p' == p && m' == m) || Pending(s, p', m')
    {
    }
  }

  lemma TakeChains(s: State, q: seq<Msg>, p: Producer, m: Msg, s': State)
    requires Accounted(s, q) && Chained(s, q) && ProducerStep(s, p, m, s') && s.producers[p].Idle?
    ensures Accounted(s', q) && Chained(s', q)
  {
    AccountedFrame(s, s', q);
    ChainedFrame(s, s', q);
  }

  lemma TakeLocks(s: State, q: seq<Msg>, p: Producer, m: Msg, s': State)
    requires LockOk(s) && ProducerStep(s, p, m, s') && s.producers[p].Idle?
    requires Placed(s, q)
    ensures LockOk(s') && Placed(s', q)
  {
    assert HolderPc(s') == HolderPc(s);
  }

  lemma TakeMessage(s: State, q: seq<Msg>, p: Producer, m: Msg, s': State)
    requires InvWith(s, q) && ProducerStep(s, p, m, s') && s.producers[p].Idle?
    ensures InvWith(s', q)
  {
    TakeChains(s, q, p, m, s');
    TakeLocks(s, q, p, m, s');
    TakePending(s, p, m, s');
  }

  lemma PassLock(s: State, q: seq<Msg>, p: Producer, m: Msg, s': State)
    requires LockOk(s) && ProducerStep(s, p, m, s') && (s.producers[p].Waiting? || s.producers[p].Counted?)
    requires Placed(s, q)
    ensures LockOk(s') && Placed(s', q)
  {
    assert !HolderPc(s').Linked? && !HolderPc(s').Moved?;
  }

  lemma LockOrUnlock(s: State, q: seq<Msg>, p: Producer, m: Msg, s': State)
    requires InvWith(s, q) && ProducerStep(s, p, m, s') && (s.producers[p].Waiting? || s.producers[p].Counted?)
    ensures InvWith(s', q)
  {
    AccountedFrame(s, s', q);
    ChainedFrame(s, s', q);
    PendingFrame(s, s');
    PassLock(s, q, p, m, s');
  }

  lemma LinkChains(s: State, q: seq<Msg>, x: Msg)
    requires Chained(s, q) && s.ptail == SlotAfter(q)
    requires x !in q && x in s.next && s.next[x] == None && Distinct(q)
    ensures Chained(Store(s, s.ptail, Some(x)), q + [x])
    ensures forall m :: m in s.next ==> m in Store(s, s.ptail, Some(x)).next
    ensures forall m :: m in s.next && m !in q ==> Store(s, s.ptail, Some(x)).next[m] == s.next[m]
  {
  }

  lemma AccountedAppend(s: State, s': State, q: seq<Msg>, x: Msg)
    requires Accounted(s, q) && Distinct(s.linked) && x !in s.linked
    requires s'.linked == s.linked + [x] && s'.delivered == s.delivered && s'.consumer == s.consumer
    ensures Accounted(s', q + [x]) && Distinct(s'.linked)
  {
  }

  lemma LinkPending(s: State, q: seq<Msg>, p: Producer, m: Msg, s': State)
    requires InvWith(s, q) && ProducerStep(s, p, m, s') && s.producers[p].Locked?
    requires s.ptail == SlotAfter(q) && s.producers[p].m !in s.linked && Distinct(q)
    requires Chained(Store(s, s.ptail, Some(s.producers[p].m)), q + [s.producers[p].m])
    requires forall k :: k in s.next ==> k in Store(s, s.ptail, Some(s.producers[p].m)).next
    requires forall k :: k in s.next && k !in s.linked ==>
               Store(s, s.ptail, Some(s.producers[p].m)).next[k] == s.next[k]
    ensures PendingOk(s') && Chained(s', q + [s.producers[p].m])
  {
    var x := s.producers[p].m;
    assert Pending(s, p, x);
    ChainedFrame(Store(s, s.ptail, Some(x)), s', q + [x]);
    assert forall p', m' :: Pending(s', p', m') ==> Pending(s, p', m') && p' != p;
  }

  lemma LinkLocks(s: State, q: seq<Msg>, p: Producer, m: Msg, s': State, q': seq<Msg>)
    requires InvWith(s, q) && ProducerStep(s, p, m, s') && s.producers[p].Locked?
    requires |q'| == |q| + 1 && q'[|q|] == s.producers[p].m && q'[..|q|] == q
    ensures LockOk(s') && Placed(s', q')
  {
  }

  lemma Link(s: State, q: seq<Msg>, p: Producer, m: Msg, s': State)
    requires InvWith(s, q) && ProducerStep(s, p, m, s') && s.producers[p].Locked?
    ensures InvWith(s', q + [s.producers[p].m])
  {
    var x := s.producers[p].m;
    assert HolderPc(s) == Locked(x) && s.ptail == SlotAfter(q);
    assert Pending(s, p, x);
    InLinked(s, q);
    LinkChains(s, q, x);
    AccountedAppend(s, s', q, x);
    LinkPending(s, q, p, m, s');
    LinkLocks(s, q, p, m, s', q + [x]);
  }

  lemma MoveTail(s: State, q: seq<Msg>, p: Producer, m: Msg, s': State)
    requires LockOk(s) && ProducerStep(s, p, m, s') && (s.producers[p].Linked? || s.producers[p].Moved?)
    requires Placed(s, q)
    ensures LockOk(s') && Placed(s', q)
  {
    assert HolderPc(s) == s.producers[p] && HolderPc(s') == s'.producers[p];
  }

  lemma MoveOrCount(s: State, q: seq<Msg>, p: Producer, m: Msg, s': State)
    requires InvWith(s, q) && ProducerStep(s, p, m, s') && (s.producers[p].Linked? || s.producers[p].Moved?)
    ensures InvWith(s', q)
  {
    AccountedFrame(s, s', q);
    ChainedFrame(s, s', q);
    PendingFrame(s, s');
    MoveTail(s, q, p, m, s');
  }

  lemma EnterLocks(s: State, q: seq<Msg>, s': State)
    requires LockOk(s) && Chained(s, q) && ConsumerStep(s, s')
    requires s.consumer.Outside? || s.consumer.SawMessage? || s.consumer.Entered?
    requires Placed(s, q)
    ensures LockOk(s') && Placed(s', q)
  {
    assert HolderPc(s') == HolderPc(s);
  }

  lemma EnterDelete(s: State, q: seq<Msg>, s': State)
    requires InvWith(s, q) && ConsumerStep(s, s')
    requires s.consumer.Outside? || s.consumer.SawMessage? || s.consumer.Entered?
    ensures InvWith(s', q)
  {
    AccountedFrame(s, s', q);
    ChainedFrame(s, s', q);
    PendingFrame(s, s');
    EnterLocks(s, q, s');
  }

  lemma HandedOver(s: State, q: seq<Msg>, s': State)
    requires Accounted(s, q) && Distinct(s.linked) && ConsumerStep(s, s') && InHand(s)
    ensures Accounted(s', q)
    ensures q != [] ==> q[|q| - 1] != s.consumer.m
  {
  }

  lemma LeaveLocks(s: State, q: seq<Msg>, s': State)
    requires LockOk(s) && ConsumerStep(s, s') && InHand(s) && Placed(s, q)
    requires q != [] ==> q[|q| - 1] != s.consumer.m
    ensures LockOk(s') && Placed(s', q)
  {
    assert HolderPc(s) == HolderPc(s') == Idle;
  }

  lemma LeaveDelete(s: State, q: seq<Msg>, s': State)
    requires InvWith(s, q) && ConsumerStep(s, s') && InHand(s)
    ensures InvWith(s', q)
  {
    HandedOver(s, q, s');
    ChainedFrame(s, s', q);
    PendingFrame(s, s');
    LeaveLocks(s, q, s');
  }

  lemma UnlinkAccounts(s: State, q: seq<Msg>, s': State)
    requires Accounted(s, q) && ConsumerStep(s, s') && s.consumer.Took? && q != [] && q[0] == s.consumer.m
    ensures Accounted(s', q[1..])
  {
    assert s.linked[Gone(s)..][1..] == s.linked[Gone(s) + 1..];
  }

  lemma UnlinkChains(s: State, q: seq<Msg>, s': State)
    requires Chained(s, q) && ConsumerStep(s, s') && s.consumer.Took? && q != [] && q[0] == s.consumer.m
    ensures Chained(s', q[1..])
  {
    assert s.next[q[0]] == if 1 < |q| then Some(q[1]) else None;
  }

  lemma UnlinkLocks(s: State, q: seq<Msg>, s': State)
    requires LockOk(s) && ConsumerStep(s, s') && s.consumer.Took? && q != [] && q[0] == s.consumer.m
    requires Placed(s, q)
    ensures LockOk(s') && Placed(s', q[1..])
  {
    assert HolderPc(s) == HolderPc(s') == Idle;
  }

  lemma Unlink(s: State, q: seq<Msg>, s': State)
    requires InvWith(s, q) && ConsumerStep(s, s') && s.consumer.Took?
    ensures q != [] && InvWith(s', q[1..])
  {
    UnlinkAccounts(s, q, s');
    UnlinkChains(s, q, s');
    UnlinkLocks(s, q, s');
    PendingFrame(s, s');
  }

  lemma StepKeeps(s: State, s': State)
    requires Inv(s) && Step(s, s')
    ensures Inv(s')
  {
    var q :| InvWith(s, q);
    if ConsumerStep(s, s') {
      match s.consumer
      case Outside => EnterDelete(s, q, s');
      case SawMessage => EnterDelete(s, q, s');
      case Entered => EnterDelete(s, q, s');
      case Took(_) => Unlink(s, q, s');
      case _ => LeaveDelete(s, q, s');
    } else {
      var p, m :| ProducerStep(s, p, m, s');
      match s.producers[p]
      case Idle => TakeMessage(s, q, p, m, s');
      case Waiting(_) => LockOrUnlock(s, q, p, m, s');
      case Locked(_) => Link(s, q, p, m, s');
      case Linked(_) => MoveOrCount(s, q, p, m, s');
      case Moved(_) => MoveOrCount(s, q, p, m, s');
      case Counted(_) => LockOrUnlock(s, q, p, m, s');
    }
  }

  lemma InitLocks(s: State)
    requires Init(s)
    ensures LockOk(s) && PendingOk(s) && HolderPc(s) == Idle
  {
  }

  lemma InitEmpty(s: State, q: seq<Msg>)
    requires Init(s) && HolderPc(s) == Idle && q == []
    ensures Accounted(s, q) && Chained(s, q) && Placed(s, q)
  {
  }

  lemma InitKeeps(s: State)
    requires Init(s)
    ensures Inv(s)
  {
    var q: seq<Msg> := [];
    InitLocks(s);
    InitEmpty(s, q);
    assert InvWith(s, q);
  }

  lemma {:induction false} RunKeeps(states: seq<State>, n: nat)
    requires IsRun(states) && n < |states|
    ensures Inv(states[n])
  {
    if n == 0 {
      InitKeeps(states[0]);
    } else {
      RunKeeps(states, n - 1);
      StepKeeps(states[n - 1], states[n]);
    }
  }

  // ---- the main results ----------------------------------------------------------------

  // In every interleaving the consumer never dereferences NULL, and every message
  // linked so far is, in this order, delivered, in the consumer's hand or in the
  // queue, once.
  lemma DeliveredOnceInOrder(states: seq<State>, n: nat)
    requires IsRun(states) && n < |states|
    ensures !states[n].consumer.Crashed?
    ensures Distinct(states[n].linked) && exists q :: Accounted(states[n], q)
  {
    RunKeeps(states, n);
    var q :| InvWith(states[n], q);
  }

  // Whenever the lock is free, the messages not yet delivered are linked from the
  // head in order, ptail points behind the last and count is their number.
  lemma WellFormedWhenUnlocked(states: seq<State>, n: nat) returns (q: seq<Msg>)
    requires IsRun(states) && n < |states| && states[n].lock == Unlocked
    ensures states[n].linked == states[n].delivered + q
    ensures Chained(states[n], q) && states[n].ptail == SlotAfter(q) && states[n].count == |q|
  {
    RunKeeps(states, n);
    q :| InvWith(states[n], q);
    assert !InHand(states[n]) && HolderPc(states[n]) == Idle;
  }
}
