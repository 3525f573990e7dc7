/**
 The packets of the two snull interfaces (snull/snull.c) under every interleaving of senders,
 interrupts, polls and releases.  The code drops its lock in three places that matter, so these are
 separate steps here: between putting a packet back, looking whether the sender is stopped, looking
 whether the packet is the last of its list, and waking the sender (lines 139-141),
 between queueing a packet and notifying the receiver (lines 417-418), and between seeing an empty
 queue and enabling interrupts again (lines 284-286).
 */
module SnullNet {

  type Pkt = nat

  /** A packet held by running code: taken from its pool for sending, or taken from a receive queue. */
  datatype Hand = Sending | Received

  /** Closing: the poll saw an empty queue and has not yet enabled interrupts. */
  datatype Poll = Off | Running | Closing

  datatype Dev = Dev(pool: seq<Pkt>, rxq: seq<Pkt>, stopped: bool, rxInt: bool, poll: Poll, notices: nat, irqs: nat)

  /**
   `notices` counts packets queued whose sender has yet to look at `rx_int_enabled`, `irqs` the receive
   interrupts raised and not yet handled.  `owner` is `pkt->dev`; `last` are the packets whose `next` is null; `checks` are the wake decisions
   still due, by packet, and `seen` those that have found the sender stopped; `wakes` are the senders about
   to be woken; `oops` is a null pointer taken from an empty pool at line 117.
   */
  datatype Net = Net(
    napi: bool,
    owner: map<Pkt, nat>,
    devs: seq<Dev>,
    hands: map<Pkt, Hand>,
    last: set<Pkt>,
    checks: multiset<Pkt>,
    seen: multiset<Pkt>,
    wakes: multiset<nat>,
    oops: bool
  )

  datatype Event =
    | Take(d: nat)        // snull_get_tx_buffer, called by the kernel while the queue is not stopped
    | Enqueue(p: Pkt)     // snull_enqueue_buf on the peer
    | Notify(d: nat)      // line 418: are the interrupts of `d` enabled?
    | Interrupt(d: nat)   // lines 419-420, and the interrupt handler
    | Pop(d: nat)         // one turn of the loop of snull_poll
    | Push(p: Pkt)        // snull_release_buffer up to the unlock
    | Look(p: Pkt)        // line 140: is the queue stopped?
    | Check(p: Pkt)       // line 140: is `next` null?
    | Wake(d: nat)        // line 141
    | PollEmpty(d: nat)   // line 284
    | PollEnable(d: nat)  // lines 285-286

  function Peer(d: nat): nat {
    if d == 0 then 1 else 0
  }

  predicate WellFormed(s: Net) {
    && |s.devs| == 2
    && forall p :: p in s.owner ==> s.owner[p] < 2
  }

  predicate Enabled(s: Net, e: Event) {
    && WellFormed(s) && !s.oops
    && match e
       case Take(d) => d < 2 && !s.devs[d].stopped
       case Enqueue(p) => p in s.hands && p in s.owner && s.hands[p].Sending?
       case Notify(d) => d < 2 && s.devs[d].notices > 0
       case Interrupt(d) => d < 2 && s.devs[d].irqs > 0
       case Pop(d) => d < 2 && s.napi && s.devs[d].poll.Running? && s.devs[d].rxq != []
       case Push(p) => p in s.hands && p in s.owner && s.hands[p].Received?
       case Look(p) => p in s.checks && p in s.owner
       case Check(p) => p in s.seen && p in s.owner
       case Wake(d) => d < 2 && d in s.wakes
       case PollEmpty(d) => d < 2 && s.devs[d].poll.Running? && s.devs[d].rxq == []
       case PollEnable(d) => d < 2 && s.devs[d].poll.Closing?
  }

  function With(s: Net, d: nat, dev: Dev): (t: Net)
    requires d < |s.devs|
    ensures |t.devs| == |s.devs| && t.owner == s.owner
  {
    s.(devs := s.devs[d := dev])
  }

  /** Take the head of a receive queue. */
  function Popped(s: Net, d: nat): (t: Net)
    requires d < |s.devs| && s.devs[d].rxq != []
    ensures |t.devs| == |s.devs| && t.owner == s.owner
  {
    var dev := s.devs[d];
    With(s, d, dev.(rxq := dev.rxq[1..])).(hands := s.hands[dev.rxq[0] := Received])
  }

  /** The handlers: with polling, disable interrupts and schedule a poll if none is; without, take one packet. */
  function Handled(s: Net, d: nat): (t: Net)
    requires d < |s.devs| && s.devs[d].irqs > 0
    ensures |t.devs| == |s.devs| && t.owner == s.owner
  {
    var dev := s.devs[d].(irqs := s.devs[d].irqs - 1);
    if s.napi then With(s, d, dev.(rxInt := false, poll := if dev.poll.Off? then Running else dev.poll))
    else if dev.rxq != [] then Popped(With(s, d, dev), d)
    else With(s, d, dev)
  }

  function NextNull(last: set<Pkt>, p: Pkt, isNull: bool): set<Pkt> {
    if isNull then last + {p} else last - {p}
  }

  /** A packet's owner never changes. */
  function Step(s: Net, e: Event): (t: Net)
    requires Enabled(s, e)
    ensures t.owner == s.owner && WellFormed(t)
  {
    match e
    case Take(d) =>
      var dev := s.devs[d];
      if dev.pool == [] then s.(oops := true)
      else With(s, d, dev.(pool := dev.pool[1..], stopped := |dev.pool| == 1)).(hands := s.hands[dev.pool[0] := Sending])
    case Enqueue(p) =>
      var d := Peer(s.owner[p]);
      var dev := s.devs[d];
      With(s, d, dev.(rxq := [p] + dev.rxq, notices := dev.notices + 1))
        .(hands := s.hands - {p}, last := NextNull(s.last, p, dev.rxq == []))
    case Notify(d) =>
      var dev := s.devs[d];
      With(s, d, dev.(notices := dev.notices - 1, irqs := if dev.rxInt then dev.irqs + 1 else dev.irqs))
    case Interrupt(d) => Handled(s, d)
    case Pop(d) => Popped(s, d)
    case Push(p) =>
      var d := s.owner[p];
      var dev := s.devs[d];
      With(s, d, dev.(pool := [p] + dev.pool))
        .(hands := s.hands - {p}, last := NextNull(s.last, p, dev.pool == []), checks := s.checks + multiset{p})
    case Look(p) =>
      s.(checks := s.checks - multiset{p}, seen := if s.devs[s.owner[p]].stopped then s.seen + multiset{p} else s.seen)
    case Check(p) =>
      s.(seen := s.seen - multiset{p}, wakes := if p in s.last then s.wakes + multiset{s.owner[p]} else s.wakes)
    case Wake(d) => With(s, d, s.devs[d].(stopped := false)).(wakes := s.wakes - multiset{d})
    case PollEmpty(d) => With(s, d, s.devs[d].(poll := Closing))
    case PollEnable(d) => With(s, d, s.devs[d].(poll := Off, rxInt := true))
  }

  /** Both pools filled, nothing queued, both interfaces open with interrupts enabled. */
  ghost predicate Init(s: Net) {
    && WellFormed(s)
    && (forall d :: 0 <= d < 2 ==>
          var dev := s.devs[d];
          dev.pool != [] && dev.rxq == [] && !dev.stopped && dev.rxInt && dev.poll.Off? && dev.notices == dev.irqs == 0)
    && s.hands == map[] && s.checks == s.seen == multiset{} && s.wakes == multiset{} && !s.oops
    && Conserved(s)
  }

  // ---- Packets are conserved ----

  ghost function Times(q: seq<Pkt>, p: Pkt): nat {
    multiset(q)[p]
  }

  ghost function InDev(dev: Dev, p: Pkt): nat {
    Times(dev.pool, p) + Times(dev.rxq, p)
  }

  ghost function InHand(hands: map<Pkt, Hand>, p: Pkt): nat {
    if p in hands then 1 else 0
  }

  /** In how many places a packet is. */
  ghost function Places(s: Net, p: Pkt): nat
    requires |s.devs| == 2
  {
    InDev(s.devs[0], p) + InDev(s.devs[1], p) + InHand(s.hands, p)
  }

  /** A pool holds the device's own packets, a receive queue the peer's. */
  ghost predicate RightPackets(owner: map<Pkt, nat>, d: nat, dev: Dev) {
    && (forall p :: p in dev.pool ==> p in owner && owner[p] == d)
    && (forall p :: p in dev.rxq ==> p in owner && owner[p] == Peer(d))
  }

  /** Every packet is in exactly one place, once, and that is a place for packets of its owner. */
  ghost predicate Conserved(s: Net) {
    && WellFormed(s)
    && (forall p :: Places(s, p) == if p in s.owner then 1 else 0)
    && RightPackets(s.owner, 0, s.devs[0])
    && RightPackets(s.owner, 1, s.devs[1])
  }

  /** A step that moves packets between one device and the hands. */
  lemma Moves(s: Net, t: Net, d: nat, dev: Dev)
    requires Conserved(s) && d < 2 && t.devs == s.devs[d := dev] && t.owner == s.owner
    requires RightPackets(s.owner, d, dev)
    requires forall p :: InDev(dev, p) + InHand(t.hands, p) == InDev(s.devs[d], p) + InHand(s.hands, p)
    ensures Conserved(t)
  {
    assert forall p :: Places(t, p) == Places(s, p);
  }

  lemma HeadTimes(q: seq<Pkt>, p: Pkt)
    requires q != []
    ensures Times(q, p) == (if p == q[0] then 1 else 0) + Times(q[1..], p)
    ensures Times(q, p) > 0 <==> p in q
  {
    assert q == [q[0]] + q[1..];
  }

  lemma PushTimes(q: seq<Pkt>, x: Pkt, p: Pkt)
    ensures Times([x] + q, p) == (if p == x then 1 else 0) + Times(q, p)
  {
  }

  /** A queued or pooled packet is in nobody's hands. */
  lemma NotInHands(s: Net, d: nat, p: Pkt)
    requires Conserved(s) && d < 2 && (p in s.devs[d].pool || p in s.devs[d].rxq)
    ensures p !in s.hands
  {
    assert Places(s, p) <= 1;
    if p in s.devs[d].pool {
      HeadTimes(s.devs[d].pool, p);
    } else {
      HeadTimes(s.devs[d].rxq, p);
    }
  }

  lemma PopConserves(s: Net, d: nat)
    requires Conserved(s) && d < 2 && s.devs[d].rxq != []
    ensures Conserved(Popped(s, d))
  {
    var dev := s.devs[d];
    NotInHands(s, d, dev.rxq[0]);
    forall p
      ensures Times(dev.rxq, p) == (if p == dev.rxq[0] then 1 else 0) + Times(dev.rxq[1..], p)
    {
      HeadTimes(dev.rxq, p);
    }
    Moves(s, Popped(s, d), d, dev.(rxq := dev.rxq[1..]));
  }

  lemma TakeConserves(s: Net, d: nat)
    requires Conserved(s) && Enabled(s, Take(d)) && s.devs[d].pool != []
    ensures Conserved(Step(s, Take(d)))
  {
    var dev := s.devs[d];
    NotInHands(s, d, dev.pool[0]);
    forall p
      ensures Times(dev.pool, p) == (if p == dev.pool[0] then 1 else 0) + Times(dev.pool[1..], p)
    {
      HeadTimes(dev.pool, p);
    }
    Moves(s, Step(s, Take(d)), d, dev.(pool := dev.pool[1..], stopped := |dev.pool| == 1));
  }

  lemma EnqueueConserves(s: Net, x: Pkt)
    requires Conserved(s) && Enabled(s, Enqueue(x))
    ensures Conserved(Step(s, Enqueue(x)))
  {
    var d := Peer(s.owner[x]);
    var dev := s.devs[d];
    forall p
      ensures Times([x] + dev.rxq, p) == (if p == x then 1 else 0) + Times(dev.rxq, p)
    {
      PushTimes(dev.rxq, x, p);
    }
    Moves(s, Step(s, Enqueue(x)), d, dev.(rxq := [x] + dev.rxq, notices := dev.notices + 1));
  }

  lemma PushConserves(s: Net, x: Pkt)
    requires Conserved(s) && Enabled(s, Push(x))
    ensures Conserved(Step(s, Push(x)))
  {
    var d := s.owner[x];
    var dev := s.devs[d];
    forall p
      ensures Times([x] + dev.pool, p) == (if p == x then 1 else 0) + Times(dev.pool, p)
    {
      PushTimes(dev.pool, x, p);
    }
    Moves(s, Step(s, Push(x)), d, dev.(pool := [x] + dev.pool));
  }

  lemma QuietConserves(s: Net, t: Net, d: nat)
    requires Conserved(s) && d < 2 && |t.devs| == 2 && t.devs == s.devs[d := t.devs[d]] && t.owner == s.owner && t.hands == s.hands
    requires t.devs[d].pool == s.devs[d].pool && t.devs[d].rxq == s.devs[d].rxq
    ensures Conserved(t)
  {
    Moves(s, t, d, t.devs[d]);
  }

  lemma InterruptConserves(s: Net, d: nat)
    requires Conserved(s) && Enabled(s, Interrupt(d))
    ensures Conserved(Step(s, Interrupt(d)))
  {
    var t := With(s, d, s.devs[d].(irqs := s.devs[d].irqs - 1));
    QuietConserves(s, t, d);
    if s.napi {
      QuietConserves(s, Step(s, Interrupt(d)), d);
    } else if s.devs[d].rxq != [] {
      PopConserves(t, d);
    }
  }

  /** The two looks of a wake decision touch neither devices nor packets. */
  lemma DecisionMoves(s: Net, e: Event)
    requires Enabled(s, e) && (e.Look? || e.Check?)
    ensures var t := Step(s, e);
            t.devs == s.devs && t.owner == s.owner && t.hands == s.hands && t.last == s.last && t.napi == s.napi && t.oops == s.oops
  {
    match e
    case Look(_) =>
    case Check(_) =>
  }

  lemma SameConserves(s: Net, t: Net)
    requires Conserved(s) && t.devs == s.devs && t.owner == s.owner && t.hands == s.hands
    ensures Conserved(t)
  {
    assert forall p :: Places(t, p) == Places(s, p);
  }

  lemma DecisionKeeps(s: Net, e: Event)
    requires Conserved(s) && Enabled(s, e) && (e.Look? || e.Check?)
    ensures Conserved(Step(s, e))
  {
    DecisionMoves(s, e);
    SameConserves(s, Step(s, e));
  }

  /** No step loses or copies a packet, or puts it into the wrong pool. */
  lemma StepConserves(s: Net, e: Event)
    requires Conserved(s) && Enabled(s, e)
    ensures Conserved(Step(s, e))
  {
    match e
    case Take(d) =>
      if s.devs[d].pool == [] {
        QuietConserves(s, Step(s, e), d);
      } else {
        TakeConserves(s, d);
      }
    case Enqueue(p) => EnqueueConserves(s, p);
    case Push(p) => PushConserves(s, p);
    case Pop(d) => PopConserves(s, d);
    case Notify(d) => QuietConserves(s, Step(s, e), d);
    case Interrupt(d) => InterruptConserves(s, d);
    case Look(_) => DecisionKeeps(s, e);
    case Check(_) => DecisionKeeps(s, e);
    case Wake(d) => QuietConserves(s, Step(s, e), d);
    case PollEmpty(d) => QuietConserves(s, Step(s, e), d);
    case PollEnable(d) => QuietConserves(s, Step(s, e), d);
  }

  // ---- Flow control and receive notification ----

  /** The wake decisions that have yet to look at `next`. */
  function Due(s: Net): multiset<Pkt> {
    s.checks + s.seen
  }

  /**
   A device without buffers is stopped, so no sender finds the pool empty; a stopped device with buffers is
   about to be woken, or has a wake decision due that will find `next` null, for the packet at the bottom of
   its pool.
   */
  ghost predicate FlowOf(dev: Dev, due: multiset<Pkt>, last: set<Pkt>, wake: bool) {
    if dev.pool == [] then dev.stopped
    else dev.stopped ==> wake || (Bottom(dev.pool) in due && Bottom(dev.pool) in last)
  }

  function Bottom(pool: seq<Pkt>): Pkt
    requires pool != []
  {
    pool[|pool| - 1]
  }

  ghost predicate Flow(s: Net) {
    && !s.oops && |s.devs| == 2
    && FlowOf(s.devs[0], Due(s), s.last, 0 in s.wakes) && FlowOf(s.devs[1], Due(s), s.last, 1 in s.wakes)
  }

  /**
   No packet is stranded: with polling, interrupts are enabled exactly when no poll is under way, and a
   queued packet has a poll under way or a notification due; without, there is an interrupt due for each.
   */
  ghost predicate NotifiedOf(napi: bool, dev: Dev) {
    if napi then (dev.rxInt <==> dev.poll.Off?) && (dev.rxq != [] && dev.poll.Off? ==> dev.notices + dev.irqs > 0)
    else dev.poll.Off? && dev.rxInt && |dev.rxq| <= dev.notices + dev.irqs
  }

  ghost predicate Notified(s: Net) {
    |s.devs| == 2 && NotifiedOf(s.napi, s.devs[0]) && NotifiedOf(s.napi, s.devs[1])
  }

  ghost predicate Inv(s: Net) {
    Conserved(s) && Flow(s) && Notified(s)
  }

  /**
   The two places where the dropped lock matters.  A sender is woken although its pool has been emptied
   since its packet came back, or since it was looked at; a poll enables interrupts over a queue that has been
   filled, and whose notification has passed, since it was seen empty.
   */
  predicate Harmful(s: Net, e: Event)
    requires Enabled(s, e)
  {
    match e
    case Wake(d) => s.devs[d].pool == []
    case PollEnable(d) => s.napi && s.devs[d].rxq != [] && s.devs[d].notices + s.devs[d].irqs == 0
    case _ => false
  }

  /** The packet at the bottom of a pool is in nobody's hands, and belongs to the device. */
  lemma AtBottom(s: Net, d: nat)
    requires Conserved(s) && d < 2 && s.devs[d].pool != []
    ensures Bottom(s.devs[d].pool) !in s.hands
    ensures Bottom(s.devs[d].pool) in s.owner && s.owner[Bottom(s.devs[d].pool)] == d
  {
    NotInHands(s, d, Bottom(s.devs[d].pool));
  }

  /** The same of the pool of the other device. */
  lemma OtherBottom(s: Net, d: nat)
    requires Conserved(s) && d < 2
    ensures s.devs[1 - d].pool != [] ==>
              var b := Bottom(s.devs[1 - d].pool); b !in s.hands && b in s.owner && s.owner[b] == 1 - d
  {
    if s.devs[1 - d].pool != [] {
      AtBottom(s, 1 - d);
    }
  }

  /** A pool keeps the wake-up, or the wake decision for its bottom, that it has due. */
  predicate KeepsDue(d: nat, s: Net, t: Net)
    requires d < |s.devs|
  {
    && (d in s.wakes ==> d in t.wakes)
    && (s.devs[d].pool != [] ==>
          var b := Bottom(s.devs[d].pool);
          s.devs[d].stopped && b in Due(s) && b in s.last ==> d in t.wakes || (b in Due(t) && b in t.last))
  }

  /** A step that changes one device. */
  lemma FlowMoves(s: Net, t: Net, d: nat)
    requires Flow(s) && d < 2 && |t.devs| == 2 && t.devs[1 - d] == s.devs[1 - d] && !t.oops && KeepsDue(1 - d, s, t)
    ensures Flow(t) <==> FlowOf(t.devs[d], Due(t), t.last, d in t.wakes)
  {
    assert FlowOf(s.devs[1 - d], Due(s), s.last, 1 - d in s.wakes);
    assert FlowOf(t.devs[1 - d], Due(t), t.last, 1 - d in t.wakes);
  }

  lemma PushOwn(dev: Dev, due: multiset<Pkt>, last: set<Pkt>, wake: bool, p: Pkt)
    requires FlowOf(dev, due, last, wake) && (dev.pool != [] ==> Bottom(dev.pool) != p)
    ensures FlowOf(dev.(pool := [p] + dev.pool), due + multiset{p}, NextNull(last, p, dev.pool == []), wake)
  {
    assert Bottom([p] + dev.pool) == if dev.pool == [] then p else Bottom(dev.pool);
  }

  lemma PushKeepsDue(s: Net, p: Pkt)
    requires Conserved(s) && Enabled(s, Push(p))
    ensures KeepsDue(1 - s.owner[p], s, Step(s, Push(p)))
  {
    OtherBottom(s, s.owner[p]);
  }

  lemma PushMoves(s: Net, p: Pkt)
    requires Enabled(s, Push(p))
    ensures var d, t := s.owner[p], Step(s, Push(p));
            && d < 2 && !t.oops && |t.devs| == 2 && t.devs[1 - d] == s.devs[1 - d] && t.wakes == s.wakes
            && t.devs[d] == s.devs[d].(pool := [p] + s.devs[d].pool)
            && t.last == NextNull(s.last, p, s.devs[d].pool == []) && Due(t) == Due(s) + multiset{p}
  {
    assert Due(Step(s, Push(p))) == Due(s) + multiset{p};
  }

  lemma PushFlow(s: Net, p: Pkt)
    requires Conserved(s) && Flow(s) && Enabled(s, Push(p))
    ensures Flow(Step(s, Push(p)))
  {
    var d := s.owner[p];
    PushMoves(s, p);
    PushKeepsDue(s, p);
    if s.devs[d].pool != [] {
      AtBottom(s, d);
    }
    PushOwn(s.devs[d], Due(s), s.last, d in s.wakes, p);
    FlowMoves(s, Step(s, Push(p)), d);
  }

  lemma FlowStays(s: Net, t: Net)
    requires Flow(s) && t.devs == s.devs && !t.oops && KeepsDue(0, s, t) && KeepsDue(1, s, t)
    ensures Flow(t)
  {
  }

  lemma TakenOut(due: multiset<Pkt>, p: Pkt, q: Pkt)
    requires q in due && q != p
    ensures q in due - multiset{p}
  {
  }

  /** A decision that looks whether the sender is stopped is dropped only if it is not. */
  lemma LookKeepsDue(s: Net, p: Pkt, d: nat)
    requires Conserved(s) && Enabled(s, Look(p)) && d < 2
    ensures KeepsDue(d, s, Step(s, Look(p)))
  {
    DecisionMoves(s, Look(p));
    if s.devs[d].pool != [] {
      AtBottom(s, d);
      var b := Bottom(s.devs[d].pool);
      if b != p && b in s.checks {
        TakenOut(s.checks, p, b);
      }
    }
  }

  lemma LookFlow(s: Net, p: Pkt)
    requires Conserved(s) && Flow(s) && Enabled(s, Look(p))
    ensures Flow(Step(s, Look(p)))
  {
    DecisionMoves(s, Look(p));
    LookKeepsDue(s, p, 0);
    LookKeepsDue(s, p, 1);
    FlowStays(s, Step(s, Look(p)));
  }

  /** A decision that looks at `next` leads to a wake-up, or was not the one that counts. */
  lemma CheckKeepsDue(s: Net, p: Pkt, d: nat)
    requires Conserved(s) && Enabled(s, Check(p)) && d < 2
    ensures KeepsDue(d, s, Step(s, Check(p)))
  {
    DecisionMoves(s, Check(p));
    if s.devs[d].pool != [] {
      AtBottom(s, d);
      var b := Bottom(s.devs[d].pool);
      if b != p && b in s.seen {
        TakenOut(s.seen, p, b);
      }
    }
  }

  lemma CheckFlow(s: Net, p: Pkt)
    requires Conserved(s) && Flow(s) && Enabled(s, Check(p))
    ensures Flow(Step(s, Check(p)))
  {
    DecisionMoves(s, Check(p));
    CheckKeepsDue(s, p, 0);
    CheckKeepsDue(s, p, 1);
    FlowStays(s, Step(s, Check(p)));
  }

  lemma WakeFlow(s: Net, d: nat)
    requires Flow(s) && Enabled(s, Wake(d))
    ensures Flow(Step(s, Wake(d))) <==> !Harmful(s, Wake(d))
  {
    FlowMoves(s, Step(s, Wake(d)), d);
  }

  lemma EnqueueFlow(s: Net, p: Pkt)
    requires Conserved(s) && Flow(s) && Enabled(s, Enqueue(p))
    ensures Flow(Step(s, Enqueue(p)))
  {
    var d := Peer(s.owner[p]);
    OtherBottom(s, d);
    OtherBottom(s, 1 - d);
    FlowMoves(s, Step(s, Enqueue(p)), d);
  }

  lemma TakeFlow(s: Net, d: nat)
    requires Flow(s) && Enabled(s, Take(d))
    ensures Flow(Step(s, Take(d)))
  {
    assert FlowOf(s.devs[d], Due(s), s.last, d in s.wakes);
    FlowMoves(s, Step(s, Take(d)), d);
  }

  /** A step that touches no pool. */
  lemma QuietFlow(s: Net, t: Net, d: nat)
    requires Flow(s) && d < 2 && |t.devs| == 2 && t.devs == s.devs[d := t.devs[d]] && !t.oops
    requires t.devs[d].pool == s.devs[d].pool && t.devs[d].stopped == s.devs[d].stopped
    requires t.checks == s.checks && t.seen == s.seen && t.wakes == s.wakes && t.last == s.last
    ensures Flow(t)
  {
    FlowMoves(s, t, d);
  }

  lemma FlowStep(s: Net, e: Event)
    requires Conserved(s) && Flow(s) && Enabled(s, e)
    ensures Flow(Step(s, e)) <==> !(e.Wake? && Harmful(s, e))
  {
    match e
    case Take(d) => TakeFlow(s, d);
    case Enqueue(p) => EnqueueFlow(s, p);
    case Push(p) => PushFlow(s, p);
    case Look(p) => LookFlow(s, p);
    case Check(p) => CheckFlow(s, p);
    case Wake(d) => WakeFlow(s, d);
    case Notify(d) => QuietFlow(s, Step(s, e), d);
    case Interrupt(d) => QuietFlow(s, Step(s, e), d);
    case Pop(d) => QuietFlow(s, Step(s, e), d);
    case PollEmpty(d) => QuietFlow(s, Step(s, e), d);
    case PollEnable(d) => QuietFlow(s, Step(s, e), d);
  }

  lemma NotifiedMoves(s: Net, t: Net, d: nat)
    requires Notified(s) && d < 2 && |t.devs| == 2 && t.devs == s.devs[d := t.devs[d]] && t.napi == s.napi
    ensures Notified(t) <==> NotifiedOf(s.napi, t.devs[d])
  {
    assert t.devs[1 - d] == s.devs[1 - d];
  }

  lemma QueueNotified(s: Net, e: Event)
    requires Notified(s) && Enabled(s, e) && (e.Enqueue? || e.Notify? || e.Interrupt? || e.Pop?)
    ensures Notified(Step(s, e))
  {
    match e
    case Enqueue(p) => NotifiedMoves(s, Step(s, e), Peer(s.owner[p]));
    case Notify(d) => NotifiedMoves(s, Step(s, e), d);
    case Interrupt(d) => NotifiedMoves(s, Step(s, e), d);
    case Pop(d) => NotifiedMoves(s, Step(s, e), d);
  }

  lemma PollNotified(s: Net, e: Event)
    requires Notified(s) && Enabled(s, e) && (e.PollEmpty? || e.PollEnable?)
    ensures Notified(Step(s, e)) <==> !Harmful(s, e)
  {
    NotifiedMoves(s, Step(s, e), e.d);
  }

  lemma FlowEventNotified(s: Net, e: Event)
    requires Notified(s) && Enabled(s, e) && (e.Take? || e.Push? || e.Wake?)
    ensures Notified(Step(s, e))
  {
    match e
    case Take(d) => if s.devs[d].pool != [] { NotifiedMoves(s, Step(s, e), d); }
    case Push(p) => NotifiedMoves(s, Step(s, e), s.owner[p]);
    case Wake(d) => NotifiedMoves(s, Step(s, e), d);
  }

  lemma NotifiedStep(s: Net, e: Event)
    requires Notified(s) && Enabled(s, e)
    ensures Notified(Step(s, e)) <==> !(e.PollEnable? && Harmful(s, e))
  {
    match e
    case Look(_) => DecisionMoves(s, e);
    case Check(_) => DecisionMoves(s, e);
    case PollEmpty(_) => PollNotified(s, e);
    case PollEnable(_) => PollNotified(s, e);
    case Enqueue(_) => QueueNotified(s, e);
    case Notify(_) => QueueNotified(s, e);
    case Interrupt(_) => QueueNotified(s, e);
    case Pop(_) => QueueNotified(s, e);
    case _ => FlowEventNotified(s, e);
  }

  /** A step keeps every promise exactly when it is not one of the harmful two. */
  lemma StepExact(s: Net, e: Event)
    requires Inv(s) && Enabled(s, e)
    ensures Inv(Step(s, e)) <==> !Harmful(s, e)
  {
    StepConserves(s, e);
    NotifiedStep(s, e);
    FlowStep(s, e);
  }

  // ---- Whole runs ----

  predicate Runs(s: Net, trace: seq<Event>)
    decreases |trace|
  {
    trace == [] || (Enabled(s, trace[0]) && Runs(Step(s, trace[0]), trace[1..]))
  }

  function Final(s: Net, trace: seq<Event>): Net
    requires Runs(s, trace)
    decreases |trace|
  {
    if trace == [] then s else Final(Step(s, trace[0]), trace[1..])
  }

  predicate NoHarm(s: Net, trace: seq<Event>)
    requires Runs(s, trace)
    decreases |trace|
  {
    trace == [] || (!Harmful(s, trace[0]) && NoHarm(Step(s, trace[0]), trace[1..]))
  }

  ghost predicate AlwaysInv(s: Net, trace: seq<Event>)
    requires Runs(s, trace)
    decreases |trace|
  {
    Inv(s) && (trace == [] || AlwaysInv(Step(s, trace[0]), trace[1..]))
  }

  /** Conservation needs no assumption about the schedule, not even in runs that go wrong otherwise. */
  lemma {:induction false} RunConserves(s: Net, trace: seq<Event>)
    requires Conserved(s) && Runs(s, trace)
    ensures Conserved(Final(s, trace))
    ensures Final(s, trace).owner == s.owner
    decreases |trace|
  {
    if trace != [] {
      StepConserves(s, trace[0]);
      RunConserves(Step(s, trace[0]), trace[1..]);
    }
  }

  lemma InitInv(s: Net)
    requires Init(s)
    ensures Inv(s)
  {
  }

  lemma {:induction false} RunExactFrom(s: Net, trace: seq<Event>)
    requires Inv(s) && Runs(s, trace)
    ensures AlwaysInv(s, trace) <==> NoHarm(s, trace)
    ensures NoHarm(s, trace) ==> Inv(Final(s, trace))
    decreases |trace|
  {
    if trace != [] {
      StepExact(s, trace[0]);
      if Inv(Step(s, trace[0])) {
        RunExactFrom(Step(s, trace[0]), trace[1..]);
      }
    }
  }

  /** Flow control and notification hold in every state of a run exactly when none of its steps was harmful; packets are conserved anyway. */
  lemma RunExact(s: Net, trace: seq<Event>)
    requires Init(s) && Runs(s, trace)
    ensures AlwaysInv(s, trace) <==> NoHarm(s, trace)
    ensures NoHarm(s, trace) ==> Inv(Final(s, trace))
    ensures Conserved(Final(s, trace))
  {
    InitInv(s);
    RunConserves(s, trace);
    RunExactFrom(s, trace);
  }

  /** When no wake-up of its sender and no wake decision is due, a queue is stopped exactly when its pool is empty. */
  lemma StoppedIffEmpty(s: Net, d: nat)
    requires Inv(s) && d < 2 && s.checks == s.seen == multiset{} && d !in s.wakes
    ensures s.devs[d].stopped <==> s.devs[d].pool == []
  {
  }

  /** Whether a step may follow what came right before it: the steps of a release, and those of the poll tail, belong together. */
  predicate MayFollow(owner: map<Pkt, nat>, before: seq<Event>, e: Event) {
    match e
    case Look(p) => before == [Push(p)]
    case Check(p) => before == [Look(p)]
    case Wake(d) => before != [] && before[0].Check? && before[0].p in owner && owner[before[0].p] == d
    case PollEnable(d) => before == [PollEmpty(d)]
    case _ => true
  }

  /** Each wake decision follows its release at once, step by step, and each enabling of interrupts its empty queue. */
  predicate Unbroken(owner: map<Pkt, nat>, before: seq<Event>, trace: seq<Event>)
    decreases |trace|
  {
    trace == [] || (MayFollow(owner, before, trace[0]) && Unbroken(owner, [trace[0]], trace[1..]))
  }

  /** What the last step leaves for one that follows at once. */
  ghost predicate JustDid(before: seq<Event>, s: Net) {
    WellFormed(s) &&
    (before == [] ||
     match before[0]
     case Push(p) => HasBuffers(s, p)
     case Look(p) => HasBuffers(s, p)
     case Check(p) => HasBuffers(s, p)
     case PollEmpty(d) => d < 2 && s.devs[d].rxq == []
     case _ => true)
  }

  /** The pool this packet belongs to is not empty. */
  predicate HasBuffers(s: Net, p: Pkt)
    requires WellFormed(s)
  {
    p in s.owner && s.devs[s.owner[p]].pool != []
  }

  lemma NotWhatBreaks(s: Net, before: seq<Event>, e: Event)
    requires Enabled(s, e) && JustDid(before, s) && MayFollow(s.owner, before, e)
    ensures !Harmful(s, e)
  {
  }

  lemma JustDidStep(s: Net, before: seq<Event>, e: Event)
    requires Enabled(s, e) && JustDid(before, s) && MayFollow(s.owner, before, e)
    ensures WellFormed(Step(s, e)) && JustDid([e], Step(s, e))
  {
    match e
    case Look(_) => DecisionMoves(s, e);
    case Check(_) => DecisionMoves(s, e);
    case Push(p) => PushMoves(s, p);
    case PollEmpty(_) =>
    case _ => assert JustDid([e], Step(s, e));
  }

  /** With those atomic, no schedule is harmful. */
  lemma {:induction false} UnbrokenIsHarmless(s: Net, before: seq<Event>, trace: seq<Event>)
    requires Runs(s, trace) && JustDid(before, s) && Unbroken(s.owner, before, trace)
    ensures NoHarm(s, trace)
    decreases |trace|
  {
    if trace != [] {
      NotWhatBreaks(s, before, trace[0]);
      JustDidStep(s, before, trace[0]);
      UnbrokenIsHarmless(Step(s, trace[0]), [trace[0]], trace[1..]);
    }
  }

  // ---- What leads to a wake-up ----

  lemma {:induction false} RunsSplit(s: Net, a: seq<Event>, b: seq<Event>)
    requires Runs(s, a + b)
    ensures Runs(s, a) && Runs(Final(s, a), b) && Final(s, a + b) == Final(Final(s, a), b)
    decreases |a|
  {
    if a == [] {
      assert a + b == b;
    } else {
      assert (a + b)[1..] == a[1..] + b;
      RunsSplit(Step(s, a[0]), a[1..], b);
    }
  }

  lemma SeenStep(s: Net, e: Event, p: Pkt)
    requires Enabled(s, e)
    ensures p in Step(s, e).seen && p !in s.seen ==> e == Look(p) && s.devs[s.owner[p]].stopped
    ensures p in s.seen && e != Check(p) ==> p in Step(s, e).seen
  {
    if e.Interrupt? {
      HandledDecisions(s, e.d);
    }
  }

  lemma HandledDecisions(s: Net, d: nat)
    requires d < |s.devs| && s.devs[d].irqs > 0
    ensures var t := Handled(s, d); t.checks == s.checks && t.seen == s.seen && t.wakes == s.wakes
  {
  }

  lemma WakesStep(s: Net, e: Event, d: nat)
    requires Enabled(s, e)
    ensures d in Step(s, e).wakes && d !in s.wakes ==> e.Check? && e.p in s.last && s.owner[e.p] == d
  {
    if e.Interrupt? {
      HandledDecisions(s, e.d);
    }
  }

  lemma {:induction false} OwnersStay(s: Net, trace: seq<Event>)
    requires WellFormed(s) && Runs(s, trace)
    ensures Final(s, trace).owner == s.owner && WellFormed(Final(s, trace))
    decreases |trace|
  {
    if trace != [] {
      OwnersStay(Step(s, trace[0]), trace[1..]);
    }
  }

  /** What the last step of a run has to do with who has seen a stopped queue, and with who is about to be woken. */
  lemma LastStep(s: Net, prior: seq<Event>, e: Event, p: Pkt, d: nat)
    requires WellFormed(s) && Runs(s, prior + [e])
    ensures Runs(s, prior) && WellFormed(Final(s, prior)) && Final(s, prior).owner == s.owner
    ensures p in Final(s, prior + [e]).seen ==>
              p in Final(s, prior).seen || (e == Look(p) && p in s.owner && Final(s, prior).devs[s.owner[p]].stopped)
    ensures d in Final(s, prior + [e]).wakes ==>
              d in Final(s, prior).wakes
              || (e.Check? && e.p in Final(s, prior).last && e.p in Final(s, prior).seen && e.p in s.owner && s.owner[e.p] == d)
  {
    RunsSplit(s, prior, [e]);
    OwnersStay(s, prior);
    var u := Final(s, prior);
    assert [e][1..] == [];
    assert Final(u, [e]) == Final(Step(u, e), []);
    SeenStep(u, e, p);
    WakesStep(u, e, d);
  }

  /** Whoever has seen a stopped queue looked at one. */
  lemma {:induction false} SeenHasCause(s: Net, trace: seq<Event>, p: Pkt) returns (before: seq<Event>, after: seq<Event>)
    requires WellFormed(s) && s.seen == multiset{} && Runs(s, trace) && p in Final(s, trace).seen
    ensures trace == before + [Look(p)] + after && Runs(s, before) && WellFormed(Final(s, before)) && p in s.owner
    ensures Final(s, before).devs[s.owner[p]].stopped
    decreases |trace|
  {
    assert trace != [];
    var prior, e := trace[..|trace| - 1], trace[|trace| - 1];
    assert trace == prior + [e];
    LastStep(s, prior, e, p, 0);
    if p in Final(s, prior).seen {
      before, after := SeenHasCause(s, prior, p);
      after := after + [e];
    } else {
      before, after := prior, [];
    }
  }

  lemma {:induction false} WakeWasDecided(s: Net, trace: seq<Event>, d: nat) returns (before: seq<Event>, p: Pkt, after: seq<Event>)
    requires WellFormed(s) && s.wakes == multiset{} && Runs(s, trace) && d in Final(s, trace).wakes
    ensures trace == before + [Check(p)] + after && Runs(s, before) && p in s.owner && s.owner[p] == d
    ensures p in Final(s, before).seen && p in Final(s, before).last
    decreases |trace|
  {
    assert trace != [];
    var prior, e := trace[..|trace| - 1], trace[|trace| - 1];
    assert trace == prior + [e];
    LastStep(s, prior, e, 0, d);
    if d in Final(s, prior).wakes {
      before, p, after := WakeWasDecided(s, prior, d);
      after := after + [e];
    } else {
      before, p, after := prior, e.p, [];
    }
  }

  /**
   A sender about to be woken was seen stopped by a release, and its packet was then seen to be the last of
   its list: no wake-up comes from nowhere.
   */
  lemma WakeHasCause(s: Net, trace: seq<Event>, d: nat)
    returns (before: seq<Event>, p: Pkt, between: seq<Event>, after: seq<Event>)
    requires Init(s) && Runs(s, trace) && d in Final(s, trace).wakes
    ensures trace == before + [Look(p)] + between + [Check(p)] + after
    ensures Runs(s, before) && Runs(s, before + [Look(p)] + between) && p in s.owner && s.owner[p] == d
    ensures WellFormed(Final(s, before)) && Final(s, before).devs[d].stopped
    ensures p in Final(s, before + [Look(p)] + between).last
  {
    var decided;
    decided, p, after := WakeWasDecided(s, trace, d);
    before, between := SeenHasCause(s, decided, p);
  }

  lemma {:induction false} StaysSeen(s: Net, trace: seq<Event>, p: Pkt)
    requires Runs(s, trace) && p in s.seen && Check(p) !in trace
    ensures p in Final(s, trace).seen && Final(s, trace).owner == s.owner
    decreases |trace|
  {
    if trace != [] {
      SeenStep(s, trace[0], p);
      StaysSeen(Step(s, trace[0]), trace[1..], p);
    }
  }

  /** And such a pair of looks does lead to a wake-up, whatever comes in between. */
  lemma DecisionWakes(s: Net, p: Pkt, between: seq<Event>)
    requires Enabled(s, Look(p)) && s.devs[s.owner[p]].stopped
    requires Runs(Step(s, Look(p)), between) && Check(p) !in between
    requires var t := Final(Step(s, Look(p)), between); !t.oops && WellFormed(t) && p in t.last
    ensures var t := Final(Step(s, Look(p)), between);
            Enabled(t, Check(p)) && s.owner[p] in Step(t, Check(p)).wakes
  {
    StaysSeen(Step(s, Look(p)), between, p);
  }

  lemma PoolEvents(s: Net, e: Event, d: nat)
    requires Enabled(s, e) && d < 2 && (e.Take? || e.Push? || e.Wake?)
    ensures Step(s, e).devs[d].poll == s.devs[d].poll && Step(s, e).devs[d].rxq == s.devs[d].rxq
  {
    match e
    case Take(_) =>
    case Push(_) =>
    case Wake(_) =>
  }

  lemma SenderEvents(s: Net, e: Event, d: nat)
    requires Enabled(s, e) && d < 2 && (e.Enqueue? || e.Notify?)
    ensures Step(s, e).devs[d].poll == s.devs[d].poll && |Step(s, e).devs[d].rxq| >= |s.devs[d].rxq|
  {
    match e
    case Enqueue(_) =>
    case Notify(_) =>
  }

  lemma ReceiverEvents(s: Net, e: Event, d: nat)
    requires Enabled(s, e) && d < 2 && (e.Interrupt? || e.Pop? || e.PollEmpty? || e.PollEnable?) && e.d != d
    ensures Step(s, e).devs[d] == s.devs[d]
  {
    match e
    case Interrupt(_) =>
    case Pop(_) =>
    case PollEmpty(_) =>
    case PollEnable(_) =>
  }

  /** Only an event at the receiver itself touches its poll, or takes from its queue. */
  lemma ReceiverActs(s: Net, e: Event, d: nat)
    requires Enabled(s, e) && d < 2 && (Step(s, e).devs[d].poll != s.devs[d].poll || |Step(s, e).devs[d].rxq| < |s.devs[d].rxq|)
    ensures e == Interrupt(d) || e == Pop(d) || e == PollEmpty(d) || e == PollEnable(d)
  {
    match e
    case Look(_) => DecisionMoves(s, e);
    case Check(_) => DecisionMoves(s, e);
    case Take(_) => PoolEvents(s, e, d);
    case Push(_) => PoolEvents(s, e, d);
    case Wake(_) => PoolEvents(s, e, d);
    case Enqueue(_) => SenderEvents(s, e, d);
    case Notify(_) => SenderEvents(s, e, d);
    case Interrupt(c) => if c != d { ReceiverEvents(s, e, d); }
    case Pop(c) => if c != d { ReceiverEvents(s, e, d); }
    case PollEmpty(c) => if c != d { ReceiverEvents(s, e, d); }
    case PollEnable(c) => if c != d { ReceiverEvents(s, e, d); }
  }

  /**
   The way of a poll: scheduled by an interrupt, closing over an empty queue, and off when interrupts come
   on; packets come off only while it runs.
   */
  lemma PollCycle(s: Net, e: Event, d: nat)
    requires Enabled(s, e) && d < 2
    ensures var was, now := s.devs[d], Step(s, e).devs[d];
            && (was.poll != now.poll ==>
                  || (was.poll.Off? && now.poll.Running? && e == Interrupt(d) && s.napi && !now.rxInt)
                  || (was.poll.Running? && now.poll.Closing? && e == PollEmpty(d) && was.rxq == [])
                  || (was.poll.Closing? && now.poll.Off? && e == PollEnable(d) && now.rxInt))
            && (|now.rxq| < |was.rxq| ==> was.rxq[1..] == now.rxq && if s.napi then was.poll.Running? && e == Pop(d) else e == Interrupt(d))
  {
    var was, now := s.devs[d], Step(s, e).devs[d];
    if was.poll != now.poll || |now.rxq| < |was.rxq| {
      ReceiverActs(s, e, d);
    }
  }

  // ---- What `next` says, and how often it is looked at ----

  /** `next` is null exactly for the packet at the bottom of a list. */
  ghost predicate NextOf(q: seq<Pkt>, last: set<Pkt>) {
    forall i :: 0 <= i < |q| ==> (q[i] in last <==> i == |q| - 1)
  }

  ghost predicate NextRight(s: Net) {
    |s.devs| == 2 && forall d :: 0 <= d < 2 ==> NextOf(s.devs[d].pool, s.last) && NextOf(s.devs[d].rxq, s.last)
  }

  lemma NextPushed(q: seq<Pkt>, last: set<Pkt>, p: Pkt)
    requires NextOf(q, last) && p !in q
    ensures NextOf([p] + q, NextNull(last, p, q == []))
  {
  }

  lemma NextPopped(q: seq<Pkt>, last: set<Pkt>)
    requires NextOf(q, last) && q != []
    ensures NextOf(q[1..], last)
  {
  }

  lemma NextElsewhere(q: seq<Pkt>, last: set<Pkt>, p: Pkt, isNull: bool)
    requires NextOf(q, last) && p !in q
    ensures NextOf(q, NextNull(last, p, isNull))
  {
  }

  /** What is in somebody's hands is on no list. */
  lemma HandIsElsewhere(s: Net, p: Pkt)
    requires Conserved(s) && p in s.hands
    ensures forall d :: 0 <= d < 2 ==> p !in s.devs[d].pool && p !in s.devs[d].rxq
  {
    forall d | 0 <= d < 2
      ensures p !in s.devs[d].pool && p !in s.devs[d].rxq
    {
      if p in s.devs[d].pool || p in s.devs[d].rxq {
        NotInHands(s, d, p);
      }
    }
  }

  lemma NextEnqueue(s: Net, p: Pkt)
    requires Conserved(s) && NextRight(s) && Enabled(s, Enqueue(p))
    ensures NextRight(Step(s, Enqueue(p)))
  {
    HandIsElsewhere(s, p);
    var d, t := Peer(s.owner[p]), Step(s, Enqueue(p));
    var isNull := s.devs[d].rxq == [];
    assert t.last == NextNull(s.last, p, isNull) && t.devs[d].rxq == [p] + s.devs[d].rxq;
    NextPushed(s.devs[d].rxq, s.last, p);
    NextElsewhere(s.devs[d].pool, s.last, p, isNull);
    NextElsewhere(s.devs[1 - d].pool, s.last, p, isNull);
    NextElsewhere(s.devs[1 - d].rxq, s.last, p, isNull);
    assert t.devs[d].pool == s.devs[d].pool && t.devs[1 - d] == s.devs[1 - d];
  }

  lemma NextPush(s: Net, p: Pkt)
    requires Conserved(s) && NextRight(s) && Enabled(s, Push(p))
    ensures NextRight(Step(s, Push(p)))
  {
    HandIsElsewhere(s, p);
    var d, t := s.owner[p], Step(s, Push(p));
    var isNull := s.devs[d].pool == [];
    assert t.last == NextNull(s.last, p, isNull) && t.devs[d].pool == [p] + s.devs[d].pool;
    NextPushed(s.devs[d].pool, s.last, p);
    NextElsewhere(s.devs[d].rxq, s.last, p, isNull);
    NextElsewhere(s.devs[1 - d].pool, s.last, p, isNull);
    NextElsewhere(s.devs[1 - d].rxq, s.last, p, isNull);
    assert t.devs[d].rxq == s.devs[d].rxq && t.devs[1 - d] == s.devs[1 - d];
  }

  /** Lists that only lose their heads keep their `next` right. */
  lemma NextHeads(s: Net, t: Net)
    requires NextRight(s) && |t.devs| == 2 && t.last == s.last
    requires forall d :: 0 <= d < 2 ==>
               && (t.devs[d].pool == s.devs[d].pool || (s.devs[d].pool != [] && t.devs[d].pool == s.devs[d].pool[1..]))
               && (t.devs[d].rxq == s.devs[d].rxq || (s.devs[d].rxq != [] && t.devs[d].rxq == s.devs[d].rxq[1..]))
    ensures NextRight(t)
  {
    forall d | 0 <= d < 2
      ensures NextOf(t.devs[d].pool, t.last) && NextOf(t.devs[d].rxq, t.last)
    {
      if s.devs[d].pool != [] {
        NextPopped(s.devs[d].pool, s.last);
      }
      if s.devs[d].rxq != [] {
        NextPopped(s.devs[d].rxq, s.last);
      }
    }
  }

  lemma NextTake(s: Net, d: nat)
    requires NextRight(s) && Enabled(s, Take(d))
    ensures NextRight(Step(s, Take(d)))
  {
    var t := Step(s, Take(d));
    if s.devs[d].pool != [] {
      assert t.devs[d].pool == s.devs[d].pool[1..] && t.devs[d].rxq == s.devs[d].rxq && t.devs[1 - d] == s.devs[1 - d];
    }
    NextHeads(s, t);
  }

  lemma NextQuiet(s: Net, e: Event)
    requires NextRight(s) && Enabled(s, e) && (e.Wake? || e.Notify?)
    ensures NextRight(Step(s, e))
  {
    match e
    case Wake(_) => NextHeads(s, Step(s, e));
    case Notify(_) => NextHeads(s, Step(s, e));
  }

  lemma NextReceive(s: Net, e: Event)
    requires NextRight(s) && Enabled(s, e) && (e.Pop? || e.Interrupt?)
    ensures NextRight(Step(s, e))
  {
    match e
    case Pop(_) => NextHeads(s, Step(s, e));
    case Interrupt(_) => NextHeads(s, Step(s, e));
  }

  lemma NextPoll(s: Net, e: Event)
    requires NextRight(s) && Enabled(s, e) && (e.PollEmpty? || e.PollEnable?)
    ensures NextRight(Step(s, e))
  {
    match e
    case PollEmpty(_) => NextHeads(s, Step(s, e));
    case PollEnable(_) => NextHeads(s, Step(s, e));
  }

  lemma NextStep(s: Net, e: Event)
    requires Conserved(s) && NextRight(s) && Enabled(s, e)
    ensures NextRight(Step(s, e))
  {
    match e
    case Enqueue(p) => NextEnqueue(s, p);
    case Push(p) => NextPush(s, p);
    case Look(_) => DecisionMoves(s, e);
    case Check(_) => DecisionMoves(s, e);
    case Take(d) => NextTake(s, d);
    case Wake(_) => NextQuiet(s, e);
    case Notify(_) => NextQuiet(s, e);
    case Pop(_) => NextReceive(s, e);
    case Interrupt(_) => NextReceive(s, e);
    case PollEmpty(_) => NextPoll(s, e);
    case PollEnable(_) => NextPoll(s, e);
  }

  /** In every run, harmful or not, `next` of a packet on a list is null exactly if the packet is at its bottom. */
  lemma {:induction false} NextStaysRight(s: Net, trace: seq<Event>)
    requires Conserved(s) && NextRight(s) && Runs(s, trace)
    ensures NextRight(Final(s, trace))
    decreases |trace|
  {
    if trace != [] {
      NextStep(s, trace[0]);
      StepConserves(s, trace[0]);
      NextStaysRight(Step(s, trace[0]), trace[1..]);
    }
  }

  function Occurs(trace: seq<Event>, e: Event): nat {
    if trace == [] then 0 else (if trace[0] == e then 1 else 0) + Occurs(trace[1..], e)
  }

  /** So many times a release of a packet of `d` looked at `next`. */
  function ChecksOf(owner: map<Pkt, nat>, trace: seq<Event>, d: nat): nat {
    if trace == [] then 0
    else (if trace[0].Check? && trace[0].p in owner && owner[trace[0].p] == d then 1 else 0) + ChecksOf(owner, trace[1..], d)
  }

  lemma ChecksCount(s: Net, e: Event, p: Pkt)
    requires Enabled(s, e)
    ensures Step(s, e).checks[p] + (if e == Look(p) then 1 else 0) == s.checks[p] + (if e == Push(p) then 1 else 0)
  {
    match e
    case Interrupt(c) => HandledDecisions(s, c);
    case Look(_) =>
    case Check(_) =>
    case Push(_) =>
    case Wake(_) =>
    case _ =>
  }

  lemma SeenCount(s: Net, e: Event, p: Pkt)
    requires Enabled(s, e)
    ensures Step(s, e).seen[p] + (if e == Check(p) then 1 else 0) <= s.seen[p] + (if e == Look(p) then 1 else 0)
  {
    match e
    case Interrupt(c) => HandledDecisions(s, c);
    case Look(_) =>
    case Check(_) =>
    case Push(_) =>
    case Wake(_) =>
    case _ =>
  }

  lemma WakesCount(s: Net, e: Event, d: nat)
    requires Enabled(s, e)
    ensures Step(s, e).wakes[d] + (if e == Wake(d) then 1 else 0)
         <= s.wakes[d] + (if e.Check? && e.p in s.owner && s.owner[e.p] == d then 1 else 0)
  {
    match e
    case Interrupt(c) => HandledDecisions(s, c);
    case Look(_) =>
    case Check(_) =>
    case Push(_) =>
    case Wake(_) =>
    case _ =>
  }

  /**
   In every run each release looks once whether its sender is stopped, looks at `next` at most once for
   that, and wakes at most once for that.
   */
  lemma {:induction false} DecisionsAreSpent(s: Net, trace: seq<Event>, p: Pkt, d: nat)
    requires Runs(s, trace)
    ensures var t := Final(s, trace);
            && t.checks[p] + Occurs(trace, Look(p)) == s.checks[p] + Occurs(trace, Push(p))
            && t.seen[p] + Occurs(trace, Check(p)) <= s.seen[p] + Occurs(trace, Look(p))
            && t.wakes[d] + Occurs(trace, Wake(d)) <= s.wakes[d] + ChecksOf(s.owner, trace, d)
    decreases |trace|
  {
    if trace != [] {
      ChecksCount(s, trace[0], p);
      SeenCount(s, trace[0], p);
      WakesCount(s, trace[0], d);
      DecisionsAreSpent(Step(s, trace[0]), trace[1..], p, d);
    }
  }

  // ---- The order of the receive queue ----

  /** The packet received next is the one queued last: the receive queue is filled and emptied at its head. */
  lemma LatestFirst(s: Net, p: Pkt)
    requires Enabled(s, Enqueue(p)) && s.napi && s.devs[Peer(s.owner[p])].poll.Running?
    ensures var d, t := Peer(s.owner[p]), Step(s, Enqueue(p));
            && Enabled(t, Pop(d))
            && Step(t, Pop(d)).devs[d].rxq == s.devs[d].rxq
            && Step(t, Pop(d)).hands == s.hands[p := Received]
  {
    var d, t := Peer(s.owner[p]), Step(s, Enqueue(p));
    assert t.devs[d].rxq == [p] + s.devs[d].rxq;
    assert Step(t, Pop(d)).hands == (s.hands - {p})[p := Received] == s.hands[p := Received];
  }

  // ---- The two races ----

  lemma {:induction false} Extend(s: Net, trace: seq<Event>, e: Event)
    requires Runs(s, trace) && Enabled(Final(s, trace), e)
    ensures Runs(s, trace + [e]) && Final(s, trace + [e]) == Step(Final(s, trace), e)
    decreases |trace|
  {
    var longer := trace + [e];
    if trace == [] {
      assert longer[1..] == [];
    } else {
      Extend(Step(s, trace[0]), trace[1..], e);
      assert longer[1..] == trace[1..] + [e];
    }
  }

  /** The state between two calls: nothing in anyone's hands. */
  predicate Idle(t: Net) {
    WellFormed(t) && !t.oops && t.hands == map[] && forall p :: p in t.devs[0].pool ==> p in t.owner && t.owner[p] == 0
  }

  /** Device 0 takes a buffer and queues it on device 1. */
  lemma Sends(s: Net, trace: seq<Event>) returns (longer: seq<Event>)
    requires Runs(s, trace) && Idle(Final(s, trace))
    requires var dev := Final(s, trace).devs[0]; !dev.stopped && dev.pool != []
    ensures Runs(s, longer)
    ensures var t, u := Final(s, trace), Final(s, longer);
            var a := t.devs[0].pool[0];
            && Idle(u)
            && u.devs[0] == t.devs[0].(pool := t.devs[0].pool[1..], stopped := |t.devs[0].pool| == 1)
            && u.devs[1] == t.devs[1].(rxq := [a] + t.devs[1].rxq, notices := t.devs[1].notices + 1)
            && u == t.(devs := u.devs, last := NextNull(t.last, a, t.devs[1].rxq == []))
  {
    var t := Final(s, trace);
    var a := t.devs[0].pool[0];
    Extend(s, trace, Take(0));
    longer := trace + [Take(0)];
    Extend(s, longer, Enqueue(a));
    longer := longer + [Enqueue(a)];
    assert Final(s, longer).hands == map[];
  }

  /** Device 1, without polling, receives the only queued packet and puts it back; the wake decision is still due. */
  lemma Receives(s: Net, trace: seq<Event>) returns (longer: seq<Event>)
    requires Runs(s, trace) && Idle(Final(s, trace))
    requires var t := Final(s, trace);
             !t.napi && t.devs[1].notices > 0 && t.devs[1].rxInt && |t.devs[1].rxq| == 1 && t.devs[1].rxq[0] in t.owner && t.owner[t.devs[1].rxq[0]] == 0
    ensures Runs(s, longer)
    ensures var t, u := Final(s, trace), Final(s, longer);
            var a := t.devs[1].rxq[0];
            && Idle(u) && !u.napi && u.owner == t.owner
            && u.devs[0] == t.devs[0].(pool := [a] + t.devs[0].pool)
            && u.devs[1].rxq == []
            && a in u.checks
  {
    var a := Final(s, trace).devs[1].rxq[0];
    Extend(s, trace, Notify(1));
    longer := trace + [Notify(1)];
    Extend(s, longer, Interrupt(1));
    longer := longer + [Interrupt(1)];
    Extend(s, longer, Push(a));
    longer := longer + [Push(a)];
    assert Final(s, longer).hands == map[];
  }

  lemma TwoBuffers(s: Net)
    requires Init(s) && |s.devs[0].pool| == 2
    ensures s.devs[0].pool[0] != s.devs[0].pool[1] && Idle(s)
  {
    var a := s.devs[0].pool[0];
    HeadTimes(s.devs[0].pool, a);
    HeadTimes(s.devs[0].pool[1..], a);
    assert Places(s, a) <= 1;
  }

  /**
   With two buffers and no polling: the packet just returned is taken and queued again, its `next` is
   null once more, the pool runs empty, and only now is the wake decision made.  The sender is woken and
   finds no buffer.
   */
  lemma WakeWithEmptyPool(s: Net) returns (trace: seq<Event>)
    requires Init(s) && !s.napi && |s.devs[0].pool| == 2
    ensures Runs(s, trace) && !NoHarm(s, trace) && Final(s, trace).oops
  {
    trace := EmptiedMeanwhile(s);
    trace := WokenForNothing(s, trace, s.devs[0].pool[0]);
    if NoHarm(s, trace) {
      RunExact(s, trace);
    }
  }

  /** Up to where the pool is empty and the decision on its former bottom has yet to be made. */
  lemma EmptiedMeanwhile(s: Net) returns (trace: seq<Event>)
    requires Init(s) && !s.napi && |s.devs[0].pool| == 2
    ensures Runs(s, trace)
    ensures var t, a := Final(s, trace), s.devs[0].pool[0];
            && WellFormed(t) && !t.oops && a in t.checks && a in t.last && a in t.owner && t.owner[a] == 0
            && t.devs[0].pool == [] && t.devs[0].stopped
  {
    TwoBuffers(s);
    trace := Sends(s, []);
    trace := Receives(s, trace);
    trace := Sends(s, trace);
    Extend(s, trace, Take(0));
    trace := trace + [Take(0)];
  }

  /** The decision, the wake-up, and a sender that finds no buffer. */
  lemma WokenForNothing(s: Net, trace: seq<Event>, a: Pkt) returns (longer: seq<Event>)
    requires Runs(s, trace)
    requires var t := Final(s, trace);
             && WellFormed(t) && !t.oops && a in t.checks && a in t.last && a in t.owner && t.owner[a] == 0
             && t.devs[0].pool == [] && t.devs[0].stopped
    ensures Runs(s, longer) && Final(s, longer).oops
  {
    Extend(s, trace, Look(a));
    longer := trace + [Look(a)];
    Extend(s, longer, Check(a));
    longer := longer + [Check(a)];
    Extend(s, longer, Wake(0));
    longer := longer + [Wake(0)];
    Extend(s, longer, Take(0));
    longer := longer + [Take(0)];
  }

  /** Device 1 is told of the only queued packet, starts to poll, and takes it. */
  lemma PollTakes(s: Net, trace: seq<Event>) returns (longer: seq<Event>)
    requires Runs(s, trace) && Idle(Final(s, trace))
    requires var t := Final(s, trace);
             t.napi && t.devs[1].notices == 1 && t.devs[1].irqs == 0 && t.devs[1].rxInt && t.devs[1].poll.Off? && |t.devs[1].rxq| == 1
    ensures Runs(s, longer)
    ensures var t, u := Final(s, trace), Final(s, longer);
            u == t.(devs := [t.devs[0], t.devs[1].(rxq := [], notices := 0, rxInt := false, poll := Running)],
                    hands := map[t.devs[1].rxq[0] := Received])
  {
    Extend(s, trace, Notify(1));
    longer := trace + [Notify(1)];
    Extend(s, longer, Interrupt(1));
    longer := longer + [Interrupt(1)];
    Extend(s, longer, Pop(1));
    longer := longer + [Pop(1)];
    var t, u := Final(s, trace), Final(s, longer);
    assert t.devs[1].rxq[1..] == [] && u.devs == [u.devs[0], u.devs[1]];
    assert u.hands == map[t.devs[1].rxq[0] := Received];
  }

  /** It puts the packet back, and sees its queue empty. */
  lemma Polls(s: Net, trace: seq<Event>) returns (longer: seq<Event>)
    requires Runs(s, trace) && Idle(Final(s, trace))
    requires var t := Final(s, trace);
             && t.napi && t.devs[1].notices == 1 && t.devs[1].irqs == 0 && t.devs[1].rxInt && t.devs[1].poll.Off?
             && |t.devs[1].rxq| == 1 && t.devs[1].rxq[0] in t.owner && t.owner[t.devs[1].rxq[0]] == 0
    ensures Runs(s, longer)
    ensures var t, u := Final(s, trace), Final(s, longer);
            && Idle(u) && u.napi && u.owner == t.owner
            && u.devs[0] == t.devs[0].(pool := [t.devs[1].rxq[0]] + t.devs[0].pool)
            && u.devs[1].rxq == [] && u.devs[1].notices == u.devs[1].irqs == 0 && u.devs[1].poll.Closing? && !u.devs[1].rxInt
  {
    var a := Final(s, trace).devs[1].rxq[0];
    longer := PollTakes(s, trace);
    Extend(s, longer, Push(a));
    longer := longer + [Push(a)];
    assert Final(s, longer).hands == map[];
    Extend(s, longer, PollEmpty(1));
    longer := longer + [PollEmpty(1)];
  }

  /** With polling: a packet queued between the empty check and the enabling stays behind, unannounced. */
  lemma StrandedPacket(s: Net) returns (trace: seq<Event>)
    requires Init(s) && s.napi && |s.devs[0].pool| == 2
    ensures Runs(s, trace) && !NoHarm(s, trace)
    ensures var t := Final(s, trace);
            |t.devs| == 2 && t.devs[1].rxq != [] && t.devs[1].poll.Off? && t.devs[1].notices == t.devs[1].irqs == 0
  {
    TwoBuffers(s);
    trace := Sends(s, []);
    trace := Polls(s, trace);
    trace := Sends(s, trace);
    Extend(s, trace, Notify(1));
    trace := trace + [Notify(1)];
    Extend(s, trace, PollEnable(1));
    trace := trace + [PollEnable(1)];
    if NoHarm(s, trace) {
      RunExact(s, trace);
    }
  }
}
