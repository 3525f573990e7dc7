/**
 Any number of processes reading, writing and opening one pipe device (scull/pipe.c), interleaved step
 by step: the semaphore, the two wait queues, the re-check made without the semaphore before sleeping,
 and the wake-up sent after the semaphore is released.
 */
module PipeProtocol {
  import opened Bytes
  import opened Ring

  /**
   Where a process stands.  `woken` says whether a wake-up has reached it since it joined its queue.
   RTest, RWrap, RUp and WTest, WWrap, WUp hold the semaphore.
   */
  datatype Pc =
    | Idle
    | RDown(count: nat, nonblock: bool)                // about to take the semaphore
    | RTest(count: nat, nonblock: bool)                // line 111
    | RLook(count: nat, nonblock: bool)                // semaphore released, first look at the condition of line 116
    | RJoin(count: nat, nonblock: bool)                // about to join inq; wake-ups do not reach it yet, or no more
    | RCheck(count: nat, nonblock: bool, woken: bool)  // on inq, about to look again
    | RSleep(count: nat, nonblock: bool, woken: bool)
    | RWrap                                            // rp advanced, about to wrap it
    | RUp                                              // about to release the semaphore
    | RWake                                            // about to wake outq
    | WDown(data: seq<Byte>)
    | WTest(data: seq<Byte>)                           // line 155
    | WJoin(data: seq<Byte>)                           // semaphore released, about to join outq
    | WCheck(data: seq<Byte>, woken: bool)             // on outq, about to re-check at line 164
    | WSleep(data: seq<Byte>, woken: bool)
    | WWrap
    | WUp
    | WWake

  /**
   The device, its processes, and the bytes taken in and handed out so far, in lock order.  `ring.buf` is
   the memory from `buffer` to `end`; the device owns the first `alloc` bytes from `buffer` on, which an
   open with another size makes fewer or more than that.
   */
  datatype State = State(
    rule: ChunkRule,
    ring: Ring,
    alloc: nat,
    sem: nat,
    procs: seq<Pc>,
    accepted: seq<Byte>,
    returned: seq<Byte>
  )

  /**
   What a process may do.  `Go` is its next program step; `beyond` is the memory behind the buffer and
   `fault` the outcome of a user copy, both used only by the copying steps.  `Open` is a whole
   `scull_p_open` of a device that is already in use; `memory` is as long as `scull_p_buffer` says at that
   time, and holds whatever stands from `buffer` on.
   */
  datatype Event =
    | Read(count: nat, nonblock: bool)
    | Write(data: seq<Byte>)
    | Open(memory: seq<Byte>)
    | Go(beyond: seq<Byte>, fault: bool)
    | Signal
    | Spurious

  predicate Holds(pc: Pc) {
    pc.RTest? || pc.RWrap? || pc.RUp? || pc.WTest? || pc.WWrap? || pc.WUp?
  }

  /** A reader that has taken bytes out and has not yet woken the writers. */
  predicate ReaderOwesWake(pc: Pc) {
    pc.RWrap? || pc.RUp? || pc.RWake?
  }

  predicate WriterOwesWake(pc: Pc) {
    pc.WWrap? || pc.WUp? || pc.WWake?
  }

  /** Outside this the C program has lost its buffer and no step is defined. */
  predicate Sane(s: State) {
    && |s.ring.buf| > 0
    && s.ring.rp <= |s.ring.buf|
    && s.ring.wp <= |s.ring.buf|
  }

  predicate Enabled(s: State, p: nat, e: Event) {
    && Sane(s)
    && p < |s.procs|
    && var pc := s.procs[p];
       match e
       case Read(_, _) => pc.Idle?
       case Write(_) => pc.Idle?
       case Open(memory) => pc.Idle? && s.sem > 0 && memory != []
       case Signal => pc.RDown? || pc.RCheck? || pc.RSleep? || pc.WDown? || pc.WCheck? || pc.WSleep?
       case Spurious => pc.RSleep? || pc.WSleep?
       case Go(beyond, _) =>
         match pc
         case Idle => false
         case RDown(_, _) => s.sem > 0
         case WDown(_) => s.sem > 0
         case RTest(_, _) => Valid(s.ring) && |beyond| >= |s.ring.buf|
         case WTest(_) => Valid(s.ring)
         case RSleep(_, _, woken) => woken
         case WSleep(_, woken) => woken
         case _ => true
  }

  /** `wake_up_interruptible(&dev->inq)`: every waiter is non-exclusive, so all of them are woken. */
  function WakeReader(pc: Pc): Pc {
    match pc
    case RCheck(c, b, _) => RCheck(c, b, true)
    case RSleep(c, b, _) => RSleep(c, b, true)
    case _ => pc
  }

  function WakeWriter(pc: Pc): Pc {
    match pc
    case WCheck(d, _) => WCheck(d, true)
    case WSleep(d, _) => WSleep(d, true)
    case _ => pc
  }

  function At(s: State, p: nat, pc: Pc): State
    requires p < |s.procs|
  {
    s.(procs := s.procs[p := pc])
  }

  /** Lines 111-134 under the semaphore: wait if the ring is empty, otherwise copy out and advance `rp`. */
  function ReadLocked(s: State, p: nat, beyond: seq<Byte>, fault: bool): State
    requires Sane(s) && p < |s.procs| && s.procs[p].RTest? && Valid(s.ring) && |beyond| >= |s.ring.buf|
  {
    var RTest(count, nonblock) := s.procs[p];
    var k := ReadChunk(s.rule, s.ring, count);
    if s.ring.rp == s.ring.wp then
      At(s.(sem := s.sem + 1), p, if nonblock then Idle else RLook(count, nonblock))
    else if fault then
      At(s.(sem := s.sem + 1), p, Idle)
    else
      At(s.(ring := AdvanceRead(s.ring, k), returned := s.returned + (s.ring.buf + beyond)[s.ring.rp..s.ring.rp + k]), p, RWrap)
  }

  /** Lines 155-207 under the semaphore: wait if the ring is full, otherwise copy in and advance `wp`. */
  function WriteLocked(s: State, p: nat, fault: bool): State
    requires Sane(s) && p < |s.procs| && s.procs[p].WTest? && Valid(s.ring)
  {
    var data := s.procs[p].data;
    if SpaceFree(s.ring) == 0 then
      At(s.(sem := s.sem + 1), p, WJoin(data))
    else if fault then
      At(s.(sem := s.sem + 1), p, Idle)
    else
      var put := data[..WriteChunk(s.ring, |data|)];
      At(s.(ring := AdvanceWrite(s.ring, put), accepted := s.accepted + put), p, WWrap)
  }

  function Step(s: State, p: nat, e: Event): State
    requires Enabled(s, p, e)
  {
    match e
    case Read(count, nonblock) => At(s, p, RDown(count, nonblock))
    case Write(data) => At(s, p, WDown(data))
    case Open(memory) => s.(ring := Ring(memory, 0, 0))
    case Signal => At(s, p, Idle)
    case Spurious => At(s, p, Resumed(s.procs[p]))
    case Go(beyond, fault) => Program(s, p, beyond, fault)
  }

  /** A reader goes round the loop of `wait_event` and joins the queue anew; a writer goes on to take the semaphore. */
  function Resumed(pc: Pc): Pc
    requires pc.RSleep? || pc.WSleep?
  {
    match pc
    case RSleep(c, b, _) => RJoin(c, b)
    case WSleep(d, _) => WDown(d)
  }

  function Program(s: State, p: nat, beyond: seq<Byte>, fault: bool): State
    requires Enabled(s, p, Go(beyond, fault))
  {
    match s.procs[p]
    case RDown(c, b) => At(s.(sem := s.sem - 1), p, RTest(c, b))
    case RTest(_, _) => ReadLocked(s, p, beyond, fault)
    case RLook(c, b) => At(s, p, if s.ring.rp != s.ring.wp then RDown(c, b) else RJoin(c, b))
    case RJoin(c, b) => At(s, p, RCheck(c, b, false))
    case RCheck(c, b, w) => At(s, p, if s.ring.rp != s.ring.wp then RDown(c, b) else RSleep(c, b, w))
    case RSleep(_, _, _) => At(s, p, Resumed(s.procs[p]))
    case RWrap => At(s.(ring := WrapRead(s.ring)), p, RUp)
    case RUp => At(s.(sem := s.sem + 1), p, RWake)
    case RWake => At(s.(procs := seq(|s.procs|, i requires 0 <= i < |s.procs| => WakeWriter(s.procs[i]))), p, Idle)
    case WDown(d) => At(s.(sem := s.sem - 1), p, WTest(d))
    case WTest(_) => WriteLocked(s, p, fault)
    case WJoin(d) => At(s, p, WCheck(d, false))
    case WCheck(d, w) => At(s, p, if SpaceFree(s.ring) == 0 then WSleep(d, w) else WDown(d))
    case WSleep(_, _) => At(s, p, Resumed(s.procs[p]))
    case WWrap => At(s.(ring := WrapWrite(s.ring)), p, WUp)
    case WUp => At(s.(sem := s.sem + 1), p, WWake)
    case WWake => At(s.(procs := seq(|s.procs|, i requires 0 <= i < |s.procs| => WakeReader(s.procs[i]))), p, Idle)
  }

  /** A freshly opened device: empty ring, free semaphore, nobody under way. */
  ghost predicate Init(s: State) {
    && s.alloc == |s.ring.buf| > 0
    && s.ring.rp == s.ring.wp == 0
    && s.sem == 1
    && (forall i :: 0 <= i < |s.procs| ==> s.procs[i].Idle?)
    && s.accepted == s.returned == []
  }

  // ---- What every state of a run keeps ----

  /** Bytes come out in the order they went in; none is lost, repeated or altered. */
  ghost predicate Fifo(s: State) {
    Sane(s) && InRange(s.ring) && s.accepted == s.returned + Contents(s.ring)
  }

  /** At most one process is inside, the semaphore is 1 exactly when none is, and only it can see a pointer at `end`. */
  ghost predicate Mutex(s: State) {
    && s.sem <= 1
    && (s.sem == 1 <==> forall i :: 0 <= i < |s.procs| ==> !Holds(s.procs[i]))
    && (forall i, j :: 0 <= i < |s.procs| && 0 <= j < |s.procs| && Holds(s.procs[i]) && Holds(s.procs[j]) ==> i == j)
    && (s.ring.rp == |s.ring.buf| ==> exists i :: 0 <= i < |s.procs| && s.procs[i].RWrap?)
    && (s.ring.wp == |s.ring.buf| ==> exists i :: 0 <= i < |s.procs| && s.procs[i].WWrap?)
  }

  /** A reader asleep with no wake-up on it: the ring is empty, or some writer still owes a wake-up. */
  ghost predicate ReadersServed(s: State) {
    Sane(s) &&
    forall i :: 0 <= i < |s.procs| && s.procs[i].RSleep? && !s.procs[i].woken ==>
      Contents(s.ring) == [] || exists j :: 0 <= j < |s.procs| && WriterOwesWake(s.procs[j])
  }

  /** A writer asleep with no wake-up on it: the ring is full, or some reader still owes a wake-up. */
  ghost predicate WritersServed(s: State) {
    Sane(s) &&
    forall i :: 0 <= i < |s.procs| && s.procs[i].WSleep? && !s.procs[i].woken ==>
      |Contents(s.ring)| == |s.ring.buf| - 1 || exists j :: 0 <= j < |s.procs| && ReaderOwesWake(s.procs[j])
  }

  /** No copy has left the memory of the device. */
  predicate Inside(s: State) {
    s.ring.rp <= s.alloc && s.ring.wp <= s.alloc && (s.ring.wp < s.ring.rp ==> |s.ring.buf| <= s.alloc)
  }

  ghost predicate Inv(s: State) {
    Fifo(s) && Inside(s) && Mutex(s) && ReadersServed(s) && WritersServed(s)
  }

  /** A wrapped read by the rule of line 126 that asks for more than lies before `end`, or an open (line 69) over unread bytes. */
  predicate LosesBytes(s: State, p: nat, e: Event)
    requires Enabled(s, p, e)
  {
    match e
    case Open(_) => s.ring.rp != s.ring.wp
    case Go(_, fault) => s.procs[p].RTest? && s.ring.rp != s.ring.wp && !fault && Overruns(s.rule, s.ring, s.procs[p].count)
    case _ => false
  }

  /** A write whose copy crosses the end of the allocation, which an open with a larger size (lines 67-68) makes possible. */
  predicate LeavesMemory(s: State, p: nat, e: Event)
    requires Enabled(s, p, e)
  {
    && e.Go? && !e.fault && s.procs[p].WTest? && SpaceFree(s.ring) != 0
    && s.ring.wp + WriteChunk(s.ring, |s.procs[p].data|) > s.alloc
  }

  /** An open that makes room, since only the reserved slot was there, for writers that sleep and that nobody is about to wake. */
  predicate StrandsWriter(s: State, p: nat, e: Event)
    requires Enabled(s, p, e)
  {
    && e.Open? && |e.memory| > 1
    && (exists i :: 0 <= i < |s.procs| && s.procs[i].WSleep? && !s.procs[i].woken)
    && (forall i :: 0 <= i < |s.procs| ==> !ReaderOwesWake(s.procs[i]))
  }

  /** The steps that break the promises of the device. */
  predicate Harmful(s: State, p: nat, e: Event)
    requires Enabled(s, p, e)
  {
    LosesBytes(s, p, e) || LeavesMemory(s, p, e) || StrandsWriter(s, p, e)
  }

  lemma InitInv(s: State)
    requires Init(s)
    ensures Inv(s)
  {
  }

  // ---- FIFO ----

  /** Moving the oldest bytes from the ring to the reader, or new bytes behind the unread ones, keeps the account. */
  lemma AccountMoves(accepted: seq<Byte>, returned: seq<Byte>, inside: seq<Byte>, moved: seq<Byte>, rest: seq<Byte>)
    requires accepted == returned + inside
    ensures inside == moved + rest ==> accepted == (returned + moved) + rest
    ensures rest == inside + moved ==> accepted + moved == returned + rest
  {
  }

  lemma TakeFifo(s: State, k: nat, beyond: seq<Byte>)
    requires Fifo(s) && Valid(s.ring) && s.ring.rp + k <= |s.ring.buf| && (s.ring.rp <= s.ring.wp ==> s.ring.rp + k <= s.ring.wp)
    ensures Fifo(s.(ring := AdvanceRead(s.ring, k), returned := s.returned + (s.ring.buf + beyond)[s.ring.rp..s.ring.rp + k]))
  {
    var r := s.ring;
    TakeTakesOldest(r, k);
    assert (r.buf + beyond)[r.rp..r.rp + k] == r.buf[r.rp..r.rp + k];
    AccountMoves(s.accepted, s.returned, Contents(r), r.buf[r.rp..r.rp + k], Contents(AdvanceRead(r, k)));
  }

  /** The account does not look at the processes. */
  lemma SameAccount(s: State, t: State)
    requires t.ring == s.ring && t.accepted == s.accepted && t.returned == s.returned
    ensures Fifo(t) <==> Fifo(s)
  {
  }

  lemma ReadLockedFifo(s: State, p: nat, beyond: seq<Byte>, fault: bool)
    requires Fifo(s) && Enabled(s, p, Go(beyond, fault)) && s.procs[p].RTest?
    ensures Fifo(ReadLocked(s, p, beyond, fault)) <==> !LosesBytes(s, p, Go(beyond, fault))
  {
    var t := ReadLocked(s, p, beyond, fault);
    if s.ring.rp == s.ring.wp || fault {
      SameAccount(s, t);
    } else {
      var count := s.procs[p].count;
      var k := ReadChunk(s.rule, s.ring, count);
      ReadChunkFits(s.rule, s.ring, count);
      assert t.ring == AdvanceRead(s.ring, k);
      if !Overruns(s.rule, s.ring, count) {
        TakeFifo(s, k, beyond);
        SameAccount(s.(ring := AdvanceRead(s.ring, k), returned := s.returned + (s.ring.buf + beyond)[s.ring.rp..s.ring.rp + k]), t);
      }
    }
  }

  lemma WriteLockedFifo(s: State, p: nat, fault: bool)
    requires Fifo(s) && Valid(s.ring) && p < |s.procs| && s.procs[p].WTest?
    ensures Fifo(WriteLocked(s, p, fault))
  {
    var data := s.procs[p].data;
    SpaceAddsUp(s.ring);
    if SpaceFree(s.ring) != 0 && !fault {
      WriteAppends(s.ring, data);
      var put := data[..WriteChunk(s.ring, |data|)];
      AccountMoves(s.accepted, s.returned, Contents(s.ring), put, Contents(AdvanceWrite(s.ring, put)));
    }
  }

  /** While the semaphore is free, and for a process testing under it, both pointers are inside the buffer. */
  lemma PointersRest(s: State)
    requires Sane(s) && Mutex(s)
    requires s.sem > 0 || exists i :: 0 <= i < |s.procs| && (s.procs[i].RTest? || s.procs[i].WTest?)
    ensures Valid(s.ring)
  {
  }

  lemma WrapKeepsContents(r: Ring)
    requires InRange(r)
    ensures r.wp < |r.buf| ==> InRange(WrapRead(r)) && Contents(WrapRead(r)) == Contents(r)
    ensures r.rp < |r.buf| ==> InRange(WrapWrite(r)) && Contents(WrapWrite(r)) == Contents(r)
  {
    if r.rp == |r.buf| && r.wp < r.rp {
      assert r.buf[r.rp..] + r.buf[..r.wp] == r.buf[0..r.wp];
    }
    if r.wp == |r.buf| && r.rp < r.wp {
      assert r.buf[r.rp..] + r.buf[..0] == r.buf[r.rp..r.wp];
    }
  }

  lemma WrapFifo(s: State, p: nat, e: Event)
    requires Inv(s) && Enabled(s, p, e) && e.Go? && (s.procs[p].RWrap? || s.procs[p].WWrap?)
    ensures Fifo(Step(s, p, e))
  {
    WrapKeepsContents(s.ring);
    assert Holds(s.procs[p]);
  }

  lemma FifoStep(s: State, p: nat, e: Event)
    requires Inv(s) && Enabled(s, p, e)
    ensures Fifo(Step(s, p, e)) <==> !LosesBytes(s, p, e)
  {
    if e.Open? {
      PointersRest(s);
      SpaceAddsUp(s.ring);
    } else if e.Go? {
      match s.procs[p]
      case RTest(_, _) => ReadLockedFifo(s, p, e.beyond, e.fault);
      case WTest(_) => WriteLockedFifo(s, p, e.fault);
      case RWrap => WrapFifo(s, p, e);
      case WWrap => WrapFifo(s, p, e);
      case _ =>
    }
  }

  // ---- Memory ----

  /** Copies stay in the memory of the device, except the write that first crosses its end. */
  lemma InsideStep(s: State, p: nat, e: Event)
    requires Inv(s) && Enabled(s, p, e) && !LosesBytes(s, p, e)
    ensures Inside(Step(s, p, e)) <==> !LeavesMemory(s, p, e)
  {
    if e.Go? && s.procs[p].RTest? && s.ring.rp != s.ring.wp {
      ReadChunkFits(s.rule, s.ring, s.procs[p].count);
    } else if e.Go? && s.procs[p].WTest? && SpaceFree(s.ring) != 0 {
      SpaceAddsUp(s.ring);
      WriteChunkFits(s.ring, |s.procs[p].data|);
    }
  }

  // ---- Mutual exclusion and wake-ups ----

  /** What a harmless step by `p` does to the processes, the semaphore and the pointers, leaving the bytes aside. */
  ghost predicate Shape(s: State, t: State, p: nat) {
    && |t.procs| == |s.procs|
    && p < |s.procs|
    && |t.ring.buf| == |s.ring.buf|
    && (forall i :: 0 <= i < |s.procs| && i != p ==>
          t.procs[i] == (if s.procs[p].WWake? && t.procs[p].Idle? then WakeReader(s.procs[i])
                         else if s.procs[p].RWake? && t.procs[p].Idle? then WakeWriter(s.procs[i])
                         else s.procs[i]))
    && t.sem == s.sem + (if Holds(s.procs[p]) then 1 else 0) - (if Holds(t.procs[p]) then 1 else 0)
    && (t.ring.rp == |t.ring.buf| ==> t.procs[p].RWrap? || (s.ring.rp == |s.ring.buf| && !s.procs[p].RWrap?))
    && (t.ring.wp == |t.ring.buf| ==> t.procs[p].WWrap? || (s.ring.wp == |s.ring.buf| && !s.procs[p].WWrap?))
    && (WriterOwesWake(s.procs[p]) ==> WriterOwesWake(t.procs[p]) || (s.procs[p].WWake? && t.procs[p].Idle?))
    && (ReaderOwesWake(s.procs[p]) ==> ReaderOwesWake(t.procs[p]) || (s.procs[p].RWake? && t.procs[p].Idle?))
    && (|t.accepted| > |s.accepted| ==> WriterOwesWake(t.procs[p]))
    && (|t.returned| > |s.returned| ==> ReaderOwesWake(t.procs[p]))
    && |t.accepted| >= |s.accepted| && |t.returned| >= |s.returned|
    && (t.procs[p].RSleep? ==> |t.accepted| == |t.returned|)
    && (t.procs[p].WSleep? ==> |t.accepted| - |t.returned| == |t.ring.buf| - 1)
  }

  lemma ReadLockedShape(s: State, p: nat, beyond: seq<Byte>, fault: bool)
    requires Fifo(s) && Enabled(s, p, Go(beyond, fault)) && s.procs[p].RTest?
    requires Fifo(ReadLocked(s, p, beyond, fault))
    ensures Shape(s, ReadLocked(s, p, beyond, fault), p)
  {
  }

  lemma WriteLockedShape(s: State, p: nat, fault: bool)
    requires Fifo(s) && Valid(s.ring) && p < |s.procs| && s.procs[p].WTest?
    ensures Shape(s, WriteLocked(s, p, fault), p)
  {
  }

  /** A process that moves on without touching the ring or the other processes. */
  lemma MoveShape(s: State, p: nat, sem: nat, pc: Pc)
    requires Sane(s) && p < |s.procs| && !pc.RSleep? && !pc.WSleep? && !s.procs[p].RWake? && !s.procs[p].WWake?
    requires WriterOwesWake(s.procs[p]) ==> WriterOwesWake(pc)
    requires ReaderOwesWake(s.procs[p]) ==> ReaderOwesWake(pc)
    requires !s.procs[p].RWrap? && !s.procs[p].WWrap?
    requires sem == s.sem + (if Holds(s.procs[p]) then 1 else 0) - (if Holds(pc) then 1 else 0)
    ensures Shape(s, At(s.(sem := sem), p, pc), p)
  {
  }

  /** Going to sleep, on an account that gives reason to. */
  lemma SleepShape(s: State, p: nat, pc: Pc)
    requires Sane(s) && p < |s.procs|
    requires if s.procs[p].RCheck? then pc.RSleep? && |s.accepted| == |s.returned|
             else s.procs[p].WCheck? && pc.WSleep? && |s.accepted| - |s.returned| == |s.ring.buf| - 1
    ensures Shape(s, At(s, p, pc), p)
  {
  }

  lemma CheckShape(s: State, p: nat, e: Event)
    requires Fifo(s) && Enabled(s, p, e) && e.Go? && (s.procs[p].RCheck? || s.procs[p].WCheck?)
    ensures Shape(s, Step(s, p, e), p)
  {
    FifoCounts(s);
    var pc := Step(s, p, e).procs[p];
    assert Step(s, p, e) == At(s.(sem := s.sem), p, pc) == At(s, p, pc);
    if pc.RSleep? {
      SleepShape(s, p, pc);
    } else if pc.WSleep? {
      UnlockedFullIsFull(s.ring);
      SleepShape(s, p, pc);
    } else {
      MoveShape(s, p, s.sem, pc);
    }
  }

  predicate MovesOn(pc: Pc) {
    || pc.RDown? || pc.RLook? || pc.RJoin? || pc.RSleep? || pc.RUp?
    || pc.WDown? || pc.WJoin? || pc.WSleep? || pc.WUp?
  }

  lemma CallShape(s: State, p: nat, e: Event)
    requires Fifo(s) && Enabled(s, p, e) && !e.Open?
    requires e.Go? ==> MovesOn(s.procs[p])
    ensures Shape(s, Step(s, p, e), p)
  {
    var t := Step(s, p, e);
    MoveShape(s, p, t.sem, t.procs[p]);
    assert t == At(s.(sem := t.sem), p, t.procs[p]);
  }

  lemma WrapShape(s: State, p: nat, e: Event)
    requires Fifo(s) && Enabled(s, p, e) && e.Go? && (s.procs[p].RWrap? || s.procs[p].WWrap?)
    ensures Shape(s, Step(s, p, e), p)
  {
  }

  lemma WakeShape(s: State, p: nat, e: Event)
    requires Fifo(s) && Enabled(s, p, e) && e.Go? && (s.procs[p].RWake? || s.procs[p].WWake?)
    ensures Shape(s, Step(s, p, e), p)
  {
  }

  lemma StepShape(s: State, p: nat, e: Event)
    requires Fifo(s) && Enabled(s, p, e) && !e.Open? && Fifo(Step(s, p, e))
    ensures Shape(s, Step(s, p, e), p)
  {
    if e.Go? {
      match s.procs[p]
      case RTest(_, _) => ReadLockedShape(s, p, e.beyond, e.fault);
      case WTest(_) => WriteLockedShape(s, p, e.fault);
      case RCheck(_, _, _) => CheckShape(s, p, e);
      case WCheck(_, _) => CheckShape(s, p, e);
      case RWrap => WrapShape(s, p, e);
      case WWrap => WrapShape(s, p, e);
      case RWake => WakeShape(s, p, e);
      case WWake => WakeShape(s, p, e);
      case _ => CallShape(s, p, e);
    } else {
      CallShape(s, p, e);
    }
  }

  lemma MutexShape(s: State, t: State, p: nat)
    requires Shape(s, t, p) && Mutex(s) && (Holds(t.procs[p]) && !Holds(s.procs[p]) ==> s.sem > 0)
    ensures Mutex(t)
  {
    assert forall i :: 0 <= i < |s.procs| && i != p ==> Holds(t.procs[i]) == Holds(s.procs[i]);
    if t.sem == 0 && !Holds(t.procs[p]) {
      var i :| 0 <= i < |s.procs| && Holds(s.procs[i]);
      assert Holds(t.procs[i]);
    }
    if t.ring.rp == |t.ring.buf| && !t.procs[p].RWrap? {
      var i :| 0 <= i < |s.procs| && s.procs[i].RWrap?;
      assert t.procs[i].RWrap?;
    }
    if t.ring.wp == |t.ring.buf| && !t.procs[p].WWrap? {
      var i :| 0 <= i < |s.procs| && s.procs[i].WWrap?;
      assert t.procs[i].WWrap?;
    }
  }

  lemma FifoCounts(s: State)
    requires Fifo(s)
    ensures |s.accepted| - |s.returned| == |Contents(s.ring)|
  {
  }

  ghost predicate SomeWriterOwes(s: State) {
    exists j :: 0 <= j < |s.procs| && WriterOwesWake(s.procs[j])
  }

  ghost predicate SomeReaderOwes(s: State) {
    exists j :: 0 <= j < |s.procs| && ReaderOwesWake(s.procs[j])
  }

  lemma ReaderStaysServed(s: State, t: State, p: nat, i: nat)
    requires Shape(s, t, p) && i < |t.procs| && t.procs[i].RSleep? && !t.procs[i].woken
    requires s.procs[i].RSleep? && !s.procs[i].woken ==> |s.accepted| == |s.returned| || SomeWriterOwes(s)
    requires |t.accepted| >= |t.returned|
    ensures |t.accepted| == |t.returned| || SomeWriterOwes(t)
  {
    if |t.accepted| > |s.accepted| {
      assert WriterOwesWake(t.procs[p]);
    } else if i != p && SomeWriterOwes(s) {
      var j :| 0 <= j < |s.procs| && WriterOwesWake(s.procs[j]);
      assert WriterOwesWake(t.procs[j]);
    }
  }

  lemma ReadersServedShape(s: State, t: State, p: nat)
    requires Shape(s, t, p) && Fifo(s) && Fifo(t) && ReadersServed(s)
    ensures ReadersServed(t)
  {
    FifoCounts(s);
    FifoCounts(t);
    forall i | 0 <= i < |t.procs| && t.procs[i].RSleep? && !t.procs[i].woken
      ensures Contents(t.ring) == [] || exists j :: 0 <= j < |t.procs| && WriterOwesWake(t.procs[j])
    {
      ReaderStaysServed(s, t, p, i);
    }
  }

  lemma WriterStaysServed(s: State, t: State, p: nat, i: nat)
    requires Shape(s, t, p) && i < |t.procs| && t.procs[i].WSleep? && !t.procs[i].woken
    requires s.procs[i].WSleep? && !s.procs[i].woken ==> |s.accepted| - |s.returned| == |s.ring.buf| - 1 || SomeReaderOwes(s)
    requires |t.accepted| - |t.returned| < |t.ring.buf|
    ensures |t.accepted| - |t.returned| == |t.ring.buf| - 1 || SomeReaderOwes(t)
  {
    if |t.returned| > |s.returned| {
      assert ReaderOwesWake(t.procs[p]);
    } else if i != p && SomeReaderOwes(s) {
      var j :| 0 <= j < |s.procs| && ReaderOwesWake(s.procs[j]);
      assert ReaderOwesWake(t.procs[j]);
    }
  }

  lemma WritersServedShape(s: State, t: State, p: nat)
    requires Shape(s, t, p) && Fifo(s) && Fifo(t) && WritersServed(s)
    ensures WritersServed(t)
  {
    FifoCounts(s);
    FifoCounts(t);
    forall i | 0 <= i < |t.procs| && t.procs[i].WSleep? && !t.procs[i].woken
      ensures |Contents(t.ring)| == |t.ring.buf| - 1 || exists j :: 0 <= j < |t.procs| && ReaderOwesWake(t.procs[j])
    {
      WriterStaysServed(s, t, p, i);
    }
  }

  /** An open over an empty ring, with whatever size, does no harm but to writers stranded in a buffer of one byte. */
  lemma OpenExact(s: State, p: nat, e: Event)
    requires Inv(s) && Enabled(s, p, e) && e.Open? && s.ring.rp == s.ring.wp
    ensures Mutex(Step(s, p, e)) && ReadersServed(Step(s, p, e))
    ensures WritersServed(Step(s, p, e)) <==> !StrandsWriter(s, p, e)
    ensures StrandsWriter(s, p, e) ==> |s.ring.buf| == 1
  {
  }

  /** One step keeps every promise exactly when it is not one of the harmful ones. */
  lemma StepExact(s: State, p: nat, e: Event)
    requires Inv(s) && Enabled(s, p, e)
    ensures Inv(Step(s, p, e)) <==> !Harmful(s, p, e)
  {
    FifoStep(s, p, e);
    if !LosesBytes(s, p, e) {
      InsideStep(s, p, e);
      if e.Open? {
        OpenExact(s, p, e);
      } else {
        var t := Step(s, p, e);
        StepShape(s, p, e);
        MutexShape(s, t, p);
        ReadersServedShape(s, t, p);
        WritersServedShape(s, t, p);
      }
    }
  }

  // ---- Whole runs ----

  /** Process and event of each step. */
  type Trace = seq<(nat, Event)>

  predicate Runs(s: State, trace: Trace)
    decreases |trace|
  {
    trace == [] || (Enabled(s, trace[0].0, trace[0].1) && Runs(Step(s, trace[0].0, trace[0].1), trace[1..]))
  }

  function Final(s: State, trace: Trace): (t: State)
    requires Runs(s, trace)
    ensures |t.procs| == |s.procs|
    decreases |trace|
  {
    if trace == [] then s else Final(Step(s, trace[0].0, trace[0].1), trace[1..])
  }

  predicate NoHarm(s: State, trace: Trace)
    requires Runs(s, trace)
    decreases |trace|
  {
    trace == [] || (!Harmful(s, trace[0].0, trace[0].1) && NoHarm(Step(s, trace[0].0, trace[0].1), trace[1..]))
  }

  /** Every state of the run keeps every promise. */
  ghost predicate AlwaysInv(s: State, trace: Trace)
    requires Runs(s, trace)
    decreases |trace|
  {
    Inv(s) && (trace == [] || AlwaysInv(Step(s, trace[0].0, trace[0].1), trace[1..]))
  }

  lemma {:induction false} RunExactFrom(s: State, trace: Trace)
    requires Inv(s) && Runs(s, trace)
    ensures AlwaysInv(s, trace) <==> NoHarm(s, trace)
    ensures NoHarm(s, trace) ==> Inv(Final(s, trace))
    decreases |trace|
  {
    if trace != [] {
      var t := Step(s, trace[0].0, trace[0].1);
      StepExact(s, trace[0].0, trace[0].1);
      if Inv(t) {
        RunExactFrom(t, trace[1..]);
      }
    }
  }

  /**
   For every interleaving of any number of processes: FIFO order, copies inside the device's memory,
   mutual exclusion and no lost wake-up hold in every state exactly when no step was a harmful one.
   */
  lemma RunExact(s: State, trace: Trace)
    requires Init(s) && Runs(s, trace)
    ensures AlwaysInv(s, trace) <==> NoHarm(s, trace)
    ensures NoHarm(s, trace) ==> Inv(Final(s, trace))
  {
    InitInv(s);
    RunExactFrom(s, trace);
  }

  /** With the intended read rule and no second open, no step is harmful, whatever the schedule. */
  lemma {:induction false} IntendedRunsAreHarmless(s: State, trace: Trace)
    requires s.rule.AsIntended? && |s.ring.buf| <= s.alloc && Runs(s, trace)
    requires forall i :: 0 <= i < |trace| ==> !trace[i].1.Open?
    ensures NoHarm(s, trace)
    decreases |trace|
  {
    if trace != [] {
      assert !trace[0].1.Open?;
      IntendedRunsAreHarmless(Step(s, trace[0].0, trace[0].1), trace[1..]);
    }
  }

  predicate Parked(pc: Pc) {
    (pc.RSleep? || pc.WSleep?) && !pc.woken
  }

  /** With room for one byte, readers and writers are never all asleep together; those that sleep have reason to. */
  lemma NoDeadlock(s: State)
    requires Inv(s) && |s.ring.buf| >= 2
    requires forall i :: 0 <= i < |s.procs| ==> s.procs[i].Idle? || Parked(s.procs[i])
    ensures (forall i :: 0 <= i < |s.procs| ==> !s.procs[i].RSleep?) || (forall i :: 0 <= i < |s.procs| ==> !s.procs[i].WSleep?)
    ensures (exists i :: 0 <= i < |s.procs| && s.procs[i].RSleep?) ==> s.accepted == s.returned
    ensures (exists i :: 0 <= i < |s.procs| && s.procs[i].WSleep?) ==> |s.accepted| == |s.returned| + |s.ring.buf| - 1
  {
    assert forall j :: 0 <= j < |s.procs| ==> !WriterOwesWake(s.procs[j]) && !ReaderOwesWake(s.procs[j]);
  }

  /** The steps left to a process that owes a wake-up, up to and including the wake-up. */
  function RestOfCall(p: nat, pc: Pc): Trace
    requires WriterOwesWake(pc) || ReaderOwesWake(pc)
  {
    var go := (p, Go([], false));
    if pc.WWrap? || pc.RWrap? then [go, go, go] else if pc.WUp? || pc.RUp? then [go, go] else [go]
  }

  /** Nothing blocks a debtor on its way to the wake-up. */
  lemma DebtorSteps(s: State, p: nat)
    requires Inv(s) && p < |s.procs| && (WriterOwesWake(s.procs[p]) || ReaderOwesWake(s.procs[p])) && |RestOfCall(p, s.procs[p])| > 1
    ensures var go, pc := Go([], false), s.procs[p];
            && Enabled(s, p, go) && !Harmful(s, p, go)
            && var t := Step(s, p, go);
            && Inv(t)
            && t.procs == s.procs[p := match pc case WWrap => WUp case WUp => WWake case RWrap => RUp case _ => RWake]
            && RestOfCall(p, pc) == [(p, go)] + RestOfCall(p, t.procs[p])
  {
    StepExact(s, p, Go([], false));
  }

  lemma LastWake(s: State, sleeper: nat, debtor: nat)
    requires Sane(s) && sleeper < |s.procs| && debtor < |s.procs| && Parked(s.procs[sleeper])
    requires if s.procs[sleeper].RSleep? then s.procs[debtor].WWake? else s.procs[debtor].RWake?
    ensures var trace := [(debtor, Go([], false))];
            && Runs(s, trace) && NoHarm(s, trace)
            && Final(s, trace).procs[sleeper] == s.procs[sleeper].(woken := true)
  {
    var trace := [(debtor, Go([], false))];
    var t := Step(s, debtor, Go([], false));
    assert trace[1..] == [];
    assert Runs(t, []) && NoHarm(t, []) && Final(t, []) == t;
  }

  /** A wake-up that is owed can always be delivered: nothing blocks the debtor, and then the sleeper is woken. */
  lemma {:induction false} OwedWakeArrives(s: State, sleeper: nat, debtor: nat)
    requires Inv(s) && sleeper < |s.procs| && debtor < |s.procs| && Parked(s.procs[sleeper])
    requires if s.procs[sleeper].RSleep? then WriterOwesWake(s.procs[debtor]) else ReaderOwesWake(s.procs[debtor])
    ensures var trace := RestOfCall(debtor, s.procs[debtor]);
            && Runs(s, trace)
            && NoHarm(s, trace)
            && Final(s, trace).procs[sleeper] == s.procs[sleeper].(woken := true)
    decreases |RestOfCall(debtor, s.procs[debtor])|
  {
    var trace := RestOfCall(debtor, s.procs[debtor]);
    if |trace| > 1 {
      DebtorSteps(s, debtor);
      var t := Step(s, debtor, Go([], false));
      OwedWakeArrives(t, sleeper, debtor);
      assert trace[1..] == RestOfCall(debtor, t.procs[debtor]);
    } else {
      LastWake(s, sleeper, debtor);
    }
  }

  lemma {:induction false} Extend(s: State, trace: Trace, p: nat, e: Event)
    requires Runs(s, trace) && Enabled(Final(s, trace), p, e)
    ensures Runs(s, trace + [(p, e)]) && Final(s, trace + [(p, e)]) == Step(Final(s, trace), p, e)
    decreases |trace|
  {
    var longer := trace + [(p, e)];
    if trace == [] {
      assert longer[1..] == [];
    } else {
      Extend(Step(s, trace[0].0, trace[0].1), trace[1..], p, e);
      assert longer[1..] == trace[1..] + [(p, e)];
    }
  }

  /** A call that finds nothing to do, up to where it has released the semaphore and is about to join its queue. */
  lemma CallTurnsAway(s: State, p: nat, call: Event, trace: Trace) returns (longer: Trace)
    requires Runs(s, trace) && (call == Read(1, false) || call.Write?)
    requires var t := Final(s, trace);
             && Sane(t) && p < |t.procs| && t.procs[p].Idle? && t.sem == 1 && Valid(t.ring)
             && (if call.Read? then t.ring.rp == t.ring.wp else SpaceFree(t.ring) == 0)
    ensures Runs(s, longer)
    ensures Final(s, longer) == At(Final(s, trace), p, if call.Read? then RJoin(1, false) else WJoin(call.data))
  {
    var go := Go(Final(s, trace).ring.buf, false);
    Extend(s, trace, p, call);
    longer := trace + [(p, call)];
    Extend(s, longer, p, go);
    longer := longer + [(p, go)];
    Extend(s, longer, p, go);
    longer := longer + [(p, go)];
    if call.Read? {
      Extend(s, longer, p, go);
      longer := longer + [(p, go)];
    }
  }

  /** And if still nothing has happened, it joins, looks again, and goes to sleep. */
  lemma CallSleeps(s: State, p: nat, call: Event, trace: Trace) returns (longer: Trace)
    requires Runs(s, trace) && (call == Read(1, false) || call.Write?)
    requires var t := Final(s, trace);
             && Sane(t) && p < |t.procs| && t.procs[p].Idle? && t.sem == 1 && Valid(t.ring)
             && (if call.Read? then t.ring.rp == t.ring.wp else SpaceFree(t.ring) == 0)
    ensures Runs(s, longer)
    ensures Final(s, longer) == At(Final(s, trace), p, if call.Read? then RSleep(1, false, false) else WSleep(call.data, false))
  {
    var go := Go([], false);
    longer := CallTurnsAway(s, p, call, trace);
    Extend(s, longer, p, go);
    longer := longer + [(p, go)];
    Extend(s, longer, p, go);
    longer := longer + [(p, go)];
  }

  // ---- Runs that go wrong ----

  /** Nobody is on a wait queue. */
  predicate Unqueued(procs: seq<Pc>) {
    forall i :: 0 <= i < |procs| ==> !procs[i].RCheck? && !procs[i].RSleep? && !procs[i].WCheck? && !procs[i].WSleep?
  }

  /** A device at rest, and a process that may call. */
  predicate Resting(t: State, p: nat) {
    Sane(t) && Valid(t.ring) && t.sem == 1 && Unqueued(t.procs) && p < |t.procs| && t.procs[p].Idle?
  }

  /** Wrap the pointer, release, wake: what follows the copy. */
  lemma AfterCopy(s: State, trace: Trace, p: nat) returns (longer: Trace)
    requires Runs(s, trace)
    requires var t := Final(s, trace);
             Sane(t) && t.sem == 0 && Unqueued(t.procs) && p < |t.procs| && (t.procs[p].RWrap? || t.procs[p].WWrap?)
    ensures Runs(s, longer)
    ensures var t := Final(s, trace);
            Final(s, longer) == t.(sem := 1, procs := t.procs[p := Idle], ring := if t.procs[p].RWrap? then WrapRead(t.ring) else WrapWrite(t.ring))
  {
    var go := Go([], false);
    Extend(s, trace, p, go);
    longer := trace + [(p, go)];
    Extend(s, longer, p, go);
    longer := longer + [(p, go)];
    WakesNobody(Final(s, longer), p);
    Extend(s, longer, p, go);
    longer := longer + [(p, go)];
  }

  lemma WakesNobody(t: State, p: nat)
    requires Sane(t) && Unqueued(t.procs) && p < |t.procs| && (t.procs[p].RWake? || t.procs[p].WWake?)
    ensures Enabled(t, p, Go([], false)) && Step(t, p, Go([], false)) == At(t, p, Idle)
  {
    assert Step(t, p, Go([], false)).procs == t.procs[p := Idle];
  }

  /** Call, and take the semaphore. */
  lemma Enter(s: State, trace: Trace, p: nat, call: Event) returns (longer: Trace)
    requires Runs(s, trace) && Resting(Final(s, trace), p) && (call.Read? || call.Write?)
    ensures Runs(s, longer)
    ensures Final(s, longer)
         == At(Final(s, trace).(sem := 0), p, if call.Read? then RTest(call.count, call.nonblock) else WTest(call.data))
  {
    Extend(s, trace, p, call);
    longer := trace + [(p, call)];
    Extend(s, longer, p, Go([], false));
    longer := longer + [(p, Go([], false))];
  }

  /** A whole write to a device with space. */
  lemma WholeWrite(s: State, trace: Trace, p: nat, data: seq<Byte>) returns (longer: Trace)
    requires Runs(s, trace) && Resting(Final(s, trace), p) && SpaceFree(Final(s, trace).ring) > 0
    ensures Runs(s, longer) && Resting(Final(s, longer), p)
    ensures var t := Final(s, trace);
            var put := data[..WriteChunk(t.ring, |data|)];
            Final(s, longer) == t.(ring := WrapWrite(AdvanceWrite(t.ring, put)), accepted := t.accepted + put)
  {
    longer := Enter(s, trace, p, Write(data));
    Extend(s, longer, p, Go([], false));
    longer := AfterCopy(s, longer + [(p, Go([], false))], p);
    assert Final(s, longer).procs == Final(s, trace).procs;
  }

  /** The copy of a read from a device with bytes in it, with the device's bytes repeating behind it. */
  lemma ReadsOut(s: State, trace: Trace, p: nat, count: nat) returns (longer: Trace)
    requires Runs(s, trace) && Resting(Final(s, trace), p) && Final(s, trace).ring.rp != Final(s, trace).ring.wp
    ensures Runs(s, longer)
    ensures var t := Final(s, trace);
            var k := ReadChunk(t.rule, t.ring, count);
            Final(s, longer) == At(t.(sem := 0, ring := AdvanceRead(t.ring, k),
                                      returned := t.returned + (t.ring.buf + t.ring.buf)[t.ring.rp..t.ring.rp + k]), p, RWrap)
  {
    longer := Enter(s, trace, p, Read(count, false));
    var go := Go(Final(s, trace).ring.buf, false);
    Extend(s, longer, p, go);
    longer := longer + [(p, go)];
  }

  /** A state without the promises is the end of a run that did harm. */
  lemma HarmWasDone(s: State, trace: Trace)
    requires Init(s) && Runs(s, trace) && !Inv(Final(s, trace))
    ensures !NoHarm(s, trace) && !AlwaysInv(s, trace)
  {
    RunExact(s, trace);
  }

  /** A ring of four bytes with its pointers there, after so many bytes in and out. */
  predicate Stands(t: State, rule: ChunkRule, rp: nat, wp: nat, accepted: nat, returned: nat) {
    && Resting(t, 0) && t.rule == rule && |t.ring.buf| == 4 && t.ring.rp == rp && t.ring.wp == wp
    && |t.accepted| == accepted && |t.returned| == returned
  }

  /** Three in, three out. */
  lemma EmptiedRing(s: State) returns (trace: Trace)
    requires Init(s) && |s.ring.buf| == 4 && s.procs == [Idle]
    ensures Runs(s, trace) && Stands(Final(s, trace), s.rule, 3, 3, 3, 3)
  {
    trace := WholeWrite(s, [], 0, [1, 2, 3]);
    assert Stands(Final(s, trace), s.rule, 0, 3, 3, 0);
    trace := ReadsOut(s, trace, 0, 3);
    trace := AfterCopy(s, trace, 0);
  }

  /** One more in, and one in around the end. */
  lemma WrappedRing(s: State) returns (trace: Trace)
    requires Init(s) && |s.ring.buf| == 4 && s.procs == [Idle]
    ensures Runs(s, trace) && Stands(Final(s, trace), s.rule, 3, 1, 5, 3)
  {
    trace := EmptiedRing(s);
    trace := WholeWrite(s, trace, 0, [4, 5]);
    assert Stands(Final(s, trace), s.rule, 3, 0, 4, 3);
    trace := WholeWrite(s, trace, 0, [6]);
  }

  /** Line 126 with a four-byte buffer: after that, a read of four returns three bytes where two are left. */
  lemma OverrunRun(s: State) returns (trace: Trace)
    requires Init(s) && s.rule.AsWritten? && |s.ring.buf| == 4 && s.procs == [Idle]
    ensures Runs(s, trace) && !AlwaysInv(s, trace)
    ensures var t := Final(s, trace); |t.accepted| == 5 && |t.returned| == 6 && t.ring.rp == 6
  {
    trace := WrappedRing(s);
    trace := ReadsOut(s, trace, 0, 4);
    HarmWasDone(s, trace);
  }

  /** Line 69: an open by the same process throws away a byte that was accepted and not yet read. */
  lemma ResetRun(s: State) returns (trace: Trace)
    requires Init(s) && |s.ring.buf| == 4 && s.procs == [Idle]
    ensures Runs(s, trace) && !AlwaysInv(s, trace)
    ensures var t := Final(s, trace); t.accepted == [1] && t.returned == [] && t.ring.rp == t.ring.wp
  {
    trace := WholeWrite(s, [], 0, [1]);
    Extend(s, trace, 0, Open(s.ring.buf));
    trace := trace + [(0, Open(s.ring.buf))];
    HarmWasDone(s, trace);
  }

  /** Lines 67-68: after an open with twice the size a write goes past the two bytes that were allocated. */
  lemma GrownRun(s: State, memory: seq<Byte>) returns (trace: Trace)
    requires Init(s) && |s.ring.buf| == 2 && |memory| == 4 && s.procs == [Idle]
    ensures Runs(s, trace) && !AlwaysInv(s, trace)
    ensures Final(s, trace).alloc == 2 && Final(s, trace).ring.wp == 3
  {
    assert Runs(s, []) && Final(s, []) == s;
    Extend(s, [], 0, Open(memory));
    trace := WholeWrite(s, [] + [(0, Open(memory))], 0, [1, 2, 3]);
    HarmWasDone(s, trace);
  }

  /** Two processes on a two-byte device, neither inside, with everything read back that is not in the ring. */
  ghost predicate AtRest(t: State, procs: seq<Pc>) {
    && Sane(t) && |t.ring.buf| == t.alloc == 2 && t.sem == 1 && t.procs == procs && Valid(t.ring)
    && t.accepted == t.returned + Contents(t.ring)
  }

  lemma ReaderTooLate(t: State)
    requires AtRest(t, [RCheck(1, false, false), Idle]) && t.ring.rp != t.ring.wp
    ensures Inv(t) && !ReadersServed(At(t, 0, RSleep(1, false, false)))
    ensures Enabled(t, 0, Go([], false)) && Step(t, 0, Go([], false)).procs[0] == RDown(1, false)
  {
    SpaceAddsUp(t.ring);
    var parked := At(t, 0, RSleep(1, false, false));
    assert parked.procs[0].RSleep? && !parked.procs[0].woken;
    assert forall j :: 0 <= j < |parked.procs| ==> !WriterOwesWake(parked.procs[j]);
  }

  lemma WriterTooLate(t: State)
    requires AtRest(t, [Idle, WCheck([8], false)]) && t.ring.rp == t.ring.wp
    ensures Inv(t) && !WritersServed(At(t, 1, WSleep([8], false)))
    ensures Enabled(t, 1, Go([], false)) && Step(t, 1, Go([], false)).procs[1] == WDown([8])
  {
    var parked := At(t, 1, WSleep([8], false));
    assert parked.procs[1].WSleep? && !parked.procs[1].woken;
    assert forall j :: 0 <= j < |parked.procs| ==> !ReaderOwesWake(parked.procs[j]);
  }

  /**
   Why the condition is looked at again once on the queue: a writer's whole call, wake-up and all, fits
   between a reader's release of the semaphore and its joining.  If the reader now slept, it would sleep on
   a byte, and nobody would be about to wake it; as it is, it goes on.
   */
  lemma ReaderMustLookAgain(s: State) returns (trace: Trace)
    requires Init(s) && |s.ring.buf| == 2 && s.procs == [Idle, Idle]
    ensures Runs(s, trace) && Inv(Final(s, trace))
    ensures var t := Final(s, trace);
            && |t.procs| == 2 && t.procs[0] == RCheck(1, false, false)
            && !ReadersServed(At(t, 0, RSleep(1, false, false)))
            && Enabled(t, 0, Go([], false)) && Step(t, 0, Go([], false)).procs[0] == RDown(1, false)
  {
    assert Runs(s, []) && Final(s, []) == s;
    trace := CallTurnsAway(s, 0, Read(1, false), []);
    trace := WholeWrite(s, trace, 1, [7]);
    Extend(s, trace, 0, Go([], false));
    trace := trace + [(0, Go([], false))];
    ReaderTooLate(Final(s, trace));
  }

  /** The first half of the same for a writer: the ring is full, and the second process has been turned away. */
  lemma FullRing(s: State) returns (trace: Trace)
    requires Init(s) && |s.ring.buf| == 2 && s.procs == [Idle, Idle]
    ensures Runs(s, trace) && AtRest(Final(s, trace), [Idle, WJoin([8])])
    ensures var t := Final(s, trace); t.ring.rp == 0 && t.ring.wp == 1 && t.accepted == [7] && t.returned == []
  {
    assert Runs(s, []) && Final(s, []) == s;
    trace := WholeWrite(s, [], 0, [7]);
    trace := CallTurnsAway(s, 1, Write([8]), trace);
  }

  /** A reader's whole call fits in there, and line 164 saves the writer. */
  lemma WriterMustLookAgain(s: State) returns (trace: Trace)
    requires Init(s) && |s.ring.buf| == 2 && s.procs == [Idle, Idle]
    ensures Runs(s, trace) && Inv(Final(s, trace))
    ensures var t := Final(s, trace);
            && |t.procs| == 2 && t.procs[1] == WCheck([8], false)
            && !WritersServed(At(t, 1, WSleep([8], false)))
            && Enabled(t, 1, Go([], false)) && Step(t, 1, Go([], false)).procs[1] == WDown([8])
  {
    trace := FullRing(s);
    trace := ReadsOut(s, trace, 0, 1);
    trace := AfterCopy(s, trace, 0);
    Extend(s, trace, 1, Go([], false));
    trace := trace + [(1, Go([], false))];
    WriterTooLate(Final(s, trace));
  }

  /** A writer sleeps on a buffer of one byte; an open makes room, and tells nobody. */
  lemma StrandedRun(s: State, memory: seq<Byte>) returns (trace: Trace)
    requires Init(s) && |s.ring.buf| == 1 && |memory| == 2 && |s.procs| == 2
    ensures Runs(s, trace) && !AlwaysInv(s, trace)
    ensures var t := Final(s, trace); |t.procs| == 2 && t.procs[1] == WSleep([7], false) && t.ring == Ring(memory, 0, 0)
  {
    assert Runs(s, []) && Final(s, []) == s;
    trace := CallSleeps(s, 1, Write([7]), []);
    Extend(s, trace, 0, Open(memory));
    trace := trace + [(0, Open(memory))];
    var t := Final(s, trace);
    assert s.procs[0].Idle? && s.procs[1].Idle?;
    assert t.procs[0] == Idle && t.procs[1] == WSleep([7], false) && t.ring == Ring(memory, 0, 0);
    assert t.procs[1].WSleep? && !t.procs[1].woken && Contents(t.ring) == [];
    assert forall j :: 0 <= j < |t.procs| ==> !ReaderOwesWake(t.procs[j]);
    assert !WritersServed(t);
    HarmWasDone(s, trace);
  }

  /** Both wait, and no byte can move: the ring of one byte is empty and full at once. */
  predicate Deadlocked(t: State) {
    && Sane(t) && |t.ring.buf| == 1 && t.ring.rp == t.ring.wp == 0 && |t.procs| == 2
    && (t.procs[0].RJoin? || t.procs[0].RCheck? || t.procs[0].RSleep?)
    && (t.procs[1].WJoin? || t.procs[1].WCheck? || t.procs[1].WSleep? || t.procs[1].WDown? || t.procs[1].WTest?)
    && t.sem == (if t.procs[1].WTest? then 0 else 1)
  }

  predicate Unsignalled(trace: Trace) {
    forall i :: 0 <= i < |trace| ==> !trace[i].1.Signal?
  }

  /** Whatever else happens, neither call returns. */
  lemma {:induction false} DeadlockLasts(t: State, trace: Trace)
    requires Deadlocked(t) && Runs(t, trace) && Unsignalled(trace)
    ensures Deadlocked(Final(t, trace))
    decreases |trace|
  {
    if trace != [] {
      assert !trace[0].1.Signal?;
      DeadlockLasts(Step(t, trace[0].0, trace[0].1), trace[1..]);
    }
  }

  /** A one-byte buffer has only the reserved slot: a reader and a writer sleep on each other until a signal comes. */
  lemma OneByteDeadlock(s: State) returns (trace: Trace)
    requires Init(s) && |s.ring.buf| == 1 && |s.procs| == 2
    ensures Runs(s, trace)
    ensures Final(s, trace).procs == [RSleep(1, false, false), WSleep([7], false)]
    ensures forall more :: Runs(Final(s, trace), more) && Unsignalled(more) ==> Deadlocked(Final(Final(s, trace), more))
  {
    trace := CallSleeps(s, 0, Read(1, false), []);
    trace := CallSleeps(s, 1, Write([7]), trace);
    forall more | Runs(Final(s, trace), more) && Unsignalled(more) {
      DeadlockLasts(Final(s, trace), more);
    }
  }
}
