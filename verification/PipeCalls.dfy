/**
 What a single call on the pipe device can rely on (scull/pipe.c:102-219) while any number of others are
 under way: what it asks for is kept, when it returns, when it may wait, and that it gets through once
 there is something for it to do.
 */
module PipeCalls {
  import opened Bytes
  import opened Ring
  import opened PipeProtocol

  // ---- A call keeps its request ----

  /** What a call has yet to do, until its bytes are copied. */
  datatype Request = Reading(count: nat, nonblock: bool) | Writing(data: seq<Byte>) | Copied

  function Asks(pc: Pc): Request {
    match pc
    case RDown(c, b) => Reading(c, b)
    case RTest(c, b) => Reading(c, b)
    case RLook(c, b) => Reading(c, b)
    case RJoin(c, b) => Reading(c, b)
    case RCheck(c, b, _) => Reading(c, b)
    case RSleep(c, b, _) => Reading(c, b)
    case WDown(d) => Writing(d)
    case WTest(d) => Writing(d)
    case WJoin(d) => Writing(d)
    case WCheck(d, _) => Writing(d)
    case WSleep(d, _) => Writing(d)
    case _ => Copied
  }

  /** Process `i` is in one call all along. */
  predicate InCall(s: State, trace: Trace, i: nat)
    requires Runs(s, trace) && i < |s.procs|
    decreases |trace|
  {
    !s.procs[i].Idle? && (trace == [] || InCall(Step(s, trace[0].0, trace[0].1), trace[1..], i))
  }

  /** The same, but with a wake-up on it. */
  predicate Marked(was: Pc, now: Pc) {
    && Asks(now) == Asks(was)
    && (|| (was.RCheck? && now.RCheck? && now.woken)
        || (was.RSleep? && now.RSleep? && now.woken)
        || (was.WCheck? && now.WCheck? && now.woken)
        || (was.WSleep? && now.WSleep? && now.woken))
  }

  /** The others' steps move no process: a wake-up marks those on its queue, and that is all. */
  lemma OthersStay(s: State, p: nat, e: Event, i: nat)
    requires Enabled(s, p, e) && i < |s.procs| && i != p
    ensures var was, now := s.procs[i], Step(s, p, e).procs[i];
            if e.Go? && s.procs[p].WWake? && (was.RCheck? || was.RSleep?) then Marked(was, now)
            else if e.Go? && s.procs[p].RWake? && (was.WCheck? || was.WSleep?) then Marked(was, now)
            else now == was
  {
    if e.Go? {
      match s.procs[p]
      case RTest(_, _) =>
      case WTest(_) =>
      case _ =>
    }
  }

  lemma StepKeepsRequest(s: State, p: nat, e: Event, i: nat)
    requires Enabled(s, p, e) && i < |s.procs| && !s.procs[i].Idle?
    ensures var t := Step(s, p, e); t.procs[i].Idle? || Asks(t.procs[i]).Copied? || Asks(t.procs[i]) == Asks(s.procs[i])
    ensures Asks(s.procs[i]).Copied? ==> Asks(Step(s, p, e).procs[i]).Copied?
  {
    if i != p {
      OthersStay(s, p, e, i);
    }
  }

  /** However long a call waits, and however often it is woken, it goes on to ask for the same. */
  lemma {:induction false} CallKeepsRequest(s: State, trace: Trace, i: nat)
    requires Runs(s, trace) && i < |s.procs| && InCall(s, trace, i)
    ensures Asks(Final(s, trace).procs[i]).Copied? || Asks(Final(s, trace).procs[i]) == Asks(s.procs[i])
    ensures Asks(s.procs[i]).Copied? ==> Asks(Final(s, trace).procs[i]).Copied?
    decreases |trace|
  {
    if trace != [] {
      StepKeepsRequest(s, trace[0].0, trace[0].1, i);
      CallKeepsRequest(Step(s, trace[0].0, trace[0].1), trace[1..], i);
    }
  }

  // ---- When a call returns ----

  /**
   A call returns in four ways: on a signal, with EAGAIN for a nonblocking read of an empty ring, with
   EFAULT for a copy that fails, or after it has woken those who wait for it.
   */
  lemma ReturnsExactly(s: State, p: nat, e: Event)
    requires Enabled(s, p, e) && !s.procs[p].Idle?
    ensures Step(s, p, e).procs[p].Idle? <==>
            || e.Signal?
            || (e.Go? && (s.procs[p].RWake? || s.procs[p].WWake?))
            || (e.Go? && s.procs[p].RTest? && (if s.ring.rp == s.ring.wp then s.procs[p].nonblock else e.fault))
            || (e.Go? && s.procs[p].WTest? && SpaceFree(s.ring) != 0 && e.fault)
    ensures Step(s, p, e).procs[p].Idle? ==>
              var t := Step(s, p, e); t.ring == s.ring && t.accepted == s.accepted && t.returned == s.returned
    ensures Step(s, p, e).procs[p].Idle? ==> Step(s, p, e).sem == s.sem + (if Holds(s.procs[p]) then 1 else 0)
  {
    if e.Go? {
      match s.procs[p]
      case RTest(_, _) =>
      case WTest(_) =>
      case RWake =>
      case WWake =>
      case _ =>
    }
  }

  /** A call that waits, for the semaphore or for the others, can be interrupted, and then has done nothing. */
  lemma Interruptible(s: State, p: nat)
    requires Sane(s) && p < |s.procs|
    requires var pc := s.procs[p]; pc.RDown? || pc.RCheck? || pc.RSleep? || pc.WDown? || pc.WCheck? || pc.WSleep?
    ensures Enabled(s, p, Signal) && Step(s, p, Signal) == s.(procs := s.procs[p := Idle])
    ensures s.procs[p].RSleep? || s.procs[p].WSleep? ==> Enabled(s, p, Spurious)
  {
  }

  predicate WaitsNonblocking(pc: Pc) {
    (pc.RLook? || pc.RJoin? || pc.RCheck? || pc.RSleep?) && pc.nonblock
  }

  predicate NobodyWaitsNonblocking(s: State) {
    forall i :: 0 <= i < |s.procs| ==> !WaitsNonblocking(s.procs[i])
  }

  lemma StepNeverWaits(s: State, p: nat, e: Event)
    requires NobodyWaitsNonblocking(s) && Enabled(s, p, e)
    ensures NobodyWaitsNonblocking(Step(s, p, e))
  {
    forall i | 0 <= i < |s.procs|
      ensures !WaitsNonblocking(Step(s, p, e).procs[i])
    {
      if i != p {
        OthersStay(s, p, e, i);
      } else if e.Go? && s.procs[p].RTest? {
        ReturnsExactly(s, p, e);
      }
    }
  }

  lemma {:induction false} RunNeverWaits(s: State, trace: Trace)
    requires NobodyWaitsNonblocking(s) && Runs(s, trace)
    ensures NobodyWaitsNonblocking(Final(s, trace))
    decreases |trace|
  {
    if trace != [] {
      StepNeverWaits(s, trace[0].0, trace[0].1);
      RunNeverWaits(Step(s, trace[0].0, trace[0].1), trace[1..]);
    }
  }

  /** In no run does a nonblocking read wait for bytes. */
  lemma NonblockingNeverWaits(s: State, trace: Trace, i: nat)
    requires Init(s) && Runs(s, trace) && i < |Final(s, trace).procs|
    requires var pc := Final(s, trace).procs[i]; pc.RLook? || pc.RJoin? || pc.RCheck? || pc.RSleep?
    ensures !Final(s, trace).procs[i].nonblock
  {
    RunNeverWaits(s, trace);
    assert !WaitsNonblocking(Final(s, trace).procs[i]);
  }

  // ---- A call gets through ----

  /** So many steps of one process, whose copies go well. */
  function Alone(p: nat, beyond: seq<Byte>, n: nat): Trace {
    if n == 0 then [] else [(p, Go(beyond, false))] + Alone(p, beyond, n - 1)
  }

  lemma OneStep(s: State, p: nat, beyond: seq<Byte>, n: nat)
    requires n > 0 && Enabled(s, p, Go(beyond, false)) && Runs(Step(s, p, Go(beyond, false)), Alone(p, beyond, n - 1))
    ensures Runs(s, Alone(p, beyond, n))
    ensures Final(s, Alone(p, beyond, n)) == Final(Step(s, p, Go(beyond, false)), Alone(p, beyond, n - 1))
  {
    assert Alone(p, beyond, n)[1..] == Alone(p, beyond, n - 1);
  }

  /** `p` has returned, and the processes on the other queue are marked. */
  ghost predicate Woke(before: seq<Pc>, after: seq<Pc>, p: nat, writers: bool) {
    && |after| == |before| && p < |after| && after[p].Idle?
    && forall i :: 0 <= i < |before| && i != p ==>
         if (if writers then before[i].WCheck? || before[i].WSleep? else before[i].RCheck? || before[i].RSleep?)
         then Marked(before[i], after[i]) else after[i] == before[i]
  }

  lemma WakeAlone(s: State, p: nat, beyond: seq<Byte>)
    requires Sane(s) && p < |s.procs| && (s.procs[p].RWake? || s.procs[p].WWake?)
    ensures Runs(s, Alone(p, beyond, 1))
    ensures var t := Final(s, Alone(p, beyond, 1));
            t == s.(procs := t.procs) && Woke(s.procs, t.procs, p, s.procs[p].RWake?)
  {
    var e := Go(beyond, false);
    var t := Step(s, p, e);
    forall i | 0 <= i < |s.procs| && i != p
      ensures if e.Go? && s.procs[p].WWake? && (s.procs[i].RCheck? || s.procs[i].RSleep?) then Marked(s.procs[i], t.procs[i])
              else if e.Go? && s.procs[p].RWake? && (s.procs[i].WCheck? || s.procs[i].WSleep?) then Marked(s.procs[i], t.procs[i])
              else t.procs[i] == s.procs[i]
    {
      OthersStay(s, p, e, i);
    }
    assert Runs(t, Alone(p, beyond, 0)) && Final(t, Alone(p, beyond, 0)) == t;
    OneStep(s, p, beyond, 1);
  }

  lemma ReleaseAlone(s: State, p: nat, beyond: seq<Byte>)
    requires Sane(s) && p < |s.procs| && (s.procs[p].RUp? || s.procs[p].WUp?)
    ensures Runs(s, Alone(p, beyond, 2))
    ensures var t := Final(s, Alone(p, beyond, 2));
            t == s.(sem := s.sem + 1, procs := t.procs) && Woke(s.procs, t.procs, p, s.procs[p].RUp?)
  {
    var t := Step(s, p, Go(beyond, false));
    WakeAlone(t, p, beyond);
    OneStep(s, p, beyond, 2);
  }

  /** What follows the copy: wrap, release, wake. */
  lemma AfterCopyAlone(s: State, p: nat, beyond: seq<Byte>)
    requires Sane(s) && p < |s.procs| && (s.procs[p].RWrap? || s.procs[p].WWrap?)
    ensures Runs(s, Alone(p, beyond, 3))
    ensures var t := Final(s, Alone(p, beyond, 3));
            && t == s.(sem := s.sem + 1, ring := if s.procs[p].RWrap? then WrapRead(s.ring) else WrapWrite(s.ring), procs := t.procs)
            && Woke(s.procs, t.procs, p, s.procs[p].RWrap?)
  {
    var t := Step(s, p, Go(beyond, false));
    ReleaseAlone(t, p, beyond);
    OneStep(s, p, beyond, 3);
  }

  lemma WokeFrom(before: seq<Pc>, pc: Pc, after: seq<Pc>, p: nat, writers: bool)
    requires p < |before| && Woke(before[p := pc], after, p, writers)
    ensures Woke(before, after, p, writers)
  {
    forall i | 0 <= i < |before| && i != p
      ensures before[p := pc][i] == before[i]
    {
    }
  }

  /** The oldest bytes, as many as asked for and as lie before `end`, and the ring without them. */
  ghost predicate Took(r: Ring, after: Ring, count: nat, bytes: seq<Byte>) {
    && Valid(r) && Valid(after) && after.buf == r.buf
    && |bytes| == Min(count, Min(|Contents(r)|, |r.buf| - r.rp))
    && Contents(r) == bytes + Contents(after)
  }

  /** A read for `count` bytes, done: `bytes` are returned, and the rest is left. */
  ghost predicate ReadDone(s: State, t: State, p: nat, count: nat, bytes: seq<Byte>) {
    && Took(s.ring, t.ring, count, bytes) && t.returned == s.returned + bytes
    && t.accepted == s.accepted && t.rule == s.rule && t.alloc == s.alloc
    && Woke(s.procs, t.procs, p, true)
  }

  /** As much of the data as is free and lies before `end`, behind the unread bytes. */
  ghost predicate Gave(r: Ring, after: Ring, data: seq<Byte>, put: seq<Byte>) {
    && Valid(r) && Valid(after) && |after.buf| == |r.buf|
    && |put| == Min(|data|, Min(|r.buf| - 1 - |Contents(r)|, |r.buf| - r.wp)) && put <= data
    && Contents(after) == Contents(r) + put
  }

  /** A write of `data`, done: `put` is accepted. */
  ghost predicate WriteDone(s: State, t: State, p: nat, data: seq<Byte>, put: seq<Byte>) {
    && Gave(s.ring, t.ring, data, put) && t.accepted == s.accepted + put
    && t.returned == s.returned && t.rule == s.rule && t.alloc == s.alloc
    && Woke(s.procs, t.procs, p, false)
  }

  lemma BytesTaken(rule: ChunkRule, r: Ring, count: nat, beyond: seq<Byte>)
    requires Valid(r) && r.rp != r.wp && !Overruns(rule, r, count) && |beyond| >= |r.buf|
    ensures var k := ReadChunk(rule, r, count);
            r.rp + k <= |r.buf| && Took(r, WrapRead(AdvanceRead(r, k)), count, (r.buf + beyond)[r.rp..r.rp + k])
  {
    var k := ReadChunk(rule, r, count);
    ReadTakesOldest(rule, r, count);
    ReadChunkExact(rule, r, count);
    assert (r.buf + beyond)[r.rp..r.rp + k] == r.buf[r.rp..r.rp + k];
  }

  lemma CopyOut(s: State, p: nat, beyond: seq<Byte>) returns (bytes: seq<Byte>)
    requires Sane(s) && Valid(s.ring) && p < |s.procs| && s.procs[p].RTest? && |beyond| >= |s.ring.buf|
    requires s.ring.rp != s.ring.wp && !Overruns(s.rule, s.ring, s.procs[p].count)
    ensures Enabled(s, p, Go(beyond, false))
    ensures var t := Step(s, p, Go(beyond, false));
            && t == At(s.(ring := t.ring, returned := s.returned + bytes), p, RWrap)
            && Sane(t) && Took(s.ring, WrapRead(t.ring), s.procs[p].count, bytes)
  {
    var k := ReadChunk(s.rule, s.ring, s.procs[p].count);
    BytesTaken(s.rule, s.ring, s.procs[p].count, beyond);
    bytes := (s.ring.buf + beyond)[s.ring.rp..s.ring.rp + k];
    assert Step(s, p, Go(beyond, false)) == ReadLocked(s, p, beyond, false)
        == At(s.(ring := AdvanceRead(s.ring, k), returned := s.returned + bytes), p, RWrap);
  }

  /** From the test under the semaphore on, told from an earlier state `s` in which `p` waited. */
  lemma ReadAlone(s: State, u: State, p: nat, beyond: seq<Byte>) returns (t: State, bytes: seq<Byte>)
    requires Sane(s) && Valid(s.ring) && p < |s.procs| && |u.procs| == |s.procs| && u == At(s.(sem := u.sem), p, u.procs[p])
    requires u.procs[p].RTest? && |beyond| >= |s.ring.buf| && Contents(s.ring) != [] && !Overruns(s.rule, s.ring, u.procs[p].count)
    ensures Runs(u, Alone(p, beyond, 4)) && Final(u, Alone(p, beyond, 4)) == t
    ensures t.sem == u.sem + 1 && ReadDone(s, t, p, u.procs[p].count, bytes)
  {
    SpaceAddsUp(s.ring);
    bytes := CopyOut(u, p, beyond);
    var a := Step(u, p, Go(beyond, false));
    AfterCopyAlone(a, p, beyond);
    OneStep(u, p, beyond, 4);
    t := Final(u, Alone(p, beyond, 4));
    assert s.procs[p := RWrap] == u.procs[p := RWrap];
    WokeFrom(s.procs, RWrap, t.procs, p, true);
  }

  lemma BytesPut(r: Ring, data: seq<Byte>)
    requires Valid(r) && SpaceFree(r) > 0
    ensures var put := data[..WriteChunk(r, |data|)];
            var a := AdvanceWrite(r, put);
            InRange(a) && Gave(r, WrapWrite(a), data, put)
  {
    WriteAppends(r, data);
    WriteChunkExact(r, |data|);
  }

  lemma CopyIn(s: State, p: nat, beyond: seq<Byte>) returns (put: seq<Byte>)
    requires Sane(s) && Valid(s.ring) && p < |s.procs| && s.procs[p].WTest? && SpaceFree(s.ring) > 0
    ensures Enabled(s, p, Go(beyond, false))
    ensures var t := Step(s, p, Go(beyond, false));
            && t == At(s.(ring := t.ring, accepted := s.accepted + put), p, WWrap)
            && Sane(t) && Gave(s.ring, WrapWrite(t.ring), s.procs[p].data, put)
  {
    var data := s.procs[p].data;
    BytesPut(s.ring, data);
    put := data[..WriteChunk(s.ring, |data|)];
    assert Step(s, p, Go(beyond, false)) == WriteLocked(s, p, false)
        == At(s.(ring := AdvanceWrite(s.ring, put), accepted := s.accepted + put), p, WWrap);
  }

  lemma WriteAlone(s: State, u: State, p: nat, beyond: seq<Byte>) returns (t: State, put: seq<Byte>)
    requires Sane(s) && Valid(s.ring) && p < |s.procs| && |u.procs| == |s.procs| && u == At(s.(sem := u.sem), p, u.procs[p])
    requires u.procs[p].WTest? && |Contents(s.ring)| < |s.ring.buf| - 1
    ensures Runs(u, Alone(p, beyond, 4)) && Final(u, Alone(p, beyond, 4)) == t
    ensures t.sem == u.sem + 1 && WriteDone(s, t, p, u.procs[p].data, put)
  {
    SpaceAddsUp(s.ring);
    put := CopyIn(u, p, beyond);
    var a := Step(u, p, Go(beyond, false));
    AfterCopyAlone(a, p, beyond);
    OneStep(u, p, beyond, 4);
    t := Final(u, Alone(p, beyond, 4));
    assert s.procs[p := WWrap] == u.procs[p := WWrap];
    WokeFrom(s.procs, WWrap, t.procs, p, false);
  }

  /** The steps from where a call waits to the test under the semaphore, if it finds what it waits for. */
  function StepsToTest(pc: Pc): nat {
    match pc
    case RDown(_, _) => 1
    case RLook(_, _) => 2
    case RCheck(_, _, _) => 2
    case RJoin(_, _) => 3
    case RSleep(_, _, _) => 4
    case WDown(_) => 1
    case WCheck(_, _) => 2
    case WSleep(_, _) => 2
    case WJoin(_) => 3
    case _ => 0
  }

  /** A call that waits for the semaphore, or on its queue and not without a wake-up, finds it free and something to do. */
  ghost predicate MayProceed(s: State, p: nat) {
    && Sane(s) && Valid(s.ring) && s.sem > 0 && p < |s.procs|
    && StepsToTest(s.procs[p]) > 0
    && (s.procs[p].RSleep? || s.procs[p].WSleep? ==> s.procs[p].woken)
    && (if Asks(s.procs[p]).Reading? then Contents(s.ring) != [] else |Contents(s.ring)| < |s.ring.buf| - 1)
  }

  /** About to test under the semaphore, with the request it had. */
  predicate Tests(pc: Pc, request: Request) {
    match request
    case Reading(c, b) => pc == RTest(c, b)
    case Writing(d) => pc == WTest(d)
    case Copied => false
  }

  lemma {:induction false} ReachesTest(s: State, p: nat, beyond: seq<Byte>) returns (u: State)
    requires MayProceed(s, p)
    ensures Runs(s, Alone(p, beyond, StepsToTest(s.procs[p]))) && Final(s, Alone(p, beyond, StepsToTest(s.procs[p]))) == u
    ensures |u.procs| == |s.procs| && u == At(s.(sem := s.sem - 1), p, u.procs[p]) && Tests(u.procs[p], Asks(s.procs[p]))
    decreases StepsToTest(s.procs[p])
  {
    SpaceAddsUp(s.ring);
    var n := StepsToTest(s.procs[p]);
    var t := Step(s, p, Go(beyond, false));
    if n > 1 {
      assert StepsToTest(t.procs[p]) == n - 1 && t == At(s, p, t.procs[p]);
      u := ReachesTest(t, p, beyond);
    } else {
      u := t;
      assert Runs(u, Alone(p, beyond, 0)) && Final(u, Alone(p, beyond, 0)) == u;
    }
    OneStep(s, p, beyond, n);
  }

  lemma {:induction false} RunsOn(s: State, a: Trace, b: Trace)
    requires Runs(s, a) && Runs(Final(s, a), b)
    ensures Runs(s, a + b) && Final(s, a + b) == Final(Final(s, a), b)
    decreases |a|
  {
    if a == [] {
      assert a + b == b;
    } else {
      RunsOn(Step(s, a[0].0, a[0].1), a[1..], b);
      assert (a + b)[1..] == a[1..] + b;
    }
  }

  lemma {:induction false} AloneJoins(p: nat, beyond: seq<Byte>, m: nat, n: nat)
    ensures Alone(p, beyond, m) + Alone(p, beyond, n) == Alone(p, beyond, m + n)
  {
    if m > 0 {
      AloneJoins(p, beyond, m - 1, n);
      var go, a, b := [(p, Go(beyond, false))], Alone(p, beyond, m - 1), Alone(p, beyond, n);
      calc {
        Alone(p, beyond, m) + b;
        (go + a) + b;
        go + (a + b);
        go + Alone(p, beyond, m - 1 + n);
      }
    }
  }

  lemma AloneOn(s: State, p: nat, beyond: seq<Byte>, m: nat, n: nat)
    requires Runs(s, Alone(p, beyond, m)) && Runs(Final(s, Alone(p, beyond, m)), Alone(p, beyond, n))
    ensures Runs(s, Alone(p, beyond, m + n))
    ensures Final(s, Alone(p, beyond, m + n)) == Final(Final(s, Alone(p, beyond, m)), Alone(p, beyond, n))
  {
    RunsOn(s, Alone(p, beyond, m), Alone(p, beyond, n));
    AloneJoins(p, beyond, m, n);
  }

  /**
   Once the semaphore is free and bytes wait, a reader gets through in its own steps, from wherever it is: it
   returns the oldest bytes, as many as it may, leaves the rest, frees the semaphore and wakes the writers.
   */
  lemma ReaderGetsThrough(s: State, p: nat, beyond: seq<Byte>) returns (t: State, bytes: seq<Byte>)
    requires MayProceed(s, p) && Asks(s.procs[p]).Reading? && |beyond| >= |s.ring.buf|
    requires !Overruns(s.rule, s.ring, Asks(s.procs[p]).count)
    ensures var trace := Alone(p, beyond, StepsToTest(s.procs[p]) + 4); Runs(s, trace) && Final(s, trace) == t
    ensures t.sem == s.sem && ReadDone(s, t, p, Asks(s.procs[p]).count, bytes)
  {
    var u := ReachesTest(s, p, beyond);
    t, bytes := ReadAlone(s, u, p, beyond);
    AloneOn(s, p, beyond, StepsToTest(s.procs[p]), 4);
  }

  /** And a writer, once there is space: what it puts in goes behind the unread bytes, and the readers are woken. */
  lemma WriterGetsThrough(s: State, p: nat, beyond: seq<Byte>) returns (t: State, put: seq<Byte>)
    requires MayProceed(s, p) && Asks(s.procs[p]).Writing?
    ensures var trace := Alone(p, beyond, StepsToTest(s.procs[p]) + 4); Runs(s, trace) && Final(s, trace) == t
    ensures t.sem == s.sem && WriteDone(s, t, p, Asks(s.procs[p]).data, put)
  {
    var u := ReachesTest(s, p, beyond);
    t, put := WriteAlone(s, u, p, beyond);
    AloneOn(s, p, beyond, StepsToTest(s.procs[p]), 4);
  }
}
