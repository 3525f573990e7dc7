/**
 The device that makes an opener wait until it is free or its own (scull/access.c:112-164), with any
 number of processes interleaved; with `nonblock` it is also the one that answers EBUSY instead
 (scull/access.c:63-99), which takes and gives up ownership by the same rules.
 */
module BlockingOpen {

  /** Waking: has closed the last open and is about to wake the waiters. */
  datatype Pc =
    | Outside
    | Trying(nonblock: bool)   // about to take the spin lock
    | Looking                  // spin lock dropped, first look at the condition of line 136
    | Joining                  // about to join the wait queue; wake-ups do not reach it yet, or no more
    | Checking(woken: bool)    // on the wait queue, about to look again
    | Asleep(woken: bool)
    | Waking

  /** A process, who it is, and how many opens of the device it holds. */
  datatype Proc = Proc(uid: nat, euid: nat, capable: bool, pc: Pc, holds: nat)

  datatype State = State(count: int, owner: nat, procs: seq<Proc>)

  datatype Event = Open(nonblock: bool) | Release | Go | Signal | Spurious

  /** Whether a process may open while the device is owned by `owner`. */
  predicate Matches(owner: nat, p: Proc) {
    owner == p.uid || owner == p.euid || p.capable
  }

  /** `scull_w_available`. */
  predicate Available(s: State, p: Proc) {
    s.count == 0 || Matches(s.owner, p)
  }

  predicate Enabled(s: State, i: nat, e: Event) {
    && i < |s.procs|
    && var pc := s.procs[i].pc;
       match e
       case Open(_) => pc.Outside?
       case Release => pc.Outside? && s.procs[i].holds > 0
       case Go => pc.Trying? || pc.Looking? || pc.Joining? || pc.Checking? || pc.Waking? || (pc.Asleep? && pc.woken)
       case Signal => pc.Checking? || pc.Asleep?
       case Spurious => pc.Asleep?
  }

  function Put(s: State, i: nat, p: Proc): State
    requires i < |s.procs|
  {
    s.(procs := s.procs[i := p])
  }

  function Woken(p: Proc): Proc {
    match p.pc
    case Checking(_) => p.(pc := Checking(true))
    case Asleep(_) => p.(pc := Asleep(true))
    case _ => p
  }

  /** The test under the spin lock, and the open itself (lines 132-144). */
  function Try(s: State, i: nat): State
    requires i < |s.procs| && s.procs[i].pc.Trying?
  {
    var p := s.procs[i];
    if Available(s, p) then
      Put(s.(owner := if s.count == 0 then p.uid else s.owner, count := s.count + 1), i, p.(pc := Outside, holds := p.holds + 1))
    else Put(s, i, p.(pc := if p.pc.nonblock then Outside else Looking))
  }

  function Step(s: State, i: nat, e: Event): State
    requires Enabled(s, i, e)
  {
    var p := s.procs[i];
    match e
    case Open(nonblock) => Put(s, i, p.(pc := Trying(nonblock)))
    case Release =>
      Put(s.(count := s.count - 1), i, p.(holds := p.holds - 1, pc := if s.count - 1 == 0 then Waking else Outside))
    case Signal => Put(s, i, p.(pc := Outside))
    case Spurious => Put(s, i, p.(pc := Joining))
    case Go =>
      match p.pc
      case Trying(_) => Try(s, i)
      case Looking => Put(s, i, p.(pc := if Available(s, p) then Trying(false) else Joining))
      case Joining => Put(s, i, p.(pc := Checking(false)))
      case Checking(woken) => Put(s, i, p.(pc := if Available(s, p) then Trying(false) else Asleep(woken)))
      case Asleep(_) => Put(s, i, p.(pc := Joining))
      case Waking => Put(s.(procs := seq(|s.procs|, j requires 0 <= j < |s.procs| => Woken(s.procs[j]))), i, p.(pc := Outside))
  }

  ghost predicate Init(s: State) {
    s.count == 0 && forall i :: 0 <= i < |s.procs| ==> s.procs[i].pc.Outside? && s.procs[i].holds == 0
  }

  // ---- What every state keeps ----

  function TotalHolds(procs: seq<Proc>): nat {
    if procs == [] then 0 else procs[0].holds + TotalHolds(procs[1..])
  }

  /** The count is the number of opens held, and all who hold one may. */
  ghost predicate Owned(s: State) {
    && s.count == TotalHolds(s.procs)
    && forall i :: 0 <= i < |s.procs| && s.procs[i].holds > 0 ==> Matches(s.owner, s.procs[i])
  }

  /** A process asleep with no wake-up on it may not open, or somebody still owes a wake-up. */
  ghost predicate Served(s: State) {
    forall i :: 0 <= i < |s.procs| && s.procs[i].pc == Asleep(false) && Available(s, s.procs[i]) ==>
      exists j :: 0 <= j < |s.procs| && s.procs[j].pc.Waking?
  }

  ghost predicate Inv(s: State) {
    Owned(s) && Served(s)
  }

  lemma {:induction false} TotalAt(procs: seq<Proc>, i: nat, p: Proc)
    requires i < |procs|
    ensures TotalHolds(procs[i := p]) == TotalHolds(procs) - procs[i].holds + p.holds
    ensures TotalHolds(procs) >= procs[i].holds
  {
    var after := procs[i := p];
    if i == 0 {
      assert after[1..] == procs[1..];
    } else {
      TotalAt(procs[1..], i - 1, p);
      assert after[1..] == procs[1..][i - 1 := p];
    }
  }

  lemma {:induction false} SameTotal(a: seq<Proc>, b: seq<Proc>)
    requires |a| == |b| && forall i :: 0 <= i < |a| ==> a[i].holds == b[i].holds
    ensures TotalHolds(a) == TotalHolds(b)
  {
    if a != [] {
      SameTotal(a[1..], b[1..]);
    }
  }

  lemma OwnedStep(s: State, i: nat, e: Event)
    requires Owned(s) && Enabled(s, i, e)
    ensures Owned(Step(s, i, e))
  {
    var t := Step(s, i, e);
    if e.Go? && s.procs[i].pc.Waking? {
      SameTotal(s.procs, t.procs);
    } else {
      TotalAt(s.procs, i, t.procs[i]);
    }
    forall j | 0 <= j < |t.procs| && t.procs[j].holds > 0
      ensures Matches(t.owner, t.procs[j])
    {
      TotalAt(s.procs, j, s.procs[j]);
    }
  }

  lemma ServedStep(s: State, i: nat, e: Event)
    requires Inv(s) && Enabled(s, i, e)
    ensures Served(Step(s, i, e))
  {
    var t := Step(s, i, e);
    forall k | 0 <= k < |t.procs| && t.procs[k].pc == Asleep(false) && Available(t, t.procs[k])
      ensures exists j :: 0 <= j < |t.procs| && t.procs[j].pc.Waking?
    {
      if k != i && Available(s, s.procs[k]) {
        var j :| 0 <= j < |s.procs| && s.procs[j].pc.Waking?;
        assert t.procs[j].pc.Waking?;
      } else {
        assert t.procs[i].pc.Waking?;
      }
    }
  }

  // ---- Whole runs ----

  type Trace = seq<(nat, Event)>

  predicate Runs(s: State, trace: Trace)
    decreases |trace|
  {
    trace == [] || (Enabled(s, trace[0].0, trace[0].1) && Runs(Step(s, trace[0].0, trace[0].1), trace[1..]))
  }

  function Final(s: State, trace: Trace): State
    requires Runs(s, trace)
    decreases |trace|
  {
    if trace == [] then s else Final(Step(s, trace[0].0, trace[0].1), trace[1..])
  }

  /** Ownership and service hold after every run, whatever the schedule, the signals and the changes of owner. */
  lemma {:induction false} RunKeepsInv(s: State, trace: Trace)
    requires Inv(s) && Runs(s, trace)
    ensures Inv(Final(s, trace))
    decreases |trace|
  {
    if trace != [] {
      OwnedStep(s, trace[0].0, trace[0].1);
      ServedStep(s, trace[0].0, trace[0].1);
      RunKeepsInv(Step(s, trace[0].0, trace[0].1), trace[1..]);
    }
  }

  lemma {:induction false} InitInv(s: State)
    requires Init(s)
    ensures Inv(s)
    decreases |s.procs|
  {
    if s.procs != [] {
      InitInv(s.(procs := s.procs[1..]));
    }
  }

  /** A waiter nobody is about to wake has a reason to wait: somebody holds the device, and it is not the waiter's. */
  lemma WaitersHaveReason(s: State, trace: Trace, i: nat)
    requires Init(s) && Runs(s, trace) && i < |Final(s, trace).procs|
    requires var t := Final(s, trace);
             t.procs[i].pc == Asleep(false) && forall j :: 0 <= j < |t.procs| ==> !t.procs[j].pc.Waking?
    ensures var t := Final(s, trace);
            && !Matches(t.owner, t.procs[i])
            && exists j :: 0 <= j < |t.procs| && t.procs[j].holds > 0 && Matches(t.owner, t.procs[j])
  {
    InitInv(s);
    RunKeepsInv(s, trace);
    var t := Final(s, trace);
    var j := SomeHolder(t.procs);
  }

  lemma {:induction false} SomeHolder(procs: seq<Proc>) returns (j: nat)
    requires TotalHolds(procs) > 0
    ensures j < |procs| && procs[j].holds > 0
  {
    if procs[0].holds > 0 {
      j := 0;
    } else {
      var k := SomeHolder(procs[1..]);
      j := k + 1;
    }
  }

  /** Within a period of ownership the owner stays; it changes only at an open that finds the device free. */
  lemma OwnerChangesWhenFree(s: State, i: nat, e: Event)
    requires Owned(s) && Enabled(s, i, e) && Step(s, i, e).owner != s.owner
    ensures (forall j :: 0 <= j < |s.procs| ==> s.procs[j].holds == 0) && Step(s, i, e).owner == s.procs[i].uid
  {
    forall j | 0 <= j < |s.procs|
      ensures s.procs[j].holds == 0
    {
      TotalAt(s.procs, j, s.procs[j]);
    }
  }

  /**
   In every reachable state, who takes the spin lock gets the device exactly when nobody has it, it is owned
   by his uid or his euid, or he is capable; otherwise he is turned away, or waits if he may.
   */
  lemma OpensExactly(s: State, trace: Trace, i: nat)
    requires Init(s) && Runs(s, trace) && i < |Final(s, trace).procs| && Final(s, trace).procs[i].pc.Trying?
    ensures var t := Final(s, trace);
            var p, free := t.procs[i], forall j :: 0 <= j < |t.procs| ==> t.procs[j].holds == 0;
            Step(t, i, Go) ==
              if free || t.owner == p.uid || t.owner == p.euid || p.capable then
                State(t.count + 1, if free then p.uid else t.owner, t.procs[i := p.(pc := Outside, holds := p.holds + 1)])
              else State(t.count, t.owner, t.procs[i := p.(pc := if p.pc.nonblock then Outside else Looking)])
  {
    InitInv(s);
    RunKeepsInv(s, trace);
    NobodyHolds(Final(s, trace).procs);
  }

  lemma {:induction false} NobodyHolds(procs: seq<Proc>)
    ensures TotalHolds(procs) == 0 <==> forall j :: 0 <= j < |procs| ==> procs[j].holds == 0
  {
    if procs != [] {
      NobodyHolds(procs[1..]);
      assert procs == [procs[0]] + procs[1..];
    }
  }

  // ---- What an open can rely on ----

  /** The others' steps leave a process where it is: a wake-up marks those on the queue, and that is all. */
  lemma OthersStay(s: State, i: nat, e: Event, j: nat)
    requires Enabled(s, i, e) && j < |s.procs| && j != i
    ensures var was, now := s.procs[j], Step(s, i, e).procs[j];
            now == if e.Go? && s.procs[i].pc.Waking? && was.pc.Checking? then was.(pc := Checking(true))
                   else if e.Go? && s.procs[i].pc.Waking? && was.pc.Asleep? then was.(pc := Asleep(true))
                   else was
  {
  }

  /** A process not under way may open once more, whatever it holds, and may close whatever it holds. */
  lemma CallsAnyTime(s: State, i: nat, nonblock: bool)
    requires i < |s.procs| && s.procs[i].pc.Outside?
    ensures Enabled(s, i, Open(nonblock)) && Step(s, i, Open(nonblock)).procs[i] == s.procs[i].(pc := Trying(nonblock))
    ensures Enabled(s, i, Release) <==> s.procs[i].holds > 0
  {
  }

  /**
   An open under way ends in three ways: on a signal while it waits, with EAGAIN if it must not wait, or
   with the device.  One that may wait may do so again.
   */
  lemma OpenEndsExactly(s: State, i: nat, e: Event)
    requires Enabled(s, i, e) && !s.procs[i].pc.Outside? && !s.procs[i].pc.Waking?
    ensures var p, t := s.procs[i], Step(s, i, e);
            var gets := e.Go? && p.pc.Trying? && (s.count == 0 || s.owner == p.uid || s.owner == p.euid || p.capable);
            && (t.procs[i].pc.Outside? <==> gets || e.Signal? || (e.Go? && p.pc.Trying? && p.pc.nonblock))
            && (t.procs[i].holds > p.holds <==> gets)
            && (!gets ==> t.count == s.count && t.owner == s.owner && t.procs[i].holds == p.holds)
            && (t.procs[i].pc.Trying? ==> !t.procs[i].pc.nonblock)
    ensures s.procs[i].pc.Checking? || s.procs[i].pc.Asleep? ==> Enabled(s, i, Signal)
    ensures s.procs[i].pc.Asleep? ==> Enabled(s, i, Spurious) && Step(s, i, Spurious).procs[i].pc.Joining?
  {
  }

  /** So many steps of one process. */
  function Alone(i: nat, n: nat): Trace {
    if n == 0 then [] else [(i, Go)] + Alone(i, n - 1)
  }

  /** The steps from where an open waits to the device, if it finds it free or its own. */
  function StepsToOpen(pc: Pc): nat {
    match pc
    case Trying(_) => 1
    case Looking => 2
    case Checking(_) => 2
    case Joining => 3
    case Asleep(_) => 4
    case _ => 0
  }

  /**
   An open gets through in its own steps as soon as the device is free or its own, from wherever it waits,
   if a wake-up has reached it.
   */
  lemma {:induction false} OpenerGetsThrough(s: State, i: nat)
    requires i < |s.procs| && StepsToOpen(s.procs[i].pc) > 0 && (s.procs[i].pc.Asleep? ==> s.procs[i].pc.woken)
    requires s.count == 0 || s.owner == s.procs[i].uid || s.owner == s.procs[i].euid || s.procs[i].capable
    ensures var p, trace := s.procs[i], Alone(i, StepsToOpen(s.procs[i].pc));
            && Runs(s, trace)
            && Final(s, trace) == State(s.count + 1, if s.count == 0 then p.uid else s.owner, s.procs[i := p.(pc := Outside, holds := p.holds + 1)])
    decreases StepsToOpen(s.procs[i].pc)
  {
    var n := StepsToOpen(s.procs[i].pc);
    var t := Step(s, i, Go);
    assert Alone(i, n)[1..] == Alone(i, n - 1);
    if n > 1 {
      assert StepsToOpen(t.procs[i].pc) == n - 1;
      OpenerGetsThrough(t, i);
    } else {
      assert Runs(t, Alone(i, 0)) && Final(t, Alone(i, 0)) == t;
    }
  }

  // ---- Why the condition is looked at again ----

  lemma {:induction false} Extend(s: State, trace: Trace, i: nat, e: Event)
    requires Runs(s, trace) && Enabled(Final(s, trace), i, e)
    ensures Runs(s, trace + [(i, e)]) && Final(s, trace + [(i, e)]) == Step(Final(s, trace), i, e)
    decreases |trace|
  {
    var longer := trace + [(i, e)];
    if trace == [] {
      assert longer[1..] == [];
    } else {
      Extend(Step(s, trace[0].0, trace[0].1), trace[1..], i, e);
      assert longer[1..] == trace[1..] + [(i, e)];
    }
  }

  /** One process has the device, and another has been turned away and is about to join the queue. */
  lemma TurnedAway(s: State) returns (trace: Trace)
    requires Init(s) && |s.procs| == 2 && !Matches(s.procs[0].uid, s.procs[1])
    ensures Runs(s, trace)
    ensures var t := Final(s, trace);
            && t.procs == [s.procs[0].(holds := 1), s.procs[1].(pc := Joining)]
            && t.count == 1 && t.owner == s.procs[0].uid
  {
    assert Runs(s, []) && Final(s, []) == s;
    Extend(s, [], 0, Open(false));
    trace := [] + [(0, Open(false))];
    Extend(s, trace, 0, Go);
    trace := trace + [(0, Go)];
    Extend(s, trace, 1, Open(false));
    trace := trace + [(1, Open(false))];
    Extend(s, trace, 1, Go);
    trace := trace + [(1, Go)];
    Extend(s, trace, 1, Go);
    trace := trace + [(1, Go)];
  }

  /**
   The release and its wake-up fit between the dropping of the spin lock and the joining of the queue.  If
   the opener now slept, it would sleep at a free device, and nobody would be about to wake it; as it is,
   it looks again and goes on.
   */
  lemma OpenerMustLookAgain(s: State) returns (trace: Trace)
    requires Init(s) && |s.procs| == 2 && !Matches(s.procs[0].uid, s.procs[1])
    ensures Runs(s, trace) && Inv(Final(s, trace))
    ensures var t := Final(s, trace);
            && t.procs == [s.procs[0], s.procs[1].(pc := Checking(false))]
            && !Served(Put(t, 1, s.procs[1].(pc := Asleep(false))))
            && Enabled(t, 1, Go) && Step(t, 1, Go).procs[1].pc == Trying(false)
  {
    trace := TurnedAway(s);
    Extend(s, trace, 0, Release);
    trace := trace + [(0, Release)];
    Extend(s, trace, 0, Go);
    trace := trace + [(0, Go)];
    Extend(s, trace, 1, Go);
    trace := trace + [(1, Go)];
    InitInv(s);
    RunKeepsInv(s, trace);
    var t := Final(s, trace);
    var parked := Put(t, 1, s.procs[1].(pc := Asleep(false)));
    assert parked.procs[1].pc == Asleep(false) && Available(parked, parked.procs[1]);
    assert forall j :: 0 <= j < |parked.procs| ==> !parked.procs[j].pc.Waking?;
  }
}
