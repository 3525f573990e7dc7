/**
 The simulated removable medium of the block driver (sbull/sbull.c:163-222): open, release, the delayed
 invalidation and the wiping of the contents, with any number of processes interleaved.  An open deletes
 the timer first and takes the lock afterwards, as two steps.
 */
module SbullMedia {
  import opened Bytes

  /** Opening: has deleted the timer and is about to take the lock. */
  datatype Proc = Proc(opening: bool, holds: nat)

  /** `firing` counts expiries whose handler has yet to take the lock. */
  datatype State = State(users: int, mediaChange: bool, pending: bool, firing: nat, data: seq<Byte>, procs: seq<Proc>)

  datatype Event =
    | DeleteTimer(i: nat)
    | LockedOpen(i: nat)
    | Release(i: nat)
    | Write(i: nat, data: seq<Byte>)
    | Expire
    | Invalidate

  predicate Enabled(s: State, e: Event) {
    match e
    case DeleteTimer(i) => i < |s.procs| && !s.procs[i].opening && s.firing == 0
    case LockedOpen(i) => i < |s.procs| && s.procs[i].opening
    case Release(i) => i < |s.procs| && !s.procs[i].opening && s.procs[i].holds > 0
    case Write(i, data) => i < |s.procs| && s.procs[i].holds > 0 && |data| == |s.data|
    case Expire => s.pending
    case Invalidate => s.firing > 0
  }

  function Zeros(n: nat): (r: seq<Byte>)
    ensures |r| == n && forall k :: 0 <= k < n ==> r[k] == 0
  {
    seq(n, _ => 0)
  }

  /** `check_disk_change`: `sbull_media_changed`, then `sbull_revalidate`. */
  function CheckDiskChange(s: State): State {
    if s.mediaChange then s.(mediaChange := false, data := Zeros(|s.data|)) else s
  }

  function Step(s: State, e: Event): State
    requires Enabled(s, e)
  {
    match e
    case DeleteTimer(i) => s.(pending := false, procs := s.procs[i := s.procs[i].(opening := true)])
    case LockedOpen(i) =>
      var t := if s.users == 0 then CheckDiskChange(s) else s;
      t.(users := t.users + 1, procs := t.procs[i := Proc(false, t.procs[i].holds + 1)])
    case Release(i) =>
      s.(users := s.users - 1, pending := s.pending || s.users - 1 == 0,
         procs := s.procs[i := s.procs[i].(holds := s.procs[i].holds - 1)])
    case Write(_, data) => s.(data := data)
    case Expire => s.(pending := false, firing := s.firing + 1)
    case Invalidate => s.(firing := s.firing - 1, mediaChange := s.mediaChange || s.users == 0)
  }

  ghost predicate Init(s: State) {
    && s.users == 0 && !s.mediaChange && !s.pending && s.firing == 0
    && forall i :: 0 <= i < |s.procs| ==> s.procs[i] == Proc(false, 0)
  }

  // ---- What every state keeps ----

  function TotalHolds(procs: seq<Proc>): nat {
    if procs == [] then 0 else procs[0].holds + TotalHolds(procs[1..])
  }

  /** The users are those who hold the device, and no change of medium is pending under them. */
  predicate Inv(s: State) {
    s.users == TotalHolds(s.procs) && (s.users > 0 ==> !s.mediaChange)
  }

  lemma {:induction false} TotalAt(procs: seq<Proc>, i: nat, p: Proc)
    requires i < |procs|
    ensures TotalHolds(procs[i := p]) == TotalHolds(procs) - procs[i].holds + p.holds
    ensures TotalHolds(procs) >= procs[i].holds
  {
    var after := procs[i := p];
    if i == 0 {
      assert after[1..] == procs[1..];
    } else {
      TotalAt(procs[1..], i - 1, p);
      assert after[1..] == procs[1..][i - 1 := p];
    }
  }

  lemma StepKeepsInv(s: State, e: Event)
    requires Inv(s) && Enabled(s, e)
    ensures Inv(Step(s, e))
  {
    if e.DeleteTimer? || e.LockedOpen? || e.Release? {
      TotalAt(s.procs, e.i, Step(s, e).procs[e.i]);
    }
  }

  lemma {:induction false} InitInv(s: State)
    requires Init(s)
    ensures Inv(s)
    decreases |s.procs|
  {
    if s.procs != [] {
      InitInv(s.(procs := s.procs[1..]));
    }
  }

  // ---- Whole runs ----

  predicate Runs(s: State, trace: seq<Event>)
    decreases |trace|
  {
    trace == [] || (Enabled(s, trace[0]) && Runs(Step(s, trace[0]), trace[1..]))
  }

  function Final(s: State, trace: seq<Event>): State
    requires Runs(s, trace)
    decreases |trace|
  {
    if trace == [] then s else Final(Step(s, trace[0]), trace[1..])
  }

  lemma {:induction false} RunKeepsInv(s: State, trace: seq<Event>)
    requires Inv(s) && Runs(s, trace)
    ensures Inv(Final(s, trace))
    decreases |trace|
  {
    if trace != [] {
      StepKeepsInv(s, trace[0]);
      RunKeepsInv(Step(s, trace[0]), trace[1..]);
    }
  }

  /** In every reachable state a user means that no change of medium is pending. */
  lemma NoChangeUnderUsers(s: State, trace: seq<Event>)
    requires Init(s) && Runs(s, trace)
    ensures var t := Final(s, trace); t.users == TotalHolds(t.procs) && (t.users > 0 ==> !t.mediaChange)
  {
    InitInv(s);
    RunKeepsInv(s, trace);
  }

  /** In every reachable state whoever may write is a user, and no change of medium is about to wipe what he writes. */
  lemma WritersAreUsers(s: State, trace: seq<Event>, i: nat, data: seq<Byte>)
    requires Init(s) && Runs(s, trace) && Enabled(Final(s, trace), Write(i, data))
    ensures Final(s, trace).users > 0 && !Final(s, trace).mediaChange
  {
    NoChangeUnderUsers(s, trace);
    var t := Final(s, trace);
    TotalAt(t.procs, i, t.procs[i]);
  }

  /** The contents after some writes, in order. */
  function Overwritten(data: seq<Byte>, trace: seq<Event>): seq<Byte>
    decreases |trace|
  {
    if trace == [] then data else Overwritten(if trace[0].Write? then trace[0].data else data, trace[1..])
  }

  /** While a process keeps the device open, only writes change the contents, however the others come and go. */
  lemma {:induction false} HeldContentsSafe(s: State, trace: seq<Event>, i: nat)
    requires Inv(s) && Runs(s, trace) && i < |s.procs| && s.procs[i].holds > 0
    requires forall k :: 0 <= k < |trace| ==> trace[k] != Release(i)
    ensures Final(s, trace).data == Overwritten(s.data, trace)
    decreases |trace|
  {
    if trace != [] {
      StepKeepsInv(s, trace[0]);
      TotalAt(s.procs, i, s.procs[i]);
      HeldContentsSafe(Step(s, trace[0]), trace[1..], i);
    }
  }

  // ---- What a wipe presupposes ----

  predicate Unused(s: State, trace: seq<Event>)
    requires Runs(s, trace)
    decreases |trace|
  {
    s.users == 0 && (trace == [] || Unused(Step(s, trace[0]), trace[1..]))
  }

  lemma {:induction false} RunsOn(s: State, a: seq<Event>, e: Event)
    requires Runs(s, a) && Enabled(Final(s, a), e)
    ensures Runs(s, a + [e]) && Final(s, a + [e]) == Step(Final(s, a), e)
    decreases |a|
  {
    if a == [] {
      assert [e][1..] == [] && a + [e] == [e];
      assert Runs(Step(s, e), []);
    } else {
      RunsOn(Step(s, a[0]), a[1..], e);
      assert (a + [e])[1..] == a[1..] + [e];
    }
  }

  lemma {:induction false} RunsSplit(s: State, a: seq<Event>, b: seq<Event>)
    requires Runs(s, a + b)
    ensures Runs(s, a) && Runs(Final(s, a), b) && Final(s, a + b) == Final(Final(s, a), b)
    decreases |a|
  {
    if a == [] {
      assert a + b == b;
    } else {
      assert (a + b)[1..] == a[1..] + b;
      RunsSplit(Step(s, a[0]), a[1..], b);
    }
  }

  lemma {:induction false} UnusedOn(s: State, a: seq<Event>, e: Event)
    requires Runs(s, a) && Unused(s, a) && Enabled(Final(s, a), e) && Step(Final(s, a), e).users == 0
    ensures Runs(s, a + [e]) && Unused(s, a + [e])
    decreases |a|
  {
    RunsOn(s, a, e);
    if a == [] {
      assert [e][1..] == [] && a + [e] == [e];
      assert Unused(Step(s, e), []);
    } else {
      UnusedOn(Step(s, a[0]), a[1..], e);
      assert (a + [e])[1..] == a[1..] + [e];
    }
  }

  /**
   Whenever a change of medium is pending, an invalidation found no users, and from then on there have
   been none: `before` is the run up to it, `after` what followed.
   */
  lemma {:induction false} ChangeHasCause(s: State, trace: seq<Event>) returns (before: seq<Event>, after: seq<Event>)
    requires Init(s) && Runs(s, trace) && Final(s, trace).mediaChange
    ensures trace == before + [Invalidate] + after
    ensures Runs(s, before) && Enabled(Final(s, before), Invalidate) && Final(s, before).users == 0
    ensures var t := Step(Final(s, before), Invalidate); Runs(t, after) && Final(t, after) == Final(s, trace) && Unused(t, after)
    decreases |trace|
  {
    InitInv(s);
    var prior, e := trace[..|trace| - 1], trace[|trace| - 1];
    assert trace == prior + [e];
    RunsSplit(s, prior, [e]);
    RunKeepsInv(s, prior);
    var u := Final(s, prior);
    assert [e][1..] == [];
    assert Final(u, [e]) == Step(u, e);
    RunsOn(s, prior, e);
    if u.mediaChange {
      before, after := ChangeHasCause(s, prior);
      var t := Step(Final(s, before), Invalidate);
      StepKeepsInv(u, e);
      UnusedOn(t, after, e);
      RunsOn(t, after, e);
      after := after + [e];
    } else {
      before, after := prior, [];
    }
  }

  /** Hence no data is lost except at an open that follows such an invalidation with nobody in between. */
  lemma LossHasCause(s: State, trace: seq<Event>, e: Event) returns (before: seq<Event>, after: seq<Event>)
    requires Init(s) && Runs(s, trace) && Enabled(Final(s, trace), e)
    requires !e.Write? && Step(Final(s, trace), e).data != Final(s, trace).data
    ensures e.LockedOpen? && Step(Final(s, trace), e).data == Zeros(|s.data|)
    ensures trace == before + [Invalidate] + after
    ensures Runs(s, before) && Enabled(Final(s, before), Invalidate) && Final(s, before).users == 0
    ensures var t := Step(Final(s, before), Invalidate); Runs(t, after) && Unused(t, after)
  {
    before, after := ChangeHasCause(s, trace);
    SameSize(s, trace);
  }

  lemma {:induction false} ChangeStays(t: State, after: seq<Event>)
    requires t.mediaChange && Runs(t, after) && Unused(t, after)
    ensures Final(t, after).mediaChange && Final(t, after).users == 0
    decreases |after|
  {
    if after != [] {
      ChangeStays(Step(t, after[0]), after[1..]);
    }
  }

  /** Conversely, an invalidation that finds no users takes the contents from whoever opens next, however long that takes. */
  lemma NextOpenWipes(s: State, after: seq<Event>, i: nat)
    requires Enabled(s, Invalidate) && s.users == 0
    requires var t := Step(s, Invalidate); Runs(t, after) && Unused(t, after) && Enabled(Final(t, after), LockedOpen(i))
    ensures var u := Final(Step(s, Invalidate), after);
            && |Step(u, LockedOpen(i)).data| == |s.data|
            && forall k :: 0 <= k < |s.data| ==> Step(u, LockedOpen(i)).data[k] == 0
  {
    ChangeStays(Step(s, Invalidate), after);
    SameSize(Step(s, Invalidate), after);
  }

  // ---- The timer ----

  /** A timer is pending only since the close of the last user, with no expiry and no deletion after that. */
  lemma {:induction false} PendingHasCause(s: State, trace: seq<Event>) returns (before: seq<Event>, i: nat, after: seq<Event>)
    requires Init(s) && Runs(s, trace) && Final(s, trace).pending
    ensures trace == before + [Release(i)] + after && Runs(s, before) && Final(s, before).users == 1
    ensures forall k :: 0 <= k < |after| ==> !after[k].DeleteTimer? && !after[k].Expire?
    decreases |trace|
  {
    InitInv(s);
    var prior, e := trace[..|trace| - 1], trace[|trace| - 1];
    assert trace == prior + [e];
    RunsSplit(s, prior, [e]);
    RunKeepsInv(s, prior);
    var u := Final(s, prior);
    assert [e][1..] == [];
    assert Final(u, [e]) == Step(u, e);
    if e.Release? && u.users == 1 {
      before, i, after := prior, e.i, [];
    } else {
      before, i, after := PendingHasCause(s, prior);
      after := after + [e];
    }
  }

  lemma {:induction false} PendingStays(s: State, trace: seq<Event>)
    requires s.pending && Runs(s, trace)
    requires forall k :: 0 <= k < |trace| ==> !trace[k].DeleteTimer? && !trace[k].Expire?
    ensures Final(s, trace).pending
    decreases |trace|
  {
    if trace != [] {
      PendingStays(Step(s, trace[0]), trace[1..]);
    }
  }

  /**
   And the close of the last user starts it: until it expires or is deleted it stays pending, and when it
   expires the handler runs, which takes the medium out if nobody has opened it since.
   */
  lemma LastCloseStartsTimer(s: State, i: nat, after: seq<Event>)
    requires Enabled(s, Release(i)) && s.users == 1 && Runs(Step(s, Release(i)), after)
    requires forall k :: 0 <= k < |after| ==> !after[k].DeleteTimer? && !after[k].Expire?
    ensures var t := Final(Step(s, Release(i)), after);
            && t.pending && Enabled(t, Expire) && Enabled(Step(t, Expire), Invalidate)
            && (t.users == 0 ==> Step(Step(t, Expire), Invalidate).mediaChange)
  {
    PendingStays(Step(s, Release(i)), after);
  }

  function Count(trace: seq<Event>, e: Event): nat {
    if trace == [] then 0 else (if trace[0] == e then 1 else 0) + Count(trace[1..], e)
  }

  /** Every expiry is followed by one invalidation, sooner or later. */
  lemma {:induction false} ExpiriesInvalidate(s: State, trace: seq<Event>)
    requires Runs(s, trace)
    ensures s.firing + Count(trace, Expire) == Final(s, trace).firing + Count(trace, Invalidate)
    decreases |trace|
  {
    if trace != [] {
      ExpiriesInvalidate(Step(s, trace[0]), trace[1..]);
    }
  }

  /** An open deletes the timer only when no handler is running: every expiry so far has had its invalidation. */
  lemma DeletionWaits(s: State, trace: seq<Event>, i: nat)
    requires Init(s) && Runs(s, trace) && Enabled(Final(s, trace), DeleteTimer(i))
    ensures Count(trace, Expire) == Count(trace, Invalidate)
    ensures !Step(Final(s, trace), DeleteTimer(i)).pending
  {
    ExpiriesInvalidate(s, trace);
  }

  lemma {:induction false} SameSize(s: State, trace: seq<Event>)
    requires Runs(s, trace)
    ensures |Final(s, trace).data| == |s.data|
    decreases |trace|
  {
    if trace != [] {
      SameSize(Step(s, trace[0]), trace[1..]);
    }
  }

  // ---- What the unlocked deletion allows ----

  /** One process opens and closes between the two halves of another's open. */
  function Gap(): seq<Event> {
    [DeleteTimer(0), LockedOpen(0), DeleteTimer(1), Release(0), LockedOpen(1)]
  }

  /**
   The deletion comes before the lock, so a timer can be pending under a user.  If it fires there the
   handler only complains; and if the user closes first, `add_timer` is called on a timer already pending.
   */
  lemma TimerUnderUser(s: State)
    requires Init(s) && |s.procs| == 2
    ensures Runs(s, Gap())
    ensures var t := Final(s, Gap());
            && t.users == 1 && t.pending && t.procs[1].holds == 1
            && Enabled(t, Release(1)) && Step(t, Release(1)).users == 0
  {
    var a := Step(s, DeleteTimer(0));
    var b := Step(a, LockedOpen(0));
    var c := Step(b, DeleteTimer(1));
    var d := Step(c, Release(0));
    var e := Step(d, LockedOpen(1));
    var gap := Gap();
    assert gap[1..] == [LockedOpen(0), DeleteTimer(1), Release(0), LockedOpen(1)];
    assert gap[1..][1..] == [DeleteTimer(1), Release(0), LockedOpen(1)];
    assert gap[1..][1..][1..] == [Release(0), LockedOpen(1)];
    assert gap[1..][1..][1..][1..] == [LockedOpen(1)];
    assert gap[1..][1..][1..][1..][1..] == [];
    assert Runs(e, []) && Runs(d, [LockedOpen(1)]) && Runs(c, [Release(0), LockedOpen(1)]);
    assert Runs(b, [DeleteTimer(1), Release(0), LockedOpen(1)]);
  }
}
