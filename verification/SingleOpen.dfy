/**
 The device that only one process may have open (scull/access.c:23-49), with its atomic decrement and
 its compensating increment as separate steps.  `scull_u_open` (line 70) hands out the same device, so
 its openers appear here as guests.
 */
module SingleOpen {

  /** Failed: has decremented in vain and is about to increment again. */
  datatype Pc = Outside | Failed | Holder | Guest

  /** `count` and `owner` are those of the `sculluid` device, `who` the processes. */
  datatype State = State(available: int, count: int, owner: nat, who: seq<Credentials>, procs: seq<Pc>)

  datatype Credentials = Credentials(uid: nat, euid: nat, capable: bool)

  datatype Event = Decrement | Increment | Release | GuestOpen | GuestRelease

  predicate Enabled(s: State, i: nat, e: Event) {
    i < |s.procs| == |s.who| &&
    match e
    case Decrement => s.procs[i].Outside?
    case Increment => s.procs[i].Failed?
    case Release => s.procs[i].Holder?
    case GuestOpen => s.procs[i].Outside?
    case GuestRelease => s.procs[i].Guest?
  }

  /** The test of lines 72-75, turned round: the `sculluid` device is free, or the process matches its owner. */
  predicate Admitted(s: State, who: Credentials) {
    s.count == 0 || s.owner == who.uid || s.owner == who.euid || who.capable
  }

  function Step(s: State, i: nat, e: Event): State
    requires Enabled(s, i, e)
  {
    match e
    case Decrement => s.(available := s.available - 1, procs := s.procs[i := if s.available - 1 == 0 then Holder else Failed])
    case Increment => s.(available := s.available + 1, procs := s.procs[i := Outside])
    case Release => s.(available := s.available + 1, procs := s.procs[i := Outside])
    case GuestOpen =>
      if !Admitted(s, s.who[i]) then s
      else s.(owner := if s.count == 0 then s.who[i].uid else s.owner, count := s.count + 1, procs := s.procs[i := Guest])
    case GuestRelease => s.(count := s.count - 1, procs := s.procs[i := Outside])
  }

  ghost predicate Init(s: State) {
    s.available == 1 && s.count == 0 && |s.who| == |s.procs| && forall i :: 0 <= i < |s.procs| ==> s.procs[i].Outside?
  }

  predicate Counts(pc: Pc) {
    pc.Failed? || pc.Holder?
  }

  /** Holders, and openers whose increment is still to come. */
  function Taken(procs: seq<Pc>): nat {
    if procs == [] then 0 else (if Counts(procs[0]) then 1 else 0) + Taken(procs[1..])
  }

  ghost predicate Inv(s: State) {
    && s.available == 1 - Taken(s.procs)
    && forall i, j :: 0 <= i < |s.procs| && 0 <= j < |s.procs| && s.procs[i].Holder? && s.procs[j].Holder? ==> i == j
  }

  lemma {:induction false} TakenAt(procs: seq<Pc>, i: nat, pc: Pc)
    requires i < |procs|
    ensures Taken(procs[i := pc]) == Taken(procs) - (if Counts(procs[i]) then 1 else 0) + (if Counts(pc) then 1 else 0)
    ensures Counts(procs[i]) ==> Taken(procs) > 0
  {
    var after := procs[i := pc];
    if i == 0 {
      assert after[1..] == procs[1..];
    } else {
      TakenAt(procs[1..], i - 1, pc);
      assert after[1..] == procs[1..][i - 1 := pc];
    }
  }

  lemma StepKeepsInv(s: State, i: nat, e: Event)
    requires Inv(s) && Enabled(s, i, e)
    ensures Inv(Step(s, i, e))
  {
    TakenAt(s.procs, i, Step(s, i, e).procs[i]);
    forall j | 0 <= j < |s.procs| && s.procs[j].Holder?
      ensures Taken(s.procs) > 0
    {
      TakenAt(s.procs, j, Holder);
    }
  }

  lemma {:induction false} NobodyCounts(procs: seq<Pc>)
    ensures Taken(procs) == 0 <==> forall i :: 0 <= i < |procs| ==> !Counts(procs[i])
  {
    if procs != [] {
      NobodyCounts(procs[1..]);
      assert procs == [procs[0]] + procs[1..];
    }
  }

  type Trace = seq<(nat, Event)>

  predicate Runs(s: State, trace: Trace)
    decreases |trace|
  {
    trace == [] || (Enabled(s, trace[0].0, trace[0].1) && Runs(Step(s, trace[0].0, trace[0].1), trace[1..]))
  }

  function Final(s: State, trace: Trace): State
    requires Runs(s, trace)
    decreases |trace|
  {
    if trace == [] then s else Final(Step(s, trace[0].0, trace[0].1), trace[1..])
  }

  lemma {:induction false} RunKeepsInv(s: State, trace: Trace)
    requires Inv(s) && Runs(s, trace)
    ensures Inv(Final(s, trace))
    decreases |trace|
  {
    if trace != [] {
      StepKeepsInv(s, trace[0].0, trace[0].1);
      RunKeepsInv(Step(s, trace[0].0, trace[0].1), trace[1..]);
    }
  }

  /**
   After any interleaving at most one process holds the device, and when no open is half done the counter
   is 1 exactly when nobody does.
   */
  lemma AtMostOneHolder(s: State, trace: Trace)
    requires Init(s) && Runs(s, trace)
    ensures var t := Final(s, trace);
            && t.available == 1 - Taken(t.procs)
            && (forall i, j :: 0 <= i < |t.procs| && 0 <= j < |t.procs| && t.procs[i].Holder? && t.procs[j].Holder? ==> i == j)
            && ((forall i :: 0 <= i < |t.procs| ==> !t.procs[i].Failed?) ==>
                  (t.available == 1 <==> forall i :: 0 <= i < |t.procs| ==> !t.procs[i].Holder?))
  {
    NobodyCounts(s.procs);
    RunKeepsInv(s, trace);
    NobodyCounts(Final(s, trace).procs);
  }

  /**
   In every reachable state an open of the single-open device succeeds exactly when no process holds it or
   is still to increment after an open that failed.
   */
  lemma HolderExactly(s: State, trace: Trace, i: nat)
    requires Init(s) && Runs(s, trace) && Enabled(Final(s, trace), i, Decrement)
    ensures var t := Final(s, trace);
            Step(t, i, Decrement).procs ==
              if forall j :: 0 <= j < |t.procs| ==> !t.procs[j].Holder? && !t.procs[j].Failed? then t.procs[i := Holder]
              else t.procs[i := Failed]
  {
    NobodyCounts(s.procs);
    RunKeepsInv(s, trace);
    NobodyCounts(Final(s, trace).procs);
  }

  lemma TwoSteps(s: State, i: nat, a: Event, b: Event)
    requires Enabled(s, i, a) && Enabled(Step(s, i, a), i, b)
    ensures Runs(s, [(i, a), (i, b)]) && Final(s, [(i, a), (i, b)]) == Step(Step(s, i, a), i, b)
  {
    var t := Step(s, i, a);
    var u := Step(t, i, b);
    var rest: Trace := [(i, b)];
    assert [(i, a), (i, b)][1..] == rest;
    assert rest[1..] == [];
    assert Runs(u, []) && Runs(t, rest);
    assert Final(u, []) == u && Final(t, rest) == u;
  }

  /** An open that fails undoes itself, and a close undoes an open, in every state: the counter and the processes are as before. */
  lemma OpensAreUndone(s: State, i: nat)
    requires i < |s.procs| == |s.who| && s.procs[i].Outside?
    ensures var trace := if s.available == 1 then [(i, Decrement), (i, Release)] else [(i, Decrement), (i, Increment)];
            Runs(s, trace) && Final(s, trace) == s
    ensures Admitted(s, s.who[i]) ==>
              var trace := [(i, GuestOpen), (i, GuestRelease)];
              Runs(s, trace) && Final(s, trace) == s.(owner := if s.count == 0 then s.who[i].uid else s.owner)
  {
    var a := Step(s, i, Decrement);
    TwoSteps(s, i, Decrement, if s.available == 1 then Release else Increment);
    assert a.procs[i := Outside] == s.procs;
    if Admitted(s, s.who[i]) {
      var b := Step(s, i, GuestOpen);
      TwoSteps(s, i, GuestOpen, GuestRelease);
      assert b.procs[i := Outside] == s.procs;
    }
  }

  // ---- Guests ----

  function Guests(procs: seq<Pc>): nat {
    if procs == [] then 0 else (if procs[0].Guest? then 1 else 0) + Guests(procs[1..])
  }

  lemma {:induction false} GuestsAt(procs: seq<Pc>, i: nat, pc: Pc)
    requires i < |procs|
    ensures Guests(procs[i := pc]) == Guests(procs) - (if procs[i].Guest? then 1 else 0) + (if pc.Guest? then 1 else 0)
  {
    var after := procs[i := pc];
    if i == 0 {
      assert after[1..] == procs[1..];
    } else {
      GuestsAt(procs[1..], i - 1, pc);
      assert after[1..] == procs[1..][i - 1 := pc];
    }
  }

  lemma {:induction false} NoGuests(procs: seq<Pc>)
    ensures Guests(procs) == 0 <==> forall i :: 0 <= i < |procs| ==> !procs[i].Guest?
  {
    if procs != [] {
      NoGuests(procs[1..]);
      assert procs == [procs[0]] + procs[1..];
    }
  }

  /** The count of the `sculluid` device is the number of its opens. */
  lemma {:induction false} CountsGuests(s: State, trace: Trace)
    requires s.count == Guests(s.procs) && Runs(s, trace)
    ensures Final(s, trace).count == Guests(Final(s, trace).procs)
    decreases |trace|
  {
    if trace != [] {
      var t := Step(s, trace[0].0, trace[0].1);
      GuestsAt(s.procs, trace[0].0, t.procs[trace[0].0]);
      CountsGuests(t, trace[1..]);
    }
  }

  /**
   In every reachable state a `sculluid` open succeeds exactly when there is no other, it is owned by his
   uid or euid, or the opener is capable; the single-open device's counter does not matter to it.
   */
  lemma GuestExactly(s: State, trace: Trace, i: nat)
    requires Init(s) && Runs(s, trace) && Enabled(Final(s, trace), i, GuestOpen)
    ensures var t := Final(s, trace);
            var who, free := t.who[i], forall j :: 0 <= j < |t.procs| ==> !t.procs[j].Guest?;
            Step(t, i, GuestOpen) ==
              if free || t.owner == who.uid || t.owner == who.euid || who.capable then
                State(t.available, t.count + 1, if free then who.uid else t.owner, t.who, t.procs[i := Guest])
              else t
  {
    NoGuests(s.procs);
    CountsGuests(s, trace);
    NoGuests(Final(s, trace).procs);
  }

  /** At most one open of the device, by whatever way. */
  ghost predicate Exclusive(s: State) {
    forall i, j :: 0 <= i < |s.procs| && 0 <= j < |s.procs| && Has(s.procs[i]) && Has(s.procs[j]) ==> i == j
  }

  predicate Has(pc: Pc) {
    pc.Holder? || pc.Guest?
  }

  predicate Open(s: State) {
    exists i :: 0 <= i < |s.procs| && Has(s.procs[i])
  }

  /** A guest, admitted by the rules of its own device, that finds this one open; or a holder that finds a guest. */
  predicate Breaks(s: State, i: nat, e: Event)
    requires Enabled(s, i, e)
  {
    match e
    case GuestOpen => Admitted(s, s.who[i]) && Open(s)
    case Decrement => s.available == 1 && Open(s)
    case _ => false
  }

  /**
   The counter alone does not make the device exclusive: a step keeps it so exactly when it is neither an
   admitted `sculluid` open of the device while it is open, nor a successful open while a guest has it.
   */
  lemma ExclusiveExactly(s: State, i: nat, e: Event)
    requires Inv(s) && Exclusive(s) && Enabled(s, i, e)
    ensures Exclusive(Step(s, i, e)) <==> !Breaks(s, i, e)
  {
    var t := Step(s, i, e);
    if Breaks(s, i, e) {
      var j :| 0 <= j < |s.procs| && Has(s.procs[j]);
      assert Has(t.procs[j]) && Has(t.procs[i]) && i != j;
    } else if (e.GuestOpen? && Admitted(s, s.who[i])) || (e.Decrement? && s.available == 1) {
      assert forall j :: 0 <= j < |t.procs| && Has(t.procs[j]) ==> j == i;
    } else {
      assert forall j :: 0 <= j < |t.procs| && Has(t.procs[j]) ==> Has(s.procs[j]);
    }
  }

  predicate NoBreak(s: State, trace: Trace)
    requires Runs(s, trace)
    decreases |trace|
  {
    trace == [] || (!Breaks(s, trace[0].0, trace[0].1) && NoBreak(Step(s, trace[0].0, trace[0].1), trace[1..]))
  }

  ghost predicate AlwaysExclusive(s: State, trace: Trace)
    requires Runs(s, trace)
    decreases |trace|
  {
    Exclusive(s) && (trace == [] || AlwaysExclusive(Step(s, trace[0].0, trace[0].1), trace[1..]))
  }

  lemma {:induction false} RunExclusiveExactly(s: State, trace: Trace)
    requires Inv(s) && Exclusive(s) && Runs(s, trace)
    ensures AlwaysExclusive(s, trace) <==> NoBreak(s, trace)
    decreases |trace|
  {
    if trace != [] {
      var t := Step(s, trace[0].0, trace[0].1);
      ExclusiveExactly(s, trace[0].0, trace[0].1);
      StepKeepsInv(s, trace[0].0, trace[0].1);
      if Exclusive(t) {
        RunExclusiveExactly(t, trace[1..]);
      }
    }
  }

  /** A holder and a guest at the same time. */
  lemma GuestJoinsHolder(s: State)
    requires Init(s) && |s.procs| == 2
    ensures var trace := [(0, Decrement), (1, GuestOpen)];
            Runs(s, trace) && Final(s, trace).procs == [Holder, Guest]
  {
    var trace := [(0, Decrement), (1, GuestOpen)];
    var t := Step(s, 0, Decrement);
    var u := Step(t, 1, GuestOpen);
    var rest := trace[1..];
    assert rest == [(1, GuestOpen)];
    assert rest[1..] == [];
    assert Runs(u, []) && Runs(t, rest);
    assert u.procs == [Holder, Guest];
  }
}
