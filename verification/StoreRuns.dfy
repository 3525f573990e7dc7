/** Whole sequences of calls on a scull device: loops of short writes and reads, and arbitrary histories. */
module StoreRuns {
  import opened Bytes
  import opened QuantumStore
  import opened StoreFile

  // ---- A caller that writes, or reads, until it is done ----

  /** A way to write at an offset, and a way to read. */
  type Writer = (Store, nat, seq<Byte>) -> (Store, Outcome)
  type Reader = (Store, nat, nat) -> (Store, Outcome, seq<Byte>)

  /** `scull_write` with the memory it needs; `stale` is what the bytes of a new block hold. */
  function ScullWriter(stale: nat -> Byte): Writer {
    (st: Store, p: nat, data: seq<Byte>) =>
      Write(st, st.geo, p, data, Env(Needed(st, Locate(st.geo, p)), seq(st.geo.quantum, i requires i >= 0 => stale(i)), None))
  }

  /** `scull_read` with memory for `mem` list items. */
  function ScullReader(mem: nat): Reader {
    (st: Store, p: nat, count: nat) => Read(st, st.geo, p, count, mem, false)
  }

  /** Write until everything is accepted or a call accepts nothing. */
  function WriteAll(write: Writer, st: Store, p: nat, data: seq<Byte>): (Store, nat)
    decreases |data|
  {
    if data == [] then (st, 0)
    else
      var (after, outcome) := write(st, p, data);
      if !outcome.Done? || outcome.count == 0 || outcome.count > |data| then (after, 1)
      else
        var (last, calls) := WriteAll(write, after, p + outcome.count, data[outcome.count..]);
        (last, calls + 1)
  }

  /** Read until `count` bytes have come or a call returns none. */
  function ReadAll(read: Reader, st: Store, p: nat, count: nat): (seq<Byte>, nat)
    decreases count
  {
    if count == 0 then ([], 0)
    else
      var (after, outcome, bytes) := read(st, p, count);
      if !outcome.Done? || bytes == [] || |bytes| > count then (bytes, 1)
      else
        var (rest, calls) := ReadAll(read, after, p + |bytes|, count - |bytes|);
        (bytes + rest, calls + 1)
  }

  /** The blocks a range of offsets touches. */
  function QuantaTouched(g: Geometry, p: nat, count: nat): nat {
    if count == 0 then 0 else (p + count - 1) / g.quantum - p / g.quantum + 1
  }

  /** The place within the block is the offset modulo the quantum. */
  lemma WithinIsMod(g: Geometry, p: nat)
    ensures Locate(g, p).within == p % g.quantum
  {
    var pl := Locate(g, p);
    LocateInverts(g, p, pl);
    assert pl.item * ItemSize(g) == (pl.item * g.qset) * g.quantum by {
      Regroup(pl.item, g.quantum, g.qset);
    }
    assert p == (pl.item * g.qset) * g.quantum + pl.slot * g.quantum + pl.within;
    Collect(pl.item * g.qset, pl.slot, g.quantum);
    DivModUnique(p, g.quantum, pl.item * g.qset + pl.slot, pl.within);
  }

  lemma Regroup(a: nat, b: nat, c: nat)
    ensures a * (b * c) == (a * c) * b
  {
  }

  lemma Collect(a: nat, b: nat, c: nat)
    ensures a * c + b * c == (a + b) * c
  {
  }

  lemma NextBlock(p: nat, d: nat, q: nat, w: nat)
    requires w < d && p == q * d + w
    ensures (p + (d - w)) / d == q + 1 && (p + (d - w)) % d == 0
  {
    Collect(q, 1, d);
    DivModUnique(p + (d - w), d, q + 1, 0);
  }

  /** A call that stops short stops at a block boundary, so the rest touches one block less. */
  lemma OneQuantumPerCall(g: Geometry, p: nat, count: nat, n: nat)
    requires count > 0 && n == Min(count, g.quantum - Locate(g, p).within)
    ensures QuantaTouched(g, p, count) == 1 + QuantaTouched(g, p + n, count - n)
  {
    WithinIsMod(g, p);
    var q, w := p / g.quantum, p % g.quantum;
    assert p == q * g.quantum + w;
    if n == count {
      DivModUnique(p + count - 1, g.quantum, q, w + count - 1);
    } else {
      NextBlock(p, g.quantum, q, w);
      assert p + n + (count - n) - 1 == p + count - 1;
    }
  }

  /** Bytes the device held outside a range are still there. */
  ghost predicate KeepsRest(before: Store, after: Store, p: nat, count: nat) {
    forall off: nat :: !(p <= off < p + count) && ByteAt(before, off).Some? ==> ByteAt(after, off) == ByteAt(before, off)
  }

  lemma HoldsJoin(mid: Store, after: Store, p: nat, data: Block, n: nat)
    requires n <= |data| && Holds(mid, p, data[..n]) && Holds(after, p + n, data[n..])
    requires KeepsRest(mid, after, p + n, |data| - n)
    ensures Holds(after, p, data)
  {
    forall i | 0 <= i < |data|
      ensures ByteAt(after, p + i) == Some(data[i])
    {
      if i < n {
        assert ByteAt(mid, p + i) == Some(data[..n][i]);
      } else {
        assert ByteAt(after, p + n + (i - n)) == Some(data[n..][i - n]);
      }
    }
  }

  lemma HoldsSplit(st: Store, after: Store, p: nat, data: Block, bytes: Block)
    requires Holds(st, p, data) && Holds(st, p, bytes) && |bytes| <= |data| && SameFile(st, after)
    ensures bytes == data[..|bytes|] && Holds(after, p + |bytes|, data[|bytes|..])
  {
    forall i | 0 <= i < |bytes|
      ensures bytes[i] == data[i]
    {
      assert ByteAt(st, p + i) == Some(bytes[i]);
    }
    var n := |bytes|;
    forall i | 0 <= i < |data[n..]|
      ensures ByteAt(after, p + n + i) == Some(data[n..][i])
    {
      assert ByteAt(st, p + (n + i)) == Some(data[n + i]);
    }
  }

  lemma SplicedHolds(st: Store, after: Store, p: nat, put: Block, newBlock: Block)
    requires |newBlock| == st.geo.quantum && Spliced(st, after, p, put, newBlock)
    ensures Holds(after, p, put) && KeepsRest(st, after, p, |put|)
  {
  }

  /** `after` is the device with exactly these bytes put at `p`, apart from offsets that had no block. */
  ghost predicate Wrote(st: Store, after: Store, p: nat, data: Block) {
    && WellShaped(after) && after.geo == st.geo
    && after.size == (if data == [] then st.size else Max(st.size, p + |data|))
    && Holds(after, p, data)
    && KeepsRest(st, after, p, |data|)
  }

  lemma WroteJoin(st: Store, mid: Store, after: Store, p: nat, data: Block, n: nat)
    requires 0 < n <= |data| && Wrote(st, mid, p, data[..n]) && Wrote(mid, after, p + n, data[n..])
    ensures Wrote(st, after, p, data)
  {
    HoldsJoin(mid, after, p, data, n);
  }

  /** The call puts in the part of the data that fits the quantum. */
  ghost predicate WritesFront(write: Writer, st: Store, p: nat, data: seq<Byte>) {
    WellShaped(st) && data != [] ==>
      var n, (next, outcome) := WriteCount(st.geo, p, data), write(st, p, data);
      0 < n && outcome == Done(n) && Wrote(st, next, p, data[..n])
  }

  ghost predicate GoodWriter(write: Writer) {
    forall st: Store, p: nat, data: seq<Byte> :: WritesFront(write, st, p, data)
  }

  lemma ScullWriterIsGood(stale: nat -> Byte)
    ensures GoodWriter(ScullWriter(stale))
  {
    forall st: Store, p: nat, data: seq<Byte>
      ensures WritesFront(ScullWriter(stale), st, p, data)
    {
      if WellShaped(st) && data != [] {
        var n := WriteCount(st.geo, p, data);
        var newBlock := seq(st.geo.quantum, i requires i >= 0 => stale(i));
        WriteExact(st, p, data, Env(Needed(st, Locate(st.geo, p)), newBlock, None));
        SplicedHolds(st, ScullWriter(stale)(st, p, data).0, p, data[..n], newBlock);
      }
    }
  }

  /** Where the device holds all of the range, the call returns the part that lies in the quantum, and keeps the file. */
  ghost predicate ReadsFront(read: Reader, st: Store, p: nat, data: seq<Byte>) {
    WellShaped(st) && data != [] && p + |data| <= st.size < WORD && Holds(st, p, data) ==>
      var n, (after, outcome, bytes) := WriteCount(st.geo, p, data), read(st, p, |data|);
      && 0 < n
      && outcome == Done(n)
      && bytes == data[..n]
      && WellShaped(after) && after.geo == st.geo && after.size == st.size && Holds(after, p + n, data[n..])
  }

  ghost predicate GoodReader(read: Reader) {
    forall st: Store, p: nat, data: seq<Byte> :: ReadsFront(read, st, p, data)
  }

  lemma ScullReaderIsGood(mem: nat)
    ensures GoodReader(ScullReader(mem))
  {
    forall st: Store, p: nat, data: seq<Byte>
      ensures ReadsFront(ScullReader(mem), st, p, data)
    {
      if WellShaped(st) && data != [] && p + |data| <= st.size < WORD && Holds(st, p, data) {
        FirstRead(st, p, data, mem);
      }
    }
  }

  lemma FirstRead(st: Store, p: nat, data: seq<Byte>, mem: nat)
    requires WellShaped(st) && p + |data| <= st.size < WORD && Holds(st, p, data) && data != []
    ensures var n, (after, outcome, bytes) := WriteCount(st.geo, p, data), Read(st, st.geo, p, |data|, mem, false);
            && 0 < n <= |data|
            && outcome == Done(n)
            && bytes == data[..n]
            && WellShaped(after) && after.geo == st.geo && after.size == st.size && Holds(after, p + n, data[n..])
  {
    assert ByteAt(st, p + 0) == Some(data[0]);
    var (after, _, bytes) := Read(st, st.geo, p, |data|, mem, false);
    ReadExact(st, p, |data|, mem);
    LocateInverts(st.geo, p, Locate(st.geo, p));
    HoldsSplit(st, after, p, data, bytes);
  }

  /** Looped writes put all the data into the file, in exactly one call per block touched. */
  lemma {:induction false} WriteAllExact(write: Writer, st: Store, p: nat, data: seq<Byte>)
    requires GoodWriter(write) && WellShaped(st)
    ensures Wrote(st, WriteAll(write, st, p, data).0, p, data)
    ensures WriteAll(write, st, p, data).1 == QuantaTouched(st.geo, p, |data|)
    decreases |data|
  {
    if data != [] {
      assert WritesFront(write, st, p, data);
      var (next, outcome) := write(st, p, data);
      var n := outcome.count;
      WriteAllExact(write, next, p + n, data[n..]);
      WroteJoin(st, next, WriteAll(write, next, p + n, data[n..]).0, p, data, n);
      OneQuantumPerCall(st.geo, p, |data|, n);
    }
  }

  lemma ReadOn(read: Reader, st: Store, after: Store, p: nat, data: seq<Byte>, n: nat, calls: nat)
    requires 0 < n <= |data| && read(st, p, |data|) == (after, Done(n), data[..n])
    requires ReadAll(read, after, p + n, |data| - n) == (data[n..], calls)
    ensures ReadAll(read, st, p, |data|) == (data, calls + 1)
  {
    assert data == data[..n] + data[n..];
  }

  /** Looped reads return what the file holds, in one call per block touched, if the device holds all of it. */
  lemma {:induction false} ReadAllExact(read: Reader, st: Store, p: nat, data: seq<Byte>)
    requires GoodReader(read) && WellShaped(st) && p + |data| <= st.size < WORD && Holds(st, p, data)
    ensures ReadAll(read, st, p, |data|) == (data, QuantaTouched(st.geo, p, |data|))
    decreases |data|
  {
    if data != [] {
      assert ReadsFront(read, st, p, data);
      var (after, _, bytes) := read(st, p, |data|);
      var n := |bytes|;
      ReadAllExact(read, after, p + n, data[n..]);
      OneQuantumPerCall(st.geo, p, |data|, n);
      ReadOn(read, st, after, p, data, n, QuantaTouched(st.geo, p + n, |data| - n));
    }
  }

  /** What was written is read back, whatever the block and array sizes, wherever it was written. */
  lemma RoundTrip(st: Store, p: nat, data: seq<Byte>, stale: nat -> Byte, mem: nat)
    requires WellShaped(st) && st.size < WORD && p + |data| < WORD
    ensures var (after, calls) := WriteAll(ScullWriter(stale), st, p, data);
            && Wrote(st, after, p, data)
            && calls == QuantaTouched(st.geo, p, |data|)
            && (data != [] ==> ReadAll(ScullReader(mem), after, p, |data|) == (data, calls))
  {
    ScullWriterIsGood(stale);
    ScullReaderIsGood(mem);
    WriteAllExact(ScullWriter(stale), st, p, data);
    if data != [] {
      ReadAllExact(ScullReader(mem), WriteAll(ScullWriter(stale), st, p, data).0, p, data);
    }
  }

  // ---- sculld zeroes its blocks ----

  /** The file as a total function: offsets without a block count as zero. */
  function ZeroFilled(st: Store, off: nat): Byte {
    match ByteAt(st, off)
    case Some(b) => b
    case None => 0
  }

  /**
   With blocks cleared when they are allocated (sculld/main.c:154) a write is exactly a splice: no other
   byte of the file, held or not, changes.  Without it (scull/main.c:324), one that had no block may.
   */
  lemma ZeroedWriteIsSplice(st: Store, p: nat, data: seq<Byte>, mem: nat)
    requires WellShaped(st)
    ensures var zero := seq(st.geo.quantum, _ => 0 as Byte);
            var (after, outcome) := Write(st, st.geo, p, data, Env(mem, zero, None));
            var n := if outcome.Done? then outcome.count else 0;
            n <= |data| &&
            forall off: nat :: ZeroFilled(after, off) == if p <= off < p + n then data[off - p] else ZeroFilled(st, off)
  {
    WriteExact(st, p, data, Env(mem, seq(st.geo.quantum, _ => 0 as Byte), None));
  }

  lemma UnzeroedWriteIsNot(newBlock: Block)
    requires |newBlock| == 8 && newBlock[5] != 0
    ensures var g: Geometry := Shape(8, 2);
            var (after, _) := Write(Trim(g), g, 0, [1], Env(3, newBlock, None));
            ZeroFilled(Trim(g), 5) == 0 && ZeroFilled(after, 5) == newBlock[5]
  {
    var g: Geometry := Shape(8, 2);
    assert Locate(g, 0) == Place(0, 0, 0);
    assert Locate(g, 5) == Place(0, 0, 5);
  }

  // ---- Histories ----

  /** Calls on the device, and the ioctls that change the global geometry behind its back. */
  datatype Call =
    | WriteCall(p: nat, data: seq<Byte>, env: Env)
    | ReadCall(p: nat, count: nat, mem: nat, fault: bool)
    | TrimCall
    | SetGlobal(geo: Geometry)

  datatype World = World(st: Store, global: Geometry)

  predicate Possible(w: World, c: Call) {
    c.WriteCall? ==>
      && |c.env.newBlock| == w.st.geo.quantum
      && (c.env.fault.Some? ==> |c.env.fault.value| == WriteCount(w.st.geo, c.p, c.data))
  }

  function Perform(w: World, c: Call): World
    requires Possible(w, c)
  {
    match c
    case WriteCall(p, data, env) => w.(st := Write(w.st, w.st.geo, p, data, env).0)
    case ReadCall(p, count, mem, fault) => w.(st := Read(w.st, w.st.geo, p, count, mem, fault).0)
    case TrimCall => w.(st := Trim(w.global))
    case SetGlobal(geo) => w.(global := geo)
  }

  predicate Runs(w: World, calls: seq<Call>)
    decreases |calls|
  {
    calls == [] || (Possible(w, calls[0]) && Runs(Perform(w, calls[0]), calls[1..]))
  }

  function Final(w: World, calls: seq<Call>): World
    requires Runs(w, calls)
    decreases |calls|
  {
    if calls == [] then w else Final(Perform(w, calls[0]), calls[1..])
  }

  lemma PerformKeepsShape(w: World, c: Call)
    requires WellShaped(w.st) && Possible(w, c)
    ensures WellShaped(Perform(w, c).st)
    ensures !c.TrimCall? ==> Perform(w, c).st.geo == w.st.geo
  {
    match c
    case WriteCall(p, data, env) =>
      if env.fault.Some? && env.mem >= Needed(w.st, Locate(w.st.geo, p)) {
        FaultyWrite(w.st, p, data, env);
      } else {
        WriteExact(w.st, p, data, env.(fault := None));
      }
    case ReadCall(p, count, mem, fault) =>
      GrowKeepsBlocks(w.st, Locate(w.st.geo, p).item, mem);
    case TrimCall =>
    case SetGlobal(_) =>
  }

  /**
   Through every history of reads, writes, failures, trims and changes of the global sizes, the device's
   arrays and blocks have the sizes its geometry says, and that geometry changes by trims only.
   */
  lemma {:induction false} HistoryKeepsShape(w: World, calls: seq<Call>)
    requires WellShaped(w.st) && Runs(w, calls)
    ensures WellShaped(Final(w, calls).st)
    ensures (forall i :: 0 <= i < |calls| ==> !calls[i].TrimCall?) ==> Final(w, calls).st.geo == w.st.geo
    decreases |calls|
  {
    if calls != [] {
      PerformKeepsShape(w, calls[0]);
      HistoryKeepsShape(Perform(w, calls[0]), calls[1..]);
    }
  }

  lemma {:induction false} RunsSplit(w: World, a: seq<Call>, b: seq<Call>)
    requires Runs(w, a + b)
    ensures Runs(w, a) && Runs(Final(w, a), b) && Final(w, a + b) == Final(Final(w, a), b)
    decreases |a|
  {
    if a == [] {
      assert a + b == b;
    } else {
      assert (a + b)[1..] == a[1..] + b;
      RunsSplit(Perform(w, a[0]), a[1..], b);
    }
  }

  lemma CallInBetween(w: World, before: seq<Call>, c: Call, after: seq<Call>)
    requires Runs(w, before + [c] + after)
    ensures Runs(w, before) && Possible(Final(w, before), c) && Runs(Perform(Final(w, before), c), after)
    ensures Final(w, before + [c] + after) == Final(Perform(Final(w, before), c), after)
  {
    assert before + [c] + after == before + ([c] + after);
    RunsSplit(w, before, [c] + after);
    assert ([c] + after)[1..] == after;
  }

  /** The global sizes after some calls: those of the last `SetGlobal`, if there was one. */
  function LastGlobal(calls: seq<Call>, initial: Geometry): Geometry {
    if calls == [] then initial
    else
      var last := calls[|calls| - 1];
      if last.SetGlobal? then last.geo else LastGlobal(calls[..|calls| - 1], initial)
  }

  lemma {:induction false} GlobalIsLastSet(w: World, calls: seq<Call>)
    requires Runs(w, calls)
    ensures Final(w, calls).global == LastGlobal(calls, w.global)
    decreases |calls|
  {
    if calls != [] {
      var n := |calls| - 1;
      assert calls == calls[..n] + [calls[n]] + [];
      CallInBetween(w, calls[..n], calls[n], []);
      GlobalIsLastSet(w, calls[..n]);
    }
  }

  /** A trim empties the device, which then has the sizes set last before it. */
  lemma JustTrimmed(w: World, before: seq<Call>)
    requires Runs(w, before + [TrimCall])
    ensures var t := Final(w, before + [TrimCall]).st;
            && t.size == 0 && t.items == []
            && t.geo.quantum == LastGlobal(before, w.global).quantum
            && t.geo.qset == LastGlobal(before, w.global).qset
  {
    assert before + [TrimCall] + [] == before + [TrimCall];
    CallInBetween(w, before, TrimCall, []);
    GlobalIsLastSet(w, before);
  }

  /** It keeps them until the next trim, whatever is set, written or read in between. */
  lemma TrimTakesLastGlobal(w: World, before: seq<Call>, after: seq<Call>)
    requires WellShaped(w.st) && Runs(w, before + [TrimCall] + after)
    requires forall i :: 0 <= i < |after| ==> !after[i].TrimCall?
    ensures var st := Final(w, before + [TrimCall] + after).st;
            && st.geo.quantum == LastGlobal(before, w.global).quantum
            && st.geo.qset == LastGlobal(before, w.global).qset
  {
    var calls := before + [TrimCall];
    RunsSplit(w, calls, after);
    JustTrimmed(w, before);
    HistoryKeepsShape(w, calls);
    HistoryKeepsShape(Final(w, calls), after);
  }

  /** A write that may alter the byte at an offset. */
  predicate Touches(g: Geometry, c: Call, off: nat) {
    c.WriteCall? && c.p <= off < c.p + WriteCount(g, c.p, c.data)
  }

  lemma CallKeepsByte(w: World, c: Call, off: nat)
    requires WellShaped(w.st) && Possible(w, c) && !c.TrimCall? && !Touches(w.st.geo, c, off) && ByteAt(w.st, off).Some?
    ensures ByteAt(Perform(w, c).st, off) == ByteAt(w.st, off)
  {
    match c
    case WriteCall(p, data, env) =>
      if env.fault.Some? && env.mem >= Needed(w.st, Locate(w.st.geo, p)) {
        FaultyWrite(w.st, p, data, env);
      } else {
        WriteExact(w.st, p, data, env.(fault := None));
      }
    case ReadCall(p, count, mem, fault) =>
      GrowKeepsBlocks(w.st, Locate(w.st.geo, p).item, mem);
    case SetGlobal(_) =>
    case TrimCall =>
  }

  lemma {:induction false} HistoryKeepsByte(w: World, calls: seq<Call>, off: nat)
    requires WellShaped(w.st) && Runs(w, calls) && ByteAt(w.st, off).Some?
    requires forall i :: 0 <= i < |calls| ==> !calls[i].TrimCall? && !Touches(w.st.geo, calls[i], off)
    ensures ByteAt(Final(w, calls).st, off) == ByteAt(w.st, off)
    decreases |calls|
  {
    if calls != [] {
      PerformKeepsShape(w, calls[0]);
      CallKeepsByte(w, calls[0], off);
      HistoryKeepsByte(Perform(w, calls[0]), calls[1..], off);
    }
  }

  lemma WritePuts(w: World, p: nat, data: seq<Byte>, env: Env, off: nat)
    requires WellShaped(w.st) && Possible(w, WriteCall(p, data, env)) && Touches(w.st.geo, WriteCall(p, data, env), off)
    requires env.fault.None? && env.mem >= Needed(w.st, Locate(w.st.geo, p))
    ensures var st := Perform(w, WriteCall(p, data, env)).st;
            WellShaped(st) && st.geo == w.st.geo && ByteAt(st, off) == Some(data[off - p])
  {
    WriteExact(w.st, p, data, env);
  }

  /**
   In every history the last write to an offset, if it had the memory it needed, says what is there until
   the next trim, whatever else is written, read or set, and however many calls fail.
   */
  lemma LastWriteWins(w: World, before: seq<Call>, p: nat, data: seq<Byte>, env: Env, after: seq<Call>, off: nat)
    requires WellShaped(w.st) && Runs(w, before + [WriteCall(p, data, env)] + after)
    requires Runs(w, before) && env.fault.None? && env.mem >= Needed(Final(w, before).st, Locate(Final(w, before).st.geo, p))
    requires Touches(Final(w, before).st.geo, WriteCall(p, data, env), off)
    requires forall i :: 0 <= i < |after| ==> !after[i].TrimCall? && !Touches(Final(w, before).st.geo, after[i], off)
    ensures ByteAt(Final(w, before + [WriteCall(p, data, env)] + after).st, off) == Some(data[off - p])
  {
    var c, u := WriteCall(p, data, env), Final(w, before);
    CallInBetween(w, before, c, after);
    HistoryKeepsShape(w, before);
    WritePuts(u, p, data, env, off);
    HistoryKeepsByte(Perform(u, c), after, off);
  }

  // ---- A geometry read too early ----

  /**
   The geometry is read before the semaphore is taken (lines 255 and 298), so a trim may change the
   device's own in between.  What the call then meets decides: an item that has its array must have the
   slot, and a block the room; an array or a block that is made must come out as the device's own would.
   */
  predicate SafeAt(st: Store, g: Geometry, pl: Place, n: nat, mem: nat) {
    var missing := Max(0, pl.item + 1 - |st.items|);
    if pl.item < |st.items| && st.items[pl.item].Some? then
      && pl.slot < st.geo.qset
      && (if BlockAt(st, pl.item, pl.slot).Some? then pl.within + n <= st.geo.quantum else mem == 0 || g.quantum == st.geo.quantum)
    else
      mem <= missing || (g.qset == st.geo.qset && (mem == missing + 1 || g.quantum == st.geo.quantum))
  }

  lemma GrownItem(st: Store, item: nat, mem: nat)
    requires WellShaped(st)
    ensures var a := ReachItem(st, item, mem);
            && WellShaped(a.st) && a.st.geo == st.geo && SameFile(st, a.st)
            && (a.outcome.Done? <==> mem >= Max(0, item + 1 - |st.items|)) && !a.outcome.Wild?
            && (a.outcome.Done? ==> item < |a.st.items| && a.left == mem - Max(0, item + 1 - |st.items|)
                                    && a.st.items[item] == if item < |st.items| then st.items[item] else None)
            && forall i, s :: BlockAt(a.st, i, s) == BlockAt(st, i, s)
  {
    GrowKeepsBlocks(st, item, mem);
  }

  /** The array of an item that has none is as long as the geometry read says. */
  lemma StaleRow(st: Store, g: Geometry, item: nat, mem: nat)
    requires WellShaped(st) && item < |st.items|
    ensures var b := ReachRow(st, g, item, mem);
            && b.st.geo == st.geo && !b.outcome.Wild? && |b.st.items| == |st.items|
            && (WellShaped(b.st) <==> st.items[item].Some? || mem == 0 || g.qset == st.geo.qset)
            && (b.outcome.Done? <==> st.items[item].Some? || mem > 0)
            && (b.outcome.Done? ==> b.st.items[item].Some? && b.left == (if st.items[item].Some? then mem else mem - 1)
                                    && |b.st.items[item].value| == (if st.items[item].Some? then st.geo.qset else g.qset))
            && forall i, s :: BlockAt(b.st, i, s) == BlockAt(st, i, s)
  {
    var b := ReachRow(st, g, item, mem);
    if st.items[item].None? && mem > 0 {
      assert |b.st.items[item].value| == g.qset;
      if g.qset == st.geo.qset {
        assert RowShaped(st.geo, b.st.items[item].value);
      }
    }
  }

  /** And so is a new block. */
  lemma StaleBlock(st: Store, g: Geometry, item: nat, slot: nat, mem: nat, newBlock: Block)
    requires item < |st.items| && st.items[item].Some? && |newBlock| == g.quantum
    ensures var c := ReachBlock(st, item, slot, mem, newBlock);
            var row := st.items[item].value;
            && c.st.geo == st.geo
            && (c.outcome.Wild? <==> slot >= |row|)
            && (c.outcome.Done? ==> BlockAt(c.st, item, slot) == (if BlockAt(st, item, slot).Some? then BlockAt(st, item, slot) else Some(newBlock)))
            && (WellShaped(c.st) <==> WellShaped(st) && (slot >= |row| || row[slot].Some? || mem == 0 || g.quantum == st.geo.quantum))
            && (slot < |row| ==> (c.outcome.Done? <==> row[slot].Some? || mem > 0))
            && forall i, s :: i != item || s != slot ==> BlockAt(c.st, i, s) == BlockAt(st, i, s)
  {
    var c := ReachBlock(st, item, slot, mem, newBlock);
    var row := st.items[item].value;
    if slot < |row| && row[slot].None? && mem > 0 {
      var row' := row[slot := Some(newBlock)];
      assert c.st.items[item] == Some(row') && row'[slot] == Some(newBlock);
      if WellShaped(c.st) {
        assert RowShaped(st.geo, row');
        assert forall s :: 0 <= s < |row| && row[s].Some? ==> row'[s] == row[s];
        assert RowShaped(st.geo, row);
        assert forall i :: 0 <= i < |st.items| && i != item ==> c.st.items[i] == st.items[i];
      }
    }
  }

  /** What the allocations of a write with geometry `g` leave. */
  lemma StalePrepare(st: Store, g: Geometry, pl: Place, n: nat, env: Env)
    requires WellShaped(st) && |env.newBlock| == g.quantum && Proper(g, pl) && pl.within + n <= g.quantum
    ensures var (ready, outcome) := Prepare(st, g, pl, env);
            var fits := if outcome.Done? && BlockAt(ready, pl.item, pl.slot).Some? then pl.within + n <= |BlockAt(ready, pl.item, pl.slot).value| else true;
            && ready.geo == st.geo
            && (outcome.Done? ==>
                  BlockAt(ready, pl.item, pl.slot)
                  == (if BlockAt(st, pl.item, pl.slot).Some? then BlockAt(st, pl.item, pl.slot) else Some(env.newBlock)))
            && (!outcome.Wild? && fits && WellShaped(ready) <==> SafeAt(st, g, pl, n, env.mem))
            && forall i, s :: i != pl.item || s != pl.slot ==> BlockAt(ready, i, s) == BlockAt(st, i, s)
  {
    GrownItem(st, pl.item, env.mem);
    var a := ReachItem(st, pl.item, env.mem);
    if a.outcome.Done? {
      StaleRow(a.st, g, pl.item, a.left);
      var b := ReachRow(a.st, g, pl.item, a.left);
      if b.outcome.Done? {
        StaleBlock(b.st, g, pl.item, pl.slot, b.left, env.newBlock);
      }
    }
  }

  /** With a geometry read too early, a write stays in its block and keeps the shape of the device exactly when it is safe. */
  lemma StaleWriteExactly(st: Store, g: Geometry, p: nat, data: seq<Byte>, env: Env)
    requires WellShaped(st) && |env.newBlock| == g.quantum
    requires env.fault.Some? ==> |env.fault.value| == WriteCount(g, p, data)
    ensures var (after, outcome) := Write(st, g, p, data, env);
            !outcome.Wild? && WellShaped(after) <==> SafeAt(st, g, Locate(g, p), WriteCount(g, p, data), env.mem)
  {
    var pl := Locate(g, p);
    LocateInverts(g, p, pl);
    StalePrepare(st, g, pl, WriteCount(g, p, data), env);
    var (ready, outcome) := Prepare(st, g, pl, env);
    var put := if env.fault.Some? then env.fault.value else data[..WriteCount(g, p, data)];
    if outcome.Done? && pl.within + |put| <= |BlockAt(ready, pl.item, pl.slot).value| {
      SetKeepsShape(ready, pl, Patch(BlockAt(ready, pl.item, pl.slot).value, pl.within, put));
    }
  }

  lemma SetKeepsShape(st: Store, pl: Place, block: Block)
    requires BlockAt(st, pl.item, pl.slot).Some? && |block| == |BlockAt(st, pl.item, pl.slot).value|
    ensures WellShaped(SetBlock(st, pl, block)) <==> WellShaped(st)
    ensures forall i, s :: BlockAt(SetBlock(st, pl, block), i, s) == if i == pl.item && s == pl.slot then Some(block) else BlockAt(st, i, s)
  {
    var t := SetBlock(st, pl, block);
    var row, row' := st.items[pl.item].value, t.items[pl.item].value;
    assert forall s :: 0 <= s < |row| && s != pl.slot ==> row'[s] == row[s];
    assert row'[pl.slot].Some? && row[pl.slot].Some? && |row'[pl.slot].value| == |row[pl.slot].value|;
    if RowShaped(st.geo, row') {
      assert forall s :: 0 <= s < |row| && row[s].Some? ==> row'[s].Some?;
      assert RowShaped(st.geo, row);
    }
    assert forall i :: 0 <= i < |st.items| && i != pl.item ==> t.items[i] == st.items[i];
    if WellShaped(t) {
      forall i | 0 <= i < |st.items| && st.items[i].Some?
        ensures RowShaped(st.geo, st.items[i].value)
      {
        assert t.items[i].Some?;
      }
    }
  }

  /** With the device's own geometry every write is safe. */
  lemma OwnGeometryIsSafe(st: Store, p: nat, data: seq<Byte>, mem: nat)
    ensures SafeAt(st, st.geo, Locate(st.geo, p), WriteCount(st.geo, p, data), mem)
  {
    LocateInverts(st.geo, p, Locate(st.geo, p));
  }

  /**
   A safe write puts the bytes where the device's own geometry takes that item, slot and place to be,
   which is the offset asked for exactly when the two geometries put that offset in the same place.
   */
  lemma StaleWriteLands(st: Store, g: Geometry, p: nat, data: seq<Byte>, env: Env)
    requires WellShaped(st) && |env.newBlock| == g.quantum && data != [] && env.fault.None?
    requires SafeAt(st, g, Locate(g, p), WriteCount(g, p, data), env.mem) && Write(st, g, p, data, env).1.Done?
    ensures var (after, n, here) := (Write(st, g, p, data, env).0, WriteCount(g, p, data), OffsetOf(st.geo, Locate(g, p)));
            && Holds(after, here, data[..n]) && KeepsRest(st, after, here, n)
            && (here == p <==> Locate(st.geo, p) == Locate(g, p))
  {
    var pl := Locate(g, p);
    var n, here := WriteCount(g, p, data), OffsetOf(st.geo, pl);
    LocateInverts(g, p, pl);
    StaleWriteExactly(st, g, p, data, env);
    StalePrepare(st, g, pl, n, env);
    var (ready, _) := Prepare(st, g, pl, env);
    var block := BlockAt(ready, pl.item, pl.slot).value;
    SetKeepsShape(ready, pl, Patch(block, pl.within, data[..n]));
    assert WellShaped(ready);
    assert RowShaped(st.geo, ready.items[pl.item].value);
    LocateInverts(st.geo, p, pl);
    PatchSplices(st, ready, Write(st, g, p, data, env).0, here, data[..n], block);
    SplicedHolds(st, Write(st, g, p, data, env).0, here, data[..n], block);
  }

  /**
   With a geometry read too early, a read still keeps the file.  It leaves its block or its array exactly
   when the item that is there lacks the slot or the block the room; otherwise it returns the bytes of the
   place, be that the one asked for or not.
   */
  lemma StaleReadExactly(st: Store, g: Geometry, p: nat, count: nat, mem: nat, fault: bool)
    requires WellShaped(st)
    ensures var (after, outcome, bytes) := Read(st, g, p, count, mem, fault);
            var pl := Locate(g, p);
            var n := Min(Clip(st.size, p, count), g.quantum - pl.within);
            && WellShaped(after) && SameFile(st, after)
            && (outcome.Wild? <==> && pl.item < |st.items| && st.items[pl.item].Some?
                                   && (pl.slot >= st.geo.qset || (BlockAt(st, pl.item, pl.slot).Some? && pl.within + n > st.geo.quantum)))
            && (outcome.Fault? <==> fault && !outcome.Wild? && BlockAt(st, pl.item, pl.slot).Some?)
            && |bytes| == (if outcome.Wild? || fault || BlockAt(st, pl.item, pl.slot).None? then 0 else n)
            && (bytes != [] ==> Holds(st, OffsetOf(st.geo, pl), bytes) && (OffsetOf(st.geo, pl) == p <==> Locate(st.geo, p) == pl))
  {
    var pl := Locate(g, p);
    LocateInverts(g, p, pl);
    GrownItem(st, pl.item, mem);
    var (after, outcome, bytes) := Read(st, g, p, count, mem, fault);
    if pl.item < |st.items| && st.items[pl.item].Some? {
      assert RowShaped(st.geo, st.items[pl.item].value);
    }
    if bytes != [] {
      var here := OffsetOf(st.geo, pl);
      LocateInverts(st.geo, p, pl);
      forall i | 0 <= i < |bytes|
        ensures ByteAt(st, here + i) == Some(bytes[i])
      {
        SameBlock(st.geo, here, here + i);
      }
    }
  }

  /** A trim from blocks of four bytes to blocks of two comes between: the write goes past the new block. */
  lemma StaleWriteRun(newBlock: Block)
    requires |newBlock| == 2
    ensures var before, after: Geometry := Shape(4, 2), Shape(2, 2);
            var st := Write(Trim(after), after, 0, [7], Env(3, newBlock, None)).0;
            WellShaped(st) && Write(st, before, 0, [1, 2, 3], Env(0, [0, 0, 0, 0], None)).1.Wild?
  {
    var before, after: Geometry := Shape(4, 2), Shape(2, 2);
    WriteExact(Trim(after), 0, [7], Env(3, newBlock, None));
    assert Locate(before, 0) == Place(0, 0, 0) && Locate(after, 0) == Place(0, 0, 0);
  }
}
