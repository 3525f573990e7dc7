/**
 A scull device stands for one flat, sparse file: reads, writes and trims on the list of arrays of
 blocks act on the bytes of the file as their callers expect, however small the blocks are.
 */
module StoreFile {
  import opened Bytes
  import opened QuantumStore

  /** The byte the device holds at a file offset, if it has a block there. */
  function ByteAt(st: Store, off: nat): Option<Byte> {
    var pl := Locate(st.geo, off);
    match BlockAt(st, pl.item, pl.slot)
    case Some(block) => if pl.within < |block| then Some(block[pl.within]) else None
    case None => None
  }

  /** Nothing a caller can read back differs. */
  ghost predicate SameFile(a: Store, b: Store) {
    a.geo == b.geo && a.size == b.size && forall off: nat :: ByteAt(a, off) == ByteAt(b, off)
  }

  /**
   The file after `put` was written at `p`: the new bytes where they were put, the old bytes elsewhere,
   and what a new block happened to hold in the rest of the quantum if there was no block before.
   */
  ghost predicate Spliced(before: Store, after: Store, p: nat, put: Block, newBlock: Block)
    requires |newBlock| == before.geo.quantum
  {
    && after.geo == before.geo
    && forall off: nat ::
         var a, b := Locate(before.geo, p), Locate(before.geo, off);
         ByteAt(after, off) ==
           (if p <= off < p + |put| then Some(put[off - p])
            else if ByteAt(before, off).Some? || a.item != b.item || a.slot != b.slot || b.within >= |newBlock| then ByteAt(before, off)
            else Some(newBlock[b.within]))
  }

  /** How many allocations a write to this place needs: the missing list items, the array, the block. */
  function Needed(st: Store, pl: Place): nat {
    Max(0, pl.item + 1 - |st.items|)
    + (if pl.item < |st.items| && st.items[pl.item].Some? then 0 else 1)
    + (if BlockAt(st, pl.item, pl.slot).Some? then 0 else 1)
  }

  lemma GrowKeepsBlocks(st: Store, n: nat, mem: nat)
    requires WellShaped(st)
    ensures var after := st.(items := Grow(st.items, n, mem));
            && WellShaped(after)
            && SameFile(st, after)
            && (forall i, s :: BlockAt(after, i, s) == BlockAt(st, i, s))
  {
  }

  /** The list, lengthened by empty items to reach number `n` as far as memory for `mem` of them allows. */
  ghost predicate Reaches(before: seq<Item>, after: seq<Item>, n: nat, mem: nat) {
    && |after| == Max(|before|, Min(n + 1, |before| + mem))
    && forall i :: 0 <= i < |after| && i != n ==> after[i] == if i < |before| then before[i] else None
  }

  /** A read follows the list as a write does, and leaves what it added. */
  lemma ReadersGrowToo(st: Store, g: Geometry, p: nat, count: nat, mem: nat, fault: bool)
    ensures var after, item := Read(st, g, p, count, mem, fault).0.items, Locate(g, p).item;
            Reaches(st.items, after, item, mem) && (item < |after| ==> after[item] == if item < |st.items| then st.items[item] else None)
  {
  }

  lemma PrepareGrows(st: Store, pl: Place, env: Env)
    requires WellShaped(st) && pl.slot < st.geo.qset
    ensures var ready := Prepare(st, st.geo, pl, env).0;
            && Reaches(st.items, ready.items, pl.item, env.mem)
            && (pl.item < |ready.items| ==>
                  (ready.items[pl.item].Some? <==>
                   (pl.item < |st.items| && st.items[pl.item].Some?) || env.mem > Max(0, pl.item + 1 - |st.items|)))
  {
  }

  /** The allocation phase adds empty structure only, and succeeds exactly when memory suffices. */
  lemma PrepareExact(st: Store, pl: Place, env: Env)
    requires WellShaped(st) && |env.newBlock| == st.geo.quantum && pl.slot < st.geo.qset
    ensures var (ready, outcome) := Prepare(st, st.geo, pl, env);
            && WellShaped(ready) && ready.geo == st.geo && ready.size == st.size
            && outcome == (if env.mem >= Needed(st, pl) then Done(0) else NoMemory)
            && Reaches(st.items, ready.items, pl.item, env.mem)
            && (pl.item < |ready.items| ==>
                  (ready.items[pl.item].Some? <==>
                   (pl.item < |st.items| && st.items[pl.item].Some?) || env.mem > Max(0, pl.item + 1 - |st.items|)))
            && forall i, s ::
                 BlockAt(ready, i, s) ==
                   (if outcome.Done? && i == pl.item && s == pl.slot && BlockAt(st, i, s).None? then Some(env.newBlock)
                    else BlockAt(st, i, s))
  {
    PrepareGrows(st, pl, env);
    GrowKeepsBlocks(st, pl.item, env.mem);
  }

  lemma SetBlockExact(st: Store, pl: Place, block: Block)
    requires WellShaped(st) && BlockAt(st, pl.item, pl.slot).Some? && |block| == st.geo.quantum
    ensures WellShaped(SetBlock(st, pl, block))
    ensures forall i, s :: BlockAt(SetBlock(st, pl, block), i, s) ==
                             if i == pl.item && s == pl.slot then Some(block) else BlockAt(st, i, s)
  {
  }

  /** Patching one block splices the file. */
  lemma PatchSplices(st: Store, ready: Store, after: Store, p: nat, put: Block, newBlock: Block)
    requires WellShaped(st) && |newBlock| == st.geo.quantum && ready.geo == after.geo == st.geo
    requires var pl := Locate(st.geo, p);
             && pl.within + |put| <= st.geo.quantum
             && (forall i, s :: BlockAt(ready, i, s) ==
                   (if i == pl.item && s == pl.slot && BlockAt(st, i, s).None? then Some(newBlock) else BlockAt(st, i, s)))
             && BlockAt(ready, pl.item, pl.slot).Some?
             && |BlockAt(ready, pl.item, pl.slot).value| == st.geo.quantum
             && (forall i, s :: BlockAt(after, i, s) ==
                   (if i == pl.item && s == pl.slot then Some(Patch(BlockAt(ready, i, s).value, pl.within, put)) else BlockAt(ready, i, s)))
    ensures Spliced(st, after, p, put, newBlock)
  {
    var pl := Locate(st.geo, p);
    forall off: nat
      ensures var b := Locate(st.geo, off);
              ByteAt(after, off) ==
                (if p <= off < p + |put| then Some(put[off - p])
                 else if ByteAt(st, off).Some? || pl.item != b.item || pl.slot != b.slot || b.within >= |newBlock| then ByteAt(st, off)
                 else Some(newBlock[b.within]))
    {
      SameBlock(st.geo, p, off);
      LocateInverts(st.geo, off, pl);
    }
  }

  /**
   A write fails exactly when memory runs out, and then changes nothing a caller can see.  Otherwise it
   takes in the longest part of the data that fits the quantum, and splices it into the file.
   */
  lemma WriteExact(st: Store, p: nat, data: seq<Byte>, env: Env)
    requires WellShaped(st) && |env.newBlock| == st.geo.quantum && env.fault.None?
    ensures var (after, outcome) := Write(st, st.geo, p, data, env);
            var n := WriteCount(st.geo, p, data);
            && WellShaped(after)
            && (if env.mem >= Needed(st, Locate(st.geo, p)) then
                  && outcome == Done(n)
                  && after.size == Max(st.size, p + n)
                  && Spliced(st, after, p, data[..n], env.newBlock)
                  && (data != [] ==> n > 0)
                else
                  outcome == NoMemory && SameFile(st, after))
  {
    var pl := Locate(st.geo, p);
    var n := WriteCount(st.geo, p, data);
    LocateInverts(st.geo, p, pl);
    PrepareExact(st, pl, env);
    var (ready, outcome) := Prepare(st, st.geo, pl, env);
    var (after, _) := Write(st, st.geo, p, data, env);
    if outcome.Done? {
      var block := BlockAt(ready, pl.item, pl.slot).value;
      SetBlockExact(ready, pl, Patch(block, pl.within, data[..n]));
      PatchSplices(st, ready, after, p, data[..n], env.newBlock);
    }
  }

  /** A failed user copy can have altered bytes of the requested range only, and leaves the size alone. */
  lemma FaultyWrite(st: Store, p: nat, data: seq<Byte>, env: Env)
    requires WellShaped(st) && |env.newBlock| == st.geo.quantum
    requires env.fault.Some? && |env.fault.value| == WriteCount(st.geo, p, data) && env.mem >= Needed(st, Locate(st.geo, p))
    ensures var (after, outcome) := Write(st, st.geo, p, data, env);
            && WellShaped(after) && outcome == Fault && after.size == st.size
            && Spliced(st, after, p, env.fault.value, env.newBlock)
  {
    var pl := Locate(st.geo, p);
    LocateInverts(st.geo, p, pl);
    PrepareExact(st, pl, env);
    var (ready, _) := Prepare(st, st.geo, pl, env);
    var (after, _) := Write(st, st.geo, p, data, env);
    SetBlockExact(ready, pl, Patch(BlockAt(ready, pl.item, pl.slot).value, pl.within, env.fault.value));
    PatchSplices(st, ready, after, p, env.fault.value, env.newBlock);
  }

  /** The bytes of the file from `p` on, where the device holds all of them. */
  ghost predicate Holds(st: Store, p: nat, bytes: Block) {
    forall i :: 0 <= i < |bytes| ==> ByteAt(st, p + i) == Some(bytes[i])
  }

  /**
   A read never changes the file, although it may lengthen the list.  From inside the file it returns
   the bytes at `p`, up to the end of the quantum, the end of the file or the count, whichever comes
   first; where the device has no block it reports the end of the file.
   */
  lemma ReadExact(st: Store, p: nat, count: nat, mem: nat)
    requires WellShaped(st) && p <= st.size < WORD
    ensures var (after, outcome, bytes) := Read(st, st.geo, p, count, mem, false);
            && WellShaped(after) && SameFile(st, after)
            && outcome == Done(|bytes|)
            && Holds(st, p, bytes)
            && |bytes| == (if ByteAt(st, p).None? then 0
                           else Min(Min(count, st.size - p), st.geo.quantum - Locate(st.geo, p).within))
  {
    var pl := Locate(st.geo, p);
    var grown := st.(items := Grow(st.items, pl.item, mem));
    GrowKeepsBlocks(st, pl.item, mem);
    ClipInside(st.size, p, count);
    FetchExact(grown, p, Clip(st.size, p, count));
    assert ByteAt(grown, p) == ByteAt(st, p);
  }

  lemma ClipInside(size: nat, p: nat, count: nat)
    requires p <= size < WORD
    ensures Clip(size, p, count) == Min(count, size - p)
  {
    assert (size - p) % WORD == size - p;
  }

  /** A read whose user copy fails returns no bytes and keeps the file; where there is no block there is no copy to fail. */
  lemma FaultyRead(st: Store, p: nat, count: nat, mem: nat)
    requires WellShaped(st)
    ensures var (after, outcome, bytes) := Read(st, st.geo, p, count, mem, true);
            && WellShaped(after) && SameFile(st, after)
            && outcome == (if ByteAt(st, p).None? then Done(0) else Fault)
            && bytes == []
  {
    var pl := Locate(st.geo, p);
    LocateInverts(st.geo, p, pl);
    GrowKeepsBlocks(st, pl.item, mem);
  }

  lemma FetchExact(st: Store, p: nat, n: nat)
    requires WellShaped(st)
    ensures var pl := Locate(st.geo, p);
            && pl.within < st.geo.quantum
            && var (outcome, bytes) := Fetch(st, st.geo, pl, n, false);
            && outcome == Done(|bytes|) && Holds(st, p, bytes)
            && |bytes| == (if ByteAt(st, p).None? then 0 else Min(n, st.geo.quantum - pl.within))
  {
    var pl := Locate(st.geo, p);
    LocateInverts(st.geo, p, pl);
    var (_, bytes) := Fetch(st, st.geo, pl, n, false);
    forall i | 0 <= i < |bytes|
      ensures ByteAt(st, p + i) == Some(bytes[i])
    {
      SameBlock(st.geo, p, p + i);
    }
  }

  /**
   Lines 262-263 protect a read exactly when it starts inside the file or where there is no block: past
   the end of the file the subtraction wraps, and the read returns stale bytes of the block.
   */
  lemma ReadStaysInsideExactly(st: Store, p: nat, count: nat, mem: nat)
    requires WellShaped(st) && st.size < WORD && p < WORD
    ensures var (_, outcome, bytes) := Read(st, st.geo, p, count, mem, false);
            (bytes == [] || p + |bytes| <= st.size) && |bytes| <= count <==> p <= st.size || ByteAt(st, p).None?
  {
    var pl := Locate(st.geo, p);
    LocateInverts(st.geo, p, pl);
    GrowKeepsBlocks(st, pl.item, mem);
    if p > st.size {
      assert (st.size - p) % WORD == WORD - (p - st.size);
    }
  }

  /** One byte written, none asked for, three returned: a read at offset 5 of a one-byte file with 8-byte blocks. */
  lemma StaleRead(newBlock: Block)
    requires |newBlock| == 8
    ensures var g: Geometry := Shape(8, 2);
            var (st, _) := Write(Trim(g), g, 0, [1], Env(3, newBlock, None));
            var (_, outcome, bytes) := Read(st, g, 5, 0, 0, false);
            st.size == 1 && outcome == Done(3) && bytes == newBlock[5..]
  {
    var g: Geometry := Shape(8, 2);
    assert Locate(g, 0) == Place(0, 0, 0);
    assert Locate(g, 5) == Place(0, 0, 5);
    assert (1 - 5) % WORD == WORD - 4;
  }
}
