/**
 The storage of a scull device (scull/main.c) as a value: a list of items, each an array of `qset`
 slots, each slot a block of `quantum` bytes.  ScullDevice is the linked structure in memory; this
 module says what its operations compute, and StoreFile what that means for the bytes of the file.
 */
module QuantumStore {
  import opened Bytes

  type Block = seq<Byte>

  /** A list item whose `data` pointer is null is None; so is a null slot. */
  type Item = Option<seq<Option<Block>>>

  datatype Shape = Shape(quantum: nat, qset: nat)

  type Geometry = g: Shape | g.quantum > 0 && g.qset > 0 witness Shape(4000, 1000)

  datatype Store = Store(geo: Geometry, size: nat, items: seq<Item>)

  datatype Place = Place(item: nat, slot: nat, within: nat)

  /** One past the largest value of the `unsigned long` holding the device size. */
  const WORD: nat := 0x1_0000_0000_0000_0000

  /** Wild: the C code indexes outside an array or a block. */
  datatype Outcome = Done(count: nat) | NoMemory | Fault | Wild

  /**
   What a call meets: how many of its allocations succeed before one fails, what a new block holds
   before it is written, and, if the user copy fails, what it leaves in the bytes it was to fill.
   */
  datatype Env = Env(mem: nat, newBlock: Block, fault: Option<Block>)

  /** Every array and every block has the size the device's geometry says. */
  ghost predicate WellShaped(st: Store) {
    forall i :: 0 <= i < |st.items| && st.items[i].Some? ==> RowShaped(st.geo, st.items[i].value)
  }

  ghost predicate RowShaped(g: Geometry, row: seq<Option<Block>>) {
    && |row| == g.qset
    && forall s :: 0 <= s < |row| && row[s].Some? ==> |row[s].value| == g.quantum
  }

  // ---- Addresses ----

  function ItemSize(g: Geometry): (n: nat)
    ensures n > 0
  {
    Positive(g.quantum, g.qset);
    g.quantum * g.qset
  }

  /** Lines 266-269 and 308-311. */
  function Locate(g: Geometry, p: nat): Place {
    var rest := p % ItemSize(g);
    Place(p / ItemSize(g), rest / g.quantum, rest % g.quantum)
  }

  ghost function OffsetOf(g: Geometry, pl: Place): nat {
    pl.item * ItemSize(g) + pl.slot * g.quantum + pl.within
  }

  ghost predicate Proper(g: Geometry, pl: Place) {
    pl.slot < g.qset && pl.within < g.quantum
  }

  lemma Positive(a: nat, b: nat)
    requires a > 0 && b > 0
    ensures a * b > 0
  {
  }

  lemma NonNegative(a: nat, b: nat)
    ensures a * b >= 0
  {
  }

  lemma MulGap(a: nat, b: nat, d: nat)
    requires a < b
    ensures a * d + d <= b * d
  {
    var k := b - a - 1;
    NonNegative(k, d);
    assert b * d == (a + 1 + k) * d == a * d + d + k * d;
  }

  lemma DivModUnique(x: nat, d: nat, q: nat, r: nat)
    requires d > 0 && r < d && x == q * d + r
    ensures x / d == q && x % d == r
  {
    var q', r' := x / d, x % d;
    assert x == q' * d + r';
    if q < q' {
      MulGap(q, q', d);
    } else if q' < q {
      MulGap(q', q, d);
    }
  }

  lemma DivBound(x: nat, d: nat, n: nat)
    requires d > 0 && x < d * n
    ensures x / d < n
  {
    var q := x / d;
    assert x == q * d + x % d;
    if n <= q {
      if n < q {
        MulGap(n, q, d);
      }
      assert false;
    }
  }

  /** Offsets and proper places correspond one to one. */
  lemma LocateInverts(g: Geometry, p: nat, pl: Place)
    ensures Proper(g, Locate(g, p)) && OffsetOf(g, Locate(g, p)) == p
    ensures Proper(g, pl) ==> Locate(g, OffsetOf(g, pl)) == pl
  {
    var rest := p % ItemSize(g);
    assert p == p / ItemSize(g) * ItemSize(g) + rest;
    assert rest == rest / g.quantum * g.quantum + rest % g.quantum;
    DivBound(rest, g.quantum, g.qset);
    if Proper(g, pl) {
      var inner := pl.slot * g.quantum + pl.within;
      MulGap(pl.slot, g.qset, g.quantum);
      assert g.qset * g.quantum == ItemSize(g);
      DivModUnique(inner, g.quantum, pl.slot, pl.within);
      DivModUnique(OffsetOf(g, pl), ItemSize(g), pl.item, inner);
    }
  }

  /** Two offsets share a block exactly when they differ by what their places in the block differ by, within one quantum. */
  lemma SameBlock(g: Geometry, p: nat, off: nat)
    ensures var a, b := Locate(g, p), Locate(g, off);
            a.item == b.item && a.slot == b.slot <==> 0 <= a.within + off - p < g.quantum
    ensures var a, b := Locate(g, p), Locate(g, off);
            a.item == b.item && a.slot == b.slot ==> b.within == a.within + off - p
  {
    var a, b := Locate(g, p), Locate(g, off);
    LocateInverts(g, p, a);
    LocateInverts(g, off, b);
    if 0 <= a.within + off - p < g.quantum {
      LocateInverts(g, off, Place(a.item, a.slot, a.within + off - p));
    }
  }

  function BlockAt(st: Store, item: nat, slot: nat): Option<Block> {
    if item < |st.items| && st.items[item].Some? && slot < |st.items[item].value| then st.items[item].value[slot] else None
  }

  // ---- Operations ----

  /** `scull_follow`: lengthen the list to reach item `n`, as far as memory allows.  Readers do so too. */
  function Grow(items: seq<Item>, n: nat, mem: nat): seq<Item> {
    items + seq(Min(mem, Max(0, n + 1 - |items|)), _ => None)
  }

  /** What an allocation step leaves: the device, the allocations still to come, and whether it went well. */
  datatype Step = Step(st: Store, left: nat, outcome: Outcome)

  /** The list item a write goes to (lines 314-316). */
  function ReachItem(st: Store, item: nat, mem: nat): Step {
    var items := Grow(st.items, item, mem);
    Step(st.(items := items), mem - (|items| - |st.items|), if |items| <= item then NoMemory else Done(0))
  }

  /** Its array of slots (lines 317-322), sized by the geometry the caller read. */
  function ReachRow(st: Store, g: Geometry, item: nat, mem: nat): Step
    requires item < |st.items|
  {
    if st.items[item].Some? then Step(st, mem, Done(0))
    else if mem == 0 then Step(st, 0, NoMemory)
    else Step(st.(items := st.items[item := Some(seq(g.qset, _ => None))]), mem - 1, Done(0))
  }

  /** Its block (lines 323-327). */
  function ReachBlock(st: Store, item: nat, slot: nat, mem: nat, newBlock: Block): Step
    requires item < |st.items| && st.items[item].Some?
  {
    var row := st.items[item].value;
    if slot >= |row| then Step(st, mem, Wild)
    else if row[slot].Some? then Step(st, mem, Done(0))
    else if mem == 0 then Step(st, 0, NoMemory)
    else Step(st.(items := st.items[item := Some(row[slot := Some(newBlock)])]), mem - 1, Done(0))
  }

  /** The allocations of a write, in order; the first that fails ends it. */
  function Prepare(st: Store, g: Geometry, pl: Place, env: Env): (Store, Outcome) {
    var a := ReachItem(st, pl.item, env.mem);
    if !a.outcome.Done? then (a.st, a.outcome)
    else
      var b := ReachRow(a.st, g, pl.item, a.left);
      if !b.outcome.Done? then (b.st, b.outcome)
      else
        var c := ReachBlock(b.st, pl.item, pl.slot, b.left, env.newBlock);
        (c.st, c.outcome)
  }

  function SetBlock(st: Store, pl: Place, block: Block): Store
    requires BlockAt(st, pl.item, pl.slot).Some?
  {
    st.(items := st.items[pl.item := Some(st.items[pl.item].value[pl.slot := Some(block)])])
  }

  function Patch(block: Block, at: nat, put: Block): Block
    requires at + |put| <= |block|
  {
    block[..at] + put + block[at + |put|..]
  }

  /** The copy of a write (lines 330-342), into a block that is there. */
  function Land(ready: Store, pl: Place, p: nat, data: seq<Byte>, fault: Option<Block>): (Store, Outcome) {
    var put := if fault.Some? then fault.value else data;
    match BlockAt(ready, pl.item, pl.slot)
    case None => (ready, Wild)
    case Some(block) =>
      if pl.within + |put| > |block| then (ready, Wild)
      else
        var after := SetBlock(ready, pl, Patch(block, pl.within, put));
        if fault.Some? then (after, Fault) else (after.(size := Max(ready.size, p + |put|)), Done(|put|))
  }

  /**
   `scull_write` at offset `p`, with the geometry `g` read before the semaphore was taken (line 298).
   It stops at the end of the block.
   */
  function Write(st: Store, g: Geometry, p: nat, data: seq<Byte>, env: Env): (r: (Store, Outcome))
    requires env.fault.Some? ==> |env.fault.value| == WriteCount(g, p, data)
    ensures r.0.geo == st.geo
    ensures r.1.Done? ==> r.1.count == WriteCount(g, p, data) && env.fault.None?
  {
    var (ready, outcome) := Prepare(st, g, Locate(g, p), env);
    if !outcome.Done? then (ready, outcome)
    else Land(ready, Locate(g, p), p, data[..WriteCount(g, p, data)], env.fault)
  }

  function WriteCount(g: Geometry, p: nat, data: seq<Byte>): (n: nat)
    ensures n <= |data|
  {
    Min(|data|, g.quantum - Locate(g, p).within)
  }

  /** Lines 262-263: the clip to the end of the file, an unsigned subtraction. */
  function Clip(size: nat, p: nat, count: nat): nat {
    if p + count >= size then (size - p) % WORD else count
  }

  /** The copy of a read (lines 274-284) of `n` bytes, or up to the end of a quantum of the geometry read. */
  function Fetch(st: Store, g: Geometry, pl: Place, n: nat, fault: bool): (r: (Outcome, seq<Byte>))
    requires pl.within < g.quantum
    ensures r.0.Done? ==> r.0.count == |r.1|
  {
    if pl.item < |st.items| && st.items[pl.item].Some? && pl.slot >= |st.items[pl.item].value| then (Wild, [])
    else
      match BlockAt(st, pl.item, pl.slot)
      case None => (Done(0), [])
      case Some(block) =>
        var n := Min(n, g.quantum - pl.within);
        if pl.within + n > |block| then (Wild, [])
        else if fault then (Fault, [])
        else (Done(n), block[pl.within..pl.within + n])
  }

  /** `scull_read` at offset `p`.  A missing block reads as the end of the file. */
  function Read(st: Store, g: Geometry, p: nat, count: nat, mem: nat, fault: bool): (r: (Store, Outcome, seq<Byte>))
    ensures r.0.geo == st.geo && r.0.size == st.size
    ensures r.1.Done? ==> r.1.count == |r.2|
  {
    var pl := Locate(g, p);
    var after := st.(items := Grow(st.items, pl.item, mem));
    var (outcome, bytes) := Fetch(after, g, pl, Clip(st.size, p, count), fault);
    (after, outcome, bytes)
  }

  /** `scull_trim`: everything is freed and the device takes over the global geometry. */
  function Trim(global: Geometry): Store {
    Store(global, 0, [])
  }
}
