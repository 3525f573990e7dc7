/**
 The page-order variant of the store (sculld/main.c:64-173 and 213-241): a block is 2^order zeroed pages,
 the device itself is the first list item, and the items that follow it carry an order of their own.
 */
module SculldStore {
  import opened Bytes
  import opened QuantumStore
  import opened StoreFile

  /** A block, and the order it was allocated with. */
  datatype Chunk = Chunk(order: nat, bytes: Block)

  type Row = seq<Option<Chunk>>

  datatype Node = Node(order: nat, data: Option<Row>)

  /** `nodes[0]` is the device. */
  datatype Dev = Dev(qset: nat, size: nat, nodes: seq<Node>)

  /** `sculld_follow` clears a new item (lines 71-72), so its order is 0; the geometry needs the device's. */
  datatype OrderRule = AsWritten | Inherited

  function BlockSize(page: nat, order: nat): (n: nat)
    requires page > 0
    ensures n >= page && (order > 0 ==> n >= 2 * page)
  {
    if order == 0 then page else 2 * BlockSize(page, order - 1)
  }

  function Pow2(k: nat): nat {
    if k == 0 then 1 else 2 * Pow2(k - 1)
  }

  /** `PAGE_SIZE << order` (line 85). */
  lemma {:induction false} BlockSizeIsShift(page: nat, order: nat)
    requires page > 0
    ensures BlockSize(page, order) == page * Pow2(order)
  {
    if order > 0 {
      BlockSizeIsShift(page, order - 1);
    }
  }

  predicate Sane(d: Dev) {
    d.qset > 0 && d.nodes != []
  }

  function GeometryOf(page: nat, d: Dev): Geometry
    requires page > 0 && Sane(d)
  {
    Shape(BlockSize(page, d.nodes[0].order), d.qset)
  }

  /** Every array has `qset` slots, and every block was allocated with the order its item still has. */
  ghost predicate WellFormed(rule: OrderRule, page: nat, d: Dev)
    requires page > 0
  {
    && Sane(d)
    && (forall i :: 0 < i < |d.nodes| ==> d.nodes[i].order == FollowerOrder(rule, d))
    && forall i :: 0 <= i < |d.nodes| && d.nodes[i].data.Some? ==> RowFormed(page, d.qset, d.nodes[i].order, d.nodes[i].data.value)
  }

  ghost predicate RowFormed(page: nat, qset: nat, order: nat, row: Row)
    requires page > 0
  {
    && |row| == qset
    && forall s :: 0 <= s < |row| && row[s].Some? ==> row[s].value.order == order && |row[s].value.bytes| == BlockSize(page, order)
  }

  function FollowerOrder(rule: OrderRule, d: Dev): nat
    requires Sane(d)
  {
    if rule.AsWritten? then 0 else d.nodes[0].order
  }

  function ChunkAt(d: Dev, item: nat, slot: nat): Option<Chunk> {
    if item < |d.nodes| && d.nodes[item].data.Some? && slot < |d.nodes[item].data.value| then d.nodes[item].data.value[slot]
    else None
  }

  // ---- Operations ----

  /** `sculld_follow`.  It clears a new item without looking whether it got one: too little memory is a wild access. */
  function Follow(rule: OrderRule, d: Dev, n: nat): Dev
    requires Sane(d)
  {
    d.(nodes := d.nodes + seq(Max(0, n + 1 - |d.nodes|), _ => Node(FollowerOrder(rule, d), None)))
  }

  function Zeros(n: nat): (r: Block)
    ensures |r| == n && forall i :: 0 <= i < n ==> r[i] == 0
  {
    seq(n, _ => 0)
  }

  function SetRow(d: Dev, item: nat, row: Row): Dev
    requires item < |d.nodes|
  {
    d.(nodes := d.nodes[item := d.nodes[item].(data := Some(row))])
  }

  /** What an allocation leaves: the device, the allocations still to come, and whether it went well. */
  datatype After = After(d: Dev, left: nat, outcome: Outcome)

  /** The array of a write (lines 143-148). */
  function AddRow(d: Dev, item: nat, mem: nat): After
    requires item < |d.nodes|
  {
    if d.nodes[item].data.Some? then After(d, mem, Done(0))
    else if mem == 0 then After(d, 0, NoMemory)
    else After(SetRow(d, item, seq(d.qset, _ => None)), mem - 1, Done(0))
  }

  /** Its block, of the order of the item, cleared (lines 150-155). */
  function AddBlock(page: nat, d: Dev, item: nat, slot: nat, mem: nat): After
    requires page > 0 && item < |d.nodes| && d.nodes[item].data.Some?
  {
    var row, order := d.nodes[item].data.value, d.nodes[item].order;
    if slot >= |row| then After(d, mem, Wild)
    else if row[slot].Some? then After(d, mem, Done(0))
    else if mem == 0 then After(d, 0, NoMemory)
    else After(SetRow(d, item, row[slot := Some(Chunk(order, Zeros(BlockSize(page, order))))]), mem - 1, Done(0))
  }

  function AddBoth(page: nat, d: Dev, item: nat, slot: nat, mem: nat): (Dev, Outcome)
    requires page > 0 && item < |d.nodes|
  {
    var b := AddRow(d, item, mem);
    if !b.outcome.Done? then (b.d, b.outcome)
    else
      var c := AddBlock(page, b.d, item, slot, b.left);
      (c.d, c.outcome)
  }

  /** The allocations of a write, in order. */
  function Prepare(rule: OrderRule, page: nat, d: Dev, pl: Place, mem: nat): (Dev, Outcome)
    requires page > 0 && Sane(d)
  {
    var missing := Max(0, pl.item + 1 - |d.nodes|);
    if mem < missing then (d, Wild) else AddBoth(page, Follow(rule, d, pl.item), pl.item, pl.slot, mem - missing)
  }

  /** The copy (lines 157-168). */
  function Copy(d: Dev, pl: Place, p: nat, data: seq<Byte>, fault: Option<Block>): (Dev, Outcome) {
    var put := if fault.Some? then fault.value else data;
    match ChunkAt(d, pl.item, pl.slot)
    case None => (d, Wild)
    case Some(chunk) =>
      if pl.within + |put| > |chunk.bytes| then (d, Wild)
      else
        var after := SetRow(d, pl.item, d.nodes[pl.item].data.value[pl.slot := Some(chunk.(bytes := Patch(chunk.bytes, pl.within, put)))]);
        if fault.Some? then (after, Fault) else (after.(size := Max(d.size, p + |put|)), Done(|put|))
  }

  /** `sculld_write`. */
  function Write(rule: OrderRule, page: nat, d: Dev, p: nat, data: seq<Byte>, mem: nat, fault: Option<Block>): (Dev, Outcome)
    requires page > 0 && Sane(d)
  {
    var g := GeometryOf(page, d);
    var pl := Locate(g, p);
    var (ready, outcome) := Prepare(rule, page, d, pl, mem);
    if !outcome.Done? then (ready, outcome) else Copy(ready, pl, p, data[..WriteCount(g, p, data)], fault)
  }

  /** `sculld_read`. */
  function Read(rule: OrderRule, page: nat, d: Dev, p: nat, count: nat, mem: nat, fault: bool): (Dev, Outcome, seq<Byte>)
    requires page > 0 && Sane(d)
  {
    var g := GeometryOf(page, d);
    var pl := Locate(g, p);
    if mem < Max(0, pl.item + 1 - |d.nodes|) then (d, Wild, [])
    else
      var after := Follow(rule, d, pl.item);
      var row := after.nodes[pl.item].data;
      if row.Some? && pl.slot >= |row.value| then (after, Wild, [])
      else
        match ChunkAt(after, pl.item, pl.slot)
        case None => (after, Done(0), [])
        case Some(chunk) =>
          var n := Min(Clip(d.size, p, count), g.quantum - pl.within);
          if pl.within + n > |chunk.bytes| then (after, Wild, [])
          else if fault then (after, Fault, [])
          else (after, Done(n), chunk.bytes[pl.within..pl.within + n])
  }

  /** What `sculld_trim` hands back: a block, with the order its item has, an array, or an item that follows the device. */
  datatype Freed = FreedBlock(item: nat, slot: nat, order: nat) | FreedArray(item: nat) | FreedItem(item: nat)

  function FreedRow(item: nat, order: nat, row: Row, n: nat): seq<Freed>
    requires n <= |row|
  {
    if n == 0 then [] else FreedRow(item, order, row, n - 1) + (if row[n - 1].Some? then [FreedBlock(item, n - 1, order)] else [])
  }

  /** One turn of the loop (lines 223-234). */
  function FreedTurn(d: Dev, i: nat): seq<Freed>
    requires i < |d.nodes|
  {
    var node := d.nodes[i];
    (if node.data.None? then [] else FreedRow(i, node.order, node.data.value, |node.data.value|) + [FreedArray(i)])
    + (if i == 0 then [] else [FreedItem(i)])
  }

  function FreedTurns(d: Dev): seq<seq<Freed>> {
    seq(|d.nodes|, i requires 0 <= i < |d.nodes| => FreedTurn(d, i))
  }

  function InOrder(turns: seq<seq<Freed>>, n: nat): seq<Freed>
    requires n <= |turns|
  {
    if n == 0 then [] else InOrder(turns, n - 1) + turns[n - 1]
  }

  /** The whole loop. */
  function FreedAll(d: Dev): seq<Freed> {
    InOrder(FreedTurns(d), |d.nodes|)
  }

  function Trim(order: nat, qset: nat): Dev {
    Dev(qset, 0, [Node(order, None)])
  }

  // ---- The same file as scull's ----

  function Plain(row: Row): seq<Option<Block>> {
    seq(|row|, s requires 0 <= s < |row| => if row[s].Some? then Some(row[s].value.bytes) else None)
  }

  function PlainItem(n: Node): Item {
    if n.data.None? then None else Some(Plain(n.data.value))
  }

  /** The device without its orders. */
  function Abs(page: nat, d: Dev): Store
    requires page > 0 && Sane(d)
  {
    Store(GeometryOf(page, d), d.size, seq(|d.nodes|, i requires 0 <= i < |d.nodes| => PlainItem(d.nodes[i])))
  }

  /** Blocks are as large as the geometry takes them to be. */
  predicate Fits(rule: OrderRule, d: Dev)
    requires Sane(d)
  {
    rule.Inherited? || d.nodes[0].order == 0
  }

  /** A block as it is allocated for an item: of the order of the item, cleared. */
  function NewBlock(rule: OrderRule, page: nat, d: Dev, item: nat): Block
    requires page > 0 && Sane(d)
  {
    Zeros(BlockSize(page, if item < |d.nodes| then d.nodes[item].order else FollowerOrder(rule, d)))
  }

  lemma AbsFollow(rule: OrderRule, page: nat, d: Dev, n: nat, mem: nat)
    requires page > 0 && WellFormed(rule, page, d) && mem >= Max(0, n + 1 - |d.nodes|)
    ensures var after := Follow(rule, d, n);
            && WellFormed(rule, page, after) && n < |after.nodes| && after.nodes[0] == d.nodes[0]
            && ReachItem(Abs(page, d), n, mem) == Step(Abs(page, after), mem - Max(0, n + 1 - |d.nodes|), Done(0))
  {
    var after := Follow(rule, d, n);
    assert Abs(page, after).items == Grow(Abs(page, d).items, n, mem);
  }

  lemma AbsSetRow(page: nat, d: Dev, item: nat, row: Row)
    requires page > 0 && Sane(d) && item < |d.nodes|
    ensures Abs(page, SetRow(d, item, row)) == Abs(page, d).(items := Abs(page, d).items[item := Some(Plain(row))])
  {
  }

  lemma PlainUpdate(row: Row, s: nat, chunk: Chunk)
    requires s < |row|
    ensures Plain(row[s := Some(chunk)]) == Plain(row)[s := Some(chunk.bytes)]
  {
  }

  lemma RowRefines(rule: OrderRule, page: nat, d: Dev, item: nat, mem: nat)
    requires page > 0 && WellFormed(rule, page, d) && item < |d.nodes|
    ensures var b := AddRow(d, item, mem);
            && WellFormed(rule, page, b.d) && Same(d, b.d) && item < |b.d.nodes| && (b.outcome.Done? ==> b.d.nodes[item].data.Some?)
            && (mem > 0 ==> b.outcome.Done? && b.left >= mem - 1)
            && ReachRow(Abs(page, d), GeometryOf(page, d), item, mem) == Step(Abs(page, b.d), b.left, b.outcome)
  {
    var row: Row := seq(d.qset, _ => None);
    assert RowFormed(page, d.qset, d.nodes[item].order, row);
    AbsSetRow(page, d, item, row);
    assert Plain(row) == seq(d.qset, _ => None);
  }

  lemma BlockKeeps(rule: OrderRule, page: nat, d: Dev, item: nat, slot: nat, mem: nat)
    requires page > 0 && WellFormed(rule, page, d) && item < |d.nodes| && d.nodes[item].data.Some?
    ensures var c := AddBlock(page, d, item, slot, mem);
            && WellFormed(rule, page, c.d) && Same(d, c.d)
            && (c.outcome.Done? ==> ChunkAt(c.d, item, slot).Some?)
            && (slot < d.qset && mem > 0 ==> c.outcome.Done?)
  {
    var row, order := d.nodes[item].data.value, d.nodes[item].order;
    assert RowFormed(page, d.qset, order, row);
    if slot < |row| {
      assert RowFormed(page, d.qset, order, row[slot := Some(Chunk(order, Zeros(BlockSize(page, order))))]);
    }
  }

  lemma BlockRefines(rule: OrderRule, page: nat, d: Dev, item: nat, slot: nat, mem: nat)
    requires page > 0 && WellFormed(rule, page, d) && item < |d.nodes| && d.nodes[item].data.Some?
    ensures var c := AddBlock(page, d, item, slot, mem);
            && WellFormed(rule, page, c.d) && Same(d, c.d)
            && ReachBlock(Abs(page, d), item, slot, mem, NewBlock(rule, page, d, item)) == Step(Abs(page, c.d), c.left, c.outcome)
  {
    BlockKeeps(rule, page, d, item, slot, mem);
    var row, order := d.nodes[item].data.value, d.nodes[item].order;
    if slot < |row| {
      var chunk := Chunk(order, Zeros(BlockSize(page, order)));
      AbsSetRow(page, d, item, row[slot := Some(chunk)]);
      PlainUpdate(row, slot, chunk);
    }
  }

  /** The items keep their orders, and the device its other fields. */
  predicate Same(a: Dev, b: Dev) {
    a.qset == b.qset && a.size == b.size && |a.nodes| == |b.nodes| && forall i :: 0 <= i < |a.nodes| ==> a.nodes[i].order == b.nodes[i].order
  }

  lemma BothRefine(rule: OrderRule, page: nat, d: Dev, item: nat, slot: nat, mem: nat, newBlock: Block)
    requires page > 0 && WellFormed(rule, page, d) && item < |d.nodes| && newBlock == NewBlock(rule, page, d, item)
    ensures var (ready, outcome) := AddBoth(page, d, item, slot, mem);
            var b := ReachRow(Abs(page, d), GeometryOf(page, d), item, mem);
            && WellFormed(rule, page, ready) && Same(d, ready)
            && (if !b.outcome.Done? then (Abs(page, ready), outcome) == (b.st, b.outcome)
                else var c := ReachBlock(b.st, item, slot, b.left, newBlock); (Abs(page, ready), outcome) == (c.st, c.outcome))
  {
    RowRefines(rule, page, d, item, mem);
    var b := AddRow(d, item, mem);
    if b.outcome.Done? {
      BlockRefines(rule, page, b.d, item, slot, b.left);
    }
  }

  lemma PrepareRefines(rule: OrderRule, page: nat, d: Dev, pl: Place, env: Env)
    requires page > 0 && WellFormed(rule, page, d)
    requires env.newBlock == NewBlock(rule, page, d, pl.item) && env.mem >= Max(0, pl.item + 1 - |d.nodes|)
    ensures var (ready, outcome) := Prepare(rule, page, d, pl, env.mem);
            && WellFormed(rule, page, ready)
            && (Abs(page, ready), outcome) == QuantumStore.Prepare(Abs(page, d), GeometryOf(page, d), pl, env)
  {
    var left := env.mem - Max(0, pl.item + 1 - |d.nodes|);
    AbsFollow(rule, page, d, pl.item, env.mem);
    var a := ReachItem(Abs(page, d), pl.item, env.mem);
    assert a.outcome.Done? && a.st == Abs(page, Follow(rule, d, pl.item)) && a.left == left;
    assert NewBlock(rule, page, d, pl.item) == NewBlock(rule, page, Follow(rule, d, pl.item), pl.item);
    BothRefine(rule, page, Follow(rule, d, pl.item), pl.item, pl.slot, left, env.newBlock);
  }

  lemma CopyRefines(rule: OrderRule, page: nat, d: Dev, pl: Place, p: nat, data: seq<Byte>, fault: Option<Block>)
    requires page > 0 && WellFormed(rule, page, d)
    ensures var (after, outcome) := Copy(d, pl, p, data, fault);
            WellFormed(rule, page, after) && (Abs(page, after), outcome) == Land(Abs(page, d), pl, p, data, fault)
  {
    var put := if fault.Some? then fault.value else data;
    var at := ChunkAt(d, pl.item, pl.slot);
    if at.Some? && pl.within + |put| <= |at.value.bytes| {
      var chunk := at.value.(bytes := Patch(at.value.bytes, pl.within, put));
      var row := d.nodes[pl.item].data.value;
      assert RowFormed(page, d.qset, d.nodes[pl.item].order, row);
      AbsSetRow(page, d, pl.item, row[pl.slot := Some(chunk)]);
      PlainUpdate(row, pl.slot, chunk);
      assert RowFormed(page, d.qset, d.nodes[pl.item].order, row[pl.slot := Some(chunk)]);
    }
  }

  /** Follow has not enough memory for the items missing up to this one. */
  predicate Unreachable(d: Dev, item: nat, mem: nat) {
    mem < Max(0, item + 1 - |d.nodes|)
  }

  /**
   Whatever the orders and the memory, a write does to the file what scull's does with blocks that come
   zeroed and of the item's own order, unless an item is missing that it has no memory for.
   */
  lemma WriteRefines(rule: OrderRule, page: nat, d: Dev, p: nat, data: seq<Byte>, mem: nat, fault: Option<Block>)
    requires page > 0 && WellFormed(rule, page, d)
    requires fault.Some? ==> |fault.value| == WriteCount(GeometryOf(page, d), p, data)
    ensures var g := GeometryOf(page, d);
            var item := Locate(g, p).item;
            var (after, outcome) := Write(rule, page, d, p, data, mem, fault);
            && WellFormed(rule, page, after)
            && (if Unreachable(d, item, mem) then outcome.Wild? && after == d
                else (Abs(page, after), outcome)
                     == QuantumStore.Write(Abs(page, d), g, p, data, Env(mem, NewBlock(rule, page, d, item), fault)))
  {
    var g := GeometryOf(page, d);
    var pl := Locate(g, p);
    if !Unreachable(d, pl.item, mem) {
      PrepareRefines(rule, page, d, pl, Env(mem, NewBlock(rule, page, d, pl.item), fault));
      CopyRefines(rule, page, Prepare(rule, page, d, pl, mem).0, pl, p, data[..WriteCount(g, p, data)], fault);
    }
  }

  /**
   With order 0, or if the items had the device's order, that is scull's own write with zeroed blocks, on
   a well-shaped store; so it is wild exactly when follow lacks memory.
   */
  lemma FittingWriteIsSculls(rule: OrderRule, page: nat, d: Dev, p: nat, data: seq<Byte>, mem: nat, fault: Option<Block>)
    requires page > 0 && WellFormed(rule, page, d) && Fits(rule, d)
    requires fault.Some? ==> |fault.value| == WriteCount(GeometryOf(page, d), p, data)
    ensures var g := GeometryOf(page, d);
            && WellShaped(Abs(page, d))
            && NewBlock(rule, page, d, Locate(g, p).item) == Zeros(g.quantum)
            && (Write(rule, page, d, p, data, mem, fault).1.Wild? <==> Unreachable(d, Locate(g, p).item, mem))
  {
    var g := GeometryOf(page, d);
    var st, env := Abs(page, d), Env(mem, Zeros(g.quantum), fault);
    AbsWellShaped(rule, page, d);
    WriteRefines(rule, page, d, p, data, mem, fault);
    if fault.Some? && mem >= Needed(st, Locate(g, p)) {
      FaultyWrite(st, p, data, env);
    } else {
      WriteExact(st, p, data, env.(fault := None));
    }
  }

  lemma AbsWellShaped(rule: OrderRule, page: nat, d: Dev)
    requires page > 0 && WellFormed(rule, page, d) && Fits(rule, d)
    ensures WellShaped(Abs(page, d))
  {
    var st := Abs(page, d);
    forall i | 0 <= i < |st.items| && st.items[i].Some?
      ensures RowShaped(st.geo, st.items[i].value)
    {
      assert RowFormed(page, d.qset, d.nodes[i].order, d.nodes[i].data.value);
    }
  }

  lemma AbsAt(page: nat, d: Dev, item: nat, slot: nat)
    requires page > 0 && Sane(d)
    ensures var at := BlockAt(Abs(page, d), item, slot);
            if ChunkAt(d, item, slot).Some? then at == Some(ChunkAt(d, item, slot).value.bytes) else at == None
    ensures item < |d.nodes| ==> Abs(page, d).items[item].Some? == d.nodes[item].data.Some?
    ensures item < |d.nodes| && d.nodes[item].data.Some? ==> |Abs(page, d).items[item].value| == |d.nodes[item].data.value|
  {
  }

  /** And a read returns what scull's would. */
  lemma ReadRefines(rule: OrderRule, page: nat, d: Dev, p: nat, count: nat, mem: nat, fault: bool)
    requires page > 0 && WellFormed(rule, page, d)
    ensures var (after, outcome, bytes) := Read(rule, page, d, p, count, mem, fault);
            && WellFormed(rule, page, after)
            && (if Unreachable(d, Locate(GeometryOf(page, d), p).item, mem) then outcome.Wild? && after == d && bytes == []
                else (Abs(page, after), outcome, bytes) == QuantumStore.Read(Abs(page, d), GeometryOf(page, d), p, count, mem, fault))
  {
    var pl := Locate(GeometryOf(page, d), p);
    if !Unreachable(d, pl.item, mem) {
      AbsFollow(rule, page, d, pl.item, mem);
      var after := Follow(rule, d, pl.item);
      assert Abs(page, after) == Abs(page, d).(items := Grow(Abs(page, d).items, pl.item, mem));
      AbsAt(page, after, pl.item, pl.slot);
    }
  }

  // ---- With any order ----

  /** The allocations a write needs: the missing items, the array, the block. */
  function Allocations(d: Dev, pl: Place): nat {
    Max(0, pl.item + 1 - |d.nodes|)
    + (if pl.item < |d.nodes| && d.nodes[pl.item].data.Some? then 0 else 1)
    + (if ChunkAt(d, pl.item, pl.slot).Some? then 0 else 1)
  }

  lemma BothKeep(rule: OrderRule, page: nat, d: Dev, pl: Place, mem: nat)
    requires page > 0 && WellFormed(rule, page, d) && pl.slot < d.qset && pl.item < |d.nodes|
    ensures var (ready, outcome) := AddBoth(page, d, pl.item, pl.slot, mem);
            && WellFormed(rule, page, ready) && Same(d, ready) && !outcome.Wild?
            && (outcome.Done? ==> ChunkAt(ready, pl.item, pl.slot).Some?)
            && (outcome.Done? <==> mem >= Allocations(d, pl))
  {
    RowRefines(rule, page, d, pl.item, mem);
    var b := AddRow(d, pl.item, mem);
    if b.outcome.Done? {
      BlockKeeps(rule, page, b.d, pl.item, pl.slot, b.left);
    }
  }

  lemma PrepareKeeps(rule: OrderRule, page: nat, d: Dev, pl: Place, mem: nat)
    requires page > 0 && WellFormed(rule, page, d) && pl.slot < d.qset
    ensures var (ready, outcome) := Prepare(rule, page, d, pl, mem);
            && WellFormed(rule, page, ready) && ready.qset == d.qset && ready.nodes[0].order == d.nodes[0].order
            && (outcome.Done? ==> ChunkAt(ready, pl.item, pl.slot).Some?)
            && (outcome.Done? <==> mem >= Allocations(d, pl))
            && (outcome.Wild? <==> Unreachable(d, pl.item, mem))
  {
    if !Unreachable(d, pl.item, mem) {
      AbsFollow(rule, page, d, pl.item, mem);
      var grown := Follow(rule, d, pl.item);
      assert ChunkAt(grown, pl.item, pl.slot) == ChunkAt(d, pl.item, pl.slot);
      BothKeep(rule, page, grown, pl, mem - Max(0, pl.item + 1 - |d.nodes|));
    }
  }

  /**
   With followers of order 0, a write to a device of any order is wild exactly when follow lacks memory,
   or when it gets to a follower's block and goes beyond its first page: the rest of a follower's quantum
   is not the device's memory.
   */
  lemma FollowersAreOnePage(page: nat, d: Dev, p: nat, data: seq<Byte>, mem: nat, fault: Option<Block>)
    requires page > 0 && WellFormed(AsWritten, page, d)
    requires fault.Some? ==> |fault.value| == WriteCount(GeometryOf(page, d), p, data)
    ensures var pl := Locate(GeometryOf(page, d), p);
            Write(AsWritten, page, d, p, data, mem, fault).1.Wild? <==>
            || Unreachable(d, pl.item, mem)
            || (mem >= Allocations(d, pl) && pl.item > 0 && pl.within + WriteCount(GeometryOf(page, d), p, data) > page)
  {
    var g := GeometryOf(page, d);
    var pl := Locate(g, p);
    LocateInverts(g, p, pl);
    PrepareKeeps(AsWritten, page, d, pl, mem);
    var (ready, outcome) := Prepare(AsWritten, page, d, pl, mem);
    if outcome.Done? {
      assert RowFormed(page, d.qset, ready.nodes[pl.item].order, ready.nodes[pl.item].data.value);
    }
  }

  /** And a read leaves its block exactly in the same two cases, the second where there is a block at all. */
  lemma ReadsOfOnePage(page: nat, d: Dev, p: nat, count: nat, mem: nat, fault: bool)
    requires page > 0 && WellFormed(AsWritten, page, d)
    ensures var g := GeometryOf(page, d);
            var pl := Locate(g, p);
            Read(AsWritten, page, d, p, count, mem, fault).1.Wild? <==>
            || Unreachable(d, pl.item, mem)
            || (ChunkAt(d, pl.item, pl.slot).Some? && pl.item > 0 && pl.within + Min(Clip(d.size, p, count), g.quantum - pl.within) > page)
  {
    var g := GeometryOf(page, d);
    var pl := Locate(g, p);
    LocateInverts(g, p, pl);
    if !Unreachable(d, pl.item, mem) {
      AbsFollow(AsWritten, page, d, pl.item, mem);
      var after := Follow(AsWritten, d, pl.item);
      assert ChunkAt(after, pl.item, pl.slot) == ChunkAt(d, pl.item, pl.slot);
      if after.nodes[pl.item].data.Some? {
        assert RowFormed(page, d.qset, after.nodes[pl.item].order, after.nodes[pl.item].data.value);
      }
    }
  }

  /** Order 1, pages of four bytes, one block an item: five bytes at the start of the second item. */
  lemma FollowerOverrun()
    ensures Write(AsWritten, 4, Trim(1, 1), 8, [1, 2, 3, 4, 5], 3, None).1.Wild?
  {
    var d := Trim(1, 1);
    assert BlockSize(4, 0) == 4 && BlockSize(4, 1) == 8;
    assert Locate(GeometryOf(4, d), 8) == Place(1, 0, 0);
    FollowersAreOnePage(4, d, 8, [1, 2, 3, 4, 5], 3, None);
  }

  // ---- Histories ----

  datatype Call =
    | WriteCall(p: nat, data: seq<Byte>, mem: nat, fault: Option<Block>)
    | ReadCall(p: nat, count: nat, mem: nat, faulty: bool)
    | TrimCall
    | SetGlobal(order: nat, qset: nat)

  datatype World = World(d: Dev, order: nat, qset: nat)

  function Perform(rule: OrderRule, page: nat, w: World, c: Call): (r: World)
    requires page > 0 && Sane(w.d) && w.qset > 0
  {
    match c
    case WriteCall(p, data, mem, fault) => w.(d := Write(rule, page, w.d, p, data, mem, fault).0)
    case ReadCall(p, count, mem, fault) => w.(d := Read(rule, page, w.d, p, count, mem, fault).0)
    case TrimCall => w.(d := Trim(w.order, w.qset))
    case SetGlobal(order, qset) => if qset > 0 then w.(order := order, qset := qset) else w
  }

  lemma PerformKeeps(rule: OrderRule, page: nat, w: World, c: Call)
    requires page > 0 && WellFormed(rule, page, w.d) && w.qset > 0
    ensures WellFormed(rule, page, Perform(rule, page, w, c).d) && Perform(rule, page, w, c).qset > 0
  {
    match c
    case WriteCall(p, data, mem, fault) =>
      var g := GeometryOf(page, w.d);
      LocateInverts(g, p, Locate(g, p));
      PrepareKeeps(rule, page, w.d, Locate(g, p), mem);
      CopyRefines(rule, page, Prepare(rule, page, w.d, Locate(g, p), mem).0, Locate(g, p), p, data[..WriteCount(g, p, data)], fault);
    case ReadCall(p, count, mem, fault) =>
      ReadRefines(rule, page, w.d, p, count, mem, fault);
    case TrimCall =>
    case SetGlobal(_, _) =>
  }

  ghost function Final(rule: OrderRule, page: nat, w: World, calls: seq<Call>): (r: World)
    requires page > 0 && WellFormed(rule, page, w.d) && w.qset > 0
    ensures WellFormed(rule, page, r.d)
    decreases |calls|
  {
    if calls == [] then w
    else
      PerformKeeps(rule, page, w, calls[0]);
      Final(rule, page, Perform(rule, page, w, calls[0]), calls[1..])
  }

  lemma {:induction false} FinalSplit(rule: OrderRule, page: nat, w: World, a: seq<Call>, b: seq<Call>)
    requires page > 0 && WellFormed(rule, page, w.d) && w.qset > 0
    ensures Final(rule, page, w, a).qset > 0
    ensures Final(rule, page, w, a + b) == Final(rule, page, Final(rule, page, w, a), b)
    decreases |a|
  {
    if a == [] {
      assert a + b == b;
    } else {
      PerformKeeps(rule, page, w, a[0]);
      assert (a + b)[1..] == a[1..] + b;
      FinalSplit(rule, page, Perform(rule, page, w, a[0]), a[1..], b);
    }
  }

  lemma FinalOfOne(rule: OrderRule, page: nat, w: World, c: Call)
    requires page > 0 && WellFormed(rule, page, w.d) && w.qset > 0
    ensures Final(rule, page, w, [c]) == Perform(rule, page, w, c)
  {
    PerformKeeps(rule, page, w, c);
    assert [c][1..] == [];
  }

  lemma {:induction false} SizesStay(rule: OrderRule, page: nat, w: World, calls: seq<Call>)
    requires page > 0 && WellFormed(rule, page, w.d) && w.qset > 0
    requires forall i :: 0 <= i < |calls| ==> !calls[i].SetGlobal?
    ensures Final(rule, page, w, calls).order == w.order && Final(rule, page, w, calls).qset == w.qset
    decreases |calls|
  {
    if calls != [] {
      PerformKeeps(rule, page, w, calls[0]);
      SizesStay(rule, page, Perform(rule, page, w, calls[0]), calls[1..]);
    }
  }

  /** A trim leaves the device alone, empty and without array, with the order and the set size that were set last. */
  lemma TrimTakesLastSizes(rule: OrderRule, page: nat, w: World, before: seq<Call>, order: nat, qset: nat, between: seq<Call>)
    requires page > 0 && WellFormed(rule, page, w.d) && w.qset > 0 && qset > 0
    requires forall i :: 0 <= i < |between| ==> !between[i].SetGlobal?
    ensures var d := Final(rule, page, w, before + [SetGlobal(order, qset)] + between + [TrimCall]).d;
            d.size == 0 && d.qset == qset && |d.nodes| == 1 && d.nodes[0].order == order && d.nodes[0].data == None
  {
    var u := Final(rule, page, w, before);
    var upTo := before + [SetGlobal(order, qset)];
    FinalSplit(rule, page, w, before, [SetGlobal(order, qset)]);
    FinalOfOne(rule, page, u, SetGlobal(order, qset));
    FinalSplit(rule, page, w, upTo, between);
    SizesStay(rule, page, Final(rule, page, w, upTo), between);
    FinalSplit(rule, page, w, upTo + between, [TrimCall]);
    FinalOfOne(rule, page, Final(rule, page, w, upTo + between), TrimCall);
  }

  /** The order of freeing: item by item, and what a pointer leads to before what holds the pointer. */
  predicate FreedBefore(f: Freed, g: Freed) {
    || f.item < g.item
    || (f.item == g.item
        && match f
           case FreedBlock(_, slot, _) => g.FreedBlock? ==> slot < g.slot
           case FreedArray(_) => g.FreedItem?
           case FreedItem(_) => false)
  }

  predicate Ordered(freed: seq<Freed>) {
    forall a, b :: 0 <= a < b < |freed| ==> FreedBefore(freed[a], freed[b])
  }

  lemma OrderedJoin(a: seq<Freed>, b: seq<Freed>)
    requires Ordered(a) && Ordered(b) && forall f, g :: f in a && g in b ==> FreedBefore(f, g)
    ensures Ordered(a + b)
  {
    forall i, j | 0 <= i < j < |a + b|
      ensures FreedBefore((a + b)[i], (a + b)[j])
    {
      if i < |a| <= j {
        assert a[i] in a && b[j - |a|] in b;
      }
    }
  }

  lemma {:induction false} FreedRowExactly(item: nat, order: nat, row: Row, n: nat)
    requires n <= |row|
    ensures forall f :: f in FreedRow(item, order, row, n) <==>
                          f.FreedBlock? && f.item == item && f.order == order && f.slot < n && row[f.slot].Some?
    ensures Ordered(FreedRow(item, order, row, n))
  {
    if n > 0 {
      FreedRowExactly(item, order, row, n - 1);
      OrderedJoin(FreedRow(item, order, row, n - 1), if row[n - 1].Some? then [FreedBlock(item, n - 1, order)] else []);
    }
  }

  /** What was allocated for a device: a block with its own order, an array, an item other than the device itself. */
  predicate Allocated(d: Dev, f: Freed) {
    f.item < |d.nodes| &&
    match f
    case FreedBlock(item, slot, order) => ChunkAt(d, item, slot).Some? && ChunkAt(d, item, slot).value.order == order
    case FreedArray(item) => d.nodes[item].data.Some?
    case FreedItem(item) => item > 0
  }

  /** The list of what was allocated for one item, in order. */
  ghost predicate ListsItem(d: Dev, freed: seq<Freed>, i: nat) {
    (forall f :: f in freed <==> f.item == i && Allocated(d, f)) && Ordered(freed)
  }

  lemma FreedTurnExactly(rule: OrderRule, page: nat, d: Dev, i: nat)
    requires page > 0 && WellFormed(rule, page, d) && i < |d.nodes|
    ensures ListsItem(d, FreedTurn(d, i), i)
  {
    var node := d.nodes[i];
    if node.data.Some? {
      var row := node.data.value;
      assert RowFormed(page, d.qset, node.order, row);
      FreedRowExactly(i, node.order, row, |row|);
      OrderedJoin(FreedRow(i, node.order, row, |row|), [FreedArray(i)]);
      OrderedJoin(FreedRow(i, node.order, row, |row|) + [FreedArray(i)], if i == 0 then [] else [FreedItem(i)]);
    }
  }

  /** The list of what was allocated for the first `n` items, in order. */
  ghost predicate ListsUpTo(d: Dev, freed: seq<Freed>, n: nat) {
    (forall f :: f in freed <==> f.item < n && Allocated(d, f)) && Ordered(freed)
  }

  lemma OneTurnMore(d: Dev, a: seq<Freed>, b: seq<Freed>, n: nat)
    requires ListsUpTo(d, a, n) && ListsItem(d, b, n)
    ensures ListsUpTo(d, a + b, n + 1)
  {
    OrderedJoin(a, b);
    forall f
      ensures f in a + b <==> f.item < n + 1 && Allocated(d, f)
    {
      assert f in a + b <==> f in a || f in b;
    }
  }

  lemma {:induction false} TurnsInOrder(d: Dev, turns: seq<seq<Freed>>, n: nat)
    requires n <= |turns| && forall i :: 0 <= i < n ==> ListsItem(d, turns[i], i)
    ensures ListsUpTo(d, InOrder(turns, n), n)
  {
    if n > 0 {
      TurnsInOrder(d, turns, n - 1);
      OneTurnMore(d, InOrder(turns, n - 1), turns[n - 1], n - 1);
    }
  }

  /** The loop frees all that was allocated, each thing once, and none before what it points to. */
  lemma FreedAllExactly(rule: OrderRule, page: nat, d: Dev)
    requires page > 0 && WellFormed(rule, page, d)
    ensures forall f :: f in FreedAll(d) <==> Allocated(d, f)
    ensures Ordered(FreedAll(d)) && forall a, b :: 0 <= a < b < |FreedAll(d)| ==> FreedAll(d)[a] != FreedAll(d)[b]
  {
    var turns := FreedTurns(d);
    forall i | 0 <= i < |turns|
      ensures ListsItem(d, turns[i], i)
    {
      FreedTurnExactly(rule, page, d, i);
    }
    TurnsInOrder(d, turns, |turns|);
    assert forall f :: !FreedBefore(f, f);
  }

  /**
   After every history of writes, reads, trims and changes of the global order and set size, a trim frees
   all that was allocated, each thing once, and each block with the order it was allocated with.
   */
  lemma TrimFreesWithOwnOrder(rule: OrderRule, page: nat, w: World, calls: seq<Call>)
    requires page > 0 && WellFormed(rule, page, w.d) && w.qset > 0
    ensures var d := Final(rule, page, w, calls).d;
            var freed := FreedAll(d);
            && (forall f :: f in freed <==> Allocated(d, f))
            && Ordered(freed) && forall a, b :: 0 <= a < b < |freed| ==> freed[a] != freed[b]
  {
    var d := Final(rule, page, w, calls).d;
    FreedAllExactly(rule, page, d);
  }

  // ---- What a write allocates is what a trim frees ----

  /** Blocks stay where they are, with their orders. */
  ghost predicate KeepsChunks(a: Dev, b: Dev) {
    forall i, s :: ChunkAt(a, i, s).Some? ==> ChunkAt(b, i, s).Some? && ChunkAt(b, i, s).value.order == ChunkAt(a, i, s).value.order
  }

  lemma AddKeepsChunks(page: nat, d: Dev, item: nat, slot: nat, mem: nat)
    requires page > 0 && item < |d.nodes|
    ensures KeepsChunks(d, AddBoth(page, d, item, slot, mem).0)
  {
    var b := AddRow(d, item, mem);
    assert KeepsChunks(d, b.d);
    if b.outcome.Done? {
      assert KeepsChunks(b.d, AddBlock(page, b.d, item, slot, b.left).d);
    }
  }

  lemma PrepareKeepsChunks(rule: OrderRule, page: nat, d: Dev, pl: Place, mem: nat)
    requires page > 0 && Sane(d)
    ensures KeepsChunks(d, Prepare(rule, page, d, pl, mem).0)
  {
    var missing := Max(0, pl.item + 1 - |d.nodes|);
    if mem >= missing {
      var grown := Follow(rule, d, pl.item);
      assert KeepsChunks(d, grown);
      AddKeepsChunks(page, grown, pl.item, pl.slot, mem - missing);
    }
  }

  lemma CopyKeepsChunks(d: Dev, pl: Place, p: nat, data: seq<Byte>, fault: Option<Block>)
    ensures KeepsChunks(d, Copy(d, pl, p, data, fault).0)
  {
  }

  lemma CallKeepsChunks(rule: OrderRule, page: nat, w: World, c: Call)
    requires page > 0 && WellFormed(rule, page, w.d) && w.qset > 0 && !c.TrimCall?
    ensures KeepsChunks(w.d, Perform(rule, page, w, c).d)
  {
    match c
    case WriteCall(p, data, mem, fault) =>
      var g := GeometryOf(page, w.d);
      PrepareKeepsChunks(rule, page, w.d, Locate(g, p), mem);
      CopyKeepsChunks(Prepare(rule, page, w.d, Locate(g, p), mem).0, Locate(g, p), p, data[..WriteCount(g, p, data)], fault);
    case ReadCall(p, count, mem, fault) =>
      assert KeepsChunks(w.d, Follow(rule, w.d, Locate(GeometryOf(page, w.d), p).item));
    case SetGlobal(_, _) =>
    case TrimCall =>
  }

  lemma {:induction false} HistoryKeepsChunks(rule: OrderRule, page: nat, w: World, calls: seq<Call>)
    requires page > 0 && WellFormed(rule, page, w.d) && w.qset > 0
    requires forall i :: 0 <= i < |calls| ==> !calls[i].TrimCall?
    ensures KeepsChunks(w.d, Final(rule, page, w, calls).d)
    decreases |calls|
  {
    if calls != [] {
      PerformKeeps(rule, page, w, calls[0]);
      CallKeepsChunks(rule, page, w, calls[0]);
      HistoryKeepsChunks(rule, page, Perform(rule, page, w, calls[0]), calls[1..]);
    }
  }

  /** A write that has the memory it needs has a block at its place afterwards, even if its copy fails or goes wild. */
  lemma WriteAllocates(rule: OrderRule, page: nat, w: World, p: nat, data: seq<Byte>, mem: nat, fault: Option<Block>)
    requires page > 0 && WellFormed(rule, page, w.d) && w.qset > 0
    requires mem >= Allocations(w.d, Locate(GeometryOf(page, w.d), p))
    ensures var pl := Locate(GeometryOf(page, w.d), p);
            ChunkAt(Perform(rule, page, w, WriteCall(p, data, mem, fault)).d, pl.item, pl.slot).Some?
  {
    var g := GeometryOf(page, w.d);
    var pl := Locate(g, p);
    LocateInverts(g, p, pl);
    PrepareKeeps(rule, page, w.d, pl, mem);
    CopyKeepsChunks(Prepare(rule, page, w.d, pl, mem).0, pl, p, data[..WriteCount(g, p, data)], fault);
  }

  /** The next trim frees the block of every such write, with the order of its item, whatever calls came in between. */
  lemma WrittenIsFreed(rule: OrderRule, page: nat, w: World, p: nat, data: seq<Byte>, mem: nat, fault: Option<Block>, after: seq<Call>)
    requires page > 0 && WellFormed(rule, page, w.d) && w.qset > 0
    requires mem >= Allocations(w.d, Locate(GeometryOf(page, w.d), p))
    requires forall i :: 0 <= i < |after| ==> !after[i].TrimCall?
    ensures var pl := Locate(GeometryOf(page, w.d), p);
            var d := Final(rule, page, w, [WriteCall(p, data, mem, fault)] + after).d;
            pl.item < |d.nodes| && FreedBlock(pl.item, pl.slot, d.nodes[pl.item].order) in FreedAll(d)
  {
    var c, pl := WriteCall(p, data, mem, fault), Locate(GeometryOf(page, w.d), p);
    FinalSplit(rule, page, w, [c], after);
    FinalOfOne(rule, page, w, c);
    PerformKeeps(rule, page, w, c);
    WriteAllocates(rule, page, w, p, data, mem, fault);
    HistoryKeepsChunks(rule, page, Perform(rule, page, w, c), after);
    var d := Final(rule, page, w, [c] + after).d;
    assert ChunkAt(d, pl.item, pl.slot).Some?;
    assert RowFormed(page, d.qset, d.nodes[pl.item].order, d.nodes[pl.item].data.value);
    FreedAllExactly(rule, page, d);
    assert Allocated(d, FreedBlock(pl.item, pl.slot, d.nodes[pl.item].order));
  }
}
