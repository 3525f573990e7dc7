/**
 The scull device in memory (scull/main.c): a linked list of quantum sets, each with an array of
 pointers to blocks.  Every method is proved to do to the structure what QuantumStore says it does to
 its value.
 */
module ScullDevice {
  import opened Bytes
  import opened QuantumStore

  class QSet {
    var data: array?<array?<Byte>>
    var next: QSet?

    /** `kmalloc` and `memset`. */
    constructor ()
      ensures data == null && next == null
    {
      data, next := null, null;
    }
  }

  /** Which item, array or block of the device an object is. */
  datatype Home = Node(item: nat) | Row(item: nat) | Cell(item: nat, slot: nat)

  predicate Occupied(items: seq<Item>, h: Home) {
    match h
    case Node(i) => i < |items|
    case Row(i) => i < |items| && items[i].Some?
    case Cell(i, s) => i < |items| && items[i].Some? && s < |items[i].value| && items[i].value[s].Some?
  }

  /** The order of freeing: item by item, and what a pointer leads to before what holds the pointer. */
  predicate FreedBefore(h: Home, g: Home) {
    || h.item < g.item
    || (h.item == g.item
        && match h
           case Cell(_, s) => g.Cell? ==> s < g.slot
           case Row(_) => g.Node?
           case Node(_) => false)
  }

  ghost predicate InOrder(home: map<object, Home>, freed: seq<object>) {
    && (forall o :: o in freed ==> o in home)
    && forall a, b :: 0 <= a < b < |freed| ==> FreedBefore(home[freed[a]], home[freed[b]])
  }

  lemma OneMoreFreed(home: map<object, Home>, freed: seq<object>, o: object)
    requires InOrder(home, freed) && o in home && forall f :: f in freed ==> FreedBefore(home[f], home[o])
    ensures InOrder(home, freed + [o])
  {
    forall a, b | 0 <= a < b < |freed + [o]|
      ensures FreedBefore(home[(freed + [o])[a]], home[(freed + [o])[b]])
    {
      if b == |freed| {
        assert freed[a] in freed;
      }
    }
  }

  /** Each object has its own place, and the place is in use: nothing that was allocated is lost. */
  ghost predicate Tidy(home: map<object, Home>, items: seq<Item>) {
    && (forall o :: o in home ==> Occupied(items, home[o]))
    && (forall o, o' :: o in home && o' in home && home[o] == home[o'] ==> o == o')
  }

  lemma TidyAdd(home: map<object, Home>, items: seq<Item>, items': seq<Item>, o: object, h: Home)
    requires Tidy(home, items) && o !in home && !Occupied(items, h) && Occupied(items', h)
    requires forall h' :: Occupied(items, h') ==> Occupied(items', h')
    ensures Tidy(home[o := h], items')
  {
  }

  /** Empty items behind a list. */
  ghost predicate Lengthened(before: seq<Item>, after: seq<Item>) {
    |before| <= |after| && forall i :: 0 <= i < |after| ==> after[i] == if i < |before| then before[i] else None
  }

  /** A list that was followed to number `n` with memory for `mem` new items, of which `left` are not used. */
  lemma GrownBy(before: seq<Item>, after: seq<Item>, n: nat, mem: nat, left: nat)
    requires Lengthened(before, after) && left == mem - (|after| - |before|)
    requires if n < |after| then |after| <= Max(|before|, n + 1) else left == 0
    ensures after == Grow(before, n, mem)
  {
    assert |after| - |before| == Min(mem, Max(0, n + 1 - |before|));
  }

  class ScullDev {
    var data: QSet?
    var quantum: nat
    var qset: nat
    var size: nat

    ghost var nodes: seq<QSet>         // the list from `data` on
    ghost var items: seq<Item>         // the value it stands for
    ghost var home: map<object, Home>  // every object of the device, in its one place

    ghost predicate Valid()
      reads this, home.Keys
    {
      && this !in home
      && quantum > 0 && qset > 0
      && |nodes| == |items|
      && data == (if nodes == [] then null else nodes[0])
      && (forall i :: 0 <= i < |nodes| ==> NodeValid(i))
      && Tidy(home, items)
    }

    ghost predicate NodeValid(i: nat)
      reads this, home.Keys
      requires i < |nodes| == |items|
    {
      LinkValid(i) && DataValid(i)
    }

    ghost predicate LinkValid(i: nat)
      reads this, home.Keys
      requires i < |nodes|
    {
      var n := nodes[i];
      n in home && home[n] == Node(i) && n.next == (if i + 1 < |nodes| then nodes[i + 1] else null)
    }

    ghost predicate DataValid(i: nat)
      reads this, home.Keys
      requires i < |nodes| == |items|
    {
      var n := nodes[i];
      && n in home
      && (n.data == null <==> items[i].None?)
      && (n.data != null ==>
            && n.data in home && home[n.data] == Row(i)
            && n.data.Length == qset == |items[i].value|
            && forall s :: 0 <= s < qset ==> (n.data[s] == null || n.data[s] in home) && SlotValid(i, s, n.data[s]))
    }

    ghost predicate SlotValid(i: nat, s: nat, block: array?<Byte>)
      reads this, block, home.Keys
      requires i < |items| && items[i].Some? && s < |items[i].value|
    {
      && (block == null <==> items[i].value[s].None?)
      && (block != null ==>
            && block in home && home[block] == Cell(i, s)
            && block.Length == quantum
            && block[..] == items[i].value[s].value)
    }

    ghost function Geo(): Geometry
      reads this
      requires quantum > 0 && qset > 0
    {
      Shape(quantum, qset)
    }

    /** The value this structure stands for. */
    ghost function Model(): Store
      reads this
      requires quantum > 0 && qset > 0
    {
      Store(Geo(), size, items)
    }

    lemma ModelIsWellShaped()
      requires Valid()
      ensures WellShaped(Model())
    {
      forall i | 0 <= i < |items| && items[i].Some?
        ensures RowShaped(Geo(), items[i].value)
      {
        assert NodeValid(i);
        forall s | 0 <= s < qset && items[i].value[s].Some?
          ensures |items[i].value[s].value| == quantum
        {
          assert SlotValid(i, s, nodes[i].data[s]);
        }
      }
    }

    constructor (quantum: nat, qset: nat)
      requires quantum > 0 && qset > 0
      ensures Valid() && home == map[] && Model() == Store(Shape(quantum, qset), 0, [])
    {
      this.quantum, this.qset, size, data := quantum, qset, 0, null;
      nodes, items, home := [], [], map[];
    }

    /** The first item of the list. */
    method Start()
      requires Valid() && nodes == []
      modifies this`data, this`nodes, this`items, this`home
      ensures Valid() && fresh(home.Keys - old(home.Keys))
      ensures |nodes| == 1 && items == [None]
    {
      var added := new QSet();
      TidyAdd(home, items, [None], added, Node(0));
      data := added;
      nodes, items, home := [added], [None], home[added := Node(0)];
    }

    /** A new item at the end of the list, linked by the last one. */
    method Append(last: QSet)
      requires Valid() && nodes != [] && last == nodes[|nodes| - 1]
      modifies this`nodes, this`items, this`home, last`next
      ensures Valid() && fresh(home.Keys - old(home.Keys))
      ensures old(nodes) <= nodes && |nodes| == old(|nodes|) + 1
      ensures items == old(items) + [None]
    {
      var added := new QSet();
      ghost var k := |nodes|;
      TidyAdd(home, items, items + [None], added, Node(k));
      assert forall i :: 0 <= i < k ==> NodeValid(i);
      Link(last, added);
    }

    /** A cleared item becomes the last. */
    method Link(last: QSet, added: QSet)
      requires this !in home && quantum > 0 && qset > 0 && nodes != [] && |nodes| == |items| && data == nodes[0]
      requires last == nodes[|nodes| - 1] && added !in home && added.data == null && added.next == null
      requires (forall i :: 0 <= i < |nodes| ==> NodeValid(i)) && Tidy(home[added := Node(|nodes|)], items + [None])
      modifies this`nodes, this`items, this`home, last`next
      ensures Valid() && nodes == old(nodes) + [added] && items == old(items) + [None] && home == old(home)[added := Node(old(|nodes|))]
    {
      ghost var k := |nodes|;
      assert NodeValid(k - 1);
      nodes, items, home := nodes + [added], items + [None], home[added := Node(k)];
      last.next := added;
      forall i | 0 <= i < k
        ensures LinkValid(i) && DataValid(i)
      {
        assert old(NodeValid(i));
      }
    }

    /**
     `scull_follow`: walks exactly `n` links, lengthening the list where it ends.  `mem` allocations
     succeed, and `left` of them are still to come.
     */
    method Follow(n: nat, mem: nat) returns (qs: QSet?, left: nat)
      requires Valid()
      modifies this`data, this`nodes, this`items, this`home, home.Keys
      ensures Valid() && fresh(home.Keys - old(home.Keys)) && old(nodes) <= nodes
      ensures items == Grow(old(items), n, mem)
      ensures |nodes| == Max(old(|nodes|), Min(n + 1, old(|nodes|) + mem))
      ensures left == mem - (|nodes| - old(|nodes|))
      ensures qs == if n < |nodes| then nodes[n] else null
    {
      left := mem;
      if data == null {
        if left == 0 {
          GrownBy(items, items, n, mem, 0);
          return null, 0;
        }
        Start();
        left := left - 1;
      }
      qs, left := Walk(n, left);
      GrownBy(old(items), items, n, mem, left);
    }

    /** The loop of `scull_follow`, from the first item on. */
    method Walk(n: nat, mem: nat) returns (qs: QSet?, left: nat)
      requires Valid() && nodes != []
      modifies this`data, this`nodes, this`items, this`home, home.Keys
      ensures Valid() && fresh(home.Keys - old(home.Keys)) && old(nodes) <= nodes
      ensures Lengthened(old(items), items)
      ensures if n < |nodes| then |nodes| <= Max(old(|nodes|), n + 1) else left == 0
      ensures left == mem - (|nodes| - old(|nodes|))
      ensures qs == if n < |nodes| then nodes[n] else null
    {
      qs, left := data, mem;
      var k := n;
      while k > 0
        invariant 0 <= k <= n
        invariant Valid() && fresh(home.Keys - old(home.Keys)) && old(nodes) <= nodes
        invariant n - k < |nodes| <= Max(old(|nodes|), n - k + 1)
        invariant qs == nodes[n - k]
        invariant left == mem - (|nodes| - old(|nodes|))
        invariant Lengthened(old(items), items)
      {
        assert NodeValid(n - k);
        qs, left := Next(n - k, qs, left);
        if qs == null {
          assert |nodes| <= n;
          return null, 0;
        }
        k := k - 1;
      }
    }

    /** One link of the walk: the item after number `i`, made if the list ends there and memory allows. */
    method Next(ghost i: nat, qs: QSet, mem: nat) returns (next: QSet?, left: nat)
      requires Valid() && i < |nodes| && qs == nodes[i]
      modifies this`nodes, this`items, this`home, qs`next
      ensures Valid() && fresh(home.Keys - old(home.Keys)) && old(nodes) <= nodes
      ensures |nodes| == old(|nodes|) + (if i + 1 == old(|nodes|) && mem > 0 then 1 else 0)
      ensures Lengthened(old(items), items)
      ensures left == mem - (|nodes| - old(|nodes|))
      ensures if i + 1 < |nodes| then next == nodes[i + 1] else next == null && mem == 0
    {
      left := mem;
      assert NodeValid(i);
      if qs.next == null {
        if left == 0 {
          return null, 0;
        }
        Append(qs);
        left := left - 1;
        assert NodeValid(i);
      }
      next := qs.next;
    }

    /** The array of slots of item `i`, all null, unless it has one. */
    method ReachRow(ghost i: nat, qs: QSet, mem: nat) returns (r: Outcome, left: nat)
      requires Valid() && i < |nodes| && qs == nodes[i]
      modifies this`items, this`home, qs`data
      ensures Valid() && fresh(home.Keys - old(home.Keys))
      ensures Step(Model(), left, r) == QuantumStore.ReachRow(old(Model()), old(Geo()), i, mem)
      ensures |home| == old(|home|) + mem - left
      ensures r.Done? ==> qs.data != null && qs.data in home
    {
      assert NodeValid(i);
      if qs.data != null {
        return Done(0), mem;
      }
      if mem == 0 {
        return NoMemory, 0;
      }
      AddRow(i, qs);
      r, left := Done(0), mem - 1;
    }

    method AddRow(ghost i: nat, qs: QSet)
      requires Valid() && i < |nodes| && qs == nodes[i] && items[i].None?
      modifies this`items, this`home, qs`data
      ensures Valid() && fresh(home.Keys - old(home.Keys)) && qs.data != null && qs.data in home
      ensures items == old(items)[i := Some(seq(qset, _ => None))] && |home| == old(|home|) + 1
    {
      var row := new array?<Byte>[qset](_ => null);
      ghost var items' := items[i := Some(seq(qset, _ => None))];
      TidyAdd(home, items, items', row, Row(i));
      assert NodeValid(i);
      qs.data := row;
      items, home := items', home[row := Row(i)];
      forall j | 0 <= j < |nodes|
        ensures NodeValid(j)
      {
        assert old(NodeValid(j));
      }
    }

    /** A block for slot `s` of item `i`, unless it has one; what it holds is up to the allocator. */
    method ReachBlock(ghost i: nat, qs: QSet, s: nat, mem: nat, newBlock: Block) returns (r: Outcome, left: nat)
      requires Valid() && i < |nodes| && qs == nodes[i] && qs.data != null && s < qset && |newBlock| == quantum
      modifies this`items, this`home, qs.data
      ensures Valid() && fresh(home.Keys - old(home.Keys)) && items[i].Some?
      ensures i < |old(items)| && old(items)[i].Some?
      ensures Step(Model(), left, r) == QuantumStore.ReachBlock(old(Model()), i, s, mem, newBlock)
      ensures |home| == old(|home|) + mem - left
      ensures r.Done? ==> s < qs.data.Length == qset && qs.data[s] != null && qs.data[s] in home
    {
      assert NodeValid(i) && SlotValid(i, s, qs.data[s]);
      if qs.data[s] != null {
        return Done(0), mem;
      }
      if mem == 0 {
        return NoMemory, 0;
      }
      AddBlock(i, qs, s, newBlock);
      r, left := Done(0), mem - 1;
    }

    method AddBlock(ghost i: nat, qs: QSet, s: nat, newBlock: Block)
      requires Valid() && i < |nodes| && qs == nodes[i] && qs.data != null && s < qs.data.Length && |newBlock| == quantum
      requires items[i].Some? && s < |items[i].value| && items[i].value[s].None?
      modifies this`items, this`home, qs.data
      ensures Valid() && fresh(home.Keys - old(home.Keys)) && qs.data[s] != null && qs.data[s] in home
      ensures items == old(items)[i := Some(old(items)[i].value[s := Some(newBlock)])] && |home| == old(|home|) + 1
    {
      var block := new Byte[quantum](k requires 0 <= k < |newBlock| => newBlock[k]);
      ghost var items' := items[i := Some(items[i].value[s := Some(newBlock)])];
      TidyAdd(home, items, items', block, Cell(i, s));
      assert NodeValid(i);
      assert block[..] == newBlock;
      qs.data[s] := block;
      items, home := items', home[block := Cell(i, s)];
      forall j | 0 <= j < |nodes|
        ensures NodeValid(j)
      {
        assert old(NodeValid(j));
      }
    }

    /** The allocations of a write to slot `s` of item `i`. */
    method Prepare(i: nat, s: nat, env: Env) returns (r: Outcome, qs: QSet?)
      requires Valid() && s < qset && |env.newBlock| == quantum
      modifies this`data, this`nodes, this`items, this`home, home.Keys
      ensures Valid() && fresh(home.Keys - old(home.Keys))
      ensures (Model(), r) == QuantumStore.Prepare(old(Model()), old(Geo()), Place(i, s, 0), env)
      ensures r.Done? ==> i < |nodes| && qs == nodes[i] && qs.data != null && s < qset == qs.data.Length && qs.data[s] != null && qs.data[s] in home
    {
      var left;
      ghost var a := ReachItem(Model(), i, env.mem);
      qs, left := Follow(i, env.mem);
      assert a.st == Model() && (a.outcome.Done? ==> a.left == left);
      if qs == null {
        return NoMemory, null;
      }
      assert NodeValid(i);
      r := RowAndBlock(i, qs, s, left, env.newBlock);
    }

    /** The array of an item, and then the block of a slot. */
    method RowAndBlock(ghost i: nat, qs: QSet, s: nat, mem: nat, newBlock: Block) returns (r: Outcome)
      requires Valid() && i < |nodes| && qs == nodes[i] && s < qset && |newBlock| == quantum
      modifies this`items, this`home, qs`data, home.Keys
      ensures Valid() && fresh(home.Keys - old(home.Keys))
      ensures var b := QuantumStore.ReachRow(old(Model()), old(Geo()), i, mem);
              if !b.outcome.Done? then (Model(), r) == (b.st, b.outcome)
              else var c := QuantumStore.ReachBlock(b.st, i, s, b.left, newBlock); (Model(), r) == (c.st, c.outcome)
      ensures r.Done? ==> qs.data != null && s < qset == qs.data.Length && qs.data[s] != null && qs.data[s] in home
    {
      assert NodeValid(i);
      var left;
      ghost var b := QuantumStore.ReachRow(Model(), Geo(), i, mem);
      r, left := ReachRow(i, qs, mem);
      assert b == Step(Model(), left, r);
      if r.Done? {
        r, left := ReachBlock(i, qs, s, left, newBlock);
      }
    }

    /** `copy_from_user`. */
    method Fill(block: array<Byte>, at: nat, put: Block)
      requires at + |put| <= block.Length
      modifies block
      ensures block[..] == Patch(old(block[..]), at, put)
    {
      forall k | 0 <= k < |put| {
        block[at + k] := put[k];
      }
    }

    /** The copy into a block of the device. */
    method CopyIn(ghost i: nat, qs: QSet, s: nat, at: nat, put: Block)
      requires Valid() && i < |nodes| && qs == nodes[i] && qs.data != null && s < qset == qs.data.Length
      requires qs.data[s] != null && at + |put| <= quantum
      modifies this`items, qs.data[s]
      ensures Valid()
      ensures BlockAt(old(Model()), i, s).Some? && at + |put| <= |BlockAt(old(Model()), i, s).value|
      ensures Model() == SetBlock(old(Model()), Place(i, s, at), Patch(BlockAt(old(Model()), i, s).value, at, put))
    {
      assert NodeValid(i) && SlotValid(i, s, qs.data[s]);
      Overwrite(i, s, qs.data[s], at, put);
    }

    method Overwrite(ghost i: nat, ghost s: nat, block: array<Byte>, at: nat, put: Block)
      requires Valid() && block in home && home[block] == Cell(i, s) && at + |put| <= block.Length == quantum
      requires i < |items| && items[i].Some? && s < |items[i].value| && items[i].value[s].Some?
      modifies this`items, block
      ensures Valid()
      ensures items == old(items)[i := Some(old(items)[i].value[s := Some(Patch(old(block[..]), at, put))])]
    {
      assert forall j :: 0 <= j < |nodes| ==> NodeValid(j);
      Fill(block, at, put);
      items := items[i := Some(items[i].value[s := Some(block[..])])];
      assert forall h :: Occupied(items, h) == Occupied(old(items), h);
      forall j | 0 <= j < |nodes|
        ensures LinkValid(j) && DataValid(j)
      {
        assert old(NodeValid(j));
      }
    }

    method SetSize(n: nat)
      requires Valid()
      modifies this`size
      ensures Valid() && Model() == old(Model()).(size := n)
    {
      size := n;
      forall j | 0 <= j < |nodes|
        ensures NodeValid(j)
      {
        assert old(NodeValid(j));
      }
    }

    /** Lines 266-269 and 308-311. */
    method Address(pos: nat) returns (item: nat, slot: nat, within: nat)
      requires quantum > 0 && qset > 0
      ensures Locate(Geo(), pos) == Place(item, slot, within)
      ensures slot < qset && within < quantum
    {
      var itemsize := quantum * qset;
      assert itemsize == ItemSize(Geo());
      LocateInverts(Geo(), pos, Locate(Geo(), pos));
      item := pos / itemsize;
      var rest := pos % itemsize;
      slot, within := rest / quantum, rest % quantum;
    }

    /**
     `scull_write` at `pos`.  The device's value becomes what QuantumStore.Write says, under the
     geometry read on entry; the file position moves by what was accepted.
     */
    method Write(pos: nat, data: seq<Byte>, env: Env) returns (r: Outcome, newPos: nat)
      requires Valid() && |env.newBlock| == quantum
      requires env.fault.Some? ==> |env.fault.value| == WriteCount(Geo(), pos, data)
      modifies this, home.Keys
      ensures Valid() && fresh(home.Keys - old(home.Keys))
      ensures (Model(), r) == QuantumStore.Write(old(Model()), old(Geo()), pos, data, env)
      ensures newPos == if r.Done? then pos + r.count else pos
    {
      newPos := pos;
      var item, slot, within := Address(pos);
      var n := Min(|data|, quantum - within);
      var qs;
      r, qs := Prepare(item, slot, env);
      if r.Done? {
        r, newPos := Land(item, qs, slot, within, pos, data[..n], env.fault);
      }
    }

    /** The copy of a write, and what it makes of the size and the file position. */
    method Land(ghost i: nat, qs: QSet, s: nat, within: nat, pos: nat, data: seq<Byte>, fault: Option<Block>)
      returns (r: Outcome, newPos: nat)
      requires Valid() && i < |nodes| && qs == nodes[i] && qs.data != null && s < qset == qs.data.Length && qs.data[s] != null
      requires within + |data| <= quantum && (fault.Some? ==> |fault.value| == |data|)
      modifies this`items, this`size, qs.data[s]
      ensures Valid()
      ensures (Model(), r) == QuantumStore.Land(old(Model()), Place(i, s, within), pos, data, fault)
      ensures newPos == if r.Done? then pos + r.count else pos
    {
      newPos := pos;
      if fault.Some? {
        CopyIn(i, qs, s, within, fault.value);
        return Fault, newPos;
      }
      CopyIn(i, qs, s, within, data);
      newPos := pos + |data|;
      if size < newPos {
        SetSize(newPos);
      }
      r := Done(|data|);
    }

    /** Lines 262-263, in the width of the machine. */
    method Clipped(pos: nat, count: nat) returns (n: nat)
      ensures n == Clip(size, pos, count)
    {
      n := if pos + count >= size then (size - pos) % WORD else count;
    }

    /**
     `scull_read` at `pos`: the same list is followed, and may grow, but the value of the device changes
     only as QuantumStore.Read says.
     */
    method Read(pos: nat, count: nat, mem: nat, fault: bool) returns (r: Outcome, bytes: seq<Byte>, newPos: nat)
      requires Valid()
      modifies this, home.Keys
      ensures Valid() && fresh(home.Keys - old(home.Keys))
      ensures (Model(), r, bytes) == QuantumStore.Read(old(Model()), old(Geo()), pos, count, mem, fault)
      ensures newPos == if r.Done? then pos + r.count else pos
    {
      bytes, newPos := [], pos;
      var item, slot, within := Address(pos);
      var clipped := Clipped(pos, count);
      var qs, _ := Follow(item, mem);
      if qs == null {
        return Done(0), [], pos;
      }
      r, bytes := Fetch(item, qs, slot, within, clipped, fault);
      if r.Done? {
        newPos := pos + r.count;
      }
    }

    /** The copy of a read. */
    method Fetch(ghost i: nat, qs: QSet, s: nat, within: nat, count: nat, fault: bool) returns (r: Outcome, bytes: seq<Byte>)
      requires Valid() && i < |nodes| && qs == nodes[i] && s < qset && within < quantum
      ensures (r, bytes) == QuantumStore.Fetch(Model(), Geo(), Place(i, s, within), count, fault)
    {
      assert NodeValid(i);
      if qs.data == null {
        return Done(0), [];
      }
      assert SlotValid(i, s, qs.data[s]);
      if qs.data[s] == null {
        return Done(0), [];
      }
      var n := Min(count, quantum - within);
      if fault {
        return Fault, [];
      }
      bytes := qs.data[s][within..within + n];
      r := Done(n);
    }

    ghost predicate HasPlace(o: object, h: Home)
      reads this
    {
      o in home && home[o] == h
    }

    /** The blocks of one array (lines 58-59); `kfree` of a null slot does nothing. */
    method FreeRow(ghost k: nat, row: array<array?<Byte>>, before: seq<object>) returns (freed: seq<object>)
      requires InOrder(home, before) && forall o :: o in before ==> home[o].item < k
      requires forall s :: 0 <= s < row.Length && row[s] != null ==> HasPlace(row[s], Cell(k, s))
      ensures InOrder(home, freed) && forall o :: o in freed ==> home[o].item < k || (home[o].Cell? && home[o].item == k)
      ensures forall o :: o in freed <==> o in before || exists s :: 0 <= s < row.Length && row[s] == o
    {
      freed := before;
      for i := 0 to row.Length
        invariant InOrder(home, freed)
        invariant forall o :: o in freed ==> home[o].item < k || (home[o].Cell? && home[o].item == k && home[o].slot < i)
        invariant forall o :: o in freed <==> o in before || exists s :: 0 <= s < i && row[s] == o
      {
        if row[i] != null {
          OneMoreFreed(home, freed, row[i]);
          freed := freed + [row[i]];
        }
      }
    }

    /** What has been handed back is what the first `k` items had, in order. */
    ghost predicate FreedUpTo(freed: seq<object>, k: nat)
      reads this
    {
      && InOrder(home, freed)
      && (forall o :: o in freed ==> home[o].item < k)
      && (forall o :: o in home && home[o].item < k ==> o in freed)
    }

    /** An object of item `k` is its node, its array, or a block in the array. */
    lemma ObjectsOfItem(k: nat, o: object)
      requires |nodes| == |items| && k < |nodes| && this !in home && NodeValid(k) && Tidy(home, items)
      requires o in home && home[o].item == k
      ensures o == nodes[k] || o == nodes[k].data
              || (nodes[k].data != null && exists s :: 0 <= s < nodes[k].data.Length && nodes[k].data[s] == o)
    {
      if home[o].Cell? {
        assert SlotValid(k, home[o].slot, nodes[k].data[home[o].slot]);
      }
    }

    /** Only the node of an item is its `Node`. */
    lemma ObjectAbove(k: nat, dptr: QSet, o: object)
      requires Tidy(home, items) && dptr in home && home[dptr] == Node(k) && o in home && home[o].item == k && o != dptr
      ensures FreedBefore(home[o], Node(k))
    {
      assert home[o] != Node(k);
    }

    /** The blocks of an item and its array (lines 57-62). */
    method FreeData(ghost k: nat, dptr: QSet, before: seq<object>) returns (freed: seq<object>)
      requires |nodes| == |items| && k < |nodes| && dptr == nodes[k] && this !in home && NodeValid(k) && Tidy(home, items)
      requires FreedUpTo(before, k)
      modifies dptr`data
      ensures forall o :: o in freed <==> o in before || (o in home && home[o].item == k && o != dptr)
      ensures InOrder(home, freed)
    {
      freed := before;
      forall o | o in home && home[o].item == k {
        ObjectsOfItem(k, o);
      }
      assert forall s :: 0 <= s < qset && dptr.data != null ==> SlotValid(k, s, dptr.data[s]);
      if dptr.data != null {
        freed := FreeRow(k, dptr.data, freed);
        OneMoreFreed(home, freed, dptr.data);
        freed := freed + [dptr.data];
        dptr.data := null;
      }
    }

    /** One turn of the loop of `scull_trim`: the blocks, the array, and the item itself. */
    method FreeItem(ghost k: nat, dptr: QSet, before: seq<object>) returns (freed: seq<object>)
      requires |nodes| == |items| && k < |nodes| && dptr == nodes[k] && this !in home && NodeValid(k) && Tidy(home, items)
      requires FreedUpTo(before, k)
      modifies dptr`data
      ensures FreedUpTo(freed, k + 1)
    {
      freed := FreeData(k, dptr, before);
      forall o | o in freed
        ensures FreedBefore(home[o], Node(k))
      {
        if o !in before {
          ObjectAbove(k, dptr, o);
        }
      }
      OneMoreFreed(home, freed, dptr);
      freed := freed + [dptr];
    }

    /** The loop of `scull_trim`. */
    method FreeAll() returns (freed: seq<object>)
      requires Valid()
      modifies nodes
      ensures FreedUpTo(freed, |nodes|)
    {
      freed := [];
      ghost var k := 0;
      var dptr := data;
      while dptr != null
        invariant 0 <= k <= |nodes| && dptr == (if k < |nodes| then nodes[k] else null)
        invariant FreedUpTo(freed, k)
        invariant forall j :: k <= j < |nodes| ==> NodeValid(j)
        decreases |nodes| - k
      {
        assert NodeValid(k);
        var next := dptr.next;
        label before:
        freed := FreeItem(k, dptr, freed);
        forall j | k < j < |nodes|
          ensures NodeValid(j)
        {
          assert old@before(NodeValid(j));
        }
        dptr, k := next, k + 1;
      }
    }

    /**
     `scull_trim`: `freed` lists what is handed back to the allocator, in order.  It is everything the
     device had allocated, each object once, blocks before their array and arrays before their item; and
     the device takes over the global quantum and set size.
     */
    method Trim(global: Geometry) returns (freed: seq<object>)
      requires Valid()
      modifies this, home.Keys
      ensures Valid() && home == map[]
      ensures quantum == global.quantum && qset == global.qset && size == 0 && data == null
      ensures Model() == QuantumStore.Trim(global)
      ensures forall o :: o in freed <==> o in old(home)
      ensures forall a, b :: 0 <= a < b < |freed| ==> freed[a] != freed[b]
      ensures InOrder(old(home), freed)
    {
      forall i | 0 <= i < |nodes|
        ensures nodes[i] in home
      {
        assert NodeValid(i);
      }
      freed := FreeAll();
      data, size, quantum, qset := null, 0, global.quantum, global.qset;
      nodes, items, home := [], [], map[];
    }
  }
}
