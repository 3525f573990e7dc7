/** One scull device per controlling terminal, made on first use (scull/access.c:176-239 and 329-333). */
module PrivateDevices {
  import QuantumStore
  import opened ScullDevice

  class ListItem {
    const key: nat
    const device: ScullDev

    constructor (key: nat, device: ScullDev)
      ensures this.key == key && this.device == device
    {
      this.key, this.device := key, device;
    }
  }

  /** Which device each terminal has; the first item with a key is the one found. */
  function DeviceMap(items: seq<ListItem>): map<nat, ScullDev> {
    if items == [] then map[] else DeviceMap(items[1..])[items[0].key := items[0].device]
  }

  ghost predicate DistinctKeys(items: seq<ListItem>) {
    forall i, j :: 0 <= i < j < |items| ==> items[i].key != items[j].key
  }

  lemma {:induction false} KeysOf(items: seq<ListItem>)
    ensures forall k :: k in DeviceMap(items) <==> exists i :: 0 <= i < |items| && items[i].key == k
    ensures DistinctKeys(items) ==> forall i :: 0 <= i < |items| ==> DeviceMap(items)[items[i].key] == items[i].device
  {
    if items != [] {
      KeysOf(items[1..]);
      assert items == [items[0]] + items[1..];
      forall k | k in DeviceMap(items)
        ensures exists i :: 0 <= i < |items| && items[i].key == k
      {
        if k != items[0].key {
          assert k in DeviceMap(items[1..]);
          var i :| 0 <= i < |items[1..]| && items[1..][i].key == k;
          assert items[i + 1].key == k;
        }
      }
    }
  }

  /** No terminal is listed twice, and no device belongs to two terminals. */
  ghost predicate Separate(items: seq<ListItem>) {
    DistinctKeys(items) && forall i, j :: 0 <= i < j < |items| ==> items[i].device != items[j].device
  }

  /** What a lookup does to the list, and what it returns. */
  ghost predicate LookedUp(before: seq<ListItem>, after: seq<ListItem>, key: nat, dev: ScullDev?) {
    && Separate(after)
    && (if key in DeviceMap(before) then dev == DeviceMap(before)[key] && after == before
        else if dev == null then after == before
        else DeviceMap(after) == DeviceMap(before)[key := dev] && forall k :: k in DeviceMap(before) ==> DeviceMap(before)[k] != dev)
  }

  /** Lookups one after the other; `lists[i]` is the list before the `i`-th. */
  ghost predicate History(lists: seq<seq<ListItem>>, keys: seq<nat>, devs: seq<ScullDev?>) {
    && |lists| == |keys| + 1 && |devs| == |keys|
    && forall i :: 0 <= i < |keys| ==> LookedUpAt(lists, keys, devs, i)
  }

  ghost predicate LookedUpAt(lists: seq<seq<ListItem>>, keys: seq<nat>, devs: seq<ScullDev?>, i: nat)
    requires |lists| == |keys| + 1 && |devs| == |keys| && i < |keys|
  {
    LookedUp(lists[i], lists[i + 1], keys[i], devs[i])
  }

  /** A device once made stays with its terminal, and with no other. */
  lemma {:induction false} DeviceStays(lists: seq<seq<ListItem>>, keys: seq<nat>, devs: seq<ScullDev?>, i: nat, j: nat)
    requires History(lists, keys, devs) && i < j <= |keys| && devs[i] != null
    ensures keys[i] in DeviceMap(lists[j]) && DeviceMap(lists[j])[keys[i]] == devs[i]
    decreases j
  {
    assert LookedUpAt(lists, keys, devs, j - 1);
    if i + 1 < j {
      DeviceStays(lists, keys, devs, i, j - 1);
    }
  }

  lemma MapIsInjective(items: seq<ListItem>, k: nat, l: nat)
    requires Separate(items) && k in DeviceMap(items) && l in DeviceMap(items) && DeviceMap(items)[k] == DeviceMap(items)[l]
    ensures k == l
  {
    KeysOf(items);
    var i :| 0 <= i < |items| && items[i].key == k;
    var j :| 0 <= j < |items| && items[j].key == l;
    assert items[i].device == items[j].device;
  }

  /** In every history of lookups, two that succeed return the same device exactly when they were for the same terminal. */
  lemma SameDeviceExactly(lists: seq<seq<ListItem>>, keys: seq<nat>, devs: seq<ScullDev?>, i: nat, j: nat)
    requires History(lists, keys, devs) && i < j < |keys| && devs[i] != null && devs[j] != null
    ensures devs[i] == devs[j] <==> keys[i] == keys[j]
  {
    DeviceStays(lists, keys, devs, i, j);
    DeviceStays(lists, keys, devs, i, j + 1);
    DeviceStays(lists, keys, devs, j, j + 1);
    assert LookedUpAt(lists, keys, devs, j);
    if devs[i] == devs[j] {
      MapIsInjective(lists[j + 1], keys[i], keys[j]);
    }
  }

  class PrivateDevices {
    var list: seq<ListItem>   // scull_c_list, from its head

    constructor ()
      ensures Valid() && list == []
    {
      list := [];
    }

    ghost predicate Valid()
      reads this
    {
      Separate(list)
    }

    /**
     `scull_c_lookfor_device`.  A terminal that has a device gets that one again; one that has none gets
     a new, empty device of its own, or nothing at all if memory is short.
     */
    method LookFor(key: nat, global: QuantumStore.Geometry, gotMemory: bool) returns (dev: ScullDev?)
      requires Valid()
      modifies this
      ensures Valid() && LookedUp(old(list), list, key, dev)
      ensures key in old(DeviceMap(list)) ==> dev == old(DeviceMap(list))[key] && list == old(list)
      ensures key !in old(DeviceMap(list)) && !gotMemory ==> dev == null && list == old(list)
      ensures key !in old(DeviceMap(list)) && gotMemory ==>
                && dev != null && fresh(dev) && dev.Valid() && dev.home == map[]
                && dev.quantum == global.quantum && dev.qset == global.qset && dev.size == 0 && dev.data == null
                && DeviceMap(list) == old(DeviceMap(list))[key := dev]
                && forall i :: 0 <= i < |list| && list[i].key != key ==> list[i].device != dev
    {
      KeysOf(list);
      for i := 0 to |list|
        invariant forall j :: 0 <= j < i ==> list[j].key != key
      {
        if list[i].key == key {
          return list[i].device;
        }
      }
      if !gotMemory {
        return null;
      }
      dev := new ScullDev(global.quantum, global.qset);
      var item := new ListItem(key, dev);
      list := [item] + list;
    }

    /** The cleanup loop: every item is taken off the list and freed, none of them twice. */
    method Cleanup() returns (freed: seq<ListItem>)
      requires Valid()
      modifies this
      ensures list == [] && freed == old(list)
      ensures forall i, j :: 0 <= i < j < |freed| ==> freed[i] != freed[j] && freed[i].device != freed[j].device
    {
      freed := [];
      while list != []
        invariant freed + list == old(list)
        decreases |list|
      {
        freed := freed + [list[0]];
        list := list[1..];
      }
    }
  }
}
