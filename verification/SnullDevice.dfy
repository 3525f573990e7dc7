/**
 The packet lists of the two snull interfaces in memory (snull/snull.c), and the functions that move
 packets between them, each run to its end.  What happens when they interleave is in SnullNet.
 */
module SnullDevice {
  import opened Bytes
  import IpHeader

  const ETH_ZLEN: nat := 60
  const ETH_HLEN: nat := 14

  class Packet {
    const dev: SnullDev
    var next: Packet?
    var datalen: nat
    var data: seq<Byte>

    ghost var list: PacketList?   // the list it is on; null while running code holds it
    ghost var height: nat         // its place there, from the bottom, which pushing and popping leave alone

    constructor (dev: SnullDev)
      ensures this.dev == dev && list == null
    {
      this.dev := dev;
      next, datalen, data, list, height := null, 0, [], null, 0;
    }
  }

  /** A list threaded through `next` with its head: `ppool` or `rx_queue`. */
  class PacketList {
    var head: Packet?
    ghost var packets: seq<Packet>

    static function HeadOf(s: seq<Packet>): Packet? {
      if s == [] then null else s[0]
    }

    /** The list is acyclic, and shares no packet with another. */
    ghost predicate Valid()
      reads this, packets
    {
      head == HeadOf(packets) && forall i :: 0 <= i < |packets| ==> InPlace(i)
    }

    ghost predicate InPlace(i: nat)
      reads this, packets
      requires i < |packets|
    {
      var pkt := packets[i];
      pkt.list == this && pkt.height == |packets| - 1 - i && pkt.next == HeadOf(packets[i + 1..])
    }

    lemma PacketsKnowIt()
      requires Valid()
      ensures forall p :: p in packets ==> p.list == this
    {
      forall i | 0 <= i < |packets|
        ensures packets[i].list == this
      {
        assert InPlace(i);
      }
    }

    constructor ()
      ensures Valid() && packets == []
    {
      head, packets := null, [];
    }

    method Push(pkt: Packet)
      requires Valid() && pkt.list == null
      modifies this, pkt`next, pkt`list, pkt`height
      ensures Valid() && packets == [pkt] + old(packets) && pkt.list == this
      ensures pkt.next == null <==> old(packets) == []
    {
      ghost var was := packets;
      pkt.next := head;
      head := pkt;
      pkt.list, pkt.height := this, |packets|;
      packets := [pkt] + packets;
      forall i | 0 <= i < |packets|
        ensures InPlace(i)
      {
        if i > 0 {
          assert old(InPlace(i - 1));
          assert packets[i] == was[i - 1] && packets[i + 1..] == was[i..];
        }
      }
    }

    method Pop() returns (pkt: Packet?)
      requires Valid()
      modifies this, if packets == [] then {} else {packets[0]}`list
      ensures Valid()
      ensures old(packets) == [] ==> pkt == null && packets == []
      ensures old(packets) != [] ==> pkt != null && [pkt] + packets == old(packets) && pkt.list == null
    {
      pkt := head;
      if pkt != null {
        ghost var was := packets;
        assert InPlace(0);
        head := pkt.next;
        packets := packets[1..];
        pkt.list := null;
        forall i | 0 <= i < |packets|
          ensures InPlace(i)
        {
          assert old(InPlace(i + 1));
          assert packets[i] == was[i + 1] && packets[i + 1..] == was[i + 2..] && was[i + 1].height != was[0].height;
        }
      }
    }
  }

  class SnullDev {
    const ppool: PacketList
    const rxQueue: PacketList
    var stopped: bool
    var rxIntEnabled: bool
    var scheduled: bool
    var quota: int
    var rxPackets: nat
    var rxBytes: nat
    var rxDropped: nat
    var txPackets: nat
    var txBytes: nat

    constructor ()
      ensures fresh(ppool) && fresh(rxQueue) && ppool != rxQueue && ppool.Valid() && rxQueue.Valid()
      ensures ppool.packets == rxQueue.packets == [] && rxIntEnabled && !scheduled && !stopped
      ensures rxPackets == rxBytes == rxDropped == txPackets == txBytes == 0
    {
      ppool := new PacketList();
      rxQueue := new PacketList();
      stopped, rxIntEnabled, scheduled, quota := false, true, false, 0;
      rxPackets, rxBytes, rxDropped, txPackets, txBytes := 0, 0, 0, 0, 0;
    }
  }

  /**
   The way of `peer`'s packets through `dev`: its receive queue, from which they go back to `peer`'s pool.
   The lists share no packet, since a packet knows the list it is on.
   */
  ghost predicate Wire(dev: SnullDev, peer: SnullDev)
    reads dev.rxQueue, dev.rxQueue.packets, peer.ppool, peer.ppool.packets
  {
    && dev != peer && dev.rxQueue != peer.ppool
    && dev.rxQueue.Valid() && peer.ppool.Valid()
    && (forall p :: p in dev.rxQueue.packets ==> p.dev == peer)
    && (forall p :: p in peer.ppool.packets ==> p.dev == peer)
  }

  /** `snull_setup_pool`: as many buffers as asked for, or as many as memory allows. */
  method SetupPool(dev: SnullDev, poolSize: nat, mem: nat)
    requires dev.ppool.Valid() && dev.ppool.packets == []
    modifies dev.ppool
    ensures dev.ppool.Valid() && |dev.ppool.packets| == Min(poolSize, mem)
    ensures forall p :: p in dev.ppool.packets ==> fresh(p) && p.dev == dev
  {
    for i := 0 to poolSize
      invariant dev.ppool.Valid() && |dev.ppool.packets| == i <= mem
      invariant forall p :: p in dev.ppool.packets ==> fresh(p) && p.dev == dev
    {
      if i == mem {
        return;
      }
      var pkt := new Packet(dev);
      dev.ppool.Push(pkt);
    }
  }

  /** `snull_teardown_pool`: every buffer of the pool is freed once, in the order of the list. */
  method TeardownPool(dev: SnullDev) returns (freed: seq<Packet>)
    requires dev.ppool.Valid()
    modifies dev.ppool, dev.ppool.packets
    ensures dev.ppool.Valid() && dev.ppool.packets == [] && freed == old(dev.ppool.packets)
  {
    freed := [];
    while dev.ppool.head != null
      invariant dev.ppool.Valid() && freed + dev.ppool.packets == old(dev.ppool.packets)
      decreases |dev.ppool.packets|
    {
      assert dev.ppool.packets[0] == old(dev.ppool.packets)[|freed|];
      var pkt := dev.ppool.Pop();
      freed := freed + [pkt];
    }
  }

  /** `snull_get_tx_buffer`: the kernel calls it on a device that is not stopped, so the pool is not empty. */
  method GetTxBuffer(dev: SnullDev) returns (pkt: Packet)
    requires dev.ppool.Valid() && dev.ppool.packets != []
    modifies dev`stopped, dev.ppool, {dev.ppool.packets[0]}`list
    ensures dev.ppool.Valid() && [pkt] + dev.ppool.packets == old(dev.ppool.packets) && pkt.list == null
    ensures dev.stopped <==> old(dev.stopped) || dev.ppool.packets == []
  {
    pkt := dev.ppool.Pop();
    if dev.ppool.head == null {
      dev.stopped := true;
    }
  }

  /** `snull_release_buffer`: back to the pool it came from; the first buffer back wakes the sender. */
  method ReleaseBuffer(pkt: Packet)
    requires pkt.dev.ppool.Valid() && pkt.list == null
    modifies pkt.dev`stopped, pkt.dev.ppool, pkt`next, pkt`list, pkt`height
    ensures pkt.dev.ppool.Valid() && pkt.dev.ppool.packets == [pkt] + old(pkt.dev.ppool.packets)
    ensures pkt.list == pkt.dev.ppool
    ensures pkt.dev.stopped <==> old(pkt.dev.stopped) && old(pkt.dev.ppool.packets) != []
  {
    pkt.dev.ppool.Push(pkt);
    if pkt.dev.stopped && pkt.next == null {
      pkt.dev.stopped := false;
    }
  }

  function Reverse(s: seq<Packet>): seq<Packet> {
    if s == [] then [] else Reverse(s[1..]) + [s[0]]
  }

  lemma ReverseSnoc(s: seq<Packet>, p: Packet)
    ensures Reverse(s + [p]) == [p] + Reverse(s)
  {
    if s != [] {
      ReverseSnoc(s[1..], p);
      assert (s + [p])[1..] == s[1..] + [p];
    }
  }

  /** One more packet off the queue and onto the pool. */
  lemma OneMore(taken: seq<Packet>, p: Packet, queue: seq<Packet>, pool: seq<Packet>)
    ensures taken + ([p] + queue) == (taken + [p]) + queue
    ensures [p] + (Reverse(taken) + pool) == Reverse(taken + [p]) + pool
  {
    ReverseSnoc(taken, p);
  }

  function ByteCount(packets: seq<Packet>): nat
    reads packets`datalen
  {
    if packets == [] then 0 else ByteCount(packets[..|packets| - 1]) + packets[|packets| - 1].datalen
  }

  lemma ByteCountSnoc(packets: seq<Packet>, p: Packet)
    ensures ByteCount(packets + [p]) == ByteCount(packets) + p.datalen
  {
    assert (packets + [p])[..|packets|] == packets;
  }

  /** The statistics of a packet that is delivered, or dropped for want of a socket buffer. */
  method Account(dev: SnullDev, pkt: Packet, skb: bool)
    modifies dev`rxPackets, dev`rxBytes, dev`rxDropped
    ensures dev.rxPackets == old(dev.rxPackets) + (if skb then 1 else 0)
    ensures dev.rxBytes == old(dev.rxBytes) + (if skb then pkt.datalen else 0)
    ensures dev.rxDropped == old(dev.rxDropped) + (if skb then 0 else 1)
  {
    if skb {
      dev.rxPackets, dev.rxBytes := dev.rxPackets + 1, dev.rxBytes + pkt.datalen;
    } else {
      dev.rxDropped := dev.rxDropped + 1;
    }
  }

  /** The packets whose socket buffer could be allocated, in order. */
  function Kept(skb: seq<bool>, taken: seq<Packet>): (r: seq<Packet>)
    requires |taken| <= |skb|
    ensures |r| <= |taken|
  {
    if taken == [] then []
    else
      var k := |taken| - 1;
      Kept(skb, taken[..k]) + (if skb[k] then [taken[k]] else [])
  }

  lemma KeptSnoc(skb: seq<bool>, taken: seq<Packet>, p: Packet)
    requires |taken| < |skb|
    ensures Kept(skb, taken + [p]) == Kept(skb, taken) + (if skb[|taken|] then [p] else [])
  {
    assert (taken + [p])[..|taken|] == taken;
  }

  /** The packet's way through one turn of the loop: off the queue, and back to its own pool. */
  method PollOne(dev: SnullDev, peer: SnullDev) returns (pkt: Packet)
    requires Wire(dev, peer) && dev.rxQueue.packets != []
    modifies dev.rxQueue, {dev.rxQueue.packets[0]}`next, {dev.rxQueue.packets[0]}`list, {dev.rxQueue.packets[0]}`height, peer`stopped, peer.ppool
    ensures Wire(dev, peer)
    ensures [pkt] + dev.rxQueue.packets == old(dev.rxQueue.packets)
    ensures peer.ppool.packets == [pkt] + old(peer.ppool.packets)
    ensures peer.stopped <==> old(peer.stopped) && old(peer.ppool.packets) != []
  {
    dev.rxQueue.PacketsKnowIt();
    peer.ppool.PacketsKnowIt();
    pkt := dev.rxQueue.Pop();
    dev.rxQueue.PacketsKnowIt();
    ReleaseBuffer(pkt);
  }

  /** One turn, with its statistics. */
  method PollTurn(dev: SnullDev, peer: SnullDev, skb: bool) returns (pkt: Packet)
    requires Wire(dev, peer) && dev.rxQueue.packets != []
    modifies dev`rxPackets, dev`rxBytes, dev`rxDropped
    modifies dev.rxQueue, {dev.rxQueue.packets[0]}`next, {dev.rxQueue.packets[0]}`list, {dev.rxQueue.packets[0]}`height, peer`stopped, peer.ppool
    ensures Wire(dev, peer)
    ensures [pkt] + dev.rxQueue.packets == old(dev.rxQueue.packets)
    ensures peer.ppool.packets == [pkt] + old(peer.ppool.packets)
    ensures peer.stopped <==> old(peer.stopped) && old(peer.ppool.packets) != []
    ensures dev.rxPackets == old(dev.rxPackets) + (if skb then 1 else 0)
    ensures dev.rxBytes == old(dev.rxBytes) + (if skb then pkt.datalen else 0)
    ensures dev.rxDropped == old(dev.rxDropped) + (if skb then 0 else 1)
  {
    pkt := PollOne(dev, peer);
    Account(dev, pkt, skb);
  }

  /** The loop of `snull_poll`: what it delivers, and the packets it takes off the queue. */
  method PollLoop(dev: SnullDev, peer: SnullDev, quota: int, skb: seq<bool>) returns (delivered: seq<Packet>, taken: seq<Packet>)
    requires Wire(dev, peer) && |skb| >= |dev.rxQueue.packets|
    modifies dev`rxPackets, dev`rxBytes, dev`rxDropped
    modifies dev.rxQueue, dev.rxQueue.packets`next, dev.rxQueue.packets`list, dev.rxQueue.packets`height, peer`stopped, peer.ppool
    ensures Wire(dev, peer)
    ensures taken + dev.rxQueue.packets == old(dev.rxQueue.packets)
    ensures peer.ppool.packets == Reverse(taken) + old(peer.ppool.packets)
    ensures |taken| <= |skb| && delivered == Kept(skb, taken) && |delivered| <= Max(0, quota)
    ensures dev.rxQueue.packets == [] || |delivered| == Max(0, quota)
    ensures dev.rxPackets == old(dev.rxPackets) + |delivered| && dev.rxBytes == old(dev.rxBytes) + ByteCount(delivered)
    ensures dev.rxDropped == old(dev.rxDropped) + |taken| - |delivered|
    ensures peer.stopped <==> old(peer.stopped) && (taken == [] || old(peer.ppool.packets) != [])
  {
    delivered, taken := [], [];
    while |delivered| < quota && dev.rxQueue.head != null
      invariant Wire(dev, peer)
      invariant taken + dev.rxQueue.packets == old(dev.rxQueue.packets)
      invariant peer.ppool.packets == Reverse(taken) + old(peer.ppool.packets)
      invariant |taken| <= |skb| && delivered == Kept(skb, taken) && |delivered| <= Max(0, quota)
      invariant dev.rxPackets == old(dev.rxPackets) + |delivered| && dev.rxBytes == old(dev.rxBytes) + ByteCount(delivered)
      invariant dev.rxDropped == old(dev.rxDropped) + |taken| - |delivered|
      invariant peer.stopped <==> old(peer.stopped) && (taken == [] || old(peer.ppool.packets) != [])
      decreases |dev.rxQueue.packets|
    {
      assert dev.rxQueue.packets[0] == old(dev.rxQueue.packets)[|taken|];
      var pkt := PollTurn(dev, peer, skb[|taken|]);
      if skb[|taken|] {
        ByteCountSnoc(delivered, pkt);
        delivered := delivered + [pkt];
      }
      OneMore(taken, pkt, dev.rxQueue.packets, old(peer.ppool.packets));
      KeptSnoc(skb, taken, pkt);
      taken := taken + [pkt];
    }
  }

  /**
   `snull_poll` on `dev`; `skb[k]` says whether the allocation for packet `k` succeeds.  It takes packets
   from the head of the queue until the quota is delivered or none is left, drops those it has no memory
   for, returns every one to its own pool, and charges budget and quota alike.
   */
  method Poll(dev: SnullDev, peer: SnullDev, budget: int, skb: seq<bool>)
    returns (delivered: seq<Packet>, left: int, more: bool, taken: seq<Packet>)
    requires Wire(dev, peer) && |skb| >= |dev.rxQueue.packets|
    modifies dev`rxPackets, dev`rxBytes, dev`rxDropped, dev`quota, dev`scheduled, dev`rxIntEnabled
    modifies dev.rxQueue, dev.rxQueue.packets`next, dev.rxQueue.packets`list, dev.rxQueue.packets`height, peer`stopped, peer.ppool
    ensures Wire(dev, peer)
    ensures taken + dev.rxQueue.packets == old(dev.rxQueue.packets)
    ensures peer.ppool.packets == Reverse(taken) + old(peer.ppool.packets)
    ensures |taken| <= |skb| && delivered == Kept(skb, taken) && |delivered| <= Max(0, Min(old(dev.quota), budget))
    ensures more ==> |delivered| == Max(0, Min(old(dev.quota), budget))
    ensures left == budget - |delivered| && dev.quota == old(dev.quota) - |delivered|
    ensures dev.rxPackets == old(dev.rxPackets) + |delivered| && dev.rxBytes == old(dev.rxBytes) + ByteCount(delivered)
    ensures dev.rxDropped == old(dev.rxDropped) + |taken| - |delivered|
    ensures more <==> dev.rxQueue.packets != []
    ensures dev.scheduled == (more && old(dev.scheduled)) && dev.rxIntEnabled == (!more || old(dev.rxIntEnabled))
    ensures peer.stopped <==> old(peer.stopped) && (taken == [] || old(peer.ppool.packets) != [])
  {
    delivered, taken := PollLoop(dev, peer, Min(dev.quota, budget), skb);
    left := budget - |delivered|;
    dev.quota := dev.quota - |delivered|;
    more := dev.rxQueue.head != null;
    if !more {
      dev.scheduled, dev.rxIntEnabled := false, true;
    }
  }

  /** `snull_tx` pads a short frame with zeros, so `snull_hw_tx` never finds one too short for its headers. */
  function Padded(data: seq<Byte>): (frame: seq<Byte>)
    ensures |frame| >= ETH_ZLEN && data <= frame
  {
    if |data| < ETH_ZLEN then data + seq(ETH_ZLEN - |data|, _ => 0 as Byte) else data
  }

  /** The frame as the other network sees it. */
  function Crossed(frame: seq<Byte>, odd: nat): seq<Byte>
    requires |frame| >= ETH_ZLEN && odd < 0x1_0000
  {
    frame[..ETH_HLEN] + IpHeader.RewriteAny(frame[ETH_HLEN..], odd)
  }

  /**
   What arrives of a frame, byte by byte: the IP header begins at 14, its checksum at 24, and the third
   bytes of its addresses are 28 and 32.
   */
  lemma CrossedExact(data: seq<Byte>, odd: nat)
    requires odd < 0x1_0000
    ensures var f := Crossed(Padded(data), odd);
            && |f| == (if |data| < 60 then 60 else |data|)
            && (forall i :: 0 <= i < |f| && i !in {24, 25, 28, 32} ==> f[i] == if i < |data| then data[i] else 0)
            && (forall i :: i in {28, 32} ==> var was := if i < |data| then data[i] else 0; f[i] != was && f[i] / 2 == was / 2)
            && (if IpHeader.IsHeader(f[14..]) then IpHeader.Accepted(f[14..]) else f[24] as nat * 256 + f[25] as nat == odd)
  {
    var frame := Padded(data);
    var h := frame[ETH_HLEN..];
    IpHeader.CrossingOnce(h, odd);
    var f := Crossed(frame, odd);
    assert f[14..] == IpHeader.RewriteAny(h, odd);
    if IpHeader.IsHeader(h) {
      IpHeader.RewriteIsAccepted(h);
    }
  }

  /** `snull_rx` on the packet at the head of the queue, and its release (lines 313-328). */
  method RegularInterrupt(dev: SnullDev, peer: SnullDev, skb: bool) returns (received: Option<seq<Byte>>)
    requires Wire(dev, peer) && dev.rxQueue.packets != []
    modifies dev`rxPackets, dev`rxBytes, dev`rxDropped, dev.rxQueue, peer`stopped, peer.ppool
    modifies {dev.rxQueue.packets[0]}`next, {dev.rxQueue.packets[0]}`list, {dev.rxQueue.packets[0]}`height
    ensures Wire(dev, peer)
    ensures dev.rxQueue.packets == old(dev.rxQueue.packets)[1..]
    ensures peer.ppool.packets == [old(dev.rxQueue.packets)[0]] + old(peer.ppool.packets)
    ensures received == if skb then Some(old(dev.rxQueue.packets[0].data)) else None
    ensures dev.rxPackets == old(dev.rxPackets) + (if skb then 1 else 0)
    ensures dev.rxBytes == old(dev.rxBytes) + (if skb then old(dev.rxQueue.packets[0].datalen) else 0)
    ensures dev.rxDropped == old(dev.rxDropped) + (if skb then 0 else 1)
    ensures peer.stopped <==> old(peer.stopped) && old(peer.ppool.packets) != []
  {
    var pkt := PollTurn(dev, peer, skb);
    received := if skb then Some(pkt.data) else None;
  }

  /** `snull_hw_tx` on `dev` and the interrupt at `peer`: the frame crosses, and its buffer goes there and back. */
  method HwTx(dev: SnullDev, peer: SnullDev, frame: seq<Byte>, odd: nat, skb: bool) returns (received: Option<seq<Byte>>)
    requires Wire(peer, dev) && !dev.stopped && dev.ppool.packets != [] && peer.rxIntEnabled
    requires |frame| >= ETH_ZLEN && odd < 0x1_0000
    modifies dev`stopped, dev`txPackets, dev`txBytes, peer`rxPackets, peer`rxBytes, peer`rxDropped
    modifies peer.rxQueue, dev.ppool, {dev.ppool.packets[0]}
    ensures Wire(peer, dev)
    ensures dev.ppool.packets == old(dev.ppool.packets) && peer.rxQueue.packets == old(peer.rxQueue.packets)
    ensures received == if skb then Some(Crossed(frame, odd)) else None
    ensures !dev.stopped
    ensures dev.txPackets == old(dev.txPackets) + 1 && dev.txBytes == old(dev.txBytes) + |frame|
    ensures peer.rxPackets == old(peer.rxPackets) + (if skb then 1 else 0)
    ensures peer.rxBytes == old(peer.rxBytes) + (if skb then |frame| else 0)
    ensures peer.rxDropped == old(peer.rxDropped) + (if skb then 0 else 1)
  {
    var crossed := Crossed(frame, odd);
    peer.rxQueue.PacketsKnowIt();
    dev.ppool.PacketsKnowIt();
    var pkt := GetTxBuffer(dev);
    dev.ppool.PacketsKnowIt();
    pkt.datalen, pkt.data := |crossed|, crossed;
    peer.rxQueue.Push(pkt);
    received := RegularInterrupt(peer, dev, skb);
    dev.txPackets, dev.txBytes := dev.txPackets + 1, dev.txBytes + |crossed|;
  }

  /**
   `snull_tx` on `dev` with interrupts, run to its end.  The peer receives the frame, padded with zeros to
   60 bytes, with the last bit of the third byte of both addresses flipped and a checksum that a receiver
   accepts (or `odd`, what the kernel's routine returns for something that is not an IP header), or drops
   it for want of memory.  The buffer is back in the pool it came from, older packets stay queued, and the
   sender is not left stopped.
   */
  method Tx(dev: SnullDev, peer: SnullDev, data: seq<Byte>, odd: nat, skb: bool) returns (received: Option<seq<Byte>>)
    requires Wire(peer, dev) && !dev.stopped && dev.ppool.packets != [] && peer.rxIntEnabled
    requires odd < 0x1_0000
    modifies dev`stopped, dev`txPackets, dev`txBytes, peer`rxPackets, peer`rxBytes, peer`rxDropped
    modifies peer.rxQueue, dev.ppool, {dev.ppool.packets[0]}
    ensures Wire(peer, dev)
    ensures dev.ppool.packets == old(dev.ppool.packets) && peer.rxQueue.packets == old(peer.rxQueue.packets)
    ensures received.Some? <==> skb
    ensures skb ==>
              var f := received.value;
              && |f| == (if |data| < 60 then 60 else |data|)
              && (forall i :: 0 <= i < |f| && i !in {24, 25, 28, 32} ==> f[i] == if i < |data| then data[i] else 0)
              && (forall i :: i in {28, 32} ==> var was := if i < |data| then data[i] else 0; f[i] != was && f[i] / 2 == was / 2)
              && (if IpHeader.IsHeader(f[14..]) then IpHeader.Accepted(f[14..]) else f[24] as nat * 256 + f[25] as nat == odd)
    ensures !dev.stopped
    ensures dev.txPackets == old(dev.txPackets) + 1 && dev.txBytes == old(dev.txBytes) + (if |data| < 60 then 60 else |data|)
    ensures peer.rxPackets == old(peer.rxPackets) + (if skb then 1 else 0)
    ensures peer.rxBytes == old(peer.rxBytes) + (if !skb then 0 else if |data| < 60 then 60 else |data|)
    ensures peer.rxDropped == old(peer.rxDropped) + (if skb then 0 else 1)
  {
    CrossedExact(data, odd);
    received := HwTx(dev, peer, Padded(data), odd, skb);
  }
}
