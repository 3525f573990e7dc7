/** The pipe device of scull/pipe.c, updated in place.  What happens between sleeping and waking is in PipeProtocol. */
module PipeDevice {
  import opened Bytes
  import opened Ring

  datatype Mode = Mode(read: bool, write: bool)

  /** Wild: the copy leaves the memory of the device. */
  datatype Outcome = Done(count: nat) | WouldBlock | Fault | NoMemory | Wild

  /** The memory from `buffer` to `end`; what does not belong to the device counts as zero here. */
  function View(bytes: seq<Byte>, size: nat): (m: seq<Byte>)
    ensures |m| == size
  {
    if size <= |bytes| then bytes[..size] else bytes + seq(size - |bytes|, _ => 0)
  }

  lemma ViewPut(bytes: seq<Byte>, size: nat, at: nat, put: seq<Byte>)
    requires at + |put| <= size && at + |put| <= |bytes|
    ensures var m := View(bytes, size);
            View(bytes[..at] + put + bytes[at + |put|..], size) == m[..at] + put + m[at + |put|..]
  {
  }

  lemma ViewTake(bytes: seq<Byte>, beyond: seq<Byte>, size: nat, a: nat, b: nat)
    requires a <= b <= size && b <= |bytes|
    ensures (bytes + beyond)[a..b] == View(bytes, size)[a..b]
  {
  }

  lemma TakenInOrder(rule: ChunkRule, before: Ring, after: Ring, count: nat, bytes: seq<Byte>)
    requires Valid(before) && before.rp != before.wp && !Overruns(rule, before, count) && |bytes| == ReadChunk(rule, before, count)
    requires after == WrapRead(AdvanceRead(before, |bytes|)) && before.rp + |bytes| <= |before.buf|
    requires bytes == before.buf[before.rp..before.rp + |bytes|]
    ensures after.rp <= |after.buf| && after.wp <= |after.buf| && Contents(before) == bytes + Contents(after) && (count > 0 ==> bytes != [])
  {
    var k := |bytes|;
    ReadChunkFits(rule, before, count);
    TakeTakesOldest(before, k);
    calc {
      Contents(before);
      before.buf[before.rp..before.rp + k] + Contents(AdvanceRead(before, k));
      bytes + Contents(AdvanceRead(before, k));
      bytes + Contents(after);
    }
  }

  class ScullPipe {
    const rule: ChunkRule
    var buffer: array?<Byte>
    var buffersize: nat
    var rp: nat
    var wp: nat
    var nreaders: int
    var nwriters: int

    /**
     An open device at rest.  `buffersize` is what the last open asked for and `buffer` what the first one
     got; the unread bytes lie in both.
     */
    ghost predicate Live()
      reads this, buffer
    {
      && buffer != null && rp < buffersize && wp < buffersize
      && rp <= buffer.Length && wp <= buffer.Length && (wp < rp ==> buffersize <= buffer.Length)
    }

    ghost function State(): Ring
      reads this, buffer
      requires Live()
    {
      Ring(View(buffer[..], buffersize), rp, wp)
    }

    constructor (rule: ChunkRule)
      ensures this.rule == rule && buffer == null && nreaders == nwriters == 0
    {
      this.rule := rule;
      buffer, buffersize, rp, wp, nreaders, nwriters := null, 0, 0, 0, 0, 0;
    }

    /**
     The first open allocates.  Every open resets the pointers and takes over the size requested now,
     whatever the size allocated and whatever bytes wait; the device is then empty and fit for use.
     */
    method Open(mode: Mode, size: nat, gotMemory: bool) returns (r: Outcome)
      requires size > 0
      modifies this
      ensures r == if old(buffer) == null && !gotMemory then NoMemory else Done(0)
      ensures r.NoMemory? ==>
                && buffer == null && buffersize == old(buffersize) && rp == old(rp) && wp == old(wp)
                && nreaders == old(nreaders) && nwriters == old(nwriters)
      ensures r.Done? ==>
                && (if old(buffer) == null then fresh(buffer) && buffer.Length == size else buffer == old(buffer))
                && buffersize == size && rp == wp == 0
                && Live() && Contents(State()) == []
                && nreaders == old(nreaders) + (if mode.read then 1 else 0)
                && nwriters == old(nwriters) + (if mode.write then 1 else 0)
    {
      if buffer == null {
        if !gotMemory {
          return NoMemory;
        }
        buffer := new Byte[size];
      }
      buffersize := size;
      rp, wp := 0, 0;
      if mode.read {
        nreaders := nreaders + 1;
      }
      if mode.write {
        nwriters := nwriters + 1;
      }
      r := Done(0);
    }

    /** The last close frees the buffer. */
    method Release(mode: Mode)
      modifies this
      ensures nreaders == old(nreaders) - (if mode.read then 1 else 0)
      ensures nwriters == old(nwriters) - (if mode.write then 1 else 0)
      ensures buffer == if nreaders + nwriters == 0 then null else old(buffer)
      ensures buffersize == old(buffersize) && rp == old(rp) && wp == old(wp)
    {
      if mode.read {
        nreaders := nreaders - 1;
      }
      if mode.write {
        nwriters := nwriters - 1;
      }
      if nreaders + nwriters == 0 {
        buffer := null;
      }
    }

    /**
     The part of `scull_p_read` under the semaphore.  `beyond` is the memory behind the allocation, where a
     read by the rule of line 126 may stray.  The bytes are the oldest ones and the device stays usable
     exactly when the read does not overrun.
     */
    method Read(count: nat, beyond: seq<Byte>, fault: bool) returns (r: Outcome, bytes: seq<Byte>)
      requires Live() && |beyond| >= 2 * buffersize
      modifies `rp
      ensures r.WouldBlock? <==> old(Contents(State())) == []
      ensures r.Fault? <==> old(Contents(State())) != [] && fault
      ensures !r.NoMemory? && !r.Wild? && (!r.Done? ==> bytes == [] && Live() && State() == old(State()))
      ensures r.Done? ==>
                && |bytes| == r.count
                && (Live() <==> !(rule.AsWritten? && wp < old(rp) && old(rp) + count > buffersize))
                && r.count == (if Live() then Min(count, Min(|old(Contents(State()))|, buffersize - old(rp))) else Min(count, buffersize - wp))
                && (!Live() ==> rp == old(rp) + r.count)
                && (Live() ==> old(Contents(State())) == bytes + Contents(State()) && (count > 0 ==> bytes != []))
    {
      ghost var before := State();
      assert Contents(before) == [] <==> rp == wp by {
        SpaceAddsUp(before);
      }
      if rp == wp {
        return WouldBlock, [];
      }
      if fault {
        return Fault, [];
      }
      ReadChunkExact(rule, before, count);
      bytes := Take(count, beyond);
      r := Done(|bytes|);
      if !Overruns(rule, before, count) {
        TakenInOrder(rule, before, State(), count, bytes);
      }
    }

    /** Copy out from the read pointer, advance it, and wrap it if it came to stand at `end` (lines 123-136). */
    method Take(count: nat, beyond: seq<Byte>) returns (bytes: seq<Byte>)
      requires Live() && rp != wp && 2 * buffersize <= |beyond|
      modifies `rp
      ensures |bytes| == ReadChunk(rule, old(State()), count)
      ensures if Overruns(rule, old(State()), count) then !Live() && rp == old(rp) + |bytes|
              else old(rp) + |bytes| <= buffersize && Live() && State() == WrapRead(AdvanceRead(old(State()), |bytes|)) && bytes == old(State()).buf[old(rp)..old(rp) + |bytes|]
    {
      ghost var before := State();
      var k := if wp > rp then Min(count, wp - rp) else Min(count, buffersize - (if rule.AsWritten? then wp else rp));
      assert k == ReadChunk(rule, before, count);
      bytes := (buffer[..] + beyond)[rp..rp + k];
      if !Overruns(rule, before, count) {
        ReadChunkFits(rule, before, count);
        ViewTake(buffer[..], beyond, buffersize, rp, rp + k);
      } else {
        ReadChunkFits(rule, before, count);
      }
      rp := rp + k;
      if rp == buffersize {
        rp := 0;
      }
    }

    /** `copy_from_user` to the write pointer. */
    method Copy(put: seq<Byte>)
      requires buffer != null && wp + |put| <= buffer.Length
      modifies buffer
      ensures buffer[..] == old(buffer[..wp]) + put + old(buffer[wp + |put|..])
    {
      forall i | 0 <= i < |put| {
        buffer[wp + i] := put[i];
      }
    }

    /** Copy in at the write pointer, advance it, and wrap it if it came to stand at `end`. */
    method Put(put: seq<Byte>)
      requires Live() && wp + |put| <= buffersize && wp + |put| <= buffer.Length
      requires wp < rp ==> wp + |put| < rp
      modifies `wp, buffer
      ensures Live() && State() == WrapWrite(AdvanceWrite(old(State()), put))
    {
      ghost var before := State();
      ghost var bytes := buffer[..];
      Copy(put);
      ViewPut(bytes, buffersize, wp, put);
      assert View(buffer[..], buffersize) == AdvanceWrite(before, put).buf;
      wp := wp + |put|;
      if wp == buffersize {
        wp := 0;
      }
    }

    /** `spacefree`. */
    method FreeSpace() returns (n: int)
      requires Live()
      ensures n == buffersize - 1 - |Contents(State())|
    {
      SpaceAddsUp(State());
      if rp == wp {
        return buffersize - 1;
      }
      n := (rp + buffersize - wp) % buffersize - 1;
    }

    /**
     The part of `scull_p_write` under the semaphore: what it accepts goes behind the unread bytes, or
     nothing changes.  The copy is wild exactly when it would cross the end of the allocation.
     */
    method Write(data: seq<Byte>, fault: bool) returns (r: Outcome)
      requires Live()
      modifies this`wp, buffer
      ensures buffer == old(buffer) && Live()
      ensures r.WouldBlock? <==> |old(Contents(State()))| == buffersize - 1
      ensures r.Fault? <==> !r.WouldBlock? && fault
      ensures r.Wild? <==> && !r.WouldBlock? && !fault
                           && old(wp) + Min(|data|, Min(buffersize - 1 - |old(Contents(State()))|, buffersize - old(wp))) > buffer.Length
      ensures !r.NoMemory? && (!r.Done? ==> State() == old(State()))
      ensures r.Done? ==>
                && r.count == Min(|data|, Min(buffersize - 1 - |old(Contents(State()))|, buffersize - old(wp)))
                && (data != [] ==> r.count > 0)
                && Contents(State()) == old(Contents(State())) + data[..r.count]
    {
      ghost var before := State();
      SpaceAddsUp(before);
      var free := FreeSpace();
      if free == 0 {
        return WouldBlock;
      }
      var k := Min(|data|, free);
      k := if wp >= rp then Min(k, buffersize - wp) else Min(k, rp - wp - 1);
      assert k == WriteChunk(before, |data|);
      WriteChunkExact(before, |data|);
      if fault {
        return Fault;
      }
      if wp + k > buffer.Length {
        return Wild;
      }
      Accept(data, k);
      r := Done(k);
    }

    /** What `scull_p_write` does once it knows how much it accepts. */
    method Accept(data: seq<Byte>, k: nat)
      requires Live() && SpaceFree(State()) > 0 && k == WriteChunk(State(), |data|) && wp + k <= buffer.Length
      modifies this`wp, buffer
      ensures Live() && Contents(State()) == old(Contents(State())) + data[..k] && (data != [] ==> k > 0)
    {
      WriteChunkFits(State(), |data|);
      WriteAppends(State(), data);
      Put(data[..k]);
    }

    /** `scull_p_poll`: readable exactly when bytes wait, writable exactly when one more would fit. */
    method Poll() returns (readable: bool, writable: bool)
      requires Live()
      ensures readable <==> Contents(State()) != []
      ensures writable <==> |Contents(State())| + 1 < buffersize
    {
      SpaceAddsUp(State());
      var free := FreeSpace();
      readable := rp != wp;
      writable := free != 0;
    }
  }
}
