/**
 The ring arithmetic of the pipe device (scull/pipe.c).  Pointers are offsets from `buffer`, so
 `end` is the offset `|buf|`.  One slot is always kept free, so that equal pointers mean "empty".
 */
module Ring {
  import opened Bytes

  /**
   Line 126 bounds a wrapped read by `end - wp`, while the comment above it says "from the read
   pointer to the end".  Both rules are kept, and the theorems say when they agree.
   */
  datatype ChunkRule = AsWritten | AsIntended

  datatype Ring = Ring(buf: seq<Byte>, rp: nat, wp: nat)

  /** Where the pointers rest between two operations. */
  predicate Valid(r: Ring) {
    r.rp < |r.buf| && r.wp < |r.buf|
  }

  /**
   Where the pointers may be seen at any instant: an advanced pointer stands at `end` until the next
   statement wraps it, and the reserved slot is never used.
   */
  ghost predicate InRange(r: Ring) {
    && r.rp <= |r.buf|
    && r.wp <= |r.buf|
    && |Contents(r)| < |r.buf|
  }

  /** The unread bytes, oldest first. */
  ghost function Contents(r: Ring): seq<Byte>
    requires r.rp <= |r.buf| && r.wp <= |r.buf|
  {
    if r.rp <= r.wp then r.buf[r.rp..r.wp] else r.buf[r.rp..] + r.buf[..r.wp]
  }

  /** `spacefree`.  It is also evaluated without the lock, while a pointer may stand at `end`. */
  function SpaceFree(r: Ring): int
    requires r.rp <= |r.buf| && r.wp <= |r.buf|
  {
    if r.rp == r.wp then |r.buf| - 1 else (r.rp + |r.buf| - r.wp) % |r.buf| - 1
  }

  function ReadChunk(rule: ChunkRule, r: Ring, count: nat): nat
    requires Valid(r)
  {
    if r.wp > r.rp then Min(count, r.wp - r.rp)
    else Min(count, |r.buf| - (if rule.AsWritten? then r.wp else r.rp))
  }

  /** `spacefree` is never negative here (SpaceAddsUp), so its cast to `size_t` changes nothing. */
  function WriteChunk(r: Ring, count: nat): (k: nat)
    requires Valid(r)
    ensures k <= count && r.wp + k <= |r.buf|
  {
    var count := Min(count, Max(0, SpaceFree(r)));
    if r.wp >= r.rp then Min(count, |r.buf| - r.wp) else Min(count, Max(0, r.rp - r.wp - 1))
  }

  function AdvanceRead(r: Ring, k: nat): Ring {
    r.(rp := r.rp + k)
  }

  function WrapRead(r: Ring): Ring {
    if r.rp == |r.buf| then r.(rp := 0) else r
  }

  function AdvanceWrite(r: Ring, data: seq<Byte>): Ring
    requires r.wp + |data| <= |r.buf|
  {
    Ring(r.buf[..r.wp] + data + r.buf[r.wp + |data|..], r.rp, r.wp + |data|)
  }

  function WrapWrite(r: Ring): Ring {
    if r.wp == |r.buf| then r.(wp := 0) else r
  }

  /** The reads on which line 126 walks past `end`: a wrapped ring, and more asked for than lies before `end`. */
  predicate Overruns(rule: ChunkRule, r: Ring, count: nat) {
    rule.AsWritten? && r.wp < r.rp && r.rp + count > |r.buf|
  }

  /** Used and free space always add up to all but the reserved slot. */
  lemma SpaceAddsUp(r: Ring)
    requires Valid(r)
    ensures |Contents(r)| + SpaceFree(r) == |r.buf| - 1
    ensures SpaceFree(r) >= 0
    ensures Contents(r) == [] <==> r.rp == r.wp
  {
    var n := |r.buf|;
    if r.rp < r.wp {
      assert (r.rp + n - r.wp) % n == r.rp + n - r.wp;
    } else if r.wp < r.rp {
      assert (r.rp + n - r.wp) % n == r.rp - r.wp by { ModShift(r.rp - r.wp, n); }
    }
  }

  lemma ModShift(x: nat, n: nat)
    requires x < n
    ensures (x + n) % n == x
  {
  }

  lemma ModFrom(x: nat, n: nat)
    requires n <= x < 2 * n
    ensures x % n == x - n
  {
    ModShift(x - n, n);
  }

  /** The circular distance, with one pointer at `end`. */
  lemma SpaceAtEnd(n: nat, rp: nat, wp: nat)
    requires rp <= n && wp <= n && rp != wp && (rp == n || wp == n)
    ensures (rp + n - wp) % n == if wp == n then rp else if wp == 0 then 0 else n - wp
  {
    if wp == n {
      assert (rp + n - wp) % n == rp;
    } else if wp == 0 {
      assert rp + n - wp == 2 * n && (2 * n) % n == 0;
    } else {
      ModFrom(rp + n - wp, n);
    }
  }

  /** The unlocked re-check before sleeping never sees "full" on a ring that is not full. */
  lemma UnlockedFullIsFull(r: Ring)
    requires InRange(r) && SpaceFree(r) == 0
    ensures |Contents(r)| == |r.buf| - 1
  {
    if r.rp < |r.buf| && r.wp < |r.buf| {
      SpaceAddsUp(r);
    } else if r.rp != r.wp {
      SpaceAtEnd(|r.buf|, r.rp, r.wp);
    }
  }

  /**
   How much a read takes: unless it overruns, as much as is asked for, as is there, and as lies before
   `end`; if it overruns, as much as is asked for or as lies between the write pointer and `end`.
   */
  lemma ReadChunkExact(rule: ChunkRule, r: Ring, count: nat)
    requires Valid(r) && r.rp != r.wp
    ensures ReadChunk(rule, r, count)
         == (if rule.AsWritten? && r.wp < r.rp && r.rp + count > |r.buf| then Min(count, |r.buf| - r.wp)
             else Min(count, Min(|Contents(r)|, |r.buf| - r.rp)))
  {
  }

  /** How much a write takes in, on either side of the read pointer: as much as is offered, as is free, and as lies before `end`. */
  lemma WriteChunkExact(r: Ring, count: nat)
    requires Valid(r)
    ensures WriteChunk(r, count) == Min(count, Min(|r.buf| - 1 - |Contents(r)|, |r.buf| - r.wp))
  {
    SpaceAddsUp(r);
  }

  /** A read stays inside the buffer exactly when it does not overrun, and then inside the unread bytes. */
  lemma ReadChunkFits(rule: ChunkRule, r: Ring, count: nat)
    requires Valid(r) && r.rp != r.wp
    ensures var k := ReadChunk(rule, r, count);
            && (r.rp + k <= |r.buf| <==> !Overruns(rule, r, count))
            && (!Overruns(rule, r, count) ==> (r.rp < r.wp ==> r.rp + k <= r.wp))
            && (count > 0 ==> k > 0)
  {
  }

  /** Taking bytes in front of `end` and the write pointer takes the oldest ones, in order. */
  lemma TakeTakesOldest(r: Ring, k: nat)
    requires Valid(r) && r.rp + k <= |r.buf| && (r.rp <= r.wp ==> r.rp + k <= r.wp)
    ensures var a := AdvanceRead(r, k);
            && InRange(a)
            && Contents(r) == r.buf[r.rp..r.rp + k] + Contents(a)
            && Valid(WrapRead(a))
            && Contents(WrapRead(a)) == Contents(a)
  {
    var head := r.buf[r.rp..r.rp + k];
    if r.rp <= r.wp {
      assert r.buf[r.rp..r.wp] == head + r.buf[r.rp + k..r.wp];
    } else {
      assert r.buf[r.rp..] == head + r.buf[r.rp + k..];
      assert head + r.buf[r.rp + k..] + r.buf[..r.wp] == head + (r.buf[r.rp + k..] + r.buf[..r.wp]);
    }
  }

  /** A read stays inside the buffer exactly when it does not overrun; then it takes the oldest bytes, in order. */
  lemma ReadTakesOldest(rule: ChunkRule, r: Ring, count: nat)
    requires Valid(r) && r.rp != r.wp
    ensures var k := ReadChunk(rule, r, count);
            && (r.rp + k <= |r.buf| <==> !Overruns(rule, r, count))
            && (count > 0 ==> k > 0)
            && (!Overruns(rule, r, count) ==> k == count || k == |Contents(r)| || r.rp + k == |r.buf|)
            && (!Overruns(rule, r, count) ==>
                  && InRange(AdvanceRead(r, k))
                  && Contents(r) == r.buf[r.rp..r.rp + k] + Contents(AdvanceRead(r, k))
                  && Valid(WrapRead(AdvanceRead(r, k)))
                  && Contents(WrapRead(AdvanceRead(r, k))) == Contents(AdvanceRead(r, k)))
  {
    ReadChunkFits(rule, r, count);
    ReadChunkExact(rule, r, count);
    if !Overruns(rule, r, count) {
      TakeTakesOldest(r, ReadChunk(rule, r, count));
    }
  }

  /** The two rules for a wrapped read agree exactly on the reads that do not overrun. */
  lemma RulesAgree(r: Ring, count: nat)
    requires Valid(r) && r.rp != r.wp
    ensures ReadChunk(AsWritten, r, count) == ReadChunk(AsIntended, r, count) <==> !Overruns(AsWritten, r, count)
  {
  }

  lemma WriteChunkFits(r: Ring, count: nat)
    requires Valid(r) && SpaceFree(r) > 0
    ensures var k := WriteChunk(r, count);
            && |Contents(r)| + k < |r.buf|
            && (r.wp < r.rp ==> r.wp + k < r.rp)
            && (count > 0 ==> k > 0)
  {
    SpaceAddsUp(r);
  }

  /** Bytes put behind what lies in front of the read pointer. */
  lemma PutBelow(r: Ring, put: seq<Byte>)
    requires r.wp + |put| < r.rp <= |r.buf|
    ensures Contents(AdvanceWrite(r, put)) == Contents(r) + put
  {
    var a := AdvanceWrite(r, put);
    var before, after := r.buf[..r.wp], a.buf[..a.wp];
    assert after == before + put;
    assert a.buf[r.rp..] == r.buf[r.rp..];
    assert r.buf[r.rp..] + (before + put) == (r.buf[r.rp..] + before) + put;
  }

  /** Bytes put behind all others, in front of `end`. */
  lemma PutAbove(r: Ring, put: seq<Byte>)
    requires r.rp <= r.wp && r.wp + |put| <= |r.buf|
    ensures Contents(AdvanceWrite(r, put)) == Contents(r) + put
  {
    var a := AdvanceWrite(r, put);
    assert a.buf[r.rp..a.wp] == r.buf[r.rp..r.wp] + put;
  }

  lemma WrapKeepsContents(a: Ring)
    requires a.rp < |a.buf| && a.wp <= |a.buf| && (a.wp == |a.buf| ==> 0 < a.rp)
    ensures Valid(WrapWrite(a)) && Contents(WrapWrite(a)) == Contents(a)
  {
    if a.wp == |a.buf| {
      assert a.buf[a.rp..] + a.buf[..0] == a.buf[a.rp..a.wp];
    }
  }

  /** Bytes put behind the unread ones, up to `end` or the read pointer. */
  lemma PutAppends(r: Ring, put: seq<Byte>)
    requires Valid(r) && r.wp + |put| <= |r.buf| && |Contents(r)| + |put| < |r.buf|
    requires r.wp < r.rp ==> r.wp + |put| < r.rp
    ensures var a := AdvanceWrite(r, put);
            && InRange(a)
            && Contents(a) == Contents(r) + put
            && Valid(WrapWrite(a))
            && Contents(WrapWrite(a)) == Contents(a)
  {
    if r.wp < r.rp {
      PutBelow(r, put);
    } else {
      PutAbove(r, put);
    }
    WrapKeepsContents(AdvanceWrite(r, put));
  }

  /** A write with space free appends its bytes behind the unread ones and never uses the reserved slot. */
  lemma WriteAppends(r: Ring, data: seq<Byte>)
    requires Valid(r) && SpaceFree(r) > 0
    ensures var k := WriteChunk(r, |data|);
            && (data != [] ==> k > 0)
            && k <= |data| && (k == |data| || |Contents(r)| + k == |r.buf| - 1 || r.wp + k == |r.buf|)
            && var a := AdvanceWrite(r, data[..k]);
            && InRange(a)
            && Contents(a) == Contents(r) + data[..k]
            && Valid(WrapWrite(a))
            && Contents(WrapWrite(a)) == Contents(a)
  {
    WriteChunkFits(r, |data|);
    WriteChunkExact(r, |data|);
    PutAppends(r, data[..WriteChunk(r, |data|)]);
  }

  /** Line 126 on a wrapped ring: a read of 4 bytes from offset 3 of a 4-byte buffer leaves the buffer. */
  lemma WrappedReadOverrun()
    ensures var r := Ring([7, 8, 9, 10], 3, 1);
            && Valid(r)
            && |Contents(r)| == 2
            && ReadChunk(AsWritten, r, 4) == 3
            && ReadChunk(AsIntended, r, 4) == 1
            && !Valid(WrapRead(AdvanceRead(r, 3)))
  {
  }
}
