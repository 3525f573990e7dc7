/**
 The three ways the block driver serves requests (sbull/sbull.c:67-160), and the disk image they leave:
 segment by segment from the request queue, request by request, or bio by bio without a queue.
 */
module SbullDisk {
  import opened Bytes

  const SECTOR: nat := 512

  /** A run of sectors, and the memory from its buffer address on. */
  datatype Segment = Segment(nsect: nat, memory: seq<Byte>)

  datatype Bio = Bio(sector: nat, segs: seq<Segment>)

  /** Consecutive bios, one direction.  `fs` is `blk_fs_request`. */
  datatype Request = Request(fs: bool, write: bool, bios: seq<Bio>)

  /**
   Lines 111-112 give every segment the length `bio_cur_sectors` reports, which is that of the bio's
   first segment while `bi_idx` stands there; the loop is evidently meant to use the segment's own.
   */
  datatype LengthRule = AsWritten | AsIntended

  /** One `sbull_transfer`: which sectors, to or from which buffer. */
  datatype Move = Move(sector: nat, nsect: nat, memory: seq<Byte>)

  /** What was put into a buffer by a read, if anything. */
  type Fetched = Option<seq<Byte>>

  predicate InRange(disk: seq<Byte>, m: Move) {
    (m.sector + m.nsect) * SECTOR <= |disk|
  }

  predicate Backed(m: Move) {
    m.nsect * SECTOR <= |m.memory|
  }

  predicate Sound(moves: seq<Move>) {
    forall i :: 0 <= i < |moves| ==> Backed(moves[i])
  }

  // ---- The image, as a value ----

  function Splice(disk: seq<Byte>, at: nat, data: seq<Byte>): (r: seq<Byte>)
    requires at + |data| <= |disk|
    ensures |r| == |disk|
  {
    disk[..at] + data + disk[at + |data|..]
  }

  /** A write of one segment; beyond the end it does nothing. */
  function Written(disk: seq<Byte>, m: Move): (r: seq<Byte>)
    requires Backed(m)
    ensures |r| == |disk|
  {
    if InRange(disk, m) then Splice(disk, m.sector * SECTOR, m.memory[..m.nsect * SECTOR]) else disk
  }

  /** Inside the range of a write that fits lie its bytes, and everywhere else the old ones. */
  lemma WrittenExact(disk: seq<Byte>, m: Move)
    requires Backed(m)
    ensures forall i :: 0 <= i < |disk| ==>
              Written(disk, m)[i] ==
                if (m.sector + m.nsect) * 512 <= |disk| && m.sector * 512 <= i < (m.sector + m.nsect) * 512 then m.memory[i - m.sector * 512]
                else disk[i]
  {
  }

  function WrittenAll(disk: seq<Byte>, moves: seq<Move>): (r: seq<Byte>)
    requires Sound(moves)
    ensures |r| == |disk|
    decreases |moves|
  {
    if moves == [] then disk else WrittenAll(Written(disk, moves[0]), moves[1..])
  }

  function Read(disk: seq<Byte>, m: Move): Fetched {
    if InRange(disk, m) then Some(disk[m.sector * SECTOR..(m.sector + m.nsect) * SECTOR]) else None
  }

  function ReadAll(disk: seq<Byte>, moves: seq<Move>): seq<Fetched> {
    if moves == [] then [] else [Read(disk, moves[0])] + ReadAll(disk, moves[1..])
  }

  /** The transfers of consecutive segments from a sector on, each of length `first` if that is given. */
  function MovesFrom(sector: nat, segs: seq<Segment>, first: Option<nat>): seq<Move>
    decreases |segs|
  {
    if segs == [] then []
    else
      var n := if first.Some? then first.value else segs[0].nsect;
      [Move(sector, n, segs[0].memory)] + MovesFrom(sector + n, segs[1..], first)
  }

  function BioMoves(rule: LengthRule, bio: Bio): seq<Move> {
    MovesFrom(bio.sector, bio.segs, if rule.AsWritten? && bio.segs != [] then Some(bio.segs[0].nsect) else None)
  }

  function Sectors(segs: seq<Segment>): nat {
    if segs == [] then 0 else segs[0].nsect + Sectors(segs[1..])
  }

  predicate Uniform(bio: Bio) {
    forall i :: 0 <= i < |bio.segs| ==> bio.segs[i].nsect == bio.segs[0].nsect
  }

  lemma {:induction false} UniformMoves(sector: nat, segs: seq<Segment>, n: nat)
    ensures MovesFrom(sector, segs, Some(n)) == MovesFrom(sector, segs, None) <==> forall i :: 0 <= i < |segs| ==> segs[i].nsect == n
    ensures |MovesFrom(sector, segs, Some(n))| == |segs|
    decreases |segs|
  {
    if segs != [] {
      var a, b := MovesFrom(sector, segs, Some(n)), MovesFrom(sector, segs, None);
      assert a[0].nsect == n && b[0].nsect == segs[0].nsect;
      UniformMoves(sector + n, segs[1..], n);
      assert segs == [segs[0]] + segs[1..];
      assert a[1..] == MovesFrom(sector + n, segs[1..], Some(n));
      if segs[0].nsect == n {
        assert b[1..] == MovesFrom(sector + n, segs[1..], None);
      }
    }
  }

  /** The loop as written moves every segment to its own place exactly when all are as long as the first. */
  lemma LengthsAgreeExactly(bio: Bio)
    ensures BioMoves(AsWritten, bio) == BioMoves(AsIntended, bio) <==> Uniform(bio)
  {
    if bio.segs != [] {
      UniformMoves(bio.sector, bio.segs, bio.segs[0].nsect);
    }
  }

  /** A bio of two and one sectors: the second segment is taken for two, and reaches past its buffer. */
  lemma UnevenBio(a: seq<Byte>, b: seq<Byte>)
    requires |a| == 2 * SECTOR && |b| == SECTOR
    ensures var moves := BioMoves(AsWritten, Bio(7, [Segment(2, a), Segment(1, b)]));
            moves == [Move(7, 2, a), Move(9, 2, b)] && !Backed(moves[1])
  {
    assert [Segment(2, a), Segment(1, b)][1..] == [Segment(1, b)];
    assert MovesFrom(9, [Segment(1, b)], Some(2)) == [Move(9, 2, b)] + MovesFrom(11, [], Some(2));
  }

  // ---- What consecutive moves amount to ----

  predicate AllBacked(segs: seq<Segment>) {
    forall i :: 0 <= i < |segs| ==> segs[i].nsect * SECTOR <= |segs[i].memory|
  }

  lemma {:induction false} MovesBacked(sector: nat, segs: seq<Segment>)
    requires AllBacked(segs)
    ensures Sound(MovesFrom(sector, segs, None))
    decreases |segs|
  {
    if segs != [] {
      MovesBacked(sector + segs[0].nsect, segs[1..]);
    }
  }

  function Payload(segs: seq<Segment>): (r: seq<Byte>)
    requires AllBacked(segs)
    ensures |r| == Sectors(segs) * SECTOR
  {
    if segs == [] then [] else segs[0].memory[..segs[0].nsect * SECTOR] + Payload(segs[1..])
  }

  lemma SpliceJoin(disk: seq<Byte>, at: nat, a: seq<Byte>, b: seq<Byte>)
    requires at + |a| + |b| <= |disk|
    ensures Splice(Splice(disk, at, a), at + |a|, b) == Splice(disk, at, a + b)
  {
  }

  lemma WrittenCons(disk: seq<Byte>, m: Move, rest: seq<Move>)
    requires Sound([m] + rest)
    ensures Backed(m) && Sound(rest) && WrittenAll(disk, [m] + rest) == WrittenAll(Written(disk, m), rest)
  {
    assert Backed(([m] + rest)[0]);
    assert forall i :: 0 <= i < |rest| ==> rest[i] == ([m] + rest)[i + 1];
    assert ([m] + rest)[1..] == rest;
  }

  /** A write that fits, and others that together splice in behind it. */
  lemma FirstAndRest(disk: seq<Byte>, m: Move, rest: seq<Move>, at: nat, data: seq<Byte>, next: nat, tail: seq<Byte>)
    requires Sound([m] + rest) && Backed(m) && InRange(disk, m) && data == m.memory[..m.nsect * SECTOR] && Sound(rest)
    requires at == m.sector * SECTOR && next == at + |data| && next + |tail| <= |disk|
    requires WrittenAll(Splice(disk, at, data), rest) == Splice(Splice(disk, at, data), next, tail)
    ensures WrittenAll(disk, [m] + rest) == Splice(disk, at, data + tail)
  {
    WrittenCons(disk, m, rest);
    assert (m.sector + m.nsect) * SECTOR <= |disk| && m.sector * SECTOR == at;
    assert Written(disk, m) == Splice(disk, at, data);
    SpliceJoin(disk, at, data, tail);
  }

  lemma {:induction false} SegmentsSplice(disk: seq<Byte>, sector: nat, segs: seq<Segment>)
    requires AllBacked(segs) && (sector + Sectors(segs)) * SECTOR <= |disk|
    ensures Sound(MovesFrom(sector, segs, None))
    ensures WrittenAll(disk, MovesFrom(sector, segs, None)) == Splice(disk, sector * SECTOR, Payload(segs))
    decreases |segs|
  {
    MovesBacked(sector, segs);
    if segs == [] {
      NothingSpliced(disk, sector * SECTOR);
    } else {
      SegmentsSplice(Front(disk, sector, segs[0]), sector + segs[0].nsect, segs[1..]);
      OneMoreLands(disk, sector, segs);
    }
  }

  lemma SpliceExact(disk: seq<Byte>, after: seq<Byte>, at: nat, end: nat, data: seq<Byte>)
    requires end == at + |data| <= |disk| && after == Splice(disk, at, data)
    ensures |after| == |disk| && forall i :: 0 <= i < |disk| ==> after[i] == if at <= i < end then data[i - at] else disk[i]
  {
  }

  /** Segments that fit put all their bytes on the disk, end to end from the starting sector on, and touch no other. */
  lemma SegmentsAreOneSplice(disk: seq<Byte>, sector: nat, segs: seq<Segment>)
    requires AllBacked(segs) && (sector + Sectors(segs)) * SECTOR <= |disk|
    ensures Sound(MovesFrom(sector, segs, None))
    ensures var after, data := WrittenAll(disk, MovesFrom(sector, segs, None)), Payload(segs);
            var at, end := sector * 512, (sector + Sectors(segs)) * 512;
            |data| == end - at && forall i :: 0 <= i < |disk| ==> after[i] == if at <= i < end then data[i - at] else disk[i]
  {
    SegmentsSplice(disk, sector, segs);
    SpliceExact(disk, WrittenAll(disk, MovesFrom(sector, segs, None)), sector * 512, (sector + Sectors(segs)) * 512, Payload(segs));
  }

  /** Where the bytes of each segment come to lie among them. */
  lemma {:induction false} PayloadAt(segs: seq<Segment>, k: nat, b: nat)
    requires AllBacked(segs) && k < |segs| && b < segs[k].nsect * SECTOR
    ensures Sectors(segs[..k]) * 512 + b < |Payload(segs)| && Payload(segs)[Sectors(segs[..k]) * 512 + b] == segs[k].memory[b]
  {
    if k > 0 {
      PayloadAt(segs[1..], k - 1, b);
      FrontSectors(segs, k);
    }
  }

  lemma NothingSpliced(disk: seq<Byte>, at: nat)
    requires at <= |disk|
    ensures WrittenAll(disk, []) == disk == Splice(disk, at, [])
  {
  }

  /** The disk with one segment on it. */
  function Front(disk: seq<Byte>, sector: nat, seg: Segment): (r: seq<Byte>)
    requires seg.nsect * SECTOR <= |seg.memory| && (sector + seg.nsect) * SECTOR <= |disk|
    ensures |r| == |disk|
  {
    Splice(disk, sector * SECTOR, seg.memory[..seg.nsect * SECTOR])
  }

  lemma OneMoreLands(disk: seq<Byte>, sector: nat, segs: seq<Segment>)
    requires AllBacked(segs) && segs != [] && (sector + Sectors(segs)) * SECTOR <= |disk|
    requires Sound(MovesFrom(sector, segs, None)) && Sound(MovesFrom(sector + segs[0].nsect, segs[1..], None))
    requires WrittenAll(Front(disk, sector, segs[0]), MovesFrom(sector + segs[0].nsect, segs[1..], None))
          == Splice(Front(disk, sector, segs[0]), (sector + segs[0].nsect) * SECTOR, Payload(segs[1..]))
    ensures WrittenAll(disk, MovesFrom(sector, segs, None)) == Splice(disk, sector * SECTOR, Payload(segs))
  {
    var m, data, tail := Move(sector, segs[0].nsect, segs[0].memory), segs[0].memory[..segs[0].nsect * SECTOR], Payload(segs[1..]);
    var at, next := sector * SECTOR, (sector + m.nsect) * SECTOR;
    var rest := MovesFrom(sector + m.nsect, segs[1..], None);
    assert |data| == m.nsect * SECTOR && next == at + |data|;
    assert MovesFrom(sector, segs, None) == [m] + rest && Payload(segs) == data + tail;
    FirstAndRest(disk, m, rest, at, data, next, tail);
  }

  /** Once a segment reaches past the end, it and all that follow change nothing. */
  lemma {:induction false} BeyondTheEnd(disk: seq<Byte>, sector: nat, segs: seq<Segment>)
    requires AllBacked(segs) && (segs != [] ==> (sector + segs[0].nsect) * SECTOR > |disk|)
    ensures Sound(MovesFrom(sector, segs, None))
    ensures WrittenAll(disk, MovesFrom(sector, segs, None)) == disk
    decreases |segs|
  {
    MovesBacked(sector, segs);
    if segs != [] {
      BeyondTheEnd(disk, sector + segs[0].nsect, segs[1..]);
      assert MovesFrom(sector, segs, None)[1..] == MovesFrom(sector + segs[0].nsect, segs[1..], None);
    }
  }

  /** `k` segments fit on the disk, and if there is another it does not. */
  predicate Fitting(disk: seq<Byte>, sector: nat, segs: seq<Segment>, k: nat) {
    && k <= |segs|
    && (k > 0 ==> (sector + Sectors(segs[..k])) * SECTOR <= |disk|)
    && (k < |segs| ==> (sector + Sectors(segs[..k + 1])) * SECTOR > |disk|)
  }

  lemma FrontSectors(segs: seq<Segment>, k: nat)
    requires 0 < k <= |segs|
    ensures Sectors(segs[..k]) == segs[0].nsect + Sectors(segs[1..][..k - 1])
  {
    assert segs[..k][1..] == segs[1..][..k - 1];
  }

  /** The segments up to some number, and then the others. */
  lemma InTwoParts(disk: seq<Byte>, sector: nat, a: seq<Segment>, b: seq<Segment>)
    requires AllBacked(a + b)
    ensures AllBacked(a) && AllBacked(b)
    ensures Sound(MovesFrom(sector, a + b, None)) && Sound(MovesFrom(sector, a, None)) && Sound(MovesFrom(sector + Sectors(a), b, None))
    ensures WrittenAll(disk, MovesFrom(sector, a + b, None))
         == WrittenAll(WrittenAll(disk, MovesFrom(sector, a, None)), MovesFrom(sector + Sectors(a), b, None))
  {
    assert forall i :: 0 <= i < |a| ==> a[i] == (a + b)[i];
    assert forall i :: 0 <= i < |b| ==> b[i] == (a + b)[|a| + i];
    MovesBacked(sector, a);
    MovesBacked(sector + Sectors(a), b);
    MovesBacked(sector, a + b);
    MovesAppend(sector, a, b);
    WrittenAppend(disk, MovesFrom(sector, a, None), MovesFrom(sector + Sectors(a), b, None));
  }

  lemma {:induction false} OneMoreSegment(segs: seq<Segment>, k: nat)
    requires k < |segs|
    ensures Sectors(segs[..k + 1]) == Sectors(segs[..k]) + segs[k].nsect
  {
    FrontSectors(segs, k + 1);
    if k > 0 {
      FrontSectors(segs, k);
      OneMoreSegment(segs[1..], k - 1);
    }
  }

  /** What segments that fit leave of a disk. */
  function Landed(disk: seq<Byte>, sector: nat, segs: seq<Segment>): seq<Byte>
    requires AllBacked(segs) && (segs != [] ==> (sector + Sectors(segs)) * SECTOR <= |disk|)
  {
    if segs == [] then disk else Splice(disk, sector * SECTOR, Payload(segs))
  }

  lemma FrontLands(disk: seq<Byte>, sector: nat, segs: seq<Segment>)
    requires AllBacked(segs) && (segs != [] ==> (sector + Sectors(segs)) * SECTOR <= |disk|)
    ensures Sound(MovesFrom(sector, segs, None)) && WrittenAll(disk, MovesFrom(sector, segs, None)) == Landed(disk, sector, segs)
  {
    if segs != [] {
      SegmentsSplice(disk, sector, segs);
    }
  }

  lemma PartsLand(disk: seq<Byte>, sector: nat, a: seq<Segment>, b: seq<Segment>)
    requires AllBacked(a + b) && AllBacked(a) && (a != [] ==> (sector + Sectors(a)) * SECTOR <= |disk|)
    requires b != [] ==> (sector + Sectors(a) + b[0].nsect) * SECTOR > |disk|
    ensures Sound(MovesFrom(sector, a + b, None)) && WrittenAll(disk, MovesFrom(sector, a + b, None)) == Landed(disk, sector, a)
  {
    InTwoParts(disk, sector, a, b);
    FrontLands(disk, sector, a);
    BeyondTheEnd(WrittenAll(disk, MovesFrom(sector, a, None)), sector + Sectors(a), b);
  }

  /**
   Wherever a request starts and however far it reaches: the bytes of the segments that fit lie end to end
   from the starting sector on, and every other byte of the disk is the old one.
   */
  lemma FittingSegmentsLand(disk: seq<Byte>, sector: nat, segs: seq<Segment>, k: nat)
    requires AllBacked(segs) && Fitting(disk, sector, segs, k)
    ensures Sound(MovesFrom(sector, segs, None)) && AllBacked(segs[..k])
    ensures var after, data := WrittenAll(disk, MovesFrom(sector, segs, None)), Payload(segs[..k]);
            var at, end := sector * 512, (sector + Sectors(segs[..k])) * 512;
            |data| == end - at && forall i :: 0 <= i < |disk| ==> after[i] == if at <= i < end then data[i - at] else disk[i]
  {
    if k < |segs| {
      OneMoreSegment(segs, k);
    }
    assert segs[..k] + segs[k..] == segs;
    PartsLand(disk, sector, segs[..k], segs[k..]);
    if k > 0 {
      SpliceExact(disk, WrittenAll(disk, MovesFrom(sector, segs, None)), sector * 512, (sector + Sectors(segs[..k])) * 512, Payload(segs[..k]));
    }
  }

  /** There is always such a number. */
  lemma {:induction false} HowManyFit(disk: seq<Byte>, sector: nat, segs: seq<Segment>) returns (k: nat)
    ensures Fitting(disk, sector, segs, k)
    decreases |segs|
  {
    if segs == [] || (sector + segs[0].nsect) * SECTOR > |disk| {
      k := 0;
      assert segs != [] ==> segs[..1] == [segs[0]] && [segs[0]][1..] == [] && Sectors([segs[0]]) == segs[0].nsect;
    } else {
      var n := HowManyFit(disk, sector + segs[0].nsect, segs[1..]);
      k := n + 1;
      FrontSectors(segs, k);
      if k < |segs| {
        FrontSectors(segs, k + 1);
      }
    }
  }

  function Gathered(parts: seq<Fetched>): seq<Byte> {
    if parts == [] then [] else (if parts[0].Some? then parts[0].value else []) + Gathered(parts[1..])
  }

  /** A read that fits fills the buffers, end to end, with the bytes of the disk. */
  lemma {:induction false} ReadIsOneSlice(disk: seq<Byte>, sector: nat, segs: seq<Segment>)
    requires (sector + Sectors(segs)) * SECTOR <= |disk|
    ensures Gathered(ReadAll(disk, MovesFrom(sector, segs, None))) == disk[sector * SECTOR..(sector + Sectors(segs)) * SECTOR]
    decreases |segs|
  {
    if segs != [] {
      ReadIsOneSlice(disk, sector + segs[0].nsect, segs[1..]);
      var moves := MovesFrom(sector, segs, None);
      assert moves[1..] == MovesFrom(sector + segs[0].nsect, segs[1..], None);
      assert ReadAll(disk, moves)[1..] == ReadAll(disk, moves[1..]);
    }
  }

  /**
   Segment by segment, whatever the others do: its buffer gets the bytes of its own sectors, or nothing if
   they reach past the end.
   */
  lemma {:induction false} SegmentsRead(disk: seq<Byte>, sector: nat, segs: seq<Segment>, k: nat)
    requires k < |segs|
    ensures var got := ReadAll(disk, MovesFrom(sector, segs, None));
            var at, end := (sector + Sectors(segs[..k])) * 512, (sector + Sectors(segs[..k + 1])) * 512;
            |got| == |segs| && at <= end && got[k] == if end <= |disk| then Some(disk[at..end]) else None
    decreases |segs|
  {
    var next := sector + segs[0].nsect;
    assert MovesFrom(sector, segs, None) == [Move(sector, segs[0].nsect, segs[0].memory)] + MovesFrom(next, segs[1..], None);
    ReadCons(disk, Move(sector, segs[0].nsect, segs[0].memory), MovesFrom(next, segs[1..], None));
    FrontSectors(segs, k + 1);
    if k > 0 {
      SegmentsRead(disk, next, segs[1..], k - 1);
      FrontSectors(segs, k);
    } else if segs[1..] != [] {
      SegmentsRead(disk, next, segs[1..], 0);
    }
  }

  /** A request written and then read back gives the bytes that were written. */
  lemma WriteThenRead(disk: seq<Byte>, sector: nat, segs: seq<Segment>)
    requires AllBacked(segs) && (sector + Sectors(segs)) * SECTOR <= |disk|
    ensures Sound(MovesFrom(sector, segs, None))
    ensures Gathered(ReadAll(WrittenAll(disk, MovesFrom(sector, segs, None)), MovesFrom(sector, segs, None))) == Payload(segs)
  {
    SegmentsSplice(disk, sector, segs);
    ReadIsOneSlice(Splice(disk, sector * SECTOR, Payload(segs)), sector, segs);
  }

  // ---- Three paths, one image ----

  /** The bios of a request lie end to end on the disk. */
  predicate Contiguous(bios: seq<Bio>) {
    forall i :: 0 < i < |bios| ==> Follows(bios, i)
  }

  predicate Follows(bios: seq<Bio>, i: nat)
    requires 0 < i < |bios|
  {
    bios[i].sector == bios[i - 1].sector + Sectors(bios[i - 1].segs)
  }

  function Joined(bios: seq<Bio>): seq<Segment> {
    if bios == [] then [] else bios[0].segs + Joined(bios[1..])
  }

  function BiosMoves(rule: LengthRule, bios: seq<Bio>): seq<Move> {
    if bios == [] then [] else BioMoves(rule, bios[0]) + BiosMoves(rule, bios[1..])
  }

  lemma {:induction false} MovesAppend(sector: nat, a: seq<Segment>, b: seq<Segment>)
    ensures MovesFrom(sector, a + b, None) == MovesFrom(sector, a, None) + MovesFrom(sector + Sectors(a), b, None)
    decreases |a|
  {
    if a == [] {
      assert a + b == b;
    } else {
      MovesAppend(sector + a[0].nsect, a[1..], b);
      assert (a + b)[1..] == a[1..] + b;
    }
  }

  /** Going through the bios one after the other makes the same moves as going through all their segments in a row. */
  lemma {:induction false} BiosInARow(bios: seq<Bio>)
    requires Contiguous(bios) && bios != []
    ensures BiosMoves(AsIntended, bios) == MovesFrom(bios[0].sector, Joined(bios), None)
    decreases |bios|
  {
    var rest := bios[1..];
    if rest == [] {
      NoMoreBios(bios[0]);
      assert bios == [bios[0]];
    } else {
      RestContiguous(bios);
      BiosInARow(rest);
      assert rest[0].sector == bios[0].sector + Sectors(bios[0].segs);
      MovesAppend(bios[0].sector, bios[0].segs, Joined(rest));
      calc {
        BiosMoves(AsIntended, bios);
        BioMoves(AsIntended, bios[0]) + BiosMoves(AsIntended, rest);
        MovesFrom(bios[0].sector, bios[0].segs, None) + MovesFrom(rest[0].sector, Joined(rest), None);
        MovesFrom(bios[0].sector, bios[0].segs + Joined(rest), None);
      }
    }
  }

  lemma NoMoreBios(bio: Bio)
    ensures BiosMoves(AsIntended, [bio]) == MovesFrom(bio.sector, Joined([bio]), None)
  {
    assert [bio][1..] == [];
    assert Joined([bio]) == bio.segs + [] == bio.segs;
    assert BiosMoves(AsIntended, [bio]) == BioMoves(AsIntended, bio) + [] == BioMoves(AsIntended, bio);
  }

  lemma RestContiguous(bios: seq<Bio>)
    requires Contiguous(bios) && |bios| > 1
    ensures Contiguous(bios[1..]) && bios[1].sector == bios[0].sector + Sectors(bios[0].segs)
  {
    forall i | 0 < i < |bios[1..]|
      ensures Follows(bios[1..], i)
    {
      assert Follows(bios, i + 1);
    }
    assert Follows(bios, 1);
  }

  /** With bios of even segments the lengths as written do no harm. */
  lemma {:induction false} UniformBios(bios: seq<Bio>)
    requires forall i :: 0 <= i < |bios| ==> Uniform(bios[i])
    ensures BiosMoves(AsWritten, bios) == BiosMoves(AsIntended, bios)
    decreases |bios|
  {
    if bios != [] {
      LengthsAgreeExactly(bios[0]);
      UniformBios(bios[1..]);
    }
  }

  /**
   The queue-less and the whole-request path make the moves of the segment-by-segment path for every
   request whose bios each have even segments, and for every request at all if each segment counts for
   itself; so the three leave the same image and fetch the same bytes.
   */
  lemma ThreePathsAgree(rule: LengthRule, bios: seq<Bio>)
    requires Contiguous(bios) && bios != []
    requires rule.AsIntended? || forall i :: 0 <= i < |bios| ==> Uniform(bios[i])
    ensures BiosMoves(rule, bios) == MovesFrom(bios[0].sector, Joined(bios), None)
  {
    BiosInARow(bios);
    if rule.AsWritten? {
      UniformBios(bios);
    }
  }

  // ---- Effects ----

  /** The disk, and what was put into the buffers of the reads so far. */
  datatype Effect = Effect(image: seq<Byte>, fetched: seq<Fetched>)

  function Do(e: Effect, write: bool, moves: seq<Move>): (r: Effect)
    requires Sound(moves)
    ensures |r.image| == |e.image|
  {
    if write then Effect(WrittenAll(e.image, moves), e.fetched) else Effect(e.image, e.fetched + ReadAll(e.image, moves))
  }

  lemma {:induction false} WrittenAppend(disk: seq<Byte>, a: seq<Move>, b: seq<Move>)
    requires Sound(a) && Sound(b)
    ensures WrittenAll(disk, a + b) == WrittenAll(WrittenAll(disk, a), b)
    decreases |a|
  {
    if a == [] {
      assert a + b == b;
    } else {
      WrittenAppend(Written(disk, a[0]), a[1..], b);
      assert (a + b)[1..] == a[1..] + b;
    }
  }

  lemma ReadCons(disk: seq<Byte>, m: Move, rest: seq<Move>)
    ensures ReadAll(disk, [m] + rest) == [Read(disk, m)] + ReadAll(disk, rest)
  {
    assert ([m] + rest)[1..] == rest;
  }

  lemma {:induction false} ReadAppend(disk: seq<Byte>, a: seq<Move>, b: seq<Move>)
    ensures ReadAll(disk, a + b) == ReadAll(disk, a) + ReadAll(disk, b)
    decreases |a|
  {
    if a == [] {
      assert a + b == b;
    } else {
      var rest := a[1..];
      ReadAppend(disk, rest, b);
      assert a + b == [a[0]] + (rest + b) && a == [a[0]] + rest;
      ReadCons(disk, a[0], rest + b);
      ReadCons(disk, a[0], rest);
    }
  }

  lemma DoAppend(e: Effect, write: bool, a: seq<Move>, b: seq<Move>)
    requires Sound(a + b)
    ensures Sound(a) && Sound(b) && Do(e, write, a + b) == Do(Do(e, write, a), write, b)
  {
    assert forall i :: 0 <= i < |a| ==> a[i] == (a + b)[i];
    assert forall i :: 0 <= i < |b| ==> b[i] == (a + b)[|a| + i];
    WrittenAppend(e.image, a, b);
    ReadAppend(e.image, a, b);
  }

  function DoOne(e: Effect, write: bool, m: Move): Effect
    requires Backed(m)
  {
    if write then Effect(Written(e.image, m), e.fetched) else Effect(e.image, e.fetched + [Read(e.image, m)])
  }

  lemma DoCons(e: Effect, write: bool, m: Move, b: seq<Move>)
    requires Sound([m] + b)
    ensures Backed(m) && Sound(b) && Do(e, write, [m] + b) == Do(DoOne(e, write, m), write, b)
  {
    DoAppend(e, write, [m], b);
    assert [m][1..] == [] && Backed([m][0]);
    assert WrittenAll(Written(e.image, m), []) == Written(e.image, m);
    assert ReadAll(e.image, [m]) == [Read(e.image, m)] + ReadAll(e.image, []);
  }

  lemma {:induction false} SectorsAppend(a: seq<Segment>, b: seq<Segment>)
    ensures Sectors(a + b) == Sectors(a) + Sectors(b)
  {
    if a == [] {
      assert a + b == b;
    } else {
      SectorsAppend(a[1..], b);
      assert (a + b)[1..] == a[1..] + b;
    }
  }

  // ---- Queues ----

  /** What a request still has to do on the segment-by-segment path. */
  datatype Pending = Pending(fs: bool, write: bool, sector: nat, segs: seq<Segment>)

  predicate PendingOk(p: Pending) {
    p.segs != [] && AllBacked(p.segs)
  }

  predicate AllPendingOk(queue: seq<Pending>) {
    forall i :: 0 <= i < |queue| ==> PendingOk(queue[i])
  }

  /** Only file system requests have an effect. */
  function PendingEffect(e: Effect, p: Pending): (r: Effect)
    requires PendingOk(p)
    ensures |r.image| == |e.image|
  {
    MovesBacked(p.sector, p.segs);
    if p.fs then Do(e, p.write, MovesFrom(p.sector, p.segs, None)) else e
  }

  function SimpleEffect(e: Effect, queue: seq<Pending>): (r: Effect)
    requires AllPendingOk(queue)
    ensures |r.image| == |e.image|
    decreases |queue|
  {
    if queue == [] then e else SimpleEffect(PendingEffect(e, queue[0]), queue[1..])
  }

  lemma {:induction false} QueueInOrder(e: Effect, a: seq<Pending>, b: seq<Pending>)
    requires AllPendingOk(a) && AllPendingOk(b)
    ensures SimpleEffect(e, a + b) == SimpleEffect(SimpleEffect(e, a), b)
    decreases |a|
  {
    if a == [] {
      assert a + b == b;
    } else {
      QueueInOrder(PendingEffect(e, a[0]), a[1..], b);
      assert (a + b)[1..] == a[1..] + b;
    }
  }

  lemma EffectOfOne(e: Effect, p: Pending)
    requires PendingOk(p)
    ensures Sound(MovesFrom(p.sector, p.segs, None))
    ensures SimpleEffect(e, [p])
         == if !p.fs then e
            else if p.write then Effect(WrittenAll(e.image, MovesFrom(p.sector, p.segs, None)), e.fetched)
            else Effect(e.image, e.fetched + ReadAll(e.image, MovesFrom(p.sector, p.segs, None)))
  {
    MovesBacked(p.sector, p.segs);
    assert [p][1..] == [];
    assert SimpleEffect(e, [p]) == SimpleEffect(PendingEffect(e, p), []);
  }

  /**
   What one request does, `k` of whose segments fit: none that is not of the file system does anything, a
   write puts its bytes on the disk, and a read has one answer for each segment.
   */
  lemma RequestDone(e: Effect, p: Pending, k: nat)
    requires PendingOk(p) && Fitting(e.image, p.sector, p.segs, k)
    ensures var r := SimpleEffect(e, [p]);
            && AllBacked(p.segs[..k]) && |r.image| == |e.image|
            && (!p.fs ==> r == e)
            && (p.fs && p.write ==>
                  && r.fetched == e.fetched
                  && var at, end, data := p.sector * 512, (p.sector + Sectors(p.segs[..k])) * 512, Payload(p.segs[..k]);
                     |data| == end - at && forall i :: 0 <= i < |e.image| ==> r.image[i] == if at <= i < end then data[i - at] else e.image[i])
            && (p.fs && !p.write ==>
                  r.image == e.image && r.fetched == e.fetched + ReadAll(e.image, MovesFrom(p.sector, p.segs, None)))
  {
    EffectOfOne(e, p);
    FittingSegmentsLand(e.image, p.sector, p.segs, k);
  }

  function SegmentsLeft(queue: seq<Pending>): nat {
    if queue == [] then 0 else |queue[0].segs| + SegmentsLeft(queue[1..])
  }

  /** `end_request`: the current segment is done; the request is, if that was its last. */
  function Ended(queue: seq<Pending>): seq<Pending>
    requires queue != [] && queue[0].segs != []
  {
    var p := queue[0];
    if |p.segs| == 1 then queue[1..]
    else [p.(sector := p.sector + p.segs[0].nsect, segs := p.segs[1..])] + queue[1..]
  }

  lemma EndedEffect(e: Effect, queue: seq<Pending>)
    requires AllPendingOk(queue) && queue != []
    ensures AllPendingOk(Ended(queue)) && SegmentsLeft(Ended(queue)) == SegmentsLeft(queue) - 1
    ensures var p := queue[0];
            var now := if p.fs then DoOne(e, p.write, Move(p.sector, p.segs[0].nsect, p.segs[0].memory)) else e;
            SimpleEffect(e, queue) == SimpleEffect(now, Ended(queue))
  {
    var p := queue[0];
    var m := Move(p.sector, p.segs[0].nsect, p.segs[0].memory);
    var rest := MovesFrom(p.sector + m.nsect, p.segs[1..], None);
    MovesBacked(p.sector, p.segs);
    DoCons(e, p.write, m, rest);
    if |p.segs| == 1 {
      assert p.segs[1..] == [] && rest == [];
      assert p.fs ==> PendingEffect(e, p) == Do(DoOne(e, p.write, m), p.write, []);
      assert forall d: Effect :: Do(d, p.write, []) == d by {
        assert forall d: Effect :: d.fetched + [] == d.fetched;
      }
    } else {
      assert Ended(queue)[1..] == queue[1..];
    }
  }

  /** The driver's whole-request view: bios that follow one another, none of them empty, buffers large enough. */
  predicate RequestOk(rule: LengthRule, r: Request) {
    && r.bios != [] && Contiguous(r.bios)
    && (forall i :: 0 <= i < |r.bios| ==> BioOk(rule, r.bios[i]))
  }

  predicate BioOk(rule: LengthRule, bio: Bio) {
    && bio.segs != [] && AllBacked(bio.segs)
    && (rule.AsIntended? || Uniform(bio))
  }

  predicate AllRequestsOk(rule: LengthRule, queue: seq<Request>) {
    forall i :: 0 <= i < |queue| ==> RequestOk(rule, queue[i])
  }

  function Flat(r: Request): Pending
    requires r.bios != []
  {
    Pending(r.fs, r.write, r.bios[0].sector, Joined(r.bios))
  }

  function FlatAll(rule: LengthRule, queue: seq<Request>): (r: seq<Pending>)
    requires AllRequestsOk(rule, queue)
    ensures |r| == |queue| && forall i :: 0 <= i < |queue| ==> r[i] == Flat(queue[i])
  {
    seq(|queue|, i requires 0 <= i < |queue| => assert RequestOk(rule, queue[i]); Flat(queue[i]))
  }

  lemma {:induction false} JoinedBacked(rule: LengthRule, bios: seq<Bio>)
    requires forall i :: 0 <= i < |bios| ==> BioOk(rule, bios[i])
    ensures AllBacked(Joined(bios)) && (bios != [] ==> Joined(bios) != [])
    decreases |bios|
  {
    if bios != [] {
      JoinedBacked(rule, bios[1..]);
      assert BioOk(rule, bios[0]);
    }
  }

  /** The moves of a whole request are those of its flat form, so they stay in their buffers. */
  lemma RequestMoves(rule: LengthRule, r: Request)
    requires RequestOk(rule, r)
    ensures PendingOk(Flat(r)) && Sound(BiosMoves(rule, r.bios))
    ensures BiosMoves(rule, r.bios) == MovesFrom(Flat(r).sector, Flat(r).segs, None)
  {
    assert forall i :: 0 <= i < |r.bios| ==> BioOk(rule, r.bios[i]);
    ThreePathsAgree(rule, r.bios);
    JoinedBacked(rule, r.bios);
    MovesBacked(r.bios[0].sector, Joined(r.bios));
  }

  function RequestEffect(e: Effect, rule: LengthRule, r: Request): Effect
    requires RequestOk(rule, r)
  {
    RequestMoves(rule, r);
    if r.fs then Do(e, r.write, BiosMoves(rule, r.bios)) else e
  }

  function FullEffect(e: Effect, rule: LengthRule, queue: seq<Request>): Effect
    requires AllRequestsOk(rule, queue)
    decreases |queue|
  {
    if queue == [] then e else FullEffect(RequestEffect(e, rule, queue[0]), rule, queue[1..])
  }

  /** What the queue-less path is handed for the same requests: their bios, one call each. */
  datatype Submission = Submission(write: bool, bio: Bio)

  function Submitted(queue: seq<Request>): seq<Submission> {
    if queue == [] then []
    else (if queue[0].fs then Each(queue[0].write, queue[0].bios) else []) + Submitted(queue[1..])
  }

  function Each(write: bool, bios: seq<Bio>): seq<Submission> {
    seq(|bios|, i requires 0 <= i < |bios| => Submission(write, bios[i]))
  }

  predicate AllSound(rule: LengthRule, calls: seq<Submission>) {
    forall i :: 0 <= i < |calls| ==> Sound(BioMoves(rule, calls[i].bio))
  }

  function DirectEffect(e: Effect, rule: LengthRule, calls: seq<Submission>): Effect
    requires AllSound(rule, calls)
    decreases |calls|
  {
    if calls == [] then e
    else DirectEffect(Do(e, calls[0].write, BioMoves(rule, calls[0].bio)), rule, calls[1..])
  }

  lemma {:induction false} DirectAppend(e: Effect, rule: LengthRule, a: seq<Submission>, b: seq<Submission>)
    requires AllSound(rule, a) && AllSound(rule, b)
    ensures DirectEffect(e, rule, a + b) == DirectEffect(DirectEffect(e, rule, a), rule, b)
    decreases |a|
  {
    if a == [] {
      assert a + b == b;
    } else {
      DirectAppend(Do(e, a[0].write, BioMoves(rule, a[0].bio)), rule, a[1..], b);
      assert (a + b)[1..] == a[1..] + b;
    }
  }

  lemma {:induction false} BiosDirectly(e: Effect, rule: LengthRule, write: bool, bios: seq<Bio>)
    requires Sound(BiosMoves(rule, bios))
    ensures AllSound(rule, Each(write, bios))
    ensures DirectEffect(e, rule, Each(write, bios)) == Do(e, write, BiosMoves(rule, bios))
    decreases |bios|
  {
    if bios != [] {
      var a, b := BioMoves(rule, bios[0]), BiosMoves(rule, bios[1..]);
      DoAppend(e, write, a, b);
      BiosDirectly(Do(e, write, a), rule, write, bios[1..]);
      assert Each(write, bios) == [Submission(write, bios[0])] + Each(write, bios[1..]);
    }
  }

  /**
   For every queue, the three paths leave the same image and put the same bytes into the same buffers:
   segment by segment, request by request, and bio by bio without a queue.
   */
  lemma {:induction false} QueuesAgree(e: Effect, rule: LengthRule, queue: seq<Request>)
    requires AllRequestsOk(rule, queue)
    ensures AllPendingOk(FlatAll(rule, queue)) && AllSound(rule, Submitted(queue))
    ensures FullEffect(e, rule, queue) == SimpleEffect(e, FlatAll(rule, queue))
    ensures FullEffect(e, rule, queue) == DirectEffect(e, rule, Submitted(queue))
    decreases |queue|
  {
    if queue != [] {
      var r, rest := queue[0], queue[1..];
      assert RequestOk(rule, r);
      RequestMoves(rule, r);
      var next := RequestEffect(e, rule, r);
      QueuesAgree(next, rule, rest);
      assert FlatAll(rule, queue) == [Flat(r)] + FlatAll(rule, rest);
      assert FlatAll(rule, queue)[1..] == FlatAll(rule, rest);
      if r.fs {
        BiosDirectly(e, rule, r.write, r.bios);
        DirectAppend(e, rule, Each(r.write, r.bios), Submitted(rest));
      } else {
        assert Submitted(queue) == Submitted(rest);
      }
    }
  }

  // ---- The driver ----

  class SbullDev {
    const data: array<Byte>

    constructor (nbytes: nat)
      ensures fresh(data) && data.Length == nbytes
    {
      data := new Byte[nbytes];
    }

    /**
     `sbull_transfer`.  A transfer that fits copies the bytes of its sectors, to the disk or from it, and
     nothing else; one that reaches past the end copies none.
     */
    method Transfer(m: Move, write: bool) returns (got: Fetched)
      requires Backed(m)
      modifies data
      ensures forall i :: 0 <= i < data.Length ==>
                data[i] == if write && (m.sector + m.nsect) * 512 <= data.Length && m.sector * 512 <= i < (m.sector + m.nsect) * 512
                           then m.memory[i - m.sector * 512] else old(data[i])
      ensures got.Some? <==> !write && (m.sector + m.nsect) * 512 <= data.Length
      ensures got.Some? ==> |got.value| == m.nsect * 512 && forall i :: 0 <= i < |got.value| ==> got.value[i] == old(data[m.sector * 512 + i])
      ensures data[..] == if write then Written(old(data[..]), m) else old(data[..])
      ensures got == if write then None else Read(old(data[..]), m)
    {
      var offset, nbytes := m.sector * SECTOR, m.nsect * SECTOR;
      WrittenExact(data[..], m);
      got := None;
      if offset + nbytes > data.Length {
        return;
      }
      if write {
        forall i | 0 <= i < nbytes {
          data[offset + i] := m.memory[i];
        }
        assert data[..] == Splice(old(data[..]), offset, m.memory[..nbytes]);
      } else {
        got := Some(data[offset..offset + nbytes]);
        assert got.value == old(data[..])[offset..offset + nbytes];
      }
    }

    /** `sbull_request`: until the queue is empty, its first segment. */
    method SimpleRequests(queue: seq<Pending>) returns (got: seq<Fetched>)
      requires AllPendingOk(queue)
      modifies data
      ensures Effect(data[..], got) == SimpleEffect(Effect(old(data[..]), []), queue)
    {
      var q := queue;
      got := [];
      ghost var goal := SimpleEffect(Effect(data[..], []), queue);
      while q != []
        invariant AllPendingOk(q) && SimpleEffect(Effect(data[..], got), q) == goal
        decreases SegmentsLeft(q)
      {
        EndedEffect(Effect(data[..], got), q);
        var req := q[0];
        if req.fs {
          var fetched := Transfer(Move(req.sector, req.segs[0].nsect, req.segs[0].memory), req.write);
          got := if req.write then got else got + [fetched];
        }
        q := Ended(q);
      }
    }

    /** `sbull_xfer_bio`, and with it `sbull_make_request`. */
    method XferBio(rule: LengthRule, bio: Bio, write: bool) returns (got: seq<Fetched>)
      requires Sound(BioMoves(rule, bio))
      modifies data
      ensures Effect(data[..], got) == Do(Effect(old(data[..]), []), write, BioMoves(rule, bio))
    {
      got := [];
      var sector: nat := bio.sector;
      var left := bio.segs;
      var first: Option<nat> := if rule.AsWritten? && bio.segs != [] then Some(bio.segs[0].nsect) else None;
      ghost var goal := Do(Effect(data[..], []), write, BioMoves(rule, bio));
      while left != []
        invariant Sound(MovesFrom(sector, left, first))
        invariant Do(Effect(data[..], got), write, MovesFrom(sector, left, first)) == goal
        decreases |left|
      {
        var nsect := if first.Some? then first.value else left[0].nsect;
        var m := Move(sector, nsect, left[0].memory);
        DoCons(Effect(data[..], got), write, m, MovesFrom(sector + nsect, left[1..], first));
        var fetched := Transfer(m, write);
        got := if write then got else got + [fetched];
        sector, left := sector + nsect, left[1..];
      }
    }

    /** `sbull_xfer_request`: all bios, and the number of sectors they cover. */
    method XferRequest(rule: LengthRule, req: Request) returns (nsect: nat, got: seq<Fetched>)
      requires Sound(BiosMoves(rule, req.bios))
      modifies data
      ensures Effect(data[..], got) == Do(Effect(old(data[..]), []), req.write, BiosMoves(rule, req.bios))
      ensures nsect == Sectors(Joined(req.bios))
    {
      nsect, got := 0, [];
      var left := req.bios;
      ghost var goal := Do(Effect(data[..], []), req.write, BiosMoves(rule, req.bios));
      while left != []
        invariant Sound(BiosMoves(rule, left))
        invariant Do(Effect(data[..], got), req.write, BiosMoves(rule, left)) == goal
        invariant nsect + Sectors(Joined(left)) == Sectors(Joined(req.bios))
        decreases |left|
      {
        DoAppend(Effect(data[..], got), req.write, BioMoves(rule, left[0]), BiosMoves(rule, left[1..]));
        SectorsAppend(left[0].segs, Joined(left[1..]));
        DoShifts(data[..], got, req.write, BioMoves(rule, left[0]));
        var part := XferBio(rule, left[0], req.write);
        got := got + part;
        nsect := nsect + Sectors(left[0].segs);
        left := left[1..];
      }
    }

    /** `sbull_full_request`.  A request is dequeued once all its sectors are reported done, which is after one pass. */
    method FullRequests(rule: LengthRule, queue: seq<Request>) returns (got: seq<Fetched>)
      requires AllRequestsOk(rule, queue)
      modifies data
      ensures Effect(data[..], got) == FullEffect(Effect(old(data[..]), []), rule, queue)
    {
      var q := queue;
      got := [];
      ghost var goal := FullEffect(Effect(data[..], []), rule, queue);
      while q != []
        invariant AllRequestsOk(rule, q) && FullEffect(Effect(data[..], got), rule, q) == goal
        decreases |q|
      {
        var req := q[0];
        assert RequestOk(rule, req);
        RequestMoves(rule, req);
        if req.fs {
          ghost var now := data[..];
          var sectors, part := XferRequest(rule, req);
          assert sectors == Sectors(Flat(req).segs);
          DoShifts(now, got, req.write, BiosMoves(rule, req.bios));
          got := got + part;
        }
        q := q[1..];
      }
    }
  }

  /** What is fetched does not depend on what was fetched before. */
  lemma DoShifts(disk: seq<Byte>, got: seq<Fetched>, write: bool, moves: seq<Move>)
    requires Sound(moves)
    ensures Do(Effect(disk, got), write, moves).image == Do(Effect(disk, []), write, moves).image
    ensures Do(Effect(disk, got), write, moves).fetched == got + Do(Effect(disk, []), write, moves).fetched
  {
  }
}
