/** What snull does to the IP header of a packet that crosses the link (snull/snull.c:390-399). */
module IpHeader {
  import opened Bytes

  /** The header length in 32-bit words: the low half of the first byte. */
  function Ihl(h: seq<Byte>): nat
    requires |h| > 0
  {
    h[0] as nat % 16
  }

  /** A header that is all there, of at least the length section 3.1 of RFC 791 demands. */
  predicate IsHeader(h: seq<Byte>) {
    |h| >= 20 && Ihl(h) >= 5 && |h| >= 4 * Ihl(h)
  }

  function Flip(b: Byte): Byte {
    if b % 2 == 0 then b + 1 else b - 1
  }

  function Word(h: seq<Byte>, i: nat): nat
    requires 2 * i + 1 < |h|
  {
    h[2 * i] as nat * 256 + h[2 * i + 1] as nat
  }

  /** The sum of the first `n` 16-bit words. */
  function SumWords(h: seq<Byte>, n: nat): nat
    requires 2 * n <= |h|
  {
    if n == 0 then 0 else SumWords(h, n - 1) + Word(h, n - 1)
  }

  /** One's complement addition: carries out of 16 bits are added back in (section 1 of RFC 1071). */
  function Fold(x: nat): nat {
    if x < 0x1_0000 then x else Fold(x / 0x1_0000 + x % 0x1_0000)
  }

  /** `ip_fast_csum`: the complement of the one's complement sum. */
  function Checksum(h: seq<Byte>): (c: nat)
    requires IsHeader(h)
    ensures c < 0x1_0000
  {
    FoldKeepsResidue(SumWords(h, 2 * Ihl(h)));
    0xFFFF - Fold(SumWords(h, 2 * Ihl(h)))
  }

  function SetCheck(h: seq<Byte>, c: nat): (r: seq<Byte>)
    requires |h| >= 20 && c < 0x1_0000
    ensures |r| == |h| && (IsHeader(r) <==> IsHeader(h))
  {
    h[10 := (c / 256) as Byte][11 := (c % 256) as Byte]
  }

  /** The third byte of either address. */
  function FlipAddresses(h: seq<Byte>): (r: seq<Byte>)
    requires |h| >= 20
    ensures |r| == |h| && (IsHeader(r) <==> IsHeader(h))
  {
    h[14 := Flip(h[14])][18 := Flip(h[18])]
  }

  function Rewrite(h: seq<Byte>): (r: seq<Byte>)
    requires IsHeader(h)
    ensures IsHeader(r) && |r| == |h|
  {
    var zeroed := SetCheck(FlipAddresses(h), 0);
    SetCheck(zeroed, Checksum(zeroed))
  }

  /** What is rewritten need not be an IP header at all; `odd` is what the kernel's checksum makes of it then. */
  function RewriteAny(h: seq<Byte>, odd: nat): (r: seq<Byte>)
    requires |h| >= 20 && odd < 0x1_0000
    ensures |r| == |h|
  {
    if IsHeader(h) then Rewrite(h) else SetCheck(FlipAddresses(h), odd)
  }

  /** A receiver's sum of the first `n` words: one after the other, every carry added back in at once. */
  function ReceiverSum(h: seq<Byte>, n: nat): (r: nat)
    requires 2 * n <= |h|
    ensures r < 0x1_0000
  {
    if n == 0 then 0
    else
      var s := ReceiverSum(h, n - 1) + h[2 * n - 2] as nat * 256 + h[2 * n - 1] as nat;
      if s < 0x1_0000 then s else s - 0xFFFF
  }

  /** A receiver accepts the header: the sum of all its words, the checksum included, is all ones. */
  predicate Accepted(h: seq<Byte>)
    requires IsHeader(h)
  {
    ReceiverSum(h, 2 * (h[0] as nat % 16)) == 0xFFFF
  }

  /** Folding keeps the value modulo 65535, and only zero folds to zero. */
  lemma {:induction false} FoldKeepsResidue(x: nat)
    ensures Fold(x) < 0x1_0000
    ensures Fold(x) % 0xFFFF == x % 0xFFFF
    ensures Fold(x) == 0 <==> x == 0
  {
    if x >= 0x1_0000 {
      FoldKeepsResidue(x / 0x1_0000 + x % 0x1_0000);
      SameResidue(x / 0x1_0000, x / 0x1_0000 + x % 0x1_0000);
    }
  }

  lemma SameResidue(k: nat, y: nat)
    ensures (k * 0xFFFF + y) % 0xFFFF == y % 0xFFFF
  {
    assert k * 0xFFFF + y == (k + y / 0xFFFF) * 0xFFFF + y % 0xFFFF;
  }

  /** Adding the carries in at once or at the end comes to the same. */
  lemma {:induction false} ReceiverSumIsFolded(h: seq<Byte>, n: nat)
    requires 2 * n <= |h|
    ensures ReceiverSum(h, n) == Fold(SumWords(h, n))
  {
    FoldKeepsResidue(SumWords(h, n));
    if n > 0 {
      ReceiverSumIsFolded(h, n - 1);
      FoldKeepsResidue(SumWords(h, n - 1));
      SameSum(SumWords(h, n - 1), Fold(SumWords(h, n - 1)), Word(h, n - 1), ReceiverSum(h, n), Fold(SumWords(h, n)));
    }
  }

  lemma SameSum(s: nat, f: nat, w: nat, r: nat, g: nat)
    requires f % 0xFFFF == s % 0xFFFF && (f == 0 <==> s == 0) && f < 0x1_0000 && w < 0x1_0000
    requires r == if f + w < 0x1_0000 then f + w else f + w - 0xFFFF
    requires g % 0xFFFF == (s + w) % 0xFFFF && (g == 0 <==> s + w == 0) && g < 0x1_0000
    ensures r == g
  {
    var a, b := s / 0xFFFF, f / 0xFFFF;
    assert s == a * 0xFFFF + s % 0xFFFF && f == b * 0xFFFF + s % 0xFFFF;
    assert s + w == (a - b) * 0xFFFF + (f + w) && a >= b;
    SameResidue(a - b, f + w);
    SameResidue(1, r);
    SmallResidue(r, g);
  }

  lemma SmallResidue(r: nat, g: nat)
    requires r <= 0xFFFF && g <= 0xFFFF && r % 0xFFFF == g % 0xFFFF && (r == 0 <==> g == 0)
    ensures r == g
  {
  }

  lemma {:induction false} SumWithCheck(h: seq<Byte>, c: nat, n: nat)
    requires IsHeader(h) && c < 0x1_0000 && 2 * n <= |h|
    ensures SumWords(SetCheck(h, c), n) == SumWords(SetCheck(h, 0), n) + (if n > 5 then c else 0)
  {
    if n > 0 {
      SumWithCheck(h, c, n - 1);
      if n == 6 {
        assert Word(SetCheck(h, c), 5) == c / 256 * 256 + c % 256;
      }
    }
  }

  /** Every rewritten header is accepted, whatever it held and however long it is. */
  lemma RewriteIsAccepted(h: seq<Byte>)
    requires IsHeader(h)
    ensures Accepted(Rewrite(h))
  {
    var zeroed := SetCheck(FlipAddresses(h), 0);
    var n := 2 * Ihl(zeroed);
    var s, c := SumWords(zeroed, n), Checksum(zeroed);
    SumWithCheck(zeroed, c, n);
    assert SetCheck(zeroed, 0) == zeroed;
    assert SumWords(Rewrite(h), n) == s + c;
    CheckCompletes(s);
    ReceiverSumIsFolded(Rewrite(h), n);
  }

  lemma CheckCompletes(s: nat)
    ensures Fold(s) < 0x1_0000 && Fold(s + (0xFFFF - Fold(s))) == 0xFFFF
  {
    FoldKeepsResidue(s);
    Complement(s, Fold(s));
    AllOnes(s + (0xFFFF - Fold(s)));
  }

  lemma AllOnes(x: nat)
    requires x > 0 && x % 0xFFFF == 0
    ensures Fold(x) == 0xFFFF
  {
    FoldKeepsResidue(x);
  }

  lemma Complement(s: nat, f: nat)
    requires f < 0x1_0000 && f % 0xFFFF == s % 0xFFFF
    ensures (s + (0xFFFF - f)) % 0xFFFF == 0
  {
    var q, p := s / 0xFFFF, f / 0xFFFF;
    assert s == q * 0xFFFF + s % 0xFFFF && f == p * 0xFFFF + f % 0xFFFF;
    assert s + (0xFFFF - f) == (q - p + 1) * 0xFFFF;
  }

  /** Crossing twice restores every byte but the checksum, and the checksum too exactly when it was right. */
  lemma CrossingTwice(h: seq<Byte>)
    requires IsHeader(h)
    ensures var r := Rewrite(Rewrite(h));
            && (forall i :: 0 <= i < |h| && i != 10 && i != 11 ==> r[i] == h[i])
            && (r == h <==> h[10] as nat * 256 + h[11] as nat == Checksum(SetCheck(h, 0)))
  {
    var r := Rewrite(Rewrite(h));
    var zeroed := SetCheck(h, 0);
    assert SetCheck(FlipAddresses(Rewrite(h)), 0) == zeroed;
    var c := Checksum(zeroed);
    assert r == SetCheck(zeroed, c);
    assert r[10] as nat * 256 + r[11] as nat == c;
    if h[10] as nat * 256 + h[11] as nat == c {
      assert r[10] == h[10] && r[11] == h[11];
      assert r == h;
    }
  }

  /** One crossing moves either address to the other network and leaves the rest alone, whatever the frame holds. */
  lemma CrossingOnce(h: seq<Byte>, odd: nat)
    requires |h| >= 20 && odd < 0x1_0000
    ensures var r := RewriteAny(h, odd);
            && r[14] != h[14] && r[14] / 2 == h[14] / 2
            && r[18] != h[18] && r[18] / 2 == h[18] / 2
            && forall i :: 0 <= i < |h| && i !in {10, 11, 14, 18} ==> r[i] == h[i]
  {
  }
}
