/**
 What the CRC of src/crc.h is for: which corruptions of a message it detects, and
 the zero residue by which a receiver checks a section (Annex A of ISO/IEC 13818-1).
 */
module CrcDetection {
  import opened Octets
  import opened Crc32

  // ----- the register difference of two messages follows the error pattern -----

  function XorBits(a: seq<bool>, b: seq<bool>): (e: seq<bool>)
    requires |a| == |b|
    ensures |e| == |a|
  {
    seq(|a|, i requires 0 <= i < |a| => a[i] != b[i])
  }

  lemma TopDifference(p: bool, q: bool)
    ensures Xor(BitAtTop(p), BitAtTop(q)) == BitAtTop(p != q)
  {
  }

  lemma StepDifference(r: bv32, s: bv32, p: bool, q: bool)
    ensures Xor(Shift(Xor(r, BitAtTop(p))), Shift(Xor(s, BitAtTop(q)))) == Shift(Xor(Xor(r, s), BitAtTop(p != q)))
  {
    TopDifference(p, q);
    XorSwap(r, BitAtTop(p), s, BitAtTop(q));
    ShiftLinear(Xor(r, BitAtTop(p)), Xor(s, BitAtTop(q)));
  }

  lemma {:induction false} DivideDifference(r: bv32, s: bv32, a: seq<bool>, b: seq<bool>)
    requires |a| == |b|
    ensures Xor(Divide(r, a), Divide(s, b)) == Divide(Xor(r, s), XorBits(a, b))
    decreases |a|
  {
    if a != [] {
      StepDifference(r, s, a[0], b[0]);
      DivideDifference(Shift(Xor(r, BitAtTop(a[0]))), Shift(Xor(s, BitAtTop(b[0]))), a[1..], b[1..]);
      assert XorBits(a, b)[1..] == XorBits(a[1..], b[1..]);
    }
  }

  function Clear(n: nat): (s: seq<bool>)
    ensures |s| == n
  {
    seq(n, _ => false)
  }

  lemma {:induction false} ClearAppend(n: nat)
    requires n > 0
    ensures Clear(n)[1..] == Clear(n - 1) && !Clear(n)[0]
  {
  }

  /** Without errors the difference stays zero. */
  lemma {:induction false} NoErrorNoDifference(n: nat)
    ensures Divide(0, Clear(n)) == 0
  {
    if n > 0 {
      ClearAppend(n);
      assert Shift(Xor(0, BitAtTop(false))) == 0;
      NoErrorNoDifference(n - 1);
    }
  }

  /** Once there is a difference, correct bits never remove it. */
  lemma {:induction false} DifferenceStays(d: bv32, n: nat)
    requires d != 0
    ensures Divide(d, Clear(n)) != 0
    decreases n
  {
    if n > 0 {
      ClearAppend(n);
      XorZero(d);
      assert Shift(0) == 0;
      if Shift(d) == 0 {
        ShiftInjective(d, 0);
      }
      DifferenceStays(Shift(d), n - 1);
    }
  }

  // ----- a difference needs more than 31 further bits to be cancelled -----

  function LeftTimes(r: bv32, n: nat): bv32
    decreases n
  {
    if n == 0 then r else LeftTimes(r << 1, n - 1)
  }

  /** The register with only the bit n places below the top set. */
  function BelowTop(n: nat): bv32
    decreases n
  {
    if n == 0 then 0x8000_0000 else BelowTop(n - 1) >> 1
  }

  lemma OneBitLeft(r: bv32, m: bv32)
    requires r & (m >> 1) != 0
    ensures (r << 1) & m != 0
  {
  }

  /** A bit i places below the top survives n <= i moves to the left. */
  lemma {:induction false} BitSurvives(r: bv32, i: nat, n: nat)
    requires n <= i && r & BelowTop(i) != 0
    ensures LeftTimes(r, n) != 0
    decreases n
  {
    if n > 0 {
      OneBitLeft(r, BelowTop(i - 1));
      BitSurvives(r << 1, i - 1, n - 1);
    }
  }

  lemma LowBitPlace()
    ensures BelowTop(31) == 1
  {
    assert BelowTop(8) == 0x0080_0000;
    assert BelowTop(16) == 0x0000_8000;
    assert BelowTop(24) == 0x0000_0080;
  }

  lemma LowBitSurvives(r: bv32, n: nat)
    requires n <= 31 && r & 1 != 0
    ensures LeftTimes(r, n) != 0
  {
    LowBitPlace();
    BitSurvives(r, 31, n);
  }

  lemma EvenMeansPlain(d: bv32, bit: bool)
    requires Shift(Xor(d, BitAtTop(bit))) & 1 == 0
    ensures Shift(Xor(d, BitAtTop(bit))) == d << 1
  {
    var f := Xor(d, BitAtTop(bit));
    if f & 0x8000_0000 != 0 {
      ShiftOutIsOdd(f);
    } else {
      TopBitGone(d, bit);
    }
  }

  lemma ShiftOutIsOdd(f: bv32)
    requires f & 0x8000_0000 != 0
    ensures Shift(f) & 1 == 1
  {
  }

  lemma TopBitGone(d: bv32, bit: bool)
    ensures Xor(d, BitAtTop(bit)) << 1 == d << 1
  {
  }

  /** If at most 32 message bits cancel a difference, moving it left that far empties the register. */
  lemma {:induction false} CancelledByFewBits(d: bv32, e: seq<bool>)
    requires |e| <= 32 && Divide(d, e) == 0
    ensures LeftTimes(d, |e|) == 0
    decreases |e|
  {
    hide Shift, Xor, BitAtTop;
    if e != [] {
      var d1 := Shift(Xor(d, BitAtTop(e[0])));
      CancelledByFewBits(d1, e[1..]);
      if d1 & 1 != 0 {
        LowBitSurvives(d1, |e| - 1);
      }
      EvenMeansPlain(d, e[0]);
    }
  }

  /** An error pattern of at most 32 bits that is not empty leaves a difference. */
  lemma {:induction false} ShortBurstLeavesDifference(e: seq<bool>)
    requires |e| <= 32 && true in e
    ensures Divide(0, e) != 0
    decreases |e|
  {
    if e[0] {
      assert Shift(Xor(0, BitAtTop(true))) == POLY;
      if Divide(POLY, e[1..]) == 0 {
        CancelledByFewBits(POLY, e[1..]);
        LowBitSurvives(POLY, |e| - 1);
      }
    } else {
      assert Shift(Xor(0, BitAtTop(false))) == 0;
      ShortBurstLeavesDifference(e[1..]);
    }
  }

  lemma BurstBetween(before: nat, burst: seq<bool>, after: nat)
    requires |burst| <= 32 && true in burst
    ensures Divide(0, Clear(before) + burst + Clear(after)) != 0
  {
    DivideAppend(0, Clear(before) + burst, Clear(after));
    DivideAppend(0, Clear(before), burst);
    NoErrorNoDifference(before);
    ShortBurstLeavesDifference(burst);
    DifferenceStays(Divide(0, burst), after);
  }

  lemma ClearAround(e: seq<bool>, p: nat, q: nat)
    requires p <= q <= |e|
    requires forall i :: 0 <= i < |e| && e[i] ==> p <= i < q
    ensures e == Clear(p) + e[p..q] + Clear(|e| - q)
  {
  }

  lemma BurstLeavesDifference(e: seq<bool>, p: nat)
    requires true in e
    requires forall i :: 0 <= i < |e| && e[i] ==> p <= i < p + 32
    ensures Divide(0, e) != 0
  {
    hide Divide;
    var q := if p + 32 <= |e| then p + 32 else |e|;
    var k :| 0 <= k < |e| && e[k];
    assert e[p..q][k - p];
    ClearAround(e, p, q);
    BurstBetween(p, e[p..q], |e| - q);
  }

  /** Two bit strings that differ, but only inside 32 consecutive bits, divide differently. */
  lemma BurstChangesRegister(r: bv32, a: seq<bool>, b: seq<bool>, p: nat)
    requires |a| == |b| && a != b
    requires forall i :: 0 <= i < |a| && a[i] != b[i] ==> p <= i < p + 32
    ensures Divide(r, a) != Divide(r, b)
  {
    var k :| 0 <= k < |a| && a[k] != b[k];
    assert XorBits(a, b)[k];
    BurstLeavesDifference(XorBits(a, b), p);
    DivideDifference(r, r, a, b);
    SelfDifference(r, Divide(r, a));
  }

  lemma SelfDifference(r: bv32, s: bv32)
    ensures Xor(r, r) == 0 && Xor(s, s) == 0
  {
  }

  // ----- messages of octets -----

  lemma OneTopBit(b: byte, c: byte, n: nat)
    requires n > 0 && TopBits(b, n) == TopBits(c, n)
    ensures (b & 0x80 != 0) == (c & 0x80 != 0)
    ensures TopBits(Rest(b), n - 1) == TopBits(Rest(c), n - 1)
  {
    assert TopBits(b, n)[0] == (b & 0x80 != 0) && TopBits(c, n)[0] == (c & 0x80 != 0);
    assert TopBits(b, n)[1..] == TopBits(Rest(b), n - 1);
    assert TopBits(c, n)[1..] == TopBits(Rest(c), n - 1);
  }

  lemma SameBitsSameOctet(b: byte, c: byte)
    requires (b & 0x80 != 0) == (c & 0x80 != 0) && (b & 0x40 != 0) == (c & 0x40 != 0)
    requires (b & 0x20 != 0) == (c & 0x20 != 0) && (b & 0x10 != 0) == (c & 0x10 != 0)
    requires (b & 0x08 != 0) == (c & 0x08 != 0) && (b & 0x04 != 0) == (c & 0x04 != 0)
    requires (b & 0x02 != 0) == (c & 0x02 != 0) && (b & 0x01 != 0) == (c & 0x01 != 0)
    ensures b == c
  {
  }

  lemma BitsOfInjective(b: byte, c: byte)
    requires BitsOf(b) == BitsOf(c)
    ensures b == c
  {
    var b1, c1 := Rest(b), Rest(c);
    var b2, c2 := Rest(b1), Rest(c1);
    var b3, c3 := Rest(b2), Rest(c2);
    var b4, c4 := Rest(b3), Rest(c3);
    var b5, c5 := Rest(b4), Rest(c4);
    var b6, c6 := Rest(b5), Rest(c5);
    var b7, c7 := Rest(b6), Rest(c6);
    OneTopBit(b, c, 8); OneTopBit(b1, c1, 7); OneTopBit(b2, c2, 6); OneTopBit(b3, c3, 5);
    OneTopBit(b4, c4, 4); OneTopBit(b5, c5, 3); OneTopBit(b6, c6, 2); OneTopBit(b7, c7, 1);
    RestBits(b);
    RestBits(c);
    SameBitsSameOctet(b, c);
  }

  lemma {:induction false} BitsInjective(a: seq<byte>, b: seq<byte>)
    requires |a| == |b| && Bits(a) == Bits(b)
    ensures a == b
  {
    if a != [] {
      assert Bits(a)[..8] == BitsOf(a[0]) && Bits(b)[..8] == BitsOf(b[0]);
      assert Bits(a)[8..] == Bits(a[1..]) && Bits(b)[8..] == Bits(b[1..]);
      BitsOfInjective(a[0], b[0]);
      BitsInjective(a[1..], b[1..]);
    }
  }

  /** The CRC detects every error burst of at most 32 bits, wherever it lies. */
  lemma BurstDetected(m: seq<byte>, c: seq<byte>, p: nat)
    requires |m| == |c| && m != c
    requires forall i :: 0 <= i < 8 * |m| && Bits(m)[i] != Bits(c)[i] ==> p <= i < p + 32
    ensures Crc(m) != Crc(c)
  {
    if Bits(m) == Bits(c) {
      BitsInjective(m, c);
    }
    BurstChangesRegister(CRC_INIT, Bits(m), Bits(c), p);
  }

  lemma {:induction false} BitIsInItsOctet(m: seq<byte>, k: nat, j: nat)
    requires k < |m| && j < 8
    ensures Bits(m)[8 * k + j] == BitsOf(m[k])[j]
  {
    hide BitsOf;
    var head, tail := BitsOf(m[0]), Bits(m[1..]);
    assert Bits(m) == head + tail;
    if k > 0 {
      BitIsInItsOctet(m[1..], k - 1, j);
      assert (head + tail)[8 * k + j] == tail[8 * (k - 1) + j];
    }
  }

  lemma BitErrorInOctet(m: seq<byte>, c: seq<byte>, i: nat)
    requires |m| == |c| && i < 8 * |m| && Bits(m)[i] != Bits(c)[i]
    ensures i / 8 < |m| && m[i / 8] != c[i / 8]
  {
    var k, j := i / 8, i % 8;
    BitIsInItsOctet(m, k, j);
    BitIsInItsOctet(c, k, j);
  }

  /** In particular every error confined to four consecutive octets. */
  lemma FourOctetsDetected(m: seq<byte>, c: seq<byte>, p: nat)
    requires |m| == |c| && m != c
    requires forall i :: 0 <= i < |m| && m[i] != c[i] ==> p <= i < p + 4
    ensures Crc(m) != Crc(c)
  {
    forall i | 0 <= i < 8 * |m| && Bits(m)[i] != Bits(c)[i]
      ensures 8 * p <= i < 8 * p + 32
    {
      BitErrorInOctet(m, c, i);
    }
    BurstDetected(m, c, 8 * p);
  }

  // ----- the residue -----

  /** The four octets in which the program stores a CRC. */
  function CrcOctets(crc: bv32): (s: seq<byte>)
    ensures |s| == 4
  {
    [(crc >> 24) as byte, ((crc >> 16) & 0xff) as byte, ((crc >> 8) & 0xff) as byte, (crc & 0xff) as byte]
  }

  lemma OwnTopOctet(r: bv32)
    ensures OctetStep(r, (r >> 24) as byte) == r << 8
  {
    var f := Xor(r, AtTop((r >> 24) as byte));
    TopOctetCancelled(r);
    Shift8Plain(f);
  }

  lemma TopOctetCancelled(r: bv32)
    ensures Xor(r, AtTop((r >> 24) as byte)) & 0xff00_0000 == 0
    ensures Xor(r, AtTop((r >> 24) as byte)) << 8 == r << 8
  {
  }

  lemma OctetsInTurn(r: bv32)
    ensures ((r << 8) >> 24) as byte == ((r >> 16) & 0xff) as byte
    ensures (((r << 8) << 8) >> 24) as byte == ((r >> 8) & 0xff) as byte
    ensures ((((r << 8) << 8) << 8) >> 24) as byte == (r & 0xff) as byte
    ensures (((r << 8) << 8) << 8) << 8 == 0
  {
  }

  lemma DivideOwnOctets(r: bv32)
    ensures Divide(r, Bits(CrcOctets(r))) == 0
  {
    var s := CrcOctets(r);
    var r1 := r << 8;
    var r2 := r1 << 8;
    var r3 := r2 << 8;
    OctetsInTurn(r);
    OwnTopOctet(r); OwnTopOctet(r1); OwnTopOctet(r2); OwnTopOctet(r3);
    assert s[..1] == [] + [s[0]] && s[..2] == s[..1] + [s[1]] && s[..3] == s[..2] + [s[2]] && s == s[..3] + [s[3]];
    hide OctetStep;
    DivideSnoc(r, [], s[0]);
    DivideSnoc(r, s[..1], s[1]);
    DivideSnoc(r, s[..2], s[2]);
    DivideSnoc(r, s[..3], s[3]);
  }

  /** A receiver that divides message and appended CRC gets zero exactly for the right four octets. */
  lemma ResidueIsZero(m: seq<byte>, x: seq<byte>)
    requires |x| == 4
    ensures Crc(m + x) == 0 <==> x == CrcOctets(Crc(m))
  {
    var own := CrcOctets(Crc(m));
    BitsAppend(m, x);
    DivideAppend(CRC_INIT, Bits(m), Bits(x));
    DivideOwnOctets(Crc(m));
    if x != own {
      if Bits(x) == Bits(own) {
        BitsInjective(x, own);
      }
      BurstChangesRegister(Crc(m), Bits(x), Bits(own), 0);
    }
  }
}
