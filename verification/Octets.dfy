/** Octets: the program's guint8, and the conversions the C code makes silently. */
module Octets {

  type byte = bv8

  const DIGITS: seq<byte> := [0x0, 0x1, 0x2, 0x3, 0x4, 0x5, 0x6, 0x7, 0x8, 0x9, 0xa, 0xb, 0xc, 0xd, 0xe, 0xf]

  function Digit(k: nat): byte
    requires k < 16
  {
    DIGITS[k]
  }

  /**
   What a store of a wider unsigned value into a guint8 keeps: its low eight bits.
   Written by hexadecimal digits, which the verifier handles better than a cast.
   */
  function ByteOf(n: nat): byte {
    (Digit(n / 16 % 16) << 4) | Digit(n % 16)
  }

  /** The number an octet stands for. */
  function Val(b: byte): (n: nat)
    ensures n < 256
  {
    b as nat
  }

  lemma DigitVal(k: nat)
    requires k < 16
    ensures Val(Digit(k)) == k && Digit(k) & 0xf0 == 0
  {
  }

  lemma JoinDigits(h: byte, l: byte)
    requires h & 0xf0 == 0 && l & 0xf0 == 0
    ensures Val((h << 4) | l) == 16 * Val(h) + Val(l)
  {
  }

  lemma Remainder8(n: nat, q: nat, r: nat)
    requires n == q * 256 + r && r < 256
    ensures n % 256 == r
  {
  }

  lemma LowDigits(n: nat)
    ensures n % 256 == 16 * (n / 16 % 16) + n % 16
  {
    var q := n / 16;
    assert n == 16 * q + n % 16 && q == 16 * (q / 16) + q % 16;
    Remainder8(n, q / 16, 16 * (q % 16) + n % 16);
  }

  lemma ValByteOf(n: nat)
    ensures Val(ByteOf(n)) == n % 256
  {
    DigitVal(n / 16 % 16);
    DigitVal(n % 16);
    LowDigits(n);
    JoinDigits(Digit(n / 16 % 16), Digit(n % 16));
    hide Digit, Val;
  }

  /** Time stamps and clock bases have 33 bits. */
  const TWO_33: nat := 0x2_0000_0000

  lemma Remainder33(n: nat, q: nat, r: nat)
    requires n == q * TWO_33 + r && r < TWO_33
    ensures n % TWO_33 == r
  {
  }

  /** Two octets that stand for the same number are the same. */
  lemma ValInjective(a: byte, b: byte)
    requires Val(a) == Val(b)
    ensures a == b
  {
  }

  /** The run of n equal octets that memset writes. */
  function Fill(n: nat, b: byte): (s: seq<byte>)
    ensures |s| == n && forall i :: 0 <= i < n ==> s[i] == b
  {
    seq(n, _ => b)
  }

  /** Nothing but stuffing octets. */
  predicate Stuffing(s: seq<byte>) {
    forall i :: 0 <= i < |s| ==> s[i] == 0xff
  }

  /** s with the octets t laid over it from position at: what a run of stores through a pointer does. */
  function Splice(s: seq<byte>, at: nat, t: seq<byte>): (r: seq<byte>)
    requires at + |t| <= |s|
    ensures |r| == |s|
  {
    s[..at] + t + s[at + |t|..]
  }

  /** Overlaying the middle of three pieces. */
  lemma SpliceMiddle(a: seq<byte>, b: seq<byte>, c: seq<byte>, t: seq<byte>)
    requires |t| == |b|
    ensures Splice(a + b + c, |a|, t) == a + t + c
  {
    var s := a + b + c;
    assert s[..|a|] == a;
    assert s[|a| + |t|..] == c;
  }

  /** Two runs of stores, one behind the other, are one run. */
  lemma SpliceAppend(s: seq<byte>, at: nat, t: seq<byte>, u: seq<byte>)
    requires at + |t| + |u| <= |s|
    ensures Splice(Splice(s, at, t), at + |t|, u) == Splice(s, at, t + u)
  {
    var r := Splice(s, at, t);
    assert r[..at + |t|] == s[..at] + t;
    assert r[at + |t| + |u|..] == s[at + |t| + |u|..];
    assert s[..at] + t + u == s[..at] + (t + u);
  }

  /** A run of stores through an advancing pointer, or a memcpy. */
  method Put(buf: array<byte>, at: nat, t: seq<byte>)
    requires at + |t| <= buf.Length
    modifies buf
    ensures buf[..] == Splice(old(buf[..]), at, t)
  {
    forall i | 0 <= i < |t| {
      buf[at + i] := t[i];
    }
  }
}
