/**
 CRC-32 as MPEG-2 systems use it (Annex A of ISO/IEC 13818-1): the table and the
 loop of src/crc.h, and the bit-by-bit polynomial division they stand for.
 */
module Crc32 {
  import opened Octets

  const POLY: bv32 := 0x04c1_1db7
  const CRC_INIT: bv32 := 0xffff_ffff

  // ----- the reference: one register shift per message bit -----

  /** The sum of two polynomials over GF(2). */
  function Xor(x: bv32, y: bv32): bv32 {
    x ^ y
  }

  /** One shift of the division register: a bit that falls out subtracts the polynomial. */
  function Shift(r: bv32): bv32 {
    if r & 0x8000_0000 != 0 then (r << 1) ^ POLY else r << 1
  }

  function BitAtTop(bit: bool): bv32 {
    if bit then 0x8000_0000 else 0
  }

  /** Divides the message, given bit by bit, starting from register r. */
  function Divide(r: bv32, bits: seq<bool>): bv32
    decreases |bits|
  {
    if bits == [] then r else Divide(Shift(Xor(r, BitAtTop(bits[0]))), bits[1..])
  }

  /** An octet with its top bit sent and the others moved up. */
  function Rest(b: byte): byte {
    b << 1
  }

  /** The first n bits an octet sends, most significant first. */
  function TopBits(b: byte, n: nat): (s: seq<bool>)
    ensures |s| == n
    decreases n
  {
    if n == 0 then [] else [b & 0x80 != 0] + TopBits(Rest(b), n - 1)
  }

  function BitsOf(b: byte): (s: seq<bool>)
    ensures |s| == 8
  {
    TopBits(b, 8)
  }

  function Bits(msg: seq<byte>): (s: seq<bool>)
    ensures |s| == 8 * |msg|
  {
    if msg == [] then [] else BitsOf(msg[0]) + Bits(msg[1..])
  }

  /** The CRC of a message: its division from the all-ones register. */
  function Crc(msg: seq<byte>): bv32 {
    Divide(0xffff_ffff, Bits(msg))
  }

  lemma {:induction false} DivideAppend(r: bv32, a: seq<bool>, b: seq<bool>)
    ensures Divide(r, a + b) == Divide(Divide(r, a), b)
    decreases |a|
  {
    if a == [] {
      assert a + b == b;
    } else {
      assert (a + b)[1..] == a[1..] + b;
      DivideAppend(Shift(Xor(r, BitAtTop(a[0]))), a[1..], b);
    }
  }

  lemma {:induction false} BitsAppend(a: seq<byte>, b: seq<byte>)
    ensures Bits(a + b) == Bits(a) + Bits(b)
  {
    if a == [] {
      assert a + b == b;
    } else {
      assert (a + b)[1..] == a[1..] + b;
      BitsAppend(a[1..], b);
    }
  }

  // ----- the register is linear over GF(2), and its shift is invertible -----

  lemma ShiftBothOut(x: bv32, y: bv32)
    requires x & 0x8000_0000 != 0 && y & 0x8000_0000 != 0
    ensures Shift(x ^ y) == Shift(x) ^ Shift(y)
  {
  }

  lemma ShiftLeftOut(x: bv32, y: bv32)
    requires x & 0x8000_0000 != 0 && y & 0x8000_0000 == 0
    ensures Shift(x ^ y) == Shift(x) ^ Shift(y)
  {
  }

  lemma ShiftRightOut(x: bv32, y: bv32)
    requires x & 0x8000_0000 == 0 && y & 0x8000_0000 != 0
    ensures Shift(x ^ y) == Shift(x) ^ Shift(y)
  {
  }

  lemma ShiftNoneOut(x: bv32, y: bv32)
    requires x & 0x8000_0000 == 0 && y & 0x8000_0000 == 0
    ensures Shift(x ^ y) == Shift(x) ^ Shift(y)
  {
  }

  lemma ShiftLinear(x: bv32, y: bv32)
    ensures Shift(Xor(x, y)) == Xor(Shift(x), Shift(y))
  {
    if x & 0x8000_0000 != 0 && y & 0x8000_0000 != 0 {
      ShiftBothOut(x, y);
    } else if x & 0x8000_0000 != 0 {
      ShiftLeftOut(x, y);
    } else if y & 0x8000_0000 != 0 {
      ShiftRightOut(x, y);
    } else {
      ShiftNoneOut(x, y);
    }
  }

  /** Undoes one shift: the polynomial is odd, so the low bit tells whether it was subtracted. */
  function Unshift(r: bv32): bv32 {
    if r & 1 == 1 then ((r ^ POLY) >> 1) | 0x8000_0000 else r >> 1
  }

  lemma UnshiftOut(r: bv32)
    requires r & 0x8000_0000 != 0
    ensures Unshift(Shift(r)) == r
  {
  }

  lemma UnshiftPlain(r: bv32)
    requires r & 0x8000_0000 == 0
    ensures Unshift(Shift(r)) == r
  {
  }

  lemma ShiftInjective(x: bv32, y: bv32)
    requires Shift(x) == Shift(y)
    ensures x == y
  {
    if x & 0x8000_0000 != 0 { UnshiftOut(x); } else { UnshiftPlain(x); }
    if y & 0x8000_0000 != 0 { UnshiftOut(y); } else { UnshiftPlain(y); }
  }

  lemma XorAssoc(a: bv32, b: bv32, c: bv32)
    ensures Xor(a, Xor(b, c)) == Xor(Xor(a, b), c)
  {
  }

  lemma XorShuffle(a: bv32, b: bv32, c: bv32)
    ensures Xor(Xor(a, b), c) == Xor(Xor(a, c), b)
  {
    XorAssoc(a, b, c);
    assert Xor(b, c) == Xor(c, b);
    XorAssoc(a, c, b);
  }

  lemma XorSwap(a: bv32, b: bv32, c: bv32, d: bv32)
    ensures Xor(Xor(a, b), Xor(c, d)) == Xor(Xor(a, c), Xor(b, d))
  {
    XorAssoc(Xor(a, b), c, d);
    XorShuffle(a, b, c);
    XorAssoc(Xor(a, c), b, d);
  }

  // ----- one octet at a time -----

  function ShiftTimes(r: bv32, n: nat): bv32
    decreases n
  {
    if n == 0 then r else ShiftTimes(Shift(r), n - 1)
  }

  lemma {:induction false} ShiftTimesLinear(x: bv32, y: bv32, n: nat)
    ensures ShiftTimes(Xor(x, y), n) == Xor(ShiftTimes(x, n), ShiftTimes(y, n))
    decreases n
  {
    if n > 0 {
      ShiftLinear(x, y);
      ShiftTimesLinear(Shift(x), Shift(y), n - 1);
    }
  }

  function Shift8(r: bv32): bv32 {
    Shift(Shift(Shift(Shift(Shift(Shift(Shift(Shift(r))))))))
  }

  /** The register after one octet. */
  function OctetStep(r: bv32, b: byte): bv32 {
    Shift8(Xor(r, AtTop(b)))
  }

  /** A register whose top octet is zero only moves left. */
  lemma Shift8Plain(r: bv32)
    requires r & 0xff00_0000 == 0
    ensures Shift8(r) == r << 8
  {
  }

  lemma Shift8Linear(x: bv32, y: bv32)
    ensures Shift8(Xor(x, y)) == Xor(Shift8(x), Shift8(y))
  {
    ShiftTimesLinear(x, y, 8);
    ShiftTimesEight(x);
    ShiftTimesEight(y);
    ShiftTimesEight(Xor(x, y));
  }

  lemma ShiftTimesEight(x: bv32)
    ensures ShiftTimes(x, 8) == Shift8(x)
  {
  }

  function AtTop(b: byte): bv32 {
    b as bv32 << 24
  }

  lemma SplitTopBit(b: byte)
    ensures AtTop(b) == Xor(BitAtTop(b & 0x80 != 0), AtTop(Rest(b)) >> 1)
  {
  }

  lemma ShiftRest(b: byte)
    ensures Shift(AtTop(Rest(b)) >> 1) == AtTop(Rest(b))
  {
  }

  /** Feeding an octet whole: its top bit now, the rest still waiting at the top. */
  lemma FeedOneBit(r: bv32, b: byte)
    ensures Shift(Xor(r, AtTop(b))) == Xor(Shift(Xor(r, BitAtTop(b & 0x80 != 0))), AtTop(Rest(b)))
  {
    SplitTopBit(b);
    XorAssoc(r, BitAtTop(b & 0x80 != 0), AtTop(Rest(b)) >> 1);
    ShiftLinear(Xor(r, BitAtTop(b & 0x80 != 0)), AtTop(Rest(b)) >> 1);
    ShiftRest(b);
  }

  function RestTimes(b: byte, n: nat): byte
    decreases n
  {
    if n == 0 then b else RestTimes(Rest(b), n - 1)
  }

  lemma {:induction false} FeedBits(r: bv32, b: byte, n: nat)
    ensures ShiftTimes(Xor(r, AtTop(b)), n) == Xor(Divide(r, TopBits(b, n)), AtTop(RestTimes(b, n)))
    decreases n
  {
    if n > 0 {
      FeedOneBit(r, b);
      var fed := Shift(Xor(r, BitAtTop(b & 0x80 != 0)));
      FeedBits(fed, Rest(b), n - 1);
      assert TopBits(b, n)[1..] == TopBits(Rest(b), n - 1);
    }
  }

  lemma RestBits(b: byte)
    ensures (Rest(b) & 0x80 != 0) == (b & 0x40 != 0)
    ensures (Rest(Rest(b)) & 0x80 != 0) == (b & 0x20 != 0)
    ensures (Rest(Rest(Rest(b))) & 0x80 != 0) == (b & 0x10 != 0)
    ensures (Rest(Rest(Rest(Rest(b)))) & 0x80 != 0) == (b & 0x08 != 0)
    ensures (Rest(Rest(Rest(Rest(Rest(b))))) & 0x80 != 0) == (b & 0x04 != 0)
    ensures (Rest(Rest(Rest(Rest(Rest(Rest(b)))))) & 0x80 != 0) == (b & 0x02 != 0)
    ensures (Rest(Rest(Rest(Rest(Rest(Rest(Rest(b))))))) & 0x80 != 0) == (b & 0x01 != 0)
  {
  }

  lemma NothingLeft(b: byte)
    ensures AtTop(RestTimes(b, 8)) == 0
  {
  }

  /** Eight bit steps are one octet step. */
  lemma DivideOctet(r: bv32, b: byte)
    ensures Divide(r, BitsOf(b)) == OctetStep(r, b)
  {
    FeedBits(r, b, 8);
    NothingLeft(b);
    XorZero(Divide(r, BitsOf(b)));
    ShiftTimesEight(Xor(r, AtTop(b)));
  }

  lemma XorZero(a: bv32)
    ensures Xor(a, 0) == a
  {
  }

  lemma DivideSnoc(r: bv32, msg: seq<byte>, b: byte)
    ensures Divide(r, Bits(msg + [b])) == OctetStep(Divide(r, Bits(msg)), b)
  {
    BitsAppend(msg, [b]);
    assert Bits([b]) == BitsOf(b) + Bits([]);
    assert Bits([b]) == BitsOf(b);
    DivideAppend(r, Bits(msg), BitsOf(b));
    DivideOctet(Divide(r, Bits(msg)), b);
  }

  // ----- the table -----

  const ROW_0: seq<bv32> := [
    0x00000000, 0x04c11db7, 0x09823b6e, 0x0d4326d9, 0x130476dc, 0x17c56b6b, 0x1a864db2, 0x1e475005,
    0x2608edb8, 0x22c9f00f, 0x2f8ad6d6, 0x2b4bcb61, 0x350c9b64, 0x31cd86d3, 0x3c8ea00a, 0x384fbdbd]
  const ROW_1: seq<bv32> := [
    0x4c11db70, 0x48d0c6c7, 0x4593e01e, 0x4152fda9, 0x5f15adac, 0x5bd4b01b, 0x569796c2, 0x52568b75,
    0x6a1936c8, 0x6ed82b7f, 0x639b0da6, 0x675a1011, 0x791d4014, 0x7ddc5da3, 0x709f7b7a, 0x745e66cd]
  const ROW_2: seq<bv32> := [
    0x9823b6e0, 0x9ce2ab57, 0x91a18d8e, 0x95609039, 0x8b27c03c, 0x8fe6dd8b, 0x82a5fb52, 0x8664e6e5,
    0xbe2b5b58, 0xbaea46ef, 0xb7a96036, 0xb3687d81, 0xad2f2d84, 0xa9ee3033, 0xa4ad16ea, 0xa06c0b5d]
  const ROW_3: seq<bv32> := [
    0xd4326d90, 0xd0f37027, 0xddb056fe, 0xd9714b49, 0xc7361b4c, 0xc3f706fb, 0xceb42022, 0xca753d95,
    0xf23a8028, 0xf6fb9d9f, 0xfbb8bb46, 0xff79a6f1, 0xe13ef6f4, 0xe5ffeb43, 0xe8bccd9a, 0xec7dd02d]
  const ROW_4: seq<bv32> := [
    0x34867077, 0x30476dc0, 0x3d044b19, 0x39c556ae, 0x278206ab, 0x23431b1c, 0x2e003dc5, 0x2ac12072,
    0x128e9dcf, 0x164f8078, 0x1b0ca6a1, 0x1fcdbb16, 0x018aeb13, 0x054bf6a4, 0x0808d07d, 0x0cc9cdca]
  const ROW_5: seq<bv32> := [
    0x7897ab07, 0x7c56b6b0, 0x71159069, 0x75d48dde, 0x6b93dddb, 0x6f52c06c, 0x6211e6b5, 0x66d0fb02,
    0x5e9f46bf, 0x5a5e5b08, 0x571d7dd1, 0x53dc6066, 0x4d9b3063, 0x495a2dd4, 0x44190b0d, 0x40d816ba]
  const ROW_6: seq<bv32> := [
    0xaca5c697, 0xa864db20, 0xa527fdf9, 0xa1e6e04e, 0xbfa1b04b, 0xbb60adfc, 0xb6238b25, 0xb2e29692,
    0x8aad2b2f, 0x8e6c3698, 0x832f1041, 0x87ee0df6, 0x99a95df3, 0x9d684044, 0x902b669d, 0x94ea7b2a]
  const ROW_7: seq<bv32> := [
    0xe0b41de7, 0xe4750050, 0xe9362689, 0xedf73b3e, 0xf3b06b3b, 0xf771768c, 0xfa325055, 0xfef34de2,
    0xc6bcf05f, 0xc27dede8, 0xcf3ecb31, 0xcbffd686, 0xd5b88683, 0xd1799b34, 0xdc3abded, 0xd8fba05a]
  const ROW_8: seq<bv32> := [
    0x690ce0ee, 0x6dcdfd59, 0x608edb80, 0x644fc637, 0x7a089632, 0x7ec98b85, 0x738aad5c, 0x774bb0eb,
    0x4f040d56, 0x4bc510e1, 0x46863638, 0x42472b8f, 0x5c007b8a, 0x58c1663d, 0x558240e4, 0x51435d53]
  const ROW_9: seq<bv32> := [
    0x251d3b9e, 0x21dc2629, 0x2c9f00f0, 0x285e1d47, 0x36194d42, 0x32d850f5, 0x3f9b762c, 0x3b5a6b9b,
    0x0315d626, 0x07d4cb91, 0x0a97ed48, 0x0e56f0ff, 0x1011a0fa, 0x14d0bd4d, 0x19939b94, 0x1d528623]
  const ROW_A: seq<bv32> := [
    0xf12f560e, 0xf5ee4bb9, 0xf8ad6d60, 0xfc6c70d7, 0xe22b20d2, 0xe6ea3d65, 0xeba91bbc, 0xef68060b,
    0xd727bbb6, 0xd3e6a601, 0xdea580d8, 0xda649d6f, 0xc423cd6a, 0xc0e2d0dd, 0xcda1f604, 0xc960ebb3]
  const ROW_B: seq<bv32> := [
    0xbd3e8d7e, 0xb9ff90c9, 0xb4bcb610, 0xb07daba7, 0xae3afba2, 0xaafbe615, 0xa7b8c0cc, 0xa379dd7b,
    0x9b3660c6, 0x9ff77d71, 0x92b45ba8, 0x9675461f, 0x8832161a, 0x8cf30bad, 0x81b02d74, 0x857130c3]
  const ROW_C: seq<bv32> := [
    0x5d8a9099, 0x594b8d2e, 0x5408abf7, 0x50c9b640, 0x4e8ee645, 0x4a4ffbf2, 0x470cdd2b, 0x43cdc09c,
    0x7b827d21, 0x7f436096, 0x7200464f, 0x76c15bf8, 0x68860bfd, 0x6c47164a, 0x61043093, 0x65c52d24]
  const ROW_D: seq<bv32> := [
    0x119b4be9, 0x155a565e, 0x18197087, 0x1cd86d30, 0x029f3d35, 0x065e2082, 0x0b1d065b, 0x0fdc1bec,
    0x3793a651, 0x3352bbe6, 0x3e119d3f, 0x3ad08088, 0x2497d08d, 0x2056cd3a, 0x2d15ebe3, 0x29d4f654]
  const ROW_E: seq<bv32> := [
    0xc5a92679, 0xc1683bce, 0xcc2b1d17, 0xc8ea00a0, 0xd6ad50a5, 0xd26c4d12, 0xdf2f6bcb, 0xdbee767c,
    0xe3a1cbc1, 0xe760d676, 0xea23f0af, 0xeee2ed18, 0xf0a5bd1d, 0xf464a0aa, 0xf9278673, 0xfde69bc4]
  const ROW_F: seq<bv32> := [
    0x89b8fd09, 0x8d79e0be, 0x803ac667, 0x84fbdbd0, 0x9abc8bd5, 0x9e7d9662, 0x933eb0bb, 0x97ffad0c,
    0xafb010b1, 0xab710d06, 0xa6322bdf, 0xa2f33668, 0xbcb4666d, 0xb8757bda, 0xb5365d03, 0xb1f740b4]

  const QUARTER_0: seq<bv32> := ROW_0 + ROW_1 + ROW_2 + ROW_3
  const QUARTER_1: seq<bv32> := ROW_4 + ROW_5 + ROW_6 + ROW_7
  const QUARTER_2: seq<bv32> := ROW_8 + ROW_9 + ROW_A + ROW_B
  const QUARTER_3: seq<bv32> := ROW_C + ROW_D + ROW_E + ROW_F

  /** crc_tab, in rows of sixteen entries and quarters of four rows. */
  const CRC_TAB: seq<bv32> := QUARTER_0 + QUARTER_1 + QUARTER_2 + QUARTER_3

  lemma Row0(b: byte)
    requires b & 0xf0 == 0x00
    ensures ROW_0[(b & 0x0f) as nat] == Shift8(AtTop(b))
  {
  }

  lemma Row1(b: byte)
    requires b & 0xf0 == 0x10
    ensures ROW_1[(b & 0x0f) as nat] == Shift8(AtTop(b))
  {
  }

  lemma Row2(b: byte)
    requires b & 0xf0 == 0x20
    ensures ROW_2[(b & 0x0f) as nat] == Shift8(AtTop(b))
  {
  }

  lemma Row3(b: byte)
    requires b & 0xf0 == 0x30
    ensures ROW_3[(b & 0x0f) as nat] == Shift8(AtTop(b))
  {
  }

  lemma Row4(b: byte)
    requires b & 0xf0 == 0x40
    ensures ROW_4[(b & 0x0f) as nat] == Shift8(AtTop(b))
  {
  }

  lemma Row5(b: byte)
    requires b & 0xf0 == 0x50
    ensures ROW_5[(b & 0x0f) as nat] == Shift8(AtTop(b))
  {
  }

  lemma Row6(b: byte)
    requires b & 0xf0 == 0x60
    ensures ROW_6[(b & 0x0f) as nat] == Shift8(AtTop(b))
  {
  }

  lemma Row7(b: byte)
    requires b & 0xf0 == 0x70
    ensures ROW_7[(b & 0x0f) as nat] == Shift8(AtTop(b))
  {
  }

  lemma Row8(b: byte)
    requires b & 0xf0 == 0x80
    ensures ROW_8[(b & 0x0f) as nat] == Shift8(AtTop(b))
  {
  }

  lemma Row9(b: byte)
    requires b & 0xf0 == 0x90
    ensures ROW_9[(b & 0x0f) as nat] == Shift8(AtTop(b))
  {
  }

  lemma RowA(b: byte)
    requires b & 0xf0 == 0xa0
    ensures ROW_A[(b & 0x0f) as nat] == Shift8(AtTop(b))
  {
  }

  lemma RowB(b: byte)
    requires b & 0xf0 == 0xb0
    ensures ROW_B[(b & 0x0f) as nat] == Shift8(AtTop(b))
  {
  }

  lemma RowC(b: byte)
    requires b & 0xf0 == 0xc0
    ensures ROW_C[(b & 0x0f) as nat] == Shift8(AtTop(b))
  {
  }

  lemma RowD(b: byte)
    requires b & 0xf0 == 0xd0
    ensures ROW_D[(b & 0x0f) as nat] == Shift8(AtTop(b))
  {
  }

  lemma RowE(b: byte)
    requires b & 0xf0 == 0xe0
    ensures ROW_E[(b & 0x0f) as nat] == Shift8(AtTop(b))
  {
  }

  lemma RowF(b: byte)
    requires b & 0xf0 == 0xf0
    ensures ROW_F[(b & 0x0f) as nat] == Shift8(AtTop(b))
  {
  }

  lemma Digits(b: byte)
    ensures b as nat == ((b >> 4) & 0x0f) as nat * 16 + (b & 0x0f) as nat
    ensures (b & 0x3f) as nat == ((b >> 4) & 0x03) as nat * 16 + (b & 0x0f) as nat
    ensures b as nat == (b >> 6) as nat * 64 + (b & 0x3f) as nat
    ensures (b & 0x0f) as nat < 16
  {
  }

  lemma Quarter0(b: byte)
    requires b & 0xc0 == 0x00
    ensures |QUARTER_0| == 64 && (b & 0x3f) as nat < 64
    ensures QUARTER_0[(b & 0x3f) as nat] == Shift8(AtTop(b))
  {
    Digits(b);
    if b & 0xf0 == 0x00 {
      Row0(b);
    } else if b & 0xf0 == 0x10 {
      Row1(b);
    } else if b & 0xf0 == 0x20 {
      Row2(b);
    } else {
      Row3(b);
    }
  }

  lemma Quarter1(b: byte)
    requires b & 0xc0 == 0x40
    ensures |QUARTER_1| == 64 && (b & 0x3f) as nat < 64
    ensures QUARTER_1[(b & 0x3f) as nat] == Shift8(AtTop(b))
  {
    Digits(b);
    if b & 0xf0 == 0x40 {
      Row4(b);
    } else if b & 0xf0 == 0x50 {
      Row5(b);
    } else if b & 0xf0 == 0x60 {
      Row6(b);
    } else {
      Row7(b);
    }
  }

  lemma Quarter2(b: byte)
    requires b & 0xc0 == 0x80
    ensures |QUARTER_2| == 64 && (b & 0x3f) as nat < 64
    ensures QUARTER_2[(b & 0x3f) as nat] == Shift8(AtTop(b))
  {
    Digits(b);
    if b & 0xf0 == 0x80 {
      Row8(b);
    } else if b & 0xf0 == 0x90 {
      Row9(b);
    } else if b & 0xf0 == 0xa0 {
      RowA(b);
    } else {
      RowB(b);
    }
  }

  lemma Quarter3(b: byte)
    requires b & 0xc0 == 0xc0
    ensures |QUARTER_3| == 64 && (b & 0x3f) as nat < 64
    ensures QUARTER_3[(b & 0x3f) as nat] == Shift8(AtTop(b))
  {
    Digits(b);
    if b & 0xf0 == 0xc0 {
      RowC(b);
    } else if b & 0xf0 == 0xd0 {
      RowD(b);
    } else if b & 0xf0 == 0xe0 {
      RowE(b);
    } else {
      RowF(b);
    }
  }

  /** Every table entry is the register eight shifts after the octet that selects it. */
  lemma TableEntry(b: byte)
    ensures |CRC_TAB| == 256
    ensures CRC_TAB[b as nat] == Shift8(AtTop(b))
  {
    QuarterSizes();
    hide QUARTER_0, QUARTER_1, QUARTER_2, QUARTER_3, Shift8, AtTop;
    Digits(b);
    if b & 0xc0 == 0x00 {
      Quarter0(b);
      assert b as nat == (b & 0x3f) as nat;
    } else if b & 0xc0 == 0x40 {
      Quarter1(b);
      assert b as nat == 64 + (b & 0x3f) as nat;
    } else if b & 0xc0 == 0x80 {
      Quarter2(b);
      assert b as nat == 128 + (b & 0x3f) as nat;
    } else {
      Quarter3(b);
      assert b as nat == 192 + (b & 0x3f) as nat;
    }
  }

  lemma QuarterSizes()
    ensures |QUARTER_0| == 64 && |QUARTER_1| == 64 && |QUARTER_2| == 64 && |QUARTER_3| == 64
  {
  }

  // ----- the loop -----

  /** The octet that selects the table entry. */
  function TableIndex(crc: bv32, b: byte): byte {
    (crc >> 24) as byte ^ b
  }

  function LowOctets(crc: bv32): bv32 {
    crc & 0x00ff_ffff
  }

  lemma SplitTopOctet(crc: bv32)
    ensures crc == Xor(LowOctets(crc), AtTop((crc >> 24) as byte))
    ensures LowOctets(crc) << 8 == crc << 8
    ensures LowOctets(crc) & 0xff00_0000 == 0
  {
  }

  lemma AtTopLinear(a: byte, b: byte)
    ensures AtTop(a ^ b) == Xor(AtTop(a), AtTop(b))
  {
  }

  lemma FeedSplit(crc: bv32, b: byte)
    ensures Xor(crc, AtTop(b)) == Xor(LowOctets(crc), AtTop(TableIndex(crc, b)))
  {
    var top := (crc >> 24) as byte;
    SplitTopOctet(crc);
    AtTopLinear(top, b);
    XorAssoc(LowOctets(crc), AtTop(top), AtTop(b));
  }

  lemma StepSplit(crc: bv32, b: byte)
    ensures OctetStep(crc, b) == Xor(Shift8(LowOctets(crc)), Shift8(AtTop(TableIndex(crc, b))))
  {
    FeedSplit(crc, b);
    Shift8Linear(LowOctets(crc), AtTop(TableIndex(crc, b)));
  }

  lemma TableSize()
    ensures |CRC_TAB| == 256
  {
    QuarterSizes();
  }

  /** The assignment in the loop of calc_crc32. */
  function Turn(crc: bv32, b: byte): bv32 {
    TableSize();
    Xor(crc << 8, CRC_TAB[TableIndex(crc, b) as nat])
  }

  /** One turn of the loop is one octet step of the division. */
  lemma TurnIsOctetStep(crc: bv32, b: byte)
    ensures Turn(crc, b) == OctetStep(crc, b)
  {
    TableEntry(TableIndex(crc, b));
    StepSplit(crc, b);
    SplitTopOctet(crc);
    Shift8Plain(LowOctets(crc));
    hide CRC_TAB;
  }

  lemma LoopStep(crc: bv32, done: seq<byte>, b: byte)
    requires crc == Divide(CRC_INIT, Bits(done))
    ensures Turn(crc, b) == Divide(CRC_INIT, Bits(done + [b]))
  {
    hide Turn;
    TurnIsOctetStep(crc, b);
    DivideSnoc(CRC_INIT, done, b);
  }

  lemma NothingFed()
    ensures Divide(CRC_INIT, Bits([])) == CRC_INIT
  {
  }

  /** calc_crc32: the CRC of the len octets of data that start at from. */
  method CalcCrc32(data: array<byte>, from: nat, len: nat) returns (crc: bv32)
    requires from + len <= data.Length
    ensures crc == Crc(data[from..from + len])
  {
    hide Divide, Bits, Turn, CRC_TAB;
    crc := CRC_INIT;
    assert data[from..from + 0] == [];
    NothingFed();
    for i := 0 to len
      invariant crc == Divide(CRC_INIT, Bits(data[from..from + i]))
    {
      LoopStep(crc, data[from..from + i], data[from + i]);
      assert data[from..from + i] + [data[from + i]] == data[from..from + i + 1];
      crc := Turn(crc, data[from + i]);
    }
  }
}
