/**
 PES packets: the header that src/pes.c writes, and a receiver of PES packets
 written from section 2.4.3.7 of ISO/IEC 13818-1.
 */
module Pes {
  import opened Octets
  import opened Wrappers
  import opened Psi

  const STREAM_ID_AUDIO: byte := 0xc0
  const STREAM_ID_VIDEO: byte := 0xe0
  const PES_HEADER_LENGTH: nat := 14

  const TWO_15: nat := 0x8000
  const TWO_30: nat := 0x4000_0000

  datatype PesInfo = PesInfo(streamId: byte, packetLength: nat, flag: bv16, headerDataLength: byte, pts: nat)

  // ----- the header as written -----

  /** Prefix, the top three bits of the PTS and a marker. */
  function PtsHead(k: nat): byte {
    0x20 | (ByteOf(k) << 1) | 0x01
  }

  /** The PTS in five octets; the 0x7ffff mask of the middle part is wider than the part. */
  function PtsOctets(pts: nat): (s: seq<byte>)
    ensures |s| == 5
  {
    var middle := pts / TWO_15 % 0x8_0000 * 2 + 1;
    var low := pts % TWO_15 * 2 + 1;
    [PtsHead(pts / TWO_30 % 8), ByteOf(middle / 256), ByteOf(middle), ByteOf(low / 256), ByteOf(low)]
  }

  /** PES_packet_length: zero for video, else 16 bits of the length of what follows. */
  function LengthField(streamId: byte, n: nat): (s: seq<byte>)
    ensures |s| == 2
  {
    if streamId == STREAM_ID_VIDEO then [0, 0] else [ByteOf((n + 8) / 256), ByteOf(n + 8)]
  }

  function PesHeader(info: PesInfo): (s: seq<byte>)
    ensures |s| == PES_HEADER_LENGTH
  {
    [0x00, 0x00, 0x01, info.streamId] + LengthField(info.streamId, info.packetLength)
    + [Hi(info.flag), Lo(info.flag), info.headerDataLength] + PtsOctets(info.pts)
  }

  method PtsSet(buf: array<byte>, at: nat, pts: nat)
    requires at + 5 <= buf.Length
    modifies buf
    ensures buf[..] == Splice(old(buf[..]), at, PtsOctets(pts))
  {
    hide ByteOf, PtsHead, Splice;
    ghost var was := buf[..];
    Put(buf, at, [PtsHead(pts / TWO_30 % 8)]);
    var val := pts / TWO_15 % 0x8_0000 * 2 + 1;
    Put(buf, at + 1, [ByteOf(val / 256), ByteOf(val)]);
    SpliceAppend(was, at, [PtsHead(pts / TWO_30 % 8)], [ByteOf(val / 256), ByteOf(val)]);
    ghost var done := [PtsHead(pts / TWO_30 % 8)] + [ByteOf(val / 256), ByteOf(val)];
    val := pts % TWO_15 * 2 + 1;
    Put(buf, at + 3, [ByteOf(val / 256), ByteOf(val)]);
    SpliceAppend(was, at, done, [ByteOf(val / 256), ByteOf(val)]);
    assert done + [ByteOf(val / 256), ByteOf(val)] == PtsOctets(pts);
  }

  method LengthFieldSet(buf: array<byte>, at: nat, streamId: byte, n: nat)
    requires at + 2 <= buf.Length
    modifies buf
    ensures buf[..] == Splice(old(buf[..]), at, LengthField(streamId, n))
  {
    hide ByteOf;
    if streamId == STREAM_ID_VIDEO {
      Put(buf, at, [0, 0]);
    } else {
      var total := n + 8;
      Put(buf, at, [ByteOf(total / 256), ByteOf(total)]);
    }
  }

  /** pes_header_set: writes the header at `at` and returns its length. */
  method PesHeaderSet(buf: array<byte>, at: nat, info: PesInfo) returns (length: nat)
    requires at + PES_HEADER_LENGTH <= buf.Length
    modifies buf
    ensures length == PES_HEADER_LENGTH
    ensures buf[..] == Splice(old(buf[..]), at, PesHeader(info))
  {
    hide PtsOctets, LengthField, Splice, Hi, Lo;
    ghost var was := buf[..];
    ghost var start := [0x00, 0x00, 0x01, info.streamId];
    Put(buf, at, [0x00, 0x00, 0x01, info.streamId]);
    LengthFieldSet(buf, at + 4, info.streamId, info.packetLength);
    SpliceAppend(was, at, start, LengthField(info.streamId, info.packetLength));
    Put(buf, at + 6, [Hi(info.flag), Lo(info.flag), info.headerDataLength]);
    ghost var flags := [Hi(info.flag), Lo(info.flag), info.headerDataLength];
    SpliceAppend(was, at, start + LengthField(info.streamId, info.packetLength), flags);
    PtsSet(buf, at + 9, info.pts);
    SpliceAppend(was, at, start + LengthField(info.streamId, info.packetLength) + flags, PtsOctets(info.pts));
    length := PES_HEADER_LENGTH;
  }

  // ----- the receiver -----

  /** The indicators are PES_priority, data_alignment_indicator, copyright and original_or_copy. */
  datatype PesPacket = PesPacket(streamId: byte, indicators: byte, length: nat, pts: Option<nat>, data: seq<byte>)

  predicate PtsPrefix(b: byte) {
    b & 0xf0 == 0x20
  }

  function ThreeBits(b: byte): byte {
    (b >> 1) & 0x07
  }

  /** The 15 bits of two octets above their marker bit. */
  function Above(h: nat, l: nat): nat {
    (h * 256 + l) / 2
  }

  function Assemble(top: nat, middle: nat, low: nat): nat {
    top * TWO_30 + middle * TWO_15 + low
  }

  /** A time stamp: its four prefix bits end in bit 5, and every part is closed by a marker bit. */
  function ParsePts(s: seq<byte>): Option<nat>
    requires |s| == 5
  {
    if !PtsPrefix(s[0]) || Val(s[0]) % 2 != 1 || Val(s[2]) % 2 != 1 || Val(s[4]) % 2 != 1 then None
    else Some(Assemble(Val(ThreeBits(s[0])), Above(Val(s[1]), Val(s[2])), Above(Val(s[3]), Val(s[4]))))
  }

  predicate IsVideoId(streamId: byte) {
    streamId & 0xf0 == 0xe0
  }

  /**
   PES_packet_length counts the octets behind it; zero leaves the packet unbounded and is
   meant for video only. A strict receiver rejects packets whose length is otherwise.
   */
  predicate LengthFits(streamId: byte, length: nat, behind: nat) {
    if length == 0 then IsVideoId(streamId) else length == behind
  }

  /**
   A PES packet that is not scrambled and whose header holds at most a PTS: with any other optional
   field flagged, or anything but stuffing behind the PTS, this receiver refuses it.
   */
  function ParsePes(unit: seq<byte>, strict: bool): Option<PesPacket> {
    if |unit| < 9 || unit[..3] != [0x00, 0x00, 0x01] || unit[6] & 0xf0 != 0x80 then None
    else
      var indicators, length := unit[6] & 0x0f, Val(unit[4]) * 256 + Val(unit[5]);
      var first := 9 + Val(unit[8]);
      if first > |unit| || (strict && !LengthFits(unit[3], length, |unit| - 6)) then None
      else if unit[7] == 0x00 then
        if Stuffing(unit[9..first]) then Some(PesPacket(unit[3], indicators, length, None, unit[first..])) else None
      else if unit[7] != 0x80 || first < 14 || !Stuffing(unit[14..first]) then None
      else match ParsePts(unit[9..14])
           case None => None
           case Some(pts) => Some(PesPacket(unit[3], indicators, length, Some(pts), unit[first..]))
  }

  // ----- round trips -----

  lemma PtsTop(k: nat)
    requires k < 8
    ensures PtsPrefix(PtsHead(k)) && Val(PtsHead(k)) % 2 == 1 && Val(ThreeBits(PtsHead(k))) == k
  {
    hide ByteOf;
    SmallByte(k);
    TopBits3(ByteOf(k));
    OddByte(0x20 | (ByteOf(k) << 1));
  }

  lemma SmallByte(k: nat)
    requires k < 8
    ensures Val(ByteOf(k)) == k && ByteOf(k) & 0xf8 == 0
  {
    hide ByteOf;
    ValByteOf(k);
    SmallBits(ByteOf(k));
  }

  lemma SmallBits(b: byte)
    requires Val(b) < 8
    ensures b & 0xf8 == 0
  {
  }

  lemma TopBits3(b: byte)
    requires b & 0xf8 == 0
    ensures (0x20 | (b << 1) | 0x01) & 0xf0 == 0x20 && ((0x20 | (b << 1) | 0x01) >> 1) & 0x07 == b
  {
  }

  lemma OddByte(b: byte)
    ensures Val(b | 0x01) % 2 == 1
  {
  }

  lemma HalvesOf30(pts: nat)
    ensures pts / TWO_30 == pts / TWO_15 / TWO_15
  {
    var q := pts / TWO_15;
    assert pts == (q / TWO_15 * TWO_15 + q % TWO_15) * TWO_15 + pts % TWO_15;
  }

  lemma Parts(pts: nat)
    ensures pts % TWO_33 == Assemble(pts / TWO_30 % 8, pts / TWO_15 % TWO_15, pts % TWO_15)
  {
    HalvesOf30(pts);
    var top, middle, low := pts / TWO_30, pts / TWO_15 % TWO_15, pts % TWO_15;
    assert pts == top * TWO_30 + middle * TWO_15 + low;
    Remainder33(pts, top / 8, top % 8 * TWO_30 + middle * TWO_15 + low);
  }

  lemma Remainder16(n: nat, q: nat, r: nat)
    requires n == q * 0x1_0000 + r && r < 0x1_0000
    ensures n % 0x1_0000 == r
  {
  }

  /** Two octets of an odd number carry the 15 bits above its marker. */
  lemma MiddleBack(v: nat)
    ensures var odd := v * 2 + 1;
            && Above(odd / 256 % 256, odd % 256) == v % TWO_15
            && odd % 256 % 2 == 1
  {
    var odd, q, r := v * 2 + 1, v / TWO_15, v % TWO_15;
    TwoOctets(odd);
    assert v == q * TWO_15 + r;
    Remainder16(odd, q, 2 * r + 1);
    assert odd == odd / 256 * 256 + odd % 256;
  }

  lemma Remainder15(n: nat, q: nat, r: nat)
    requires n == q * TWO_15 + r && r < TWO_15
    ensures n % TWO_15 == r
  {
  }

  lemma MaskTooWide(pts: nat)
    ensures pts / TWO_15 % 0x8_0000 % TWO_15 == pts / TWO_15 % TWO_15
    ensures pts % TWO_15 % TWO_15 == pts % TWO_15
  {
    var n := pts / TWO_15;
    var m := n % 0x8_0000;
    assert n == (n / 0x8_0000 * 16) * TWO_15 + m;
    assert m == m / TWO_15 * TWO_15 + m % TWO_15;
    Remainder15(n, n / 0x8_0000 * 16 + m / TWO_15, m % TWO_15);
  }

  /** The octets stored with the 19-bit mask are those that a 15-bit mask would store. */
  lemma MaskExcessIsCut(pts: nat)
    ensures var wide, narrow := pts / TWO_15 % 0x8_0000 * 2 + 1, pts / TWO_15 % TWO_15 * 2 + 1;
            ByteOf(wide / 256) == ByteOf(narrow / 256) && ByteOf(wide) == ByteOf(narrow)
  {
    hide ByteOf, Val;
    MaskTooWide(pts);
    var m := pts / TWO_15 % 0x8_0000;
    var narrow := m % TWO_15 * 2 + 1;
    SameOctets(m * 2 + 1, narrow, m / TWO_15);
  }

  lemma SameOctets(n: nat, r: nat, q: nat)
    requires n == q * 0x1_0000 + r
    ensures ByteOf(n) == ByteOf(r) && ByteOf(n / 256) == ByteOf(r / 256)
  {
    hide ByteOf, Val;
    ValByteOf(n);
    ValByteOf(r);
    ValByteOf(n / 256);
    ValByteOf(r / 256);
    assert r == r / 256 * 256 + r % 256;
    Remainder8(n, q * 256 + r / 256, r % 256);
    assert n / 256 == q * 256 + r / 256;
    assert r / 256 == r / 256 / 256 * 256 + r / 256 % 256;
    Remainder8(n / 256, q + r / 256 / 256, r / 256 % 256);
    ValInjective(ByteOf(n), ByteOf(r));
    ValInjective(ByteOf(n / 256), ByteOf(r / 256));
  }

  lemma PartBack(v: nat)
    ensures var odd := v * 2 + 1;
            && Above(Val(ByteOf(odd / 256)), Val(ByteOf(odd))) == v % TWO_15
            && Val(ByteOf(odd)) % 2 == 1
  {
    hide Val, ByteOf, Above;
    ValByteOf((v * 2 + 1) / 256);
    ValByteOf(v * 2 + 1);
    MiddleBack(v);
  }

  /** Decoding the five octets gives the PTS modulo 2^33, with all markers set, for every PTS. */
  lemma PtsBack(pts: nat)
    ensures ParsePts(PtsOctets(pts)) == Some(pts % TWO_33)
  {
    hide Val, ByteOf, PtsHead, PtsPrefix, ThreeBits, Above, Assemble;
    PtsTop(pts / TWO_30 % 8);
    PartBack(pts / TWO_15 % 0x8_0000);
    PartBack(pts % TWO_15);
    MaskTooWide(pts);
    Parts(pts);
  }

  /** What the length field of a frame of n octets says. */
  function DeclaredLength(streamId: byte, n: nat): nat {
    if streamId == STREAM_ID_VIDEO then 0 else (n + 8) % 0x1_0000
  }

  lemma LengthFieldBack(streamId: byte, n: nat)
    ensures var f := LengthField(streamId, n);
            Val(f[0]) * 256 + Val(f[1]) == DeclaredLength(streamId, n)
  {
    hide ByteOf;
    if streamId != STREAM_ID_VIDEO {
      ValByteOf((n + 8) / 256);
      ValByteOf(n + 8);
      TwoOctets(n + 8);
    }
  }

  lemma TwoOctets(v: nat)
    ensures v / 256 % 256 * 256 + v % 256 == v % 0x1_0000
  {
  }

  /** The 16-bit length field can hold the length of this frame's PES packet, or need not. */
  predicate LengthRepresentable(streamId: byte, n: nat) {
    streamId == STREAM_ID_VIDEO || n + 8 < 0x1_0000
  }

  /** A frame as the program describes it to pes_header_set (src/spts.c:310-311, 408-409). */
  function FrameInfo(streamId: byte, n: nat, pts: nat): PesInfo {
    PesInfo(streamId, n, 0x8080, 0x05, pts)
  }

  lemma HeaderFields(info: PesInfo, data: seq<byte>)
    requires info.flag == 0x8080 && info.headerDataLength == 0x05
    ensures var u := PesHeader(info) + data;
            && u[..3] == [0x00, 0x00, 0x01] && u[3] == info.streamId
            && u[4] == LengthField(info.streamId, info.packetLength)[0]
            && u[5] == LengthField(info.streamId, info.packetLength)[1]
            && u[6] == 0x80 && u[7] == 0x80 && u[8] == 0x05 && u[9..14] == PtsOctets(info.pts) && u[14..] == data
  {
    hide LengthField, PtsOctets;
    assert Hi(0x8080) == 0x80 && Lo(0x8080) == 0x80;
  }

  /**
   A frame behind its header reads back as stream, PTS modulo 2^33 and data. A strict receiver
   rejects it exactly when the PES packet is too long for the length field of its stream.
   */
  lemma PesBack(streamId: byte, pts: nat, data: seq<byte>, strict: bool)
    requires streamId == STREAM_ID_VIDEO || streamId == STREAM_ID_AUDIO
    ensures ParsePes(PesHeader(FrameInfo(streamId, |data|, pts)) + data, strict) ==
            if strict && !LengthRepresentable(streamId, |data|) then None
            else Some(PesPacket(streamId, 0x00, DeclaredLength(streamId, |data|), Some(pts % TWO_33), data))
  {
    hide LengthField, PtsOctets, PesHeader, ParsePts, Val;
    HeaderFields(FrameInfo(streamId, |data|, pts), data);
    LengthFieldBack(streamId, |data|);
    PtsBack(pts);
    FiveIsFive();
    VideoIds();
  }

  lemma FiveIsFive()
    ensures Val(0x05) == 5
  {
  }

  lemma VideoIds()
    ensures IsVideoId(STREAM_ID_VIDEO) && !IsVideoId(STREAM_ID_AUDIO)
  {
  }

  /** One octet too many in front and it is no PES packet at all. */
  lemma MisplacedIsNoPes(x: byte, info: PesInfo, data: seq<byte>, strict: bool)
    ensures ParsePes([x] + PesHeader(info) + data, strict) == None
  {
    var u := [x] + PesHeader(info) + data;
    hide LengthField, PtsOctets;
    assert u[2] == 0x00;
    assert u[..3][2] == 0x00;
  }
}
