/**
 Transport packets: the header and adaptation field that src/spts.c edits in place,
 and a receiver of transport packets written from sections 2.4.3.2 to 2.4.3.5 of
 ISO/IEC 13818-1.
 */
module Transport {
  import opened Octets
  import opened Wrappers
  import opened Psi

  const TSPACKET_LENGTH: nat := 188
  const SYNC: byte := 0x47
  const PAYLOAD_ONLY: byte := 0x10
  const ADAPTATION_AND_PAYLOAD: byte := 0x30
  const PCR_FLAG: byte := 0x10

  // ----- the header as written -----

  /** The continuity counter of the k-th packet of a stream, counting from zero. */
  function Cc(k: nat): byte {
    Digit(k % 16)
  }

  function FlagsOctet(pid: bv16, start: bool): byte {
    (if start then 0x40 else 0x00) | 0x20 | Hi(pid)
  }

  function ControlOctet(control: byte, k: nat): byte {
    control | Cc(k)
  }

  /** The header of the k-th packet of a stream. */
  function HeaderOctets(pid: bv16, start: bool, control: byte, k: nat): (s: seq<byte>)
    ensures |s| == HEADER
  {
    [SYNC, FlagsOctet(pid, start), Lo(pid), ControlOctet(control, k)]
  }

  // ----- edits in place -----

  function WithStart(octet: byte, start: bool): byte {
    (octet & 0xbf) | (if start then 0x40 else 0x00)
  }

  function WithControl(octet: byte, control: byte): byte {
    (octet & 0xcf) | control
  }

  function WithNextCounter(octet: byte): byte {
    (octet & 0xf0) | ((octet + 1) & 0x0f)
  }

  method SetStartIndicator(p: array<byte>, start: bool)
    requires p.Length == TSPACKET_LENGTH
    modifies p
    ensures p[..] == Splice(old(p[..]), 1, [WithStart(old(p[1]), start)])
  {
    p[1] := p[1] & 0xbf;
    p[1] := p[1] | (if start then 0x40 else 0x00);
  }

  method SetAdaptationControl(p: array<byte>, control: byte)
    requires p.Length == TSPACKET_LENGTH
    modifies p
    ensures p[..] == Splice(old(p[..]), 3, [WithControl(old(p[3]), control)])
  {
    p[3] := p[3] & 0xcf;
    p[3] := p[3] | control;
  }

  method IncrementContinuity(p: array<byte>)
    requires p.Length == TSPACKET_LENGTH
    modifies p
    ensures p[..] == Splice(old(p[..]), 3, [WithNextCounter(old(p[3]))])
  {
    var cc := (p[3] + 1) & 0x0f;
    p[3] := p[3] & 0xf0;
    p[3] := p[3] | cc;
  }

  predicate IsPidOctet(hi: byte) {
    hi & 0xe0 == 0
  }

  lemma StartEdit(pid: bv16, was: bool, now: bool)
    requires IsPidOctet(Hi(pid))
    ensures WithStart(FlagsOctet(pid, was), now) == FlagsOctet(pid, now)
  {
    StartBits(Hi(pid), if was then 0x40 else 0x00, if now then 0x40 else 0x00);
    hide Hi;
  }

  lemma StartBits(hi: byte, was: byte, now: byte)
    requires IsPidOctet(hi) && (was == 0x00 || was == 0x40) && (now == 0x00 || now == 0x40)
    ensures ((was | 0x20 | hi) & 0xbf) | now == now | 0x20 | hi
  {
  }

  lemma ControlBits(cc: byte, was: byte, now: byte)
    requires cc & 0xf0 == 0 && was & 0xcf == 0
    ensures ((was | cc) & 0xcf) | now == now | cc
  {
  }

  lemma ControlEdit(k: nat, was: byte, now: byte)
    requires was & 0xcf == 0
    ensures WithControl(ControlOctet(was, k), now) == ControlOctet(now, k)
  {
    CcIsNibble(k);
    hide Cc;
    ControlBits(Cc(k), was, now);
  }

  lemma CounterBits(cc: byte, control: byte)
    requires cc & 0xf0 == 0 && control & 0xcf == 0
    ensures ((control | cc) & 0xf0) | (((control | cc) + 1) & 0x0f) == control | ((cc + 1) & 0x0f)
  {
  }

  lemma CounterEdit(k: nat, control: byte)
    requires control & 0xcf == 0
    ensures WithNextCounter(ControlOctet(control, k)) == ControlOctet(control, k + 1)
  {
    CcIsNibble(k);
    NextCc(k);
    hide Cc;
    CounterBits(Cc(k), control);
  }

  lemma CcIsNibble(k: nat)
    ensures Cc(k) & 0xf0 == 0 && Val(Cc(k)) == k % 16
  {
    DigitVal(k % 16);
  }

  lemma NextDigit(n: nat)
    requires n < 16
    ensures (Digit(n) + 1) & 0x0f == Digit((n + 1) % 16)
  {
    if n == 0 {} else if n == 1 {} else if n == 2 {} else if n == 3 {}
    else if n == 4 {} else if n == 5 {} else if n == 6 {} else if n == 7 {}
    else if n == 8 {} else if n == 9 {} else if n == 10 {} else if n == 11 {}
    else if n == 12 {} else if n == 13 {} else if n == 14 {} else {}
  }

  lemma NextCc(k: nat)
    ensures (Cc(k) + 1) & 0x0f == Cc(k + 1)
  {
    hide Digit;
    NextDigit(k % 16);
    NextRemainder(k);
  }

  lemma NextRemainder(k: nat)
    ensures (k % 16 + 1) % 16 == (k + 1) % 16
  {
  }

  /** A packet whose first four octets are this header. */
  ghost predicate HasHeader(p: seq<byte>, pid: bv16, start: bool, control: byte, k: nat) {
    |p| == TSPACKET_LENGTH && p[..HEADER] == HeaderOctets(pid, start, control, k)
  }

  lemma OneOctetEdit(p: seq<byte>, i: nat, octet: byte)
    requires |p| == TSPACKET_LENGTH && i < HEADER
    ensures var q := Splice(p, i, [octet]);
            q[..HEADER] == p[..HEADER][i := octet] && q[HEADER..] == p[HEADER..]
  {
  }

  /** Setting the start indicator changes that field of the header and no other. */
  lemma StartEditKeepsRest(p: seq<byte>, pid: bv16, was: bool, control: byte, k: nat, now: bool)
    requires HasHeader(p, pid, was, control, k) && IsPidOctet(Hi(pid))
    ensures var q := Splice(p, 1, [WithStart(p[1], now)]);
            HasHeader(q, pid, now, control, k) && q[HEADER..] == p[HEADER..]
  {
    StartEdit(pid, was, now);
    hide Hi, Lo, ControlOctet, FlagsOctet, WithStart, Splice;
    assert p[1] == p[..HEADER][1];
    OneOctetEdit(p, 1, WithStart(p[1], now));
  }

  /** Setting the adaptation field control changes that field of the header and no other. */
  lemma ControlEditKeepsRest(p: seq<byte>, pid: bv16, start: bool, was: byte, k: nat, now: byte)
    requires HasHeader(p, pid, start, was, k) && was & 0xcf == 0
    ensures var q := Splice(p, 3, [WithControl(p[3], now)]);
            HasHeader(q, pid, start, now, k) && q[HEADER..] == p[HEADER..]
  {
    ControlEdit(k, was, now);
    hide Hi, Lo, ControlOctet, FlagsOctet, WithControl, Splice;
    assert p[3] == p[..HEADER][3];
    OneOctetEdit(p, 3, WithControl(p[3], now));
  }

  /** Incrementing the counter makes the header of the next packet, and disturbs no other field. */
  lemma CounterEditKeepsRest(p: seq<byte>, pid: bv16, start: bool, control: byte, k: nat)
    requires HasHeader(p, pid, start, control, k) && control & 0xcf == 0
    ensures var q := Splice(p, 3, [WithNextCounter(p[3])]);
            HasHeader(q, pid, start, control, k + 1) && q[HEADER..] == p[HEADER..]
  {
    CounterEdit(k, control);
    hide Hi, Lo, ControlOctet, FlagsOctet, WithNextCounter, Splice;
    assert p[3] == p[..HEADER][3];
    OneOctetEdit(p, 3, WithNextCounter(p[3]));
  }

  // ----- the adaptation field as written -----

  datatype AdaptationInfo = AdaptationInfo(flag: byte, length: nat, pcr: nat)

  const TWO_25: nat := 0x200_0000
  const TWO_17: nat := 0x2_0000

  /** The low bit of the base, six reserved bits and the high bit of the extension. */
  function PcrJoint(base: nat, ext: nat): byte {
    ByteOf(base * 128) | ByteOf(ext / 256) | 0x7e
  }

  function PcrOctets(pcr: nat): (s: seq<byte>)
    ensures |s| == 6
  {
    var base, ext := pcr / 300, pcr % 300;
    [ByteOf(base / TWO_25), ByteOf(base / TWO_17), ByteOf(base / 512), ByteOf(base / 2), PcrJoint(base, ext), ByteOf(ext)]
  }

  predicate HasPcr(flag: byte) {
    flag & PCR_FLAG != 0
  }

  /** The octets that flags and PCR take behind the length. */
  function Used(info: AdaptationInfo): nat {
    if HasPcr(info.flag) then 7 else 1
  }

  /** Lengths for which the stuffing neither underflows its octet nor leaves the packet. */
  predicate LengthSane(info: AdaptationInfo) {
    (info.length == 0 || Used(info) <= info.length) && info.length <= PAYLOAD - 1
  }

  /** Length, flags, PCR and stuffing; with length 0 the flags are written all the same. */
  function AdaptationOctets(info: AdaptationInfo): (s: seq<byte>)
    requires LengthSane(info)
    ensures |s| == 1 + (if info.length == 0 then Used(info) else info.length)
  {
    [ByteOf(info.length), info.flag]
    + (if HasPcr(info.flag) then PcrOctets(info.pcr) else [])
    + Fill(if info.length > 0 then info.length - Used(info) else 0, 0xff)
  }

  /** spts_tspacket_adaptation_set: writes the field behind the header, returns the octets written. */
  method AdaptationSet(p: array<byte>, info: AdaptationInfo) returns (n: nat)
    requires p.Length == TSPACKET_LENGTH && LengthSane(info)
    modifies p
    ensures n == |AdaptationOctets(info)|
    ensures p[..] == Splice(old(p[..]), HEADER, AdaptationOctets(info))
  {
    hide Splice, ByteOf, Fill, PcrOctets, HasPcr;
    ghost var was := p[..];
    ghost var done := [ByteOf(info.length), info.flag];
    Put(p, HEADER, [ByteOf(info.length), info.flag]);
    var buf := HEADER + 2;
    if HasPcr(info.flag) {
      PcrSet(p, buf, info.pcr);
      SpliceAppend(was, HEADER, done, PcrOctets(info.pcr));
      done := done + PcrOctets(info.pcr);
      buf := buf + 6;
    } else {
      assert done + [] == done;
    }
    var stuffing := 0;
    if info.length > 0 {
      stuffing := info.length - (buf - HEADER - 1);
      if stuffing > 0 {
        Put(p, buf, Fill(stuffing, 0xff));
        SpliceAppend(was, HEADER, done, Fill(stuffing, 0xff));
        buf := buf + stuffing;
      }
    }
    NoFill(done);
    n := buf - HEADER;
  }

  lemma NoFill(s: seq<byte>)
    ensures s + Fill(0, 0xff) == s
  {
  }

  method PcrSet(p: array<byte>, at: nat, pcr: nat)
    requires at + 6 <= p.Length
    modifies p
    ensures p[..] == Splice(old(p[..]), at, PcrOctets(pcr))
  {
    hide ByteOf, PcrJoint;
    var base, ext := pcr / 300, pcr % 300;
    Put(p, at, [ByteOf(base / TWO_25), ByteOf(base / TWO_17), ByteOf(base / 512), ByteOf(base / 2), PcrJoint(base, ext), ByteOf(ext)]);
  }

  // ----- the receiver -----

  datatype Pcr = Pcr(base: nat, extension: nat)

  datatype Ts = Ts(pid: bv16, start: bool, priority: bool, cc: byte, pcr: Option<Pcr>, payload: seq<byte>)

  function ParsePcr(s: seq<byte>): Pcr
    requires |s| == 6
  {
    Pcr(BaseOf(Val(s[0]), Val(s[1]), Val(s[2]), Val(s[3]), Val(s[4])), Val(s[4]) % 2 * 256 + Val(s[5]))
  }

  function BaseOf(a: nat, b: nat, c: nat, d: nat, e: nat): nat {
    a * TWO_25 + b * TWO_17 + c * 512 + d * 2 + e / 128
  }

  function ReadPid(flags: byte, low: byte): bv16 {
    ((flags & 0x1f) as bv16 << 8) | low as bv16
  }

  /** The six reserved bits between base and extension. */
  predicate PcrReserved(b: byte) {
    b & 0x7e == 0x7e
  }

  /**
   The PCR of an adaptation field, given without its length octet. This receiver refuses a field
   with any other flag than the PCR flag, one too short for its flags, one whose reserved bits are
   not set, and one with anything but stuffing at its end.
   */
  function FieldPcr(field: seq<byte>): Option<Option<Pcr>> {
    if field == [] then Some(None)
    else if field[0] == 0x00 then (if Stuffing(field[1..]) then Some(None) else None)
    else if field[0] != 0x10 || |field| < 7 || !PcrReserved(field[5]) || !Stuffing(field[7..]) then None
    else Some(Some(ParsePcr(field[1..7])))
  }

  predicate Readable(sync: byte, flags: byte, control: byte) {
    sync == 0x47 && flags & 0x80 == 0 && control & 0xc0 == 0 && control & 0x30 != 0
  }

  function ParseTs(p: seq<byte>): Option<Ts> {
    if |p| != 188 || !Readable(p[0], p[1], p[3]) then None
    else
      var pid, start, priority, cc := ReadPid(p[1], p[2]), p[1] & 0x40 != 0, p[1] & 0x20 != 0, p[3] & 0x0f;
      if p[3] & 0x20 == 0 then Some(Ts(pid, start, priority, cc, None, p[4..]))
      else
        var length := Val(p[4]);
        var payload := p[3] & 0x10 != 0;
        if (if payload then length > 182 else length != 183) then None
        else match FieldPcr(p[5..5 + length])
             case None => None
             case Some(pcr) => Some(Ts(pid, start, priority, cc, pcr, if payload then p[5 + length..] else []))
  }

  // ----- round trips -----

  lemma JointBack(base: nat, ext: nat)
    requires ext < 300
    ensures Val(PcrJoint(base, ext)) / 128 == base % 2
    ensures Val(PcrJoint(base, ext)) % 2 == ext / 256
  {
    hide ByteOf, Val;
    ValByteOf(base * 128);
    ValByteOf(ext / 256);
    TopBitOnly(base);
    JointBits(ByteOf(base * 128), ByteOf(ext / 256));
  }

  lemma TopBitOnly(base: nat)
    ensures base * 128 % 256 == 128 * (base % 2)
  {
    assert base == base / 2 * 2 + base % 2;
  }

  lemma JointBits(a: byte, b: byte)
    requires Val(a) == 0 || Val(a) == 128
    requires Val(b) == 0 || Val(b) == 1
    ensures Val(a | b | 0x7e) / 128 == Val(a) / 128 && Val(a | b | 0x7e) % 2 == Val(b)
  {
    ValInjective(a, if Val(a) == 0 then 0 else 0x80);
    ValInjective(b, if Val(b) == 0 then 0 else 1);
  }

  lemma Quotients(base: nat)
    ensures base / 512 == base / 2 / 256 && base / TWO_17 == base / 512 / 256 && base / TWO_25 == base / TWO_17 / 256
  {
  }

  lemma BaseBack(base: nat)
    ensures BaseOf(base / TWO_25 % 256, base / TWO_17 % 256, base / 512 % 256, base / 2 % 256, base % 2 * 128)
            == base % TWO_33
  {
    Quotients(base);
    var d := base / 2;
    var c := d / 256;
    var b := c / 256;
    var a := b / 256;
    assert base == 2 * d + base % 2 && d == 256 * c + d % 256 && c == 256 * b + c % 256 && b == 256 * a + b % 256;
    assert a == 256 * (a / 256) + a % 256;
    Remainder33(base, a / 256, a % 256 * TWO_25 + b % 256 * TWO_17 + c % 256 * 512 + d % 256 * 2 + base % 2);
  }

  lemma BaseUsesTopBit(a: nat, b: nat, c: nat, d: nat, e: nat, bit: nat)
    requires e / 128 == bit
    ensures BaseOf(a, b, c, d, e) == BaseOf(a, b, c, d, bit * 128)
  {
  }

  /** Decoding the six octets gives base and extension of the clock reference, for every value. */
  lemma PcrBack(pcr: nat)
    ensures ParsePcr(PcrOctets(pcr)) == Pcr(pcr / 300 % TWO_33, pcr % 300)
  {
    hide ByteOf, Val, PcrJoint, BaseOf;
    var base, ext := pcr / 300, pcr % 300;
    ValByteOf(base / TWO_25);
    ValByteOf(base / TWO_17);
    ValByteOf(base / 512);
    ValByteOf(base / 2);
    ValByteOf(ext);
    JointBack(base, ext);
    BaseBack(base);
    BaseUsesTopBit(base / TWO_25 % 256, base / TWO_17 % 256, base / 512 % 256, base / 2 % 256,
                   Val(PcrJoint(base, ext)), base % 2);
    assert ext / 256 * 256 + ext % 256 == ext;
  }

  lemma JointReserved(pcr: nat)
    ensures PcrReserved(PcrOctets(pcr)[4])
  {
    hide ByteOf;
    ReservedBits(ByteOf(pcr / 300 * 128), ByteOf(pcr % 300 / 256));
  }

  lemma ReservedBits(a: byte, b: byte)
    ensures PcrReserved(a | b | 0x7e)
  {
  }

  lemma FlagsThatMatter()
    ensures HasPcr(0x10) && !HasPcr(0x00)
  {
  }

  /** A field long enough for its flags is its length octet and what that counts; the unused octets are stuffing. */
  lemma FieldSound(info: AdaptationInfo)
    requires LengthSane(info) && info.length > 0
    ensures var s := AdaptationOctets(info);
            && |s| == info.length + 1 && Val(s[0]) == info.length
            && s[1] == info.flag
            && FieldPcr(s[1..]) ==
               (if info.flag == 0x10 then Some(Some(Pcr(info.pcr / 300 % TWO_33, info.pcr % 300)))
                else if info.flag == 0x00 then Some(None)
                else None)
            && forall i :: 1 + Used(info) <= i < |s| ==> s[i] == 0xff
  {
    hide ByteOf, Val, PcrOctets, ParsePcr, HasPcr, PcrReserved;
    var s := AdaptationOctets(info);
    ValByteOf(info.length);
    PcrBack(info.pcr);
    JointReserved(info.pcr);
    FlagsThatMatter();
    assert s[1] == info.flag;
    if HasPcr(info.flag) {
      assert s[2..8] == PcrOctets(info.pcr);
      assert s[1..][1..7] == s[2..8];
    }
  }

  /** A zero length is followed by a flags octet all the same, which a receiver takes for payload. */
  lemma EmptyFieldSpillsFlags(info: AdaptationInfo)
    requires info.length == 0 && !HasPcr(info.flag)
    ensures LengthSane(info) && |AdaptationOctets(info)| == 2
    ensures Val(AdaptationOctets(info)[0]) == 0 && AdaptationOctets(info)[1] == info.flag
  {
    hide ByteOf, Val;
    ValByteOf(0);
  }

  predicate IsControl(control: byte) {
    control == PAYLOAD_ONLY || control == ADAPTATION_AND_PAYLOAD
  }

  lemma ControlReads(control: byte, cc: byte)
    requires IsControl(control) && cc & 0xf0 == 0
    ensures (control | cc) & 0xc0 == 0 && (control | cc) & 0x30 == control && (control | cc) & 0x0f == cc
    ensures (control | cc) & 0x30 != 0 && (control | cc) & 0x10 != 0
    ensures ((control | cc) & 0x20 != 0) == (control == ADAPTATION_AND_PAYLOAD)
  {
  }

  lemma FlagsRead(pid: bv16, start: bool)
    requires pid & 0xe000 == 0
    ensures FlagsOctet(pid, start) & 0x80 == 0
    ensures (FlagsOctet(pid, start) & 0x40 != 0) == start && FlagsOctet(pid, start) & 0x20 != 0
    ensures ReadPid(FlagsOctet(pid, start), Lo(pid)) == pid
    ensures IsPidOctet(Hi(pid))
  {
  }

  lemma HeaderReads(pid: bv16, start: bool, control: byte, k: nat)
    requires pid & 0xe000 == 0 && IsControl(control)
    ensures var h := HeaderOctets(pid, start, control, k);
            && Readable(h[0], h[1], h[3]) && ReadPid(h[1], h[2]) == pid && (h[1] & 0x40 != 0) == start
            && h[1] & 0x20 != 0 && h[3] & 0x0f == Cc(k) && h[3] & 0x10 != 0 && (h[3] & 0x20 != 0) == (control == ADAPTATION_AND_PAYLOAD)
  {
    CcIsNibble(k);
    hide Cc, FlagsOctet, ReadPid, Hi, Lo;
    ControlReads(control, Cc(k));
    FlagsRead(pid, start);
  }

  /** A packet without adaptation field reads back. */
  lemma PlainPacketReads(pid: bv16, start: bool, k: nat, payload: seq<byte>)
    requires pid & 0xe000 == 0 && |payload| == PAYLOAD
    ensures ParseTs(HeaderOctets(pid, start, PAYLOAD_ONLY, k) + payload) == Some(Ts(pid, start, true, Cc(k), None, payload))
  {
    var h := HeaderOctets(pid, start, PAYLOAD_ONLY, k);
    HeaderReads(pid, start, PAYLOAD_ONLY, k);
    hide HeaderOctets, Cc, ReadPid, Readable;
    var p := h + payload;
    assert p[0] == h[0] && p[1] == h[1] && p[2] == h[2] && p[3] == h[3];
    assert p[HEADER..] == payload;
  }

  /** A packet with an adaptation field reads back as whatever follows the octets its length counts. */
  lemma AdaptedPacketReads(pid: bv16, start: bool, k: nat, lengthOctet: byte, field: seq<byte>, payload: seq<byte>)
    requires pid & 0xe000 == 0
    requires Val(lengthOctet) == |field| <= 182 && 1 + |field| + |payload| == PAYLOAD
    ensures ParseTs(HeaderOctets(pid, start, ADAPTATION_AND_PAYLOAD, k) + [lengthOctet] + field + payload) ==
            match FieldPcr(field) case None => None case Some(pcr) => Some(Ts(pid, start, true, Cc(k), pcr, payload))
  {
    var h := HeaderOctets(pid, start, ADAPTATION_AND_PAYLOAD, k);
    HeaderReads(pid, start, ADAPTATION_AND_PAYLOAD, k);
    hide HeaderOctets, Cc, ReadPid, Readable, FieldPcr, Val;
    var p := h + [lengthOctet] + field + payload;
    assert p[0] == h[0] && p[1] == h[1] && p[2] == h[2] && p[3] == h[3] && p[4] == lengthOctet;
    assert p[5..5 + |field|] == field;
    assert p[5 + |field|..] == payload;
  }
}
