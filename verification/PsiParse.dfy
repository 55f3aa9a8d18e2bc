/**
 A receiver of program tables, written from sections 2.4.4.1, 2.4.4.3 and 2.4.4.8 of
 ISO/IEC 13818-1 and not from the multiplexer, and what it reads out of the tables
 that src/psi.c writes.
 */
module PsiParse {
  import opened Octets
  import opened Wrappers
  import opened Crc32
  import opened CrcDetection
  import opened Psi

  // ----- the receiver -----

  /** version_number, section_number and last_section_number. */
  datatype Extent = Extent(version: byte, number: byte, last: byte)

  function Id(h: byte, l: byte): bv16 {
    (h as bv16 << 8) | l as bv16
  }

  function Pid13(h: byte, l: byte): bv16 {
    ((h & 0x1f) as bv16 << 8) | l as bv16
  }

  function Length12(h: byte, l: byte): nat {
    256 * Val(h & 0x0f) + Val(l)
  }

  /** Three, four, two or two reserved bits are set, the last two with the current_next_indicator. */
  predicate PidReserved(b: byte) {
    b & 0xe0 == 0xe0
  }

  predicate LengthReserved(b: byte) {
    b & 0xf0 == 0xf0
  }

  predicate IsCurrent(b: byte) {
    b & 0xc1 == 0xc1
  }

  function ExtentOf(a: byte, b: byte, c: byte): Extent {
    Extent((a >> 1) & 0x1f, b, c)
  }

  /** section_syntax_indicator set, a zero bit, and two reserved bits set. */
  predicate LongSyntax(b: byte) {
    b & 0xf0 == 0xb0
  }

  /** The section that starts in a packet payload, if it is whole and its CRC is right. */
  function Section(payload: seq<byte>): (s: Option<seq<byte>>)
    ensures s.Some? ==> |s.value| >= 3 && Crc(s.value) == 0
  {
    if payload == [] then None else
    var p := 1 + Val(payload[0]);
    if p + 3 > |payload| then None else
    var end := p + 3 + Length12(payload[p + 1], payload[p + 2]);
    if end > |payload| || !LongSyntax(payload[p + 1]) || Crc(payload[p..end]) != 0 then None
    else Some(payload[p..end])
  }

  /** What stands behind the section that starts in a payload. */
  function Behind(payload: seq<byte>): seq<byte> {
    if payload == [] then [] else
    var p := 1 + Val(payload[0]);
    if p + 3 > |payload| then [] else
    var end := p + 3 + Length12(payload[p + 1], payload[p + 2]);
    if end > |payload| then [] else payload[end..]
  }

  datatype Pat = Pat(transportStreamId: bv16, extent: Extent, programs: seq<Program>)
  datatype Program = Program(number: bv16, pmtPid: bv16)

  function ParsePrograms(s: seq<byte>): Option<seq<Program>> {
    if s == [] then Some([])
    else if |s| < 4 || !PidReserved(s[2]) then None
    else match ParsePrograms(s[4..])
         case None => None
         case Some(rest) => Some([Program(Id(s[0], s[1]), Pid13(s[2], s[3]))] + rest)
  }

  function PatOfSection(s: seq<byte>): Option<Pat> {
    if |s| < 12 || s[0] != 0x00 || !IsCurrent(s[5]) then None
    else match ParsePrograms(s[8..|s| - 4])
         case None => None
         case Some(ps) => Some(Pat(Id(s[3], s[4]), ExtentOf(s[5], s[6], s[7]), ps))
  }

  function ParsePat(payload: seq<byte>): Option<Pat> {
    match Section(payload)
    case None => None
    case Some(s) => PatOfSection(s)
  }

  datatype Pmt = Pmt(program: bv16, extent: Extent, pcrPid: bv16, es: seq<Es>)

  function ParseEntries(s: seq<byte>): Option<seq<Es>> {
    if s == [] then Some([])
    else if |s| < 5 || !PidReserved(s[1]) || !LengthReserved(s[3]) then None
    else
      var next := 5 + Length12(s[3], s[4]);
      if next > |s| then None
      else match ParseEntries(s[next..])
           case None => None
           case Some(rest) => Some([Es(s[0], Pid13(s[1], s[2]))] + rest)
  }

  function PmtOfSection(s: seq<byte>): Option<Pmt> {
    if |s| < 16 || s[0] != 0x02 || !IsCurrent(s[5]) || !PidReserved(s[8]) || !LengthReserved(s[10]) then None
    else
      var first := 12 + Length12(s[10], s[11]);
      if first > |s| - 4 then None
      else match ParseEntries(s[first..|s| - 4])
           case None => None
           case Some(es) => Some(Pmt(Id(s[3], s[4]), ExtentOf(s[5], s[6], s[7]), Pid13(s[8], s[9]), es))
  }

  function ParsePmt(payload: seq<byte>): Option<Pmt> {
    match Section(payload)
    case None => None
    case Some(s) => PmtOfSection(s)
  }

  // ----- what the writer's fields read back as -----

  /** A PID has 13 bits. */
  function Pid(v: bv16): bv16 {
    v & 0x1fff
  }

  lemma IdBack(v: bv16)
    ensures Id(Hi(v), Lo(v)) == v
  {
  }

  lemma PidBack(v: bv16)
    ensures Pid13(0xe0 | Hi(v), Lo(v)) == Pid(v) && PidReserved(0xe0 | Hi(v))
  {
  }

  lemma SmallHasNoHighBits(b: byte)
    requires Val(b) < 16
    ensures b & 0xf0 == 0
  {
  }

  lemma LowNibble(b: byte)
    requires b & 0xf0 == 0
    ensures (0xb0 | b) & 0x0f == b
    ensures LongSyntax(0xb0 | b)
  {
  }

  lemma LengthBack(len: nat)
    requires len < 4096
    ensures Length12(LengthOctets(len)[0], LengthOctets(len)[1]) == len
    ensures LongSyntax(LengthOctets(len)[0])
  {
    hide ByteOf, Val;
    ValByteOf(len / 256);
    ValByteOf(len);
    SmallHasNoHighBits(ByteOf(len / 256));
    LowNibble(ByteOf(len / 256));
  }

  lemma NoDescriptors()
    ensures Length12(0xf0, 0) == 0 && LengthReserved(0xf0)
  {
    assert (0xf0 as byte) & 0x0f == 0;
  }

  /** Streams as a receiver sees them: the PIDs cut to 13 bits. */
  function ShortPids(es: seq<Es>): (r: seq<Es>)
    ensures |r| == |es|
  {
    if es == [] then [] else [Es(es[0].streamType, Pid(es[0].pid))] + ShortPids(es[1..])
  }

  lemma EntryBack(e: Es, rest: seq<byte>)
    ensures ParseEntries(Entry(e) + rest) ==
            match ParseEntries(rest) case None => None case Some(es) => Some([Es(e.streamType, Pid(e.pid))] + es)
  {
    var s := Entry(e) + rest;
    assert s[5..] == rest;
    assert s[0] == e.streamType && s[1] == 0xe0 | Hi(e.pid) && s[2] == Lo(e.pid) && s[3] == 0xf0 && s[4] == 0;
    hide Entry, Length12, Pid13, Hi, Lo, PidReserved, LengthReserved;
    NoDescriptors();
    PidBack(e.pid);
  }

  lemma {:induction false} EntriesBack(es: seq<Es>)
    ensures ParseEntries(Entries(es)) == Some(ShortPids(es))
  {
    if es != [] {
      EntryBack(es[0], Entries(es[1..]));
      EntriesBack(es[1..]);
    }
  }

  // ----- sections -----

  /** Where a receiver looks for the section of a body that starts this payload, whatever the rest holds. */
  lemma SectionAt(body: seq<byte>, payload: seq<byte>)
    requires 4 <= |body| < 4000 && body[0] == 0 && body[2..4] == LengthOctets(|body|)
    requires |payload| >= |body| + 4 && payload[0] == 0 && payload[2..4] == body[2..4]
    ensures var s := payload[1..|body| + 4];
            Section(payload) == if Crc(s) == 0 then Some(s) else None
    ensures Behind(payload) == payload[|body| + 4..]
  {
    hide Crc, Val, Length12, LengthOctets, LongSyntax;
    LengthBack(|body|);
    assert payload[2] == payload[2..4][0] == LengthOctets(|body|)[0] && payload[3] == payload[2..4][1] == LengthOctets(|body|)[1];
    assert Val(0) == 0 by { ValZero(); }
  }

  lemma ValZero()
    ensures Val(0) == 0
  {
  }

  /** A sealed section behind a zero pointer_field is found, whatever follows it. */
  lemma SectionBack(body: seq<byte>, rest: seq<byte>)
    requires 4 <= |body| < 4000
    requires body[0] == 0 && body[2..4] == LengthOctets(|body|)
    ensures Section(Sealed(body) + rest) == Some(Sealed(body)[1..]) && Behind(Sealed(body) + rest) == rest
  {
    hide Section, Behind, LengthOctets, Crc, CrcOctets;
    SectionAt(body, Sealed(body) + rest);
    assert (Sealed(body) + rest)[1..|body| + 4] == Sealed(body)[1..] == body[1..] + CrcOctets(Crc(body[1..]));
    ResidueIsZero(body[1..], CrcOctets(Crc(body[1..])));
  }

  /**
   A sealed section that is damaged inside a stretch of four consecutive octets is not accepted,
   if its place and length are intact: a receiver never reads a wrong table out of such a packet.
   */
  lemma CorruptionIsRejected(body: seq<byte>, rest: seq<byte>, damaged: seq<byte>, from: nat)
    requires 4 <= |body| < 4000
    requires body[0] == 0 && body[2..4] == LengthOctets(|body|)
    requires var good := Sealed(body) + rest;
             && |damaged| == |good| && damaged[0] == good[0] && damaged[2..4] == good[2..4]
             && (forall i :: 0 <= i < |good| && damaged[i] != good[i] ==> from <= i < from + 4)
             && damaged[..|body| + 4] != good[..|body| + 4]
    ensures Section(damaged) == None
  {
    hide Section, Behind, LengthOctets, Crc, CrcOctets;
    var good := Sealed(body) + rest;
    SectionAt(body, damaged);
    SectionAt(body, good);
    SectionBack(body, rest);
    var was, now := good[1..|body| + 4], damaged[1..|body| + 4];
    assert damaged[..|body| + 4] == [damaged[0]] + now && good[..|body| + 4] == [good[0]] + was;
    var start := if from == 0 then 0 else from - 1;
    forall i | 0 <= i < |was| && was[i] != now[i] ensures start <= i < start + 4 {
      assert good[i + 1] != damaged[i + 1];
    }
    FourOctetsDetected(was, now, start);
  }

  lemma PatFields(program: bv16, pmtPid: bv16)
    ensures var b := PatBody(program, pmtPid);
            && b[0] == 0 && b[1] == 0x00 && b[2..4] == LengthOctets(|b|)
            && b[4] == Hi(1) && b[5] == Lo(1) && IsCurrent(b[6]) && ExtentOf(b[6], b[7], b[8]) == Extent(0, 0, 0)
            && b[9..] == [Hi(program), Lo(program), 0xe0 | Hi(pmtPid), Lo(pmtPid)]
  {
    hide LengthOctets;
  }

  lemma OneProgram(program: bv16, pmtPid: bv16)
    ensures ParsePrograms([Hi(program), Lo(program), 0xe0 | Hi(pmtPid), Lo(pmtPid)]) ==
            Some([Program(program, Pid(pmtPid))])
  {
    var s := [Hi(program), Lo(program), 0xe0 | Hi(pmtPid), Lo(pmtPid)];
    hide Id, Pid13, Hi, Lo, PidReserved;
    IdBack(program);
    PidBack(pmtPid);
    assert s[4..] == [];
    assert ParsePrograms([]) == Some([]);
    assert [Program(program, Pid(pmtPid))] + [] == [Program(program, Pid(pmtPid))];
  }

  /** The receiver finds the one program of the association section. */
  lemma PatParses(program: bv16, pmtPid: bv16, rest: seq<byte>)
    ensures ParsePat(Sealed(PatBody(program, pmtPid)) + rest) ==
            Some(Pat(1, Extent(0, 0, 0), [Program(program, Pid(pmtPid))]))
    ensures Behind(Sealed(PatBody(program, pmtPid)) + rest) == rest
  {
    var body := PatBody(program, pmtPid);
    PatFields(program, pmtPid);
    SectionBack(body, rest);
    var s := Sealed(body)[1..];
    assert s[..12] == body[1..];
    assert s[8..|s| - 4] == body[9..];
    hide PatBody, Section, Behind, Sealed, Id, Pid13, Hi, Lo, ParsePrograms, IsCurrent, ExtentOf;
    OneProgram(program, pmtPid);
    IdBack(1);
  }

  /** What a receiver should read out of the map section. */
  function Advertised(st: PmtState): Pmt {
    Pmt(st.program, Extent(0, 0, 0), Pid(st.pcrPid), ShortPids(st.es))
  }

  lemma BodyFields(st: PmtState)
    ensures var b := st.Body();
            && b[0] == 0 && b[1] == 0x02 && b[2..4] == LengthOctets(|b|)
            && b[4] == Hi(st.program) && b[5] == Lo(st.program)
            && IsCurrent(b[6]) && ExtentOf(b[6], b[7], b[8]) == Extent(0, 0, 0)
            && b[9] == 0xe0 | Hi(st.pcrPid) && b[10] == Lo(st.pcrPid) && b[11] == 0xf0 && b[12] == 0
            && b[13..] == Entries(st.es)
  {
    hide LengthOctets, Entries;
  }

  lemma PmtOfSectionBack(s: seq<byte>, st: PmtState)
    requires |s| == 16 + 5 * |st.es|
    requires s[0] == 0x02 && s[3] == Hi(st.program) && s[4] == Lo(st.program)
    requires IsCurrent(s[5]) && ExtentOf(s[5], s[6], s[7]) == Extent(0, 0, 0)
    requires s[8] == 0xe0 | Hi(st.pcrPid) && s[9] == Lo(st.pcrPid) && s[10] == 0xf0 && s[11] == 0
    requires s[12..|s| - 4] == Entries(st.es)
    ensures PmtOfSection(s) == Some(Advertised(st))
  {
    hide Id, Pid13, Length12, ParseEntries, Hi, Lo, Entries, PidReserved, LengthReserved, IsCurrent, ExtentOf;
    IdBack(st.program);
    PidBack(st.pcrPid);
    NoDescriptors();
    EntriesBack(st.es);
  }

  lemma PayloadParts(st: PmtState)
    requires |st.es| <= MAX_STREAMS && st.sealed
    ensures PmtPayload(st) == Sealed(st.Body()) + Fill(Spare(st), 0xff)
  {
    hide PmtBody, Crc, CrcOctets, Fill;
  }

  lemma BehindPointer(body: seq<byte>)
    requires |body| >= 13
    ensures var s := Sealed(body)[1..];
            && |s| == |body| + 3 && (forall i :: 0 <= i < |body| - 1 ==> s[i] == body[i + 1])
            && s[12..|s| - 4] == body[13..]
  {
    hide Crc, CrcOctets;
  }

  /** A sealed map section reads back as its PCR PID and its streams in order. */
  lemma PmtParses(st: PmtState)
    requires |st.es| <= MAX_STREAMS && st.sealed
    ensures ParsePmt(PmtPayload(st)) == Some(Advertised(st))
    ensures Stuffing(Behind(PmtPayload(st)))
  {
    hide PmtBody, Section, Behind, IsCurrent, ExtentOf, Sealed, PmtPayload, Hi, Lo, Entries, PmtOfSection, LengthOctets, Advertised, Fill;
    BodyFields(st);
    PayloadParts(st);
    SectionBack(st.Body(), Fill(Spare(st), 0xff));
    BehindPointer(st.Body());
    PmtOfSectionBack(Sealed(st.Body())[1..], st);
  }

  // ----- any order of operations -----

  function PmtAfter(st: PmtState, ops: seq<PmtOp>): PmtState
    decreases |ops|
  {
    if ops == [] then st else PmtAfter(PmtApply(st, ops[0]), ops[1..])
  }

  /** The streams that a run of operations adds, in order. */
  function Added(ops: seq<PmtOp>): seq<Es> {
    if ops == [] then [] else (if ops[0].AddStream? then [ops[0].e] else []) + Added(ops[1..])
  }

  /** The PCR PID that a run of operations leaves. */
  function LastPcr(before: bv16, ops: seq<PmtOp>): bv16
    decreases |ops|
  {
    if ops == [] then before else LastPcr(if ops[0].SetPcr? then ops[0].pid else before, ops[1..])
  }

  lemma OneMore(es: seq<Es>, ops: seq<PmtOp>)
    requires ops != []
    ensures es + Added(ops) == (if ops[0].AddStream? then es + [ops[0].e] else es) + Added(ops[1..])
  {
  }

  /** Growing the section step by step builds the section that would be built at once. */
  lemma {:induction false} IncrementalIsAtOnce(st: PmtState, ops: seq<PmtOp>)
    ensures PmtAfter(st, ops) ==
            PmtState(st.program, LastPcr(st.pcrPid, ops), st.es + Added(ops), st.sealed || ops != [])
    decreases |ops|
  {
    if ops == [] {
      assert st.es + [] == st.es;
    } else {
      var next := PmtApply(st, ops[0]);
      IncrementalIsAtOnce(next, ops[1..]);
      OneMore(st.es, ops);
    }
  }

  /** Whatever the operations, a receiver reads back the added streams in order and the last PCR PID. */
  lemma PmtReadsBack(program: bv16, ops: seq<PmtOp>)
    requires ops != [] && |Added(ops)| <= 33
    ensures var st := PmtAfter(PmtInitial(program), ops);
            && |st.es| <= MAX_STREAMS
            && ParsePmt(PmtPayload(st)) == Some(Pmt(program, Extent(0, 0, 0), Pid(LastPcr(0, ops)), ShortPids(Added(ops))))
  {
    IncrementalIsAtOnce(PmtInitial(program), ops);
    assert [] + Added(ops) == Added(ops);
    PmtParses(PmtAfter(PmtInitial(program), ops));
  }

  /** Before any operation the section has no CRC: it is accepted only if its CRC happens to be all ones. */
  lemma FreshPmtHasNoCrc(program: bv16)
    ensures Section(PmtPayload(PmtInitial(program))).Some? <==> CrcOctets(Crc(PmtInitial(program).Body()[1..])) == Fill(4, 0xff)
  {
    hide Section, LengthOctets, Crc, CrcOctets, PmtBody, Hi, Lo, Entries;
    var st := PmtInitial(program);
    var body, payload := st.Body(), PmtPayload(st);
    BodyFields(st);
    SectionAt(body, payload);
    assert payload[1..17] == body[1..] + Fill(4, 0xff);
    ResidueIsZero(body[1..], Fill(4, 0xff));
  }

  lemma FreshSection()
    ensures PmtInitial(PROGRAM_NUMBER).Body()[1..] == [0x02, 0xb0, 0x0d, 0x00, 0x16, 0xc1, 0x00, 0x00, 0xe0, 0x00, 0xf0, 0x00]
  {
    assert Entries([]) == [];
    assert LengthOctets(13) == [0xb0, 0x0d] by { ThirteenOctets(); }
    assert Hi(PROGRAM_NUMBER) == 0x00 && Lo(PROGRAM_NUMBER) == 0x16 && Hi(0) == 0x00 && Lo(0) == 0x00;
    hide LengthOctets, Hi, Lo;
    assert NumberOctets(PmtHead(PROGRAM_NUMBER, 0)) == [0xc1, 0x00, 0x00];
  }

  lemma ThirteenOctets()
    ensures LengthOctets(13) == [0xb0, 0x0d]
  {
    hide ByteOf;
    SmallOctets();
    assert 13 / 256 == 0;
  }

  lemma SmallOctets()
    ensures ByteOf(0) == 0x00 && ByteOf(13) == 0x0d
  {
    hide DIGITS;
    FirstDigits();
  }

  lemma FirstDigits()
    ensures Digit(0) == 0x0 && Digit(13) == 0xd
  {
  }

  lemma FreshSteps()
    ensures OctetStep(CRC_INIT, 0x02) == 0x478a84da && OctetStep(0x478a84da, 0xb0) == 0x1d7b770c
    ensures OctetStep(0x1d7b770c, 0x0d) == 0x3766d770 && OctetStep(0x3766d770, 0x00) == 0xaca24d95
    ensures OctetStep(0xaca24d95, 0x16) == 0x30f9cea8 && OctetStep(0x30f9cea8, 0xc1) == 0x74b748be
    ensures OctetStep(0x74b748be, 0x00) == 0x44f8d53b && OctetStep(0x44f8d53b, 0x00) == 0xdf573dab
    ensures OctetStep(0xdf573dab, 0xe0) == 0xbb407b2d && OctetStep(0xbb407b2d, 0x00) == 0xd60e6b1f
    ensures OctetStep(0xd60e6b1f, 0xf0) == 0x8ccee452 && OctetStep(0x8ccee452, 0x00) == 0x92e4298a
  {
  }

  /** The register after one octet more. */
  lemma FeedOctet(msg: seq<byte>, k: nat, r: bv32)
    requires k < |msg| && Divide(CRC_INIT, Bits(msg[..k])) == r
    ensures Divide(CRC_INIT, Bits(msg[..k + 1])) == OctetStep(r, msg[k])
  {
    DivideSnoc(CRC_INIT, msg[..k], msg[k]);
    assert msg[..k] + [msg[k]] == msg[..k + 1];
  }

  lemma FreshCrc()
    ensures Crc([0x02, 0xb0, 0x0d, 0x00, 0x16, 0xc1, 0x00, 0x00, 0xe0, 0x00, 0xf0, 0x00]) == 0x92e4298a
  {
    hide Divide, Bits, OctetStep;
    var m: seq<byte> := [0x02, 0xb0, 0x0d, 0x00, 0x16, 0xc1, 0x00, 0x00, 0xe0, 0x00, 0xf0, 0x00];
    FreshSteps();
    NothingFed();
    assert m[..0] == [];
    FeedOctet(m, 0, CRC_INIT);
    FeedOctet(m, 1, 0x478a84da);
    FeedOctet(m, 2, 0x1d7b770c);
    FeedOctet(m, 3, 0x3766d770);
    FeedOctet(m, 4, 0xaca24d95);
    FeedOctet(m, 5, 0x30f9cea8);
    FeedOctet(m, 6, 0x74b748be);
    FeedOctet(m, 7, 0x44f8d53b);
    FeedOctet(m, 8, 0xdf573dab);
    FeedOctet(m, 9, 0xbb407b2d);
    FeedOctet(m, 10, 0xd60e6b1f);
    FeedOctet(m, 11, 0x8ccee452);
    assert m[..12] == m;
  }

  lemma NotAllOnes()
    ensures CrcOctets(0x92e4298a)[0] == 0x92
  {
  }

  /** The section that psi_pmt_section_init leaves for the program of this multiplexer is no valid section. */
  lemma FreshPmtIsRejected()
    ensures Section(PmtPayload(PmtInitial(PROGRAM_NUMBER))) == None
  {
    hide Section, PmtPayload, CrcOctets, Crc, PmtState.Body;
    FreshPmtHasNoCrc(PROGRAM_NUMBER);
    FreshSection();
    FreshCrc();
    NotAllOnes();
    assert Fill(4, 0xff)[0] == 0xff;
  }

  /** A receiver accepts the map section of this multiplexer exactly if some operation has been applied to it. */
  lemma AcceptedIffTouched(ops: seq<PmtOp>)
    requires |Added(ops)| <= MAX_STREAMS
    ensures var st := PmtAfter(PmtInitial(PROGRAM_NUMBER), ops);
            |st.es| <= MAX_STREAMS && (ParsePmt(PmtPayload(st)).Some? <==> ops != [])
  {
    hide Section, PmtPayload;
    if ops == [] {
      FreshPmtIsRejected();
    } else {
      PmtReadsBack(PROGRAM_NUMBER, ops);
    }
  }

  /** No map section damaged within four consecutive octets, its place and length intact, is taken for another one. */
  lemma DamagedPmtIsRejected(st: PmtState, damaged: seq<byte>, from: nat)
    requires |st.es| <= MAX_STREAMS && st.sealed
    requires var good := PmtPayload(st);
             && |damaged| == |good| && damaged[0] == good[0] && damaged[2..4] == good[2..4]
             && (forall i :: 0 <= i < |good| && damaged[i] != good[i] ==> from <= i < from + 4)
             && damaged[..17 + 5 * |st.es|] != good[..17 + 5 * |st.es|]
    ensures ParsePmt(damaged) == None
  {
    hide PmtBody, Section, Sealed, PmtPayload, Hi, Lo, Entries, PmtOfSection, LengthOctets, Fill;
    BodyFields(st);
    PayloadParts(st);
    CorruptionIsRejected(st.Body(), Fill(Spare(st), 0xff), damaged, from);
  }
}
