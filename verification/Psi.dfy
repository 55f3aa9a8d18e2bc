/**
 The program tables of src/psi.c: the program association section, written once, and
 the program map section, grown in place stream by stream (sections 2.4.4.3 and
 2.4.4.8 of ISO/IEC 13818-1).
 */
module Psi {
  import opened Octets
  import opened Crc32
  import opened CrcDetection

  const STREAM_TYPE_VIDEO_H264: byte := 0x1b
  const STREAM_TYPE_AUDIO_AAC: byte := 0x0f
  const STREAM_TYPE_RESERVED: byte := 0x00
  /** The program that the multiplexer announces. */
  const PROGRAM_NUMBER: bv16 := 0x16
  /** TS packet header, and the room it leaves for a section. */
  const HEADER: nat := 4
  const PAYLOAD: nat := 184

  function Hi(v: bv16): byte { (v >> 8) as byte }
  function Lo(v: bv16): byte { (v & 0xff) as byte }

  /** A 16-bit number, most significant octet first. */
  function IdOctets(id: bv16): (s: seq<byte>)
    ensures |s| == 2
  {
    [Hi(id), Lo(id)]
  }

  /** Three reserved bits and a 13-bit PID. */
  function PidOctets(pid: bv16): (s: seq<byte>)
    ensures |s| == 2
  {
    [0xe0 | Hi(pid), Lo(pid)]
  }

  /** section_syntax_indicator, a zero bit, two reserved bits and the section_length. */
  function LengthOctets(len: nat): (s: seq<byte>)
    ensures |s| == 2
  {
    [0xb0 | ByteOf(len / 256), ByteOf(len)]
  }

  // ----- the section header -----

  datatype SectionHead = SectionHead(tableId: byte, sectionLength: nat, id: bv16, version: byte,
                                     sectionNumber: byte, lastSectionNumber: byte)

  function NumberOctets(h: SectionHead): (s: seq<byte>)
    ensures |s| == 3
  {
    [0xc0 | (h.version << 1) | 0x01, h.sectionNumber, h.lastSectionNumber]
  }

  /** pointer_field and the eight octets common to all long sections. */
  function HeadOctets(h: SectionHead): (s: seq<byte>)
    ensures |s| == 9
  {
    [0, h.tableId] + LengthOctets(h.sectionLength) + IdOctets(h.id) + NumberOctets(h)
  }

  method SectionHeaderSet(buf: array<byte>, at: nat, h: SectionHead)
    requires at + 9 <= buf.Length
    modifies buf
    ensures buf[..] == Splice(old(buf[..]), at, HeadOctets(h))
  {
    ghost var was := buf[..];
    Put(buf, at, [0, h.tableId]);
    Put(buf, at + 2, [0xb0 | ByteOf(h.sectionLength / 256), ByteOf(h.sectionLength)]);
    SpliceAppend(was, at, [0, h.tableId], LengthOctets(h.sectionLength));
    Put(buf, at + 4, [Hi(h.id), Lo(h.id)]);
    SpliceAppend(was, at, [0, h.tableId] + LengthOctets(h.sectionLength), IdOctets(h.id));
    Put(buf, at + 6, [0xc0 | (h.version << 1) | 0x01, h.sectionNumber, h.lastSectionNumber]);
    SpliceAppend(was, at, [0, h.tableId] + LengthOctets(h.sectionLength) + IdOctets(h.id), NumberOctets(h));
  }

  // ----- the program association section -----

  function PatHead(): SectionHead {
    SectionHead(0, 0x0d, 0x01, 0, 0, 0)
  }

  /** pointer_field and section up to the CRC. */
  function PatBody(program: bv16, pmtPid: bv16): (s: seq<byte>)
    ensures |s| == 13
  {
    HeadOctets(PatHead()) + IdOctets(program) + PidOctets(pmtPid)
  }

  /** A section with its CRC, which does not cover the pointer_field. */
  function Sealed(body: seq<byte>): (s: seq<byte>)
    requires body != []
    ensures |s| == |body| + 4
  {
    body + CrcOctets(Crc(body[1..]))
  }

  /** Computes the CRC over the section behind the pointer_field and stores it behind the section. */
  method Seal(buf: array<byte>, at: nat, len: nat, ghost body: seq<byte>)
    requires 0 < len && at + len + 4 <= buf.Length
    requires buf[at..at + len] == body
    modifies buf
    ensures buf[..] == Splice(old(buf[..]), at, Sealed(body))
  {
    hide Splice, Crc;
    ghost var was := buf[..];
    SpliceSame(was, at, body);
    assert buf[at + 1..at + len] == body[1..];
    var crc := CalcCrc32(buf, at + 1, len - 1);
    Put(buf, at + len, [(crc >> 24) as byte, ((crc >> 16) & 0xff) as byte, ((crc >> 8) & 0xff) as byte, (crc & 0xff) as byte]);
    SpliceAppend(was, at, body, CrcOctets(crc));
  }

  lemma SpliceSame(s: seq<byte>, at: nat, t: seq<byte>)
    requires at + |t| <= |s| && s[at..at + |t|] == t
    ensures Splice(s, at, t) == s
  {
  }

  method PatSectionSet(buf: array<byte>, at: nat, program: bv16, pmtPid: bv16)
    requires at + 17 <= buf.Length
    modifies buf
    ensures buf[..] == Splice(old(buf[..]), at, Sealed(PatBody(program, pmtPid)))
  {
    ghost var was := buf[..];
    SectionHeaderSet(buf, at, PatHead());
    Put(buf, at + 9, [Hi(program), Lo(program)]);
    SpliceAppend(was, at, HeadOctets(PatHead()), IdOctets(program));
    Put(buf, at + 11, [0xe0 | Hi(pmtPid), Lo(pmtPid)]);
    SpliceAppend(was, at, HeadOctets(PatHead()) + IdOctets(program), PidOctets(pmtPid));
    SpliceThere(was, at, PatBody(program, pmtPid));
    Seal(buf, at, 13, PatBody(program, pmtPid));
    SpliceOver(was, at, PatBody(program, pmtPid), Sealed(PatBody(program, pmtPid)));
  }

  lemma SpliceThere(s: seq<byte>, at: nat, t: seq<byte>)
    requires at + |t| <= |s|
    ensures Splice(s, at, t)[at..at + |t|] == t
  {
  }

  lemma SpliceOver(s: seq<byte>, at: nat, t: seq<byte>, u: seq<byte>)
    requires |t| <= |u| && at + |u| <= |s|
    ensures Splice(Splice(s, at, t), at, u) == Splice(s, at, u)
  {
    assert Splice(s, at, t)[..at] == s[..at];
    assert Splice(s, at, t)[at + |u|..] == s[at + |u|..];
  }

  // ----- the program map section -----

  datatype Es = Es(streamType: byte, pid: bv16)

  function Entry(e: Es): (s: seq<byte>)
    ensures |s| == 5
  {
    [e.streamType, 0xe0 | Hi(e.pid), Lo(e.pid), 0xf0, 0]
  }

  function Entries(es: seq<Es>): (s: seq<byte>)
    ensures |s| == 5 * |es|
  {
    if es == [] then [] else Entry(es[0]) + Entries(es[1..])
  }

  lemma {:induction false} EntriesSnoc(es: seq<Es>, e: Es)
    ensures Entries(es + [e]) == Entries(es) + Entry(e)
  {
    if es == [] {
      assert es + [e] == [e];
      assert Entries([e]) == Entry(e) + Entries([]);
    } else {
      assert (es + [e])[1..] == es[1..] + [e];
      EntriesSnoc(es[1..], e);
    }
  }

  function PmtHead(program: bv16, streams: nat): SectionHead {
    SectionHead(0x02, 13 + 5 * streams, program, 0, 0, 0)
  }

  /** pointer_field and section up to the CRC, built at once. */
  function PmtBody(program: bv16, pcrPid: bv16, es: seq<Es>): (s: seq<byte>)
    ensures |s| == 13 + 5 * |es|
  {
    HeadOctets(PmtHead(program, |es|)) + PidOctets(pcrPid) + [0xf0, 0] + Entries(es)
  }

  /** What the section says; `sealed` once a CRC has been stored. */
  datatype PmtState = PmtState(program: bv16, pcrPid: bv16, es: seq<Es>, sealed: bool)
  {
    function Body(): (s: seq<byte>)
      ensures |s| == 13 + 5 * |es|
    {
      PmtBody(program, pcrPid, es)
    }
  }

  /** More streams than this and the section leaves its packet. */
  const MAX_STREAMS: nat := 33

  type OnePacketPmt = st: PmtState | |st.es| <= MAX_STREAMS witness PmtState(0, 0, [], false)

  /** The room left behind section and CRC. */
  function Spare(st: PmtState): nat
    requires |st.es| <= MAX_STREAMS
  {
    PAYLOAD - 17 - 5 * |st.es|
  }

  function CrcPlace(st: PmtState): (s: seq<byte>)
    ensures |s| == 4
  {
    if st.sealed then CrcOctets(Crc(st.Body()[1..])) else Fill(4, 0xff)
  }

  /** The whole payload of the PMT packet: section, CRC once there is one, then only stuffing. */
  function PmtPayload(st: PmtState): (s: seq<byte>)
    requires |st.es| <= MAX_STREAMS
    ensures |s| == PAYLOAD
  {
    st.Body() + CrcPlace(st) + Fill(Spare(st), 0xff)
  }

  function PmtInitial(program: bv16): PmtState {
    PmtState(program, 0, [], false)
  }

  datatype PmtOp = SetPcr(pid: bv16) | AddStream(e: Es)

  function PmtApply(st: PmtState, op: PmtOp): PmtState {
    match op
    case SetPcr(pid) => st.(pcrPid := pid, sealed := true)
    case AddStream(e) => st.(es := st.es + [e], sealed := true)
  }

  lemma FreshPmt(was: seq<byte>, program: bv16)
    requires |was| == HEADER + PAYLOAD && was[HEADER..] == Fill(PAYLOAD, 0xff)
    ensures Splice(was, HEADER, HeadOctets(PmtHead(program, 0)) + [0xe0, 0] + [0xf0, 0]) ==
            was[..HEADER] + PmtPayload(PmtInitial(program))
  {
    var st := PmtInitial(program);
    assert PidOctets(0) == [0xe0, 0];
    assert Entries([]) == [];
    assert st.Body() == HeadOctets(PmtHead(program, 0)) + [0xe0, 0] + [0xf0, 0];
    assert was[HEADER + 13..] == was[HEADER..][13..] == Fill(4, 0xff) + Fill(Spare(st), 0xff);
  }

  /** Sealing a body that lies in a packet before four octets and stuffing. */
  lemma SealInPlace(hdr: seq<byte>, st: PmtState, place: seq<byte>)
    requires |st.es| <= MAX_STREAMS && st.sealed && |place| == 4
    ensures var s := hdr + st.Body() + place + Fill(Spare(st), 0xff);
            && s[|hdr|..|hdr| + |st.Body()|] == st.Body()
            && Splice(s, |hdr|, Sealed(st.Body())) == hdr + PmtPayload(st)
  {
    var body, rest := st.Body(), Fill(Spare(st), 0xff);
    assert hdr + body + place + rest == hdr + (body + place) + rest;
    SpliceMiddle(hdr, body + place, rest, Sealed(body));
    assert hdr + Sealed(body) + rest == hdr + (Sealed(body) + rest);
  }

  /** Storing a new PCR PID turns the body into the one built with it. */
  lemma StorePcr(hdr: seq<byte>, st: PmtState, pid: bv16)
    requires |st.es| <= MAX_STREAMS
    ensures Splice(hdr + PmtPayload(st), |hdr| + 9, PidOctets(pid)) ==
            hdr + PmtApply(st, SetPcr(pid)).Body() + CrcPlace(st) + Fill(Spare(st), 0xff)
  {
    var head := HeadOctets(PmtHead(st.program, |st.es|));
    var tail := [0xf0, 0] + Entries(st.es);
    var rest := CrcPlace(st) + Fill(Spare(st), 0xff);
    assert st.Body() == head + PidOctets(st.pcrPid) + tail;
    assert PmtApply(st, SetPcr(pid)).Body() == head + PidOctets(pid) + tail;
    PcrPieces(hdr, head, PidOctets(st.pcrPid), PidOctets(pid), tail, CrcPlace(st), Fill(Spare(st), 0xff));
  }

  lemma PcrPieces(hdr: seq<byte>, head: seq<byte>, was: seq<byte>, now: seq<byte>, tail: seq<byte>,
                  place: seq<byte>, rest: seq<byte>)
    requires |was| == |now|
    ensures Splice(hdr + (head + was + tail + place + rest), |hdr| + |head|, now) ==
            hdr + (head + now + tail) + place + rest
  {
    var behind := tail + place + rest;
    PcrRegroup(hdr, head, was, tail, place, rest);
    SpliceMiddle(hdr + head, was, behind, now);
    assert hdr + head + now + behind == hdr + (head + now + tail) + place + rest;
  }

  lemma PcrRegroup(hdr: seq<byte>, head: seq<byte>, pcr: seq<byte>, tail: seq<byte>, place: seq<byte>, rest: seq<byte>)
    ensures hdr + (head + pcr + tail + place + rest) == hdr + head + pcr + (tail + place + rest)
  {
    assert head + pcr + tail + place + rest == head + pcr + (tail + place + rest);
    assert hdr + (head + pcr) == hdr + head + pcr;
  }

  /** What lies between the length and the stream entries. */
  function Middle(st: PmtState): (s: seq<byte>)
    ensures |s| == 9
  {
    IdOctets(st.program) + NumberOctets(PmtHead(st.program, 0)) + PidOctets(st.pcrPid) + [0xf0, 0]
  }

  lemma BodyPieces(st: PmtState)
    ensures st.Body() == [0, 0x02] + LengthOctets(13 + 5 * |st.es|) + (Middle(st) + Entries(st.es))
  {
    assert NumberOctets(PmtHead(st.program, 0)) == NumberOctets(PmtHead(st.program, |st.es|));
  }

  lemma FillAppend(m: nat, n: nat)
    ensures Fill(m + n, 0xff) == Fill(m, 0xff) + Fill(n, 0xff)
  {
  }

  /** Storing the longer length and one more entry, over the old CRC, turns it into the body with that stream. */
  lemma StoreEntry(hdr: seq<byte>, st: PmtState, e: Es)
    requires |st.es| < MAX_STREAMS
    ensures var next := PmtApply(st, AddStream(e));
            var longer := Splice(hdr + PmtPayload(st), |hdr| + 2, LengthOctets(18 + 5 * |st.es|));
            Splice(longer, |hdr| + 13 + 5 * |st.es|, Entry(e)) ==
            hdr + next.Body() + Fill(4, 0xff) + Fill(Spare(next), 0xff)
  {
    hide LengthOctets, Entry, Entries, NumberOctets, IdOctets, PidOctets, CrcPlace, PmtBody, Fill;
    var next := PmtApply(st, AddStream(e));
    var lead, middle := [0, 0x02], Middle(st) + Entries(st.es);
    var was, now := LengthOctets(13 + 5 * |st.es|), LengthOctets(18 + 5 * |st.es|);
    var rest := Fill(4, 0xff) + Fill(Spare(next), 0xff);
    BodyPieces(st);
    FillAppend(4, Spare(next));
    FillAppend(1, 4 + Spare(next));
    EntryPieces(hdr, lead, was, now, middle, CrcPlace(st), Fill(1, 0xff), rest, Entry(e));
    BodyPieces(next);
    EntriesSnoc(st.es, e);
    Regroup(lead + now, Middle(st), Entries(st.es), Entry(e));
    assert hdr + next.Body() + rest == hdr + next.Body() + Fill(4, 0xff) + Fill(Spare(next), 0xff);
  }

  lemma Regroup(a: seq<byte>, b: seq<byte>, c: seq<byte>, d: seq<byte>)
    ensures a + (b + (c + d)) == a + (b + c) + d
  {
  }

  lemma EntryPieces(hdr: seq<byte>, lead: seq<byte>, was: seq<byte>, now: seq<byte>, middle: seq<byte>,
                    place: seq<byte>, one: seq<byte>, rest: seq<byte>, entry: seq<byte>)
    requires |was| == |now| && |entry| == |place| + |one|
    ensures var longer := Splice(hdr + (lead + was + middle + place + (one + rest)), |hdr| + |lead|, now);
            Splice(longer, |hdr| + |lead| + |now| + |middle|, entry) == hdr + (lead + now + middle + entry) + rest
  {
    var behind := middle + place + (one + rest);
    assert hdr + (lead + was + middle + place + (one + rest)) == (hdr + lead) + was + behind;
    SpliceMiddle(hdr + lead, was, behind, now);
    assert (hdr + lead) + now + behind == (hdr + lead + now + middle) + (place + one) + rest;
    SpliceMiddle(hdr + lead + now + middle, place + one, rest, entry);
  }

  method LengthSet(data: array<byte>, len: nat)
    requires HEADER + 4 <= data.Length
    modifies data
    ensures data[..] == Splice(old(data[..]), HEADER + 2, LengthOctets(len))
  {
    Put(data, HEADER + 2, [0xb0 | ByteOf(len / 256), ByteOf(len)]);
  }

  method EntrySet(data: array<byte>, at: nat, streamType: byte, pid: bv16)
    requires at + 5 <= data.Length
    modifies data
    ensures data[..] == Splice(old(data[..]), at, Entry(Es(streamType, pid)))
  {
    Put(data, at, [streamType, 0xe0 | Hi(pid), Lo(pid), 0xf0, 0]);
  }

  class PmtSection {
    /** The PMT packet; the section starts behind its header. */
    const data: array<byte>
    var sectionLength: nat
    var programNumber: bv16
    var pcrPid: bv16
    var videoPid: bv16
    var videoStreamType: byte
    var audioPid: bv16
    var audioStreamType: byte

    ghost var state: OnePacketPmt

    ghost predicate Valid()
      reads this, data
    {
      && data.Length == HEADER + PAYLOAD
      && |state.es| <= MAX_STREAMS
      && sectionLength == 13 + 5 * |state.es|
      && programNumber == state.program
      && pcrPid == state.pcrPid
      && data[HEADER..] == PmtPayload(state)
    }

    constructor (packet: array<byte>, program: bv16)
      requires packet.Length == HEADER + PAYLOAD && packet[HEADER..] == Fill(PAYLOAD, 0xff)
      modifies packet
      ensures Valid() && data == packet && state == PmtInitial(program)
      ensures packet[..HEADER] == old(packet[..HEADER])
      ensures videoPid == 0 && videoStreamType == STREAM_TYPE_RESERVED
      ensures audioPid == 0 && audioStreamType == STREAM_TYPE_RESERVED
    {
      data := packet;
      sectionLength := 0x0d;
      programNumber := program;
      pcrPid := 0;
      videoPid := 0;
      videoStreamType := STREAM_TYPE_RESERVED;
      audioPid := 0;
      audioStreamType := STREAM_TYPE_RESERVED;
      state := PmtInitial(program);
      new;
      ghost var was := packet[..];
      SectionHeaderSet(packet, HEADER, PmtHead(program, 0));
      Put(packet, HEADER + 9, [0xe0, 0x00]);
      SpliceAppend(was, HEADER, HeadOctets(PmtHead(program, 0)), [0xe0, 0x00]);
      Put(packet, HEADER + 11, [0xf0, 0x00]);
      SpliceAppend(was, HEADER, HeadOctets(PmtHead(program, 0)) + [0xe0, 0x00], [0xf0, 0x00]);
      FreshPmt(was, program);
    }

    method PcrPidSet(pid: bv16)
      requires Valid()
      modifies this`pcrPid, this`state, data
      ensures Valid() && state == PmtApply(old(state), SetPcr(pid))
      ensures data[..HEADER] == old(data[..HEADER])
    {
      hide PmtBody, CrcPlace, CrcOctets, Sealed, Fill, ByteOf, Hi, Lo, Splice;
      ghost var hdr, next := data[..HEADER], PmtApply(state, SetPcr(pid));
      assert data[..] == hdr + PmtPayload(state);
      StorePcr(hdr, state, pid);
      SealInPlace(hdr, next, CrcPlace(state));
      pcrPid := pid;
      Put(data, HEADER + 9, [0xe0 | Hi(pid), Lo(pid)]);
      Seal(data, HEADER, sectionLength, next.Body());
      state := next;
    }

    method StreamAdd(streamType: byte, pid: bv16)
      requires Valid() && |state.es| < MAX_STREAMS
      requires streamType == STREAM_TYPE_VIDEO_H264 || streamType == STREAM_TYPE_AUDIO_AAC
      modifies this`sectionLength, this`videoPid, this`videoStreamType, this`audioPid, this`audioStreamType,
               this`state, data
      ensures Valid() && state == PmtApply(old(state), AddStream(Es(streamType, pid)))
      ensures data[..HEADER] == old(data[..HEADER])
      ensures if streamType == STREAM_TYPE_VIDEO_H264
              then videoPid == pid && videoStreamType == streamType && unchanged(`audioPid, `audioStreamType)
              else audioPid == pid && audioStreamType == streamType && unchanged(`videoPid, `videoStreamType)
    {
      hide PmtBody, CrcPlace, Sealed, Fill, LengthOctets, Entry, Splice;
      ghost var hdr, next := data[..HEADER], PmtApply(state, AddStream(Es(streamType, pid)));
      assert data[..] == hdr + PmtPayload(state);
      StoreEntry(hdr, state, Es(streamType, pid));
      SealInPlace(hdr, next, Fill(4, 0xff));
      sectionLength := sectionLength + 5;
      LengthSet(data, sectionLength);
      if streamType == STREAM_TYPE_VIDEO_H264 {
        videoPid := pid;
        videoStreamType := streamType;
      } else {
        audioPid := pid;
        audioStreamType := streamType;
      }
      EntrySet(data, HEADER + sectionLength - 5, streamType, pid);
      Seal(data, HEADER, sectionLength, next.Body());
      state := next;
    }
  }
}
