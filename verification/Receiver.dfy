/**
 A demultiplexer, written from sections 2.4.3.2 to 2.4.3.7 of ISO/IEC 13818-1 and not
 from the multiplexer: pick out the packets of one PID, drop headers and adaptation
 fields, join the payloads into units that begin at a payload_unit_start_indicator, and
 parse every unit as a PES packet. Run on the output of the multiplexer it gives back
 the frames.
 */
module Receiver {
  import opened Octets
  import opened Wrappers
  import opened Psi
  import opened Pes
  import opened Transport
  import opened Packetizer
  import opened Schedule

  // ----- the demultiplexer -----

  /** What a packet contributes to a PID. */
  function Picked(p: seq<byte>, pid: bv16): seq<Ts> {
    var t := ParseTs(p);
    if t.Some? && t.value.pid == pid then [t.value] else []
  }

  /** The readable packets of one PID, in order. */
  function Select(trace: seq<seq<byte>>, pid: bv16): seq<Ts>
    decreases |trace|
  {
    if trace == [] then [] else Picked(trace[0], pid) + Select(trace[1..], pid)
  }

  /** One packet more: it begins a unit or lengthens the last one; octets before the first start are lost. */
  function Extend(us: seq<seq<byte>>, t: Ts): seq<seq<byte>> {
    if t.start then us + [t.payload]
    else if us == [] then []
    else us[..|us| - 1] + [us[|us| - 1] + t.payload]
  }

  /** The units that a receiver has collected after these packets. */
  function Units(ts: seq<Ts>): seq<seq<byte>>
    decreases |ts|
  {
    if ts == [] then [] else Extend(Units(ts[..|ts| - 1]), ts[|ts| - 1])
  }

  function ParseUnits(us: seq<seq<byte>>, strict: bool): (r: seq<Option<PesPacket>>)
    ensures |r| == |us|
  {
    if us == [] then [] else [ParsePes(us[0], strict)] + ParseUnits(us[1..], strict)
  }

  /** What a receiver makes of a trace: one entry a unit, None where the unit is no PES packet. */
  function Demux(trace: seq<seq<byte>>, pid: bv16, strict: bool): seq<Option<PesPacket>> {
    ParseUnits(Units(Select(trace, pid)), strict)
  }

  // ----- selecting -----

  lemma {:induction false} SelectAppend(a: seq<seq<byte>>, b: seq<seq<byte>>, pid: bv16)
    ensures Select(a + b, pid) == Select(a, pid) + Select(b, pid)
    decreases |a|
  {
    hide ParseTs;
    if a == [] {
      assert a + b == b;
    } else {
      assert (a + b)[1..] == a[1..] + b;
      SelectAppend(a[1..], b, pid);
    }
  }

  /** Packets that are read as packets of one PID are selected for that PID and for no other. */
  lemma {:induction false} SelectReadAs(ps: seq<seq<byte>>, ts: seq<Ts>, own: bv16, pid: bv16)
    requires ReadAs(ps, ts) && forall t :: t in ts ==> t.pid == own
    ensures Select(ps, pid) == if pid == own then ts else []
    decreases |ps|
  {
    hide ParseTs;
    if ps != [] {
      assert ts[0] in ts;
      SelectReadAs(ps[1..], ts[1..], own, pid);
      assert ts == [ts[0]] + ts[1..];
    }
  }

  lemma {:induction false} NextTsPid(pid: bv16, k: nat, data: seq<byte>)
    ensures forall t :: t in NextTs(pid, k, data) ==> t.pid == pid && !t.start && t.pcr == None
    decreases |data|
  {
    hide Cc;
    if data != [] {
      NextTsPid(pid, k + 1, data[NextTake(|data|)..]);
    }
  }

  lemma FrameTsPid(ch: Channel, k: nat, pts: nat, data: seq<byte>)
    ensures forall t :: t in FrameTs(ch, k, pts, data) ==> t.pid == ch.pid
  {
    hide Cc, PesFront;
    NextTsPid(ch.pid, k + 1, data[Taken(ch.pcr, |data|)..]);
  }

  lemma ChannelsAreChannels(setup: Setup, kind: Kind)
    ensures IsChannel(ChannelOf(setup, kind))
  {
  }

  function PidOf(kind: Kind): bv16 {
    match kind
    case Video => 0x0040
    case Audio => 0x0041
  }

  /** The packets of a frame as a receiver reads them. */
  function SentTs(setup: Setup, st: State, f: Frame): seq<Ts> {
    FrameTs(ChannelOf(setup, f.kind), CountOf(st, f.kind).packets, MpegTime(f.time), f.data)
  }

  lemma SelectSent(setup: Setup, st: State, f: Frame, pid: bv16)
    ensures Select(Sent(setup, st, f), pid) == if pid == PidOf(f.kind) then SentTs(setup, st, f) else []
    ensures |Sent(setup, st, f)| == |SentTs(setup, st, f)|
  {
    hide FramePackets, FrameTs, MpegTime, Select, IsChannel;
    var ch, k, pts := ChannelOf(setup, f.kind), CountOf(st, f.kind).packets, MpegTime(f.time);
    ChannelsAreChannels(setup, f.kind);
    FrameReads(ch, k, pts, f.data);
    FrameTsPid(ch, k, pts, f.data);
    SelectReadAs(FramePackets(ch, k, pts, f.data), FrameTs(ch, k, pts, f.data), ch.pid, pid);
  }

  // ----- the packets that carry no frame -----

  function PatTs(k: nat): Ts {
    Ts(PAT_PID, true, true, Cc(k), None, PatPayload())
  }

  function PmtTs(setup: Setup, k: nat): Ts {
    Ts(PMT_PID, true, true, Cc(k), None, PmtPayload(setup.pmt))
  }

  function NullTs(): Ts {
    Ts(NULL_PID, false, false, 0, None, Fill(PAYLOAD, 0xff))
  }

  lemma TablesRead(setup: Setup, k: nat)
    ensures ParseTs(PatPacket(k)) == Some(PatTs(k)) && ParseTs(PmtPacket(setup.pmt, k)) == Some(PmtTs(setup, k))
  {
    hide HeaderOctets, PatPayload, PmtPayload, ParseTs, Cc;
    PlainPacketReads(PAT_PID, true, k, PatPayload());
    PlainPacketReads(PMT_PID, true, k, PmtPayload(setup.pmt));
  }

  lemma NullReads()
    ensures ParseTs(NullPacket()) == Some(NullTs())
  {
    var p := NullPacket();
    assert p[HEADER..] == Fill(PAYLOAD, 0xff);
    assert p[0] == 0x47 && p[1] == 0x1f && p[2] == 0xff && p[3] == 0x10;
    NullHeader();
  }

  lemma NullHeader()
    ensures Readable(0x47, 0x1f, 0x10) && ReadPid(0x1f, 0xff) == NULL_PID
    ensures (0x1f as byte) & 0x40 == 0 && (0x1f as byte) & 0x20 == 0 && (0x10 as byte) & 0x0f == 0 && (0x10 as byte) & 0x20 == 0
  {
  }

  function Repeat(n: nat, t: Ts): (ts: seq<Ts>)
    ensures |ts| == n
  {
    seq(n, _ => t)
  }

  lemma {:induction false} SelectNulls(n: nat, pid: bv16)
    ensures Select(Nulls(n), pid) == if pid == NULL_PID then Repeat(n, NullTs()) else []
  {
    hide ParseTs, NullPacket;
    if n > 0 {
      NullReads();
      SelectNulls(n - 1, pid);
      assert Nulls(n)[1..] == Nulls(n - 1) && Nulls(n)[0] == NullPacket();
      assert Repeat(n, NullTs()) == [NullTs()] + Repeat(n - 1, NullTs());
    }
  }

  function OpeningTs(setup: Setup, st: State, pid: bv16): seq<Ts> {
    if pid == NULL_PID then Repeat(Padding(st), NullTs())
    else if pid == PAT_PID then [PatTs(st.gops)]
    else if pid == PMT_PID then [PmtTs(setup, st.gops)]
    else []
  }

  lemma SelectTwo(p: seq<byte>, q: seq<byte>, t: Ts, u: Ts, pid: bv16)
    requires ParseTs(p) == Some(t) && ParseTs(q) == Some(u)
    ensures Select([p, q], pid) == (if t.pid == pid then [t] else []) + (if u.pid == pid then [u] else [])
  {
    hide ParseTs;
    assert [p, q][1..] == [q];
    assert [q][1..] == [];
    assert Select([q], pid) == (if u.pid == pid then [u] else []) + [];
  }

  lemma SelectOpening(setup: Setup, st: State, pid: bv16)
    ensures Select(Opening(setup, st), pid) == OpeningTs(setup, st, pid)
  {
    hide Select, PatPacket, PmtPacket, PatPayload, PmtPayload, NullTs, Nulls, Cc, Repeat;
    TablesRead(setup, st.gops);
    SelectNulls(Padding(st), pid);
    SelectTwo(PatPacket(st.gops), PmtPacket(setup.pmt, st.gops), PatTs(st.gops), PmtTs(setup, st.gops), pid);
    SelectAppend(Nulls(Padding(st)), [PatPacket(st.gops), PmtPacket(setup.pmt, st.gops)], pid);
  }

  /** What one frame adds to the packets of a PID. */
  function EmittedTs(setup: Setup, st: State, f: Frame, pid: bv16): seq<Ts> {
    if !Accepts(st, f) then []
    else (if IsIdr(f) then OpeningTs(setup, st, pid) else []) + (if pid == PidOf(f.kind) then SentTs(setup, st, f) else [])
  }

  lemma SelectEmitted(setup: Setup, st: State, f: Frame, pid: bv16)
    ensures Select(Emitted(setup, st, f), pid) == EmittedTs(setup, st, f, pid)
  {
    hide Sent, SentTs, Opening, OpeningTs, Select;
    SelectSent(setup, st, f, pid);
    if !Accepts(st, f) {
      assert Select([], pid) == [] by { SelectNothing(pid); }
    } else if IsIdr(f) {
      SelectOpening(setup, st, pid);
      SelectAppend(Opening(setup, st), Sent(setup, st, f), pid);
    } else {
      assert [] + Sent(setup, st, f) == Sent(setup, st, f);
    }
  }

  lemma SelectNothing(pid: bv16)
    ensures Select([], pid) == []
  {
  }

  /** The packets of one PID in a whole run. */
  function RunTs(setup: Setup, st: State, fs: seq<Frame>, pid: bv16): seq<Ts>
    decreases |fs|
  {
    if fs == [] then [] else EmittedTs(setup, st, fs[0], pid) + RunTs(setup, After(setup, st, fs[0]), fs[1..], pid)
  }

  lemma {:induction false} SelectTrace(setup: Setup, st: State, fs: seq<Frame>, pid: bv16)
    ensures Select(Trace(setup, st, fs), pid) == RunTs(setup, st, fs, pid)
    decreases |fs|
  {
    hide Emitted, EmittedTs, After, Select;
    if fs == [] {
      SelectNothing(pid);
    } else {
      var next := After(setup, st, fs[0]);
      SelectEmitted(setup, st, fs[0], pid);
      SelectTrace(setup, next, fs[1..], pid);
      SelectAppend(Emitted(setup, st, fs[0]), Trace(setup, next, fs[1..]), pid);
    }
  }

  // ----- units -----

  /** The unit that the packets of a frame join to. */
  function UnitOf(ch: Channel, pts: nat, data: seq<byte>): seq<byte> {
    Stray(ch, |data|) + PesHeader(FrameInfo(ch.streamId, |data|, pts)) + data
  }

  lemma UnitsSnoc(ts: seq<Ts>, t: Ts)
    ensures Units(ts + [t]) ==
            var before := Units(ts);
            if t.start then before + [t.payload]
            else if before == [] then []
            else before[..|before| - 1] + [before[|before| - 1] + t.payload]
  {
    assert (ts + [t])[..|ts|] == ts;
  }

  lemma OneNext(ts: seq<Ts>, us: seq<seq<byte>>, u: seq<byte>, t: Ts)
    requires Units(ts) == us + [u] && !t.start
    ensures Units(ts + [t]) == us + [u + t.payload]
  {
    hide Units;
    UnitsSnoc(ts, t);
    assert (us + [u])[..|us|] == us;
  }

  /** Packets without a start lengthen the last unit. */
  lemma {:induction false} UnitsNext(ts: seq<Ts>, us: seq<seq<byte>>, u: seq<byte>, pid: bv16, k: nat, data: seq<byte>)
    requires Units(ts) == us + [u]
    ensures Units(ts + NextTs(pid, k, data)) == us + [u + data]
    decreases |data|
  {
    hide Cc, Units;
    if data == [] {
      assert ts + [] == ts;
      assert u + [] == u;
    } else {
      var take := NextTake(|data|);
      var t, rest := Ts(pid, false, true, Cc(k), None, data[..take]), data[take..];
      OneNext(ts, us, u, t);
      UnitsNext(ts + [t], us, u + data[..take], pid, k + 1, rest);
      assert ts + NextTs(pid, k, data) == ts + [t] + NextTs(pid, k + 1, rest);
      assert u + data[..take] + rest == u + data;
    }
  }

  /** The packets of a frame are one new unit. */
  lemma UnitsFrame(ts: seq<Ts>, ch: Channel, k: nat, pts: nat, data: seq<byte>)
    ensures Units(ts + FrameTs(ch, k, pts, data)) == Units(ts) + [UnitOf(ch, pts, data)]
  {
    hide Cc, Units, PesHeader, NextTs, Stray;
    var first, rest := FirstTs(ch, k, pts, data), data[Taken(ch.pcr, |data|)..];
    UnitsSnoc(ts, first);
    UnitsNext(ts + [first], Units(ts), first.payload, ch.pid, k + 1, rest);
    assert ts + FrameTs(ch, k, pts, data) == ts + [first] + NextTs(ch.pid, k + 1, rest);
    assert first.payload + rest == UnitOf(ch, pts, data);
  }

  /** The accepted frames of one kind in a run, in order. */
  function Accepted(setup: Setup, st: State, fs: seq<Frame>, kind: Kind): seq<Frame>
    decreases |fs|
  {
    if fs == [] then []
    else (if fs[0].kind == kind && Accepts(st, fs[0]) then [fs[0]] else [])
         + Accepted(setup, After(setup, st, fs[0]), fs[1..], kind)
  }

  function FrameUnits(ch: Channel, fs: seq<Frame>): (us: seq<seq<byte>>)
    ensures |us| == |fs|
  {
    if fs == [] then [] else [UnitOf(ch, MpegTime(fs[0].time), fs[0].data)] + FrameUnits(ch, fs[1..])
  }

  lemma DifferentPids(kind: Kind)
    ensures PidOf(kind) != NULL_PID && PidOf(kind) != PAT_PID && PidOf(kind) != PMT_PID
    ensures forall other: Kind :: other != kind ==> PidOf(other) != PidOf(kind)
  {
  }

  lemma EmittedForStream(setup: Setup, st: State, f: Frame, kind: Kind)
    ensures EmittedTs(setup, st, f, PidOf(kind)) ==
            if f.kind == kind && Accepts(st, f) then SentTs(setup, st, f) else []
  {
    hide SentTs, PidOf, Accepts;
    DifferentPids(kind);
    assert [] + SentTs(setup, st, f) == SentTs(setup, st, f);
  }

  lemma {:induction false} UnitsRun(setup: Setup, st: State, fs: seq<Frame>, kind: Kind, ts: seq<Ts>)
    ensures Units(ts + RunTs(setup, st, fs, PidOf(kind))) ==
            Units(ts) + FrameUnits(ChannelOf(setup, kind), Accepted(setup, st, fs, kind))
    decreases |fs|
  {
    hide EmittedTs, After, Units, UnitOf, PidOf, MpegTime, FrameTs, Accepts;
    if fs == [] {
      assert ts + [] == ts;
      assert Units(ts) + [] == Units(ts);
    } else {
      var f, next := fs[0], After(setup, st, fs[0]);
      var rest := RunTs(setup, next, fs[1..], PidOf(kind));
      EmittedForStream(setup, st, f, kind);
      if f.kind == kind && Accepts(st, f) {
        UnitsFrame(ts, ChannelOf(setup, kind), CountOf(st, kind).packets, MpegTime(f.time), f.data);
        UnitsRun(setup, next, fs[1..], kind, ts + SentTs(setup, st, f));
        assert ts + (SentTs(setup, st, f) + rest) == ts + SentTs(setup, st, f) + rest;
        FrameUnitsCons(ChannelOf(setup, kind), f, Accepted(setup, next, fs[1..], kind), Units(ts));
      } else {
        UnitsRun(setup, next, fs[1..], kind, ts);
        assert [] + rest == rest;
        assert [] + Accepted(setup, next, fs[1..], kind) == Accepted(setup, next, fs[1..], kind);
      }
    }
  }

  lemma FrameUnitsCons(ch: Channel, f: Frame, fs: seq<Frame>, us: seq<seq<byte>>)
    ensures us + FrameUnits(ch, [f] + fs) == us + [UnitOf(ch, MpegTime(f.time), f.data)] + FrameUnits(ch, fs)
  {
    hide UnitOf, MpegTime;
    assert ([f] + fs)[1..] == fs;
  }

  // ----- frames -----

  /** A frame as it should come out of the demultiplexer. */
  function Recovered(ch: Channel, f: Frame): PesPacket {
    PesPacket(ch.streamId, 0x00, DeclaredLength(ch.streamId, |f.data|), Some(MpegTime(f.time) % TWO_33), f.data)
  }

  /**
   The frames that survive: not of the one size that misplaces the PES header and, for a
   strict receiver, not too long for the length field of their stream.
   */
  predicate Survives(ch: Channel, f: Frame, strict: bool) {
    !Misfit(ch, |f.data|) && (strict ==> LengthRepresentable(ch.streamId, |f.data|))
  }

  lemma UnitParses(ch: Channel, f: Frame, strict: bool)
    requires IsChannel(ch)
    ensures ParsePes(UnitOf(ch, MpegTime(f.time), f.data), strict) ==
            if Survives(ch, f, strict) then Some(Recovered(ch, f)) else None
  {
    hide PesHeader, ParsePes, MpegTime;
    var info := FrameInfo(ch.streamId, |f.data|, MpegTime(f.time));
    if Misfit(ch, |f.data|) {
      MisplacedIsNoPes(0x00, info, f.data, strict);
    } else {
      PesBack(ch.streamId, MpegTime(f.time), f.data, strict);
      assert [] + PesHeader(info) == PesHeader(info);
    }
  }

  function RecoveredAll(ch: Channel, fs: seq<Frame>, strict: bool): (r: seq<Option<PesPacket>>)
    ensures |r| == |fs|
    ensures forall i :: 0 <= i < |fs| ==> r[i] == if Survives(ch, fs[i], strict) then Some(Recovered(ch, fs[i])) else None
  {
    seq(|fs|, i requires 0 <= i < |fs| => if Survives(ch, fs[i], strict) then Some(Recovered(ch, fs[i])) else None)
  }

  lemma {:induction false} ParseFrameUnits(ch: Channel, fs: seq<Frame>, strict: bool)
    requires IsChannel(ch)
    ensures ParseUnits(FrameUnits(ch, fs), strict) == RecoveredAll(ch, fs, strict)
    decreases |fs|
  {
    hide UnitOf, ParsePes, Survives, Recovered, MpegTime;
    if fs != [] {
      UnitParses(ch, fs[0], strict);
      ParseFrameUnits(ch, fs[1..], strict);
      assert RecoveredAll(ch, fs, strict)[1..] == RecoveredAll(ch, fs[1..], strict);
    }
  }

  /**
   The demultiplexer inverts the multiplexer, over every run from every state: per stream and in
   order it returns one entry for each accepted frame, the frame itself if it survives and an
   unreadable unit if it does not. A lost frame costs no other frame.
   */
  lemma DemuxInvertsMux(setup: Setup, st: State, fs: seq<Frame>, kind: Kind, strict: bool)
    ensures Demux(Trace(setup, st, fs), PidOf(kind), strict) ==
            RecoveredAll(ChannelOf(setup, kind), Accepted(setup, st, fs, kind), strict)
  {
    hide Trace, RunTs, Units, Accepted, FrameUnits, Select, ParseUnits, RecoveredAll, IsChannel;
    SelectTrace(setup, st, fs, PidOf(kind));
    UnitsRun(setup, st, fs, kind, []);
    assert [] + RunTs(setup, st, fs, PidOf(kind)) == RunTs(setup, st, fs, PidOf(kind));
    NoUnits();
    assert [] + FrameUnits(ChannelOf(setup, kind), Accepted(setup, st, fs, kind))
        == FrameUnits(ChannelOf(setup, kind), Accepted(setup, st, fs, kind));
    ChannelsAreChannels(setup, kind);
    ParseFrameUnits(ChannelOf(setup, kind), Accepted(setup, st, fs, kind), strict);
  }

  lemma NoUnits()
    ensures Units([]) == []
  {
  }

  /** The frames from the first video frame on come back unharmed exactly if each of them has a size that survives. */
  lemma AllFramesRecoveredIff(setup: Setup, fs: seq<Frame>, kind: Kind, strict: bool)
    ensures var ch, accepted := ChannelOf(setup, kind), OfKind(FromFirstVideo(fs), kind);
            Demux(Trace(setup, START, fs), PidOf(kind), strict)
              == seq(|accepted|, i requires 0 <= i < |accepted| => Some(Recovered(ch, accepted[i])))
            <==> forall i :: 0 <= i < |accepted| ==> Survives(ch, accepted[i], strict)
  {
    hide Trace, Accepted, Demux, Survives, Recovered, OfKind, FromFirstVideo;
    var ch, accepted := ChannelOf(setup, kind), OfKind(FromFirstVideo(fs), kind);
    AcceptedFromStart(setup, fs, kind);
    DemuxInvertsMux(setup, START, fs, kind, strict);
    var got := RecoveredAll(ch, accepted, strict);
    var want := seq(|accepted|, i requires 0 <= i < |accepted| => Some(Recovered(ch, accepted[i])));
    if got == want {
      forall i | 0 <= i < |accepted| ensures Survives(ch, accepted[i], strict) {
        assert got[i] == want[i];
      }
    }
  }

  // ----- which frames are accepted -----

  function OfKind(fs: seq<Frame>, kind: Kind): seq<Frame> {
    if fs == [] then [] else (if fs[0].kind == kind then [fs[0]] else []) + OfKind(fs[1..], kind)
  }

  /** The run from its first video frame on. */
  function FromFirstVideo(fs: seq<Frame>): seq<Frame> {
    if fs == [] || fs[0].kind.Video? then fs else FromFirstVideo(fs[1..])
  }

  lemma SomethingIsSent(setup: Setup, st: State, f: Frame)
    requires Accepts(st, f)
    ensures After(setup, st, f).packets > 0
  {
    hide FirstPacket, NextPackets, MpegTime;
  }

  lemma {:induction false} AcceptedOnceRunning(setup: Setup, st: State, fs: seq<Frame>, kind: Kind)
    requires st.packets > 0
    ensures Accepted(setup, st, fs, kind) == OfKind(fs, kind)
    decreases |fs|
  {
    hide After;
    if fs != [] {
      SomethingIsSent(setup, st, fs[0]);
      AcceptedOnceRunning(setup, After(setup, st, fs[0]), fs[1..], kind);
    }
  }

  /** All video is accepted, and all audio behind the first video frame. */
  lemma {:induction false} AcceptedFromStart(setup: Setup, fs: seq<Frame>, kind: Kind)
    ensures Accepted(setup, START, fs, kind) == OfKind(FromFirstVideo(fs), kind)
    decreases |fs|
  {
    if fs != [] {
      if fs[0].kind.Video? {
        SomethingIsSent(setup, START, fs[0]);
        hide After;
        AcceptedOnceRunning(setup, After(setup, START, fs[0]), fs[1..], kind);
      } else {
        assert After(setup, START, fs[0]) == START;
        AcceptedFromStart(setup, fs[1..], kind);
      }
    }
  }

  lemma {:induction false} VideoFromFirstVideo(fs: seq<Frame>)
    ensures OfKind(FromFirstVideo(fs), Video) == OfKind(fs, Video)
  {
    if fs != [] && !fs[0].kind.Video? {
      VideoFromFirstVideo(fs[1..]);
    }
  }

  // ----- the same in plain numbers -----

  /** Which frames come back: not one of 169 octets without PCR and, for a strict receiver, no audio above 65527 octets. */
  predicate ComesBack(kind: Kind, n: nat, pcr: bool, strict: bool) {
    (pcr || n != 169) && (strict && kind.Audio? ==> n <= 65527)
  }

  /** What a receiver should find in the PES packet of a frame. */
  ghost predicate IsPacketOf(u: PesPacket, f: Frame, kind: Kind) {
    && u.data == f.data && u.indicators == 0x00
    && u.streamId == (if kind.Video? then 0xe0 else 0xc0)
    && u.length == (if kind.Video? then 0 else (|f.data| + 8) % 0x1_0000)
    && u.pts.Some? && forall p: nat :: IsTicks(p, f.time) ==> u.pts.value == p % 0x2_0000_0000
  }

  lemma RecoveredPlainly(setup: Setup, kind: Kind, f: Frame, strict: bool)
    ensures var ch := ChannelOf(setup, kind);
            && Survives(ch, f, strict) == ComesBack(kind, |f.data|, if kind.Video? then setup.videoPcr else setup.audioPcr, strict)
            && IsPacketOf(Recovered(ch, f), f, kind)
  {
    hide MpegTime, IsTicks;
    forall p: nat | IsTicks(p, f.time) ensures p == MpegTime(f.time) {
      TicksUnique(p, MpegTime(f.time), f.time);
    }
  }

  /** Every frame from the first video frame on comes back with its data, its time and its stream, if its size is one that does. */
  lemma FrameComesBack(setup: Setup, fs: seq<Frame>, kind: Kind, strict: bool, i: nat)
    requires i < |OfKind(FromFirstVideo(fs), kind)|
    ensures var f := OfKind(FromFirstVideo(fs), kind)[i];
            var got := Demux(Trace(setup, START, fs), if kind.Video? then 0x0040 else 0x0041, strict);
            && |got| == |OfKind(FromFirstVideo(fs), kind)|
            && (got[i].Some? <==> ComesBack(kind, |f.data|, if kind.Video? then setup.videoPcr else setup.audioPcr, strict))
            && (got[i].Some? ==> IsPacketOf(got[i].value, f, kind))
  {
    hide Trace, Accepted, Demux, Survives, Recovered, OfKind, FromFirstVideo, IsPacketOf, ComesBack, ChannelOf;
    AcceptedFromStart(setup, fs, kind);
    DemuxInvertsMux(setup, START, fs, kind, strict);
    RecoveredPlainly(setup, kind, OfKind(FromFirstVideo(fs), kind)[i], strict);
  }

  // ----- the frames that do not survive, concretely -----

  /** A video frame without content; audio is accepted behind it. */
  function EmptyVideo(delta: bool): Frame {
    Frame(Video, delta, 0, [])
  }

  lemma OneAudioFrame(setup: Setup, f: Frame)
    requires f.kind.Audio?
    ensures Accepted(setup, START, [EmptyVideo(false), f], Audio) == [f]
  {
    hide Accepted;
    var fs := [EmptyVideo(false), f];
    AcceptedFromStart(setup, fs, Audio);
    assert fs[1..] == [f] && [f][1..] == [];
    assert FromFirstVideo(fs) == fs;
    assert OfKind([f], Audio) == [f] + [];
    assert OfKind(fs, Audio) == [] + OfKind([f], Audio);
  }

  /** An audio frame of 169 octets reaches no receiver, unless audio carries the clock. */
  lemma MisfitIsLost(setup: Setup, time: ClockTime, strict: bool)
    ensures var f := Frame(Audio, true, time, Fill(169, 0));
            Demux(Trace(setup, START, [EmptyVideo(false), f]), 0x0041, strict) ==
            [if setup.audioPcr then Some(Recovered(ChannelOf(setup, Audio), f)) else None]
  {
    hide Demux, Trace, Accepted, Recovered;
    var f := Frame(Audio, true, time, Fill(169, 0));
    OneAudioFrame(setup, f);
    DemuxInvertsMux(setup, START, [EmptyVideo(false), f], Audio, strict);
  }

  /** An audio frame of 65528 octets has a PES_packet_length that has wrapped to zero: a strict receiver drops it. */
  lemma LongAudioIsLost(setup: Setup, time: ClockTime, strict: bool)
    ensures var f := Frame(Audio, true, time, Fill(65528, 0));
            && Recovered(ChannelOf(setup, Audio), f).length == 0
            && Demux(Trace(setup, START, [EmptyVideo(false), f]), 0x0041, strict) ==
               [if strict then None else Some(Recovered(ChannelOf(setup, Audio), f))]
  {
    hide Demux, Trace, Accepted, Recovered;
    var f := Frame(Audio, true, time, Fill(65528, 0));
    RecoveredPlainly(setup, Audio, f, strict);
    OneAudioFrame(setup, f);
    DemuxInvertsMux(setup, START, [EmptyVideo(false), f], Audio, strict);
  }
}
