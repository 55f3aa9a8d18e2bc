/**
 What the counters of src/spts.c count, over whole runs and measured on the output:
 continuity counters, conservation of packets and octets, and the statistics of groups
 of pictures (src/spts.c:189-212, 381-397, 454-459, 479-481).
 */
module Accounting {
  import opened Octets
  import opened Wrappers
  import opened Psi
  import opened Pes
  import opened Transport
  import opened Packetizer
  import opened Schedule
  import opened Receiver

  // ----- continuity -----

  predicate IsContinuous(pid: bv16) {
    pid == 0x0000 || pid == 0x0020 || pid == 0x0040 || pid == 0x0041
  }

  /** How many packets of a PID have been sent. */
  function SentOn(st: State, pid: bv16): nat {
    if pid == VIDEO_PID then st.video.packets else if pid == AUDIO_PID then st.audio.packets else st.gops
  }

  /** Packets that carry the counters of the k-th and following packets, and the priority bit. */
  ghost predicate Numbered(ts: seq<Ts>, k: nat) {
    forall i :: 0 <= i < |ts| ==> ts[i].cc == Cc(k + i) && ts[i].priority
  }

  lemma NumberedAppend(a: seq<Ts>, b: seq<Ts>, k: nat)
    requires Numbered(a, k) && Numbered(b, k + |a|)
    ensures Numbered(a + b, k)
  {
    hide Cc;
    forall i | 0 <= i < |a + b| ensures (a + b)[i].cc == Cc(k + i) && (a + b)[i].priority {
      if i >= |a| {
        assert (a + b)[i] == b[i - |a|];
        assert k + |a| + (i - |a|) == k + i;
      }
    }
  }

  lemma {:induction false} NextNumbered(pid: bv16, k: nat, data: seq<byte>)
    ensures Numbered(NextTs(pid, k, data), k)
    decreases |data|
  {
    hide Cc, Numbered;
    if data == [] {
      assert Numbered([], k) by { NoneNumbered(k); }
    } else {
      var take := NextTake(|data|);
      NextNumbered(pid, k + 1, data[take..]);
      OneNumbered(Ts(pid, false, true, Cc(k), None, data[..take]), k);
      NumberedAppend([Ts(pid, false, true, Cc(k), None, data[..take])], NextTs(pid, k + 1, data[take..]), k);
    }
  }

  lemma NoneNumbered(k: nat)
    ensures Numbered([], k)
  {
  }

  lemma OneNumbered(t: Ts, k: nat)
    requires t.cc == Cc(k) && t.priority
    ensures Numbered([t], k)
  {
    hide Cc;
  }

  lemma FrameNumbered(ch: Channel, k: nat, pts: nat, data: seq<byte>)
    ensures Numbered(FrameTs(ch, k, pts, data), k)
  {
    hide Cc, Numbered, PesFront, NextTs;
    NextNumbered(ch.pid, k + 1, data[Taken(ch.pcr, |data|)..]);
    OneNumbered(FirstTs(ch, k, pts, data), k);
    NumberedAppend([FirstTs(ch, k, pts, data)], NextTs(ch.pid, k + 1, data[Taken(ch.pcr, |data|)..]), k);
  }

  lemma OpeningNumbered(setup: Setup, st: State, pid: bv16)
    requires IsContinuous(pid)
    ensures Numbered(OpeningTs(setup, st, pid), SentOn(st, pid))
    ensures |OpeningTs(setup, st, pid)| == if pid == PAT_PID || pid == PMT_PID then 1 else 0
  {
    hide Cc, PatPayload, PmtPayload;
  }

  lemma SentTsSize(setup: Setup, st: State, f: Frame)
    ensures |SentTs(setup, st, f)| == |Sent(setup, st, f)|
  {
    hide SentTs, Sent;
    SelectSent(setup, st, f, 0);
  }

  lemma BumpCounts(st: State, kind: Kind, n: nat, pid: bv16)
    requires IsContinuous(pid)
    ensures SentOn(Bump(st, kind, n), pid) == SentOn(st, pid) + if pid == PidOf(kind) then n else 0
  {
  }

  /** What a frame adds to a PID goes on from the counter the PID had. */
  lemma EmittedNumbered(setup: Setup, st: State, f: Frame, pid: bv16)
    requires IsContinuous(pid)
    ensures Numbered(EmittedTs(setup, st, f, pid), SentOn(st, pid))
    ensures SentOn(After(setup, st, f), pid) == SentOn(st, pid) + |EmittedTs(setup, st, f, pid)|
  {
    hide Numbered, OpeningTs, SentTs, Sent, IsContinuous, FrameTs, Cc, MpegTime;
    if Accepts(st, f) {
      var own := if pid == PidOf(f.kind) then SentTs(setup, st, f) else [];
      var open := if IsIdr(f) then OpeningTs(setup, st, pid) else [];
      SentTsSize(setup, st, f);
      SentCountsOnlyPackets(setup, st, f);
      OpeningNumbered(setup, st, pid);
      ReadyCounts(st, f, pid);
      BumpCounts(Ready(st, f), f.kind, |Sent(setup, st, f)|, pid);
      NoneNumbered(SentOn(st, pid));
      NoneNumbered(SentOn(st, pid) + |open|);
      if pid == PidOf(f.kind) {
        OwnNumbered(setup, st, f, pid);
      }
      NumberedAppend(open, own, SentOn(st, pid));
    } else {
      NoneNumbered(SentOn(st, pid));
    }
  }

  lemma ReadyCounts(st: State, f: Frame, pid: bv16)
    requires IsContinuous(pid)
    ensures SentOn(Ready(st, f), pid) == SentOn(st, pid) + if IsIdr(f) && (pid == PAT_PID || pid == PMT_PID) then 1 else 0
  {
  }

  lemma OwnNumbered(setup: Setup, st: State, f: Frame, pid: bv16)
    requires pid == PidOf(f.kind)
    ensures Numbered(SentTs(setup, st, f), SentOn(st, pid)) && pid != PAT_PID && pid != PMT_PID
  {
    hide FrameTs, MpegTime, Numbered;
    FrameNumbered(ChannelOf(setup, f.kind), CountOf(st, f.kind).packets, MpegTime(f.time), f.data);
  }

  lemma {:induction false} RunNumbered(setup: Setup, st: State, fs: seq<Frame>, pid: bv16)
    requires IsContinuous(pid)
    ensures Numbered(RunTs(setup, st, fs, pid), SentOn(st, pid))
    ensures SentOn(StateAfter(setup, st, fs), pid) == SentOn(st, pid) + |RunTs(setup, st, fs, pid)|
    decreases |fs|
  {
    hide Numbered, EmittedTs, After, SentOn, IsContinuous;
    if fs == [] {
      NoneNumbered(SentOn(st, pid));
    } else {
      var next := After(setup, st, fs[0]);
      EmittedNumbered(setup, st, fs[0], pid);
      RunNumbered(setup, next, fs[1..], pid);
      NumberedAppend(EmittedTs(setup, st, fs[0], pid), RunTs(setup, next, fs[1..], pid), SentOn(st, pid));
    }
  }

  /** On each PID the k-th packet of the whole output carries counter k mod 16. */
  lemma Continuity(setup: Setup, fs: seq<Frame>, pid: bv16)
    requires IsContinuous(pid)
    ensures var sent := Select(Trace(setup, START, fs), pid);
            forall k :: 0 <= k < |sent| ==> Val(sent[k].cc) == k % 16 && sent[k].priority
  {
    hide Trace, Select, RunTs, Cc, Val;
    SelectTrace(setup, START, fs, pid);
    RunNumbered(setup, START, fs, pid);
    NothingSentYet(pid);
    var sent := RunTs(setup, START, fs, pid);
    assert Numbered(sent, 0);
    forall k | 0 <= k < |sent| ensures Val(sent[k].cc) == k % 16 && sent[k].priority {
      assert sent[k].cc == Cc(0 + k) && sent[k].priority;
      CcIsNibble(k);
    }
  }

  lemma NothingSentYet(pid: bv16)
    ensures SentOn(START, pid) == 0
  {
  }

  // ----- conservation of packets -----

  lemma EmittedNulls(setup: Setup, st: State, f: Frame)
    ensures |Emitted(setup, st, f)| ==
            |EmittedTs(setup, st, f, NULL_PID)| + |EmittedTs(setup, st, f, PAT_PID)| + |EmittedTs(setup, st, f, PMT_PID)|
            + |EmittedTs(setup, st, f, VIDEO_PID)| + |EmittedTs(setup, st, f, AUDIO_PID)|
  {
    hide SentTs, Sent, Padding, NullTs, PatTs, PmtTs;
    SentTsSize(setup, st, f);
    DistinctPids();
    match f.kind {
      case Video =>
      case Audio =>
    }
  }

  lemma DistinctPids()
    ensures PAT_PID != PMT_PID && NULL_PID != PAT_PID && NULL_PID != PMT_PID
    ensures VIDEO_PID != AUDIO_PID && PidOf(Video) == VIDEO_PID && PidOf(Audio) == AUDIO_PID
    ensures VIDEO_PID != PAT_PID && VIDEO_PID != PMT_PID && VIDEO_PID != NULL_PID
    ensures AUDIO_PID != PAT_PID && AUDIO_PID != PMT_PID && AUDIO_PID != NULL_PID
  {
  }

  lemma {:induction false} RunNulls(setup: Setup, st: State, fs: seq<Frame>)
    ensures |Trace(setup, st, fs)| ==
            |RunTs(setup, st, fs, NULL_PID)| + |RunTs(setup, st, fs, PAT_PID)| + |RunTs(setup, st, fs, PMT_PID)|
            + |RunTs(setup, st, fs, VIDEO_PID)| + |RunTs(setup, st, fs, AUDIO_PID)|
    decreases |fs|
  {
    hide EmittedTs, Emitted, After;
    if fs != [] {
      EmittedNulls(setup, st, fs[0]);
      RunNulls(setup, After(setup, st, fs[0]), fs[1..]);
    }
  }

  /**
   Conservation in every reachable state: the global counter is the number of packets sent; the
   group and stream counters are the numbers of packets a receiver finds on their PIDs; and
   everything else is null packets.
   */
  lemma Conservation(setup: Setup, fs: seq<Frame>)
    ensures var st, trace := StateAfter(setup, START, fs), Trace(setup, START, fs);
            && st.packets == |trace|
            && st.gops == |Select(trace, 0x0000)| == |Select(trace, 0x0020)|
            && st.video.packets == |Select(trace, 0x0040)|
            && st.audio.packets == |Select(trace, 0x0041)|
            && st.packets == 2 * st.gops + |Select(trace, 0x1fff)| + st.video.packets + st.audio.packets
  {
    hide Trace, Select, RunTs, StateAfter;
    TraceLength(setup, START, fs);
    RunNulls(setup, START, fs);
    SelectTrace(setup, START, fs, NULL_PID);
    SelectTrace(setup, START, fs, PAT_PID);
    SelectTrace(setup, START, fs, PMT_PID);
    SelectTrace(setup, START, fs, VIDEO_PID);
    SelectTrace(setup, START, fs, AUDIO_PID);
    RunNumbered(setup, START, fs, PAT_PID);
    RunNumbered(setup, START, fs, PMT_PID);
    RunNumbered(setup, START, fs, VIDEO_PID);
    RunNumbered(setup, START, fs, AUDIO_PID);
    DistinctPids();
  }

  /** A packet of stuffing: no unit, no priority, no field, and 184 octets of 0xff. */
  predicate IsNull(t: Ts) {
    !t.start && !t.priority && t.cc == 0x0 && t.pcr == None && |t.payload| == 184 && Stuffing(t.payload)
  }

  lemma EmittedAreNull(setup: Setup, st: State, f: Frame, t: Ts)
    ensures t in EmittedTs(setup, st, f, 0x1fff) ==> IsNull(t)
  {
    hide SentTs, PatTs, PmtTs, Padding;
    DistinctPids();
  }

  lemma {:induction false} RunAreNull(setup: Setup, st: State, fs: seq<Frame>, t: Ts)
    ensures t in RunTs(setup, st, fs, 0x1fff) ==> IsNull(t)
    decreases |fs|
  {
    hide EmittedTs, After, IsNull;
    if fs != [] {
      EmittedAreNull(setup, st, fs[0], t);
      RunAreNull(setup, After(setup, st, fs[0]), fs[1..], t);
    }
  }

  /** Every packet on the null PID is only stuffing. */
  lemma NullsAreNull(setup: Setup, fs: seq<Frame>, t: Ts)
    ensures t in Select(Trace(setup, START, fs), 0x1fff) ==> IsNull(t)
  {
    hide Trace, Select, RunTs, IsNull;
    SelectTrace(setup, START, fs, 0x1fff);
    RunAreNull(setup, START, fs, t);
  }

  // ----- conservation of octets -----

  /** The payload octets of packets, as a receiver delimits them. */
  function PayloadOctets(ts: seq<Ts>): nat {
    if ts == [] then 0 else |ts[0].payload| + PayloadOctets(ts[1..])
  }

  lemma {:induction false} PayloadAppend(a: seq<Ts>, b: seq<Ts>)
    ensures PayloadOctets(a + b) == PayloadOctets(a) + PayloadOctets(b)
  {
    if a == [] {
      assert a + b == b;
    } else {
      assert (a + b)[1..] == a[1..] + b;
      PayloadAppend(a[1..], b);
    }
  }

  lemma {:induction false} NextPayload(pid: bv16, k: nat, data: seq<byte>)
    ensures PayloadOctets(NextTs(pid, k, data)) == |data|
    decreases |data|
  {
    hide Cc;
    if data != [] {
      var take := NextTake(|data|);
      NextPayload(pid, k + 1, data[take..]);
      assert NextTs(pid, k, data)[1..] == NextTs(pid, k + 1, data[take..]);
    }
  }

  lemma FramePayload(ch: Channel, k: nat, pts: nat, data: seq<byte>)
    ensures PayloadOctets(FrameTs(ch, k, pts, data)) ==
            |data| + PES_HEADER_LENGTH + if Misfit(ch, |data|) then 1 else 0
  {
    hide Cc, PesFront, NextTs;
    var rest := NextTs(ch.pid, k + 1, data[Taken(ch.pcr, |data|)..]);
    NextPayload(ch.pid, k + 1, data[Taken(ch.pcr, |data|)..]);
    assert FrameTs(ch, k, pts, data)[1..] == rest;
  }

  /** What frames should put into payloads: themselves, a header each, and one stray octet for each misfit. */
  function FrameOctets(ch: Channel, fs: seq<Frame>): nat {
    if fs == [] then 0
    else |fs[0].data| + 14 + (if !ch.pcr && |fs[0].data| == 169 then 1 else 0) + FrameOctets(ch, fs[1..])
  }

  lemma FrameOctetsCons(ch: Channel, f: Frame, fs: seq<Frame>)
    ensures FrameOctets(ch, [f] + fs) ==
            |f.data| + 14 + (if !ch.pcr && |f.data| == 169 then 1 else 0) + FrameOctets(ch, fs)
  {
    assert ([f] + fs)[1..] == fs;
  }

  lemma {:induction false} RunPayload(setup: Setup, st: State, fs: seq<Frame>, kind: Kind)
    ensures PayloadOctets(RunTs(setup, st, fs, PidOf(kind))) ==
            FrameOctets(ChannelOf(setup, kind), Accepted(setup, st, fs, kind))
    decreases |fs|
  {
    hide EmittedTs, After, PidOf, Accepts, FrameTs, MpegTime;
    if fs != [] {
      var f, next := fs[0], After(setup, st, fs[0]);
      EmittedForStream(setup, st, f, kind);
      RunPayload(setup, next, fs[1..], kind);
      PayloadAppend(EmittedTs(setup, st, f, PidOf(kind)), RunTs(setup, next, fs[1..], PidOf(kind)));
      if f.kind == kind && Accepts(st, f) {
        FramePayload(ChannelOf(setup, kind), CountOf(st, kind).packets, MpegTime(f.time), f.data);
        FrameOctetsCons(ChannelOf(setup, kind), f, Accepted(setup, next, fs[1..], kind));
      } else {
        assert [] + Accepted(setup, next, fs[1..], kind) == Accepted(setup, next, fs[1..], kind);
      }
    }
  }

  /** The payload octets of a stream are its accepted frames, 14 octets of header a frame, and a stray octet a misfit. */
  lemma PayloadConserved(setup: Setup, fs: seq<Frame>, kind: Kind)
    ensures PayloadOctets(Select(Trace(setup, START, fs), PidOf(kind))) ==
            FrameOctets(ChannelOf(setup, kind), Accepted(setup, START, fs, kind))
  {
    hide Trace, Select, RunTs, Accepted;
    SelectTrace(setup, START, fs, PidOf(kind));
    RunPayload(setup, START, fs, kind);
  }

  /** The octets of a packet that its adaptation field takes, the length octet included. */
  function FieldSize(p: seq<byte>): nat
    requires |p| == 188
  {
    if p[3] & 0x20 != 0 then 1 + Val(p[4]) else 0
  }

  /** What adaptation fields take of the packets of one PID. */
  function FieldOctets(trace: seq<seq<byte>>, pid: bv16): nat
    decreases |trace|
  {
    if trace == [] then 0
    else
      var t := ParseTs(trace[0]);
      (if t.Some? && t.value.pid == pid then FieldSize(trace[0]) else 0) + FieldOctets(trace[1..], pid)
  }

  /** Behind the header a readable packet is adaptation field and payload, and nothing else. */
  lemma FieldAndPayload(p: seq<byte>)
    ensures ParseTs(p).Some? ==> FieldSize(p) + |ParseTs(p).value.payload| == PAYLOAD
  {
    hide Readable, ReadPid, FieldPcr;
  }

  lemma {:induction false} FieldsAndPayloads(trace: seq<seq<byte>>, pid: bv16)
    ensures FieldOctets(trace, pid) + PayloadOctets(Select(trace, pid)) == PAYLOAD * |Select(trace, pid)|
    decreases |trace|
  {
    hide ParseTs, FieldSize;
    if trace != [] {
      FieldAndPayload(trace[0]);
      FieldsAndPayloads(trace[1..], pid);
      PayloadAppend(Picked(trace[0], pid), Select(trace[1..], pid));
      PickedOctets(trace[0], pid);
    }
  }

  lemma PickedOctets(p: seq<byte>, pid: bv16)
    ensures PayloadOctets(Picked(p, pid)) ==
            if ParseTs(p).Some? && ParseTs(p).value.pid == pid then |ParseTs(p).value.payload| else 0
  {
    hide ParseTs;
    if ParseTs(p).Some? {
      assert [ParseTs(p).value][1..] == [];
    }
  }

  /**
   Conservation of octets in every reachable state: behind their headers the packets that a stream
   has counted are its accepted frames, 14 octets of PES header a frame, a stray octet a misfit,
   and the adaptation fields that stand in the output.
   */
  lemma OctetsConserved(setup: Setup, fs: seq<Frame>, kind: Kind)
    ensures 184 * CountOf(StateAfter(setup, START, fs), kind).packets ==
            FieldOctets(Trace(setup, START, fs), PidOf(kind))
            + FrameOctets(ChannelOf(setup, kind), OfKind(FromFirstVideo(fs), kind))
  {
    hide Trace, Select, StateAfter, Accepted, FieldOctets, PayloadOctets, FrameOctets, OfKind, FromFirstVideo;
    Conservation(setup, fs);
    PayloadConserved(setup, fs, kind);
    AcceptedFromStart(setup, fs, kind);
    FieldsAndPayloads(Trace(setup, START, fs), PidOf(kind));
    DistinctPids();
  }

  // ----- statistics of groups of pictures -----

  /** Packet counts of a stream: of the groups closed by a table packet, and since then. */
  datatype Segments = Segments(closed: seq<nat>, open: nat)

  function Segment(s: Segments, t: Option<Ts>, pid: bv16): Segments {
    if t.None? then s
    else if t.value.pid == 0x0000 then Segments(s.closed + [s.open], 0)
    else if t.value.pid == pid then s.(open := s.open + 1)
    else s
  }

  /** Cuts a trace at the table packets and counts the packets of one stream in between. */
  function Cut(trace: seq<seq<byte>>, pid: bv16, s: Segments): Segments
    decreases |trace|
  {
    if trace == [] then s else Cut(trace[1..], pid, Segment(s, ParseTs(trace[0]), pid))
  }

  lemma {:induction false} CutAppend(a: seq<seq<byte>>, b: seq<seq<byte>>, pid: bv16, s: Segments)
    ensures Cut(a + b, pid, s) == Cut(b, pid, Cut(a, pid, s))
    decreases |a|
  {
    hide ParseTs, Segment;
    if a == [] {
      assert a + b == b;
    } else {
      assert (a + b)[1..] == a[1..] + b;
      CutAppend(a[1..], b, pid, Segment(s, ParseTs(a[0]), pid));
    }
  }

  lemma {:induction false} CutOnePid(ps: seq<seq<byte>>, ts: seq<Ts>, own: bv16, pid: bv16, s: Segments)
    requires ReadAs(ps, ts) && own != PAT_PID && forall t :: t in ts ==> t.pid == own
    ensures Cut(ps, pid, s) == if pid == own then s.(open := s.open + |ps|) else s
    decreases |ps|
  {
    hide ParseTs;
    if ps != [] {
      assert ts[0] in ts;
      CutOnePid(ps[1..], ts[1..], own, pid, Segment(s, ParseTs(ps[0]), pid));
    }
  }

  lemma CutSent(setup: Setup, st: State, f: Frame, pid: bv16, s: Segments)
    ensures Cut(Sent(setup, st, f), pid, s) == if pid == PidOf(f.kind) then s.(open := s.open + |Sent(setup, st, f)|) else s
  {
    hide FramePackets, FrameTs, MpegTime, Cut, IsChannel;
    var ch, k, pts := ChannelOf(setup, f.kind), CountOf(st, f.kind).packets, MpegTime(f.time);
    ChannelsAreChannels(setup, f.kind);
    FrameReads(ch, k, pts, f.data);
    FrameTsPid(ch, k, pts, f.data);
    CutOnePid(FramePackets(ch, k, pts, f.data), FrameTs(ch, k, pts, f.data), ch.pid, pid, s);
  }

  lemma CutNulls(n: nat, pid: bv16, s: Segments)
    requires pid != NULL_PID
    ensures Cut(Nulls(n), pid, s) == s
  {
    hide ParseTs, NullPacket, Cut;
    NullReads();
    CutOnePid(Nulls(n), Repeat(n, NullTs()), NULL_PID, pid, s);
  }

  lemma CutTables(setup: Setup, k: nat, pid: bv16, s: Segments)
    requires pid != PAT_PID && pid != PMT_PID
    ensures Cut([PatPacket(k), PmtPacket(setup.pmt, k)], pid, s) == Segments(s.closed + [s.open], 0)
  {
    hide ParseTs, PatPacket, PmtPacket, PatPayload, PmtPayload, Cc, Cut;
    TablesRead(setup, k);
    DistinctPids();
    CutTwo(PatPacket(k), PmtPacket(setup.pmt, k), pid, s);
  }

  lemma CutTwo(p: seq<byte>, q: seq<byte>, pid: bv16, s: Segments)
    ensures Cut([p, q], pid, s) == Segment(Segment(s, ParseTs(p), pid), ParseTs(q), pid)
  {
    hide ParseTs, Segment;
    assert [p, q][1..] == [q] && [q][1..] == [];
    assert Cut([q], pid, Segment(s, ParseTs(p), pid)) == Segment(Segment(s, ParseTs(p), pid), ParseTs(q), pid);
  }

  lemma CutOpening(setup: Setup, st: State, pid: bv16, s: Segments)
    requires pid != PAT_PID && pid != PMT_PID && pid != NULL_PID
    ensures Cut(Opening(setup, st), pid, s) == Segments(s.closed + [s.open], 0)
  {
    hide Cut, Nulls, PatPacket, PmtPacket;
    CutNulls(Padding(st), pid, s);
    CutTables(setup, st.gops, pid, s);
    CutAppend(Nulls(Padding(st)), [PatPacket(st.gops), PmtPacket(setup.pmt, st.gops)], pid, s);
  }

  function Sum(ns: seq<nat>): nat {
    if ns == [] then 0 else Sum(ns[..|ns| - 1]) + ns[|ns| - 1]
  }

  /** The largest of these, and zero for none. */
  predicate IsMax(m: nat, ns: seq<nat>) {
    (forall i :: 0 <= i < |ns| ==> ns[i] <= m) && if ns == [] then m == 0 else m in ns
  }

  /** The counters of a stream describe the groups cut out of the trace. */
  predicate Describes(c: Count, s: Segments) {
    && c.lastGopPackets == Sum(s.closed)
    && c.packets == c.lastGopPackets + s.open
    && IsMax(c.maxGopPackets, s.closed)
  }

  lemma CloseDescribes(c: Count, s: Segments)
    requires Describes(c, s)
    ensures Describes(c.Close(), Segments(s.closed + [s.open], 0))
  {
    var closed := s.closed + [s.open];
    assert closed[..|closed| - 1] == s.closed;
    var m := c.Close().maxGopPackets;
    if m == s.open {
      assert closed[|closed| - 1] == m;
    } else {
      assert m == c.maxGopPackets;
      if s.closed != [] {
        assert m in s.closed;
      }
    }
  }

  lemma EmittedDescribes(setup: Setup, st: State, f: Frame, kind: Kind, s: Segments)
    requires Describes(CountOf(st, kind), s)
    ensures Describes(CountOf(After(setup, st, f), kind), Cut(Emitted(setup, st, f), PidOf(kind), s))
  {
    hide Sent, Opening, Cut, PidOf, IsMax, Sum;
    DifferentPids(kind);
    if !Accepts(st, f) {
      CutNothing(PidOf(kind), s);
    } else {
      SentCountsOnlyPackets(setup, st, f);
      CutSent(setup, st, f, PidOf(kind), s);
      if IsIdr(f) {
        var closed := Segments(s.closed + [s.open], 0);
        CutOpening(setup, st, PidOf(kind), s);
        CutSent(setup, st, f, PidOf(kind), closed);
        CutAppend(Opening(setup, st), Sent(setup, st, f), PidOf(kind), s);
        CloseDescribes(CountOf(st, kind), s);
      } else {
        assert [] + Sent(setup, st, f) == Sent(setup, st, f);
      }
    }
  }

  lemma CutNothing(pid: bv16, s: Segments)
    ensures Cut([], pid, s) == s
  {
  }

  lemma {:induction false} RunDescribes(setup: Setup, st: State, fs: seq<Frame>, kind: Kind, s: Segments)
    requires Describes(CountOf(st, kind), s)
    ensures Describes(CountOf(StateAfter(setup, st, fs), kind), Cut(Trace(setup, st, fs), PidOf(kind), s))
    decreases |fs|
  {
    hide Emitted, After, Cut, Describes, CountOf, PidOf;
    if fs == [] {
      CutNothing(PidOf(kind), s);
    } else {
      var next := After(setup, st, fs[0]);
      EmittedDescribes(setup, st, fs[0], kind, s);
      CutAppend(Emitted(setup, st, fs[0]), Trace(setup, next, fs[1..]), PidOf(kind), s);
      RunDescribes(setup, next, fs[1..], kind, Cut(Emitted(setup, st, fs[0]), PidOf(kind), s));
    }
  }

  /**
   After every frame each stream's maximum is the true maximum of its packet counts over all
   closed stretches of the output, the one before the first IDR frame included, and the counter
   of the last group is their sum.
   */
  lemma StatisticsAreTrue(setup: Setup, fs: seq<Frame>, kind: Kind)
    ensures var c, s := CountOf(StateAfter(setup, START, fs), kind), Cut(Trace(setup, START, fs), PidOf(kind), Segments([], 0));
            && IsMax(c.maxGopPackets, s.closed)
            && c.lastGopPackets == Sum(s.closed)
            && c.packets - c.lastGopPackets == s.open
  {
    assert Describes(CountOf(START, kind), Segments([], 0));
    hide Trace, StateAfter, Cut, IsMax, Sum, PidOf;
    RunDescribes(setup, START, fs, kind, Segments([], 0));
  }

  // ----- frame counters -----

  /** How many frames there are up to and including the last IDR frame. */
  function UpToLastIdr(fs: seq<Frame>): (k: nat)
    ensures k <= |fs|
  {
    if fs == [] then 0 else if IsIdr(fs[|fs| - 1]) then |fs| else UpToLastIdr(fs[..|fs| - 1])
  }

  lemma {:induction false} OfKindSnoc(fs: seq<Frame>, f: Frame, kind: Kind)
    ensures OfKind(fs + [f], kind) == OfKind(fs, kind) + if f.kind == kind then [f] else []
  {
    if fs == [] {
      assert ([] + [f])[1..] == [];
    } else {
      assert (fs + [f])[0] == fs[0] && (fs + [f])[1..] == fs[1..] + [f];
      OfKindSnoc(fs[1..], f, kind);
      var own, last := if fs[0].kind == kind then [fs[0]] else [], if f.kind == kind then [f] else [];
      assert OfKind(fs + [f], kind) == own + OfKind(fs[1..] + [f], kind);
      assert own + (OfKind(fs[1..], kind) + last) == own + OfKind(fs[1..], kind) + last;
    }
  }

  lemma StepCountsFrames(setup: Setup, st: State, f: Frame)
    ensures var next := After(setup, st, f);
            && next.video.frames == st.video.frames + (if f.kind.Video? then 1 else 0)
            && next.video.lastGopFrames == (if IsIdr(f) then st.video.frames + 1 else st.video.lastGopFrames)
            && next.audio.frames == st.audio.frames && next.audio.lastGopFrames == st.audio.lastGopFrames
  {
    hide Sent, Padding;
  }

  lemma UpToLastIdrSnoc(fs: seq<Frame>, f: Frame)
    ensures var all := fs + [f];
            all[..UpToLastIdr(all)] == if IsIdr(f) then all else fs[..UpToLastIdr(fs)]
  {
    assert (fs + [f])[..|fs|] == fs;
  }

  lemma NoFramesYet(setup: Setup)
    ensures StateAfter(setup, START, []) == START && OfKind([], Video) == []
  {
  }

  /** frames_counter counts the video frames written, last_gop_frames_counter those up to the last IDR frame; audio is not counted. */
  lemma {:induction false} FramesCounted(setup: Setup, fs: seq<Frame>)
    ensures var st := StateAfter(setup, START, fs);
            && st.video.frames == |OfKind(fs, Video)|
            && st.video.lastGopFrames == |OfKind(fs[..UpToLastIdr(fs)], Video)|
            && st.audio.frames == st.audio.lastGopFrames == 0
  {
    hide After, StateAfter, OfKind, UpToLastIdr;
    if fs == [] {
      NoFramesYet(setup);
    } else {
      var front, f := fs[..|fs| - 1], fs[|fs| - 1];
      assert fs == front + [f];
      FramesCounted(setup, front);
      RunSnoc(setup, START, front, f);
      StepCountsFrames(setup, StateAfter(setup, START, front), f);
      OfKindSnoc(front, f, Video);
      UpToLastIdrSnoc(front, f);
    }
  }
}
