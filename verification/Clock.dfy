/**
 The clock references of whole runs (src/spts.c:408-421, src/sptsmuxer.c:258-273) and
 the tables that tell a receiver where to find them.
 */
module Clock {
  import opened Octets
  import opened Wrappers
  import opened Psi
  import opened PsiParse
  import opened Transport
  import opened Packetizer
  import opened Schedule
  import opened Receiver

  // ----- one time stamp -----

  function Min(a: nat, b: nat): nat {
    if a < b then a else b
  }

  /** Later frames get no earlier clock reference, and none runs ahead of its time stamp. */
  lemma ClockMonotone(earlier: nat, later: nat)
    requires earlier <= later
    ensures PcrOf(MpegTime(earlier)) <= PcrOf(MpegTime(later)) <= 300 * MpegTime(later)
  {
    TicksMonotone(earlier, later);
    hide MpegTime;
  }

  lemma TicksMonotone(earlier: nat, later: nat)
    requires earlier <= later
    ensures MpegTime(earlier) <= MpegTime(later)
  {
  }

  /** The products and quotients of time stamps stay in 64 bits, so unbounded numbers compute the same. */
  lemma ClockFits(time: ClockTime)
    ensures MpegTime(time) <= 0xffff_ffff_ffff_ffff && PcrOf(MpegTime(time)) <= 0xffff_ffff_ffff_ffff
  {
  }

  lemma BaseOfClock(pts: nat)
    ensures PcrOf(pts) / 300 == pts - Min(pts, 10250) && PcrOf(pts) % 300 == 0
  {
  }

  lemma DifferenceMod(a: nat, d: nat)
    requires d < TWO_33 && d <= a
    ensures (a % TWO_33 - (a - d) % TWO_33) % TWO_33 == d
  {
    var m := TWO_33;
    var q, r := a / m, a % m;
    assert a == q * m + r;
    if d <= r {
      assert a - d == q * m + (r - d);
      Remainder33(a - d, q, r - d);
    } else {
      assert a - d == (q - 1) * m + (m + r - d);
      Remainder33(a - d, q - 1, m + r - d);
      Wrap(r, d);
    }
  }

  lemma Wrap(r: nat, d: nat)
    requires r < d < TWO_33
    ensures (r - (TWO_33 + r - d)) % TWO_33 == d
  {
  }

  // ----- runs -----

  /** The clock references of packets, in order. */
  function Readings(ts: seq<Ts>): seq<Pcr> {
    if ts == [] then [] else (match ts[0].pcr case None => [] case Some(p) => [p]) + Readings(ts[1..])
  }

  lemma {:induction false} ReadingsAppend(a: seq<Ts>, b: seq<Ts>)
    ensures Readings(a + b) == Readings(a) + Readings(b)
  {
    if a == [] {
      assert a + b == b;
    } else {
      assert (a + b)[1..] == a[1..] + b;
      ReadingsAppend(a[1..], b);
    }
  }

  lemma {:induction false} NoReadings(ts: seq<Ts>)
    requires forall t :: t in ts ==> t.pcr == None
    ensures Readings(ts) == []
  {
    if ts != [] {
      assert ts[0] in ts;
      NoReadings(ts[1..]);
    }
  }

  lemma FrameReadings(ch: Channel, k: nat, pts: nat, data: seq<byte>)
    ensures Readings(FrameTs(ch, k, pts, data)) == match SentPcr(ch, pts) case None => [] case Some(p) => [p]
  {
    hide Cc, PesFront, NextTs, SentPcr;
    var rest := NextTs(ch.pid, k + 1, data[Taken(ch.pcr, |data|)..]);
    NextTsPid(ch.pid, k + 1, data[Taken(ch.pcr, |data|)..]);
    NoReadings(rest);
    assert FrameTs(ch, k, pts, data)[1..] == rest;
  }

  function ClockReading(f: Frame): Pcr {
    Pcr(PcrOf(MpegTime(f.time)) / 300 % TWO_33, PcrOf(MpegTime(f.time)) % 300)
  }

  function ClockReadings(fs: seq<Frame>): (r: seq<Pcr>)
    ensures |r| == |fs| && forall i :: 0 <= i < |fs| ==> r[i] == ClockReading(fs[i])
  {
    seq(|fs|, i requires 0 <= i < |fs| => ClockReading(fs[i]))
  }

  lemma EmittedReadings(setup: Setup, st: State, f: Frame, kind: Kind)
    ensures Readings(EmittedTs(setup, st, f, PidOf(kind))) ==
            if f.kind == kind && Accepts(st, f) && ChannelOf(setup, kind).pcr then [ClockReading(f)] else []
  {
    hide EmittedTs, PidOf, FrameTs, MpegTime, ClockReading, PcrOf, Accepts, SentPcr;
    EmittedForStream(setup, st, f, kind);
    if f.kind == kind && Accepts(st, f) {
      FrameReadings(ChannelOf(setup, kind), CountOf(st, kind).packets, MpegTime(f.time), f.data);
      OneReading(ChannelOf(setup, kind), f);
    }
  }

  lemma {:induction false} RunReadings(setup: Setup, st: State, fs: seq<Frame>, kind: Kind)
    ensures Readings(RunTs(setup, st, fs, PidOf(kind))) ==
            if ChannelOf(setup, kind).pcr then ClockReadings(Accepted(setup, st, fs, kind)) else []
    decreases |fs|
  {
    hide EmittedTs, After, PidOf, Accepts, ClockReading, ClockReadings, Readings, ChannelOf;
    if fs == [] {
      assert Readings([]) == [] by { NoReadings([]); }
      NoClockReadings();
    } else {
      var f, next := fs[0], After(setup, st, fs[0]);
      EmittedReadings(setup, st, f, kind);
      RunReadings(setup, next, fs[1..], kind);
      ReadingsAppend(EmittedTs(setup, st, f, PidOf(kind)), RunTs(setup, next, fs[1..], PidOf(kind)));
      MoreReadings(f, Accepted(setup, next, fs[1..], kind));
    }
  }

  lemma NoClockReadings()
    ensures ClockReadings([]) == []
  {
  }

  lemma MoreReadings(f: Frame, fs: seq<Frame>)
    ensures ClockReadings([f] + fs) == [ClockReading(f)] + ClockReadings(fs)
    ensures ClockReadings([] + fs) == [] + ClockReadings(fs)
    ensures [] + fs == fs
  {
    hide ClockReading;
    assert [] + fs == fs;
  }

  lemma OneReading(ch: Channel, f: Frame)
    ensures SentPcr(ch, MpegTime(f.time)) == if ch.pcr then Some(ClockReading(f)) else None
  {
    hide MpegTime, PcrOf;
  }

  /**
   On a stream that carries the clock every accepted frame carries one reference; the time stamp
   that a receiver decodes runs ahead of the base that it decodes, both modulo 2^33, by 10250
   ticks, or by the whole time stamp while that is smaller.
   */
  lemma ClockFollowsPts(setup: Setup, fs: seq<Frame>, kind: Kind, i: nat)
    requires ChannelOf(setup, kind).pcr && i < |Accepted(setup, START, fs, kind)|
    ensures var trace, f := Trace(setup, START, fs), Accepted(setup, START, fs, kind)[i];
            var readings, units := Readings(Select(trace, PidOf(kind))), Demux(trace, PidOf(kind), false);
            && |readings| == |units| == |Accepted(setup, START, fs, kind)|
            && units[i].Some? && units[i].value.pts.Some? && readings[i].extension == 0
            && forall p: nat :: IsTicks(p, f.time) ==>
                 && units[i].value.pts.value == p % 0x2_0000_0000
                 && (units[i].value.pts.value - readings[i].base) % 0x2_0000_0000 == Min(p, 10250)
  {
    hide Trace, Select, Demux, RunTs, Accepted, MpegTime, PidOf, IsTicks;
    var f := Accepted(setup, START, fs, kind)[i];
    DemuxInvertsMux(setup, START, fs, kind, false);
    SelectTrace(setup, START, fs, PidOf(kind));
    RunReadings(setup, START, fs, kind);
    BaseOfClock(MpegTime(f.time));
    DifferenceMod(MpegTime(f.time), Min(MpegTime(f.time), 10250));
    forall p: nat | IsTicks(p, f.time) ensures p == MpegTime(f.time) {
      TicksUnique(p, MpegTime(f.time), f.time);
    }
  }

  /**
   The clock of a stream never runs back while its time stamps do not: of two accepted frames the
   later one has no earlier clock reference, the reference does not run ahead of the time stamp of
   its own frame, and a receiver reads the references off the output in that order.
   */
  lemma ClockNeverRunsBack(setup: Setup, fs: seq<Frame>, kind: Kind, i: nat, j: nat)
    requires ChannelOf(setup, kind).pcr && i <= j < |Accepted(setup, START, fs, kind)|
    requires var a := Accepted(setup, START, fs, kind); a[i].time <= a[j].time
    ensures var a, readings := Accepted(setup, START, fs, kind), Readings(Select(Trace(setup, START, fs), PidOf(kind)));
            && |readings| == |a|
            && readings[i] == ClockReading(a[i]) && readings[j] == ClockReading(a[j])
            && PcrOf(MpegTime(a[i].time)) <= PcrOf(MpegTime(a[j].time)) <= 300 * MpegTime(a[j].time)
  {
    hide Trace, Select, RunTs, Accepted, MpegTime, PidOf, ClockReading, PcrOf;
    var a := Accepted(setup, START, fs, kind);
    SelectTrace(setup, START, fs, PidOf(kind));
    RunReadings(setup, START, fs, kind);
    ClockMonotone(a[i].time, a[j].time);
  }

  // ----- where the clock is, and where the tables say it is -----

  lemma EmittedClock(setup: Setup, st: State, f: Frame, pid: bv16, t: Ts)
    requires t in EmittedTs(setup, st, f, pid) && t.pcr.Some?
    ensures pid == PidOf(f.kind) && ChannelOf(setup, f.kind).pcr
  {
    hide MpegTime, PatPayload, PmtPayload, Cc, PesFront, NextTs, PcrOf;
    var ch := ChannelOf(setup, f.kind);
    NextTsPid(ch.pid, CountOf(st, f.kind).packets + 1, f.data[Taken(ch.pcr, |f.data|)..]);
  }

  lemma {:induction false} RunClock(setup: Setup, st: State, fs: seq<Frame>, pid: bv16, t: Ts)
    requires t in RunTs(setup, st, fs, pid) && t.pcr.Some?
    ensures (pid == VIDEO_PID && setup.videoPcr) || (pid == AUDIO_PID && setup.audioPcr)
    decreases |fs|
  {
    hide EmittedTs, After;
    if t in EmittedTs(setup, st, fs[0], pid) {
      EmittedClock(setup, st, fs[0], pid, t);
    } else {
      RunClock(setup, After(setup, st, fs[0]), fs[1..], pid, t);
    }
  }

  lemma EmittedTables(setup: Setup, st: State, f: Frame, t: Ts)
    ensures t in EmittedTs(setup, st, f, PAT_PID) ==> t.start && t.payload == PatPayload()
    ensures t in EmittedTs(setup, st, f, PMT_PID) ==> t.start && t.payload == PmtPayload(setup.pmt)
  {
    hide SentTs, PatPayload, PmtPayload, Cc;
    DifferentPids(f.kind);
  }

  lemma {:induction false} RunTables(setup: Setup, st: State, fs: seq<Frame>, t: Ts)
    ensures t in RunTs(setup, st, fs, PAT_PID) ==> t.start && t.payload == PatPayload()
    ensures t in RunTs(setup, st, fs, PMT_PID) ==> t.start && t.payload == PmtPayload(setup.pmt)
    decreases |fs|
  {
    hide EmittedTs, After, PatPayload, PmtPayload;
    if fs != [] {
      EmittedTables(setup, st, fs[0], t);
      RunTables(setup, After(setup, st, fs[0]), fs[1..], t);
    }
  }

  /** Every table packet of every output reads back: the one program, and the streams and clock PID of the setup. */
  lemma TablesReadBack(setup: Setup, fs: seq<Frame>, t: Ts)
    requires setup.pmt.sealed
    ensures t in Select(Trace(setup, START, fs), 0x0000) ==>
              && t.start && Stuffing(Behind(t.payload))
              && ParsePat(t.payload) == Some(Pat(1, Extent(0, 0, 0), [Program(0x0016, 0x0020)]))
    ensures t in Select(Trace(setup, START, fs), 0x0020) ==>
              && t.start && Stuffing(Behind(t.payload))
              && ParsePmt(t.payload) ==
                 Some(Pmt(setup.pmt.program, Extent(0, 0, 0), Pid(setup.pmt.pcrPid), ShortPids(setup.pmt.es)))
  {
    hide Trace, Select, RunTs, ParsePat, ParsePmt, Sealed, PatBody, PmtPayload, Pid, Behind;
    SelectTrace(setup, START, fs, PAT_PID);
    SelectTrace(setup, START, fs, PMT_PID);
    RunTables(setup, START, fs, t);
    PatParses(PROGRAM_NUMBER, PMT_PID, Fill(PAYLOAD - 17, 0xff));
    PmtParses(setup.pmt);
    PmtPidIsShort();
  }

  lemma PmtPidIsShort()
    ensures Pid(PMT_PID) == PMT_PID && Pid(0x0040) == 0x0040 && Pid(0x0041) == 0x0041 && Pid(VIDEO_PID) == VIDEO_PID && Pid(AUDIO_PID) == AUDIO_PID
  {
  }

  /** The setup of the intended configuration: the clock is on the video stream, and the tables say so. */
  predicate ClockOnVideo(setup: Setup) {
    setup.videoPcr && !setup.audioPcr && setup.pmt.sealed && setup.pmt.pcrPid == VIDEO_PID
  }

  /** If only audio is there, the clock is on the audio stream. */
  predicate ClockOnAudio(setup: Setup) {
    setup.audioPcr && !setup.videoPcr && setup.pmt.sealed && setup.pmt.pcrPid == AUDIO_PID
  }

  /** A packet with a clock reference is on the PID that every map section of the output advertises for it. */
  lemma ClockIsWhereAdvertised(setup: Setup, fs: seq<Frame>, pid: bv16, t: Ts, m: Ts)
    requires ClockOnVideo(setup) || ClockOnAudio(setup)
    ensures var trace := Trace(setup, START, fs);
            t in Select(trace, pid) && t.pcr.Some? && m in Select(trace, 0x0020) ==>
              ParsePmt(m.payload).Some? && ParsePmt(m.payload).value.pcrPid == pid
  {
    hide Trace, Select, RunTs, ParsePmt, Pid;
    SelectTrace(setup, START, fs, pid);
    TablesReadBack(setup, fs, m);
    PmtPidIsShort();
    if t in RunTs(setup, START, fs, pid) && t.pcr.Some? {
      RunClock(setup, START, fs, pid, t);
    }
  }
}
