/**
 The multiplexer as a function of the frames it is given: which frames it accepts, how
 it fills and opens groups of pictures, and the packets it sends (src/spts.c:290-298 and
 352-486). The class SpTs is proved to send exactly this.
 */
module Schedule {
  import opened Octets
  import opened Psi
  import opened Pes
  import opened Transport
  import opened Packetizer

  const PAT_PID: bv16 := 0x0
  const PMT_PID: bv16 := 0x20
  const VIDEO_PID: bv16 := 0x0040
  const AUDIO_PID: bv16 := 0x0041
  const NULL_PID: bv16 := 0x1fff

  /** The packets planned for a group of pictures: video, audio and the two tables. */
  const GOP_PACKETS: nat := 1830 + 270 + 2

  datatype Kind = Video | Audio

  /** GstClockTime: nanoseconds in 64 bits. */
  type ClockTime = t: nat | t <= 0xffff_ffff_ffff_ffff

  /** A frame as GStreamer hands it over. */
  datatype Frame = Frame(kind: Kind, delta: bool, time: ClockTime, data: seq<byte>)

  predicate IsIdr(f: Frame) {
    f.kind.Video? && !f.delta
  }

  // ----- what does not change while frames are written -----

  datatype Setup = Setup(pmt: OnePacketPmt, videoPcr: bool, audioPcr: bool)

  function ChannelOf(setup: Setup, kind: Kind): (ch: Channel) {
    match kind
    case Video => Channel(VIDEO_PID, STREAM_ID_VIDEO, setup.videoPcr)
    case Audio => Channel(AUDIO_PID, STREAM_ID_AUDIO, setup.audioPcr)
  }

  function PatPayload(): (s: seq<byte>)
    ensures |s| == PAYLOAD
  {
    Sealed(PatBody(PROGRAM_NUMBER, PMT_PID)) + Fill(PAYLOAD - 17, 0xff)
  }

  function PatPacket(k: nat): (p: seq<byte>)
    ensures |p| == TSPACKET_LENGTH
  {
    HeaderOctets(PAT_PID, true, PAYLOAD_ONLY, k) + PatPayload()
  }

  function PmtPacket(pmt: OnePacketPmt, k: nat): (p: seq<byte>)
    ensures |p| == TSPACKET_LENGTH
  {
    HeaderOctets(PMT_PID, true, PAYLOAD_ONLY, k) + PmtPayload(pmt)
  }

  function NullPacket(): (p: seq<byte>)
    ensures |p| == TSPACKET_LENGTH
  {
    [0x47, 0x1f, 0xff, 0x10] + Fill(PAYLOAD, 0xff)
  }

  // ----- what does -----

  /** The counters of one stream. */
  datatype Count = Count(packets: nat, lastGopPackets: nat, maxGopPackets: nat, frames: nat, lastGopFrames: nat)
  {
    /** Closes a group of pictures in the packet statistics. */
    function Close(): Count {
      this.(maxGopPackets := if packets - lastGopPackets > maxGopPackets then packets - lastGopPackets else maxGopPackets,
            lastGopPackets := packets)
    }
  }

  datatype State = State(packets: nat, gops: nat, video: Count, audio: Count)

  const ZERO: Count := Count(0, 0, 0, 0, 0)
  const START: State := State(0, 0, ZERO, ZERO)

  /** Audio is dropped until something has been sent. */
  predicate Accepts(st: State, f: Frame) {
    f.kind.Video? || st.packets != 0
  }

  /** The null packets that bring the output to the planned start of the next group. */
  function Padding(st: State): nat {
    if st.packets < st.gops * GOP_PACKETS then st.gops * GOP_PACKETS - st.packets else 0
  }

  function Nulls(n: nat): (ps: seq<seq<byte>>)
    ensures |ps| == n
  {
    seq(n, _ => NullPacket())
  }

  /** What goes out before an IDR frame. */
  function Opening(setup: Setup, st: State): (ps: seq<seq<byte>>)
    ensures |ps| == Padding(st) + 2
  {
    Nulls(Padding(st)) + [PatPacket(st.gops), PmtPacket(setup.pmt, st.gops)]
  }

  function OpenGop(st: State): State {
    State(st.packets + Padding(st) + 2, st.gops + 1,
          st.video.Close().(lastGopFrames := st.video.frames), st.audio.Close())
  }

  /** The state in which the packets of an accepted frame are sent. */
  function Ready(st: State, f: Frame): State {
    if f.kind.Audio? then st
    else
      var counted := st.(video := st.video.(frames := st.video.frames + 1));
      if f.delta then counted else OpenGop(counted)
  }

  function CountOf(st: State, kind: Kind): Count {
    match kind
    case Video => st.video
    case Audio => st.audio
  }

  /** The packets of the frame itself. */
  function Sent(setup: Setup, st: State, f: Frame): (ps: seq<seq<byte>>) {
    FramePackets(ChannelOf(setup, f.kind), CountOf(st, f.kind).packets, MpegTime(f.time), f.data)
  }

  function Bump(st: State, kind: Kind, n: nat): State {
    match kind
    case Video => st.(packets := st.packets + n, video := st.video.(packets := st.video.packets + n))
    case Audio => st.(packets := st.packets + n, audio := st.audio.(packets := st.audio.packets + n))
  }

  function After(setup: Setup, st: State, f: Frame): State {
    if !Accepts(st, f) then st else Bump(Ready(st, f), f.kind, |Sent(setup, st, f)|)
  }

  /** Everything that spts_write_frame sends for one frame. */
  function Emitted(setup: Setup, st: State, f: Frame): (ps: seq<seq<byte>>)
  {
    if !Accepts(st, f) then []
    else (if IsIdr(f) then Opening(setup, st) else []) + Sent(setup, st, f)
  }

  // ----- runs -----

  function StateAfter(setup: Setup, st: State, fs: seq<Frame>): State
    decreases |fs|
  {
    if fs == [] then st else StateAfter(setup, After(setup, st, fs[0]), fs[1..])
  }

  function Trace(setup: Setup, st: State, fs: seq<Frame>): (ps: seq<seq<byte>>)
    decreases |fs|
  {
    if fs == [] then [] else Emitted(setup, st, fs[0]) + Trace(setup, After(setup, st, fs[0]), fs[1..])
  }

  /** A run over two lists of frames is the second run continued where the first one stopped. */
  lemma {:induction false} RunAppend(setup: Setup, st: State, a: seq<Frame>, b: seq<Frame>)
    ensures StateAfter(setup, st, a + b) == StateAfter(setup, StateAfter(setup, st, a), b)
    ensures Trace(setup, st, a + b) == Trace(setup, st, a) + Trace(setup, StateAfter(setup, st, a), b)
    decreases |a|
  {
    hide Emitted, After;
    if a == [] {
      assert a + b == b;
    } else {
      assert (a + b)[1..] == a[1..] + b;
      RunAppend(setup, After(setup, st, a[0]), a[1..], b);
    }
  }

  lemma RunSnoc(setup: Setup, st: State, fs: seq<Frame>, f: Frame)
    ensures StateAfter(setup, st, fs + [f]) == After(setup, StateAfter(setup, st, fs), f)
    ensures Trace(setup, st, fs + [f]) == Trace(setup, st, fs) + Emitted(setup, StateAfter(setup, st, fs), f)
  {
    hide Emitted, After;
    RunAppend(setup, st, fs, [f]);
    var mid := StateAfter(setup, st, fs);
    assert [f][1..] == [];
    assert StateAfter(setup, mid, [f]) == After(setup, mid, f);
    assert Trace(setup, mid, [f]) == Emitted(setup, mid, f) + [];
  }

  lemma SentCountsOnlyPackets(setup: Setup, st: State, f: Frame)
    ensures Sent(setup, Ready(st, f), f) == Sent(setup, st, f)
  {
  }

  lemma EmittedLength(setup: Setup, st: State, f: Frame)
    ensures |Emitted(setup, st, f)| + st.packets == After(setup, st, f).packets
  {
    hide Sent;
    SentCountsOnlyPackets(setup, st, f);
  }

  /** The global counter counts the packets sent. */
  lemma {:induction false} TraceLength(setup: Setup, st: State, fs: seq<Frame>)
    ensures |Trace(setup, st, fs)| + st.packets == StateAfter(setup, st, fs).packets
    decreases |fs|
  {
    hide After, Emitted;
    if fs != [] {
      EmittedLength(setup, st, fs[0]);
      TraceLength(setup, After(setup, st, fs[0]), fs[1..]);
    }
  }
}
