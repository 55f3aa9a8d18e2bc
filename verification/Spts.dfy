/**
 The single program transport stream writer of src/spts.c: two streams, each with one
 packet buffer that is edited in place and written again and again, the table packets,
 and the counters. It is proved to send what module Schedule says.
 */
module Spts {
  import opened Octets
  import opened Psi
  import opened Pes
  import opened Transport
  import opened Packetizer
  import opened Schedule

  /** One elementary stream with its reused packet. */
  class Stream {
    const tspacket: array<byte>
    const pid: bv16
    const streamId: byte
    var pcrReference: bool
    var packetsCounter: nat
    var lastGopPacketsCounter: nat
    var maxGopPackets: nat
    var framesCounter: nat
    var lastGopFramesCounter: nat
    var pts: nat
    var pesPacketLength: nat

    /** The header fields now in the packet. */
    ghost var start: bool
    ghost var control: byte

    ghost function GetChannel(): Channel
      reads this
    {
      Channel(pid, streamId, pcrReference)
    }

    ghost function GetCount(): Count
      reads this
    {
      Count(packetsCounter, lastGopPacketsCounter, maxGopPackets, framesCounter, lastGopFramesCounter)
    }

    ghost predicate Valid()
      reads this, tspacket
    {
      && tspacket.Length == TSPACKET_LENGTH
      && IsPidOctet(Hi(pid))
      && IsControl(control)
      && HasHeader(tspacket[..], pid, start, control, packetsCounter)
    }

    constructor (pid: bv16, streamId: byte)
      requires IsPidOctet(Hi(pid))
      ensures Valid() && fresh(tspacket)
      ensures GetChannel() == Channel(pid, streamId, false) && GetCount() == ZERO
    {
      tspacket := new byte[TSPACKET_LENGTH](_ => 0xff);
      this.pid := pid;
      this.streamId := streamId;
      pcrReference := false;
      packetsCounter := 0;
      lastGopPacketsCounter := 0;
      maxGopPackets := 0;
      framesCounter := 0;
      lastGopFramesCounter := 0;
      pts := 0;
      pesPacketLength := 0;
      start := true;
      control := PAYLOAD_ONLY;
      new;
      HeaderInit(tspacket, pid);
    }

    method SetStart(now: bool)
      requires Valid()
      modifies this`start, tspacket
      ensures Valid() && start == now && tspacket[HEADER..] == old(tspacket[HEADER..])
    {
      StartEditKeepsRest(tspacket[..], pid, start, control, packetsCounter, now);
      hide HasHeader, WithStart, Splice;
      SetStartIndicator(tspacket, now);
      start := now;
    }

    method SetControl(now: byte)
      requires Valid() && IsControl(now)
      modifies this`control, tspacket
      ensures Valid() && control == now && tspacket[HEADER..] == old(tspacket[HEADER..])
    {
      ControlMask(control);
      ControlEditKeepsRest(tspacket[..], pid, start, control, packetsCounter, now);
      hide HasHeader, WithControl, Splice;
      SetAdaptationControl(tspacket, now);
      control := now;
    }

    /** The packet has been written: count it and turn its header into the next one. */
    method Next()
      requires Valid()
      modifies this`packetsCounter, tspacket
      ensures Valid() && packetsCounter == old(packetsCounter) + 1
    {
      ControlMask(control);
      CounterEditKeepsRest(tspacket[..], pid, start, control, packetsCounter);
      hide HasHeader, WithNextCounter, Splice;
      packetsCounter := packetsCounter + 1;
      IncrementContinuity(tspacket);
    }
  }

  lemma ControlMask(control: byte)
    requires IsControl(control)
    ensures control & 0xcf == 0
  {
  }

  /** spts_tspacket_header_init: the whole packet 0xff, then a header that starts a unit. */
  method HeaderInit(p: array<byte>, pid: bv16)
    requires p.Length == TSPACKET_LENGTH && IsPidOctet(Hi(pid))
    modifies p
    ensures p[..] == HeaderOctets(pid, true, PAYLOAD_ONLY, 0) + Fill(PAYLOAD, 0xff)
  {
    hide Hi, Lo, Splice;
    ghost var was := p[..];
    Put(p, 0, Fill(TSPACKET_LENGTH, 0xff));
    Put(p, 0, [0x47]);
    Put(p, 1, [0x40 | 0x20 | Hi(pid), Lo(pid)]);
    Put(p, 3, [0x00 | 0x10 | 0x00]);
    FourStores(was, 0x47, FlagsOctet(pid, true), Lo(pid), 0x10);
    assert ControlOctet(PAYLOAD_ONLY, 0) == 0x10;
  }

  lemma FourStores(p: seq<byte>, a: byte, b: byte, c: byte, d: byte)
    requires |p| == TSPACKET_LENGTH
    ensures Splice(Splice(Splice(Splice(p, 0, Fill(TSPACKET_LENGTH, 0xff)), 0, [a]), 1, [b, c]), 3, [d]) ==
            [a, b, c, d] + Fill(PAYLOAD, 0xff)
  {
    var f := Splice(p, 0, Fill(TSPACKET_LENGTH, 0xff));
    assert f == Fill(TSPACKET_LENGTH, 0xff);
    SpliceAppend(f, 0, [a], [b, c]);
    SpliceAppend(f, 0, [a] + [b, c], [d]);
    assert [a] + [b, c] + [d] == [a, b, c, d];
    assert f[4..] == Fill(PAYLOAD, 0xff);
    assert Splice(f, 0, [a, b, c, d]) == [a, b, c, d] + f[4..];
  }

  /** Field, PES header and data stored one behind the other leave nothing of the old packet but its header. */
  lemma ThreeStores(p: seq<byte>, a: seq<byte>, h: seq<byte>, d: seq<byte>)
    requires |p| == TSPACKET_LENGTH && HEADER + |a| + |h| + |d| == TSPACKET_LENGTH
    ensures Splice(Splice(Splice(p, HEADER, a), HEADER + |a|, h), HEADER + |a| + |h|, d) == p[..HEADER] + a + (h + d)
  {
    SpliceAppend(p, HEADER, a, h);
    SpliceAppend(p, HEADER, a + h, d);
    assert a + h + d == a + (h + d);
    assert Splice(p, HEADER, a + (h + d)) == p[..HEADER] + (a + (h + d));
  }

  /** The last octets of a frame are stored behind the length they leave for stuffing, whatever that store wrote. */
  lemma TwoStores(p: seq<byte>, length: nat, d: seq<byte>)
    requires |p| == TSPACKET_LENGTH && 0 < |d| && HEADER + length + 1 + |d| == TSPACKET_LENGTH
    ensures LengthSane(AdaptationInfo(0x00, length, 0))
    ensures Splice(Splice(p, HEADER, AdaptationOctets(AdaptationInfo(0x00, length, 0))), HEADER + length + 1, d) ==
            p[..HEADER] + StuffField(length) + d
  {
    PcrFlagSet();
    var f := AdaptationOctets(AdaptationInfo(0x00, length, 0));
    hide AdaptationOctets, HasPcr;
    var q := Splice(p, HEADER, f);
    assert q[..HEADER + length + 1] == p[..HEADER] + f[..length + 1];
  }

  lemma FixedPids()
    ensures IsPidOctet(Hi(PAT_PID)) && IsPidOctet(Hi(PMT_PID)) && IsPidOctet(Hi(VIDEO_PID)) && IsPidOctet(Hi(AUDIO_PID))
  {
  }

  /** spts_tspacket_new. */
  method NewPacket(pid: bv16) returns (p: array<byte>)
    requires pid == PAT_PID || pid == PMT_PID
    ensures fresh(p) && p.Length == TSPACKET_LENGTH
    ensures HasHeader(p[..], pid, true, PAYLOAD_ONLY, 0) && p[HEADER..] == Fill(PAYLOAD, 0xff)
  {
    hide HeaderOctets;
    FixedPids();
    p := new byte[TSPACKET_LENGTH](_ => 0xff);
    HeaderInit(p, pid);
  }

  /** spts_psi_pat_init. */
  method NewPat() returns (p: array<byte>)
    ensures fresh(p) && HasHeader(p[..], PAT_PID, true, PAYLOAD_ONLY, 0) && p[HEADER..] == PatPayload()
  {
    hide Splice, PatBody, Sealed, HeaderOctets;
    p := NewPacket(PAT_PID);
    PatStored(p[..]);
    PatSectionSet(p, HEADER, PROGRAM_NUMBER, PMT_PID);
  }

  /** spts_null_packet_init. */
  method NewNullPacket() returns (p: array<byte>)
    ensures fresh(p) && p[..] == NullPacket()
  {
    p := new byte[TSPACKET_LENGTH](_ => 0x00);
    Put(p, 0, [0x47, 0x1f, 0xff, 0x10]);
    Put(p, 4, Fill(TSPACKET_LENGTH - 4, 0xff));
  }

  lemma PatStored(was: seq<byte>)
    requires |was| == TSPACKET_LENGTH && was[HEADER..] == Fill(PAYLOAD, 0xff)
    ensures var p := Splice(was, HEADER, Sealed(PatBody(PROGRAM_NUMBER, PMT_PID)));
            p[..HEADER] == was[..HEADER] && p[HEADER..] == PatPayload()
  {
    var section := Sealed(PatBody(PROGRAM_NUMBER, PMT_PID));
    hide Sealed, PatBody;
    assert was[HEADER + 17..] == was[HEADER..][17..];
    assert Splice(was, HEADER, section)[HEADER..] == section + was[HEADER + 17..];
  }

  class SpTs {
    const pat: array<byte>
    const pmtTspacket: array<byte>
    const nullPacket: array<byte>
    const pmtSection: PmtSection
    var videoStream: Stream?
    var audioStream: Stream?
    var packetsCounter: nat
    var gopCounter: nat

    /** Everything handed to write_func, and every frame written, so far. */
    ghost var trace: seq<seq<byte>>
    ghost var history: seq<Frame>

    ghost function GetSetup(): Setup
      reads `videoStream, `audioStream, pmtSection, videoStream, audioStream
    {
      Setup(pmtSection.state, videoStream != null && videoStream.pcrReference,
            audioStream != null && audioStream.pcrReference)
    }

    ghost function GetState(): State
      reads this, videoStream, audioStream
    {
      State(packetsCounter, gopCounter,
            if videoStream != null then videoStream.GetCount() else ZERO,
            if audioStream != null then audioStream.GetCount() else ZERO)
    }

    ghost predicate Separate()
      reads this, pmtSection, videoStream, audioStream
    {
      && pat != pmtTspacket && pat != nullPacket && pmtTspacket != nullPacket && pmtSection.data == pmtTspacket
      && (videoStream != null ==> videoStream.tspacket !in {pat, pmtTspacket, nullPacket})
      && (audioStream != null ==> audioStream.tspacket !in {pat, pmtTspacket, nullPacket})
      && (videoStream != null && audioStream != null ==>
            videoStream != audioStream && videoStream.tspacket != audioStream.tspacket)
    }

    /** The table packets, ready to be written for the k-th time, and the null packet. */
    ghost predicate PacketsReady(k: nat)
      reads this, pat, pmtTspacket, nullPacket, pmtSection
    {
      && HasHeader(pat[..], PAT_PID, true, PAYLOAD_ONLY, k) && pat[HEADER..] == PatPayload()
      && HasHeader(pmtTspacket[..], PMT_PID, true, PAYLOAD_ONLY, k)
      && pmtSection.data == pmtTspacket && pmtSection.Valid()
      && nullPacket[..] == NullPacket()
    }

    ghost predicate StreamsReady()
      reads this, videoStream, audioStream
      reads if videoStream != null then {videoStream.tspacket} else {}
      reads if audioStream != null then {audioStream.tspacket} else {}
    {
      && (videoStream != null ==> videoStream.Valid() && videoStream.pid == VIDEO_PID && videoStream.streamId == STREAM_ID_VIDEO)
      && (audioStream != null ==> audioStream.Valid() && audioStream.pid == AUDIO_PID && audioStream.streamId == STREAM_ID_AUDIO)
    }

    ghost predicate Shape()
      reads this, pmtSection, videoStream, audioStream, pat, pmtTspacket, nullPacket
      reads if videoStream != null then {videoStream.tspacket} else {}
      reads if audioStream != null then {audioStream.tspacket} else {}
    {
      Separate() && PacketsReady(gopCounter) && StreamsReady()
    }

    /** The writer has sent, and is in the state, that the schedule gives for the frames written so far. */
    ghost predicate Valid()
      reads this, pmtSection, videoStream, audioStream, pat, pmtTspacket, nullPacket
      reads if videoStream != null then {videoStream.tspacket} else {}
      reads if audioStream != null then {audioStream.tspacket} else {}
    {
      && Shape()
      && GetState() == StateAfter(GetSetup(), START, history)
      && trace == Trace(GetSetup(), START, history)
    }

    /** Both streams have been added. */
    ghost predicate Both()
      reads `videoStream, `audioStream
    {
      videoStream != null && audioStream != null
    }

    /**
     The streams that a frame is written through are there: its own one, unless the frame is dropped,
     and for an IDR frame also the audio stream, whose statistics it closes.
     */
    ghost predicate CanWrite(f: Frame)
      reads `videoStream, `audioStream, `packetsCounter
    {
      && (f.kind.Video? ==> videoStream != null)
      && (IsIdr(f) ==> audioStream != null)
      && (f.kind.Audio? && packetsCounter != 0 ==> audioStream != null)
    }

    /** spts_new. */
    constructor ()
      ensures Valid() && fresh(pmtSection) && fresh(pat) && fresh(pmtTspacket) && fresh(nullPacket)
      ensures history == [] && videoStream == null && audioStream == null
      ensures pmtSection.state == PmtInitial(PROGRAM_NUMBER) && pmtSection.videoPid == 0 && pmtSection.audioPid == 0
    {
      hide HeaderOctets, PatPayload, PmtPayload, NullPacket;
      var p := NewPat();
      var q := NewPacket(PMT_PID);
      var section := new PmtSection(q, PROGRAM_NUMBER);
      var r := NewNullPacket();
      pat := p;
      pmtTspacket := q;
      pmtSection := section;
      nullPacket := r;
      videoStream := null;
      audioStream := null;
      packetsCounter := 0;
      gopCounter := 0;
      trace := [];
      history := [];
    }

    /**
     spts_add_stream. The PID argument of the original is not used. A stream starts with all
     counters at zero and no PCR. The writer goes on in the state that it is in, also after frames
     have been written; only replacing a stream that has counted packets breaks with the schedule.
     */
    method AddStream(streamType: byte)
      requires Valid()
      modifies this`videoStream, this`audioStream
      ensures Shape()
      ensures GetState() == if streamType == STREAM_TYPE_VIDEO_H264 then old(GetState()).(video := ZERO)
                            else old(GetState()).(audio := ZERO)
      ensures history == [] || (if streamType == STREAM_TYPE_VIDEO_H264 then old(videoStream) else old(audioStream)) == null ==>
                Valid()
      ensures if streamType == STREAM_TYPE_VIDEO_H264
              then videoStream != null && fresh(videoStream) && fresh(videoStream.tspacket)
                   && !videoStream.pcrReference && audioStream == old(audioStream)
              else audioStream != null && fresh(audioStream) && fresh(audioStream.tspacket)
                   && !audioStream.pcrReference && videoStream == old(videoStream)
      ensures GetSetup() == if streamType == STREAM_TYPE_VIDEO_H264 then old(GetSetup()).(videoPcr := false)
                            else old(GetSetup()).(audioPcr := false)
    {
      hide Shape, StateAfter, Trace, Stream.Valid;
      NothingWritten(GetSetup());
      PutStream(streamType);
      NothingWritten(GetSetup());
    }

    lemma NothingWritten(setup: Setup)
      ensures StateAfter(setup, START, []) == START && Trace(setup, START, []) == []
    {
    }

    method PutStream(streamType: byte)
      requires Shape()
      modifies this`videoStream, this`audioStream
      ensures Shape()
      ensures if streamType == STREAM_TYPE_VIDEO_H264
              then videoStream != null && fresh(videoStream) && fresh(videoStream.tspacket)
                   && !videoStream.pcrReference && videoStream.GetCount() == ZERO && audioStream == old(audioStream)
              else audioStream != null && fresh(audioStream) && fresh(audioStream.tspacket)
                   && !audioStream.pcrReference && audioStream.GetCount() == ZERO && videoStream == old(videoStream)
    {
      hide HasHeader, PatPayload, PmtPayload, NullPacket;
      FixedPids();
      if streamType == STREAM_TYPE_VIDEO_H264 {
        videoStream := new Stream(VIDEO_PID, STREAM_ID_VIDEO);
      } else {
        audioStream := new Stream(AUDIO_PID, STREAM_ID_AUDIO);
      }
    }

    /** psi_pmt_section_stream_add on the section of this writer, before any frame. */
    method AdvertiseStream(streamType: byte, streamPid: bv16)
      requires Valid() && history == [] && |pmtSection.state.es| < MAX_STREAMS
      requires streamType == STREAM_TYPE_VIDEO_H264 || streamType == STREAM_TYPE_AUDIO_AAC
      modifies pmtSection, pmtTspacket
      ensures Valid()
      ensures pmtSection.state == PmtApply(old(pmtSection.state), PmtOp.AddStream(Es(streamType, streamPid)))
      ensures if streamType == STREAM_TYPE_VIDEO_H264
              then pmtSection.videoPid == streamPid && pmtSection.audioPid == old(pmtSection.audioPid)
              else pmtSection.audioPid == streamPid && pmtSection.videoPid == old(pmtSection.videoPid)
      ensures GetSetup() == old(GetSetup()).(pmt := pmtSection.state)
    {
      hide HeaderOctets, PatPayload, PmtPayload, NullPacket;
      pmtSection.StreamAdd(streamType, streamPid);
    }

    /** psi_pmt_section_pcr_pid_set on the section of this writer, before any frame. */
    method AdvertisePcr(pcrPid: bv16)
      requires Valid() && history == []
      modifies pmtSection, pmtTspacket
      ensures Valid()
      ensures pmtSection.state == PmtApply(old(pmtSection.state), SetPcr(pcrPid))
      ensures pmtSection.videoPid == old(pmtSection.videoPid) && pmtSection.audioPid == old(pmtSection.audioPid)
      ensures GetSetup() == old(GetSetup()).(pmt := pmtSection.state)
    {
      hide HeaderOctets, PatPayload, PmtPayload, NullPacket;
      pmtSection.PcrPidSet(pcrPid);
    }

    /** Makes a stream carry the clock, before any frame. */
    method CarryPcr(stream: Stream)
      requires Valid() && history == [] && (stream == videoStream || stream == audioStream)
      modifies stream`pcrReference
      ensures Valid() && stream.pcrReference
      ensures GetSetup() == if stream == videoStream then old(GetSetup()).(videoPcr := true) else old(GetSetup()).(audioPcr := true)
    {
      hide HasHeader, PatPayload, PmtPayload, NullPacket;
      stream.pcrReference := true;
    }

    /** The write function: what it does with the packet is not modelled beyond remembering it. */
    method Write(packet: array<byte>)
      modifies this`trace
      ensures trace == old(trace) + [packet[..]]
    {
      trace := trace + [packet[..]];
    }

    /**
     The first packet of a frame, with or without PCR. The frame is `data`; the result is how
     much of it went out.
     */
    method SendFirst(stream: Stream, data: seq<byte>) returns (buf: nat)
      requires stream.Valid() && stream.start && stream.pesPacketLength == |data|
      modifies stream`control, stream`pesPacketLength, stream.tspacket, this`trace
      ensures stream.Valid()
      ensures trace == old(trace) + [FirstPacket(stream.GetChannel(), stream.packetsCounter, stream.pts, data)]
      ensures buf == Taken(stream.pcrReference, |data|) && stream.pesPacketLength == |data| - buf
    {
      hide AdaptationOctets, HasPcr, Splice, PcrOf, PesHeader, HeaderOctets;
      ghost var field: seq<byte>, was: seq<byte>;
      var offset;
      offset, field, was := SetFirstField(stream, |data|);
      ghost var info := FrameInfo(stream.streamId, |data|, stream.pts);
      var m := PesHeaderSet(stream.tspacket, offset, PesInfo(stream.streamId, stream.pesPacketLength, 0x8080, 0x05, stream.pts));
      offset := offset + m;
      buf := TSPACKET_LENGTH - offset;
      Put(stream.tspacket, offset, data[..buf]);
      ThreeStores(was, field, PesHeader(info), data[..buf]);
      assert stream.tspacket[..] == FirstPacket(stream.GetChannel(), stream.packetsCounter, stream.pts, data);
      assert stream.tspacket[..HEADER] == was[..HEADER];
      Write(stream.tspacket);
      stream.pesPacketLength := stream.pesPacketLength - buf;
    }

    /** The adaptation field of the first packet, if it needs one; the result is where the PES header goes. */
    method SetFirstField(stream: Stream, n: nat) returns (offset: nat, ghost field: seq<byte>, ghost was: seq<byte>)
      requires stream.Valid() && stream.start && stream.pesPacketLength == n
      modifies stream`control, stream.tspacket
      ensures stream.control == FirstControl(stream.pcrReference, n)
      ensures HasHeader(was, stream.pid, true, stream.control, stream.packetsCounter) && IsControl(stream.control)
      ensures field == FirstField(stream.pcrReference, n, stream.pts)
      ensures offset == HEADER + |field| && stream.tspacket[..] == Splice(was, HEADER, field)
    {
      hide AdaptationOctets, HasPcr, PcrOf, HasHeader;
      PcrFlagSet();
      offset := HEADER;
      if stream.pcrReference {
        stream.SetControl(ADAPTATION_AND_PAYLOAD);
        was := stream.tspacket[..];
        var pcr := ClockReference(stream.pts);
        var length := 7;
        if PAYLOAD > length + 1 + PES_HEADER_LENGTH + stream.pesPacketLength {
          length := PAYLOAD - PES_HEADER_LENGTH - stream.pesPacketLength - 1;
        }
        var info := AdaptationInfo(PCR_FLAG, length, pcr);
        assert info == FirstInfo(true, n, stream.pts);
        field := AdaptationOctets(info);
        var written := AdaptationSet(stream.tspacket, info);
        offset := offset + written;
      } else if PAYLOAD > PES_HEADER_LENGTH + stream.pesPacketLength {
        stream.SetControl(ADAPTATION_AND_PAYLOAD);
        was := stream.tspacket[..];
        var info := AdaptationInfo(0x00, PAYLOAD - PES_HEADER_LENGTH - stream.pesPacketLength - 1, 0);
        assert info == FirstInfo(false, n, stream.pts);
        field := AdaptationOctets(info);
        var written := AdaptationSet(stream.tspacket, info);
        offset := offset + written;
      } else {
        stream.SetControl(PAYLOAD_ONLY);
        was := stream.tspacket[..];
        field := [];
        assert Splice(was, HEADER, []) == was;
      }
    }

    method ClockReference(pts: nat) returns (pcr: nat)
      ensures pcr == PcrOf(pts)
    {
      if pts < PCR_LEAD {
        pcr := 0;
      } else {
        pcr := (pts - PCR_LEAD) * 300;
      }
    }

    /** The further packets of a frame of which the octets from `from` on are left. */
    method SendRest(stream: Stream, data: seq<byte>, from: nat)
      requires stream.Valid() && !stream.start && stream.control == PAYLOAD_ONLY
      requires from <= |data| && stream.pesPacketLength == |data| - from
      modifies stream`control, stream`pesPacketLength, stream`packetsCounter, stream.tspacket, this`packetsCounter, this`trace
      ensures stream.Valid() && !stream.start && stream.pesPacketLength == 0
      ensures trace == old(trace) + NextPackets(stream.pid, old(stream.packetsCounter), data[from..])
      ensures stream.packetsCounter == old(stream.packetsCounter) + |trace| - |old(trace)|
      ensures packetsCounter == old(packetsCounter) + |trace| - |old(trace)|
    {
      hide HasHeader, NextPacket, NextPackets;
      var buf := from;
      while stream.pesPacketLength > 0
        invariant stream.Valid() && !stream.start
        invariant from <= buf <= |data| && stream.pesPacketLength == |data| - buf
        invariant stream.pesPacketLength > 0 ==> stream.control == PAYLOAD_ONLY
        invariant old(trace) + NextPackets(stream.pid, old(stream.packetsCounter), data[from..]) ==
                  trace + NextPackets(stream.pid, stream.packetsCounter, data[buf..])
        invariant |old(trace)| <= |trace|
        invariant stream.packetsCounter == old(stream.packetsCounter) + |trace| - |old(trace)|
        invariant packetsCounter == old(packetsCounter) + |trace| - |old(trace)|
        decreases stream.pesPacketLength
      {
        NextGoesOut(trace, stream.pid, stream.packetsCounter, data, buf);
        buf := SendNext(stream, data, buf);
      }
      NothingIsLeft(trace, stream.pid, stream.packetsCounter, data);
    }

    lemma NextGoesOut(sent: seq<seq<byte>>, pid: bv16, k: nat, data: seq<byte>, buf: nat)
      requires buf < |data|
      ensures sent + NextPackets(pid, k, data[buf..]) ==
              sent + [NextPacket(pid, k, data[buf..])] + NextPackets(pid, k + 1, data[buf + NextTake(|data| - buf)..])
    {
      hide NextPacket;
      assert data[buf..][NextTake(|data| - buf)..] == data[buf + NextTake(|data| - buf)..];
    }

    lemma NothingIsLeft(sent: seq<seq<byte>>, pid: bv16, k: nat, data: seq<byte>)
      ensures sent + NextPackets(pid, k, data[|data|..]) == sent
    {
    }

    /** One further packet; the result is how much of the frame has gone out. */
    method SendNext(stream: Stream, data: seq<byte>, buf: nat) returns (next: nat)
      requires stream.Valid() && !stream.start && stream.control == PAYLOAD_ONLY
      requires buf < |data| && stream.pesPacketLength == |data| - buf
      modifies stream`control, stream`pesPacketLength, stream`packetsCounter, stream.tspacket, this`packetsCounter, this`trace
      ensures stream.Valid() && (stream.pesPacketLength > 0 ==> stream.control == PAYLOAD_ONLY)
      ensures next == buf + NextTake(|data| - buf) && stream.pesPacketLength == |data| - next
      ensures trace == old(trace) + [NextPacket(stream.pid, old(stream.packetsCounter), data[buf..])]
      ensures stream.packetsCounter == old(stream.packetsCounter) + 1 && packetsCounter == old(packetsCounter) + 1
    {
      hide HasHeader, NextPacket;
      if stream.pesPacketLength < PAYLOAD {
        SendLast(stream, data, buf);
        next := |data|;
      } else {
        SendFull(stream, data, buf);
        next := buf + PAYLOAD;
      }
      stream.Next();
      packetsCounter := packetsCounter + 1;
    }

    method SendLast(stream: Stream, data: seq<byte>, buf: nat)
      requires stream.Valid() && !stream.start
      requires buf < |data| < buf + PAYLOAD && stream.pesPacketLength == |data| - buf
      modifies stream`control, stream`pesPacketLength, stream.tspacket, this`trace
      ensures stream.Valid() && stream.pesPacketLength == 0
      ensures trace == old(trace) + [NextPacket(stream.pid, stream.packetsCounter, data[buf..])]
    {
      hide AdaptationOctets, HasPcr, Splice, HeaderOctets, StuffField;
      stream.SetControl(ADAPTATION_AND_PAYLOAD);
      ghost var was := stream.tspacket[..];
      var length := PAYLOAD - stream.pesPacketLength - 1;
      TwoStores(was, length, data[buf..]);
      var written := AdaptationSet(stream.tspacket, AdaptationInfo(0x00, length, 0));
      var offset := length + 1 + HEADER;
      Put(stream.tspacket, offset, data[buf..buf + stream.pesPacketLength]);
      assert data[buf..buf + stream.pesPacketLength] == data[buf..];
      assert stream.tspacket[..HEADER] == was[..HEADER];
      Write(stream.tspacket);
      stream.pesPacketLength := 0;
    }

    method SendFull(stream: Stream, data: seq<byte>, buf: nat)
      requires stream.Valid() && !stream.start && stream.control == PAYLOAD_ONLY
      requires buf + PAYLOAD <= |data| && stream.pesPacketLength == |data| - buf
      modifies stream`pesPacketLength, stream.tspacket, this`trace
      ensures stream.Valid() && stream.pesPacketLength == old(stream.pesPacketLength) - PAYLOAD
      ensures trace == old(trace) + [NextPacket(stream.pid, stream.packetsCounter, data[buf..])]
    {
      hide HeaderOctets;
      ghost var was := stream.tspacket[..];
      Put(stream.tspacket, HEADER, data[buf..buf + PAYLOAD]);
      assert data[buf..][..PAYLOAD] == data[buf..buf + PAYLOAD];
      assert stream.tspacket[..] == was[..HEADER] + data[buf..buf + PAYLOAD];
      assert stream.tspacket[..HEADER] == was[..HEADER];
      Write(stream.tspacket);
      stream.pesPacketLength := stream.pesPacketLength - PAYLOAD;
    }

    /** One frame of a stream, cut into packets. */
    method SendFrame(stream: Stream, time: nat, data: seq<byte>)
      requires stream.Valid()
      modifies stream`start, stream`control, stream`pts, stream`pesPacketLength, stream`packetsCounter, stream.tspacket
      modifies this`packetsCounter, this`trace
      ensures stream.Valid()
      ensures trace == old(trace) + FramePackets(stream.GetChannel(), old(stream.packetsCounter), MpegTime(time), data)
      ensures stream.packetsCounter == old(stream.packetsCounter) + |trace| - |old(trace)|
      ensures packetsCounter == old(packetsCounter) + |trace| - |old(trace)|
    {
      hide HasHeader, FirstPacket, NextPackets, MpegTime;
      stream.SetStart(true);
      stream.pts := Ticks(time);
      stream.pesPacketLength := |data|;
      var buf := SendFirst(stream, data);
      stream.Next();
      packetsCounter := packetsCounter + 1;
      stream.SetControl(PAYLOAD_ONLY);
      stream.SetStart(false);
      SendRest(stream, data, buf);
    }

    method Ticks(time: nat) returns (pts: nat)
      ensures pts == MpegTime(time)
    {
      pts := time * 90_000 / 1_000_000_000;
    }

    /** spts_psi_write. */
    method PsiWrite()
      requires Separate() && PacketsReady(gopCounter)
      modifies this`packetsCounter, this`trace, pat, pmtTspacket
      ensures packetsCounter == old(packetsCounter) + 2
      ensures PacketsReady(gopCounter + 1)
      ensures trace == old(trace) + [PatPacket(gopCounter), PmtPacket(pmtSection.state, gopCounter)]
    {
      hide HeaderOctets, PatPayload, PmtPayload, Splice, WithNextCounter, NullPacket;
      PlainControl();
      CounterEditKeepsRest(pat[..], PAT_PID, true, PAYLOAD_ONLY, gopCounter);
      CounterEditKeepsRest(pmtTspacket[..], PMT_PID, true, PAYLOAD_ONLY, gopCounter);
      assert pat[..] == pat[..HEADER] + pat[HEADER..];
      assert pmtTspacket[..] == pmtTspacket[..HEADER] + pmtTspacket[HEADER..];
      Write(pat);
      IncrementContinuity(pat);
      packetsCounter := packetsCounter + 1;
      Write(pmtTspacket);
      IncrementContinuity(pmtTspacket);
      packetsCounter := packetsCounter + 1;
    }

    lemma PlainControl()
      ensures PAYLOAD_ONLY & 0xcf == 0
    {
    }

    /** Null packets up to the planned start of the next group of pictures. */
    method Pad()
      requires nullPacket[..] == NullPacket()
      modifies this`packetsCounter, this`trace
      ensures var n := if old(packetsCounter) < gopCounter * GOP_PACKETS then gopCounter * GOP_PACKETS - old(packetsCounter) else 0;
              packetsCounter == old(packetsCounter) + n && trace == old(trace) + Nulls(n)
    {
      hide NullPacket;
      ghost var n := 0;
      while packetsCounter < gopCounter * (1830 + 270 + 2)
        invariant packetsCounter == old(packetsCounter) + n && (n > 0 ==> packetsCounter <= gopCounter * GOP_PACKETS)
        invariant trace == old(trace) + Nulls(n)
      {
        Write(nullPacket);
        packetsCounter := packetsCounter + 1;
        n := n + 1;
      }
    }

    /** The statistics of the group of pictures that an IDR frame closes. */
    method CloseGop()
      requires Shape() && Both()
      modifies videoStream`lastGopFramesCounter, videoStream`maxGopPackets, videoStream`lastGopPacketsCounter
      modifies audioStream`maxGopPackets, audioStream`lastGopPacketsCounter
      ensures Shape() && GetSetup() == old(GetSetup())
      ensures GetState() == old(GetState()).(video := old(GetState()).video.Close().(lastGopFrames := old(GetState()).video.frames),
                                             audio := old(GetState()).audio.Close())
    {
      hide HasHeader, PatPayload, PmtPayload, NullPacket;
      videoStream.lastGopFramesCounter := videoStream.framesCounter;
      if videoStream.packetsCounter - videoStream.lastGopPacketsCounter > videoStream.maxGopPackets {
        videoStream.maxGopPackets := videoStream.packetsCounter - videoStream.lastGopPacketsCounter;
      }
      videoStream.lastGopPacketsCounter := videoStream.packetsCounter;
      if audioStream.packetsCounter - audioStream.lastGopPacketsCounter > audioStream.maxGopPackets {
        audioStream.maxGopPackets := audioStream.packetsCounter - audioStream.lastGopPacketsCounter;
      }
      audioStream.lastGopPacketsCounter := audioStream.packetsCounter;
    }

    /** An IDR frame opens a group: padding, tables, and the statistics of the group that it closes. */
    method StartGop()
      requires Shape() && Both()
      modifies this`packetsCounter, this`trace, this`gopCounter, pat, pmtTspacket
      modifies videoStream`lastGopFramesCounter, videoStream`maxGopPackets, videoStream`lastGopPacketsCounter
      modifies audioStream`maxGopPackets, audioStream`lastGopPacketsCounter
      ensures Shape() && GetSetup() == old(GetSetup())
      ensures GetState() == OpenGop(old(GetState()))
      ensures trace == old(trace) + Opening(GetSetup(), old(GetState()))
    {
      hide HasHeader, PatPayload, PmtPayload, NullPacket, PatPacket, PmtPacket, Nulls;
      OpenPackets();
      CloseGop();
    }

    method OpenPackets()
      requires Shape()
      modifies this`packetsCounter, this`trace, this`gopCounter, pat, pmtTspacket
      ensures Shape() && GetSetup() == old(GetSetup())
      ensures GetState() == old(GetState()).(packets := old(packetsCounter) + Padding(old(GetState())) + 2, gops := old(gopCounter) + 1)
      ensures trace == old(trace) + Opening(GetSetup(), old(GetState()))
    {
      hide HasHeader, PatPayload, PmtPayload, NullPacket, PatPacket, PmtPacket, Nulls;
      Pad();
      PsiWrite();
      gopCounter := gopCounter + 1;
    }

    method SendVideo(f: Frame)
      requires Shape() && videoStream != null && f.kind.Video?
      modifies videoStream, videoStream.tspacket, this`packetsCounter, this`trace
      ensures videoStream == old(videoStream) && audioStream == old(audioStream)
      ensures history == old(history)
      ensures Shape() && GetSetup() == old(GetSetup())
      ensures trace == old(trace) + Sent(GetSetup(), old(GetState()), f)
      ensures GetState() == Bump(old(GetState()), Video, |Sent(GetSetup(), old(GetState()), f)|)
    {
      hide HasHeader, PatPayload, PmtPayload, NullPacket, FramePackets, MpegTime;
      SendFrame(videoStream, f.time, f.data);
    }

    method SendAudio(f: Frame)
      requires Shape() && audioStream != null && f.kind.Audio?
      modifies audioStream, audioStream.tspacket, this`packetsCounter, this`trace
      ensures videoStream == old(videoStream) && audioStream == old(audioStream)
      ensures history == old(history)
      ensures Shape() && GetSetup() == old(GetSetup())
      ensures trace == old(trace) + Sent(GetSetup(), old(GetState()), f)
      ensures GetState() == Bump(old(GetState()), Audio, |Sent(GetSetup(), old(GetState()), f)|)
    {
      hide HasHeader, PatPayload, PmtPayload, NullPacket, FramePackets, MpegTime;
      SendFrame(audioStream, f.time, f.data);
    }

    method CountFrame()
      requires Shape() && videoStream != null
      modifies videoStream`framesCounter
      ensures Shape() && GetSetup() == old(GetSetup())
      ensures GetState() == old(GetState()).(video := old(GetState()).video.(frames := old(GetState()).video.frames + 1))
    {
      hide HasHeader, PatPayload, PmtPayload, NullPacket;
      videoStream.framesCounter := videoStream.framesCounter + 1;
    }

    ghost method Remember(f: Frame)
      requires Shape()
      modifies this`history
      ensures videoStream == old(videoStream) && audioStream == old(audioStream)
      ensures Shape() && GetSetup() == old(GetSetup()) && GetState() == old(GetState())
      ensures history == old(history) + [f]
    {
      hide HasHeader, PatPayload, PmtPayload, NullPacket;
      history := history + [f];
    }

    /** Counts a video frame, and opens a group if it is an IDR frame. */
    method AcceptVideo(f: Frame)
      requires Shape() && CanWrite(f) && f.kind.Video?
      modifies this`packetsCounter, this`trace, this`gopCounter, pat, pmtTspacket
      modifies videoStream`framesCounter, videoStream`lastGopFramesCounter, videoStream`maxGopPackets
      modifies videoStream`lastGopPacketsCounter, audioStream
      ensures videoStream == old(videoStream) && audioStream == old(audioStream)
      ensures history == old(history)
      ensures Shape() && GetSetup() == old(GetSetup()) && GetState() == Ready(old(GetState()), f)
      ensures trace == old(trace) + if IsIdr(f) then Opening(GetSetup(), old(GetState())) else []
    {
      hide PacketsReady, StreamsReady, Separate, OpenGop, Nulls, PatPacket, PmtPacket;
      CountFrame();
      if !f.delta {
        StartGop();
      }
    }

    method PassVideo(f: Frame)
      requires Shape() && CanWrite(f) && f.kind.Video?
      modifies this`packetsCounter, this`trace, this`gopCounter, pat, pmtTspacket
      modifies videoStream, videoStream.tspacket, audioStream
      ensures Shape() && GetSetup() == old(GetSetup())
      ensures GetState() == After(GetSetup(), old(GetState()), f)
      ensures trace == old(trace) + Emitted(GetSetup(), old(GetState()), f)
    {
      StepCases(GetSetup(), GetState(), f);
      hide Shape, GetSetup, GetState, After, Emitted, Ready, Bump, Sent, Opening;
      AcceptVideo(f);
      SendVideo(f);
    }

    /** spts_write_frame, apart from the record of frames. */
    method PassFrame(f: Frame)
      requires Shape() && CanWrite(f)
      modifies this`packetsCounter, this`trace, this`gopCounter, pat, pmtTspacket, videoStream, audioStream
      modifies if videoStream != null then {videoStream.tspacket} else {}
      modifies if audioStream != null then {audioStream.tspacket} else {}
      ensures Shape() && GetSetup() == old(GetSetup())
      ensures GetState() == After(GetSetup(), old(GetState()), f)
      ensures trace == old(trace) + Emitted(GetSetup(), old(GetState()), f)
    {
      assert GetState().packets == packetsCounter;
      StepCases(GetSetup(), GetState(), f);
      hide Shape, GetSetup, GetState, After, Emitted, Bump, Sent;
      if f.kind.Video? {
        PassVideo(f);
      } else if packetsCounter != 0 {
        SendAudio(f);
      }
    }

    lemma StepCases(setup: Setup, st: State, f: Frame)
      ensures f.kind.Video? ==>
                var ready := Ready(st, f);
                && After(setup, st, f) == Bump(ready, Video, |Sent(setup, ready, f)|)
                && Emitted(setup, st, f) == (if IsIdr(f) then Opening(setup, st) else []) + Sent(setup, ready, f)
      ensures f.kind.Audio? && st.packets != 0 ==>
                && After(setup, st, f) == Bump(st, Audio, |Sent(setup, st, f)|)
                && Emitted(setup, st, f) == Sent(setup, st, f)
      ensures f.kind.Audio? && st.packets == 0 ==> After(setup, st, f) == st && Emitted(setup, st, f) == []
    {
      SentCountsOnlyPackets(setup, st, f);
      hide Sent, Opening, OpenGop;
      assert [] + Sent(setup, st, f) == Sent(setup, st, f);
    }

    /** spts_write_frame. */
    method WriteFrame(f: Frame)
      requires Valid() && CanWrite(f)
      modifies this`packetsCounter, this`trace, this`gopCounter, this`history, pat, pmtTspacket, videoStream, audioStream
      modifies if videoStream != null then {videoStream.tspacket} else {}
      modifies if audioStream != null then {audioStream.tspacket} else {}
      ensures Valid() && GetSetup() == old(GetSetup())
      ensures history == old(history) + [f]
      ensures trace == old(trace) + Emitted(GetSetup(), old(GetState()), f)
    {
      hide Shape, StateAfter, Trace, After, Emitted, GetState, GetSetup;
      RunSnoc(GetSetup(), START, history, f);
      PassFrame(f);
      Remember(f);
    }
  }
}
