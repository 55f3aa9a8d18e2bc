/**
 The element of src/sptsmuxer.c as far as it decides what is written: pads are requested,
 frames arrive on them, and every call of sptsmuxer_collected hands at most one frame to
 the writer.
 */
module Muxer {
  import opened Octets
  import opened Wrappers
  import opened Psi
  import PsiParse
  import opened Transport
  import opened Packetizer
  import opened Schedule
  import opened Spts
  import opened Receiver
  import opened Clock
  import opened Merge
  import Gop

  /** A sink pad with the frames that wait on it. */
  class Pad {
    const kind: Kind
    var queue: seq<Frame>

    constructor (kind: Kind)
      ensures this.kind == kind && queue == []
    {
      this.kind := kind;
      queue := [];
    }
  }

  function NoQueues(n: nat): (q: Queues)
    ensures |q| == n
  {
    seq(n, _ => [])
  }

  function FramesOf(ts: seq<Taken>): (fs: seq<Frame>)
    ensures |fs| == |ts|
  {
    if ts == [] then [] else [ts[0].frame] + FramesOf(ts[1..])
  }

  lemma {:induction false} FramesOfAppend(a: seq<Taken>, b: seq<Taken>)
    ensures FramesOf(a + b) == FramesOf(a) + FramesOf(b)
  {
    if a == [] {
      assert a + b == b;
    } else {
      assert (a + b)[0] == a[0] && (a + b)[1..] == a[1..] + b;
      FramesOfAppend(a[1..], b);
      assert [a[0].frame] + (FramesOf(a[1..]) + FramesOf(b)) == [a[0].frame] + FramesOf(a[1..]) + FramesOf(b);
    }
  }

  lemma {:induction false} RunSnocEvent(q: Queues, es: seq<Event>, e: Event)
    ensures QueuesAfter(q, es + [e]) == StepQueues(QueuesAfter(q, es), e)
    ensures Merged(q, es + [e]) == Merged(q, es) + StepTaken(QueuesAfter(q, es), e)
    decreases |es|
  {
    hide StepQueues, StepTaken;
    if es == [] {
      assert ([] + [e])[1..] == [];
      assert StepTaken(q, e) + [] == [] + StepTaken(q, e);
    } else {
      assert (es + [e])[0] == es[0] && (es + [e])[1..] == es[1..] + [e];
      RunSnocEvent(StepQueues(q, es[0]), es[1..], e);
    }
  }

  /** Every frame taken is of the kind of its pad. */
  ghost predicate Pure(ts: seq<Taken>, kinds: seq<Kind>) {
    forall i :: 0 <= i < |ts| ==> ts[i].pad < |kinds| && ts[i].frame.kind == kinds[ts[i].pad]
  }

  /** Every waiting frame is of the kind of its pad. */
  ghost predicate QueuesPure(q: Queues, kinds: seq<Kind>) {
    |q| == |kinds| && forall i, k :: 0 <= i < |q| && 0 <= k < |q[i]| ==> q[i][k].kind == kinds[i]
  }

  /** No two pads of one kind. */
  ghost predicate OneOfEach(kinds: seq<Kind>) {
    forall p, q :: 0 <= p < |kinds| && 0 <= q < |kinds| && kinds[p] == kinds[q] ==> p == q
  }

  /** The frames of a kind among those taken are the ones taken from the pad of that kind. */
  lemma {:induction false} KindIsPad(ts: seq<Taken>, kinds: seq<Kind>, p: nat)
    requires Pure(ts, kinds) && OneOfEach(kinds) && p < |kinds|
    ensures OfKind(FramesOf(ts), kinds[p]) == FromPad(ts, p)
  {
    if ts != [] {
      KindIsPad(ts[1..], kinds, p);
      assert FramesOf(ts)[1..] == FramesOf(ts[1..]);
    }
  }

  /** How a pad is registered with the writer. */
  function TypeOf(kind: Kind): byte {
    match kind
    case Video => STREAM_TYPE_VIDEO_H264
    case Audio => STREAM_TYPE_AUDIO_AAC
  }

  function EsOf(kinds: seq<Kind>): (es: seq<Es>)
    ensures |es| == |kinds|
  {
    if kinds == [] then [] else EsOf(kinds[..|kinds| - 1]) + [Es(TypeOf(kinds[|kinds| - 1]), PidOf(kinds[|kinds| - 1]))]
  }

  /** The frame that the next collection takes, if there is one. */
  function Waiting(q: Queues): (fs: seq<Frame>)
    ensures |fs| <= 1
  {
    if Next(q).None? then [] else [q[Next(q).value][0]]
  }

  class SpTsMuxer {
    const spts: SpTs
    var pads: seq<Pad>
    var first: bool

    /** What has happened on the pads. */
    ghost var events: seq<Event>

    ghost function GetQueues(): (q: Queues)
      reads `pads, pads
      ensures |q| == |pads|
    {
      var ps := pads;
      seq(|ps|, i requires 0 <= i < |ps| reads ps => ps[i].queue)
    }

    ghost function Kinds(): (ks: seq<Kind>)
      reads `pads
      ensures |ks| == |pads|
    {
      var ps := pads;
      seq(|ps|, i requires 0 <= i < |ps| => ps[i].kind)
    }

    /** The frames handed to the writer, with their pads. */
    ghost function GetTaken(): seq<Taken>
      reads `pads, `events
    {
      Merged(NoQueues(|pads|), events)
    }

    ghost predicate PadsValid()
      reads `pads, `events, pads
    {
      && (forall i, j :: 0 <= i < j < |pads| ==> pads[i] != pads[j])
      && ArrivalsOn(events, |pads|)
      && GetQueues() == QueuesAfter(NoQueues(|pads|), events)
      && Pure(GetTaken(), Kinds())
      && QueuesPure(GetQueues(), Kinds())
    }

    /** Which streams the writer has, and what its map section records of them, agrees with the pads. */
    static ghost predicate Agrees(spts: SpTs, kinds: seq<Kind>)
      reads spts`videoStream, spts`audioStream, spts.pmtSection
    {
      && (Video in kinds <==> spts.videoStream != null) && (Audio in kinds <==> spts.audioStream != null)
      && (spts.pmtSection.videoPid != 0 <==> spts.videoStream != null)
      && (spts.videoStream != null ==> spts.pmtSection.videoPid == VIDEO_PID)
      && (spts.pmtSection.audioPid != 0 <==> spts.audioStream != null)
      && (spts.audioStream != null ==> spts.pmtSection.audioPid == AUDIO_PID)
      && spts.pmtSection.state.es == EsOf(kinds) && spts.pmtSection.state.program == PROGRAM_NUMBER
    }

    ghost predicate StreamsAgree()
      reads `pads, spts`videoStream, spts`audioStream, spts.pmtSection
    {
      Agrees(spts, Kinds())
    }

    /** Before the first collection nothing has been written; after it the clock has been assigned. */
    ghost predicate PhaseValid()
      reads `pads, `events, `first, spts`history, spts`videoStream, spts`audioStream
      reads spts.pmtSection, spts.videoStream, spts.audioStream
    {
      if first then spts.history == [] && GetTaken() == [] && !spts.GetSetup().videoPcr && !spts.GetSetup().audioPcr
      else
        && (spts.videoStream != null ==> ClockOnVideo(spts.GetSetup()))
        && (spts.videoStream == null && spts.audioStream != null ==> ClockOnAudio(spts.GetSetup()))
    }

    ghost predicate Valid()
      reads this, pads, spts, spts.pmtSection, spts.videoStream, spts.audioStream
      reads spts.pat, spts.pmtTspacket, spts.nullPacket
      reads if spts.videoStream != null then {spts.videoStream.tspacket} else {}
      reads if spts.audioStream != null then {spts.audioStream.tspacket} else {}
    {
      && spts.Valid() && PadsValid() && StreamsAgree() && PhaseValid()
      && spts.history == FramesOf(GetTaken())
    }

    /** sptsmuxer_init. */
    constructor ()
      ensures Valid() && first && pads == [] && events == []
      ensures fresh(spts) && fresh(spts.pmtSection) && fresh(spts.pat) && fresh(spts.pmtTspacket)
    {
      spts := new SpTs();
      pads := [];
      first := true;
      events := [];
      new;
      assert GetTaken() == [];
      assert GetQueues() == NoQueues(0);
    }

    /**
     sptsmuxer_request_new_pad: the stream is added to the writer and to the map section, in the
     order of requests, and the pad to the pads that are collected. A second pad of a kind gives the
     kind a new stream.
     */
    method RequestPad(kind: Kind)
      requires Valid() && first && |pads| < MAX_STREAMS
      modifies this`pads, spts`videoStream, spts`audioStream, spts.pmtSection, spts.pmtTspacket
      ensures Valid() && first && GetTaken() == old(GetTaken())
      ensures Kinds() == old(Kinds()) + [kind]
      ensures |pads| == |old(pads)| + 1 && pads[..|old(pads)|] == old(pads)
      ensures fresh(pads[|old(pads)|]) && pads[|old(pads)|].queue == []
      ensures match kind
              case Video => spts.videoStream != null && fresh(spts.videoStream) && fresh(spts.videoStream.tspacket)
                            && spts.audioStream == old(spts.audioStream)
              case Audio => spts.audioStream != null && fresh(spts.audioStream) && fresh(spts.audioStream.tspacket)
                            && spts.videoStream == old(spts.videoStream)
    {
      hide FramesOf, Merged, SpTs.Valid, Agrees, SpTs.GetSetup, PadsValid;
      AddStreamOf(kind, Kinds());
      AddPad(kind);
    }

    method AddStreamOf(kind: Kind, ghost kinds: seq<Kind>)
      requires spts.Valid() && spts.history == [] && Agrees(spts, kinds) && |kinds| < MAX_STREAMS
      requires !spts.GetSetup().videoPcr && !spts.GetSetup().audioPcr
      modifies spts`videoStream, spts`audioStream, spts.pmtSection, spts.pmtTspacket
      ensures spts.Valid() && !spts.GetSetup().videoPcr && !spts.GetSetup().audioPcr
      ensures Agrees(spts, kinds + [kind])
      ensures match kind
              case Video => spts.videoStream != null && fresh(spts.videoStream) && fresh(spts.videoStream.tspacket)
                            && spts.audioStream == old(spts.audioStream)
              case Audio => spts.audioStream != null && fresh(spts.audioStream) && fresh(spts.audioStream.tspacket)
                            && spts.videoStream == old(spts.videoStream)
    {
      hide SpTs.Shape;
      NotNulls();
      assert (kinds + [kind])[..|kinds|] == kinds;
      spts.AddStream(TypeOf(kind));
      spts.AdvertiseStream(TypeOf(kind), PidOf(kind));
    }

    method AddPad(kind: Kind)
      requires PadsValid()
      modifies this`pads
      ensures PadsValid() && Kinds() == old(Kinds()) + [kind] && GetTaken() == old(GetTaken())
      ensures |pads| == |old(pads)| + 1 && pads[..|old(pads)|] == old(pads)
      ensures fresh(pads[|old(pads)|]) && pads[|old(pads)|].queue == []
    {
      hide Merged, QueuesAfter, Pure;
      ghost var kinds, was := Kinds(), GetQueues();
      var pad := new Pad(kind);
      RunWithEmptyPad(NoQueues(|pads|), events);
      assert NoQueues(|pads| + 1) == NoQueues(|pads|) + [[]];
      PureWithMore(GetTaken(), kinds, kind);
      pads := pads + [pad];
      assert Kinds() == kinds + [kind];
      assert GetQueues() == was + [[]];
    }

    lemma PureWithMore(ts: seq<Taken>, kinds: seq<Kind>, kind: Kind)
      requires Pure(ts, kinds)
      ensures Pure(ts, kinds + [kind])
    {
    }

    /** A frame arrives on a pad. */
    method Push(p: nat, f: Frame)
      requires Valid() && p < |pads| && f.kind == pads[p].kind
      modifies this`events, pads[p]
      ensures Valid() && pads == old(pads) && events == old(events) + [Arrive(p, f)]
      ensures GetTaken() == old(GetTaken())
    {
      hide PadsValid, ClockOnVideo, FramesOf, SpTs.Shape;
      Enqueue(p, f);
      assert spts.Valid();
    }

    method Enqueue(p: nat, f: Frame)
      requires PadsValid() && p < |pads| && f.kind == pads[p].kind
      modifies this`events, pads[p]
      ensures PadsValid() && events == old(events) + [Arrive(p, f)]
      ensures GetTaken() == old(GetTaken()) && Kinds() == old(Kinds())
    {
      hide Merged, QueuesAfter, Pure;
      RunSnocEvent(NoQueues(|pads|), events, Arrive(p, f));
      ghost var was, kinds := GetQueues(), Kinds();
      pads[p].queue := pads[p].queue + [f];
      events := events + [Arrive(p, f)];
      assert Kinds() == kinds;
      assert GetQueues() == was[p := was[p] + [f]];
      NothingTaken(was, p, f);
      assert old(GetTaken()) + [] == old(GetTaken());
    }

    lemma NothingTaken(q: Queues, p: nat, f: Frame)
      ensures StepTaken(q, Arrive(p, f)) == []
      ensures p < |q| ==> StepQueues(q, Arrive(p, f)) == q[p := q[p] + [f]]
    {
    }

    /** The loop of sptsmuxer_collected over the pads: the pad whose frame is written next. */
    method ChoosePad() returns (next: Option<nat>)
      ensures next == Next(GetQueues()) && RightChoice(GetQueues(), next)
    {
      NextIsRight(GetQueues());
      next := None;
      var nextTime := TIME_NONE;
      var i := 0;
      while i < |pads|
        invariant 0 <= i <= |pads|
        invariant next == Choice(GetQueues(), i)
        invariant next.Some? ==> nextTime == HeadTime(GetQueues(), next.value) && nextTime != TIME_NONE
      {
        if pads[i].queue != [] {
          var time := pads[i].queue[0].time;
          if next.None? {
            next := Some(i);
            nextTime := time;
            if nextTime == TIME_NONE {
              ChoiceNone(GetQueues(), i);
              UntimedFirstHead(GetQueues(), i, |pads|);
              break;
            }
          } else if time < nextTime {
            next := Some(i);
            nextTime := time;
          }
        }
        i := i + 1;
      }
    }

    /** The clock goes to the video stream, and to the audio stream only if there is no video. */
    method AssignClock()
      requires spts.Valid() && spts.history == [] && StreamsAgree()
      requires !spts.GetSetup().videoPcr && !spts.GetSetup().audioPcr
      modifies spts.pmtSection, spts.pmtTspacket, spts.videoStream, spts.audioStream
      ensures spts.Valid() && StreamsAgree()
      ensures spts.videoStream != null ==>
                && spts.pmtSection.state == PmtApply(old(spts.pmtSection.state), SetPcr(VIDEO_PID))
                && ClockOnVideo(spts.GetSetup())
      ensures spts.videoStream == null && spts.audioStream != null ==>
                && spts.pmtSection.state == PmtApply(old(spts.pmtSection.state), SetPcr(AUDIO_PID))
                && ClockOnAudio(spts.GetSetup())
      ensures spts.videoStream == null && spts.audioStream == null ==> spts.pmtSection.state == old(spts.pmtSection.state)
    {
      hide SpTs.Shape;
      NotNulls();
      if spts.pmtSection.videoPid != 0 {
        spts.AdvertisePcr(spts.pmtSection.videoPid);
        spts.CarryPcr(spts.videoStream);
      } else if spts.pmtSection.audioPid != 0 {
        spts.AdvertisePcr(spts.pmtSection.audioPid);
        spts.CarryPcr(spts.audioStream);
      }
    }

    /** The first call of sptsmuxer_collected assigns the clock. */
    method SetPcrReference()
      requires Valid() && first
      modifies this`first, spts.pmtSection, spts.pmtTspacket, spts.videoStream, spts.audioStream
      ensures Valid() && !first
      ensures spts.videoStream != null ==> spts.pmtSection.state == PmtApply(old(spts.pmtSection.state), SetPcr(VIDEO_PID))
    {
      hide PadsValid, StreamsAgree, FramesOf, SpTs.Valid, ClockOnVideo, ClockOnAudio, Merged;
      assert spts.history == [];
      AssignClock();
      first := false;
    }

    lemma NotNulls()
      ensures VIDEO_PID != 0 && AUDIO_PID != 0
    {
    }

    /** gst_collect_pads_pop: takes the head of one pad. */
    method Pop(p: nat) returns (f: Frame)
      requires p < |pads| && pads[p].queue != []
      requires forall i, j :: 0 <= i < j < |pads| ==> pads[i] != pads[j]
      modifies pads[p]
      ensures f == old(GetQueues())[p][0]
      ensures GetQueues() == old(GetQueues())[p := old(GetQueues())[p][1..]]
    {
      ghost var was := GetQueues();
      f := pads[p].queue[0];
      pads[p].queue := pads[p].queue[1..];
      assert GetQueues() == was[p := was[p][1..]];
    }

    /** Takes the next frame from the chosen pad, if there is one. */
    method TakeNext() returns (r: Option<Frame>)
      requires PadsValid()
      modifies this`events, pads
      ensures PadsValid() && events == old(events) + [Collect] && Kinds() == old(Kinds())
      ensures GetTaken() == old(GetTaken()) + StepTaken(old(GetQueues()), Collect)
      ensures var c := Next(old(GetQueues())); r == if c.None? then None else Some(old(GetQueues())[c.value][0])
    {
      hide Merged, QueuesAfter, Choice, NoQueues, StepTaken, StepQueues, Pure, QueuesPure, RightChoice;
      RunSnocEvent(NoQueues(|pads|), events, Collect);
      ghost var was, kinds, taken := GetQueues(), Kinds(), GetTaken();
      TakenPure(taken, was, kinds);
      AfterTaking(was);
      var next := ChoosePad();
      r := None;
      if next.Some? {
        var f := Pop(next.value);
        r := Some(f);
      }
      events := events + [Collect];
      assert Kinds() == kinds;
      assert GetTaken() == taken + StepTaken(was, Collect);
    }

    lemma AfterTaking(q: Queues)
      ensures StepQueues(q, Collect) == if Next(q).None? then q else q[Next(q).value := q[Next(q).value][1..]]
    {
    }

    lemma TakenPure(ts: seq<Taken>, q: Queues, kinds: seq<Kind>)
      requires Pure(ts, kinds) && QueuesPure(q, kinds)
      ensures Pure(ts + StepTaken(q, Collect), kinds) && QueuesPure(StepQueues(q, Collect), kinds)
    {
      hide Choice;
    }

    method TakeFrame() returns (fs: seq<Frame>)
      requires PadsValid()
      modifies this`events, pads
      ensures PadsValid() && events == old(events) + [Collect] && Kinds() == old(Kinds())
      ensures GetTaken() == old(GetTaken()) + StepTaken(old(GetQueues()), Collect)
      ensures FramesOf(GetTaken()) == FramesOf(old(GetTaken())) + fs && fs == Waiting(old(GetQueues()))
    {
      hide PadsValid, Merged, Choice, FramesOf, StepTaken;
      ghost var was, taken := GetQueues(), GetTaken();
      var f := TakeNext();
      FramesOfAppend(taken, StepTaken(was, Collect));
      FramesOfStep(was);
      fs := if f.None? then [] else [f.value];
    }

    /** Hands what was taken to the writer. */
    method WriteTaken(fs: seq<Frame>)
      requires spts.Valid() && |fs| <= 1 && (fs != [] ==> spts.CanWrite(fs[0]))
      modifies spts`packetsCounter, spts`trace, spts`gopCounter, spts`history, spts.pat, spts.pmtTspacket
      modifies spts.videoStream, spts.audioStream
      modifies if spts.videoStream != null then {spts.videoStream.tspacket} else {}
      modifies if spts.audioStream != null then {spts.audioStream.tspacket} else {}
      ensures spts.Valid() && spts.GetSetup() == old(spts.GetSetup()) && spts.history == old(spts.history) + fs
    {
      hide SpTs.Valid, SpTs.GetSetup;
      if fs != [] {
        spts.WriteFrame(fs[0]);
      }
    }

    /** sptsmuxer_collected behind its first call. */
    method CollectNext()
      requires Valid() && !first && CanCollect()
      modifies this`events, pads
      modifies spts`packetsCounter, spts`trace, spts`gopCounter, spts`history, spts.pat, spts.pmtTspacket
      modifies spts.videoStream, spts.audioStream
      modifies if spts.videoStream != null then {spts.videoStream.tspacket} else {}
      modifies if spts.audioStream != null then {spts.audioStream.tspacket} else {}
      ensures Valid() && events == old(events) + [Collect]
      ensures GetTaken() == old(GetTaken()) + StepTaken(old(GetQueues()), Collect)
    {
      hide PadsValid, StreamsAgree, FramesOf, StepTaken, Merged, SpTs.Valid, ClockOnVideo, ClockOnAudio, Choice, SpTs.GetSetup,
           SpTs.CanWrite, Waiting, CanCollect;
      WaitingCanBeWritten();
      var fs := TakeFrame();
      WriteTaken(fs);
    }

    /** A waiting frame is of the kind of its pad, and the kind has its stream. */
    lemma WaitingCanBeWritten()
      requires PadsValid() && StreamsAgree() && CanCollect()
      ensures forall f :: f in Waiting(GetQueues()) ==> spts.CanWrite(f)
    {
      hide Choice, Merged, QueuesAfter;
      forall f | f in Waiting(GetQueues()) ensures spts.CanWrite(f) {
        var p := Next(GetQueues()).value;
        assert f == GetQueues()[p][0];
        assert Kinds()[p] == f.kind;
        assert f.kind in Kinds();
      }
    }

    lemma FramesOfStep(q: Queues)
      ensures FramesOf(StepTaken(q, Collect)) == Waiting(q)
      ensures Next(q).None? ==> FramesOf([]) == []
    {
      hide Choice;
      if Next(q).Some? {
        var t := Taken(Next(q).value, q[Next(q).value][0]);
        assert [t][1..] == [];
        assert FramesOf([t]) == [t.frame] + FramesOf([]);
      }
    }

    /** An IDR frame is written only if there is an audio stream, whose statistics it closes. */
    ghost predicate CanCollect()
      reads `pads, pads, spts`audioStream
    {
      forall f :: f in Waiting(GetQueues()) && IsIdr(f) ==> spts.audioStream != null
    }

    /** sptsmuxer_collected. */
    method Collected()
      requires Valid() && CanCollect()
      modifies this`first, this`events, pads, spts.pmtSection
      modifies spts`packetsCounter, spts`trace, spts`gopCounter, spts`history, spts.pat, spts.pmtTspacket
      modifies spts.videoStream, spts.audioStream
      modifies if spts.videoStream != null then {spts.videoStream.tspacket} else {}
      modifies if spts.audioStream != null then {spts.audioStream.tspacket} else {}
      ensures Valid() && !first && events == old(events) + [Collect]
      ensures GetTaken() == old(GetTaken()) + StepTaken(old(GetQueues()), Collect)
      ensures TookRight(old(GetQueues()), old(GetTaken()), GetTaken())
    {
      hide PadsValid, StreamsAgree, PhaseValid, FramesOf, StepTaken, Merged, SpTs.Valid, CanCollect, TookRight;
      CollectTookRight(GetQueues(), GetTaken());
      if first {
        SetPcrReference();
      }
      CollectNext();
    }

    /** A frame arrives or a collection takes place. */
    method Happen(e: Event)
      requires Valid() && (e.Arrive? ==> e.pad < |pads| && e.frame.kind == pads[e.pad].kind) && CanCollect()
      modifies this`first, this`events, pads, spts.pmtSection
      modifies spts`packetsCounter, spts`trace, spts`gopCounter, spts`history, spts.pat, spts.pmtTspacket
      modifies spts.videoStream, spts.audioStream
      modifies if spts.videoStream != null then {spts.videoStream.tspacket} else {}
      modifies if spts.audioStream != null then {spts.audioStream.tspacket} else {}
      ensures Valid() && events == old(events) + [e] && (e.Collect? || !old(first) ==> !first)
    {
      hide Valid, CanCollect, Merged;
      match e {
        case Arrive(p, f) => Push(p, f);
        case Collect => Collected();
      }
    }
  }

  // ----- what comes out of the whole element -----

  /** What was taken from a pad, followed by what still waits there, is what arrived there, in order. */
  lemma NothingIsLost(m: SpTsMuxer, p: nat)
    requires m.PadsValid() && p < |m.pads|
    ensures FromPad(m.GetTaken(), p) + m.pads[p].queue == Arrivals(m.events, p)
  {
    hide Merged, QueuesAfter;
    MergeInterleaves(NoQueues(|m.pads|), m.events, p);
    assert m.GetQueues()[p] == m.pads[p].queue;
    assert [] + Arrivals(m.events, p) == Arrivals(m.events, p);
  }

  /** The parts of the invariant that speak of the whole output. */
  lemma WholeOutput(m: SpTsMuxer)
    requires m.Valid()
    ensures m.spts.history == FramesOf(m.GetTaken())
    ensures m.spts.trace == Trace(m.spts.GetSetup(), START, m.spts.history)
    ensures Pure(m.GetTaken(), m.Kinds())
    ensures !m.first && m.spts.videoStream != null ==> ClockOnVideo(m.spts.GetSetup())
  {
    hide Trace, FramesOf, Merged, Pure, ClockOnVideo, SpTs.Shape;
  }

  /**
   End to end, in every reachable state of the element: demultiplexing everything written so far
   gives the frames handed to the writer, those of audio from the first video frame on.
   */
  lemma ElementRoundTrip(m: SpTsMuxer, kind: Kind, strict: bool)
    requires m.Valid()
    ensures Demux(m.spts.trace, PidOf(kind), strict) ==
            RecoveredAll(ChannelOf(m.spts.GetSetup(), kind), OfKind(FromFirstVideo(FramesOf(m.GetTaken())), kind), strict)
  {
    hide Trace, Demux, RecoveredAll, Accepted, FromFirstVideo, OfKind, FramesOf, Merged, SpTsMuxer.Valid, Pure;
    WholeOutput(m);
    DemuxInvertsMux(m.spts.GetSetup(), START, m.spts.history, kind, strict);
    AcceptedFromStart(m.spts.GetSetup(), m.spts.history, kind);
  }

  /** Video comes back as it was taken from its pad. */
  lemma ElementVideoRoundTrip(m: SpTsMuxer, p: nat, strict: bool)
    requires m.Valid() && OneOfEach(m.Kinds()) && p < |m.pads| && m.pads[p].kind.Video?
    ensures Demux(m.spts.trace, 0x0040, strict) ==
            RecoveredAll(ChannelOf(m.spts.GetSetup(), Video), FromPad(m.GetTaken(), p), strict)
  {
    hide Trace, Demux, RecoveredAll, FromFirstVideo, OfKind, FramesOf, Merged, SpTsMuxer.Valid, Pure, OneOfEach;
    WholeOutput(m);
    ElementRoundTrip(m, Video, strict);
    VideoFromFirstVideo(m.spts.history);
    assert m.Kinds()[p] == Video;
    KindIsPad(m.GetTaken(), m.Kinds(), p);
  }

  /** The frames behind a moment, or from it on. */
  function Since(fs: seq<Frame>, t: nat, behind: bool): seq<Frame> {
    if fs == [] then []
    else (if t < fs[0].time || (t == fs[0].time && !behind) then [fs[0]] else []) + Since(fs[1..], t, behind)
  }

  lemma {:induction false} AllSince(ts: seq<Taken>, t: nat, v: nat, a: nat)
    requires a != v && forall i :: 0 <= i < |ts| ==> NotAfter(t, v, ts[i].frame.time, ts[i].pad)
    ensures Since(FromPad(ts, a), t, a < v) == FromPad(ts, a)
  {
    if ts != [] {
      AllSince(ts[1..], t, v, a);
      assert NotAfter(t, v, ts[0].frame.time, ts[0].pad);
      if ts[0].pad == a {
        SinceCons(ts[0].frame, FromPad(ts[1..], a), t, a < v);
      } else {
        assert FromPad(ts, a) == [] + FromPad(ts[1..], a) == FromPad(ts[1..], a);
      }
    }
  }

  lemma SinceCons(f: Frame, fs: seq<Frame>, t: nat, behind: bool)
    ensures Since([f] + fs, t, behind) ==
            (if t < f.time || (t == f.time && !behind) then [f] else []) + Since(fs, t, behind)
    ensures [] + Since(fs, t, behind) == Since(fs, t, behind)
  {
    assert ([f] + fs)[1..] == fs;
  }

  lemma {:induction false} FirstFromPad(ts: seq<Taken>, v: nat) returns (i: nat)
    requires FromPad(ts, v) != []
    ensures i < |ts| && ts[i].pad == v && ts[i].frame == FromPad(ts, v)[0]
  {
    if ts[0].pad == v {
      i := 0;
    } else {
      assert FromPad(ts, v) == [] + FromPad(ts[1..], v);
      i := FirstFromPad(ts[1..], v);
      i := i + 1;
    }
  }

  lemma {:induction false} NothingSince(ts: seq<Taken>, kinds: seq<Kind>, v: nat)
    requires Pure(ts, kinds) && OneOfEach(kinds) && v < |kinds| && kinds[v].Video?
    requires FromPad(ts, v) == []
    ensures FromFirstVideo(FramesOf(ts)) == []
  {
    if ts != [] {
      assert ts[0].pad != v;
      assert FromPad(ts, v) == [] + FromPad(ts[1..], v);
      NothingSince(ts[1..], kinds, v);
      assert FramesOf(ts)[1..] == FramesOf(ts[1..]);
    }
  }

  /** In frames taken in order, the audio behind the first video frame is told by its time, and at the same time by the order of pads. */
  lemma {:induction false} AudioSinceVideo(ts: seq<Taken>, kinds: seq<Kind>, a: nat, v: nat)
    requires Pure(ts, kinds) && OneOfEach(kinds) && a < |kinds| && v < |kinds|
    requires kinds[a].Audio? && kinds[v].Video? && TakenInOrder(ts, 0, 0)
    requires FromPad(ts, v) != []
    ensures OfKind(FromFirstVideo(FramesOf(ts)), Audio) == Since(FromPad(ts, a), FromPad(ts, v)[0].time, a < v)
  {
    hide NotAfter;
    assert FramesOf(ts)[1..] == FramesOf(ts[1..]);
    if ts[0].pad == v {
      KindIsPad(ts, kinds, a);
      assert ts[0].frame == FromPad(ts, v)[0];
      AllInOrderBehind(ts, v);
      AllSince(ts, ts[0].frame.time, v, a);
    } else {
      assert FromPad(ts, v) == [] + FromPad(ts[1..], v);
      AudioSinceVideo(ts[1..], kinds, a, v);
      AudioFirst(ts, kinds, a, v);
      var i := FirstFromPad(ts, v);
      DroppedSince(ts[0], ts[i], a, v);
      SinceCons(ts[0].frame, FromPad(ts[1..], a), FromPad(ts, v)[0].time, a < v);
    }
  }

  lemma AllInOrderBehind(ts: seq<Taken>, v: nat)
    requires ts != [] && ts[0].pad == v && TakenInOrder(ts, 0, 0)
    ensures forall i :: 0 <= i < |ts| ==> NotAfter(ts[0].frame.time, v, ts[i].frame.time, ts[i].pad)
  {
  }

  lemma AudioFirst(ts: seq<Taken>, kinds: seq<Kind>, a: nat, v: nat)
    requires ts != [] && Pure(ts, kinds) && OneOfEach(kinds) && a < |kinds| && v < |kinds|
    requires kinds[a].Audio? && kinds[v].Video? && ts[0].pad != v
    ensures ts[0].pad == a && ts[0].frame.kind.Audio?
  {
  }

  lemma DroppedSince(x: Taken, y: Taken, a: nat, v: nat)
    requires x.pad == a && y.pad == v && a != v && NotAfter(x.frame.time, x.pad, y.frame.time, y.pad)
    ensures !(y.frame.time < x.frame.time || (y.frame.time == x.frame.time && !(a < v)))
  {
  }

  lemma {:induction false} PidsAreShort(kinds: seq<Kind>)
    ensures PsiParse.ShortPids(EsOf(kinds)) == EsOf(kinds)
  {
    forall i | 0 <= i < |kinds| ensures PsiParse.Pid(EsOf(kinds)[i].pid) == EsOf(kinds)[i].pid {
      EsOfPids(kinds, i);
      PmtPidIsShort();
    }
    NothingCut(EsOf(kinds));
  }

  lemma {:induction false} EsOfPids(kinds: seq<Kind>, i: nat)
    requires i < |kinds|
    ensures EsOf(kinds)[i] == Es(TypeOf(kinds[i]), PidOf(kinds[i]))
  {
    if i < |kinds| - 1 {
      EsOfPids(kinds[..|kinds| - 1], i);
    }
  }

  lemma {:induction false} NothingCut(es: seq<Es>)
    requires forall i :: 0 <= i < |es| ==> PsiParse.Pid(es[i].pid) == es[i].pid
    ensures PsiParse.ShortPids(es) == es
  {
    hide PsiParse.Pid;
    if es != [] {
      NothingCut(es[1..]);
    }
  }

  /** Every map section written advertises the requested streams in the order of requests, and the video stream for the clock. */
  lemma ElementAdvertises(m: SpTsMuxer, t: Ts)
    requires m.Valid() && !m.first && m.spts.videoStream != null
    requires t in Select(m.spts.trace, 0x0020)
    ensures var pmt := PsiParse.ParsePmt(t.payload);
            && pmt.Some? && pmt.value.program == 0x0016 && pmt.value.pcrPid == 0x0040
            && pmt.value.extent == PsiParse.Extent(0, 0, 0) && |pmt.value.es| == |m.pads|
            && forall i :: 0 <= i < |m.pads| ==>
                 pmt.value.es[i] == if m.pads[i].kind.Video? then Es(0x1b, 0x0040) else Es(0x0f, 0x0041)
  {
    SectionOfPads(m);
    hide Trace, Select, PsiParse.ParsePmt, PsiParse.ShortPids, PsiParse.Pid, EsOf, SpTsMuxer.Valid, FramesOf, Merged, Pure, PsiParse.Behind, Stuffing;
    WholeOutput(m);
    TablesReadBack(m.spts.GetSetup(), m.spts.history, t);
    PidsAreShort(m.Kinds());
    PmtPidIsShort();
    EntriesOfPads(m);
  }

  lemma EntriesOfPads(m: SpTsMuxer)
    ensures forall i :: 0 <= i < |m.pads| ==>
              EsOf(m.Kinds())[i] == if m.pads[i].kind.Video? then Es(0x1b, 0x0040) else Es(0x0f, 0x0041)
  {
    forall i | 0 <= i < |m.pads|
      ensures EsOf(m.Kinds())[i] == if m.pads[i].kind.Video? then Es(0x1b, 0x0040) else Es(0x0f, 0x0041)
    {
      EsOfPids(m.Kinds(), i);
    }
  }

  lemma SectionOfPads(m: SpTsMuxer)
    requires m.Valid()
    ensures m.spts.pmtSection.state.es == EsOf(m.Kinds()) && m.spts.pmtSection.state.program == PROGRAM_NUMBER
  {
    hide Merged, Trace, StateAfter, FramesOf, SpTs.Shape, EsOf;
  }

  /**
   Every pad gets its frames in order and with time stamps, and at every collection it has a frame
   or is at its end.
   */
  ghost predicate InOrder(m: SpTsMuxer)
    reads m`pads, m`events
  {
    && (forall p :: 0 <= p < |m.pads| ==> SortedFrom(Arrivals(m.events, p), 0))
    && HeadsReady(NoQueues(|m.pads|), m.events)
  }

  lemma ElementTakesInOrder(m: SpTsMuxer)
    requires InOrder(m)
    ensures TakenInOrder(m.GetTaken(), 0, 0)
  {
    hide Merged, HeadsReady, SortedFrom, Arrivals;
    var q := NoQueues(|m.pads|);
    forall p | 0 <= p < |q| ensures SortedFrom(Remaining(q, m.events, p), Floor(0, 0, p)) {
      assert [] + Arrivals(m.events, p) == Arrivals(m.events, p);
    }
    MergeSorts(q, m.events, 0, 0);
  }

  lemma {:induction false} FramesAt(ts: seq<Taken>, i: nat)
    requires i < |ts|
    ensures FramesOf(ts)[i] == ts[i].frame
  {
    if i > 0 {
      FramesAt(ts[1..], i - 1);
    }
  }

  /** If frames arrive in order, they reach the writer in order of time. */
  lemma ElementWritesInOrder(m: SpTsMuxer)
    requires m.Valid() && InOrder(m)
    ensures Sorted(m.spts.history)
  {
    hide InOrder, Merged, FramesOf, SpTsMuxer.Valid;
    var taken := m.GetTaken();
    WholeOutput(m);
    ElementTakesInOrder(m);
    forall i, j | 0 <= i < j < |m.spts.history| ensures m.spts.history[i].time <= m.spts.history[j].time {
      FramesAt(taken, i);
      FramesAt(taken, j);
      assert NotAfter(taken[i].frame.time, taken[i].pad, taken[j].frame.time, taken[j].pad);
    }
  }

  /**
   Which audio comes back, by times alone: if frames arrive in order, it is the audio taken that is
   later than the first video frame, or as late and its pad behind the video pad.
   */
  lemma ElementAudioRoundTrip(m: SpTsMuxer, a: nat, v: nat, strict: bool)
    requires m.Valid() && InOrder(m) && OneOfEach(m.Kinds())
    requires a < |m.pads| && m.pads[a].kind.Audio? && v < |m.pads| && m.pads[v].kind.Video?
    ensures var audio, video := FromPad(m.GetTaken(), a), FromPad(m.GetTaken(), v);
            Demux(m.spts.trace, 0x0041, strict) ==
            if video == [] then []
            else RecoveredAll(ChannelOf(m.spts.GetSetup(), Audio), Since(audio, video[0].time, a < v), strict)
  {
    hide Demux, RecoveredAll, FromFirstVideo, OfKind, FramesOf, Merged, SpTsMuxer.Valid, Pure, OneOfEach, InOrder, TakenInOrder,
         Since, Trace;
    WholeOutput(m);
    ElementTakesInOrder(m);
    ElementRoundTrip(m, Audio, strict);
    assert m.Kinds()[a] == Audio && m.Kinds()[v] == Video;
    if FromPad(m.GetTaken(), v) == [] {
      NothingSince(m.GetTaken(), m.Kinds(), v);
      NothingOfKind();
      assert |RecoveredAll(ChannelOf(m.spts.GetSetup(), Audio), [], strict)| == 0;
    } else {
      AudioSinceVideo(m.GetTaken(), m.Kinds(), a, v);
    }
  }

  lemma NothingOfKind()
    ensures OfKind([], Audio) == []
  {
  }

  lemma SortedPrefix(a: seq<Frame>, b: seq<Frame>, i: nat, j: nat)
    requires Sorted(a + b) && i <= j < |a|
    ensures a[i].time <= a[j].time
  {
    assert (a + b)[i] == a[i] && (a + b)[j] == a[j];
  }

  /**
   The clock of the element: if video frames arrive in order, the clock references on the video
   PID, one for each video frame written, never run back, however audio is interleaved.
   */
  lemma ElementClockNeverRunsBack(m: SpTsMuxer, p: nat, i: nat, j: nat)
    requires m.Valid() && !m.first && OneOfEach(m.Kinds()) && p < |m.pads| && m.pads[p].kind.Video?
    requires Sorted(Arrivals(m.events, p)) && i <= j < |FromPad(m.GetTaken(), p)|
    ensures var written, readings := FromPad(m.GetTaken(), p), Readings(Select(m.spts.trace, 0x0040));
            && |readings| == |written|
            && readings[i] == ClockReading(written[i]) && readings[j] == ClockReading(written[j])
            && PcrOf(MpegTime(written[i].time)) <= PcrOf(MpegTime(written[j].time)) <= 300 * MpegTime(written[j].time)
  {
    VideoHasStream(m, p);
    hide Trace, Select, Accepted, FromFirstVideo, OfKind, FramesOf, Merged, Sorted, Readings, ClockReading, MpegTime, PcrOf,
         Pure, OneOfEach, SpTsMuxer.Valid;
    var setup, history := m.spts.GetSetup(), m.spts.history;
    WholeOutput(m);
    NothingIsLost(m, p);
    SortedPrefix(FromPad(m.GetTaken(), p), m.pads[p].queue, i, j);
    AcceptedFromStart(setup, history, Video);
    VideoFromFirstVideo(history);
    assert m.Kinds()[p] == Video;
    KindIsPad(m.GetTaken(), m.Kinds(), p);
    ClockNeverRunsBack(setup, history, Video, i, j);
  }

  lemma VideoHasStream(m: SpTsMuxer, p: nat)
    requires m.Valid() && p < |m.pads| && m.pads[p].kind.Video?
    ensures m.spts.videoStream != null && m.PadsValid()
  {
    hide Merged, Trace, StateAfter, FramesOf, SpTs.Shape, EsOf;
    assert m.Kinds()[p] == Video;
    assert Video in m.Kinds();
  }

  /**
   Random access to the output of the element: the first frame written an IDR frame and no group
   but the last above 2100 packets, the g-th IDR frame written is found at packet 2102*g, and
   demultiplexing from there gives the frames written from it on.
   */
  lemma ElementRandomAccess(m: SpTsMuxer, i: nat, kind: Kind, strict: bool)
    requires m.Valid() && i < |m.spts.history| && IsIdr(m.spts.history[i])
    requires var written := FromFirstVideo(m.spts.history); written != [] && IsIdr(written[0])
    requires Gop.WithinPlan(Gop.Sizes(m.spts.GetSetup(), m.spts.history)[1..])
    ensures var setup, g := m.spts.GetSetup(), Gop.IdrCount(m.spts.history[..i]);
            && Gop.OpensAt(setup, m.spts.trace, 2102 * g, g)
            && Gop.DemuxesFrom(setup, m.spts.trace, 2102 * g, m.spts.history[i..], kind, strict)
  {
    hide Trace, FromFirstVideo, FramesOf, Merged, SpTsMuxer.Valid, Pure, Gop.WithinPlan, Gop.Sizes, Gop.OpensAt,
         Gop.DemuxesFrom, Gop.IdrCount;
    WholeOutput(m);
    Gop.RandomAccess(m.spts.GetSetup(), m.spts.history, i, kind, strict);
  }

  // ----- whole runs of the element -----

  /** Frames arrive on two pads, video on the first one and audio on the second. */
  predicate Feasible(es: seq<Event>) {
    forall i :: 0 <= i < |es| && es[i].Arrive? ==>
      es[i].pad < 2 && es[i].frame.kind == if es[i].pad == 0 then Video else Audio
  }

  /** How the element has set up its writer when it writes. */
  function ElementSetup(): Setup {
    Setup(PmtState(PROGRAM_NUMBER, VIDEO_PID, EsOf([Video, Audio]), true), true, false)
  }

  /** An element with a video and an audio pad. */
  method NewElement() returns (m: SpTsMuxer)
    ensures fresh(m) && fresh(m.spts) && fresh(m.spts.pmtSection) && fresh(m.spts.pat) && fresh(m.spts.pmtTspacket)
    ensures m.spts.Both() && fresh(m.spts.videoStream) && fresh(m.spts.videoStream.tspacket)
    ensures fresh(m.spts.audioStream) && fresh(m.spts.audioStream.tspacket)
    ensures m.Valid() && m.Kinds() == [Video, Audio] && m.events == []
    ensures fresh(m.pads[0]) && fresh(m.pads[1])
  {
    hide SpTsMuxer.Valid, Merged, FramesOf, Trace;
    m := new SpTsMuxer();
    m.RequestPad(Video);
    m.RequestPad(Audio);
  }

  /**
   A life of the element: it is created, a video and an audio pad are requested, and then, in any
   order, frames arrive and are collected. Every such run is possible, keeps the invariant, and
   its output is a function of what happened.
   */
  method Run(es: seq<Event>) returns (m: SpTsMuxer)
    requires Feasible(es)
    ensures fresh(m) && m.Valid() && m.Kinds() == [Video, Audio] && m.events == es
    ensures Collect in es ==> !m.first
    ensures m.spts.trace == Trace(ElementSetup(), START, FramesOf(Merged(NoQueues(2), es)))
    ensures m.GetTaken() == Merged(NoQueues(2), es) && m.GetQueues() == QueuesAfter(NoQueues(2), es)
  {
    hide SpTsMuxer.Valid, Merged, FramesOf, Trace;
    m := NewElement();
    for i := 0 to |es|
      invariant fresh(m) && fresh(m.spts) && fresh(m.spts.pmtSection) && fresh(m.spts.pat) && fresh(m.spts.pmtTspacket)
      invariant m.spts.Both() && fresh(m.spts.videoStream) && fresh(m.spts.videoStream.tspacket)
      invariant fresh(m.spts.audioStream) && fresh(m.spts.audioStream.tspacket)
      invariant m.Valid() && m.Kinds() == [Video, Audio] && m.events == es[..i]
      invariant fresh(m.pads[0]) && fresh(m.pads[1])
      invariant Collect in es[..i] ==> !m.first
    {
      assert es[..i + 1] == es[..i] + [es[i]];
      assert m.pads[0].kind == m.Kinds()[0] && m.pads[1].kind == m.Kinds()[1];
      m.Happen(es[i]);
    }
    assert es[..|es|] == es;
    OutputOfRun(m);
    QueuesOfRun(m);
  }

  lemma QueuesOfRun(m: SpTsMuxer)
    requires m.Valid() && m.Kinds() == [Video, Audio]
    ensures m.GetTaken() == Merged(NoQueues(2), m.events) && m.GetQueues() == QueuesAfter(NoQueues(2), m.events)
  {
    hide Trace, FramesOf, Merged, QueuesAfter, SpTs.Valid, Pure;
    assert |m.Kinds()| == |m.pads|;
  }

  lemma OutputOfRun(m: SpTsMuxer)
    requires m.Valid() && m.Kinds() == [Video, Audio]
    ensures m.spts.trace == Trace(ElementSetup(), START, FramesOf(Merged(NoQueues(2), m.events)))
  {
    WholeOutput(m);
    SetupOfRun(m);
    NothingWrittenYet();
    hide Trace, FramesOf, Merged, ElementSetup, SpTsMuxer.Valid;
  }

  lemma SetupOfRun(m: SpTsMuxer)
    requires m.Valid() && m.Kinds() == [Video, Audio]
    ensures if m.first then m.spts.history == [] else m.spts.GetSetup() == ElementSetup()
  {
    hide Trace, FramesOf, Merged, EsOf, StateAfter, SpTs.Shape;
    assert Video in m.Kinds();
  }

  lemma NothingWrittenYet()
    ensures forall setup: Setup :: Trace(setup, START, []) == []
  {
  }
}
