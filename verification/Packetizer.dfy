/**
 The packets of one frame as a function of the frame: what spts_write_frame
 (src/spts.c:406-483) has to make in its reused buffer, and what a receiver of
 transport packets sees of it.
 */
module Packetizer {
  import opened Octets
  import opened Wrappers
  import opened Psi
  import opened Pes
  import opened Transport

  /** A stream as far as its packets depend on it. */
  datatype Channel = Channel(pid: bv16, streamId: byte, pcr: bool)

  predicate IsChannel(ch: Channel) {
    ch.pid & 0xe000 == 0 && (ch.streamId == STREAM_ID_VIDEO || ch.streamId == STREAM_ID_AUDIO)
  }

  /** p is the number of whole ticks of the 90 kHz clock in a time of nanoseconds. */
  predicate IsTicks(p: nat, time: nat) {
    1_000_000_000 * p <= 90_000 * time < 1_000_000_000 * (p + 1)
  }

  /** GSTTIME_TO_MPEGTIME. */
  function MpegTime(time: nat): (p: nat)
    ensures IsTicks(p, time)
  {
    time * 90_000 / 1_000_000_000
  }

  lemma TicksUnique(p: nat, q: nat, time: nat)
    requires IsTicks(p, time) && IsTicks(q, time)
    ensures p == q
  {
  }

  const PCR_LEAD: nat := 10250

  /** The clock reference, in ticks of 27 MHz, sent with a time stamp. */
  function PcrOf(pts: nat): nat {
    if pts < PCR_LEAD then 0 else (pts - PCR_LEAD) * 300
  }

  /** Without PCR a frame of this size needs an adaptation field of length zero. */
  const MISFIT: nat := 169

  predicate Misfit(ch: Channel, n: nat) {
    !ch.pcr && n == MISFIT
  }

  /** The frame octets that the first packet takes. */
  function Taken(pcr: bool, n: nat): (t: nat)
    ensures t <= n
  {
    if pcr then (if n < 162 then n else 162)
    else if n < MISFIT then n else if n == MISFIT then n - 1 else 170
  }

  predicate FirstIsAdapted(pcr: bool, n: nat) {
    pcr || n < 170
  }

  function FirstInfo(pcr: bool, n: nat, pts: nat): (info: AdaptationInfo)
    requires FirstIsAdapted(pcr, n)
    ensures LengthSane(info)
  {
    PcrFlagSet();
    if pcr then AdaptationInfo(PCR_FLAG, if n < 162 then 169 - n else 7, PcrOf(pts))
    else AdaptationInfo(0x00, 169 - n, 0)
  }

  lemma PcrFlagSet()
    ensures HasPcr(PCR_FLAG) && !HasPcr(0x00)
  {
  }

  /** What stands between header and PES packet in the first packet. */
  function FirstField(pcr: bool, n: nat, pts: nat): (s: seq<byte>)
    ensures |s| == PAYLOAD - PES_HEADER_LENGTH - Taken(pcr, n)
  {
    PcrFlagSet();
    if FirstIsAdapted(pcr, n) then AdaptationOctets(FirstInfo(pcr, n, pts)) else []
  }

  function FirstControl(pcr: bool, n: nat): byte {
    if FirstIsAdapted(pcr, n) then ADAPTATION_AND_PAYLOAD else PAYLOAD_ONLY
  }

  function PesFront(ch: Channel, pts: nat, data: seq<byte>): (s: seq<byte>)
    ensures |s| == PES_HEADER_LENGTH + Taken(ch.pcr, |data|)
  {
    PesHeader(FrameInfo(ch.streamId, |data|, pts)) + data[..Taken(ch.pcr, |data|)]
  }

  /** The first packet of a frame, the k-th of its stream. */
  function FirstPacket(ch: Channel, k: nat, pts: nat, data: seq<byte>): (p: seq<byte>)
    ensures |p| == TSPACKET_LENGTH
  {
    HeaderOctets(ch.pid, true, FirstControl(ch.pcr, |data|), k)
    + FirstField(ch.pcr, |data|, pts) + PesFront(ch, pts, data)
  }

  /** Stuffing before the end of a frame; a length of zero stands alone. */
  function StuffField(length: nat): (s: seq<byte>)
    requires length < PAYLOAD
    ensures |s| == length + 1
  {
    PcrFlagSet();
    AdaptationOctets(AdaptationInfo(0x00, length, 0))[..length + 1]
  }

  function NextTake(n: nat): (t: nat)
    ensures t <= n
  {
    if n < PAYLOAD then n else PAYLOAD
  }

  /** A further packet of a frame of which `data` is left. */
  function NextPacket(pid: bv16, k: nat, data: seq<byte>): (p: seq<byte>)
    requires data != []
    ensures |p| == TSPACKET_LENGTH
  {
    if |data| < PAYLOAD
    then HeaderOctets(pid, false, ADAPTATION_AND_PAYLOAD, k) + StuffField(PAYLOAD - |data| - 1) + data
    else HeaderOctets(pid, false, PAYLOAD_ONLY, k) + data[..PAYLOAD]
  }

  function NextPackets(pid: bv16, k: nat, data: seq<byte>): (ps: seq<seq<byte>>)
    decreases |data|
  {
    if data == [] then []
    else [NextPacket(pid, k, data)] + NextPackets(pid, k + 1, data[NextTake(|data|)..])
  }

  /** All packets of a frame; the first is the k-th of its stream. */
  function FramePackets(ch: Channel, k: nat, pts: nat, data: seq<byte>): (ps: seq<seq<byte>>)
  {
    [FirstPacket(ch, k, pts, data)] + NextPackets(ch.pid, k + 1, data[Taken(ch.pcr, |data|)..])
  }

  // ----- how many -----

  /** The payloads of 184 octets that n octets need. */
  function Payloads(n: nat): (r: nat)
    ensures n <= 184 * r < n + 184
  {
    (n + 183) / 184
  }

  lemma {:induction false} NextCount(pid: bv16, k: nat, data: seq<byte>)
    ensures |NextPackets(pid, k, data)| == Payloads(|data|)
    decreases |data|
  {
    if data != [] {
      NextCount(pid, k + 1, data[NextTake(|data|)..]);
    }
  }

  /** A frame of n octets, with its header and with the PCR field if any, fills whole packets; the misfit needs two. */
  lemma FrameCount(ch: Channel, k: nat, pts: nat, data: seq<byte>)
    ensures |FramePackets(ch, k, pts, data)| ==
            if !ch.pcr && |data| == 169 then 2 else Payloads(|data| + (if ch.pcr then 22 else 14))
  {
    hide FirstPacket, NextPackets, Payloads;
    var n := |data|;
    NextCount(ch.pid, k + 1, data[Taken(ch.pcr, n)..]);
    CountAgrees(ch.pcr, n);
  }

  lemma CountAgrees(pcr: bool, n: nat)
    ensures 1 + Payloads(n - Taken(pcr, n)) ==
            if !pcr && n == 169 then 2 else Payloads(n + (if pcr then 22 else 14))
  {
  }

  // ----- what a receiver sees -----

  function Stray(ch: Channel, n: nat): seq<byte> {
    if Misfit(ch, n) then [0x00] else []
  }

  function SentPcr(ch: Channel, pts: nat): Option<Pcr> {
    if ch.pcr then Some(Pcr(PcrOf(pts) / 300 % TWO_33, PcrOf(pts) % 300)) else None
  }

  function FirstTs(ch: Channel, k: nat, pts: nat, data: seq<byte>): Ts {
    Ts(ch.pid, true, true, Cc(k), SentPcr(ch, pts), Stray(ch, |data|) + PesFront(ch, pts, data))
  }

  function NextTs(pid: bv16, k: nat, data: seq<byte>): seq<Ts>
    decreases |data|
  {
    if data == [] then []
    else [Ts(pid, false, true, Cc(k), None, data[..NextTake(|data|)])] + NextTs(pid, k + 1, data[NextTake(|data|)..])
  }

  function FrameTs(ch: Channel, k: nat, pts: nat, data: seq<byte>): seq<Ts> {
    [FirstTs(ch, k, pts, data)] + NextTs(ch.pid, k + 1, data[Taken(ch.pcr, |data|)..])
  }

  lemma FirstAdaptedReads(ch: Channel, k: nat, pts: nat, data: seq<byte>)
    requires IsChannel(ch) && FirstIsAdapted(ch.pcr, |data|) && !Misfit(ch, |data|)
    ensures ParseTs(FirstPacket(ch, k, pts, data)) == Some(FirstTs(ch, k, pts, data))
  {
    hide HeaderOctets, AdaptationOctets, PesFront, FieldPcr, Cc, Val, HasPcr, PcrOf;
    var info := FirstInfo(ch.pcr, |data|, pts);
    PcrFlagSet();
    FieldSound(info);
    var f := AdaptationOctets(info);
    assert FirstField(ch.pcr, |data|, pts) == f == [f[0]] + f[1..];
    AdaptedPacketReads(ch.pid, true, k, f[0], f[1..], PesFront(ch, pts, data));
    var h := HeaderOctets(ch.pid, true, ADAPTATION_AND_PAYLOAD, k);
    assert h + f + PesFront(ch, pts, data) == h + [f[0]] + f[1..] + PesFront(ch, pts, data);
    assert [] + PesFront(ch, pts, data) == PesFront(ch, pts, data);
  }

  lemma FirstMisfitReads(ch: Channel, k: nat, pts: nat, data: seq<byte>)
    requires IsChannel(ch) && Misfit(ch, |data|)
    ensures ParseTs(FirstPacket(ch, k, pts, data)) == Some(FirstTs(ch, k, pts, data))
  {
    hide HeaderOctets, AdaptationOctets, PesFront, Cc, Val, HasPcr;
    var info := FirstInfo(ch.pcr, |data|, pts);
    PcrFlagSet();
    EmptyFieldSpillsFlags(info);
    var f := AdaptationOctets(info);
    assert FirstField(ch.pcr, |data|, pts) == f == [f[0]] + [0x00];
    AdaptedPacketReads(ch.pid, true, k, f[0], [], [0x00] + PesFront(ch, pts, data));
    var h := HeaderOctets(ch.pid, true, ADAPTATION_AND_PAYLOAD, k);
    assert h + f + PesFront(ch, pts, data) == h + [f[0]] + [] + ([0x00] + PesFront(ch, pts, data));
  }

  lemma FirstPlainReads(ch: Channel, k: nat, pts: nat, data: seq<byte>)
    requires IsChannel(ch) && !FirstIsAdapted(ch.pcr, |data|)
    ensures ParseTs(FirstPacket(ch, k, pts, data)) == Some(FirstTs(ch, k, pts, data))
  {
    hide HeaderOctets, PesFront, Cc;
    PlainPacketReads(ch.pid, true, k, PesFront(ch, pts, data));
    var h := HeaderOctets(ch.pid, true, PAYLOAD_ONLY, k);
    assert h + [] + PesFront(ch, pts, data) == h + PesFront(ch, pts, data);
    assert [] + PesFront(ch, pts, data) == PesFront(ch, pts, data);
  }

  lemma FirstFlags(ch: Channel, k: nat, pts: nat, data: seq<byte>)
    ensures ch.pcr || |data| < 169 ==> FirstPacket(ch, k, pts, data)[5] == if ch.pcr then 0x10 else 0x00
  {
    hide PesFront, PcrOctets, ByteOf, HasPcr;
    PcrFlagSet();
  }

  /** The first packet reads as the start of its frame; its flags octet announces the PCR and nothing else. */
  lemma FirstReads(ch: Channel, k: nat, pts: nat, data: seq<byte>)
    requires IsChannel(ch)
    ensures ParseTs(FirstPacket(ch, k, pts, data)) == Some(FirstTs(ch, k, pts, data))
    ensures ch.pcr || |data| < 169 ==> FirstPacket(ch, k, pts, data)[5] == if ch.pcr then 0x10 else 0x00
  {
    FirstFlags(ch, k, pts, data);
    hide FirstPacket, FirstTs, ParseTs;
    if Misfit(ch, |data|) {
      FirstMisfitReads(ch, k, pts, data);
    } else if FirstIsAdapted(ch.pcr, |data|) {
      FirstAdaptedReads(ch, k, pts, data);
    } else {
      FirstPlainReads(ch, k, pts, data);
    }
  }

  lemma StuffFieldSound(length: nat)
    requires length < PAYLOAD
    ensures var f := StuffField(length);
            Val(f[0]) == length && FieldPcr(f[1..]) == Some(None)
  {
    hide AdaptationOctets, Val, ParsePcr, HasPcr;
    PcrFlagSet();
    var info := AdaptationInfo(0x00, length, 0);
    if length > 0 {
      FieldSound(info);
      assert AdaptationOctets(info)[..length + 1] == AdaptationOctets(info);
    } else {
      EmptyFieldSpillsFlags(info);
    }
  }

  lemma NextReads(pid: bv16, k: nat, data: seq<byte>)
    requires pid & 0xe000 == 0 && data != []
    ensures ParseTs(NextPacket(pid, k, data)) == Some(Ts(pid, false, true, Cc(k), None, data[..NextTake(|data|)]))
  {
    hide HeaderOctets, FieldPcr, Cc, Val, StuffField;
    if |data| < PAYLOAD {
      var length := PAYLOAD - |data| - 1;
      StuffFieldSound(length);
      var f := StuffField(length);
      AdaptedPacketReads(pid, false, k, f[0], f[1..], data);
      var h := HeaderOctets(pid, false, ADAPTATION_AND_PAYLOAD, k);
      assert h + f + data == h + [f[0]] + f[1..] + data;
      assert data[..|data|] == data;
    } else {
      PlainPacketReads(pid, false, k, data[..PAYLOAD]);
    }
  }

  /** The packets of ps, in order, are read as the packets ts. */
  ghost predicate ReadAs(ps: seq<seq<byte>>, ts: seq<Ts>) {
    |ps| == |ts| && forall i :: 0 <= i < |ps| ==> ParseTs(ps[i]) == Some(ts[i])
  }

  lemma ReadAsCons(p: seq<byte>, ps: seq<seq<byte>>, t: Ts, ts: seq<Ts>)
    requires ParseTs(p) == Some(t) && ReadAs(ps, ts)
    ensures ReadAs([p] + ps, [t] + ts)
  {
    hide ParseTs;
  }

  lemma {:induction false} NextAllRead(pid: bv16, k: nat, data: seq<byte>)
    requires pid & 0xe000 == 0
    ensures ReadAs(NextPackets(pid, k, data), NextTs(pid, k, data))
    decreases |data|
  {
    hide NextPacket, ParseTs, Cc, ReadAs;
    if data == [] {
      assert ReadAs([], []) by { EmptyReadAs(); }
    } else {
      var rest := data[NextTake(|data|)..];
      NextReads(pid, k, data);
      NextAllRead(pid, k + 1, rest);
      ReadAsCons(NextPacket(pid, k, data), NextPackets(pid, k + 1, rest),
                 Ts(pid, false, true, Cc(k), None, data[..NextTake(|data|)]), NextTs(pid, k + 1, rest));
    }
  }

  lemma EmptyReadAs()
    ensures ReadAs([], [])
  {
  }

  /** Every packet of a frame reads back as its stream's next packet. */
  lemma FrameReads(ch: Channel, k: nat, pts: nat, data: seq<byte>)
    requires IsChannel(ch)
    ensures ReadAs(FramePackets(ch, k, pts, data), FrameTs(ch, k, pts, data))
  {
    hide FirstPacket, FirstTs, ParseTs, NextPackets, NextTs, ReadAs;
    var rest := data[Taken(ch.pcr, |data|)..];
    FirstReads(ch, k, pts, data);
    NextAllRead(ch.pid, k + 1, rest);
    ReadAsCons(FirstPacket(ch, k, pts, data), NextPackets(ch.pid, k + 1, rest),
               FirstTs(ch, k, pts, data), NextTs(ch.pid, k + 1, rest));
  }
}
