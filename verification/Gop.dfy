/**
 Where groups of pictures start in the output (src/spts.c:381-390): a recursion in
 (max, +), its closed form, the exact condition under which groups never start later
 than planned by more than a given number of packets, and random access to them.
 */
module Gop {
  import opened Octets
  import opened Psi
  import opened Pes
  import opened Transport
  import opened Packetizer
  import opened Schedule
  import opened Receiver

  // ----- start positions as a receiver finds them -----

  /** The positions, counted from base, of the packets that carry the association table. */
  function TablePositions(trace: seq<seq<byte>>, base: nat): seq<nat>
    decreases |trace|
  {
    if trace == [] then []
    else
      var t := ParseTs(trace[0]);
      (if t.Some? && t.value.pid == 0x0000 then [base] else []) + TablePositions(trace[1..], base + 1)
  }

  lemma {:induction false} TablePositionsAppend(a: seq<seq<byte>>, b: seq<seq<byte>>, base: nat)
    ensures TablePositions(a + b, base) == TablePositions(a, base) + TablePositions(b, base + |a|)
    decreases |a|
  {
    hide ParseTs;
    if a == [] {
      assert a + b == b;
    } else {
      assert (a + b)[1..] == a[1..] + b;
      TablePositionsAppend(a[1..], b, base + 1);
    }
  }

  lemma {:induction false} NoTables(ps: seq<seq<byte>>, base: nat)
    requires forall p :: p in ps ==> ParseTs(p).None? || ParseTs(p).value.pid != 0x0000
    ensures TablePositions(ps, base) == []
    decreases |ps|
  {
    hide ParseTs;
    if ps != [] {
      assert ps[0] in ps;
      NoTables(ps[1..], base + 1);
    }
  }

  lemma NoTablesInFrame(setup: Setup, st: State, f: Frame, base: nat)
    ensures TablePositions(Sent(setup, st, f), base) == []
  {
    hide FramePackets, FrameTs, ParseTs, MpegTime, IsChannel;
    var ch, k, pts := ChannelOf(setup, f.kind), CountOf(st, f.kind).packets, MpegTime(f.time);
    var ps, ts := FramePackets(ch, k, pts, f.data), FrameTs(ch, k, pts, f.data);
    ChannelsAreChannels(setup, f.kind);
    FrameReads(ch, k, pts, f.data);
    FrameTsPid(ch, k, pts, f.data);
    forall p | p in ps ensures ParseTs(p).Some? && ParseTs(p).value.pid != 0x0000 {
      var i :| 0 <= i < |ps| && ps[i] == p;
      assert ts[i] in ts;
    }
    NoTables(ps, base);
  }

  lemma OneTableInOpening(setup: Setup, st: State, base: nat)
    ensures TablePositions(Opening(setup, st), base) == [base + Padding(st)]
  {
    hide ParseTs, NullPacket, PatPacket, PmtPacket, TablePositions;
    var n := Padding(st);
    NullReads();
    TablesRead(setup, st.gops);
    forall p | p in Nulls(n) ensures p == NullPacket() {}
    NoTables(Nulls(n), base);
    TwoTables(PatPacket(st.gops), PmtPacket(setup.pmt, st.gops), base + n);
    TablePositionsAppend(Nulls(n), [PatPacket(st.gops), PmtPacket(setup.pmt, st.gops)], base);
  }

  lemma TwoTables(p: seq<byte>, q: seq<byte>, base: nat)
    requires ParseTs(p).Some? && ParseTs(p).value.pid == 0x0000
    requires ParseTs(q).Some? && ParseTs(q).value.pid != 0x0000
    ensures TablePositions([p, q], base) == [base]
  {
    hide ParseTs;
    assert [p, q][1..] == [q] && [q][1..] == [];
    assert TablePositions([q], base + 1) == [] + TablePositions([], base + 2);
  }

  // ----- start positions as the recursion gives them -----

  /** The packets that a frame takes. */
  function FrameSize(setup: Setup, f: Frame): (n: nat)
    ensures n > 0
  {
    var ch := ChannelOf(setup, f.kind);
    if !ch.pcr && |f.data| == 169 then 2 else Payloads(|f.data| + (if ch.pcr then 22 else 14))
  }

  lemma SentSize(setup: Setup, st: State, f: Frame)
    ensures |Sent(setup, st, f)| == FrameSize(setup, f)
  {
    hide FramePackets, MpegTime, Payloads;
    FrameCount(ChannelOf(setup, f.kind), CountOf(st, f.kind).packets, MpegTime(f.time), f.data);
  }

  /** Adds a frame of n packets in front; an IDR frame starts a group of its own and takes in what waits for one. */
  function InFront(idr: bool, n: nat, sizes: seq<nat>): (r: seq<nat>)
    requires sizes != []
    ensures r != []
  {
    (if idr then [0] else []) + [n + sizes[0]] + sizes[1..]
  }

  /** Packets before the first IDR frame, then packets of each group of pictures. */
  function GroupSizes(setup: Setup, fs: seq<Frame>): (sizes: seq<nat>)
    ensures sizes != []
  {
    if fs == [] then [0] else InFront(IsIdr(fs[0]), FrameSize(setup, fs[0]), GroupSizes(setup, fs[1..]))
  }

  function Max(a: nat, b: nat): nat {
    if a < b then b else a
  }

  /** Starts of the groups from group g on, if p packets are out when its IDR frame comes. */
  function Starts(p: nat, g: nat, sizes: seq<nat>): (s: seq<nat>)
    ensures |s| == |sizes|
    decreases |sizes|
  {
    if sizes == [] then []
    else
      var start := Max(p, 2102 * g);
      [start] + Starts(start + 2 + sizes[0], g + 1, sizes[1..])
  }

  predicate Running(st: State, fs: seq<Frame>) {
    st.packets > 0 || (fs != [] ==> fs[0].kind.Video?)
  }

  lemma StepCounts(setup: Setup, st: State, f: Frame)
    requires Running(st, [f])
    ensures var next := After(setup, st, f);
            && next.packets > 0
            && next.gops == (if IsIdr(f) then st.gops + 1 else st.gops)
            && next.packets == (if IsIdr(f) then Max(st.packets, 2102 * st.gops) + 2 else st.packets) + FrameSize(setup, f)
  {
    hide FrameSize, Sent;
    SentSize(setup, Ready(st, f), f);
    SentSize(setup, st, f);
  }

  lemma InFrontParts(idr: bool, n: nat, rest: seq<nat>)
    requires rest != []
    ensures var sizes := InFront(idr, n, rest);
            if idr then sizes[0] == 0 && sizes[1..] == [n + rest[0]] + rest[1..]
            else sizes[0] == n + rest[0] && sizes[1..] == rest[1..]
  {
  }

  /** One frame more in front: it joins the packets before the first IDR frame, or starts a group and takes them in. */
  lemma GroupStep(setup: Setup, fs: seq<Frame>)
    requires fs != []
    ensures var sizes, rest, n := GroupSizes(setup, fs), GroupSizes(setup, fs[1..]), FrameSize(setup, fs[0]);
            if IsIdr(fs[0]) then sizes[0] == 0 && sizes[1..] == [n + rest[0]] + rest[1..]
            else sizes[0] == n + rest[0] && sizes[1..] == rest[1..]
  {
    InFrontParts(IsIdr(fs[0]), FrameSize(setup, fs[0]), GroupSizes(setup, fs[1..]));
    GroupSizesStep(setup, fs);
    hide FrameSize, InFront, IsIdr, GroupSizes;
  }

  lemma GroupSizesStep(setup: Setup, fs: seq<Frame>)
    requires fs != []
    ensures GroupSizes(setup, fs) == InFront(IsIdr(fs[0]), FrameSize(setup, fs[0]), GroupSizes(setup, fs[1..]))
  {
    hide FrameSize, InFront, IsIdr;
  }

  lemma StartsStep(p: nat, g: nat, n: nat, rest: seq<nat>)
    requires rest != []
    ensures var start := Max(p, 2102 * g);
            Starts(p, g, [n + rest[0]] + rest[1..]) == [start] + Starts(start + 2 + n + rest[0], g + 1, rest[1..])
  {
    assert ([n + rest[0]] + rest[1..])[1..] == rest[1..];
  }

  lemma {:induction false} TablesInRun(setup: Setup, st: State, fs: seq<Frame>)
    requires Running(st, fs)
    ensures var sizes := GroupSizes(setup, fs);
            TablePositions(Trace(setup, st, fs), st.packets) == Starts(st.packets + sizes[0], st.gops, sizes[1..])
    decreases |fs|
  {
    hide After, Emitted, Sent, Opening, TablePositions, FrameSize, Starts;
    if fs == [] {
      assert TablePositions([], st.packets) == [] by { NoTables([], st.packets); }
      assert Starts(st.packets, st.gops, []) == [];
    } else {
      var f, next := fs[0], After(setup, st, fs[0]);
      GroupStep(setup, fs);
      hide GroupSizes;
      StepCounts(setup, st, f);
      TablesInRun(setup, next, fs[1..]);
      EmittedTables(setup, st, f);
      TablePositionsAppend(Emitted(setup, st, f), Trace(setup, next, fs[1..]), st.packets);
      if IsIdr(f) {
        StartsStep(st.packets, st.gops, FrameSize(setup, f), GroupSizes(setup, fs[1..]));
      }
    }
  }

  lemma EmittedTables(setup: Setup, st: State, f: Frame)
    requires Running(st, [f])
    ensures TablePositions(Emitted(setup, st, f), st.packets) ==
            if IsIdr(f) then [Max(st.packets, 2102 * st.gops)] else []
    ensures st.packets + |Emitted(setup, st, f)| == After(setup, st, f).packets
  {
    hide Sent, Opening, TablePositions;
    NoTablesInFrame(setup, st, f, st.packets);
    if IsIdr(f) {
      OneTableInOpening(setup, st, st.packets);
      NoTablesInFrame(setup, st, f, st.packets + Padding(st) + 2);
      TablePositionsAppend(Opening(setup, st), Sent(setup, st, f), st.packets);
    } else {
      assert [] + Sent(setup, st, f) == Sent(setup, st, f);
    }
    SentCountsOnlyPackets(setup, st, f);
  }

  lemma {:induction false} LeadingAudioIgnored(setup: Setup, fs: seq<Frame>)
    ensures Trace(setup, START, fs) == Trace(setup, START, FromFirstVideo(fs))
    ensures Running(START, FromFirstVideo(fs))
  {
    if fs != [] && !fs[0].kind.Video? {
      LeadingAudioIgnored(setup, fs[1..]);
      assert After(setup, START, fs[0]) == START && Emitted(setup, START, fs[0]) == [];
      hide Emitted, After;
      assert Trace(setup, START, fs) == [] + Trace(setup, START, fs[1..]);
    }
  }

  /** The tables of a whole output stand where the recursion says. */
  lemma TablesStartGroups(setup: Setup, fs: seq<Frame>)
    ensures var sizes := GroupSizes(setup, FromFirstVideo(fs));
            TablePositions(Trace(setup, START, fs), 0) == Starts(sizes[0], 0, sizes[1..])
  {
    hide Trace, TablePositions, GroupSizes, Starts, FromFirstVideo;
    LeadingAudioIgnored(setup, fs);
    TablesInRun(setup, START, FromFirstVideo(fs));
  }

  // ----- closed form -----

  /** What groups j to i-1 take beyond their plan of 2100 packets each. */
  function Excess(sizes: seq<nat>, j: nat, i: nat): int
    requires j <= i <= |sizes|
    decreases i
  {
    if i == j then 0 else Excess(sizes, j, i - 1) + sizes[i - 1] - 2100
  }

  lemma {:induction false} ExcessTail(sizes: seq<nat>, j: nat, i: nat)
    requires sizes != [] && j <= i < |sizes|
    ensures Excess(sizes[1..], j, i) == Excess(sizes, j + 1, i + 1)
    decreases i
  {
    if j < i {
      ExcessTail(sizes, j, i - 1);
    }
  }

  lemma {:induction false} ExcessHead(sizes: seq<nat>, i: nat)
    requires 0 < i <= |sizes|
    ensures Excess(sizes, 0, i) == sizes[0] - 2100 + Excess(sizes, 1, i)
    decreases i
  {
    if i > 1 {
      ExcessHead(sizes, i - 1);
    }
  }

  /** How many packets late group g + i starts. */
  function Overrun(p: nat, g: nat, sizes: seq<nat>, i: nat): int
    requires i < |sizes|
  {
    Starts(p, g, sizes)[i] - 2102 * (g + i)
  }

  /** The candidates for the overrun: every sum of excesses that ends before group i, and the one with all packets so far. */
  predicate IsCandidate(p: nat, g: nat, sizes: seq<nat>, i: nat, o: int)
    requires i <= |sizes|
  {
    o == p - 2102 * g + Excess(sizes, 0, i) || exists j :: 0 <= j <= i && o == Excess(sizes, j, i)
  }

  lemma {:induction false} OverrunAtLeast(p: nat, g: nat, sizes: seq<nat>, i: nat, j: nat)
    requires j <= i < |sizes|
    ensures Overrun(p, g, sizes, i) >= Excess(sizes, j, i)
    ensures Overrun(p, g, sizes, i) >= p - 2102 * g + Excess(sizes, 0, i)
    decreases i
  {
    if i > 0 {
      var start := Max(p, 2102 * g);
      var p1 := start + 2 + sizes[0];
      assert Starts(p, g, sizes)[i] == Starts(p1, g + 1, sizes[1..])[i - 1];
      OverrunAtLeast(p1, g + 1, sizes[1..], i - 1, if j > 0 then j - 1 else 0);
      ExcessTail(sizes, 0, i - 1);
      ExcessHead(sizes, i);
      if j > 0 {
        ExcessTail(sizes, j - 1, i - 1);
      }
    }
  }

  lemma {:induction false} OverrunIsCandidate(p: nat, g: nat, sizes: seq<nat>, i: nat)
    requires i < |sizes|
    ensures IsCandidate(p, g, sizes, i, Overrun(p, g, sizes, i))
    decreases i
  {
    var o := Overrun(p, g, sizes, i);
    if i == 0 {
      assert o == p - 2102 * g || o == Excess(sizes, 0, 0);
    } else {
      var start := Max(p, 2102 * g);
      var p1 := start + 2 + sizes[0];
      assert Starts(p, g, sizes)[i] == Starts(p1, g + 1, sizes[1..])[i - 1];
      OverrunIsCandidate(p1, g + 1, sizes[1..], i - 1);
      ExcessTail(sizes, 0, i - 1);
      ExcessHead(sizes, i);
      if o == p1 - 2102 * (g + 1) + Excess(sizes[1..], 0, i - 1) {
        assert o == p - 2102 * g + Excess(sizes, 0, i) || o == Excess(sizes, 0, i);
      } else {
        var j :| 0 <= j <= i - 1 && o == Excess(sizes[1..], j, i - 1);
        ExcessTail(sizes, j, i - 1);
        assert o == Excess(sizes, j + 1, i);
      }
    }
  }

  /**
   The closed form: a group starts late by the largest of all sums of excesses of the groups
   just before it (the empty sum, zero, included) and of the sum of all of them with the
   packets before the first IDR frame added.
   */
  lemma OverrunClosedForm(before: nat, sizes: seq<nat>, i: nat)
    requires i < |sizes|
    ensures var o := Overrun(before, 0, sizes, i);
            && (forall j :: 0 <= j <= i ==> o >= Excess(sizes, j, i))
            && o >= before + Excess(sizes, 0, i)
            && IsCandidate(before, 0, sizes, i, o)
  {
    hide Overrun, Excess, IsCandidate;
    forall j | 0 <= j <= i ensures Overrun(before, 0, sizes, i) >= Excess(sizes, j, i) {
      OverrunAtLeast(before, 0, sizes, i, j);
    }
    OverrunAtLeast(before, 0, sizes, i, 0);
    OverrunIsCandidate(before, 0, sizes, i);
  }

  predicate WindowsWithin(before: nat, sizes: seq<nat>, bound: nat) {
    && (forall i, j :: 0 <= j <= i < |sizes| ==> Excess(sizes, j, i) <= bound)
    && (forall i :: 0 <= i < |sizes| ==> before + Excess(sizes, 0, i) <= bound)
  }

  lemma OverrunBoundAt(before: nat, sizes: seq<nat>, i: nat, bound: nat)
    requires i < |sizes|
    ensures Overrun(before, 0, sizes, i) <= bound <==>
            (forall j :: 0 <= j <= i ==> Excess(sizes, j, i) <= bound) && before + Excess(sizes, 0, i) <= bound
  {
    hide Overrun;
    OverrunClosedForm(before, sizes, i);
    var o := Overrun(before, 0, sizes, i);
    if o <= bound {
      forall j | 0 <= j <= i ensures Excess(sizes, j, i) <= bound {
        assert o >= Excess(sizes, j, i);
      }
    } else if o != before + Excess(sizes, 0, i) {
      var j :| 0 <= j <= i && o == Excess(sizes, j, i);
      assert Excess(sizes, j, i) > bound;
    }
  }

  /** No group starts more than `bound` packets late exactly if no window of groups takes more than `bound` packets too many. */
  lemma OverrunBoundedIff(before: nat, sizes: seq<nat>, bound: nat)
    ensures (forall i :: 0 <= i < |sizes| ==> Overrun(before, 0, sizes, i) <= bound) <==> WindowsWithin(before, sizes, bound)
  {
    hide Overrun, Excess;
    if forall i :: 0 <= i < |sizes| ==> Overrun(before, 0, sizes, i) <= bound {
      forall i, j | 0 <= j <= i < |sizes| ensures Excess(sizes, j, i) <= bound {
        OverrunBoundAt(before, sizes, i, bound);
      }
      forall i | 0 <= i < |sizes| ensures before + Excess(sizes, 0, i) <= bound {
        OverrunBoundAt(before, sizes, i, bound);
      }
    }
    if WindowsWithin(before, sizes, bound) {
      forall i | 0 <= i < |sizes| ensures Overrun(before, 0, sizes, i) <= bound {
        OverrunBoundAt(before, sizes, i, bound);
      }
    }
  }

  lemma {:induction false} SmallGroupsNoExcess(sizes: seq<nat>, j: nat, i: nat)
    requires j <= i <= |sizes| && forall k :: j <= k < i ==> sizes[k] <= 2100
    ensures Excess(sizes, j, i) <= 0
    decreases i
  {
    if j < i {
      SmallGroupsNoExcess(sizes, j, i - 1);
    }
  }

  /** Every group starts exactly at its planned position. */
  ghost predicate OnTime(before: nat, sizes: seq<nat>) {
    forall i :: 0 <= i < |sizes| ==> Overrun(before, 0, sizes, i) == 0
  }

  /** No group but the last takes more than its plan. */
  ghost predicate WithinPlan(sizes: seq<nat>) {
    forall k :: 0 <= k < |sizes| - 1 ==> sizes[k] <= 2100
  }

  /**
   Every group starts exactly at its planned position if and only if nothing precedes the
   first IDR frame and no group but the last has more than 2100 packets.
   */
  lemma StartsAsPlannedIff(before: nat, sizes: seq<nat>)
    requires sizes != []
    ensures OnTime(before, sizes) <==> before == 0 && WithinPlan(sizes)
  {
    if before == 0 && WithinPlan(sizes) {
      hide Overrun;
      forall i | 0 <= i < |sizes| ensures Overrun(before, 0, sizes, i) == 0 {
        SmallGroupsOnTime(sizes, i);
      }
    }
    if OnTime(before, sizes) {
      OnTimeNeedsSmallGroups(before, sizes);
    }
  }

  lemma OnTimeNeedsSmallGroups(before: nat, sizes: seq<nat>)
    requires sizes != [] && OnTime(before, sizes)
    ensures before == 0 && WithinPlan(sizes)
  {
    hide Overrun;
    assert Overrun(before, 0, sizes, 0) == 0;
    OverrunAtLeast(before, 0, sizes, 0, 0);
    assert Excess(sizes, 0, 0) == 0;
    forall k | 0 <= k < |sizes| - 1 ensures sizes[k] <= 2100 {
      OverrunAtLeast(before, 0, sizes, k + 1, k);
      assert Excess(sizes, k, k) == 0;
      assert Overrun(before, 0, sizes, k + 1) == 0;
    }
  }

  lemma SmallGroupsOnTime(sizes: seq<nat>, i: nat)
    requires i < |sizes| && WithinPlan(sizes)
    ensures Overrun(0, 0, sizes, i) == 0
  {
    hide Overrun;
    OverrunClosedForm(0, sizes, i);
    forall j | 0 <= j <= i ensures Excess(sizes, j, i) <= 0 {
      SmallGroupsNoExcess(sizes, j, i);
    }
    assert Excess(sizes, i, i) == 0;
  }

  // ----- the same on the output -----

  /** Where the tables stand in a whole output. */
  function Positions(setup: Setup, fs: seq<Frame>): seq<nat> {
    TablePositions(Trace(setup, START, fs), 0)
  }

  /** Packets before the first IDR frame, and those of each group, in a whole output. */
  function Sizes(setup: Setup, fs: seq<Frame>): (sizes: seq<nat>)
    ensures sizes != []
  {
    GroupSizes(setup, FromFirstVideo(fs))
  }

  lemma PositionIsOverrun(setup: Setup, fs: seq<Frame>, g: nat)
    ensures var sizes := Sizes(setup, fs);
            && |Positions(setup, fs)| == |sizes| - 1
            && (g < |sizes| - 1 ==> Positions(setup, fs)[g] == 2102 * g + Overrun(sizes[0], 0, sizes[1..], g))
  {
    hide Trace, TablePositions, GroupSizes, Starts, FromFirstVideo;
    TablesStartGroups(setup, fs);
  }

  /**
   The output is indexed by counting packets, every table at a multiple of 2102, exactly if no
   packet precedes the first IDR frame and no group but the last has more than 2100 packets.
   */
  lemma SelfIndexedIff(setup: Setup, fs: seq<Frame>)
    requires |Sizes(setup, fs)| > 1
    ensures (forall g :: 0 <= g < |Positions(setup, fs)| ==> Positions(setup, fs)[g] == 2102 * g) <==>
            Sizes(setup, fs)[0] == 0 && WithinPlan(Sizes(setup, fs)[1..])
  {
    hide Positions, Sizes, Overrun, WithinPlan;
    var ps, sizes := Positions(setup, fs), Sizes(setup, fs);
    StartsAsPlannedIff(sizes[0], sizes[1..]);
    PositionIsOverrun(setup, fs, 0);
    forall g: nat | g < |ps| ensures ps[g] == 2102 * g + Overrun(sizes[0], 0, sizes[1..], g) {
      PositionIsOverrun(setup, fs, g);
    }
    if forall g :: 0 <= g < |ps| ==> ps[g] == 2102 * g {
      forall g | 0 <= g < |sizes[1..]| ensures Overrun(sizes[0], 0, sizes[1..], g) == 0 {
        assert ps[g] == 2102 * g;
      }
    }
  }

  /** No table of an output stands more than `bound` packets behind its multiple of 2102 exactly if no window of groups takes more than that too many. */
  lemma TablesLateByAtMostIff(setup: Setup, fs: seq<Frame>, bound: nat)
    ensures (forall g :: 0 <= g < |Positions(setup, fs)| ==> Positions(setup, fs)[g] <= 2102 * g + bound) <==>
            WindowsWithin(Sizes(setup, fs)[0], Sizes(setup, fs)[1..], bound)
  {
    hide Positions, Sizes, Overrun, WindowsWithin;
    var ps, sizes := Positions(setup, fs), Sizes(setup, fs);
    OverrunBoundedIff(sizes[0], sizes[1..], bound);
    PositionIsOverrun(setup, fs, 0);
    forall g: nat | g < |ps| ensures ps[g] == 2102 * g + Overrun(sizes[0], 0, sizes[1..], g) {
      PositionIsOverrun(setup, fs, g);
    }
    if forall g :: 0 <= g < |ps| ==> ps[g] <= 2102 * g + bound {
      forall g | 0 <= g < |sizes[1..]| ensures Overrun(sizes[0], 0, sizes[1..], g) <= bound {
        assert ps[g] <= 2102 * g + bound;
      }
    }
  }

  // ----- outputs that cannot be entered by counting, concretely -----

  lemma EmptyTakesOne(setup: Setup, delta: bool)
    ensures FrameSize(setup, EmptyVideo(delta)) == 1
  {
  }

  /** A video frame in front of the first IDR frame moves all tables away from their places. */
  lemma EarlyFrameMovesTables(setup: Setup)
    ensures Positions(setup, [EmptyVideo(true), EmptyVideo(false)]) == [1]
  {
    hide FrameSize, TablePositions, Trace;
    var fs := [EmptyVideo(true), EmptyVideo(false)];
    assert fs[1..] == [EmptyVideo(false)] && fs[1..][1..] == [];
    EmptyTakesOne(setup, true);
    EmptyTakesOne(setup, false);
    assert GroupSizes(setup, []) == [0];
    assert GroupSizes(setup, fs[1..]) == InFront(true, 1, [0]) == [0, 1];
    assert GroupSizes(setup, fs) == InFront(false, 1, [0, 1]) == [1, 1];
    assert FromFirstVideo(fs) == fs;
    TablesStartGroups(setup, fs);
    assert [1, 1][1..] == [1];
    assert Starts(1, 0, [1]) == [1] + Starts(4, 1, []);
  }

  /** An IDR frame that takes 2101 packets with or without PCR. */
  function LargeIdr(): Frame {
    Frame(Video, false, 0, Fill(2101 * 184 - 22, 0))
  }

  lemma LargeTakes2101(setup: Setup)
    ensures FrameSize(setup, LargeIdr()) == 2101
  {
    assert |LargeIdr().data| == 2101 * 184 - 22;
    assert LargeIdr().kind == Video;
    hide LargeIdr;
  }

  /** A group of one packet more than planned moves the next one by one packet. */
  lemma LargeGroupMovesTables(setup: Setup)
    ensures Positions(setup, [LargeIdr(), EmptyVideo(false)]) == [0, 2103]
  {
    hide FrameSize, TablePositions, Trace, Fill;
    var fs := [LargeIdr(), EmptyVideo(false)];
    assert fs[1..] == [EmptyVideo(false)] && fs[1..][1..] == [];
    EmptyTakesOne(setup, false);
    LargeTakes2101(setup);
    assert GroupSizes(setup, []) == [0];
    assert GroupSizes(setup, fs[1..]) == InFront(true, 1, [0]) == [0, 1];
    assert GroupSizes(setup, fs) == InFront(true, 2101, [0, 1]) == [0, 2101, 1];
    assert FromFirstVideo(fs) == fs;
    TablesStartGroups(setup, fs);
    assert [0, 2101, 1][1..] == [2101, 1] && [2101, 1][1..] == [1] && [1][1..] == [];
    assert Starts(2103, 1, [1]) == [2103] + Starts(2106, 2, []);
    assert Starts(0, 0, [2101, 1]) == [0] + Starts(2103, 1, [1]);
  }

  // ----- random access -----

  function IdrCount(fs: seq<Frame>): nat {
    if fs == [] then 0 else (if IsIdr(fs[0]) then 1 else 0) + IdrCount(fs[1..])
  }

  /** The start of the group that frame i opens is the one the recursion gives. */
  lemma {:induction false} IdrStart(setup: Setup, st: State, fs: seq<Frame>, i: nat)
    requires Running(st, fs) && i < |fs| && IsIdr(fs[i])
    ensures var sizes, g, at := GroupSizes(setup, fs), IdrCount(fs[..i]), StateAfter(setup, st, fs[..i]);
            && g < |sizes| - 1 && at.gops == st.gops + g
            && Max(at.packets, 2102 * at.gops) == Starts(st.packets + sizes[0], st.gops, sizes[1..])[g]
    decreases |fs|
  {
    hide After, FrameSize, GroupSizes;
    GroupStep(setup, fs);
    var f, next, rest := fs[0], After(setup, st, fs[0]), GroupSizes(setup, fs[1..]);
    StartsStep(st.packets, st.gops, FrameSize(setup, f), rest);
    hide Starts;
    if i == 0 {
      assert fs[..0] == [];
    } else {
      StepCounts(setup, st, f);
      IdrStart(setup, next, fs[1..], i - 1);
      assert fs[..i][1..] == fs[1..][..i - 1] && fs[..i][0] == f;
    }
  }

  /** The output from the tables in front of frame i on. */
  function Tail(setup: Setup, st: State, fs: seq<Frame>): seq<seq<byte>>
    requires fs != []
  {
    [PatPacket(st.gops), PmtPacket(setup.pmt, st.gops)] + Sent(setup, st, fs[0]) + Trace(setup, After(setup, st, fs[0]), fs[1..])
  }

  lemma CutAtIdr(setup: Setup, st: State, fs: seq<Frame>, i: nat)
    requires i < |fs| && IsIdr(fs[i])
    ensures var at := StateAfter(setup, st, fs[..i]);
            Trace(setup, st, fs) == Trace(setup, st, fs[..i]) + Nulls(Padding(at)) + Tail(setup, at, fs[i..])
  {
    hide After, Sent, PatPacket, PmtPacket, Nulls, StateAfter, Trace, Padding, IsIdr;
    var at := StateAfter(setup, st, fs[..i]);
    assert fs == fs[..i] + fs[i..];
    RunAppend(setup, st, fs[..i], fs[i..]);
    assert fs[i..][0] == fs[i];
    TraceOfIdr(setup, at, fs[i..]);
    var rest := Trace(setup, After(setup, at, fs[i]), fs[i..][1..]);
    FourPieces(Nulls(Padding(at)), [PatPacket(at.gops), PmtPacket(setup.pmt, at.gops)], Sent(setup, at, fs[i]), rest);
    FourPieces(Trace(setup, st, fs[..i]), Nulls(Padding(at)), [PatPacket(at.gops), PmtPacket(setup.pmt, at.gops)],
               Sent(setup, at, fs[i]) + rest);
  }

  lemma FourPieces(a: seq<seq<byte>>, b: seq<seq<byte>>, c: seq<seq<byte>>, d: seq<seq<byte>>)
    ensures a + b + (c + d) == a + (b + (c + d)) == a + (b + c + d)
  {
    assert b + c + d == b + (c + d);
  }

  /** Demultiplexing the tail alone gives the accepted frames from that IDR frame on. */
  lemma TailDemuxes(setup: Setup, st: State, fs: seq<Frame>, kind: Kind, strict: bool)
    requires fs != [] && IsIdr(fs[0])
    ensures Demux(Tail(setup, st, fs), PidOf(kind), strict) == RecoveredAll(ChannelOf(setup, kind), Accepted(setup, st, fs, kind), strict)
  {
    hide After, Sent, PatPacket, PmtPacket, Select, Trace, Demux, RecoveredAll, OpeningTs, PidOf;
    var head := [PatPacket(st.gops), PmtPacket(setup.pmt, st.gops)];
    var body := Sent(setup, st, fs[0]) + Trace(setup, After(setup, st, fs[0]), fs[1..]);
    SelectTables(setup, st.gops, kind);
    SelectAppend(head, body, PidOf(kind));
    assert Tail(setup, st, fs) == head + body;
    SelectOpening(setup, st, PidOf(kind));
    NothingForStreams(setup, st, kind);
    SelectAppend(Opening(setup, st), body, PidOf(kind));
    TraceOfIdr(setup, st, fs);
    assert Select(Trace(setup, st, fs), PidOf(kind)) == Select(Tail(setup, st, fs), PidOf(kind));
    SameSelectionSameDemux(Trace(setup, st, fs), Tail(setup, st, fs), PidOf(kind), strict);
    DemuxInvertsMux(setup, st, fs, kind, strict);
  }

  lemma SameSelectionSameDemux(a: seq<seq<byte>>, b: seq<seq<byte>>, pid: bv16, strict: bool)
    requires Select(a, pid) == Select(b, pid)
    ensures Demux(a, pid, strict) == Demux(b, pid, strict)
  {
  }

  lemma TraceOfIdr(setup: Setup, st: State, fs: seq<Frame>)
    requires fs != [] && IsIdr(fs[0])
    ensures Trace(setup, st, fs) == Opening(setup, st) + (Sent(setup, st, fs[0]) + Trace(setup, After(setup, st, fs[0]), fs[1..]))
  {
    hide After, Sent, Opening;
  }

  lemma NothingForStreams(setup: Setup, st: State, kind: Kind)
    ensures OpeningTs(setup, st, PidOf(kind)) == []
  {
    DifferentPids(kind);
    hide PidOf;
  }

  lemma SelectTables(setup: Setup, k: nat, kind: Kind)
    ensures Select([PatPacket(k), PmtPacket(setup.pmt, k)], PidOf(kind)) == []
  {
    hide PatPacket, PmtPacket, PatPayload, PmtPayload, Cc, Select, PidOf;
    DifferentPids(kind);
    TablesRead(setup, k);
    SelectTwo(PatPacket(k), PmtPacket(setup.pmt, k), PatTs(k), PmtTs(setup, k), PidOf(kind));
  }

  /** At this position stand the tables for the g-th time, and then the first packet of a video frame. */
  ghost predicate OpensAt(setup: Setup, trace: seq<seq<byte>>, at: nat, g: nat) {
    && at + 2 < |trace|
    && trace[at] == PatPacket(g) && trace[at + 1] == PmtPacket(setup.pmt, g)
    && var t := ParseTs(trace[at + 2]); t.Some? && t.value.pid == 0x0040 && t.value.start
  }

  /** The packets from this position on are, for a receiver, the accepted ones of these frames. */
  ghost predicate DemuxesFrom(setup: Setup, trace: seq<seq<byte>>, at: nat, fs: seq<Frame>, kind: Kind, strict: bool) {
    && at <= |trace|
    && Demux(trace[at..], PidOf(kind), strict) == RecoveredAll(ChannelOf(setup, kind), OfKind(fs, kind), strict)
  }

  /** A run that begins with video can be entered at every IDR frame. */
  lemma EnterRunAtIdr(setup: Setup, fs: seq<Frame>, i: nat, kind: Kind, strict: bool)
    requires fs != [] && fs[0].kind.Video? && i < |fs| && IsIdr(fs[i])
    ensures var sizes, g := GroupSizes(setup, fs), IdrCount(fs[..i]);
            && g < |sizes| - 1
            && var at := Starts(sizes[0], 0, sizes[1..])[g];
               && OpensAt(setup, Trace(setup, START, fs), at, g)
               && DemuxesFrom(setup, Trace(setup, START, fs), at, fs[i..], kind, strict)
  {
    hide Sent, PatPacket, PmtPacket, Trace, After, Demux, RecoveredAll, Accepted, Starts, StateAfter, GroupSizes, PidOf,
         ParseTs, OfKind, Nulls, IdrCount, Tail;
    var st := StateAfter(setup, START, fs[..i]);
    IdrStart(setup, START, fs, i);
    CutAtIdr(setup, START, fs, i);
    TraceLength(setup, START, fs[..i]);
    var at, trace, tail := Max(st.packets, 2102 * st.gops), Trace(setup, START, fs), Tail(setup, st, fs[i..]);
    assert trace[at..] == tail;
    FirstOfTail(setup, st, fs[i..]);
    assert trace[at] == tail[0] && trace[at + 1] == tail[1] && trace[at + 2] == tail[2];
    TailDemuxes(setup, st, fs[i..], kind, strict);
    AcceptedFromVideo(setup, st, fs[i..], kind);
  }

  lemma AudioIsNoIdr(f: Frame)
    requires f.kind.Audio?
    ensures !IsIdr(f)
  {
  }

  /** How many frames are dropped in front of the first video frame. */
  function Dropped(fs: seq<Frame>): (d: nat)
    ensures d <= |fs| && FromFirstVideo(fs) == fs[d..]
  {
    if fs == [] || fs[0].kind.Video? then 0 else 1 + Dropped(fs[1..])
  }

  /** None of them is an IDR frame. */
  lemma {:induction false} DroppedPrefix(fs: seq<Frame>, i: nat)
    requires i < |fs| && fs[i].kind.Video?
    ensures Dropped(fs) <= i && fs[Dropped(fs)].kind.Video?
    ensures IdrCount(fs[..i]) == IdrCount(fs[Dropped(fs)..i])
  {
    hide IsIdr, FromFirstVideo;
    if !fs[0].kind.Video? {
      AudioIsNoIdr(fs[0]);
      DroppedPrefix(fs[1..], i - 1);
      assert fs[..i][1..] == fs[1..][..i - 1] && fs[..i][0] == fs[0];
      assert fs[1..][Dropped(fs[1..])..i - 1] == fs[Dropped(fs)..i];
    } else {
      assert fs[0..i] == fs[..i];
    }
  }

  /** The output can be entered at every IDR frame, wherever its group starts and whatever audio came first. */
  lemma EnterAtIdr(setup: Setup, fs: seq<Frame>, i: nat, kind: Kind, strict: bool)
    requires i < |fs| && IsIdr(fs[i])
    ensures var sizes, g := Sizes(setup, fs), IdrCount(fs[..i]);
            && g < |sizes| - 1
            && var at := Starts(sizes[0], 0, sizes[1..])[g];
               && OpensAt(setup, Trace(setup, START, fs), at, g)
               && DemuxesFrom(setup, Trace(setup, START, fs), at, fs[i..], kind, strict)
  {
    hide Trace, OpensAt, DemuxesFrom, Starts, GroupSizes, FromFirstVideo, IdrCount;
    var written, d := FromFirstVideo(fs), Dropped(fs);
    DroppedPrefix(fs, i);
    assert written[i - d..] == fs[i..] && written[..i - d] == fs[d..i];
    LeadingAudioIgnored(setup, fs);
    EnterRunAtIdr(setup, written, i - d, kind, strict);
  }

  /**
   Random access: the first frame written an IDR frame and no group but the last above 2100
   packets, the g-th IDR frame is found at packet 2102*g without any index. There the tables
   and the first packet of that frame follow one another, and demultiplexing from there alone
   gives exactly the frames from that IDR frame on.
   */
  lemma RandomAccess(setup: Setup, fs: seq<Frame>, i: nat, kind: Kind, strict: bool)
    requires i < |fs| && IsIdr(fs[i])
    requires FromFirstVideo(fs) != [] && IsIdr(FromFirstVideo(fs)[0])
    requires WithinPlan(Sizes(setup, fs)[1..])
    ensures var g := IdrCount(fs[..i]);
            && OpensAt(setup, Trace(setup, START, fs), 2102 * g, g)
            && DemuxesFrom(setup, Trace(setup, START, fs), 2102 * g, fs[i..], kind, strict)
  {
    FirstIsIdr(setup, FromFirstVideo(fs));
    EnterAtIdr(setup, fs, i, kind, strict);
    var sizes, g := Sizes(setup, fs)[1..], IdrCount(fs[..i]);
    hide OpensAt, DemuxesFrom, Trace, GroupSizes, Starts, WithinPlan, IdrCount, IsIdr, FromFirstVideo;
    StartsAsPlannedIff(0, sizes);
    OnTimeAt(sizes, g);
  }

  lemma OnTimeAt(sizes: seq<nat>, g: nat)
    requires g < |sizes| && OnTime(0, sizes)
    ensures Starts(0, 0, sizes)[g] == 2102 * g
  {
    assert Overrun(0, 0, sizes, g) == 0;
    hide Starts;
  }

  lemma FirstIsIdr(setup: Setup, fs: seq<Frame>)
    requires fs != [] && IsIdr(fs[0])
    ensures GroupSizes(setup, fs)[0] == 0 && |GroupSizes(setup, fs)| > 1
  {
  }

  lemma FirstOfTail(setup: Setup, st: State, fs: seq<Frame>)
    requires fs != [] && IsIdr(fs[0])
    ensures var tail := Tail(setup, st, fs);
            && |tail| > 2 && tail[0] == PatPacket(st.gops) && tail[1] == PmtPacket(setup.pmt, st.gops)
            && ParseTs(tail[2]).Some? && ParseTs(tail[2]).value.pid == VIDEO_PID && ParseTs(tail[2]).value.start
  {
    hide Sent, Trace, After, PatPacket, PmtPacket, ParseTs;
    FirstOfSent(setup, st, fs[0]);
    assert Tail(setup, st, fs)[2] == Sent(setup, st, fs[0])[0];
  }

  lemma FirstOfSent(setup: Setup, st: State, f: Frame)
    ensures var sent := Sent(setup, st, f);
            && sent != [] && ParseTs(sent[0]).Some? && ParseTs(sent[0]).value.pid == PidOf(f.kind) && ParseTs(sent[0]).value.start
  {
    hide FirstPacket, NextPackets, ParseTs, IsChannel, MpegTime;
    ChannelsAreChannels(setup, f.kind);
    FirstReads(ChannelOf(setup, f.kind), CountOf(st, f.kind).packets, MpegTime(f.time), f.data);
  }

  lemma AcceptedFromVideo(setup: Setup, st: State, fs: seq<Frame>, kind: Kind)
    requires fs != [] && fs[0].kind.Video?
    ensures Accepted(setup, st, fs, kind) == OfKind(fs, kind)
  {
    SomethingIsSent(setup, st, fs[0]);
    hide After;
    AcceptedOnceRunning(setup, After(setup, st, fs[0]), fs[1..], kind);
  }
}
