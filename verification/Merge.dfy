/**
 The order of frames: the selection of the next pad in sptsmuxer_collected
 (src/sptsmuxer.c:275-303) on queues of frames, and what it makes of whole runs in which
 frames arrive and are collected.
 */
module Merge {
  import opened Wrappers
  import opened Schedule

  /** GST_CLOCK_TIME_NONE. */
  const TIME_NONE: ClockTime := 0xffff_ffff_ffff_ffff

  type Queues = seq<seq<Frame>>

  function HeadTime(queues: Queues, p: nat): nat
    requires p < |queues| && queues[p] != []
  {
    queues[p][0].time
  }

  /** The pad chosen among the first n: the earliest head, but a first head without time stamp ends the search. */
  function Choice(queues: Queues, n: nat): (r: Option<nat>)
    requires n <= |queues|
    ensures r.Some? ==> r.value < n && queues[r.value] != []
  {
    if n == 0 then None
    else
      var best, p := Choice(queues, n - 1), n - 1;
      if queues[p] == [] then best
      else if best.None? then Some(p)
      else if HeadTime(queues, best.value) == TIME_NONE then best
      else if HeadTime(queues, p) < HeadTime(queues, best.value) then Some(p)
      else best
  }

  lemma {:induction false} ChoiceNone(queues: Queues, n: nat)
    requires n <= |queues|
    ensures Choice(queues, n).None? <==> forall p :: 0 <= p < n ==> queues[p] == []
  {
    if n > 0 {
      ChoiceNone(queues, n - 1);
    }
  }

  /** The first pad on which a frame waits. */
  predicate IsFirst(queues: Queues, p: nat) {
    p < |queues| && queues[p] != [] && forall q :: 0 <= q < p ==> queues[q] == []
  }

  /** If the first head has a time stamp the choice is an earliest head, and of the earliest ones the first pad. */
  lemma {:induction false} ChoiceIsEarliest(queues: Queues, n: nat)
    requires n <= |queues|
    requires forall p: nat :: IsFirst(queues, p) ==> queues[p][0].time < 0xffff_ffff_ffff_ffff
    ensures var c := Choice(queues, n);
            c.Some? ==>
              && queues[c.value][0].time < 0xffff_ffff_ffff_ffff
              && forall p :: 0 <= p < n && queues[p] != [] ==>
                   && queues[c.value][0].time <= queues[p][0].time
                   && (p < c.value ==> queues[c.value][0].time < queues[p][0].time)
  {
    if n > 0 {
      ChoiceIsEarliest(queues, n - 1);
      ChoiceNone(queues, n - 1);
      assert queues[n - 1] != [] && Choice(queues, n - 1).None? ==> IsFirst(queues, n - 1);
    }
  }

  /** A first head without time stamp is taken at once. */
  lemma {:induction false} UntimedFirstHead(queues: Queues, p: nat, n: nat)
    requires IsFirst(queues, p) && p < n <= |queues| && queues[p][0].time == 0xffff_ffff_ffff_ffff
    ensures Choice(queues, n) == Some(p)
  {
    if n == p + 1 {
      ChoiceNone(queues, p);
    } else {
      UntimedFirstHead(queues, p, n - 1);
    }
  }

  /**
   The pad that a collection should take from: none exactly if nothing waits; the first one if its
   head has no time stamp (GST_CLOCK_TIME_NONE, all ones); else an earliest head, and of the
   earliest ones the first.
   */
  ghost predicate RightChoice(queues: Queues, c: Option<nat>) {
    match c
    case None => forall p :: 0 <= p < |queues| ==> queues[p] == []
    case Some(p) =>
      && p < |queues| && queues[p] != []
      && (forall q: nat :: IsFirst(queues, q) && queues[q][0].time == 0xffff_ffff_ffff_ffff ==> p == q)
      && ((forall q: nat :: IsFirst(queues, q) ==> queues[q][0].time < 0xffff_ffff_ffff_ffff) ==>
            forall q :: 0 <= q < |queues| && queues[q] != [] ==>
              && queues[p][0].time <= queues[q][0].time
              && (q < p ==> queues[p][0].time < queues[q][0].time))
  }

  lemma NextIsRight(queues: Queues)
    ensures RightChoice(queues, Next(queues))
  {
    hide Choice;
    ChoiceNone(queues, |queues|);
    if Next(queues).Some? {
      forall q: nat | IsFirst(queues, q) && queues[q][0].time == 0xffff_ffff_ffff_ffff ensures Next(queues).value == q {
        UntimedFirstHead(queues, q, |queues|);
      }
      if forall q: nat :: IsFirst(queues, q) ==> queues[q][0].time < 0xffff_ffff_ffff_ffff {
        ChoiceIsEarliest(queues, |queues|);
      }
    }
  }

  lemma {:induction false} SomeFirst(queues: Queues, n: nat) returns (p: nat)
    requires n < |queues| && queues[n] != []
    ensures IsFirst(queues, p)
    decreases n
  {
    if q :| 0 <= q < n && queues[q] != [] {
      p := SomeFirst(queues, q);
    } else {
      p := n;
    }
  }

  /** There is only one right choice. */
  lemma RightChoiceUnique(queues: Queues, c: Option<nat>, d: Option<nat>)
    requires RightChoice(queues, c) && RightChoice(queues, d)
    ensures c == d
  {
    if c.Some? && d.Some? {
      var p := SomeFirst(queues, c.value);
      forall q: nat | IsFirst(queues, q) ensures q == p {}
      if queues[p][0].time < 0xffff_ffff_ffff_ffff {
        assert queues[c.value][0].time == queues[d.value][0].time;
      }
    }
  }

  // ----- runs -----

  datatype Event = Arrive(pad: nat, frame: Frame) | Collect

  /** A frame and the pad it was taken from. */
  datatype Taken = Taken(pad: nat, frame: Frame)

  function Next(queues: Queues): Option<nat> {
    Choice(queues, |queues|)
  }

  /** The queues after an event; a frame for a pad that does not exist is ignored. */
  function StepQueues(queues: Queues, e: Event): (r: Queues)
    ensures |r| == |queues|
  {
    match e
    case Arrive(p, f) => if p < |queues| then queues[p := queues[p] + [f]] else queues
    case Collect =>
      var c := Next(queues);
      if c.None? then queues else queues[c.value := queues[c.value][1..]]
  }

  function StepTaken(queues: Queues, e: Event): seq<Taken> {
    if e.Arrive? || Next(queues).None? then [] else [Taken(Next(queues).value, queues[Next(queues).value][0])]
  }

  function QueuesAfter(queues: Queues, es: seq<Event>): (r: Queues)
    ensures |r| == |queues|
    decreases |es|
  {
    if es == [] then queues else QueuesAfter(StepQueues(queues, es[0]), es[1..])
  }

  /** The frames taken in a run, in the order in which they reach the writer. */
  function Merged(queues: Queues, es: seq<Event>): seq<Taken>
    decreases |es|
  {
    if es == [] then [] else StepTaken(queues, es[0]) + Merged(StepQueues(queues, es[0]), es[1..])
  }

  function Arrivals(es: seq<Event>, p: nat): seq<Frame> {
    if es == [] then []
    else (if es[0].Arrive? && es[0].pad == p then [es[0].frame] else []) + Arrivals(es[1..], p)
  }

  function FromPad(ts: seq<Taken>, p: nat): seq<Frame> {
    if ts == [] then [] else (if ts[0].pad == p then [ts[0].frame] else []) + FromPad(ts[1..], p)
  }

  lemma {:induction false} FromPadAppend(a: seq<Taken>, b: seq<Taken>, p: nat)
    ensures FromPad(a + b, p) == FromPad(a, p) + FromPad(b, p)
  {
    if a == [] {
      assert a + b == b;
    } else {
      assert (a + b)[0] == a[0] && (a + b)[1..] == a[1..] + b;
      var own := if a[0].pad == p then [a[0].frame] else [];
      FromPadAppend(a[1..], b, p);
      assert FromPad(a + b, p) == own + FromPad(a[1..] + b, p);
      assert FromPad(a, p) == own + FromPad(a[1..], p);
      assert own + (FromPad(a[1..], p) + FromPad(b, p)) == own + FromPad(a[1..], p) + FromPad(b, p);
    }
  }

  lemma StepConserves(queues: Queues, e: Event, p: nat)
    requires p < |queues|
    ensures FromPad(StepTaken(queues, e), p) + StepQueues(queues, e)[p] == queues[p] + Arrivals([e], p)
  {
    hide Choice;
    match e {
      case Arrive(q, f) =>
        assert [e][1..] == [];
        assert Arrivals([e], p) == (if q == p then [f] else []) + [];
      case Collect =>
        assert [e][1..] == [];
        assert Arrivals([e], p) == [] + [];
        var c := Next(queues);
        if c.Some? {
          var t := Taken(c.value, queues[c.value][0]);
          assert [t][1..] == [];
          assert FromPad([t], p) == (if c.value == p then [t.frame] else []) + [];
        }
    }
  }

  /**
   The merge is an interleaving: whatever arrives when, what was taken from a pad followed by
   what still waits there is what was there and what arrived, in the same order.
   */
  lemma {:induction false} MergeInterleaves(queues: Queues, es: seq<Event>, p: nat)
    requires p < |queues|
    ensures FromPad(Merged(queues, es), p) + QueuesAfter(queues, es)[p] == queues[p] + Arrivals(es, p)
    decreases |es|
  {
    hide StepTaken, StepQueues;
    if es == [] {
      assert [] + queues[p] == queues[p] + [];
    } else {
      var next := StepQueues(queues, es[0]);
      StepConserves(queues, es[0], p);
      MergeInterleaves(next, es[1..], p);
      FromPadAppend(StepTaken(queues, es[0]), Merged(next, es[1..]), p);
      ArrivalsCons(es, p);
      Rearrange(FromPad(StepTaken(queues, es[0]), p), FromPad(Merged(next, es[1..]), p), QueuesAfter(next, es[1..])[p],
                next[p], Arrivals(es[1..], p), queues[p], Arrivals([es[0]], p));
    }
  }

  lemma ArrivalsCons(es: seq<Event>, p: nat)
    requires es != []
    ensures Arrivals(es, p) == Arrivals([es[0]], p) + Arrivals(es[1..], p)
  {
    assert [es[0]][1..] == [];
  }

  lemma Rearrange(a: seq<Frame>, b: seq<Frame>, c: seq<Frame>, d: seq<Frame>, e: seq<Frame>, g: seq<Frame>, h: seq<Frame>)
    requires b + c == d + e && a + d == g + h
    ensures a + b + c == g + (h + e)
  {
    assert a + b + c == a + (b + c);
    assert a + (d + e) == a + d + e;
    assert g + h + e == g + (h + e);
  }

  // ----- what one collection takes -----

  /** A collection takes nothing exactly if nothing waits, else the one head that is right, and leaves all else. */
  lemma CollectTakesRight(queues: Queues)
    ensures StepTaken(queues, Collect) == [] <==> forall p :: 0 <= p < |queues| ==> queues[p] == []
    ensures StepTaken(queues, Collect) == [] ==> StepQueues(queues, Collect) == queues
    ensures StepTaken(queues, Collect) != [] ==>
              && |StepTaken(queues, Collect)| == 1
              && var t := StepTaken(queues, Collect)[0];
                 && RightChoice(queues, Some(t.pad)) && t.frame == queues[t.pad][0]
                 && StepQueues(queues, Collect) == queues[t.pad := queues[t.pad][1..]]
  {
    NextIsRight(queues);
    hide Choice, IsFirst;
  }

  /** What was taken in all grows by nothing if nothing waits, else by the head that is right. */
  ghost predicate TookRight(queues: Queues, before: seq<Taken>, after: seq<Taken>) {
    if forall p :: 0 <= p < |queues| ==> queues[p] == [] then after == before
    else
      && |after| == |before| + 1 && after[..|before|] == before
      && var t := after[|before|];
         RightChoice(queues, Some(t.pad)) && t.pad < |queues| && queues[t.pad] != [] && t.frame == queues[t.pad][0]
  }

  lemma CollectTookRight(queues: Queues, before: seq<Taken>)
    ensures TookRight(queues, before, before + StepTaken(queues, Collect))
  {
    CollectTakesRight(queues);
    hide StepTaken, IsFirst;
  }

  /** The number of frames that wait. */
  function InAll(queues: Queues): nat {
    if queues == [] then 0 else |queues[0]| + InAll(queues[1..])
  }

  lemma {:induction false} OneLess(queues: Queues, p: nat)
    requires p < |queues| && queues[p] != []
    ensures InAll(queues[p := queues[p][1..]]) == InAll(queues) - 1
  {
    var next := queues[p := queues[p][1..]];
    if p > 0 {
      OneLess(queues[1..], p - 1);
      assert next[1..] == queues[1..][p - 1 := queues[1..][p - 1][1..]];
    } else {
      assert next[1..] == queues[1..];
    }
  }

  lemma {:induction false} NoneInAll(queues: Queues)
    ensures InAll(queues) == 0 <==> forall p :: 0 <= p < |queues| ==> queues[p] == []
  {
    if queues != [] {
      NoneInAll(queues[1..]);
      assert forall p :: 0 < p < |queues| ==> queues[p] == queues[1..][p - 1];
    }
  }

  function Collections(n: nat): (es: seq<Event>)
    ensures |es| == n && forall i :: 0 <= i < n ==> es[i] == Collect
  {
    seq(n, _ => Collect)
  }

  /** As many collections as frames wait, or more, take every one of them. */
  lemma {:induction false} CollectionsDrain(queues: Queues, n: nat)
    requires InAll(queues) <= n
    ensures forall p :: 0 <= p < |queues| ==> QueuesAfter(queues, Collections(n))[p] == []
    ensures |Merged(queues, Collections(n))| == InAll(queues)
    decreases n
  {
    hide StepTaken, StepQueues, InAll, RightChoice;
    if n == 0 {
      NoneInAll(queues);
    } else {
      var next := StepQueues(queues, Collect);
      assert Collections(n)[0] == Collect && Collections(n)[1..] == Collections(n - 1);
      CollectTakesRight(queues);
      NoneInAll(queues);
      if StepTaken(queues, Collect) != [] {
        RightIsAPad(queues, StepTaken(queues, Collect)[0].pad);
        OneLess(queues, StepTaken(queues, Collect)[0].pad);
      }
      CollectionsDrain(next, n - 1);
    }
  }

  lemma RightIsAPad(queues: Queues, p: nat)
    requires RightChoice(queues, Some(p))
    ensures p < |queues| && queues[p] != []
  {
  }

  /** Whatever happened before: once enough collections follow, everything that arrived has been taken, in order. */
  lemma EverythingIsTaken(queues: Queues, es: seq<Event>, n: nat, p: nat)
    requires InAll(QueuesAfter(queues, es)) <= n && p < |queues|
    ensures FromPad(Merged(queues, es + Collections(n)), p) == queues[p] + Arrivals(es, p)
  {
    hide Merged, QueuesAfter, InAll;
    RunAppendEvents(queues, es, Collections(n));
    CollectionsDrain(QueuesAfter(queues, es), n);
    MergeInterleaves(queues, es + Collections(n), p);
    ArrivalsAppend(es, Collections(n), p);
    NoArrivals(n, p);
    assert FromPad(Merged(queues, es + Collections(n)), p) + [] == FromPad(Merged(queues, es + Collections(n)), p);
    assert Arrivals(es, p) + [] == Arrivals(es, p);
  }

  lemma {:induction false} RunAppendEvents(queues: Queues, a: seq<Event>, b: seq<Event>)
    ensures QueuesAfter(queues, a + b) == QueuesAfter(QueuesAfter(queues, a), b)
    decreases |a|
  {
    hide StepQueues;
    if a == [] {
      assert a + b == b;
    } else {
      assert (a + b)[0] == a[0] && (a + b)[1..] == a[1..] + b;
      RunAppendEvents(StepQueues(queues, a[0]), a[1..], b);
    }
  }

  lemma {:induction false} ArrivalsAppend(a: seq<Event>, b: seq<Event>, p: nat)
    ensures Arrivals(a + b, p) == Arrivals(a, p) + Arrivals(b, p)
  {
    if a == [] {
      assert a + b == b;
    } else {
      assert (a + b)[0] == a[0] && (a + b)[1..] == a[1..] + b;
      var own := if a[0].Arrive? && a[0].pad == p then [a[0].frame] else [];
      ArrivalsAppend(a[1..], b, p);
      assert Arrivals(a + b, p) == own + Arrivals(a[1..] + b, p);
      assert own + (Arrivals(a[1..], p) + Arrivals(b, p)) == own + Arrivals(a[1..], p) + Arrivals(b, p);
    }
  }

  lemma {:induction false} NoArrivals(n: nat, p: nat)
    ensures Arrivals(Collections(n), p) == []
  {
    if n > 0 {
      assert Collections(n)[0] == Collect && Collections(n)[1..] == Collections(n - 1);
      NoArrivals(n - 1, p);
    }
  }

  // ----- one pad more -----

  /** Frames arrive only on the first n pads. */
  predicate ArrivalsOn(es: seq<Event>, n: nat) {
    forall i :: 0 <= i < |es| && es[i].Arrive? ==> es[i].pad < n
  }

  lemma {:induction false} ChoiceAmongFirst(queues: Queues, more: Queues, n: nat)
    requires n <= |queues|
    ensures Choice(queues + more, n) == Choice(queues, n)
  {
    if n > 0 {
      ChoiceAmongFirst(queues, more, n - 1);
    }
  }

  lemma NextWithEmptyPad(queues: Queues)
    ensures Next(queues + [[]]) == Next(queues)
  {
    ChoiceAmongFirst(queues, [[]], |queues|);
  }

  lemma StepWithEmptyPad(queues: Queues, e: Event)
    requires e.Arrive? ==> e.pad < |queues|
    ensures StepQueues(queues + [[]], e) == StepQueues(queues, e) + [[]]
    ensures StepTaken(queues + [[]], e) == StepTaken(queues, e)
  {
    hide Choice;
    NextWithEmptyPad(queues);
  }

  /** A pad on which nothing arrives makes no difference. */
  lemma {:induction false} RunWithEmptyPad(queues: Queues, es: seq<Event>)
    requires ArrivalsOn(es, |queues|)
    ensures QueuesAfter(queues + [[]], es) == QueuesAfter(queues, es) + [[]]
    ensures Merged(queues + [[]], es) == Merged(queues, es)
    decreases |es|
  {
    hide StepQueues, StepTaken;
    if es != [] {
      StepWithEmptyPad(queues, es[0]);
      RunWithEmptyPad(StepQueues(queues, es[0]), es[1..]);
    }
  }

  // ----- sortedness -----

  predicate Sorted(fs: seq<Frame>) {
    forall i, j :: 0 <= i < j < |fs| ==> fs[i].time <= fs[j].time
  }

  /** A frame list in order, all of it timed and none of it before a moment. */
  predicate SortedFrom(fs: seq<Frame>, t: nat) {
    Sorted(fs) && forall i :: 0 <= i < |fs| ==> t <= fs[i].time < 0xffff_ffff_ffff_ffff
  }

  /** What is still to be taken from a pad: its queue and its later arrivals. */
  function Remaining(queues: Queues, es: seq<Event>, p: nat): seq<Frame>
    requires p < |queues|
  {
    queues[p] + Arrivals(es, p)
  }

  /** At every collection each pad has a frame waiting or will never get another one. */
  predicate HeadsReady(queues: Queues, es: seq<Event>)
    decreases |es|
  {
    es == [] ||
    (&& (es[0].Collect? ==> forall p :: 0 <= p < |queues| ==> queues[p] != [] || Arrivals(es, p) == [])
     && HeadsReady(StepQueues(queues, es[0]), es[1..]))
  }

  /** Earlier, or at the same time and not on a later pad. */
  predicate NotAfter(t: nat, p: nat, u: nat, q: nat) {
    t < u || (t == u && p <= q)
  }

  /** The earliest time that may still come on pad p behind a frame of time t from pad c. */
  function Floor(t: nat, c: nat, p: nat): nat {
    if p < c then t + 1 else t
  }

  predicate AllSortedFrom(queues: Queues, es: seq<Event>, t: nat, c: nat) {
    forall p :: 0 <= p < |queues| ==> SortedFrom(Remaining(queues, es, p), Floor(t, c, p))
  }

  /** Frames in order of time, of equal times in order of pads, none before a moment on a pad. */
  predicate TakenInOrder(ts: seq<Taken>, t: nat, c: nat) {
    && (forall i, j :: 0 <= i < j < |ts| ==> NotAfter(ts[i].frame.time, ts[i].pad, ts[j].frame.time, ts[j].pad))
    && forall i :: 0 <= i < |ts| ==> NotAfter(t, c, ts[i].frame.time, ts[i].pad)
  }

  lemma RemainingStep(queues: Queues, es: seq<Event>, p: nat)
    requires es != [] && p < |queues|
    ensures FromPad(StepTaken(queues, es[0]), p) + Remaining(StepQueues(queues, es[0]), es[1..], p) == Remaining(queues, es, p)
  {
    hide StepTaken, StepQueues;
    StepConserves(queues, es[0], p);
    ArrivalsCons(es, p);
    Rearrange(FromPad(StepTaken(queues, es[0]), p), StepQueues(queues, es[0])[p], Arrivals(es[1..], p),
              StepQueues(queues, es[0])[p], Arrivals(es[1..], p), queues[p], Arrivals([es[0]], p));
    assert FromPad(StepTaken(queues, es[0]), p) + (StepQueues(queues, es[0])[p] + Arrivals(es[1..], p))
        == FromPad(StepTaken(queues, es[0]), p) + StepQueues(queues, es[0])[p] + Arrivals(es[1..], p);
  }

  lemma SortedTail(a: seq<Frame>, b: seq<Frame>, t: nat)
    requires SortedFrom(a + b, t)
    ensures SortedFrom(b, t)
    ensures a != [] ==> SortedFrom(b, a[0].time)
  {
    forall i | 0 <= i < |b| ensures b[i] == (a + b)[|a| + i] {}
    forall i, j | 0 <= i < j < |b| ensures b[i].time <= b[j].time {
      assert (a + b)[|a| + i].time <= (a + b)[|a| + j].time;
    }
    if a != [] {
      assert (a + b)[0] == a[0];
    }
  }

  lemma LaterIsLater(fs: seq<Frame>, t: nat, u: nat)
    requires SortedFrom(fs, t) && fs != [] && u <= fs[0].time
    ensures SortedFrom(fs, u)
  {
  }

  /** The frame taken is no later than anything that remains. */
  lemma TakenIsEarliest(queues: Queues, es: seq<Event>, t: nat, last: nat)
    requires es != [] && es[0].Collect? && Next(queues).Some?
    requires AllSortedFrom(queues, es, t, last) && HeadsReady(queues, es)
    ensures var c := Next(queues).value;
            && NotAfter(t, last, queues[c][0].time, c)
            && AllSortedFrom(StepQueues(queues, es[0]), es[1..], queues[c][0].time, c)
  {
    hide Choice, Sorted;
    var c := Next(queues).value;
    var u := queues[c][0].time;
    HeadsAreTimed(queues, es, t, last);
    ChoiceIsEarliest(queues, |queues|);
    assert Remaining(queues, es, c)[0] == queues[c][0];
    forall p | 0 <= p < |queues| ensures SortedFrom(Remaining(StepQueues(queues, es[0]), es[1..], p), Floor(u, c, p)) {
      RemainingStep(queues, es, p);
      var taken, rest := FromPad(StepTaken(queues, es[0]), p), Remaining(StepQueues(queues, es[0]), es[1..], p);
      TakenFrom(queues, p);
      SortedTail(taken, rest, Floor(t, last, p));
      if p != c {
        assert [] + rest == rest;
        if queues[p] != [] {
          assert Remaining(queues, es, p)[0] == queues[p][0];
          LaterIsLater(rest, Floor(t, last, p), Floor(u, c, p));
        } else {
          assert rest == [];
        }
      }
    }
  }

  lemma TakenFrom(queues: Queues, p: nat)
    requires p < |queues| && Next(queues).Some?
    ensures FromPad(StepTaken(queues, Collect), p) == if p == Next(queues).value then [queues[p][0]] else []
  {
    hide Choice;
    var t := Taken(Next(queues).value, queues[Next(queues).value][0]);
    assert [t][1..] == [];
    assert FromPad([t], p) == (if t.pad == p then [t.frame] else []) + [];
  }

  lemma HeadsAreTimed(queues: Queues, es: seq<Event>, t: nat, c: nat)
    requires AllSortedFrom(queues, es, t, c)
    ensures forall p: nat :: IsFirst(queues, p) ==> queues[p][0].time < 0xffff_ffff_ffff_ffff
  {
    forall p: nat | IsFirst(queues, p) ensures queues[p][0].time < 0xffff_ffff_ffff_ffff {
      assert Remaining(queues, es, p)[0] == queues[p][0];
      assert SortedFrom(Remaining(queues, es, p), Floor(t, c, p));
    }
  }

  lemma QuietStep(queues: Queues, es: seq<Event>, t: nat, c: nat)
    requires es != [] && StepTaken(queues, es[0]) == [] && AllSortedFrom(queues, es, t, c)
    ensures AllSortedFrom(StepQueues(queues, es[0]), es[1..], t, c)
  {
    hide StepTaken, StepQueues, SortedFrom;
    forall p | 0 <= p < |queues| ensures SortedFrom(Remaining(StepQueues(queues, es[0]), es[1..], p), Floor(t, c, p)) {
      RemainingStep(queues, es, p);
      assert [] + Remaining(StepQueues(queues, es[0]), es[1..], p) == Remaining(StepQueues(queues, es[0]), es[1..], p);
    }
  }

  lemma OneMoreTaken(first: Taken, rest: seq<Taken>, t: nat, c: nat)
    requires NotAfter(t, c, first.frame.time, first.pad) && TakenInOrder(rest, first.frame.time, first.pad)
    ensures TakenInOrder([first] + rest, t, c)
  {
  }

  /**
   If every pad delivers its frames in order and no pad that has more to come is empty at a
   collection, the merged frames are in order of time, and those of equal times in order of pads.
   */
  lemma {:induction false} MergeSorts(queues: Queues, es: seq<Event>, t: nat, c: nat)
    requires AllSortedFrom(queues, es, t, c) && HeadsReady(queues, es)
    ensures TakenInOrder(Merged(queues, es), t, c)
    decreases |es|
  {
    hide Choice, AllSortedFrom, StepQueues, NotAfter, Floor;
    if es != [] {
      var next := StepQueues(queues, es[0]);
      if StepTaken(queues, es[0]) == [] {
        QuietStep(queues, es, t, c);
        MergeSorts(next, es[1..], t, c);
        assert Merged(queues, es) == Merged(next, es[1..]);
      } else {
        TakenIsEarliest(queues, es, t, c);
        var first := StepTaken(queues, es[0])[0];
        MergeSorts(next, es[1..], first.frame.time, first.pad);
        OneMoreTaken(first, Merged(next, es[1..]), t, c);
      }
    }
  }
}
