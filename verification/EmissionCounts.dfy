// Conservation: every frame of the forest is emitted exactly once, so what the container
// holds is the sum of what the frames hold.
module EmissionCounts {
  import opened Common
  import opened Observer
  import opened Forest
  import opened Emission
  import EmissionProofs

  // ----- sums over the forest: `w` weighs each frame alone, `s` with everything below it

  ghost function SumFrom(w: seq<nat>, lo: nat): nat
    requires lo <= |w|
    decreases |w| - lo
  {
    if lo == |w| then 0 else w[lo] + SumFrom(w, lo + 1)
  }

  ghost function KidsSum(t: seq<Node>, s: seq<nat>, id: nat, hi: nat): nat
    requires id < |t| == |s| && hi <= |t|
  {
    if hi <= id + 1 then 0
    else KidsSum(t, s, id, hi - 1) + if t[hi - 1].parent == Some(id) then s[hi - 1] else 0
  }

  ghost predicate SubtreeSums(t: seq<Node>, w: seq<nat>, s: seq<nat>) {
    && |t| == |w| == |s|
    && forall id :: 0 <= id < |s| ==> s[id] == w[id] + KidsSum(t, s, id, |t|)
  }

  predicate OpenedBefore(t: seq<Node>, c: nat, lo: nat)
    requires c < |t|
  {
    t[c].parent.None? || t[c].parent.value < lo
  }

  // The subtrees of the frames in [lo, hi) that were not opened by one of [lo, hi).
  ghost function RootsSum(t: seq<Node>, s: seq<nat>, lo: nat, hi: nat): nat
    requires lo <= hi <= |t| == |s|
    decreases hi
  {
    if hi == lo then 0
    else RootsSum(t, s, lo, hi - 1) + if OpenedBefore(t, hi - 1, lo) then s[hi - 1] else 0
  }

  lemma {:induction false} RootsShift(t: seq<Node>, s: seq<nat>, lo: nat, hi: nat)
    requires WellFormed(t) && lo < hi <= |t| == |s|
    ensures RootsSum(t, s, lo, hi) + KidsSum(t, s, lo, hi) == s[lo] + RootsSum(t, s, lo + 1, hi)
    decreases hi
  {
    if hi == lo + 1 {
      assert OpenedBefore(t, lo, lo);
      assert RootsSum(t, s, lo, lo) == 0;
    } else {
      RootsShift(t, s, lo, hi - 1);
    }
  }

  // Summing the subtrees of the top-level frames counts every frame once.
  lemma {:induction false} RootsTotal(t: seq<Node>, w: seq<nat>, s: seq<nat>, lo: nat)
    requires WellFormed(t) && SubtreeSums(t, w, s) && lo <= |t|
    ensures RootsSum(t, s, lo, |t|) == SumFrom(w, lo)
    decreases |t| - lo
  {
    if lo < |t| {
      RootsShift(t, s, lo, |t|);
      RootsTotal(t, w, s, lo + 1);
    }
  }

  // ----- children split by slot

  ghost function SlotSum(t: seq<Node>, s: seq<nat>, id: nat, slot: nat, hi: nat): nat
    requires id < |t| == |s| && hi <= |t|
  {
    if hi <= id + 1 then 0
    else SlotSum(t, s, id, slot, hi - 1) + if HangsAt(t, hi - 1, id, slot) then s[hi - 1] else 0
  }

  // The children that run before step `bound`.
  ghost function BelowSum(t: seq<Node>, s: seq<nat>, id: nat, bound: nat): nat
    requires id < |t| == |s|
  {
    if bound == 0 then 0 else BelowSum(t, s, id, bound - 1) + SlotSum(t, s, id, bound - 1, |t|)
  }

  ghost function EarlySum(t: seq<Node>, s: seq<nat>, id: nat, bound: nat, hi: nat): nat
    requires id < |t| == |s| && hi <= |t|
  {
    if hi <= id + 1 then 0
    else
      var k := hi - 1;
      EarlySum(t, s, id, bound, k) +
      if t[k].parent == Some(id) && Slot(t[k], |t[id].steps|) < bound then s[k] else 0
  }

  lemma {:induction false} EarlyStep(t: seq<Node>, s: seq<nat>, id: nat, bound: nat, hi: nat)
    requires id < |t| == |s| && hi <= |t|
    ensures EarlySum(t, s, id, bound + 1, hi) == EarlySum(t, s, id, bound, hi) + SlotSum(t, s, id, bound, hi)
    ensures EarlySum(t, s, id, 0, hi) == 0
    ensures EarlySum(t, s, id, |t[id].steps| + 1, hi) == KidsSum(t, s, id, hi)
  {
    if hi > id + 1 {
      EarlyStep(t, s, id, bound, hi - 1);
    }
  }

  lemma {:induction false} BelowIsEarly(t: seq<Node>, s: seq<nat>, id: nat, bound: nat)
    requires id < |t| == |s|
    ensures BelowSum(t, s, id, bound) == EarlySum(t, s, id, bound, |t|)
  {
    if bound == 0 {
      EarlyStep(t, s, id, 0, |t|);
    } else {
      BelowIsEarly(t, s, id, bound - 1);
      EarlyStep(t, s, id, bound - 1, |t|);
    }
  }

  // Every child runs before some step or after the last one.
  lemma {:induction false} SlotsCoverKids(t: seq<Node>, s: seq<nat>, id: nat)
    requires id < |t| == |s|
    ensures BelowSum(t, s, id, |t[id].steps| + 1) == KidsSum(t, s, id, |t|)
  {
    BelowIsEarly(t, s, id, |t[id].steps| + 1);
    EarlyStep(t, s, id, 0, |t|);
  }

  // ----- what one frame writes itself

  ghost function OwnStep(c: Context, f: Frame, i: nat, k: Kind): nat
    requires Covered(c, f) && i < |f.steps|
  {
    Count(OpenInternal(c, f, i), k) + Count([Stepped(PositionOf(c, f, f.steps[i]))], k) +
    Count(CloseInternal(c, f, i), k)
  }

  ghost function OwnSteps(c: Context, f: Frame, n: nat, k: Kind): nat
    requires Covered(c, f) && n <= |f.steps|
  {
    if n == 0 then 0 else OwnSteps(c, f, n - 1, k) + OwnStep(c, f, n - 1, k)
  }

  ghost function Own(c: Context, f: Frame, k: Kind): nat
    requires Covered(c, f)
  {
    Count(Header(c, f), k) + OwnSteps(c, f, |f.steps|, k) + Count(Closing(c, f), k) + Count(Footer(f), k)
  }

  ghost function Owns(c: Context, frames: seq<Frame>, k: Kind): (w: seq<nat>)
    requires Ready(c, frames)
    ensures |w| == |frames| && forall i :: 0 <= i < |w| ==> w[i] == Own(c, frames[i], k)
  {
    seq(|frames|, i requires 0 <= i < |frames| => Own(c, frames[i], k))
  }

  // `s` counts each frame's whole segment.
  ghost predicate Segments(c: Context, frames: seq<Frame>, s: seq<nat>, k: Kind)
    requires Ready(c, frames)
  {
    |s| == |frames| && forall id :: 0 <= id < |s| ==> s[id] == Count(EmitFrame(c, frames, id), k)
  }

  lemma {:induction false} CountKids(c: Context, frames: seq<Frame>, s: seq<nat>, id: nat, slot: nat, hi: nat, k: Kind)
    requires Ready(c, frames) && Segments(c, frames, s, k) && id < |frames| && hi <= |frames|
    ensures Count(EmitKids(c, frames, id, slot, hi), k) == SlotSum(Shape(frames), s, id, slot, hi)
    decreases hi
  {
    if hi > id + 1 {
      var kid := hi - 1;
      CountKids(c, frames, s, id, slot, kid, k);
      if HangsAt(Shape(frames), kid, id, slot) {
        CountConcat(EmitKids(c, frames, id, slot, kid), EmitFrame(c, frames, kid), k);
      }
    }
  }

  lemma {:induction false} CountStep(c: Context, f: Frame, i: nat, done: seq<Event>, kids: seq<Event>, k: Kind)
    requires Covered(c, f) && i < |f.steps|
    ensures Count(done + OpenInternal(c, f, i) + kids + [Stepped(PositionOf(c, f, f.steps[i]))] +
      CloseInternal(c, f, i), k)
      == Count(done, k) + Count(kids, k) + OwnStep(c, f, i, k)
  {
    var open, step, close := OpenInternal(c, f, i), [Stepped(PositionOf(c, f, f.steps[i]))], CloseInternal(c, f, i);
    CountConcat(done, open, k);
    CountConcat(done + open, kids, k);
    CountConcat(done + open + kids, step, k);
    CountConcat(done + open + kids + step, close, k);
  }

  lemma {:induction false} CountSteps(c: Context, frames: seq<Frame>, s: seq<nat>, id: nat, n: nat, k: Kind)
    requires Ready(c, frames) && Segments(c, frames, s, k) && id < |frames| && n <= |frames[id].steps|
    ensures Count(EmitSteps(c, frames, id, n), k) == OwnSteps(c, frames[id], n, k) + BelowSum(Shape(frames), s, id, n)
  {
    if n > 0 {
      var f, i := frames[id], n - 1;
      var done, kids, all :=
        EmitSteps(c, frames, id, i), EmitKids(c, frames, id, i, |frames|), EmitSteps(c, frames, id, n);
      assert Count(all, k) == Count(done, k) + Count(kids, k) + OwnStep(c, f, i, k) by {
        CountStep(c, f, i, done, kids, k);
      }
      CountSteps(c, frames, s, id, i, k);
      CountKids(c, frames, s, id, i, |frames|, k);
    }
  }

  lemma {:induction false} CountFrame(c: Context, frames: seq<Frame>, s: seq<nat>, id: nat, k: Kind)
    requires Ready(c, frames) && Segments(c, frames, s, k) && id < |frames|
    ensures s[id] == Own(c, frames[id], k) + KidsSum(Shape(frames), s, id, |frames|)
  {
    var f, m := frames[id], |frames[id].steps|;
    var steps, kids := EmitSteps(c, frames, id, m), EmitKids(c, frames, id, m, |frames|);
    CountSteps(c, frames, s, id, m, k);
    CountKids(c, frames, s, id, m, |frames|, k);
    SlotsCoverKids(Shape(frames), s, id);
    CountConcat(steps, kids, k);
    CountConcat(steps + kids, Closing(c, f), k);
    CountConcat(Header(c, f), EmitBody(c, frames, id), k);
    CountConcat(Header(c, f) + EmitBody(c, frames, id), Footer(f), k);
  }

  lemma {:induction false} CountTops(c: Context, frames: seq<Frame>, s: seq<nat>, hi: nat, k: Kind)
    requires Ready(c, frames) && Segments(c, frames, s, k) && hi <= |frames|
    ensures Count(EmitTops(c, frames, hi), k) == RootsSum(Shape(frames), s, 0, hi)
  {
    if hi > 0 {
      var top := hi - 1;
      CountTops(c, frames, s, top, k);
      assert OpenedBefore(Shape(frames), top, 0) <==> frames[top].parent == None;
      if frames[top].parent == None {
        CountConcat(EmitTops(c, frames, top), EmitFrame(c, frames, top), k);
      }
    }
  }

  lemma {:induction false} CountAllTops(c: Context, frames: seq<Frame>, k: Kind)
    requires Ready(c, frames)
    ensures Count(EmitTops(c, frames, |frames|), k) == SumFrom(Owns(c, frames, k), 0)
  {
    var s := seq(|frames|, i requires 0 <= i < |frames| => Count(EmitFrame(c, frames, i), k));
    assert Segments(c, frames, s, k);
    forall id | 0 <= id < |frames|
      ensures s[id] == Owns(c, frames, k)[id] + KidsSum(Shape(frames), s, id, |frames|)
    {
      CountFrame(c, frames, s, id, k);
    }
    CountTops(c, frames, s, |frames|, k);
    RootsTotal(Shape(frames), Owns(c, frames, k), s, 0);
  }

  lemma {:induction false} CountAround(head: seq<Event>, ev: seq<Event>, tail: seq<Event>, k: Kind)
    requires forall i :: 0 <= i < |head| ==> !IsKind(head[i], k)
    requires forall i :: 0 <= i < |tail| ==> !IsKind(tail[i], k)
    ensures Count(head + ev + tail, k) == Count(ev, k)
  {
    CountNone(head, k);
    CountNone(tail, k);
    CountConcat(head, ev, k);
    CountConcat(head + ev, tail, k);
  }

  lemma {:induction false} CountContainer(c: Context, frames: seq<Frame>, revert: Option<string>, k: Kind)
    requires Ready(c, frames) && frames != []
    ensures Count(Container(c, frames, revert), k) == SumFrom(Owns(c, frames, k), 0)
  {
    var head := [Start(c.paths[frames[0].call.classHash])];
    var tail := match revert { case Some(e) => [Reverted(e)] case None => [] };
    CountAround(head, EmitTops(c, frames, |frames|), tail, k);
    assert head + EmitTops(c, frames, |frames|) + tail == Container(c, frames, revert);
    CountAllTops(c, frames, k);
  }

  // ----- the kinds that are easy to name

  lemma {:induction false} CountNone(ev: seq<Event>, k: Kind)
    requires forall i :: 0 <= i < |ev| ==> !IsKind(ev[i], k)
    ensures Count(ev, k) == 0
  {
    if ev != [] {
      CountNone(ev[..|ev| - 1], k);
    }
  }

  lemma {:induction false} CountAll(ev: seq<Event>, k: Kind)
    requires forall i :: 0 <= i < |ev| ==> IsKind(ev[i], k)
    ensures Count(ev, k) == |ev|
  {
    if ev != [] {
      CountAll(ev[..|ev| - 1], k);
    }
  }

  lemma {:induction false} OwnStepsOf(c: Context, f: Frame, n: nat)
    requires Covered(c, f) && n <= |f.steps|
    ensures OwnSteps(c, f, n, EntryCalls) == 0
    ensures OwnSteps(c, f, n, Steps) == n
    ensures OwnSteps(c, f, n, ContractEvents) == 0
  {
    if n > 0 {
      OwnStepsOf(c, f, n - 1);
      var step := [Stepped(PositionOf(c, f, f.steps[n - 1]))];
      CountAll(step, Steps);
      CountNone(step, EntryCalls);
      CountNone(step, ContractEvents);
      CountNoneOf(OpenInternal(c, f, n - 1));
      CountNoneOf(CloseInternal(c, f, n - 1));
    }
  }

  lemma {:induction false} CountNoneOf(ev: seq<Event>)
    requires forall i :: 0 <= i < |ev| ==> ev[i].InternalCall? || ev[i].Return?
    ensures Count(ev, EntryCalls) == Count(ev, Steps) == Count(ev, ContractEvents) == 0
  {
    CountNone(ev, EntryCalls);
    CountNone(ev, Steps);
    CountNone(ev, ContractEvents);
  }

  lemma {:induction false} HeaderCounts(c: Context, f: Frame)
    requires Covered(c, f)
    ensures Count(Header(c, f), EntryCalls) == 1
    ensures Count(Header(c, f), Steps) == Count(Header(c, f), ContractEvents) == 0
  {
    var h := Header(c, f);
    CountNone(h[..4], EntryCalls);
    CountNone(h, Steps);
    CountNone(h, ContractEvents);
  }

  lemma {:induction false} ClosingCounts(c: Context, f: Frame)
    requires Covered(c, f)
    ensures Count(Closing(c, f), EntryCalls) == Count(Closing(c, f), Steps) == 0
    ensures Count(Closing(c, f), ContractEvents) == |GetOr(c.eventsByFrame, f.id, [])|
  {
    var drain := Repeat(Return(NoValue), Internal(c, f, |f.steps|).0);
    var evs := FrameEvents(c, f, |GetOr(c.eventsByFrame, f.id, [])|);
    CountNoneOf(drain);
    CountNone(Closing(c, f), EntryCalls);
    CountNone(Closing(c, f), Steps);
    CountAll(evs, ContractEvents);
    CountConcat(drain, evs, ContractEvents);
  }

  lemma {:induction false} FooterCounts(f: Frame)
    ensures Count(Footer(f), EntryCalls) == Count(Footer(f), Steps) == Count(Footer(f), ContractEvents) == 0
  {
    CountNone(Footer(f), EntryCalls);
    CountNone(Footer(f), Steps);
    CountNone(Footer(f), ContractEvents);
  }

  lemma {:induction false} OwnSum(c: Context, f: Frame, k: Kind, header: nat, steps: nat, closing: nat)
    requires Covered(c, f)
    requires Count(Header(c, f), k) == header && OwnSteps(c, f, |f.steps|, k) == steps
    requires Count(Closing(c, f), k) == closing && Count(Footer(f), k) == 0
    ensures Own(c, f, k) == header + steps + closing
  {
  }

  lemma {:induction false} OwnOf(c: Context, f: Frame)
    requires Covered(c, f)
    ensures Own(c, f, EntryCalls) == 1
    ensures Own(c, f, Steps) == |f.steps|
    ensures Own(c, f, ContractEvents) == |GetOr(c.eventsByFrame, f.id, [])|
  {
    HeaderCounts(c, f);
    OwnStepsOf(c, f, |f.steps|);
    ClosingCounts(c, f);
    FooterCounts(f);
    OwnSum(c, f, EntryCalls, 1, 0, 0);
    OwnSum(c, f, Steps, 0, |f.steps|, 0);
    OwnSum(c, f, ContractEvents, 0, 0, |GetOr(c.eventsByFrame, f.id, [])|);
  }

  lemma {:induction false} SameSum(u: seq<nat>, w: seq<nat>, lo: nat)
    requires |u| == |w| && lo <= |u| && forall i :: lo <= i < |u| ==> u[i] == w[i]
    ensures SumFrom(u, lo) == SumFrom(w, lo)
    decreases |u| - lo
  {
    if lo < |u| {
      SameSum(u, w, lo + 1);
    }
  }

  lemma {:induction false} SumOfOnes(w: seq<nat>, lo: nat)
    requires lo <= |w| && forall i :: lo <= i < |w| ==> w[i] == 1
    ensures SumFrom(w, lo) == |w| - lo
    decreases |w| - lo
  {
    if lo < |w| {
      SumOfOnes(w, lo + 1);
    }
  }

  // Returns close calls one for one.
  lemma {:induction false} TrackCounts(ev: seq<Event>)
    requires Track(ev).Some?
    ensures Count(ev, EntryCalls) + Count(ev, InternalCalls) == Count(ev, Returns) + Track(ev).value
  {
    if ev != [] {
      TrackCounts(ev[..|ev| - 1]);
    }
  }

  ghost function StepCounts(frames: seq<Frame>): seq<nat> {
    seq(|frames|, i requires 0 <= i < |frames| => |frames[i].steps|)
  }

  ghost function EventCounts(c: Context, frames: seq<Frame>): seq<nat> {
    seq(|frames|, i requires 0 <= i < |frames| => |GetOr(c.eventsByFrame, frames[i].id, [])|)
  }

  lemma {:induction false} BalancedContainer(c: Context, frames: seq<Frame>, revert: Option<string>)
    requires Ready(c, frames) && frames != []
    ensures Balanced(Container(c, frames, revert))
  {
    var head := [Start(c.paths[frames[0].call.classHash])];
    var tail := match revert { case Some(e) => [Reverted(e)] case None => [] };
    EmissionProofs.BalancedTops(c, frames, |frames|);
    EmissionProofs.TrackNeutral(head);
    EmissionProofs.TrackNeutral(tail);
    TrackConcat(head, EmitTops(c, frames, |frames|));
    TrackConcat(head + EmitTops(c, frames, |frames|), tail);
  }

  // For every forest and every pattern of call and ret opcodes: the calls and returns
  // balance, calls are frames plus internal calls, and steps and events are conserved.
  lemma {:induction false} ContainerCounts(c: Context, frames: seq<Frame>, revert: Option<string>)
    requires Ready(c, frames) && frames != []
    ensures var ev := Container(c, frames, revert);
      && Balanced(ev)
      && Count(ev, EntryCalls) == |frames|
      && Count(ev, Returns) == |frames| + Count(ev, InternalCalls)
      && Count(ev, Steps) == SumFrom(StepCounts(frames), 0)
      && Count(ev, ContractEvents) == SumFrom(EventCounts(c, frames), 0)
  {
    var ev := Container(c, frames, revert);
    EveryFrameOnce(c, frames, revert);
    StepsConserved(c, frames, revert);
    EventsConserved(c, frames, revert);
    BalancedContainer(c, frames, revert);
    TrackCounts(ev);
  }

  // Each frame is opened exactly once, and nothing else is.
  lemma {:induction false} EveryFrameOnce(c: Context, frames: seq<Frame>, revert: Option<string>)
    requires Ready(c, frames) && frames != []
    ensures forall id: nat :: id < |frames| ==> Count(Container(c, frames, revert), EntryOf(id)) == 1
    ensures Count(Container(c, frames, revert), EntryCalls) == |frames|
  {
    forall id: nat | id < |frames| ensures Count(Container(c, frames, revert), EntryOf(id)) == 1 {
      FrameOnce(c, frames, revert, id);
    }
    CountContainer(c, frames, revert, EntryCalls);
    var w := Owns(c, frames, EntryCalls);
    forall i | 0 <= i < |frames| ensures w[i] == 1 {
      OwnOf(c, frames[i]);
    }
    SumOfOnes(w, 0);
  }

  lemma {:induction false} FrameOnce(c: Context, frames: seq<Frame>, revert: Option<string>, id: nat)
    requires Ready(c, frames) && id < |frames|
    ensures Count(Container(c, frames, revert), EntryOf(id)) == 1
  {
    CountContainer(c, frames, revert, EntryOf(id));
    var w := Owns(c, frames, EntryOf(id));
    forall i | 0 <= i < |frames| ensures w[i] == if i == id then 1 else 0 {
      OwnEntryOf(c, frames[i], id);
    }
    SumOfOne(w, id, 0);
  }

  lemma {:induction false} SumOfOne(w: seq<nat>, at: nat, lo: nat)
    requires lo <= |w| && at < |w| && forall i :: lo <= i < |w| ==> w[i] == if i == at then 1 else 0
    ensures SumFrom(w, lo) == if lo <= at then 1 else 0
    decreases |w| - lo
  {
    if lo < |w| {
      SumOfOne(w, at, lo + 1);
    }
  }

  lemma {:induction false} OwnEntryOf(c: Context, f: Frame, id: nat)
    requires Covered(c, f)
    ensures Own(c, f, EntryOf(id)) == if f.id == id then 1 else 0
  {
    var h, k := Header(c, f), EntryOf(id);
    CountNone(h[..4], k);
    NoEntryInSteps(c, f, |f.steps|, k);
    CountNone(Closing(c, f), k);
    CountNone(Footer(f), k);
    OwnSum(c, f, k, if f.id == id then 1 else 0, 0, 0);
  }

  lemma {:induction false} NoEntryInSteps(c: Context, f: Frame, n: nat, k: Kind)
    requires Covered(c, f) && n <= |f.steps| && k.EntryOf?
    ensures OwnSteps(c, f, n, k) == 0
  {
    if n > 0 {
      NoEntryInSteps(c, f, n - 1, k);
      CountNone(OpenInternal(c, f, n - 1), k);
      CountNone([Stepped(PositionOf(c, f, f.steps[n - 1]))], k);
      CountNone(CloseInternal(c, f, n - 1), k);
    }
  }

  lemma {:induction false} StepsConserved(c: Context, frames: seq<Frame>, revert: Option<string>)
    requires Ready(c, frames) && frames != []
    ensures Count(Container(c, frames, revert), Steps) == SumFrom(StepCounts(frames), 0)
  {
    CountContainer(c, frames, revert, Steps);
    var w := Owns(c, frames, Steps);
    forall i | 0 <= i < |frames| ensures w[i] == StepCounts(frames)[i] {
      OwnOf(c, frames[i]);
    }
    SameSum(w, StepCounts(frames), 0);
  }

  lemma {:induction false} EventsConserved(c: Context, frames: seq<Frame>, revert: Option<string>)
    requires Ready(c, frames) && frames != []
    ensures Count(Container(c, frames, revert), ContractEvents) == SumFrom(EventCounts(c, frames), 0)
  {
    CountContainer(c, frames, revert, ContractEvents);
    var w := Owns(c, frames, ContractEvents);
    forall i | 0 <= i < |frames| ensures w[i] == EventCounts(c, frames)[i] {
      OwnOf(c, frames[i]);
    }
    SameSum(w, EventCounts(c, frames), 0);
  }
}
