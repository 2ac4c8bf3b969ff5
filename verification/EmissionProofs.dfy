// What the emitted stream guarantees: a balanced bracket word, and every frame's steps once in the
// interleaved order.
module EmissionProofs {
  import opened Common
  import opened Observer
  import opened Forest
  import opened VmRun
  import opened Emission

  // ----- balance

  lemma {:induction false} TrackReturn(a: seq<Event>, v: Value)
    requires Track(a).Some? && Track(a).value > 0
    ensures Track(a + [Return(v)]) == Some(Track(a).value - 1)
  {
    assert (a + [Return(v)])[..|a|] == a;
  }

  lemma {:induction false} TrackDrained(a: seq<Event>, n: nat)
    requires Track(a) == Some(n)
    ensures Balanced(a + Repeat(Return(NoValue), n))
    decreases n
  {
    if n == 0 {
      assert a + Repeat(Return(NoValue), 0) == a;
    } else {
      TrackReturn(a, NoValue);
      TrackDrained(a + [Return(NoValue)], n - 1);
      assert a + [Return(NoValue)] + Repeat(Return(NoValue), n - 1) == a + Repeat(Return(NoValue), n);
    }
  }

  lemma {:induction false} TrackNeutral(a: seq<Event>)
    requires forall i :: 0 <= i < |a| ==> !a[i].EntryCall? && !a[i].InternalCall? && !a[i].Return?
    ensures Balanced(a)
  {
    if a != [] {
      TrackNeutral(a[..|a| - 1]);
    }
  }

  lemma {:induction false} BalancedFrame(c: Context, frames: seq<Frame>, id: nat)
    requires Ready(c, frames) && id < |frames|
    ensures Balanced(EmitFrame(c, frames, id))
    ensures Balanced(EmitBody(c, frames, id))
    decreases |frames| - id, 2, 0
  {
    BalancedBody(c, frames, id);
    FrameWraps(c, frames[id], EmitBody(c, frames, id));
  }

  // A balanced body inside a frame's call and its own return is balanced.
  lemma {:induction false} FrameWraps(c: Context, f: Frame, body: seq<Event>)
    requires Covered(c, f) && Balanced(body)
    ensures Balanced(Header(c, f) + body + Footer(f))
  {
    var h := Header(c, f);
    assert h[..|h| - 1] + [h[|h| - 1]] == h;
    TrackNeutral(h[..|h| - 1]);
    TrackConcat(h, body);
    var pre := h + body + Footer(f)[..|Footer(f)| - 1];
    TrackNeutral(Footer(f)[..|Footer(f)| - 1]);
    TrackConcat(h + body, Footer(f)[..|Footer(f)| - 1]);
    TrackReturn(pre, Footer(f)[|Footer(f)| - 1].value);
    assert pre + [Footer(f)[|Footer(f)| - 1]] == h + body + Footer(f);
  }

  lemma {:induction false} BalancedBody(c: Context, frames: seq<Frame>, id: nat)
    requires Ready(c, frames) && id < |frames|
    ensures Balanced(EmitBody(c, frames, id))
    decreases |frames| - id, 1, |frames[id].steps| + 1
  {
    var f, m := frames[id], |frames[id].steps|;
    var steps, kids := EmitSteps(c, frames, id, m), EmitKids(c, frames, id, m, |frames|);
    TrackedSteps(c, frames, id, m);
    BalancedKids(c, frames, id, m, |frames|);
    TrackConcat(steps, kids);
    BalancedClosing(c, f, steps + kids);
  }

  lemma {:induction false} BalancedClosing(c: Context, f: Frame, done: seq<Event>)
    requires Covered(c, f) && Track(done) == Some(Internal(c, f, |f.steps|).0)
    ensures Balanced(done + Closing(c, f))
  {
    var open := Internal(c, f, |f.steps|).0;
    var drain, evs := Repeat(Return(NoValue), open), FrameEvents(c, f, |GetOr(c.eventsByFrame, f.id, [])|);
    TrackDrained(done, open);
    TrackNeutral(evs);
    TrackConcat(done + drain, evs);
    assert done + drain + evs == done + Closing(c, f);
  }

  // After `n` steps exactly the frame's internal calls are open.
  lemma {:induction false} TrackedSteps(c: Context, frames: seq<Frame>, id: nat, n: nat)
    requires Ready(c, frames) && id < |frames| && n <= |frames[id].steps|
    ensures Track(EmitSteps(c, frames, id, n)) == Some(Internal(c, frames[id], n).0)
    decreases |frames| - id, 1, n
  {
    if n > 0 {
      var f, i := frames[id], n - 1;
      var done, kids := EmitSteps(c, frames, id, i), EmitKids(c, frames, id, i, |frames|);
      var all := done + OpenInternal(c, f, i) + kids + [Stepped(PositionOf(c, f, f.steps[i]))] + CloseInternal(c, f, i);
      assert EmitSteps(c, frames, id, n) == all;
      assert Track(all) == Some(Internal(c, f, n).0) by {
        TrackedSteps(c, frames, id, i);
        BalancedKids(c, frames, id, i, |frames|);
        TrackedStep(c, f, i, done, kids);
      }
    }
  }

  lemma {:induction false} TrackedStep(c: Context, f: Frame, i: nat, done: seq<Event>, kids: seq<Event>)
    requires Covered(c, f) && i < |f.steps| && Balanced(kids)
    requires Track(done) == Some(Internal(c, f, i).0)
    ensures Track(done + OpenInternal(c, f, i) + kids + [Stepped(PositionOf(c, f, f.steps[i]))] +
      CloseInternal(c, f, i))
      == Some(Internal(c, f, i + 1).0)
  {
    var open, step := OpenInternal(c, f, i), [Stepped(PositionOf(c, f, f.steps[i]))];
    assert Track([]) == Some(0);
    assert Track(open) == Some(|open|);
    TrackConcat(done, open);
    TrackConcat(done + open, kids);
    TrackNeutral(step);
    TrackConcat(done + open + kids, step);
    var all := done + open + kids + step;
    assert Track(all) == Some(DepthAt(c, f, i));
    if CloseInternal(c, f, i) == [] {
      assert all + CloseInternal(c, f, i) == all;
    } else {
      TrackReturn(all, NoValue);
    }
  }

  lemma {:induction false} BalancedKids(c: Context, frames: seq<Frame>, id: nat, slot: nat, hi: nat)
    requires Ready(c, frames) && id < |frames| && hi <= |frames|
    ensures Balanced(EmitKids(c, frames, id, slot, hi))
    decreases |frames| - id, 0, hi
  {
    if hi > id + 1 {
      var k := hi - 1;
      BalancedKids(c, frames, id, slot, k);
      if HangsAt(Shape(frames), k, id, slot) {
        BalancedFrame(c, frames, k);
        BalancedBoth(EmitKids(c, frames, id, slot, k), EmitFrame(c, frames, k));
      }
    }
  }

  lemma {:induction false} BalancedTops(c: Context, frames: seq<Frame>, hi: nat)
    requires Ready(c, frames) && hi <= |frames|
    ensures Balanced(EmitTops(c, frames, hi))
  {
    if hi > 0 {
      BalancedTops(c, frames, hi - 1);
      if frames[hi - 1].parent == None {
        BalancedFrame(c, frames, hi - 1);
        BalancedBoth(EmitTops(c, frames, hi - 1), EmitFrame(c, frames, hi - 1));
      }
    }
  }

  lemma {:induction false} BalancedBoth(a: seq<Event>, b: seq<Event>)
    requires Balanced(a) && Balanced(b)
    ensures Balanced(a + b)
  {
    TrackConcat(a, b);
  }

  // ----- the steps written are the interleaving of the forest

  ghost function Positions(c: Context, frames: seq<Frame>, xs: seq<Executed>): seq<Position>
    requires forall i :: 0 <= i < |xs| ==> xs[i].0 < |frames|
    requires forall i :: 0 <= i < |frames| ==> Covered(c, frames[i])
  {
    seq(|xs|, i requires 0 <= i < |xs| => PositionOf(c, frames[xs[i].0], xs[i].1))
  }

  ghost predicate InFrames(xs: seq<Executed>, n: nat) {
    forall i :: 0 <= i < |xs| ==> xs[i].0 < n
  }

  // `ev` steps through exactly the positions of `xs`.
  ghost predicate Writes(c: Context, frames: seq<Frame>, ev: seq<Event>, xs: seq<Executed>)
    requires forall i :: 0 <= i < |frames| ==> Covered(c, frames[i])
  {
    InFrames(xs, |frames|) && StepsOf(ev) == Positions(c, frames, xs)
  }

  lemma {:induction false} WritesConcat(c: Context, frames: seq<Frame>, a: seq<Event>, b: seq<Event>, xs: seq<Executed>,
          ys: seq<Executed>)
    requires forall i :: 0 <= i < |frames| ==> Covered(c, frames[i])
    requires Writes(c, frames, a, xs) && Writes(c, frames, b, ys)
    ensures Writes(c, frames, a + b, xs + ys)
  {
    StepsOfConcat(a, b);
    assert Positions(c, frames, xs + ys) == Positions(c, frames, xs) + Positions(c, frames, ys);
  }

  lemma {:induction false} WritesNothing(a: seq<Event>)
    requires forall i :: 0 <= i < |a| ==> !a[i].Stepped?
    ensures StepsOf(a) == []
  {
    if a != [] {
      WritesNothing(a[..|a| - 1]);
    }
  }

  // Events that are not steps can stand around a stream.
  lemma {:induction false} WritesAround(c: Context, frames: seq<Frame>, a: seq<Event>, ev: seq<Event>, b: seq<Event>,
          xs: seq<Executed>)
    requires forall i :: 0 <= i < |frames| ==> Covered(c, frames[i])
    requires forall i :: 0 <= i < |a| ==> !a[i].Stepped?
    requires forall i :: 0 <= i < |b| ==> !b[i].Stepped?
    requires Writes(c, frames, ev, xs)
    ensures Writes(c, frames, a + ev + b, xs)
  {
    WritesNothing(a);
    WritesNothing(b);
    StepsOfConcat(a, ev);
    StepsOfConcat(a + ev, b);
  }

  lemma {:induction false} FrameWrites(c: Context, frames: seq<Frame>, id: nat)
    requires Ready(c, frames) && id < |frames|
    ensures Writes(c, frames, EmitFrame(c, frames, id), Weave(Shape(frames), id))
    decreases |frames| - id, 2, 0
  {
    var f, t, m := frames[id], Shape(frames), |frames[id].steps|;
    var steps, kids := EmitSteps(c, frames, id, m), EmitKids(c, frames, id, m, |frames|);
    StepsWrite(c, frames, id, m);
    KidsWrite(c, frames, id, m, |frames|);
    WritesConcat(c, frames, steps, kids, WeaveSteps(t, id, m), WeaveKids(t, id, m, |t|));
    WritesAround(c, frames, Header(c, f), steps + kids, Closing(c, f) + Footer(f), Weave(t, id));
    Regrouped(Header(c, f), steps + kids, Closing(c, f), Footer(f));
  }

  lemma {:induction false} Regrouped<T>(a: seq<T>, b: seq<T>, c: seq<T>, d: seq<T>)
    ensures a + b + (c + d) == a + (b + c) + d
  {
  }

  lemma {:induction false} StepsWrite(c: Context, frames: seq<Frame>, id: nat, n: nat)
    requires Ready(c, frames) && id < |frames| && n <= |frames[id].steps|
    ensures Writes(c, frames, EmitSteps(c, frames, id, n), WeaveSteps(Shape(frames), id, n))
    decreases |frames| - id, 1, n
  {
    if n > 0 {
      var t, i := Shape(frames), n - 1;
      StepsWrite(c, frames, id, i);
      KidsWrite(c, frames, id, i, |frames|);
      StepWrites(c, frames, id, i, EmitSteps(c, frames, id, i), EmitKids(c, frames, id, i, |frames|),
                 WeaveSteps(t, id, i), WeaveKids(t, id, i, |t|));
    }
  }

  lemma {:induction false} StepWrites(c: Context, frames: seq<Frame>, id: nat, i: nat, done: seq<Event>,
          kids: seq<Event>, xs: seq<Executed>, ys: seq<Executed>)
    requires id < |frames| && i < |frames[id].steps|
    requires forall i :: 0 <= i < |frames| ==> Covered(c, frames[i])
    requires Writes(c, frames, done, xs) && Writes(c, frames, kids, ys)
    ensures var f := frames[id];
      Writes(c, frames,
             done + OpenInternal(c, f, i) + kids + [Stepped(PositionOf(c, f, f.steps[i]))] + CloseInternal(c, f, i),
             xs + ys + [(id, f.steps[i])])
  {
    var f := frames[id];
    var open, close := OpenInternal(c, f, i), CloseInternal(c, f, i);
    var step, x := [Stepped(PositionOf(c, f, f.steps[i]))], [(id, f.steps[i])];
    WritesNothing(open);
    WritesNothing(close);
    assert StepsOf([]) == [];
    assert StepsOf(step) == Positions(c, frames, x);
    assert Writes(c, frames, open, []) && Writes(c, frames, close, []);
    WritesConcat(c, frames, done, open, xs, []);
    WritesConcat(c, frames, done + open, kids, xs + [], ys);
    WritesConcat(c, frames, done + open + kids, step, xs + [] + ys, x);
    WritesConcat(c, frames, done + open + kids + step, close, xs + [] + ys + x, []);
    assert xs + [] + ys + x + [] == xs + ys + x;
  }

  lemma {:induction false} KidsWrite(c: Context, frames: seq<Frame>, id: nat, slot: nat, hi: nat)
    requires Ready(c, frames) && id < |frames| && hi <= |frames|
    ensures Writes(c, frames, EmitKids(c, frames, id, slot, hi), WeaveKids(Shape(frames), id, slot, hi))
    decreases |frames| - id, 0, hi
  {
    if hi > id + 1 {
      var t, k := Shape(frames), hi - 1;
      KidsWrite(c, frames, id, slot, k);
      if HangsAt(t, k, id, slot) {
        FrameWrites(c, frames, k);
        WritesConcat(c, frames, EmitKids(c, frames, id, slot, k), EmitFrame(c, frames, k),
                     WeaveKids(t, id, slot, k), Weave(t, k));
      }
    }
  }

  lemma {:induction false} TopsWrite(c: Context, frames: seq<Frame>, hi: nat)
    requires Ready(c, frames) && hi <= |frames|
    ensures Writes(c, frames, EmitTops(c, frames, hi), WeaveTops(Shape(frames), hi))
  {
    if hi > 0 {
      var t, k := Shape(frames), hi - 1;
      TopsWrite(c, frames, k);
      assert t[k].parent == frames[k].parent;
      if frames[k].parent == None {
        FrameWrites(c, frames, k);
        WritesConcat(c, frames, EmitTops(c, frames, k), EmitFrame(c, frames, k), WeaveTops(t, k), Weave(t, k));
      }
    }
  }

  // The container written after a legal run in which every frame closed steps through
  // exactly what the VM executed, each step once, in the order it was executed.
  lemma {:induction false} ContainerIsExecutionOrder(c: Context, actions: seq<Action>, v: Vm, revert: Option<string>)
    requires Run(actions, v) && v.sink.stack == [] && v.sink.frames != []
    requires forall i :: 0 <= i < |v.sink.frames| ==> Covered(c, v.sink.frames[i])
    ensures Ready(c, v.sink.frames) && InFrames(v.log, |v.sink.frames|)
    ensures StepsOf(Container(c, v.sink.frames, revert)) == Positions(c, v.sink.frames, v.log)
  {
    Reachable(actions, v);
    var frames := v.sink.frames;
    assert Shape(frames) == Live(v);
    TopsWrite(c, frames, |frames|);
    var tail := match revert { case Some(e) => [Reverted(e)] case None => [] };
    var head := [Start(c.paths[frames[0].call.classHash])];
    WritesAround(c, frames, head, EmitTops(c, frames, |frames|), tail, v.log);
    assert head + EmitTops(c, frames, |frames|) + tail == Container(c, frames, revert);
  }
}
