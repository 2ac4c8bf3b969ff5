// In which frame a container's reader sees each step (onchain/src/record.rs): its calls and returns are
// followed on a stack, and a step belongs to the innermost entry point open there.
module EmissionFrames {
  import opened Common
  import opened Observer
  import opened Forest
  import opened VmRun
  import opened Emission
  import EmissionProofs

  datatype Caller = OfFrame(id: nat) | OfInternal

  // The steps seen so far, each with its frame, and the calls open.
  datatype Followed = Followed(steps: seq<(nat, Position)>, open: seq<Caller>)

  ghost function Innermost(open: seq<Caller>): Option<nat> {
    if open == [] then None
    else if open[|open| - 1].OfFrame? then Some(open[|open| - 1].id)
    else Innermost(open[..|open| - 1])
  }

  // None once a return closes nothing, or a step is in no frame.
  ghost function Follow(ev: seq<Event>, open: seq<Caller>): Option<Followed> {
    if ev == [] then Some(Followed([], open))
    else
      match Follow(ev[..|ev| - 1], open)
      case None => None
      case Some(w) => After(w, ev[|ev| - 1])
  }

  ghost function After(w: Followed, e: Event): Option<Followed> {
    match e
    case EntryCall(id, _, _) => Some(w.(open := w.open + [OfFrame(id)]))
    case InternalCall(_, _) => Some(w.(open := w.open + [OfInternal]))
    case Return(_) => if w.open == [] then None else Some(w.(open := w.open[..|w.open| - 1]))
    case Stepped(at) =>
      (match Innermost(w.open)
       case None => None
       case Some(id) => Some(w.(steps := w.steps + [(id, at)])))
    case _ => Some(w)
  }

  // Following `ev` from the open calls `from` sees `steps` and leaves `to` open.
  ghost predicate Leads(ev: seq<Event>, from: seq<Caller>, steps: seq<(nat, Position)>, to: seq<Caller>) {
    Follow(ev, from) == Some(Followed(steps, to))
  }

  lemma {:induction false} FollowConcat(a: seq<Event>, b: seq<Event>, from: seq<Caller>, w: Followed, v: Followed)
    requires Follow(a, from) == Some(w) && Follow(b, w.open) == Some(v)
    ensures Follow(a + b, from) == Some(Followed(w.steps + v.steps, v.open))
    decreases |b|
  {
    if b == [] {
      assert a + b == a;
      assert w.steps + [] == w.steps;
    } else {
      var n := |b| - 1;
      assert (a + b)[..|a + b| - 1] == a + b[..n];
      var u := Follow(b[..n], w.open).value;
      FollowConcat(a, b[..n], from, w, u);
      AfterMore(w.steps, u, b[n]);
    }
  }

  lemma {:induction false} AfterMore(steps: seq<(nat, Position)>, u: Followed, e: Event)
    requires After(u, e).Some?
    ensures var v := After(u, e).value;
      After(Followed(steps + u.steps, u.open), e) == Some(Followed(steps + v.steps, v.open))
  {
    var v := After(u, e).value;
    if e.Stepped? {
      assert steps + u.steps + [(Innermost(u.open).value, e.at)] == steps + v.steps;
    }
  }

  lemma {:induction false} LeadsConcat(a: seq<Event>, b: seq<Event>, from: seq<Caller>, mid: seq<Caller>,
          to: seq<Caller>, xs: seq<(nat, Position)>, ys: seq<(nat, Position)>)
    requires Leads(a, from, xs, mid) && Leads(b, mid, ys, to)
    ensures Leads(a + b, from, xs + ys, to)
  {
    FollowConcat(a, b, from, Followed(xs, mid), Followed(ys, to));
  }

  lemma {:induction false} LeadsNowhere(open: seq<Caller>)
    ensures Leads([], open, [], open)
  {
  }

  lemma {:induction false} LeadsByOne(e: Event, from: seq<Caller>, steps: seq<(nat, Position)>, to: seq<Caller>)
    requires After(Followed([], from), e) == Some(Followed(steps, to))
    ensures Leads([e], from, steps, to)
  {
    assert [e][..0] == [];
    LeadsNowhere(from);
  }

  // Events that are neither calls, returns nor steps change nothing.
  lemma {:induction false} LeadsQuietly(ev: seq<Event>, open: seq<Caller>)
    requires forall i :: 0 <= i < |ev| ==>
      !ev[i].EntryCall? && !ev[i].InternalCall? && !ev[i].Return? && !ev[i].Stepped?
    ensures Leads(ev, open, [], open)
  {
    if ev != [] {
      LeadsQuietly(ev[..|ev| - 1], open);
    }
  }

  lemma {:induction false} StepFreeConcat(a: seq<Event>, b: seq<Event>, from: seq<Caller>, mid: seq<Caller>,
          to: seq<Caller>)
    requires Leads(a, from, [], mid) && Leads(b, mid, [], to)
    ensures Leads(a + b, from, [], to)
  {
    var none: seq<(nat, Position)> := [];
    LeadsConcat(a, b, from, mid, to, none, none);
    assert none + none == none;
  }

  // ---- One frame ------------------------------------------------------------------------

  // The calls open in frame `id` while `d` internal ones are.
  ghost function Within(open: seq<Caller>, id: nat, d: nat): seq<Caller> {
    open + [OfFrame(id)] + Repeat(OfInternal, d)
  }

  lemma {:induction false} WithinMore(open: seq<Caller>, id: nat, d: nat)
    ensures Within(open, id, d + 1) == Within(open, id, d) + [OfInternal]
    ensures Within(open, id, d + 1)[..|Within(open, id, d + 1)| - 1] == Within(open, id, d)
    ensures Within(open, id, 0) == open + [OfFrame(id)]
  {
    assert Repeat(OfInternal, d + 1) == Repeat(OfInternal, d) + [OfInternal];
  }

  lemma {:induction false} InnermostWithin(open: seq<Caller>, id: nat, d: nat)
    ensures Innermost(Within(open, id, d)) == Some(id)
    decreases d
  {
    if d > 0 {
      WithinMore(open, id, d - 1);
      InnermostWithin(open, id, d - 1);
    }
  }

  lemma {:induction false} OpenLeads(c: Context, f: Frame, i: nat, open: seq<Caller>, id: nat)
    requires Covered(c, f) && i < |f.steps|
    ensures Leads(OpenInternal(c, f, i), Within(open, id, Internal(c, f, i).0), [], Within(open, id, DepthAt(c, f, i)))
  {
    var d := Internal(c, f, i).0;
    if Internal(c, f, i).1 {
      WithinMore(open, id, d);
      LeadsByOne(OpenInternal(c, f, i)[0], Within(open, id, d), [], Within(open, id, d + 1));
    } else {
      LeadsNowhere(Within(open, id, d));
    }
  }

  lemma {:induction false} CloseLeads(c: Context, f: Frame, i: nat, open: seq<Caller>, id: nat)
    requires Covered(c, f) && i < |f.steps|
    ensures Leads(CloseInternal(c, f, i), Within(open, id, DepthAt(c, f, i)), [],
      Within(open, id, Internal(c, f, i + 1).0))
  {
    var d := DepthAt(c, f, i);
    if CloseInternal(c, f, i) != [] {
      WithinMore(open, id, d - 1);
      LeadsByOne(Return(NoValue), Within(open, id, d), [], Within(open, id, d - 1));
    } else {
      LeadsNowhere(Within(open, id, d));
    }
  }

  lemma {:induction false} StepLeads(at: Position, open: seq<Caller>, id: nat, d: nat)
    ensures Leads([Stepped(at)], Within(open, id, d), [(id, at)], Within(open, id, d))
  {
    InnermostWithin(open, id, d);
    assert [] + [(id, at)] == [(id, at)];
    LeadsByOne(Stepped(at), Within(open, id, d), [(id, at)], Within(open, id, d));
  }

  lemma {:induction false} DrainLeads(open: seq<Caller>, id: nat, d: nat)
    ensures Leads(Repeat(Return(NoValue), d), Within(open, id, d), [], Within(open, id, 0))
    decreases d
  {
    if d == 0 {
      LeadsNowhere(Within(open, id, 0));
    } else {
      WithinMore(open, id, d - 1);
      LeadsByOne(Return(NoValue), Within(open, id, d), [], Within(open, id, d - 1));
      DrainLeads(open, id, d - 1);
      StepFreeConcat([Return(NoValue)], Repeat(Return(NoValue), d - 1), Within(open, id, d), Within(open, id, d - 1),
        Within(open, id, 0));
      assert Repeat(Return(NoValue), d) == [Return(NoValue)] + Repeat(Return(NoValue), d - 1);
    }
  }

  lemma {:induction false} ClosingLeads(c: Context, f: Frame, open: seq<Caller>, id: nat)
    requires Covered(c, f)
    ensures Leads(Closing(c, f), Within(open, id, Internal(c, f, |f.steps|).0), [], Within(open, id, 0))
  {
    var d, evs := Internal(c, f, |f.steps|).0, FrameEvents(c, f, |GetOr(c.eventsByFrame, f.id, [])|);
    DrainLeads(open, id, d);
    LeadsQuietly(evs, Within(open, id, 0));
    StepFreeConcat(Repeat(Return(NoValue), d), evs, Within(open, id, d), Within(open, id, 0), Within(open, id, 0));
  }

  lemma {:induction false} HeaderLeads(c: Context, f: Frame, open: seq<Caller>)
    requires Covered(c, f)
    ensures Leads(Header(c, f), open, [], Within(open, f.id, 0))
  {
    var h := Header(c, f);
    LeadsQuietly(h[..4], open);
    WithinMore(open, f.id, 0);
    LeadsByOne(h[4], open, [], Within(open, f.id, 0));
    StepFreeConcat(h[..4], [h[4]], open, open, Within(open, f.id, 0));
    assert h == h[..4] + [h[4]];
  }

  lemma {:induction false} FooterLeads(f: Frame, open: seq<Caller>, id: nat)
    ensures Leads(Footer(f), Within(open, id, 0), [], open)
  {
    var foot, n := Footer(f), |Footer(f)| - 1;
    WithinMore(open, id, 0);
    LeadsQuietly(foot[..n], Within(open, id, 0));
    LeadsByOne(foot[n], Within(open, id, 0), [], open);
    StepFreeConcat(foot[..n], [foot[n]], Within(open, id, 0), Within(open, id, 0), open);
    assert foot == foot[..n] + [foot[n]];
  }

  // ---- The forest -----------------------------------------------------------------------

  // The steps of an interleaving, each with its frame and where it is shown.
  ghost function Placed(c: Context, frames: seq<Frame>, xs: seq<Executed>): seq<(nat, Position)>
    requires EmissionProofs.InFrames(xs, |frames|) && forall i :: 0 <= i < |frames| ==> Covered(c, frames[i])
  {
    seq(|xs|, i requires 0 <= i < |xs| => (xs[i].0, PositionOf(c, frames[xs[i].0], xs[i].1)))
  }

  // `ev` shows the steps `xs`, each in its frame.
  ghost predicate Shows(c: Context, frames: seq<Frame>, ev: seq<Event>, from: seq<Caller>, xs: seq<Executed>,
          to: seq<Caller>)
    requires forall i :: 0 <= i < |frames| ==> Covered(c, frames[i])
  {
    EmissionProofs.InFrames(xs, |frames|) && Leads(ev, from, Placed(c, frames, xs), to)
  }

  lemma {:induction false} ShowsConcat(c: Context, frames: seq<Frame>, a: seq<Event>, b: seq<Event>, from: seq<Caller>,
          mid: seq<Caller>, to: seq<Caller>, xs: seq<Executed>, ys: seq<Executed>)
    requires forall i :: 0 <= i < |frames| ==> Covered(c, frames[i])
    requires Shows(c, frames, a, from, xs, mid) && Shows(c, frames, b, mid, ys, to)
    ensures Shows(c, frames, a + b, from, xs + ys, to)
  {
    LeadsConcat(a, b, from, mid, to, Placed(c, frames, xs), Placed(c, frames, ys));
    assert Placed(c, frames, xs + ys) == Placed(c, frames, xs) + Placed(c, frames, ys);
  }

  // Events without steps before or after a stream.
  lemma {:induction false} ShowsAfter(c: Context, frames: seq<Frame>, a: seq<Event>, b: seq<Event>, from: seq<Caller>,
          mid: seq<Caller>, to: seq<Caller>, xs: seq<Executed>)
    requires forall i :: 0 <= i < |frames| ==> Covered(c, frames[i])
    requires Leads(a, from, [], mid) && Shows(c, frames, b, mid, xs, to)
    ensures Shows(c, frames, a + b, from, xs, to)
  {
    LeadsConcat(a, b, from, mid, to, [], Placed(c, frames, xs));
    assert [] + Placed(c, frames, xs) == Placed(c, frames, xs);
  }

  lemma {:induction false} ShowsBefore(c: Context, frames: seq<Frame>, a: seq<Event>, b: seq<Event>, from: seq<Caller>,
          mid: seq<Caller>, to: seq<Caller>, xs: seq<Executed>)
    requires forall i :: 0 <= i < |frames| ==> Covered(c, frames[i])
    requires Shows(c, frames, a, from, xs, mid) && Leads(b, mid, [], to)
    ensures Shows(c, frames, a + b, from, xs, to)
  {
    LeadsConcat(a, b, from, mid, to, Placed(c, frames, xs), []);
    assert Placed(c, frames, xs) + [] == Placed(c, frames, xs);
  }

  lemma {:induction false} ShowsNothing(c: Context, frames: seq<Frame>, open: seq<Caller>)
    requires forall i :: 0 <= i < |frames| ==> Covered(c, frames[i])
    ensures Shows(c, frames, [], open, [], open)
  {
    LeadsNowhere(open);
    assert Placed(c, frames, []) == [];
  }

  lemma {:induction false} FrameShows(c: Context, frames: seq<Frame>, id: nat, open: seq<Caller>)
    requires Ready(c, frames) && id < |frames|
    ensures Shows(c, frames, EmitFrame(c, frames, id), open, Weave(Shape(frames), id), open)
    decreases |frames| - id, 2, 0
  {
    var f, t, m := frames[id], Shape(frames), |frames[id].steps|;
    var d, body := Internal(c, f, m).0, EmitBody(c, frames, id);
    var steps, kids := EmitSteps(c, frames, id, m), EmitKids(c, frames, id, m, |frames|);
    StepsShow(c, frames, id, m, open);
    KidsShow(c, frames, id, m, |frames|, Within(open, id, d));
    ShowsConcat(c, frames, steps, kids, Within(open, id, 0), Within(open, id, d), Within(open, id, d),
                WeaveSteps(t, id, m), WeaveKids(t, id, m, |t|));
    ClosingLeads(c, f, open, id);
    ShowsBefore(c, frames, steps + kids, Closing(c, f), Within(open, id, 0), Within(open, id, d), Within(open, id, 0),
      Weave(t, id));
    FrameAround(c, frames, id, body, open, Weave(t, id));
  }

  lemma {:induction false} FrameAround(c: Context, frames: seq<Frame>, id: nat, body: seq<Event>, open: seq<Caller>,
          xs: seq<Executed>)
    requires Ready(c, frames) && id < |frames|
    requires Shows(c, frames, body, Within(open, id, 0), xs, Within(open, id, 0))
    ensures Shows(c, frames, Header(c, frames[id]) + body + Footer(frames[id]), open, xs, open)
  {
    var f := frames[id];
    HeaderLeads(c, f, open);
    FooterLeads(f, open, id);
    ShowsAfter(c, frames, Header(c, f), body, open, Within(open, id, 0), Within(open, id, 0), xs);
    ShowsBefore(c, frames, Header(c, f) + body, Footer(f), open, Within(open, id, 0), open, xs);
  }

  lemma {:induction false} StepsShow(c: Context, frames: seq<Frame>, id: nat, n: nat, open: seq<Caller>)
    requires Ready(c, frames) && id < |frames| && n <= |frames[id].steps|
    ensures Shows(c, frames, EmitSteps(c, frames, id, n), Within(open, id, 0), WeaveSteps(Shape(frames), id, n),
                  Within(open, id, Internal(c, frames[id], n).0))
    decreases |frames| - id, 1, n
  {
    if n == 0 {
      ShowsNothing(c, frames, Within(open, id, 0));
    } else {
      var t, i := Shape(frames), n - 1;
      StepsShow(c, frames, id, i, open);
      KidsShow(c, frames, id, i, |frames|, Within(open, id, DepthAt(c, frames[id], i)));
      StepShows(c, frames, id, i, open, EmitSteps(c, frames, id, i), EmitKids(c, frames, id, i, |frames|),
                WeaveSteps(t, id, i), WeaveKids(t, id, i, |t|));
    }
  }

  lemma {:induction false} StepShows(c: Context, frames: seq<Frame>, id: nat, i: nat, open: seq<Caller>,
          done: seq<Event>, kids: seq<Event>, xs: seq<Executed>, ys: seq<Executed>)
    requires Ready(c, frames) && id < |frames| && i < |frames[id].steps|
    requires var f := frames[id];
      && Shows(c, frames, done, Within(open, id, 0), xs, Within(open, id, Internal(c, f, i).0))
      && Shows(c, frames, kids, Within(open, id, DepthAt(c, f, i)), ys, Within(open, id, DepthAt(c, f, i)))
    ensures var f := frames[id];
      Shows(c, frames,
            done + OpenInternal(c, f, i) + kids + [Stepped(PositionOf(c, f, f.steps[i]))] + CloseInternal(c, f, i),
            Within(open, id, 0), xs + ys + [(id, f.steps[i])], Within(open, id, Internal(c, f, i + 1).0))
  {
    var f := frames[id];
    var base, before, during, after := Within(open, id, 0), Within(open, id, Internal(c, f, i).0),
      Within(open, id, DepthAt(c, f, i)), Within(open, id, Internal(c, f, i + 1).0);
    var opens, step, x := OpenInternal(c, f, i), [Stepped(PositionOf(c, f, f.steps[i]))], [(id, f.steps[i])];
    OpenLeads(c, f, i, open, id);
    ShowsBefore(c, frames, done, opens, base, before, during, xs);
    ShowsConcat(c, frames, done + opens, kids, base, during, during, xs, ys);
    OneStepShows(c, frames, id, i, open, DepthAt(c, f, i));
    ShowsConcat(c, frames, done + opens + kids, step, base, during, during, xs + ys, x);
    CloseLeads(c, f, i, open, id);
    ShowsBefore(c, frames, done + opens + kids + step, CloseInternal(c, f, i), base, during, after, xs + ys + x);
  }

  lemma {:induction false} OneStepShows(c: Context, frames: seq<Frame>, id: nat, i: nat, open: seq<Caller>, d: nat)
    requires Ready(c, frames) && id < |frames| && i < |frames[id].steps|
    ensures var f := frames[id];
      Shows(c, frames, [Stepped(PositionOf(c, f, f.steps[i]))], Within(open, id, d), [(id, f.steps[i])],
        Within(open, id, d))
  {
    var f := frames[id];
    StepLeads(PositionOf(c, f, f.steps[i]), open, id, d);
    assert Placed(c, frames, [(id, f.steps[i])]) == [(id, PositionOf(c, f, f.steps[i]))];
  }

  lemma {:induction false} KidsShow(c: Context, frames: seq<Frame>, id: nat, slot: nat, hi: nat, open: seq<Caller>)
    requires Ready(c, frames) && id < |frames| && hi <= |frames|
    ensures Shows(c, frames, EmitKids(c, frames, id, slot, hi), open, WeaveKids(Shape(frames), id, slot, hi), open)
    decreases |frames| - id, 0, hi
  {
    if hi <= id + 1 {
      ShowsNothing(c, frames, open);
    } else {
      var t, k := Shape(frames), hi - 1;
      KidsShow(c, frames, id, slot, k, open);
      if HangsAt(t, k, id, slot) {
        FrameShows(c, frames, k, open);
        MoreShows(c, frames, k, open, EmitKids(c, frames, id, slot, k), WeaveKids(t, id, slot, k));
      }
    }
  }

  // One more frame after those shown.
  lemma {:induction false} MoreShows(c: Context, frames: seq<Frame>, k: nat, open: seq<Caller>, done: seq<Event>,
          xs: seq<Executed>)
    requires Ready(c, frames) && k < |frames|
    requires Shows(c, frames, done, open, xs, open) &&
      Shows(c, frames, EmitFrame(c, frames, k), open, Weave(Shape(frames), k), open)
    ensures Shows(c, frames, done + EmitFrame(c, frames, k), open, xs + Weave(Shape(frames), k), open)
  {
    ShowsConcat(c, frames, done, EmitFrame(c, frames, k), open, open, open, xs, Weave(Shape(frames), k));
  }

  lemma {:induction false} TopsShow(c: Context, frames: seq<Frame>, hi: nat)
    requires Ready(c, frames) && hi <= |frames|
    ensures Shows(c, frames, EmitTops(c, frames, hi), [], WeaveTops(Shape(frames), hi), [])
  {
    if hi == 0 {
      ShowsNothing(c, frames, []);
    } else {
      var t, k := Shape(frames), hi - 1;
      TopsShow(c, frames, k);
      assert t[k].parent == frames[k].parent;
      if frames[k].parent == None {
        FrameShows(c, frames, k, []);
        MoreShows(c, frames, k, [], EmitTops(c, frames, k), WeaveTops(t, k));
      }
    }
  }

  // After a legal run in which every frame closed, the i-th step of the container is shown where the i-th
  // step the VM executed is, inside that step's own frame, and nothing is left open.
  lemma {:induction false} StepsAreInTheirFrames(c: Context, actions: seq<Action>, v: Vm, revert: Option<string>)
    requires Run(actions, v) && v.sink.stack == [] && v.sink.frames != []
    requires forall i :: 0 <= i < |v.sink.frames| ==> Covered(c, v.sink.frames[i])
    ensures Ready(c, v.sink.frames) && EmissionProofs.InFrames(v.log, |v.sink.frames|)
    ensures Follow(Container(c, v.sink.frames, revert), []) == Some(Followed(Placed(c, v.sink.frames, v.log), []))
  {
    Reachable(actions, v);
    var frames := v.sink.frames;
    assert Shape(frames) == Live(v);
    TopsShow(c, frames, |frames|);
    var tail := match revert { case Some(e) => [Reverted(e)] case None => [] };
    var head := [Start(c.paths[frames[0].call.classHash])];
    LeadsQuietly(head, []);
    LeadsQuietly(tail, []);
    ShowsAfter(c, frames, head, EmitTops(c, frames, |frames|), [], [], [], v.log);
    ShowsBefore(c, frames, head + EmitTops(c, frames, |frames|), tail, [], [], [], v.log);
    assert head + EmitTops(c, frames, |frames|) + tail == Container(c, frames, revert);
  }
}
