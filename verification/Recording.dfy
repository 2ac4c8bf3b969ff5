// A transaction from its execution to its container (onchain/blockifier-patch/apply.py, bt_trace.rs and
// onchain/src/record.rs): the patched executor tells the sink of a run, and its frames are written.
module Recording {
  import opened Common
  import opened Observer
  import opened Forest
  import opened VmRun
  import opened Emission
  import opened EmissionFrames
  import opened Recorder
  import EmissionProofs
  import FrameReading

  // The last action of a run.
  lemma {:induction false} RunBack(actions: seq<Action>, v: Vm, m: nat) returns (w: Vm)
    requires Run(actions, v) && m + 1 == |actions|
    ensures Run(actions[..m], w) && Sane(w) && Legal(w, actions[m]) && v == Next(w, actions[m])
  {
    w :| Run(actions[..m], w) && Sane(w) && Legal(w, actions[m]) && v == Next(w, actions[m]);
  }

  lemma {:induction false} RunOn(actions: seq<Action>, u: Vm, n: nat)
    requires n < |actions| && Run(actions[..n], u) && Sane(u) && Legal(u, actions[n])
    ensures Run(actions[..n + 1], Next(u, actions[n]))
  {
    assert actions[..n + 1][..n] == actions[..n];
  }

  lemma {:induction false} RunIsUnique(actions: seq<Action>, v: Vm, w: Vm)
    requires Run(actions, v) && Run(actions, w)
    ensures v == w
    decreases |actions|
  {
    if actions != [] {
      var m := |actions| - 1;
      var x :| Run(actions[..m], x) && Sane(x) && Legal(x, actions[m]) && v == Next(x, actions[m]);
      var y :| Run(actions[..m], y) && Sane(y) && Legal(y, actions[m]) && w == Next(y, actions[m]);
      RunIsUnique(actions[..m], x, y);
    }
  }

  // What a frame's close said of it.
  predicate Told(f: Frame, error: Option<string>, retdata: seq<Felt>, failed: bool) {
    f.error == error && f.retdata == retdata && f.failed == failed
  }

  lemma {:induction false} ClosedStays(v: Vm, a: Action, id: nat)
    requires Sane(v) && Legal(v, a) && id < |v.sink.frames| && id !in v.sink.stack
    ensures id !in Next(v, a).sink.stack && id < |Next(v, a).sink.frames|
    ensures var f, g := v.sink.frames[id], Next(v, a).sink.frames[id];
      g.error == f.error && g.retdata == f.retdata && g.failed == f.failed
  {
    if v.sink.stack != [] {
      assert Top(v) in v.sink.stack;
    }
  }

  lemma {:induction false} ClosedLeavesStack(u: Vm, a: Action)
    requires Inv(u) && Legal(u, a) && a.Close?
    ensures Top(u) !in Next(u, a).sink.stack && Top(u) < |Next(u, a).sink.frames|
    ensures Told(Next(u, a).sink.frames[Top(u)], a.error, a.retdata, a.failed)
  {
    var path := u.sink.stack;
    assert forall i, j :: 0 <= i < j < |path| ==> path[i] < path[j];
  }

  // The states of a run, one before each action and one at the end.
  ghost predicate StepAt(actions: seq<Action>, states: seq<Vm>, i: nat) {
    && i < |actions| && i + 1 < |states|
    && Sane(states[i]) && Legal(states[i], actions[i]) && states[i + 1] == Next(states[i], actions[i])
  }

  ghost predicate Trail(actions: seq<Action>, states: seq<Vm>) {
    && |states| == |actions| + 1
    && forall i: nat {:trigger StepAt(actions, states, i)} :: i < |actions| ==> StepAt(actions, states, i)
  }

  lemma {:induction false} RunTrail(actions: seq<Action>, v: Vm) returns (states: seq<Vm>)
    requires Run(actions, v)
    ensures Trail(actions, states) && states[0] == START && states[|actions|] == v
    decreases |actions|
  {
    if actions == [] {
      states := [v];
    } else {
      var m := |actions| - 1;
      var w := RunBack(actions, v, m);
      var before := RunTrail(actions[..m], w);
      states := before + [v];
      TrailMore(actions, before, m, v);
    }
  }

  lemma {:induction false} TrailMore(actions: seq<Action>, before: seq<Vm>, m: nat, v: Vm)
    requires m + 1 == |actions| && Trail(actions[..m], before)
    requires Sane(before[m]) && Legal(before[m], actions[m]) && v == Next(before[m], actions[m])
    ensures Trail(actions, before + [v])
  {
    var states := before + [v];
    forall i: nat | i < |actions| ensures StepAt(actions, states, i) {
      assert i < m ==> StepAt(actions[..m], before, i);
    }
  }

  lemma {:induction false} TrailRuns(actions: seq<Action>, states: seq<Vm>, n: nat)
    requires Trail(actions, states) && states[0] == START && n <= |actions|
    ensures Run(actions[..n], states[n])
  {
    if n > 0 {
      TrailRuns(actions, states, n - 1);
      assert StepAt(actions, states, n - 1);
      RunOn(actions, states[n - 1], n - 1);
    }
  }

  lemma {:induction false} OutcomeStays(actions: seq<Action>, states: seq<Vm>, id: nat, n: nat, k: nat,
          error: Option<string>, retdata: seq<Felt>, failed: bool)
    requires Trail(actions, states) && n <= k <= |actions|
    requires id < |states[n].sink.frames| && id !in states[n].sink.stack
    requires Told(states[n].sink.frames[id], error, retdata, failed)
    ensures id < |states[k].sink.frames| && id !in states[k].sink.stack
    ensures Told(states[k].sink.frames[id], error, retdata, failed)
    decreases k
  {
    if n < k {
      OutcomeStays(actions, states, id, n, k - 1, error, retdata, failed);
      assert StepAt(actions, states, k - 1);
      ClosedStays(states[k - 1], actions[k - 1], id);
    }
  }

  // The frame that the n-th action closes keeps, to the end of the run, the outcome it is closed with.
  lemma {:induction false} FramesKeepTheirOutcome(actions: seq<Action>, v: Vm, n: nat, u: Vm)
    requires Run(actions, v) && n < |actions| && actions[n].Close?
    requires Run(actions[..n], u) && Sane(u) && Legal(u, actions[n])
    ensures Top(u) < |v.sink.frames| && Top(u) !in v.sink.stack
    ensures Told(v.sink.frames[Top(u)], actions[n].error, actions[n].retdata, actions[n].failed)
  {
    var states := RunTrail(actions, v);
    TrailRuns(actions, states, n);
    RunIsUnique(actions[..n], u, states[n]);
    Reachable(actions[..n], u);
    TrailKeeps(actions, states, n);
  }

  lemma {:induction false} TrailKeeps(actions: seq<Action>, states: seq<Vm>, n: nat)
    requires Trail(actions, states) && n < |actions| && actions[n].Close? && Inv(states[n])
    ensures Sane(states[n]) && Legal(states[n], actions[n])
    ensures var v, id := states[|actions|], Top(states[n]);
      && id < |v.sink.frames| && id !in v.sink.stack
      && Told(v.sink.frames[id], actions[n].error, actions[n].retdata, actions[n].failed)
  {
    assert StepAt(actions, states, n);
    ClosedLeavesStack(states[n], actions[n]);
    var a := actions[n];
    OutcomeStays(actions, states, Top(states[n]), n + 1, |actions|, a.error, a.retdata, a.failed);
  }

  // The executor: the entry points it is inside of, by the ids the sink gave them, and the VM's trace of
  // each entry point so far.
  class Executor {
    const sink: Sink
    var open: seq<nat>
    var traces: seq<seq<Step>>

    ghost predicate At(v: Vm)
      reads this, sink
    {
      Sane(v) && sink.Valid() && sink.State() == v.sink && open == v.sink.stack && traces == v.executed
    }

    constructor ()
      ensures At(START) && fresh(sink)
    {
      sink := new Sink();
      open, traces := [], [];
    }

    method Act(a: Action, ghost v: Vm)
      requires At(v) && Legal(v, a)
      modifies this, sink
      ensures At(Next(v, a))
    {
      match a
      case Open(call) =>
        var id := sink.Enter(call);
        open, traces := open + [id], traces + [[]];
      case Execute(s) =>
        var top := open[|open| - 1];
        traces := traces[top := traces[top] + [s]];
      case Syscall =>
        sink.SyscallAt(|traces[open[|open| - 1]]|);
      case Record =>
        sink.RecordSteps(traces[open[|open| - 1]]);
      case Close(error, retdata, failed) =>
        sink.Exit(Some(open[|open| - 1]), error, retdata, failed);
        open := open[..|open| - 1];
    }
  }

  // What the sink holds after a legal run.
  method Observe(actions: seq<Action>, ghost v: Vm) returns (sink: Sink)
    requires Run(actions, v)
    ensures fresh(sink) && sink.Valid() && sink.State() == v.sink
  {
    ghost var states := RunTrail(actions, v);
    var executor := new Executor();
    for n := 0 to |actions|
      invariant fresh(executor) && fresh(executor.sink) && executor.At(states[n])
    {
      assert StepAt(actions, states, n);
      executor.Act(actions[n], states[n]);
    }
    sink := executor.sink;
  }

  // A run whose frames all closed is recorded as one container, which fails exactly when no entry point
  // ran. Its steps are those the VM executed, in execution order, each in its own frame.
  method RecordRun(c: Context, actions: seq<Action>, revert: Option<string>, ghost v: Vm)
    returns (r: Result<TraceLog, string>)
    requires Run(actions, v) && v.sink.stack == []
    requires forall i :: 0 <= i < |v.sink.frames| ==> Covered(c, v.sink.frames[i])
    ensures r.Err? <==> v.sink.frames == []
    ensures r.Ok? ==> Ready(c, v.sink.frames) && FrameReading.ReadsWhole(c, v.sink.frames, revert, r.value.events)
    ensures r.Ok? ==> EmissionProofs.InFrames(v.log, |v.sink.frames|)
    ensures r.Ok? ==> StepsOf(r.value.events) == EmissionProofs.Positions(c, v.sink.frames, v.log)
    ensures r.Ok? ==> Follow(r.value.events, []) == Some(Followed(Placed(c, v.sink.frames, v.log), []))
  {
    var sink := Observe(actions, v);
    Reachable(actions, v);
    assert Shape(v.sink.frames) == Live(v);
    var rec;
    r, rec := WriteContainer(c, sink.frames, revert);
    if v.sink.frames != [] {
      EmissionProofs.ContainerIsExecutionOrder(c, actions, v, revert);
      StepsAreInTheirFrames(c, actions, v, revert);
    }
  }
}
