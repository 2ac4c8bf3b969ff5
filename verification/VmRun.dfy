// Legal runs of the patched executor (onchain/blockifier-patch/apply.py): what the VM
// executes in real time, next to what the observer is told.
module VmRun {
  import opened Common
  import opened Observer
  import opened Forest

  datatype Action =
    | Open(call: EntryPoint)
    | Execute(step: Step)
    | Syscall
    | Record
    | Close(error: Option<string>, retdata: seq<Felt>, failed: bool)

  // `executed[i]` is what frame `i` has run so far; `log` is every step in real time.
  datatype Vm = Vm(sink: SinkState, executed: seq<seq<Step>>, log: seq<Executed>)

  const START := Vm(EMPTY_SINK, [], [])

  ghost predicate Sane(v: Vm) {
    && |v.executed| == |v.sink.frames|
    && |v.sink.stack| == |v.sink.pendingStep|
    && forall j :: 0 <= j < |v.sink.stack| ==> v.sink.stack[j] < |v.sink.frames|
  }

  ghost function Top(v: Vm): nat
    requires Sane(v) && v.sink.stack != []
    ensures Top(v) < |v.executed|
  {
    v.sink.stack[|v.sink.stack| - 1]
  }

  // A nested frame opens from a syscall of the innermost frame, noted at that frame's
  // current step; a frame closes once its whole trace was recorded.
  ghost predicate Legal(v: Vm, a: Action)
    requires Sane(v)
  {
    match a
    case Open(_) => v.sink.stack == [] || Last(v.sink.pendingStep) == Some(Some(|v.executed[Top(v)]|))
    case Close(_, _, _) => v.sink.stack != [] && v.sink.frames[Top(v)].steps == v.executed[Top(v)]
    case _ => v.sink.stack != []
  }

  ghost function Next(v: Vm, a: Action): Vm
    requires Sane(v) && Legal(v, a)
  {
    match a
    case Open(call) => Vm(Entered(v.sink, call), v.executed + [[]], v.log)
    case Execute(s) =>
      Vm(v.sink, v.executed[Top(v) := v.executed[Top(v)] + [s]], v.log + [(Top(v), s)])
    case Syscall => v.(sink := SyscallNoted(v.sink, |v.executed[Top(v)]|))
    case Record => v.(sink := StepsRecorded(v.sink, v.executed[Top(v)]))
    case Close(error, retdata, failed) => v.(sink := Exited(v.sink, Top(v), error, retdata, failed))
  }

  // `actions` lead from the initial state to `v`, each legal where it is taken.
  ghost predicate Run(actions: seq<Action>, v: Vm)
    decreases |actions|
  {
    if actions == [] then v == START
    else
      var n := |actions| - 1;
      exists u :: Run(actions[..n], u) && Sane(u) && Legal(u, actions[n]) && v == Next(u, actions[n])
  }

  // The forest with every frame's steps as executed so far.
  ghost function Live(v: Vm): (t: seq<Node>)
    requires Sane(v)
    ensures |t| == |v.executed|
    ensures forall i :: 0 <= i < |t| ==>
      t[i] == Node(v.sink.frames[i].parent, v.sink.frames[i].parentStep, v.executed[i])
  {
    seq(|v.executed|, i requires 0 <= i < |v.executed| =>
      Node(v.sink.frames[i].parent, v.sink.frames[i].parentStep, v.executed[i]))
  }

  // ----- the invariant of every reachable state

  // Siblings open at non-decreasing steps of their parent.
  ghost predicate SiblingsInOrder(t: seq<Node>) {
    forall c, d {:trigger Brothers(t, c, d)} :: 0 <= c < d < |t| && Brothers(t, c, d) ==>
      t[c].parentStep.value <= t[d].parentStep.value
  }

  ghost predicate Brothers(t: seq<Node>, c: nat, d: nat)
    requires c < |t| && d < |t|
  {
    t[c].parent.Some? && t[c].parent == t[d].parent && t[c].parentStep.Some? && t[d].parentStep.Some?
  }

  // `a` is `id` or one of its ancestors.
  ghost predicate Above(t: seq<Node>, a: nat, id: nat)
    requires WellFormed(t)
    decreases id
  {
    id < |t| && (a == id || (t[id].parent.Some? && Above(t, a, t[id].parent.value)))
  }

  // Frames are listed in preorder: a frame's parent is its predecessor or above it.
  ghost predicate Preorder(t: seq<Node>)
    requires WellFormed(t)
  {
    forall i {:trigger Follows(t, i)} :: 0 < i < |t| ==> Follows(t, i)
  }

  ghost predicate Follows(t: seq<Node>, i: nat)
    requires WellFormed(t) && 0 < i < |t|
  {
    t[i].parent.Some? ==> Above(t, t[i].parent.value, i - 1)
  }

  // What the forest and the chain of open frames satisfy in every reachable state.
  ghost predicate Shaped(t: seq<Node>, path: seq<nat>) {
    && WellFormed(t)
    && OpenPath(t, path)
    && OpenedInTime(t)
    && SiblingsInOrder(t)
    && Preorder(t)
    && forall j :: 0 <= j < |path| ==> Above(t, path[j], |t| - 1)
  }

  ghost predicate Inv(v: Vm) {
    && Sane(v)
    && Recorded(v)
    && Shaped(Live(v), v.sink.stack)
    // What was executed so far is the interleaving of the forest.
    && v.log == WeaveTops(Live(v), |v.executed|)
  }

  // Frames carry their own ids, and those that are no longer open have their executed steps recorded.
  ghost predicate Recorded(v: Vm)
    requires Sane(v)
  {
    && (forall i :: 0 <= i < |v.sink.frames| ==> v.sink.frames[i].id == i)
    && (forall i :: 0 <= i < |v.executed| && i !in v.sink.stack ==> v.sink.frames[i].steps == v.executed[i])
  }

  // An action that executes nothing keeps the forest.
  lemma {:induction false} SameForest(v: Vm, v': Vm)
    requires Inv(v) && Sane(v') && Recorded(v') && Live(v') == Live(v) && v'.log == v.log
    requires Shaped(Live(v), v'.sink.stack)
    ensures Inv(v')
  {
  }

  lemma {:induction false} AboveKept(t: seq<Node>, t': seq<Node>, a: nat, id: nat)
    requires WellFormed(t) && WellFormed(t') && |t| <= |t'|
    requires forall i :: 0 <= i < |t| ==> t'[i].parent == t[i].parent
    requires Above(t, a, id)
    ensures Above(t', a, id)
    decreases id
  {
    if a != id {
      AboveKept(t, t', a, t[id].parent.value);
    }
  }

  lemma {:induction false} AbovePath(t: seq<Node>, path: seq<nat>, j: nat, k: nat)
    requires WellFormed(t) && OpenPath(t, path) && j <= k < |path|
    ensures Above(t, path[j], path[k])
    decreases k
  {
    if j < k {
      assert Suspended(t, path[k - 1], path[k]);
      AbovePath(t, path, j, k - 1);
    }
  }

  // The frame a legal `Open` adds.
  ghost predicate Opens(t: seq<Node>, path: seq<nat>, f: Node)
    requires forall j :: 0 <= j < |path| ==> path[j] < |t|
  {
    && f.steps == []
    && f.parent == Last(path)
    && (path != [] ==> f.parentStep == Some(|t[path[|path| - 1]].steps|))
  }

  lemma {:induction false} OpenedPath(t: seq<Node>, path: seq<nat>, f: Node)
    requires Shaped(t, path) && Opens(t, path, f)
    ensures OpenPath(t + [f], path + [|t|])
  {
    var t', path' := t + [f], path + [|t|];
    forall j | 0 < j < |path'| ensures Suspended(t', path'[j - 1], path'[j]) {
      if j < |path| {
        assert Suspended(t, path[j - 1], path[j]);
        assert path[j - 1] < path[|path| - 1];
      }
    }
  }

  lemma {:induction false} OpenedInOrder(t: seq<Node>, path: seq<nat>, f: Node)
    requires Shaped(t, path) && Opens(t, path, f)
    ensures OpenedInTime(t + [f]) && SiblingsInOrder(t + [f])
  {
    var t' := t + [f];
    forall c | 0 <= c < |t'| ensures InTime(t', c) {
      if c < |t| {
        assert InTime(t, c);
      }
    }
    forall c, d | 0 <= c < d < |t'| && Brothers(t', c, d)
      ensures t'[c].parentStep.value <= t'[d].parentStep.value
    {
      if d < |t| {
        assert Brothers(t, c, d);
      } else {
        assert InTime(t, c);
      }
    }
  }

  lemma {:induction false} OpenedPreorder(t: seq<Node>, path: seq<nat>, f: Node)
    requires Shaped(t, path) && Opens(t, path, f) && WellFormed(t + [f])
    ensures Preorder(t + [f])
    ensures forall j :: 0 <= j <= |path| ==> Above(t + [f], (path + [|t|])[j], |t|)
  {
    var t' := t + [f];
    forall i | 0 < i < |t'| ensures Follows(t', i) {
      if t'[i].parent.Some? {
        assert i < |t| ==> Follows(t, i);
        AboveKept(t, t', t'[i].parent.value, i - 1);
      }
    }
    OpenedPath(t, path, f);
    forall j | 0 <= j <= |path| ensures Above(t', (path + [|t|])[j], |t|) {
      AbovePath(t', path + [|t|], j, |path|);
    }
  }

  lemma {:induction false} OpenedShaped(t: seq<Node>, path: seq<nat>, f: Node)
    requires Shaped(t, path) && Opens(t, path, f)
    ensures Shaped(t + [f], path + [|t|])
  {
    assert WellFormed(t + [f]);
    OpenedPath(t, path, f);
    OpenedInOrder(t, path, f);
    OpenedPreorder(t, path, f);
  }

  lemma {:induction false} NotInPushed(path: seq<nat>, x: nat, i: nat)
    requires i !in path + [x]
    ensures i !in path && i != x
  {
    assert (path + [x])[|path|] == x;
  }

  lemma {:induction false} OpenKeeps(v: Vm, call: EntryPoint)
    requires Inv(v) && Legal(v, Open(call))
    ensures Inv(Next(v, Open(call)))
  {
    var v' := Next(v, Open(call));
    var t, t', path := Live(v), Live(v'), v.sink.stack;
    var f := t'[|t|];
    assert t' == t + [f] && Opens(t, path, f);
    assert Shaped(t', v'.sink.stack) by { OpenedShaped(t, path, f); }
    assert WeaveTops(t', |t'|) == v.log by { WeaveTopsAfterOpen(t, f, |t|); }
    OpenedRecorded(v, call);
  }

  // The frames closed before are recorded as they were.
  lemma {:induction false} OpenedRecorded(v: Vm, call: EntryPoint)
    requires Inv(v) && Legal(v, Open(call))
    ensures Sane(Next(v, Open(call))) && Recorded(Next(v, Open(call)))
  {
    var v' := Next(v, Open(call));
    forall i | 0 <= i < |v'.executed| && i !in v'.sink.stack ensures v'.sink.frames[i].steps == v'.executed[i] {
      NotInPushed(v.sink.stack, |v.executed|, i);
    }
  }

  lemma {:induction false} SteppedPath(t: seq<Node>, path: seq<nat>, s: Step)
    requires Shaped(t, path) && path != []
    ensures OpenPath(Stepped(t, path[|path| - 1], s), path)
  {
    var top := path[|path| - 1];
    var t' := Stepped(t, top, s);
    forall j | 0 < j < |path| ensures Suspended(t', path[j - 1], path[j]) {
      assert Suspended(t, path[j - 1], path[j]);
    }
  }

  lemma {:induction false} SteppedShaped(t: seq<Node>, path: seq<nat>, s: Step)
    requires Shaped(t, path) && path != []
    ensures Shaped(Stepped(t, path[|path| - 1], s), path)
  {
    var top := path[|path| - 1];
    var t' := Stepped(t, top, s);
    SteppedPath(t, path, s);
    forall c | 0 <= c < |t'| ensures InTime(t', c) {
      assert InTime(t, c);
    }
    forall c, d | 0 <= c < d < |t'| && Brothers(t', c, d)
      ensures t'[c].parentStep.value <= t'[d].parentStep.value
    {
      assert Brothers(t, c, d);
    }
    forall i | 0 < i < |t'| ensures Follows(t', i) {
      assert Follows(t, i);
      if t[i].parent.Some? {
        AboveKept(t, t', t[i].parent.value, i - 1);
      }
    }
    forall j | 0 <= j < |path| ensures Above(t', path[j], |t'| - 1) {
      AboveKept(t, t', path[j], |t| - 1);
    }
  }

  lemma {:induction false} ExecuteKeeps(v: Vm, s: Step)
    requires Inv(v) && Legal(v, Execute(s))
    ensures Inv(Next(v, Execute(s)))
  {
    var v' := Next(v, Execute(s));
    var t, path := Live(v), v.sink.stack;
    assert Live(v') == Stepped(t, Top(v), s);
    SteppedShaped(t, path, s);
    WeaveTopsAfterStep(t, path, s);
    assert path[|path| - 1] in path;
  }

  lemma {:induction false} ClosedShaped(t: seq<Node>, path: seq<nat>)
    requires Shaped(t, path) && path != []
    ensures Shaped(t, path[..|path| - 1])
  {
    var path' := path[..|path| - 1];
    forall j | 0 < j < |path'| ensures Suspended(t, path'[j - 1], path'[j]) {
      assert Suspended(t, path[j - 1], path[j]);
    }
  }

  lemma {:induction false} OnlyLastDropped(path: seq<nat>, i: nat)
    requires path != [] && i !in path[..|path| - 1]
    ensures i in path ==> i == path[|path| - 1]
  {
    assert path == path[..|path| - 1] + [path[|path| - 1]];
  }

  lemma {:induction false} CloseKeeps(v: Vm, error: Option<string>, retdata: seq<Felt>, failed: bool)
    requires Inv(v) && Legal(v, Close(error, retdata, failed))
    ensures Inv(Next(v, Close(error, retdata, failed)))
  {
    var v' := Next(v, Close(error, retdata, failed));
    assert Live(v') == Live(v);
    ClosedShaped(Live(v), v.sink.stack);
    ClosedRecorded(v, error, retdata, failed);
    SameForest(v, v');
  }

  // The frame that closes is recorded, as those closed before are.
  lemma {:induction false} ClosedRecorded(v: Vm, error: Option<string>, retdata: seq<Felt>, failed: bool)
    requires Inv(v) && Legal(v, Close(error, retdata, failed))
    ensures Sane(Next(v, Close(error, retdata, failed))) && Recorded(Next(v, Close(error, retdata, failed)))
  {
    var v' := Next(v, Close(error, retdata, failed));
    forall i | 0 <= i < |v'.executed| && i !in v'.sink.stack ensures v'.sink.frames[i].steps == v'.executed[i] {
      OnlyLastDropped(v.sink.stack, i);
    }
  }

  lemma {:induction false} RecordKeeps(v: Vm)
    requires Inv(v) && Legal(v, Record)
    ensures Inv(Next(v, Record))
  {
    assert Live(Next(v, Record)) == Live(v);
    SameForest(v, Next(v, Record));
  }

  lemma {:induction false} SyscallKeeps(v: Vm)
    requires Inv(v) && Legal(v, Syscall)
    ensures Inv(Next(v, Syscall))
  {
    assert Live(Next(v, Syscall)) == Live(v);
    SameForest(v, Next(v, Syscall));
  }

  // Every reachable state satisfies the invariant.
  lemma {:induction false} Reachable(actions: seq<Action>, v: Vm)
    requires Run(actions, v)
    ensures Inv(v)
    decreases |actions|
  {
    if actions != [] {
      var n := |actions| - 1;
      var u :| Run(actions[..n], u) && Sane(u) && Legal(u, actions[n]) && v == Next(u, actions[n]);
      Reachable(actions[..n], u);
      match actions[n]
      case Open(call) => OpenKeeps(u, call);
      case Execute(s) => ExecuteKeeps(u, s);
      case Syscall => SyscallKeeps(u);
      case Record => RecordKeeps(u);
      case Close(error, retdata, failed) => CloseKeeps(u, error, retdata, failed);
    }
  }

  // ----- what the frames say of their own

  // The calls opened, in order.
  function Calls(actions: seq<Action>): seq<EntryPoint> {
    if actions == [] then []
    else
      var n := |actions| - 1;
      Calls(actions[..n]) + match actions[n] { case Open(call) => [call] case _ => [] }
  }

  // Frame `id` is that of the id-th call opened.
  lemma {:induction false} FramesAreTheCalls(actions: seq<Action>, v: Vm)
    requires Run(actions, v)
    ensures |v.sink.frames| == |Calls(actions)|
    ensures forall id :: 0 <= id < |v.sink.frames| ==> v.sink.frames[id].call == Calls(actions)[id]
    decreases |actions|
  {
    if actions != [] {
      var n := |actions| - 1;
      var u :| Run(actions[..n], u) && Sane(u) && Legal(u, actions[n]) && v == Next(u, actions[n]);
      FramesAreTheCalls(actions[..n], u);
      NextCalls(u, actions[n]);
    }
  }

  lemma {:induction false} NextCalls(u: Vm, a: Action)
    requires Sane(u) && Legal(u, a)
    ensures var frames, next := u.sink.frames, Next(u, a).sink.frames;
      && |next| == |frames| + (if a.Open? then 1 else 0)
      && (forall id :: 0 <= id < |frames| ==> next[id].call == frames[id].call)
      && (a.Open? ==> next[|frames|].call == a.call)
  {
  }
}
