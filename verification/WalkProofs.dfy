// What the walk guarantees: each reachable function once, properly nested, and at most
// one synthetic return value.
module WalkProofs {
  import opened Common
  import opened Expressions
  import opened WhileLoops
  import opened SourceWalk

  // ----- plans hold only steps and variables, and each call position once

  predicate Quiet(e: Event) {
    e.Step? || e.Variable?
  }

  ghost predicate AllQuiet(ev: seq<Event>) {
    forall i :: 0 <= i < |ev| ==> Quiet(ev[i])
  }

  ghost predicate QuietItems(items: seq<Item>) {
    forall i :: 0 <= i < |items| && items[i].Emit? ==> Quiet(items[i].event)
  }

  lemma {:induction false} BodyQuiet(wl: WhileLoop, env: Env, n: nat)
    requires n <= |wl.body|
    ensures AllQuiet(BodyEvents(wl, env, n))
  {
    if n > 0 {
      BodyQuiet(wl, env, n - 1);
    }
  }

  lemma {:induction false} RoundsQuiet(wl: WhileLoop, env: Env, k: nat)
    ensures AllQuiet(Rounds(wl, env, k))
  {
    if k > 0 {
      RoundsQuiet(wl, env, k - 1);
      BodyQuiet(wl, EnvAfter(wl, env, k - 1), |wl.body|);
    }
  }

  lemma {:induction false} SimulatedQuiet(wl: WhileLoop, env: Env, cap: nat)
    requires SimulatedUpTo(wl, env, cap).Some?
    ensures AllQuiet(SimulatedUpTo(wl, env, cap).value.0)
  {
    RoundsQuiet(wl, env, StopsAt(wl, env, 0, cap));
  }

  lemma {:induction false} QuietConcat(a: seq<Item>, b: seq<Item>)
    requires QuietItems(a) && QuietItems(b)
    ensures QuietItems(a + b)
  {
  }

  lemma {:induction false} PlanQuiet(f: FunctionEntry, offset: nat, env: Env, first: bool)
    requires WellFormedEntry(f)
    ensures QuietItems(PlanFrom(f, offset, env, first))
    decreases |f.lines| - offset
  {
    if offset < |f.lines| {
      var run := LoopRun(f, offset, env);
      if run.Some? {
        var next := run.value.0.closingLine - f.startLine + 1;
        SimulatedQuiet(run.value.0, env, MAX_ITERS);
        PlanQuiet(f, next, run.value.2, first);
        QuietConcat(Emits(run.value.1), PlanFrom(f, next, run.value.2, first));
      } else if f.lines[offset].blank {
        PlanQuiet(f, offset + 1, env, first);
      } else {
        var line := f.lines[offset];
        PlanQuiet(f, offset + 1, AfterInit(line, env), false);
        QuietConcat(Emits(LineEvents(f, offset, first)), Visits(offset, line.callees));
        QuietConcat(Emits(LineEvents(f, offset, first)) + Visits(offset, line.callees),
                    PlanFrom(f, offset + 1, AfterInit(line, env), false));
      }
    }
  }

  // Call positions increase along a plan.
  ghost predicate PositionsFrom(items: seq<Item>, lo: nat) {
    && (forall i :: 0 <= i < |items| && items[i].Visit? ==> items[i].offset >= lo)
    && (forall i, j :: 0 <= i < j < |items| && items[i].Visit? && items[j].Visit? ==>
      items[i].offset < items[j].offset || (items[i].offset == items[j].offset && items[i].index < items[j].index))
  }

  lemma {:induction false} PositionsConcat(a: seq<Item>, b: seq<Item>, lo: nat, mid: nat)
    requires PositionsFrom(a, lo) && PositionsFrom(b, mid) && lo <= mid
    requires forall i :: 0 <= i < |a| && a[i].Visit? ==> a[i].offset < mid
    ensures PositionsFrom(a + b, lo)
  {
  }

  lemma {:induction false} PlanPositions(f: FunctionEntry, offset: nat, env: Env, first: bool)
    requires WellFormedEntry(f)
    ensures PositionsFrom(PlanFrom(f, offset, env, first), offset)
    decreases |f.lines| - offset
  {
    if offset < |f.lines| {
      var run := LoopRun(f, offset, env);
      if run.Some? {
        var next := run.value.0.closingLine - f.startLine + 1;
        PlanPositions(f, next, run.value.2, first);
        PositionsConcat(Emits(run.value.1), PlanFrom(f, next, run.value.2, first), offset, next);
      } else if f.lines[offset].blank {
        PlanPositions(f, offset + 1, env, first);
      } else {
        var line := f.lines[offset];
        var rest := PlanFrom(f, offset + 1, AfterInit(line, env), false);
        PlanPositions(f, offset + 1, AfterInit(line, env), false);
        PositionsConcat(Emits(LineEvents(f, offset, first)) + Visits(offset, line.callees), rest, offset, offset + 1);
      }
    }
  }

  // ----- the static call graph the walk follows

  function CalleesIn(items: seq<Item>): set<string> {
    set i | 0 <= i < |items| && items[i].Visit? :: items[i].callee
  }

  // `a` is a function of the table and calls `b` on a line the walk visits.
  ghost predicate Edge(c: Program, a: string, b: string)
    requires WellFormed(c)
  {
    var f := Find(c.table, a);
    f.Some? && b in CalleesIn(Plan(f.value))
  }

  ghost predicate EdgeAt(c: Program, path: seq<string>, i: nat)
    requires WellFormed(c)
  {
    i + 1 < |path| && Edge(c, path[i], path[i + 1])
  }

  ghost predicate IsPath(c: Program, path: seq<string>)
    requires WellFormed(c)
  {
    path != [] && forall i: nat {:trigger EdgeAt(c, path, i)} :: i < |path| - 1 ==> EdgeAt(c, path, i)
  }

  ghost predicate PathAvoiding(c: Program, path: seq<string>, a: string, b: string, avoid: set<string>)
    requires WellFormed(c)
  {
    && IsPath(c, path) && path[0] == a && path[|path| - 1] == b
    && forall i :: 0 <= i < |path| ==> path[i] !in avoid
  }

  // `b` is reachable from `a` by calls, through functions that are none of `avoid`.
  ghost predicate ReachesAvoiding(c: Program, a: string, b: string, avoid: set<string>)
    requires WellFormed(c)
  {
    exists path :: PathAvoiding(c, path, a, b, avoid)
  }

  ghost predicate Reaches(c: Program, a: string, b: string)
    requires WellFormed(c)
  {
    ReachesAvoiding(c, a, b, {})
  }

  lemma {:induction false} ReachesSelf(c: Program, a: string, avoid: set<string>)
    requires WellFormed(c) && a !in avoid
    ensures ReachesAvoiding(c, a, a, avoid)
  {
    assert PathAvoiding(c, [a], a, a, avoid);
  }

  lemma {:induction false} ReachesAfterEdge(c: Program, a: string, m: string, b: string, avoid: set<string>)
    requires WellFormed(c) && Edge(c, a, m) && a !in avoid && ReachesAvoiding(c, m, b, avoid)
    ensures ReachesAvoiding(c, a, b, avoid)
  {
    var path :| PathAvoiding(c, path, m, b, avoid);
    var longer := [a] + path;
    forall i: nat | i < |longer| - 1 ensures EdgeAt(c, longer, i) {
      if i > 0 {
        assert EdgeAt(c, path, i - 1);
      }
    }
    assert PathAvoiding(c, longer, a, b, avoid);
  }

  lemma {:induction false} AvoidsLess(c: Program, a: string, b: string, avoid: set<string>, less: set<string>)
    requires WellFormed(c) && less <= avoid && ReachesAvoiding(c, a, b, avoid)
    ensures ReachesAvoiding(c, a, b, less)
  {
    var path :| PathAvoiding(c, path, a, b, avoid);
    assert PathAvoiding(c, path, a, b, less);
  }

  // Everything newly visited is reachable, past what is visited, from where the walk started.
  lemma {:induction false} WalkReaches(c: Program, name: string, visited: set<string>, pending: Option<i64>, x: string)
    requires WellFormed(c) && x in WalkFn(c, name, visited, pending).visited && x !in visited
    ensures ReachesAvoiding(c, name, x, visited)
    decreases Names(c) - visited, 0
  {
    if x == name {
      ReachesSelf(c, name, visited);
    } else {
      var f := Find(c.table, name).value;
      assert f.bareName in Names(c);
      var visited' := visited + {name};
      var tail := TailCall(f, visited', |f.lines|);
      var handed := if HasPostStep(f, tail) then None else pending;
      var m := ItemsReach(c, Plan(f), visited', tail, handed, x);
      AvoidsLess(c, m, x, visited', visited);
      ReachesAfterEdge(c, name, m, x, visited);
    }
  }

  lemma {:induction false} ItemsReach(c: Program, items: seq<Item>, visited: set<string>, tail: Option<(nat, nat)>,
          handed: Option<i64>, x: string)
    returns (m: string)
    requires WellFormed(c) && x in WalkItems(c, items, visited, tail, handed).visited && x !in visited
    ensures m in CalleesIn(items) && ReachesAvoiding(c, m, x, visited)
    decreases Names(c) - visited, |items|
  {
    var n := |items| - 1;
    var w := WalkItems(c, items[..n], visited, tail, handed);
    if x in w.visited {
      m := ItemsReach(c, items[..n], visited, tail, handed, x);
    } else {
      var v := items[n];
      m := v.callee;
      assert Names(c) - w.visited == Names(c) - visited || Names(c) - w.visited < Names(c) - visited;
      WalkReaches(c, m, w.visited, if tail == Some((v.offset, v.index)) then handed else None, x);
      AvoidsLess(c, m, x, w.visited, visited);
    }
  }

  // ----- every call of a newly visited function is followed

  ghost predicate ClosedOver(c: Program, from: set<string>, to: set<string>)
    requires WellFormed(c)
  {
    forall x, y :: x in from && Edge(c, x, y) ==> y in to
  }

  lemma {:induction false} WalkCloses(c: Program, name: string, visited: set<string>, pending: Option<i64>)
    requires WellFormed(c)
    ensures var v := WalkFn(c, name, visited, pending).visited; ClosedOver(c, v - visited, v)
    decreases Names(c) - visited, 0
  {
    if name !in visited && Find(c.table, name).Some? {
      var f := Find(c.table, name).value;
      assert f.bareName in Names(c);
      var visited' := visited + {name};
      var tail := TailCall(f, visited', |f.lines|);
      ItemsClose(c, Plan(f), visited', tail, if HasPostStep(f, tail) then None else pending);
    }
  }

  lemma {:induction false} ItemsClose(c: Program, items: seq<Item>, visited: set<string>, tail: Option<(nat, nat)>,
          handed: Option<i64>)
    requires WellFormed(c)
    ensures var v := WalkItems(c, items, visited, tail, handed).visited;
      CalleesIn(items) <= v && ClosedOver(c, v - visited, v)
    decreases Names(c) - visited, |items|
  {
    if items != [] {
      var n := |items| - 1;
      var w := WalkItems(c, items[..n], visited, tail, handed);
      ItemsClose(c, items[..n], visited, tail, handed);
      if items[n].Visit? {
        var v := items[n];
        assert Names(c) - w.visited == Names(c) - visited || Names(c) - w.visited < Names(c) - visited;
        var p := if tail == Some((v.offset, v.index)) then handed else None;
        WalkCloses(c, v.callee, w.visited, p);
        ClosedFurther(c, visited, w.visited, WalkFn(c, v.callee, w.visited, p).visited);
      }
    }
  }

  lemma {:induction false} ClosedFurther(c: Program, a: set<string>, b: set<string>, d: set<string>)
    requires WellFormed(c) && a <= b <= d && ClosedOver(c, b - a, b) && ClosedOver(c, d - b, d)
    ensures ClosedOver(c, d - a, d)
  {
  }

  // ----- one call per function of the table

  ghost function CallsOf(ev: seq<Event>, name: string): nat {
    if ev == [] then 0
    else CallsOf(ev[..|ev| - 1], name) + if ev[|ev| - 1].Call? && ev[|ev| - 1].name == name then 1 else 0
  }

  lemma {:induction false} CallsOfConcat(a: seq<Event>, b: seq<Event>, name: string)
    ensures CallsOf(a + b, name) == CallsOf(a, name) + CallsOf(b, name)
    decreases |b|
  {
    if b == [] {
      assert a + b == a;
    } else {
      assert (a + b)[..|a + b| - 1] == a + b[..|b| - 1];
      CallsOfConcat(a, b[..|b| - 1], name);
    }
  }

  lemma {:induction false} NoCallsOf(ev: seq<Event>, name: string)
    requires forall i :: 0 <= i < |ev| ==> !ev[i].Call?
    ensures CallsOf(ev, name) == 0
  {
    if ev != [] {
      NoCallsOf(ev[..|ev| - 1], name);
    }
  }

  lemma {:induction false} FrameCalls(c: Program, f: FunctionEntry, body: seq<Event>, kept: Option<i64>, x: string)
    ensures CallsOf(FrameEvents(c, f, body, kept), x) == CallsOf(body, x) + if x == f.bareName then 1 else 0
  {
    var call := [Call(f.bareName, f.fullName, f.startLine)];
    var end := if kept.Some? then [ReturnValue(kept.value), Return(ReturnOf(c, f.bareName))]
               else [Return(ReturnOf(c, f.bareName))];
    CallsOfConcat(call, body, x);
    CallsOfConcat(call + body, end, x);
    NoCallsOf(end, x);
    assert CallsOf([], x) == 0;
    assert CallsOf(call, x) == if x == f.bareName then 1 else 0;
    assert FrameEvents(c, f, body, kept) == call + body + end;
  }

  // `x` is called once if it is a function of the table that `to` adds to `from`.
  function Expected(c: Program, from: set<string>, to: set<string>, x: string): nat {
    if x in to && x !in from && x in Names(c) then 1 else 0
  }

  lemma {:induction false} WalkCalls(c: Program, name: string, visited: set<string>, pending: Option<i64>, x: string)
    requires WellFormed(c)
    ensures var w := WalkFn(c, name, visited, pending);
      CallsOf(w.events, x) == Expected(c, visited, w.visited, x)
    decreases Names(c) - visited, 0
  {
    if name !in visited {
      var visited' := visited + {name};
      if Find(c.table, name).Some? {
        var f := Find(c.table, name).value;
        assert f.bareName in Names(c);
        var tail := TailCall(f, visited', |f.lines|);
        var post := HasPostStep(f, tail);
        var handed, kept := if post then None else pending, if post then pending else None;
        PlanQuiet(f, 0, map[], true);
        ItemsCalls(c, Plan(f), visited', tail, handed, x);
        FrameCalls(c, f, WalkItems(c, Plan(f), visited', tail, handed).events, kept, x);
      } else {
        assert name !in Names(c);
      }
    }
  }

  lemma {:induction false} ItemsCalls(c: Program, items: seq<Item>, visited: set<string>, tail: Option<(nat, nat)>,
          handed: Option<i64>, x: string)
    requires WellFormed(c) && QuietItems(items)
    ensures var w := WalkItems(c, items, visited, tail, handed);
      CallsOf(w.events, x) == Expected(c, visited, w.visited, x)
    decreases Names(c) - visited, |items|
  {
    if items != [] {
      var n := |items| - 1;
      var w := WalkItems(c, items[..n], visited, tail, handed);
      ItemsCalls(c, items[..n], visited, tail, handed, x);
      match items[n]
      case Emit(e) =>
        CallsOfConcat(w.events, [e], x);
        NoCallsOf([e], x);
      case Visit(offset, index, callee) =>
        assert Names(c) - w.visited == Names(c) - visited || Names(c) - w.visited < Names(c) - visited;
        var p := if tail == Some((offset, index)) then handed else None;
        WalkCalls(c, callee, w.visited, p, x);
        CallsOfConcat(w.events, WalkFn(c, callee, w.visited, p).events, x);
    }
  }

  // A walk from `root` visits exactly the names reachable from it, and calls each
  // function of the table among them exactly once.
  lemma {:induction false} WalkVisitsReachable(c: Program, root: string, pending: Option<i64>)
    requires WellFormed(c)
    ensures var w := WalkFn(c, root, {}, pending);
      && (forall x :: x in w.visited <==> Reaches(c, root, x))
      && (forall x :: CallsOf(w.events, x) == if x in Names(c) && Reaches(c, root, x) then 1 else 0)
  {
    var w := WalkFn(c, root, {}, pending);
    WalkCloses(c, root, {}, pending);
    forall x ensures x in w.visited <==> Reaches(c, root, x) {
      if x in w.visited {
        WalkReaches(c, root, {}, pending, x);
      }
      if Reaches(c, root, x) {
        ReachesStays(c, root, x, {}, w.visited);
      }
    }
    forall x ensures CallsOf(w.events, x) == if x in Names(c) && Reaches(c, root, x) then 1 else 0 {
      WalkCalls(c, root, {}, pending, x);
    }
  }

  // A path from a newly visited function that avoids the others stays among the newly visited.
  lemma {:induction false} ReachesStays(c: Program, a: string, b: string, visited: set<string>, v: set<string>)
    requires WellFormed(c) && ClosedOver(c, v - visited, v) && a in v && ReachesAvoiding(c, a, b, visited)
    ensures b in v
  {
    var path :| PathAvoiding(c, path, a, b, visited);
    PathStays(c, path, visited, v, |path| - 1);
  }

  lemma {:induction false} PathStays(c: Program, path: seq<string>, visited: set<string>, v: set<string>, i: nat)
    requires WellFormed(c) && IsPath(c, path) && path[0] in v && i < |path| && ClosedOver(c, v - visited, v)
    requires forall j :: 0 <= j < |path| ==> path[j] !in visited
    ensures path[i] in v
  {
    if i > 0 {
      PathStays(c, path, visited, v, i - 1);
      assert EdgeAt(c, path, i - 1);
    }
  }

  // Walking some items newly visits exactly what their calls reach past the functions visited before.
  lemma {:induction false} ItemsVisit(c: Program, items: seq<Item>, visited: set<string>, tail: Option<(nat, nat)>,
          handed: Option<i64>, x: string)
    requires WellFormed(c)
    ensures x in WalkItems(c, items, visited, tail, handed).visited <==>
      x in visited || exists m :: m in CalleesIn(items) && ReachesAvoiding(c, m, x, visited)
  {
    var v := WalkItems(c, items, visited, tail, handed).visited;
    ItemsClose(c, items, visited, tail, handed);
    if x in v && x !in visited {
      var m := ItemsReach(c, items, visited, tail, handed, x);
    }
    if m :| m in CalleesIn(items) && ReachesAvoiding(c, m, x, visited) {
      ReachesStays(c, m, x, visited, v);
    }
  }


  // ----- calls nest along the call graph

  // Replays calls and returns on a stack of open frames. A call must be made by the
  // innermost open frame, and a return must give that frame's value.
  ghost function Replay(c: Program, ev: seq<Event>, open: seq<string>): Option<seq<string>>
    requires WellFormed(c)
  {
    if ev == [] then Some(open)
    else
      match Replay(c, ev[..|ev| - 1], open)
      case None => None
      case Some(st) =>
        match ev[|ev| - 1]
        case Call(name, _, _) => if MayCall(c, st, name) then Some(st + [name]) else None
        case Return(v) =>
          if st != [] && v == ReturnOf(c, st[|st| - 1]) then Some(st[..|st| - 1]) else None
        case _ => Some(st)
  }

  ghost predicate MayCall(c: Program, open: seq<string>, name: string)
    requires WellFormed(c)
  {
    open == [] || Edge(c, open[|open| - 1], name)
  }

  lemma {:induction false} ReplayConcat(c: Program, a: seq<Event>, b: seq<Event>, open: seq<string>)
    requires WellFormed(c) && Replay(c, a, open).Some?
    ensures Replay(c, a + b, open) == Replay(c, b, Replay(c, a, open).value)
    decreases |b|
  {
    if b == [] {
      assert a + b == a;
    } else {
      assert (a + b)[..|a + b| - 1] == a + b[..|b| - 1];
      ReplayConcat(c, a, b[..|b| - 1], open);
    }
  }

  lemma {:induction false} ReplayOne(c: Program, e: Event, open: seq<string>)
    requires WellFormed(c)
    ensures Quiet(e) || e.ReturnValue? ==> Replay(c, [e], open) == Some(open)
    ensures e.Call? && MayCall(c, open, e.name) ==> Replay(c, [e], open) == Some(open + [e.name])
    ensures e.Return? && open != [] && e.result == ReturnOf(c, open[|open| - 1]) ==>
      Replay(c, [e], open) == Some(open[..|open| - 1])
  {
    assert Replay(c, [], open) == Some(open);
  }

  lemma {:induction false} FrameNests(c: Program, f: FunctionEntry, body: seq<Event>, kept: Option<i64>,
          open: seq<string>)
    requires WellFormed(c) && MayCall(c, open, f.bareName)
    requires Replay(c, body, open + [f.bareName]) == Some(open + [f.bareName])
    ensures Replay(c, FrameEvents(c, f, body, kept), open) == Some(open)
  {
    var call, inner := [Call(f.bareName, f.fullName, f.startLine)], open + [f.bareName];
    var ret := [Return(ReturnOf(c, f.bareName))];
    ReplayOne(c, call[0], open);
    ReplayConcat(c, call, body, open);
    ReplayOne(c, ret[0], inner);
    assert inner[..|inner| - 1] == open;
    if kept.Some? {
      var syn := [ReturnValue(kept.value)];
      ReplayOne(c, syn[0], inner);
      ReplayConcat(c, call + body, syn, open);
      ReplayConcat(c, call + body + syn, ret, open);
      assert call + body + syn + ret == FrameEvents(c, f, body, kept);
    } else {
      ReplayConcat(c, call + body, ret, open);
    }
  }

  // Every frame's segment opens under a caller that calls it and closes its own frame.
  lemma {:induction false} WalkNests(c: Program, name: string, visited: set<string>, pending: Option<i64>,
          open: seq<string>)
    requires WellFormed(c) && MayCall(c, open, name)
    ensures Replay(c, WalkFn(c, name, visited, pending).events, open) == Some(open)
    decreases Names(c) - visited, 0
  {
    if name !in visited && Find(c.table, name).Some? {
      var visited' := visited + {name};
      var f := Find(c.table, name).value;
      assert f.bareName in Names(c);
      var tail := TailCall(f, visited', |f.lines|);
      var post := HasPostStep(f, tail);
      var handed, kept := if post then None else pending, if post then pending else None;
      PlanQuiet(f, 0, map[], true);
      ItemsNest(c, name, Plan(f), visited', tail, handed, open + [name]);
      FrameNests(c, f, WalkItems(c, Plan(f), visited', tail, handed).events, kept, open);
    }
  }

  lemma {:induction false} ItemsNest(c: Program, caller: string, items: seq<Item>, visited: set<string>,
          tail: Option<(nat, nat)>, handed: Option<i64>, open: seq<string>)
    requires WellFormed(c) && QuietItems(items) && open != [] && open[|open| - 1] == caller
    requires forall m :: m in CalleesIn(items) ==> Edge(c, caller, m)
    ensures Replay(c, WalkItems(c, items, visited, tail, handed).events, open) == Some(open)
    decreases Names(c) - visited, |items|
  {
    if items != [] {
      var n := |items| - 1;
      var w := WalkItems(c, items[..n], visited, tail, handed);
      ItemsNest(c, caller, items[..n], visited, tail, handed, open);
      match items[n]
      case Emit(e) =>
        ReplayOne(c, e, open);
        ReplayConcat(c, w.events, [e], open);
      case Visit(offset, index, callee) =>
        assert callee in CalleesIn(items);
        assert Names(c) - w.visited == Names(c) - visited || Names(c) - w.visited < Names(c) - visited;
        var p := if tail == Some((offset, index)) then handed else None;
        WalkNests(c, callee, w.visited, p, open);
        ReplayConcat(c, w.events, WalkFn(c, callee, w.visited, p).events, open);
    }
  }

  // ----- the synthetic return value

  // Each synthetic value in `ev` is the pending one and comes right before a return.
  ghost predicate Settled(ev: seq<Event>, pending: Option<i64>) {
    forall i :: 0 <= i < |ev| && ev[i].ReturnValue? ==>
      pending == Some(ev[i].returned) && i + 1 < |ev| && ev[i + 1].Return?
  }

  ghost function Synthetics(ev: seq<Event>): nat {
    if ev == [] then 0 else Synthetics(ev[..|ev| - 1]) + if ev[|ev| - 1].ReturnValue? then 1 else 0
  }

  lemma {:induction false} SyntheticsConcat(a: seq<Event>, b: seq<Event>)
    ensures Synthetics(a + b) == Synthetics(a) + Synthetics(b)
    decreases |b|
  {
    if b == [] {
      assert a + b == a;
    } else {
      assert (a + b)[..|a + b| - 1] == a + b[..|b| - 1];
      SyntheticsConcat(a, b[..|b| - 1]);
    }
  }

  // How many visits of a plan stand at the tail call.
  ghost function VisitsAt(items: seq<Item>, tail: Option<(nat, nat)>): nat {
    if items == [] then 0
    else
      var i := items[|items| - 1];
      VisitsAt(items[..|items| - 1], tail) + if i.Visit? && tail == Some((i.offset, i.index)) then 1 else 0
  }

  lemma {:induction false} TailOnce(items: seq<Item>, tail: Option<(nat, nat)>, lo: nat)
    requires PositionsFrom(items, lo)
    ensures VisitsAt(items, tail) <= 1
    ensures VisitsAt(items, tail) == 1 ==>
      exists i :: 0 <= i < |items| && items[i].Visit? && tail == Some((items[i].offset, items[i].index))
  {
    if items != [] {
      TailOnce(items[..|items| - 1], tail, lo);
    }
  }

  lemma {:induction false} FrameSynthetics(c: Program, f: FunctionEntry, body: seq<Event>, kept: Option<i64>,
          pending: Option<i64>)
    requires Settled(body, pending) && (kept.Some? ==> kept == pending)
    ensures Settled(FrameEvents(c, f, body, kept), pending)
    ensures Synthetics(FrameEvents(c, f, body, kept)) == Synthetics(body) + if kept.Some? then 1 else 0
  {
    var call := [Call(f.bareName, f.fullName, f.startLine)];
    var ret := [Return(ReturnOf(c, f.bareName))];
    assert Synthetics([]) == 0;
    SyntheticsConcat(call, body);
    if kept.Some? {
      var syn := [ReturnValue(kept.value)];
      SyntheticsConcat(call + body, syn);
      SyntheticsConcat(call + body + syn, ret);
      assert call + body + syn + ret == FrameEvents(c, f, body, kept);
    } else {
      SyntheticsConcat(call + body, ret);
    }
    SettledFrame(c, f, body, kept, pending);
  }

  lemma {:induction false} SettledFrame(c: Program, f: FunctionEntry, body: seq<Event>, kept: Option<i64>,
          pending: Option<i64>)
    requires Settled(body, pending) && (kept.Some? ==> kept == pending)
    ensures Settled(FrameEvents(c, f, body, kept), pending)
  {
    var ev := FrameEvents(c, f, body, kept);
    forall i | 0 <= i < |ev| && ev[i].ReturnValue?
      ensures pending == Some(ev[i].returned) && i + 1 < |ev| && ev[i + 1].Return?
    {
      if i <= |body| {
        assert ev[i] == body[i - 1] && ev[i + 1] == body[i];
      }
    }
  }

  // Whatever the call graph and the visiting order, the walk writes the pending value at
  // most once, unchanged, as the last thing before a frame's return.
  lemma {:induction false} WalkSynthetics(c: Program, name: string, visited: set<string>, pending: Option<i64>)
    requires WellFormed(c)
    ensures var ev := WalkFn(c, name, visited, pending).events;
      Settled(ev, pending) && Synthetics(ev) <= (if pending.Some? then 1 else 0)
    decreases Names(c) - visited, 0
  {
    if name !in visited && Find(c.table, name).Some? {
      var visited' := visited + {name};
      var f := Find(c.table, name).value;
      assert f.bareName in Names(c);
      var tail := TailCall(f, visited', |f.lines|);
      var post := HasPostStep(f, tail);
      var handed, kept := if post then None else pending, if post then pending else None;
      PlanQuiet(f, 0, map[], true);
      PlanPositions(f, 0, map[], true);
      TailOnce(Plan(f), tail, 0);
      ItemsSynthetics(c, Plan(f), visited', tail, handed);
      FrameSynthetics(c, f, WalkItems(c, Plan(f), visited', tail, handed).events, kept, pending);
    }
  }

  lemma {:induction false} ItemsSynthetics(c: Program, items: seq<Item>, visited: set<string>, tail: Option<(nat, nat)>,
          handed: Option<i64>)
    requires WellFormed(c) && QuietItems(items)
    ensures var ev := WalkItems(c, items, visited, tail, handed).events;
      Settled(ev, handed) && Synthetics(ev) <= (if handed.Some? then VisitsAt(items, tail) else 0)
    decreases Names(c) - visited, |items|
  {
    if items != [] {
      var n := |items| - 1;
      var w := WalkItems(c, items[..n], visited, tail, handed);
      ItemsSynthetics(c, items[..n], visited, tail, handed);
      match items[n]
      case Emit(e) =>
        assert Synthetics([]) == 0;
        JoinSettled(w.events, [e], handed);
      case Visit(offset, index, callee) =>
        assert Names(c) - w.visited == Names(c) - visited || Names(c) - w.visited < Names(c) - visited;
        var p := if tail == Some((offset, index)) then handed else None;
        WalkSynthetics(c, callee, w.visited, p);
        JoinSettled(w.events, WalkFn(c, callee, w.visited, p).events, handed);
    }
  }

  lemma {:induction false} JoinSettled(a: seq<Event>, b: seq<Event>, pending: Option<i64>)
    requires Settled(a, pending) && (Settled(b, pending) || Settled(b, None))
    ensures Settled(a + b, pending) && Synthetics(a + b) == Synthetics(a) + Synthetics(b)
  {
    SyntheticsConcat(a, b);
    SettledConcat(a, b, pending);
  }

  lemma {:induction false} SettledConcat(a: seq<Event>, b: seq<Event>, pending: Option<i64>)
    requires Settled(a, pending) && (Settled(b, pending) || Settled(b, None))
    ensures Settled(a + b, pending)
  {
    var ev := a + b;
    forall i | 0 <= i < |ev| && ev[i].ReturnValue?
      ensures pending == Some(ev[i].returned) && i + 1 < |ev| && ev[i + 1].Return?
    {
      if i < |a| {
        assert ev[i] == a[i] && ev[i + 1] == a[i + 1];
      } else {
        assert ev[i] == b[i - |a|];
      }
    }
  }

  lemma {:induction false} ItemsSnoc(c: Program, items: seq<Item>, x: Item, visited: set<string>,
          tail: Option<(nat, nat)>, handed: Option<i64>)
    requires WellFormed(c)
    ensures var w := WalkItems(c, items, visited, tail, handed);
      WalkItems(c, items + [x], visited, tail, handed) ==
        match x
        case Emit(e) => Walked(w.events + [e], w.visited)
        case Visit(offset, index, callee) =>
          var s := WalkFn(c, callee, w.visited, if tail == Some((offset, index)) then handed else None);
          Walked(w.events + s.events, s.visited)
  {
    assert (items + [x])[..|items|] == items;
  }
}
