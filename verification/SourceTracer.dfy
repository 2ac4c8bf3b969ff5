// The source tracer as it runs: the recursive walk over a mutable visited set and an
// append-only log (src/tracer.rs), proved to do what SourceWalk describes.
module SourceTracer {
  import opened Common
  import opened Expressions
  import opened WhileLoops
  import opened SourceWalk
  import LoopFinder
  import WalkProofs
  import WalkText

  // Walking a plan in two parts.
  lemma {:induction false} WalkItemsConcat(c: Program, a: seq<Item>, b: seq<Item>, visited: set<string>,
          tail: Option<(nat, nat)>, handed: Option<i64>)
    requires WellFormed(c)
    ensures var w := WalkItems(c, a, visited, tail, handed);
      var u := WalkItems(c, b, w.visited, tail, handed);
      WalkItems(c, a + b, visited, tail, handed) == Walked(w.events + u.events, u.visited)
    decreases |b|
  {
    var w := WalkItems(c, a, visited, tail, handed);
    if b == [] {
      assert a + b == a;
      assert w.events + [] == w.events;
    } else {
      var b', x := b[..|b| - 1], b[|b| - 1];
      assert b == b' + [x] && a + b == a + b' + [x];
      WalkItemsConcat(c, a, b', visited, tail, handed);
      var u := WalkItems(c, b', w.visited, tail, handed);
      WalkProofs.ItemsSnoc(c, b', x, w.visited, tail, handed);
      WalkProofs.ItemsSnoc(c, a + b', x, visited, tail, handed);
      match x
      case Emit(e) => Assoc(w.events, u.events, [e]);
      case Visit(offset, index, callee) =>
        var s := WalkFn(c, callee, u.visited, if tail == Some((offset, index)) then handed else None);
        Assoc(w.events, u.events, s.events);
    }
  }

  lemma {:induction false} WalkItemsOfEmits(c: Program, ev: seq<Event>, visited: set<string>, tail: Option<(nat, nat)>,
          handed: Option<i64>)
    requires WellFormed(c)
    ensures WalkItems(c, Emits(ev), visited, tail, handed) == Walked(ev, visited)
    decreases |ev|
  {
    if ev != [] {
      var n := |ev| - 1;
      assert Emits(ev)[..n] == Emits(ev[..n]);
      WalkItemsOfEmits(c, ev[..n], visited, tail, handed);
      assert ev[..n] + [ev[n]] == ev;
    }
  }

  // A frame's events follow its call and its body.
  lemma {:induction false} FrameLogged(c: Program, f: FunctionEntry, before: seq<Event>, called: seq<Event>,
          walked: seq<Event>, after: seq<Event>, kept: Option<i64>)
    requires called == before + [Call(f.bareName, f.fullName, f.startLine)] && called <= walked
    requires after == (if kept.Some? then walked + [ReturnValue(kept.value)] else walked) +
      [Return(ReturnOf(c, f.bareName))]
    ensures after == before + FrameEvents(c, f, walked[|called|..], kept)
  {
  }

  class Tracer {
    const log: TraceLog
    var visited: set<string>

    constructor ()
      ensures fresh(log) && log.events == [] && visited == {}
    {
      log := new TraceLog();
      visited := {};
    }

    // What has been written and visited since `ev` and `v` is what `w` says.
    ghost predicate Since(ev: seq<Event>, w: Walked)
      reads this, log
    {
      log.events == ev + w.events && visited == w.visited
    }

    method EmitFunctionDfs(c: Program, name: string, pending: Option<i64>)
      requires WellFormed(c)
      modifies this`visited, log
      ensures Since(old(log.events), WalkFn(c, name, old(visited), pending))
      ensures WalkText.AllShow(c, log.events[|old(log.events)|..], visited - old(visited))
      decreases Names(c) - visited, 0
    {
      WalkText.EnteredShow(c, name, visited, pending);
      if name in visited {
        return;
      }
      visited := visited + {name};
      var found := Find(c.table, name);
      if found == None {
        return;
      }
      var f := found.value;
      assert f.bareName in Names(c);
      EmitFrame(c, f, pending);
    }

    method EmitFrame(c: Program, f: FunctionEntry, pending: Option<i64>)
      requires WellFormed(c) && f in c.table && f.bareName in visited
      modifies this`visited, log
      ensures var tail := TailCall(f, old(visited), |f.lines|);
        var post := HasPostStep(f, tail);
        var body := WalkItems(c, Plan(f), old(visited), tail, if post then None else pending);
        Since(old(log.events), Walked(FrameEvents(c, f, body.events, if post then pending else None), body.visited))
      decreases Names(c) - visited, 4
    {
      var tail := FindTailCall(f, visited);
      var post := ScanPostStep(f, tail);
      log.Write(Call(f.bareName, f.fullName, f.startLine));
      ghost var called := log.events;
      WalkBody(c, f, tail, if post then None else pending);
      ghost var walked := log.events;
      if post {
        match pending {
          case Some(v) => log.Write(ReturnValue(v));
          case None =>
        }
      }
      log.Write(Return(ReturnOf(c, f.bareName)));
      FrameLogged(c, f, old(log.events), called, walked, log.events, if post then pending else None);
    }

    method WalkBody(c: Program, f: FunctionEntry, tail: Option<(nat, nat)>, handed: Option<i64>)
      requires WellFormed(c) && f in c.table && f.bareName in visited
      modifies this`visited, log
      ensures Since(old(log.events), WalkItems(c, Plan(f), old(visited), tail, handed))
      decreases Names(c) - visited, 3, 1
    {
      var env: Env := map[];
      var first := true;
      var offset := 0;
      ghost var done: seq<Item> := [];
      while offset < |f.lines|
        invariant old(visited) <= visited
        invariant Plan(f) == done + PlanFrom(f, offset, env, first)
        invariant Since(old(log.events), WalkItems(c, done, old(visited), tail, handed))
        decreases |f.lines| - offset
      {
        FewerLeft(Names(c), old(visited), visited);
        offset, env, first, done :=
          WalkNext(c, f, offset, env, first, tail, handed, done, old(visited), old(log.events));
      }
      assert done + [] == done;
    }

    // One turn of the walk: a simulated loop, a blank line, or an ordinary line.
    method WalkNext(c: Program, f: FunctionEntry, offset: nat, env: Env, first: bool, tail: Option<(nat, nat)>,
            handed: Option<i64>, ghost done: seq<Item>, ghost start: set<string>, ghost from: seq<Event>)
      returns (offset': nat, env': Env, first': bool, ghost done': seq<Item>)
      requires WellFormed(c) && f in c.table && offset < |f.lines| && start <= visited
      requires Plan(f) == done + PlanFrom(f, offset, env, first)
      requires Since(from, WalkItems(c, done, start, tail, handed))
      modifies this`visited, log
      ensures old(visited) <= visited && offset < offset'
      ensures Plan(f) == done' + PlanFrom(f, offset', env', first')
      ensures Since(from, WalkItems(c, done', start, tail, handed))
      decreases Names(c) - visited, 3, 0
    {
      var ran;
      ran, offset', env', done' := TryLoop(c, f, offset, env, first, tail, handed, done, start, from);
      first' := first;
      if ran {
        return;
      }
      if f.lines[offset].blank {
        PlanBlank(f, offset, env, first, done);
        offset', env', done' := offset + 1, env, done;
      } else {
        WalkLine(c, f, offset, first, tail, handed, done, start, from);
        PlanLine(f, offset, env, first, done);
        done' := done + Emits(LineEvents(f, offset, first)) + Visits(offset, f.lines[offset].callees);
        offset', env', first' := offset + 1, AfterInit(f.lines[offset], env), false;
      }
    }

    method TryLoop(c: Program, f: FunctionEntry, offset: nat, env: Env, ghost first: bool,
            ghost tail: Option<(nat, nat)>, ghost handed: Option<i64>, ghost done: seq<Item>, ghost start: set<string>,
            ghost from: seq<Event>)
      returns (ran: bool, offset': nat, env': Env, ghost done': seq<Item>)
      requires WellFormed(c) && f in c.table && offset < |f.lines|
      requires Plan(f) == done + PlanFrom(f, offset, env, first)
      requires Since(from, WalkItems(c, done, start, tail, handed))
      modifies log
      ensures ran ==> offset < offset' && Plan(f) == done' + PlanFrom(f, offset', env', first)
      ensures Since(from, WalkItems(c, if ran then done' else done, start, tail, handed))
      ensures !ran ==> LoopRun(f, offset, env) == None
    {
      ran, offset', env', done' := false, offset, env, done;
      var wl := LoopAt(f.loops, f.startLine + offset);
      if wl.Some? {
        ghost var ev;
        ran, env', ev := RunLoop(c, wl.value, env, tail, handed, done, start, from);
        if ran {
          PlanLoop(f, offset, env, first, done, wl.value, ev, env');
          offset', done' := wl.value.closingLine - f.startLine + 1, done + Emits(ev);
        }
      }
    }

    // A loop handed to the simulator; its events are the next items of the plan.
    method RunLoop(c: Program, wl: WhileLoop, env: Env, ghost tail: Option<(nat, nat)>, ghost handed: Option<i64>,
            ghost done: seq<Item>, ghost start: set<string>, ghost from: seq<Event>)
      returns (ran: bool, env': Env, ghost ev: seq<Event>)
      requires WellFormed(c) && Since(from, WalkItems(c, done, start, tail, handed))
      modifies log
      ensures ran <==> Simulated(wl, env).Some?
      ensures ran ==> (ev, env') == Simulated(wl, env).value
      ensures ran ==> Since(from, WalkItems(c, done + Emits(ev), start, tail, handed))
      ensures !ran ==> Since(from, WalkItems(c, done, start, tail, handed))
    {
      ghost var w := WalkItems(c, done, start, tail, handed);
      ran, env' := SimulateWhileLoop(log, wl, env);
      ev := [];
      if ran {
        ev := Simulated(wl, env).value.0;
        WalkItemsConcat(c, done, Emits(ev), start, tail, handed);
        WalkItemsOfEmits(c, ev, w.visited, tail, handed);
        Assoc(from, w.events, ev);
      }
    }

    method WalkLine(c: Program, f: FunctionEntry, offset: nat, first: bool, tail: Option<(nat, nat)>,
            handed: Option<i64>, ghost done: seq<Item>, ghost start: set<string>, ghost from: seq<Event>)
      requires WellFormed(c) && offset < |f.lines| && start <= visited
      requires Since(from, WalkItems(c, done, start, tail, handed))
      modifies this`visited, log
      ensures old(visited) <= visited
      ensures var items := done + Emits(LineEvents(f, offset, first)) + Visits(offset, f.lines[offset].callees);
        Since(from, WalkItems(c, items, start, tail, handed))
      decreases Names(c) - visited, 2
    {
      ghost var w, ev := WalkItems(c, done, start, tail, handed), LineEvents(f, offset, first);
      WriteLine(f, offset, first);
      WalkItemsConcat(c, done, Emits(ev), start, tail, handed);
      WalkItemsOfEmits(c, ev, w.visited, tail, handed);
      Assoc(from, w.events, ev);
      VisitCallees(c, f.lines[offset].callees, offset, tail, handed, done + Emits(ev), start, from);
    }

    // The steps and variables of one line.
    method WriteLine(f: FunctionEntry, offset: nat, first: bool)
      requires offset < |f.lines|
      modifies log
      ensures log.events == old(log.events) + LineEvents(f, offset, first)
    {
      var line := f.lines[offset];
      var i := 0;
      while i < |line.columns|
        invariant 0 <= i <= |line.columns|
        invariant log.events == old(log.events) + StepEvents(f.startLine + offset, line.columns)[..i]
      {
        log.Write(Step(f.startLine + offset, Some(line.columns[i])));
        i := i + 1;
      }
      if first {
        WriteVars(f.entryVars);
      }
      WriteVars(line.vars);
    }

    method WriteVars(vars: seq<(string, Value)>)
      modifies log
      ensures log.events == old(log.events) + VarEvents(vars)
    {
      var i := 0;
      while i < |vars|
        invariant 0 <= i <= |vars|
        invariant log.events == old(log.events) + VarEvents(vars)[..i]
      {
        log.Write(Variable(vars[i].0, vars[i].1));
        i := i + 1;
      }
    }

    method VisitCallees(c: Program, callees: seq<string>, offset: nat, tail: Option<(nat, nat)>, handed: Option<i64>,
            ghost done: seq<Item>, ghost start: set<string>, ghost ev: seq<Event>)
      requires WellFormed(c) && start <= visited
      requires Since(ev, WalkItems(c, done, start, tail, handed))
      modifies this`visited, log
      ensures Since(ev, WalkItems(c, done + Visits(offset, callees), start, tail, handed)) && old(visited) <= visited
      decreases Names(c) - visited, 1
    {
      var i := 0;
      assert done + Visits(offset, callees)[..0] == done;
      ghost var w := WalkItems(c, done, start, tail, handed);
      while i < |callees|
        invariant 0 <= i <= |callees|
        invariant old(visited) <= visited
        invariant w == WalkItems(c, done + Visits(offset, callees)[..i], start, tail, handed)
        invariant Since(ev, w)
      {
        var isTail := tail == Some((offset, i));
        FewerLeft(Names(c), old(visited), visited);
        EmitFunctionDfs(c, callees[i], if isTail then handed else None);
        w := VisitNext(c, done, offset, callees, i, start, tail, handed, ev, w);
        i := i + 1;
      }
      assert Visits(offset, callees)[..i] == Visits(offset, callees);
    }
  }

  lemma {:induction false} FewerLeft(names: set<string>, before: set<string>, visited: set<string>)
    requires before <= visited
    ensures names - visited == names - before || names - visited < names - before
  {
  }

  lemma {:induction false} Assoc(a: seq<Event>, b: seq<Event>, c: seq<Event>)
    ensures a + b + c == a + (b + c)
  {
  }

  // What one more call adds to a log that follows the items so far.
  lemma {:induction false} VisitNext(c: Program, done: seq<Item>, offset: nat, callees: seq<string>, i: nat,
          start: set<string>, tail: Option<(nat, nat)>, handed: Option<i64>, from: seq<Event>, w: Walked)
    returns (next: Walked)
    requires WellFormed(c) && i < |callees|
    requires w == WalkItems(c, done + Visits(offset, callees)[..i], start, tail, handed)
    ensures next == WalkItems(c, done + Visits(offset, callees)[..i + 1], start, tail, handed)
    ensures var s := WalkFn(c, callees[i], w.visited, if tail == Some((offset, i)) then handed else None);
      next.visited == s.visited && from + w.events + s.events == from + next.events
  {
    var items := done + Visits(offset, callees)[..i];
    WalkProofs.ItemsSnoc(c, items, Visit(offset, i, callees[i]), start, tail, handed);
    assert items + [Visit(offset, i, callees[i])] == done + Visits(offset, callees)[..i + 1];
    var s := WalkFn(c, callees[i], w.visited, if tail == Some((offset, i)) then handed else None);
    Assoc(from, w.events, s.events);
    next := Walked(w.events + s.events, s.visited);
  }

  // The plan after a simulated loop, and after an ordinary line.
  lemma {:induction false} PlanLoop(f: FunctionEntry, offset: nat, env: Env, first: bool, done: seq<Item>,
          wl: WhileLoop, ev: seq<Event>, env': Env)
    requires WellFormedEntry(f) && offset < |f.lines| && Plan(f) == done + PlanFrom(f, offset, env, first)
    requires LoopRun(f, offset, env) == Some((wl, ev, env'))
    ensures f.startLine + offset < wl.closingLine
    ensures Plan(f) == done + Emits(ev) + PlanFrom(f, wl.closingLine - f.startLine + 1, env', first)
  {
    var rest := PlanFrom(f, wl.closingLine - f.startLine + 1, env', first);
    assert PlanFrom(f, offset, env, first) == Emits(ev) + rest;
    assert done + (Emits(ev) + rest) == done + Emits(ev) + rest;
  }

  lemma {:induction false} PlanBlank(f: FunctionEntry, offset: nat, env: Env, first: bool, done: seq<Item>)
    requires WellFormedEntry(f) && offset < |f.lines| && Plan(f) == done + PlanFrom(f, offset, env, first)
    requires LoopRun(f, offset, env) == None && f.lines[offset].blank
    ensures Plan(f) == done + PlanFrom(f, offset + 1, env, first)
  {
  }

  lemma {:induction false} PlanLine(f: FunctionEntry, offset: nat, env: Env, first: bool, done: seq<Item>)
    requires WellFormedEntry(f) && offset < |f.lines| && Plan(f) == done + PlanFrom(f, offset, env, first)
    requires LoopRun(f, offset, env) == None && !f.lines[offset].blank
    ensures var line := f.lines[offset];
      Plan(f) == done + Emits(LineEvents(f, offset, first)) + Visits(offset, line.callees) +
                 PlanFrom(f, offset + 1, AfterInit(line, env), false)
  {
    var line := f.lines[offset];
    var ev, vs, rest := Emits(LineEvents(f, offset, first)), Visits(offset, line.callees),
      PlanFrom(f, offset + 1, AfterInit(line, env), false);
    assert PlanFrom(f, offset, env, first) == ev + vs + rest;
    assert done + (ev + vs + rest) == done + ev + vs + rest;
  }

  // The i-th call of line `offset` is of another function, and one not visited.
  predicate NewCall(f: FunctionEntry, visited: set<string>, offset: nat, i: nat) {
    && offset < |f.lines| && i < |f.lines[offset].callees|
    && f.lines[offset].callees[i] != f.bareName && f.lines[offset].callees[i] !in visited
  }

  // `found` is the last such call of the first `hi` lines, if there is one.
  ghost predicate IsLastNewCall(f: FunctionEntry, visited: set<string>, hi: nat, found: Option<(nat, nat)>) {
    match found
    case None => forall o: nat, i: nat :: o < hi ==> !NewCall(f, visited, o, i)
    case Some((offset, index)) =>
      && offset < hi && NewCall(f, visited, offset, index)
      && forall o: nat, i: nat :: o < hi && (o > offset || (o == offset && i > index)) ==> !NewCall(f, visited, o, i)
  }

  lemma {:induction false} LastOnLine(f: FunctionEntry, visited: set<string>, callees: seq<string>)
    ensures match LastRecursable(f, visited, callees)
      case None => forall i: nat :: i < |callees| ==> callees[i] == f.bareName || callees[i] in visited
      case Some(k) =>
        && callees[k] != f.bareName && callees[k] !in visited
        && forall i: nat :: k < i < |callees| ==> callees[i] == f.bareName || callees[i] in visited
  {
    if callees != [] {
      var n := |callees| - 1;
      LastOnLine(f, visited, callees[..n]);
    }
  }

  lemma {:induction false} TailCallIsLast(f: FunctionEntry, visited: set<string>, hi: nat)
    requires hi <= |f.lines|
    ensures IsLastNewCall(f, visited, hi, TailCall(f, visited, hi))
  {
    if hi > 0 {
      LastOnLine(f, visited, f.lines[hi - 1].callees);
      TailCallIsLast(f, visited, hi - 1);
    }
  }

  // The pre-scan for the call that inherits the synthetic value.
  method FindTailCall(f: FunctionEntry, visited: set<string>) returns (found: Option<(nat, nat)>)
    ensures found == TailCall(f, visited, |f.lines|)
    ensures IsLastNewCall(f, visited, |f.lines|, found)
  {
    TailCallIsLast(f, visited, |f.lines|);
    found := None;
    var offset := 0;
    while offset < |f.lines|
      invariant 0 <= offset <= |f.lines|
      invariant found == TailCall(f, visited, offset)
    {
      var callees := f.lines[offset].callees;
      var last: Option<nat> := None;
      var i := 0;
      while i < |callees|
        invariant 0 <= i <= |callees|
        invariant last == LastRecursable(f, visited, callees[..i])
      {
        assert callees[..i + 1][..i] == callees[..i];
        if Recursable(f, visited, callees[i]) {
          last := Some(i);
        }
        i := i + 1;
      }
      assert callees[..i] == callees;
      if last.Some? {
        found := Some((offset, last.value));
      }
      offset := offset + 1;
    }
  }

  method ScanPostStep(f: FunctionEntry, tail: Option<(nat, nat)>) returns (post: bool)
    ensures post == HasPostStep(f, tail)
  {
    post := false;
    var k := if tail.Some? then tail.value.0 + 1 else 0;
    while k < |f.lines|
      invariant tail.Some? ==> k > tail.value.0
      invariant !post
      invariant forall j :: 0 <= j < k && j < |f.lines| && (tail.Some? ==> j > tail.value.0) ==> f.lines[j].blank
    {
      if !f.lines[k].blank {
        post := true;
        break;
      }
      k := k + 1;
    }
  }

  // The walk starts at `main`, or else at the first function.
  ghost predicate IsRoot(c: Program, root: string) {
    && c.table != []
    && root == if "main" in Names(c) then "main" else c.table[0].bareName
  }

  // A trace of the program from `root`: calls nest along the call graph, each reachable
  // function is called exactly once and shows its own stops directly inside its frame, and at
  // most one synthetic value is written.
  ghost predicate TraceFrom(c: Program, root: string, ev: seq<Event>)
    requires WellFormed(c)
  {
    && root in Names(c)
    && IsRoot(c, root)
    && WalkProofs.Replay(c, ev, []) == Some([])
    && WalkProofs.Settled(ev, ReturnOf(c, root))
    && WalkProofs.Synthetics(ev) <= 1
    && ev != [] && WalkText.IsCallOf(c, ev[0], root)
    && (forall x :: Find(c.table, x).Some? && WalkProofs.Reaches(c, root, x) ==> WalkText.ShowsFunction(c, ev, x))
    && forall x :: WalkProofs.CallsOf(ev, x) == if x in Names(c) && WalkProofs.Reaches(c, root, x) then 1 else 0
  }

  // The whole source trace: from `main`, or the first function, with its return value as
  // the synthetic one.
  method EmitSourceTrace(c: Program) returns (t: Tracer)
    requires WellFormed(c)
    ensures if c.table == [] then t.log.events == [] else exists root :: TraceFrom(c, root, t.log.events)
  {
    t := new Tracer();
    if c.table == [] {
      return;
    }
    var main := Find(c.table, "main");
    var f := if main.Some? then main.value else c.table[0];
    assert f in c.table;
    var root := f.bareName;
    t.EmitFunctionDfs(c, root, ReturnOf(c, root));
    FoundIffNamed(c, "main");
    WalkIsTrace(c, root);
    assert t.log.events == WalkFn(c, root, {}, ReturnOf(c, root)).events;
  }

  lemma {:induction false} FoundIffNamed(c: Program, name: string)
    ensures Find(c.table, name).Some? <==> name in Names(c)
  {
    if name in Names(c) {
      var f :| f in c.table && f.bareName == name;
      var i :| 0 <= i < |c.table| && c.table[i] == f;
    }
  }

  lemma {:induction false} RootShows(c: Program, root: string)
    requires WellFormed(c)
    ensures var ev := WalkFn(c, root, {}, ReturnOf(c, root)).events;
      forall x :: Find(c.table, x).Some? && WalkProofs.Reaches(c, root, x) ==> WalkText.ShowsFunction(c, ev, x)
  {
    var w := WalkFn(c, root, {}, ReturnOf(c, root));
    WalkProofs.WalkVisitsReachable(c, root, ReturnOf(c, root));
    WalkText.EnteredShow(c, root, {}, ReturnOf(c, root));
    forall x | Find(c.table, x).Some? && WalkProofs.Reaches(c, root, x) ensures WalkText.ShowsFunction(c, w.events, x) {
      assert x in w.visited - {};
    }
  }

  lemma {:induction false} WalkIsTrace(c: Program, root: string)
    requires WellFormed(c) && root in Names(c) && IsRoot(c, root)
    ensures TraceFrom(c, root, WalkFn(c, root, {}, ReturnOf(c, root)).events)
  {
    WalkProofs.WalkVisitsReachable(c, root, ReturnOf(c, root));
    WalkProofs.WalkNests(c, root, {}, ReturnOf(c, root), []);
    WalkProofs.WalkSynthetics(c, root, {}, ReturnOf(c, root));
    FoundIffNamed(c, root);
    WalkText.RootFirst(c, root, ReturnOf(c, root));
    RootShows(c, root);
  }

  // The loops found in a function's lines are the well-formed ones the walk relies on.
  lemma {:induction false} FoundLoopsAreWellFormed(f: FunctionEntry, lines: seq<LoopFinder.BodyLine>, end: nat)
    requires 1 <= f.startLine && f.startLine - 1 <= end < |lines|
    requires f.loops == LoopFinder.FindLoops(lines, f.startLine - 1, end, 0)
    ensures WellFormedEntry(f)
  {
    LoopFinder.FoundLoopsMatch(lines, f.startLine - 1, end, 0);
    forall i | 0 <= i < |f.loops| ensures f.startLine <= f.loops[i].headerLine < f.loops[i].closingLine {
      assert LoopFinder.Matched(lines, f.loops[i], f.startLine - 1, end);
    }
  }
}
