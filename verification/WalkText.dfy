// What a frame of the source trace shows (src/tracer.rs): the steps, variables and calls a reader finds
// directly inside one function, against the lines the walk visits there.
module WalkText {
  import opened Common
  import opened Expressions
  import opened WhileLoops
  import opened SourceWalk
  import WalkProofs

  // ---- The stops of a function ----------------------------------------------------------

  // Where the walk stops in a function: at a line, or at a loop that it simulates in an environment.
  datatype Stop = AtLine(offset: nat) | AtLoop(loop: WhileLoop, env: Env)

  // From `offset` on, in the environment of the integers bound so far. A loop is simulated when its
  // condition evaluates there, and its lines are skipped; a blank line is passed.
  function Stops(f: FunctionEntry, offset: nat, env: Env): seq<Stop>
    requires WellFormedEntry(f)
    decreases |f.lines| - offset
  {
    if offset >= |f.lines| then []
    else
      var loop, line := LoopAt(f.loops, f.startLine + offset), f.lines[offset];
      if loop.Some? && Eval(loop.value.condition, env).Some? then
        [AtLoop(loop.value, env)] +
        Stops(f, loop.value.closingLine - f.startLine + 1, Runs(loop.value, env, 1000).env)
      else if line.blank then Stops(f, offset + 1, env)
      else
        [AtLine(offset)] +
        Stops(f, offset + 1, if line.init.Some? then env[line.init.value.0 := line.init.value.1] else env)
  }

  // ---- The text of a stop ---------------------------------------------------------------

  // A variable of a line, with its value; a step at a column of a line.
  predicate ShowsVariable(e: Event, v: (string, Value)) {
    e == Variable(v.0, v.1)
  }

  predicate ShowsStep(e: Event, line: nat, column: nat) {
    e == Step(line, Some(column))
  }

  // `ev` shows one step for each column, in order, and then the variables, in order.
  ghost predicate ShowsLine(ev: seq<Event>, line: nat, columns: seq<nat>, vars: seq<(string, Value)>) {
    && |ev| == |columns| + |vars|
    && (forall i :: 0 <= i < |columns| ==> ShowsStep(ev[i], line, columns[i]))
    && (forall i :: 0 <= i < |vars| ==> ShowsVariable(ev[|columns| + i], vars[i]))
  }

  // `ev` is calls of functions of the table, each of one of `callees` and in their order.
  ghost predicate ShowsCalls(c: Program, ev: seq<Event>, callees: seq<string>) {
    if callees == [] then ev == []
    else
      var n := |callees| - 1;
      || ShowsCalls(c, ev, callees[..n])
      || (ev != [] && IsCallOf(c, ev[|ev| - 1], callees[n]) && ShowsCalls(c, ev[..|ev| - 1], callees[..n]))
  }

  predicate IsCallOf(c: Program, e: Event, callee: string) {
    && Find(c.table, callee).Some?
    && var f := Find(c.table, callee).value;
       e == Call(callee, f.fullName, f.startLine)
  }

  // A line shows its steps and variables, and then its calls; the first one also the entry variables,
  // before its own. A simulated loop shows its run, of a thousand iterations at most.
  ghost predicate ShowsStop(c: Program, f: FunctionEntry, ev: seq<Event>, stop: Stop, first: bool) {
    match stop
    case AtLoop(loop, env) => ev == Runs(loop, env, 1000).events
    case AtLine(offset) =>
      && offset < |f.lines|
      && var line := f.lines[offset];
         exists shown, calls ::
           && ev == shown + calls
           && ShowsLine(shown, f.startLine + offset, line.columns, (if first then f.entryVars else []) + line.vars)
           && ShowsCalls(c, calls, line.callees)
  }

  // `ev` shows the stops one after the other; `before` says that no line was shown before them.
  ghost predicate ShowsStops(c: Program, f: FunctionEntry, ev: seq<Event>, stops: seq<Stop>, before: bool)
    decreases |stops|
  {
    if stops == [] then ev == []
    else
      exists head, rest ::
        && ev == head + rest
        && ShowsStop(c, f, head, stops[0], before)
        && ShowsStops(c, f, rest, stops[1..], before && stops[0].AtLoop?)
  }

  // ---- What stands directly inside a frame ----------------------------------------------

  // The reader's view of one function: what was shown directly inside its frame, and the calls open.
  datatype View = View(own: seq<Event>, open: seq<string>)

  predicate Inside(open: seq<string>, x: string) {
    open != [] && open[|open| - 1] == x
  }

  // Steps, variables and the calls made there; the synthetic value and the returns are left out.
  function See(w: View, e: Event, x: string): View {
    match e
    case Call(name, _, _) => View(if Inside(w.open, x) then w.own + [e] else w.own, w.open + [name])
    case Return(_) => View(w.own, if w.open == [] then [] else w.open[..|w.open| - 1])
    case ReturnValue(_) => w
    case _ => View(if Inside(w.open, x) then w.own + [e] else w.own, w.open)
  }

  function SeeAll(ev: seq<Event>, open: seq<string>, x: string): View {
    if ev == [] then View([], open) else See(SeeAll(ev[..|ev| - 1], open, x), ev[|ev| - 1], x)
  }

  lemma {:induction false} SeeConcat(a: seq<Event>, b: seq<Event>, open: seq<string>, x: string)
    ensures var v := SeeAll(a, open, x); var w := SeeAll(b, v.open, x);
      SeeAll(a + b, open, x) == View(v.own + w.own, w.open)
    decreases |b|
  {
    if b == [] {
      assert a + b == a;
      assert SeeAll(a, open, x).own + [] == SeeAll(a, open, x).own;
    } else {
      var n := |b| - 1;
      SeeConcat(a, b[..n], open, x);
      assert (a + b)[..|a + b| - 1] == a + b[..n];
      var v := SeeAll(a, open, x);
      var w := SeeAll(b[..n], v.open, x);
      SeeLater(v.own, w, b[n], x);
    }
  }

  lemma {:induction false} SeeLater(before: seq<Event>, w: View, e: Event, x: string)
    ensures See(View(before + w.own, w.open), e, x) == View(before + See(w, e, x).own, See(w, e, x).open)
  {
    assert before + w.own + [e] == before + (w.own + [e]);
  }

  lemma {:induction false} SeeOne(e: Event, open: seq<string>, x: string)
    ensures SeeAll([e], open, x) == See(View([], open), e, x)
  {
    assert [e][..0] == [];
  }

  // ---- A frame shows its plan -----------------------------------------------------------

  // `own` is these items, but for the calls of functions that were entered before.
  ghost predicate Plays(c: Program, own: seq<Event>, items: seq<Item>) {
    if items == [] then own == []
    else
      var n := |items| - 1;
      match items[n]
      case Emit(e) => own != [] && own[|own| - 1] == e && Plays(c, own[..|own| - 1], items[..n])
      case Visit(_, _, callee) =>
        || Plays(c, own, items[..n])
        || (own != [] && IsCallOf(c, own[|own| - 1], callee) && Plays(c, own[..|own| - 1], items[..n]))
  }

  ghost predicate PlaysOf(c: Program, own: seq<Event>, x: string)
    requires WellFormed(c)
  {
    Find(c.table, x).Some? && Plays(c, own, Plan(Find(c.table, x).value))
  }

  // What a walk that newly enters `news` shows inside `x`: its plan if `x` is newly entered, else nothing.
  ghost predicate ShowsNew(c: Program, own: seq<Event>, news: set<string>, x: string)
    requires WellFormed(c)
  {
    if x in news && Find(c.table, x).Some? then PlaysOf(c, own, x) else own == []
  }

  ghost predicate AllIn(open: seq<string>, visited: set<string>) {
    forall i :: 0 <= i < |open| ==> open[i] in visited
  }

  // A walk leaves the open calls as they were. Inside `x` it shows its own call, when `x` makes it, and
  // the plan of `x` when it enters `x`.
  lemma {:induction false} WalkShows(c: Program, name: string, visited: set<string>, pending: Option<i64>,
          open: seq<string>, x: string)
    requires WellFormed(c) && AllIn(open, visited)
    ensures var w := WalkFn(c, name, visited, pending); var v := SeeAll(w.events, open, x);
      && v.open == open
      && if Inside(open, x) then
           v.own == (if name !in visited && Find(c.table, name).Some? then [CallOf(c, name)] else [])
         else ShowsNew(c, v.own, w.visited - visited, x)
    decreases Names(c) - visited, 0
  {
    if name !in visited && Find(c.table, name).Some? {
      var f, visited' := Find(c.table, name).value, visited + {name};
      assert f.bareName in Names(c);
      var tail := TailCall(f, visited', |f.lines|);
      var post := HasPostStep(f, tail);
      var handed := if post then None else pending;
      WalkProofs.PlanQuiet(f, 0, map[], true);
      ItemsShow(c, Plan(f), visited', tail, handed, open + [name], x);
      FrameShows(c, f, WalkItems(c, Plan(f), visited', tail, handed), if post then pending else None, visited, open, x);
    }
  }

  function CallOf(c: Program, name: string): Event
    requires Find(c.table, name).Some?
  {
    var f := Find(c.table, name).value;
    Call(name, f.fullName, f.startLine)
  }

  // The end of a frame shows nothing and closes it.
  lemma {:induction false} EndSeen(kept: Option<i64>, result: Option<i64>, open: seq<string>, name: string, x: string)
    ensures var end := if kept.Some? then [ReturnValue(kept.value), Return(result)] else [Return(result)];
      SeeAll(end, open + [name], x) == View([], open)
  {
    var within, ret := open + [name], Return(result);
    assert within[..|within| - 1] == open;
    SeeOne(ret, within, x);
    if kept.Some? {
      SeeOne(ReturnValue(kept.value), within, x);
      SeeConcat([ReturnValue(kept.value)], [ret], within, x);
      assert [ReturnValue(kept.value)] + [ret] == [ReturnValue(kept.value), ret];
    }
  }

  lemma {:induction false} FrameSeen(c: Program, f: FunctionEntry, body: seq<Event>, kept: Option<i64>,
          open: seq<string>, x: string)
    requires Find(c.table, f.bareName) == Some(f)
    requires SeeAll(body, open + [f.bareName], x).open == open + [f.bareName]
    ensures SeeAll(FrameEvents(c, f, body, kept), open, x) ==
      View((if Inside(open, x) then [CallOf(c, f.bareName)] else []) + SeeAll(body, open + [f.bareName], x).own, open)
  {
    var call, result := CallOf(c, f.bareName), ReturnOf(c, f.bareName);
    var end := if kept.Some? then [ReturnValue(kept.value), Return(result)] else [Return(result)];
    SeeOne(call, open, x);
    SeeConcat([call], body, open, x);
    EndSeen(kept, result, open, f.bareName, x);
    SeeConcat([call] + body, end, open, x);
    assert SeeAll([call] + body, open, x).own + [] == SeeAll([call] + body, open, x).own;
  }

  lemma {:induction false} FrameShows(c: Program, f: FunctionEntry, body: Walked, kept: Option<i64>,
          visited: set<string>, open: seq<string>, x: string)
    requires WellFormed(c) && Find(c.table, f.bareName) == Some(f) && f.bareName !in visited && AllIn(open, visited)
    requires visited + {f.bareName} <= body.visited
    requires var v := SeeAll(body.events, open + [f.bareName], x);
      && v.open == open + [f.bareName]
      && if Inside(open + [f.bareName], x) then Plays(c, v.own, Plan(f))
         else ShowsNew(c, v.own, body.visited - (visited + {f.bareName}), x)
    ensures var v := SeeAll(FrameEvents(c, f, body.events, kept), open, x);
      && v.open == open
      && if Inside(open, x) then v.own == [CallOf(c, f.bareName)] else ShowsNew(c, v.own, body.visited - visited, x)
  {
    FrameSeen(c, f, body.events, kept, open, x);
    var own := SeeAll(body.events, open + [f.bareName], x).own;
    assert [] + own == own;
    assert (open + [f.bareName])[|open|] == f.bareName;
    assert Inside(open, x) ==> x in visited;
  }

  lemma {:induction false} ItemsShow(c: Program, items: seq<Item>, visited: set<string>, tail: Option<(nat, nat)>,
          handed: Option<i64>, open: seq<string>, x: string)
    requires WellFormed(c) && AllIn(open, visited) && WalkProofs.QuietItems(items) && open != []
    ensures var w := WalkItems(c, items, visited, tail, handed); var v := SeeAll(w.events, open, x);
      && v.open == open
      && if Inside(open, x) then Plays(c, v.own, items) else ShowsNew(c, v.own, w.visited - visited, x)
    decreases Names(c) - visited, |items|
  {
    if items != [] {
      var n := |items| - 1;
      ItemsShow(c, items[..n], visited, tail, handed, open, x);
      var w := WalkItems(c, items[..n], visited, tail, handed);
      match items[n]
      case Emit(e) =>
        EmitShows(c, items, visited, w, open, x);
      case Visit(offset, index, callee) =>
        var now := if tail == Some((offset, index)) then handed else None;
        assert Names(c) - w.visited == Names(c) - visited || Names(c) - w.visited < Names(c) - visited;
        WalkShows(c, callee, w.visited, now, open, x);
        VisitShows(c, items, visited, w, WalkFn(c, callee, w.visited, now), open, x);
    }
  }

  lemma {:induction false} EmitShows(c: Program, items: seq<Item>, visited: set<string>, w: Walked, open: seq<string>,
          x: string)
    requires WellFormed(c) && items != [] && items[|items| - 1].Emit? && WalkProofs.QuietItems(items)
    requires var v := SeeAll(w.events, open, x);
      && v.open == open
      && if Inside(open, x) then Plays(c, v.own, items[..|items| - 1]) else ShowsNew(c, v.own, w.visited - visited, x)
    ensures var v := SeeAll(w.events + [items[|items| - 1].event], open, x);
      && v.open == open
      && if Inside(open, x) then Plays(c, v.own, items) else ShowsNew(c, v.own, w.visited - visited, x)
  {
    var e, own := items[|items| - 1].event, SeeAll(w.events, open, x).own;
    assert (w.events + [e])[..|w.events|] == w.events;
    assert (own + [e])[..|own|] == own;
  }

  lemma {:induction false} VisitShows(c: Program, items: seq<Item>, visited: set<string>, w: Walked, s: Walked,
          open: seq<string>, x: string)
    requires WellFormed(c) && items != [] && items[|items| - 1].Visit? && AllIn(open, visited)
    requires visited <= w.visited <= s.visited
    requires var callee := items[|items| - 1].callee; var v := SeeAll(w.events, open, x);
      var u := SeeAll(s.events, open, x);
      && v.open == open == u.open
      && if Inside(open, x) then
           && Plays(c, v.own, items[..|items| - 1])
           && u.own == (if callee !in w.visited && Find(c.table, callee).Some? then [CallOf(c, callee)] else [])
         else ShowsNew(c, v.own, w.visited - visited, x) && ShowsNew(c, u.own, s.visited - w.visited, x)
    ensures var v := SeeAll(w.events + s.events, open, x);
      && v.open == open
      && if Inside(open, x) then Plays(c, v.own, items) else ShowsNew(c, v.own, s.visited - visited, x)
  {
    var v, u := SeeAll(w.events, open, x), SeeAll(s.events, open, x);
    SeeConcat(w.events, s.events, open, x);
    assert v.own + [] == v.own && [] + u.own == u.own;
    if Inside(open, x) && u.own != [] {
      assert (v.own + u.own)[..|v.own|] == v.own;
    }
  }

  // ---- The plan is the text of the stops ------------------------------------------------

  lemma {:induction false} PlaysSplit(c: Program, own: seq<Event>, a: seq<Item>, b: seq<Item>)
    returns (head: seq<Event>, rest: seq<Event>)
    requires Plays(c, own, a + b)
    ensures own == head + rest && Plays(c, head, a) && Plays(c, rest, b)
    decreases |b|
  {
    if b == [] {
      assert a + b == a;
      head, rest := own, [];
    } else {
      var n := |b| - 1;
      assert (a + b)[..|a + b| - 1] == a + b[..n];
      if b[n].Visit? && Plays(c, own, a + b[..n]) {
        head, rest := PlaysSplit(c, own, a, b[..n]);
      } else {
        var e := own[|own| - 1];
        head, rest := PlaysSplit(c, own[..|own| - 1], a, b[..n]);
        assert (rest + [e])[..|rest|] == rest;
        assert own == head + (rest + [e]);
        rest := rest + [e];
      }
    }
  }

  lemma {:induction false} PlaysEmits(c: Program, own: seq<Event>, ev: seq<Event>)
    requires Plays(c, own, Emits(ev))
    ensures own == ev
  {
    if ev != [] {
      var n := |ev| - 1;
      assert Emits(ev)[..n] == Emits(ev[..n]);
      PlaysEmits(c, own[..|own| - 1], ev[..n]);
    }
  }

  lemma {:induction false} PlaysVisits(c: Program, own: seq<Event>, offset: nat, callees: seq<string>)
    requires Plays(c, own, Visits(offset, callees))
    ensures ShowsCalls(c, own, callees)
  {
    if callees != [] {
      var n := |callees| - 1;
      assert Visits(offset, callees)[..n] == Visits(offset, callees[..n]);
      if Plays(c, own, Visits(offset, callees[..n])) {
        PlaysVisits(c, own, offset, callees[..n]);
      } else {
        PlaysVisits(c, own[..|own| - 1], offset, callees[..n]);
      }
    }
  }

  lemma {:induction false} LineShows(f: FunctionEntry, offset: nat, first: bool)
    requires offset < |f.lines|
    ensures var line := f.lines[offset];
      ShowsLine(LineEvents(f, offset, first), f.startLine + offset, line.columns,
                (if first then f.entryVars else []) + line.vars)
  {
  }

  // Putting one stop's text before the text of those that follow.
  lemma {:induction false} StopFirst(c: Program, f: FunctionEntry, head: seq<Event>, rest: seq<Event>, stop: Stop,
          stops: seq<Stop>, before: bool)
    requires ShowsStop(c, f, head, stop, before) && ShowsStops(c, f, rest, stops, before && stop.AtLoop?)
    ensures ShowsStops(c, f, head + rest, [stop] + stops, before)
  {
    assert ([stop] + stops)[1..] == stops;
  }

  lemma {:induction false} PlanShows(c: Program, f: FunctionEntry, offset: nat, env: Env, first: bool, own: seq<Event>)
    requires WellFormedEntry(f) && Plays(c, own, PlanFrom(f, offset, env, first))
    ensures ShowsStops(c, f, own, Stops(f, offset, env), first)
    decreases |f.lines| - offset
  {
    if offset < |f.lines| {
      var run := LoopRun(f, offset, env);
      if run.Some? {
        LoopPlays(c, f, offset, env, first, own, run.value.0, run.value.1, run.value.2);
      } else if f.lines[offset].blank {
        PlanShows(c, f, offset + 1, env, first, own);
      } else {
        LinePlays(c, f, offset, env, first, own);
      }
    }
  }

  lemma {:induction false} StopsAtLoop(f: FunctionEntry, offset: nat, env: Env, wl: WhileLoop,
          ev: seq<Event>, env': Env)
    requires WellFormedEntry(f) && offset < |f.lines| && LoopRun(f, offset, env) == Some((wl, ev, env'))
    ensures f.startLine + offset < wl.closingLine
    ensures Stops(f, offset, env) == [AtLoop(wl, env)] + Stops(f, wl.closingLine - f.startLine + 1, env')
    ensures ev == Runs(wl, env, 1000).events
  {
    SimulationRuns(wl, env, MAX_ITERS);
  }

  lemma {:induction false} LoopPlays(c: Program, f: FunctionEntry, offset: nat, env: Env, first: bool, own: seq<Event>,
          wl: WhileLoop, ev: seq<Event>, env': Env)
    requires WellFormedEntry(f) && offset < |f.lines| && LoopRun(f, offset, env) == Some((wl, ev, env'))
    requires Plays(c, own, PlanFrom(f, offset, env, first))
    ensures ShowsStops(c, f, own, Stops(f, offset, env), first)
    decreases |f.lines| - offset, 0
  {
    StopsAtLoop(f, offset, env, wl, ev, env');
    var next := wl.closingLine - f.startLine + 1;
    var head, rest := PlaysSplit(c, own, Emits(ev), PlanFrom(f, next, env', first));
    PlaysEmits(c, head, ev);
    PlanShows(c, f, next, env', first, rest);
    StopFirst(c, f, head, rest, AtLoop(wl, env), Stops(f, next, env'), first);
  }

  lemma {:induction false} LineStop(c: Program, f: FunctionEntry, offset: nat, first: bool, head: seq<Event>)
    requires offset < |f.lines|
    requires Plays(c, head, Emits(LineEvents(f, offset, first)) + Visits(offset, f.lines[offset].callees))
    ensures ShowsStop(c, f, head, AtLine(offset), first)
  {
    var ev, vs := Emits(LineEvents(f, offset, first)), Visits(offset, f.lines[offset].callees);
    var shown, calls := PlaysSplit(c, head, ev, vs);
    PlaysEmits(c, shown, LineEvents(f, offset, first));
    LineShows(f, offset, first);
    PlaysVisits(c, calls, offset, f.lines[offset].callees);
  }

  lemma {:induction false} StopsAtLine(f: FunctionEntry, offset: nat, env: Env)
    requires WellFormedEntry(f) && offset < |f.lines| && LoopRun(f, offset, env) == None && !f.lines[offset].blank
    ensures Stops(f, offset, env) == [AtLine(offset)] + Stops(f, offset + 1, AfterInit(f.lines[offset], env))
  {
  }

  lemma {:induction false} LinePlays(c: Program, f: FunctionEntry, offset: nat, env: Env, first: bool, own: seq<Event>)
    requires WellFormedEntry(f) && offset < |f.lines| && LoopRun(f, offset, env) == None && !f.lines[offset].blank
    requires Plays(c, own, PlanFrom(f, offset, env, first))
    ensures ShowsStops(c, f, own, Stops(f, offset, env), first)
    decreases |f.lines| - offset, 0
  {
    var env' := AfterInit(f.lines[offset], env);
    var here := Emits(LineEvents(f, offset, first)) + Visits(offset, f.lines[offset].callees);
    var head, rest := PlaysSplit(c, own, here, PlanFrom(f, offset + 1, env', false));
    LineStop(c, f, offset, first, head);
    PlanShows(c, f, offset + 1, env', false, rest);
    StopFirst(c, f, head, rest, AtLine(offset), Stops(f, offset + 1, env'), first);
    StopsAtLine(f, offset, env);
  }

  // ---- A whole trace --------------------------------------------------------------------

  // A function's frame shows exactly its stops.
  ghost predicate ShowsFunction(c: Program, ev: seq<Event>, x: string)
    requires WellFormed(c) && Find(c.table, x).Some?
  {
    var f := Find(c.table, x).value;
    ShowsStops(c, f, SeeAll(ev, [], x).own, Stops(f, 0, map[]), true)
  }

  // Every function of `news` shows its stops in `ev`.
  ghost predicate AllShow(c: Program, ev: seq<Event>, news: set<string>)
    requires WellFormed(c)
  {
    forall x {:trigger ShowsFunction(c, ev, x)} :: x in news && Find(c.table, x).Some? ==> ShowsFunction(c, ev, x)
  }

  // Every function a walk enters for the first time shows its stops, whatever was visited before.
  lemma {:induction false} EnteredShow(c: Program, name: string, visited: set<string>, pending: Option<i64>)
    requires WellFormed(c)
    ensures var w := WalkFn(c, name, visited, pending); AllShow(c, w.events, w.visited - visited)
  {
    var w := WalkFn(c, name, visited, pending);
    forall x | x in w.visited - visited && Find(c.table, x).Some? ensures ShowsFunction(c, w.events, x) {
      WalkShows(c, name, visited, pending, [], x);
      PlanShows(c, Find(c.table, x).value, 0, map[], true, SeeAll(w.events, [], x).own);
    }
  }

  lemma {:induction false} RootFirst(c: Program, root: string, pending: Option<i64>)
    requires WellFormed(c) && Find(c.table, root).Some?
    ensures var ev := WalkFn(c, root, {}, pending).events; |ev| > 0 && IsCallOf(c, ev[0], root)
  {
  }
}
