// The source tracer's depth-first walk over a program's functions (src/tracer.rs): what
// it writes, as a function of the function table.
module SourceWalk {
  import opened Common
  import opened Expressions
  import opened WhileLoops

  // One body line: whether it is blank or a lone brace, its statement columns, the integer
  // initialiser and the variables it declares, and the functions it calls.
  datatype SourceLine = SourceLine(
    blank: bool, columns: seq<nat>, init: Option<(string, i64)>, vars: seq<(string, Value)>, callees: seq<string>)

  // `entryVars` are the reference parameters shown at the first step of the body.
  datatype FunctionEntry = FunctionEntry(
    bareName: string, fullName: string, startLine: nat, lines: seq<SourceLine>,
    loops: seq<WhileLoop>, entryVars: seq<(string, Value)>)

  datatype Program = Program(table: seq<FunctionEntry>, returnValues: map<string, Option<i64>>)

  // Recognised loops lie inside the function and close after they open.
  ghost predicate WellFormedEntry(f: FunctionEntry) {
    forall i :: 0 <= i < |f.loops| ==>
      f.startLine <= f.loops[i].headerLine < f.loops[i].closingLine
  }

  ghost predicate WellFormed(c: Program) {
    forall i :: 0 <= i < |c.table| ==> WellFormedEntry(c.table[i])
  }

  function Find(table: seq<FunctionEntry>, name: string): (r: Option<FunctionEntry>)
    ensures r.Some? ==> r.value in table && r.value.bareName == name
    ensures r.None? ==> forall i :: 0 <= i < |table| ==> table[i].bareName != name
  {
    if table == [] then None
    else if table[0].bareName == name then Some(table[0])
    else Find(table[1..], name)
  }

  function Names(c: Program): set<string> {
    set f | f in c.table :: f.bareName
  }

  function LoopAt(loops: seq<WhileLoop>, line: nat): (r: Option<WhileLoop>)
    ensures r.Some? ==> r.value in loops && r.value.headerLine == line
  {
    if loops == [] then None
    else if loops[0].headerLine == line then Some(loops[0])
    else LoopAt(loops[1..], line)
  }

  // ----- what a body does, line by line: events to write and callees to visit

  datatype Item = Emit(event: Event) | Visit(offset: nat, index: nat, callee: string)

  function Emits(ev: seq<Event>): (r: seq<Item>)
    ensures |r| == |ev| && forall i :: 0 <= i < |r| ==> r[i] == Emit(ev[i])
  {
    seq(|ev|, i requires 0 <= i < |ev| => Emit(ev[i]))
  }

  function Visits(offset: nat, callees: seq<string>): (r: seq<Item>)
    ensures |r| == |callees| && forall i :: 0 <= i < |r| ==> r[i] == Visit(offset, i, callees[i])
  {
    seq(|callees|, i requires 0 <= i < |callees| => Visit(offset, i, callees[i]))
  }

  function StepEvents(line: nat, columns: seq<nat>): (r: seq<Event>)
    ensures |r| == |columns| && forall i :: 0 <= i < |r| ==> r[i] == Step(line, Some(columns[i]))
  {
    seq(|columns|, i requires 0 <= i < |columns| => Step(line, Some(columns[i])))
  }

  function VarEvents(vars: seq<(string, Value)>): (r: seq<Event>)
    ensures |r| == |vars| && forall i :: 0 <= i < |r| ==> r[i] == Variable(vars[i].0, vars[i].1)
  {
    seq(|vars|, i requires 0 <= i < |vars| => Variable(vars[i].0, vars[i].1))
  }

  function LineEvents(f: FunctionEntry, offset: nat, first: bool): seq<Event>
    requires offset < |f.lines|
  {
    var line := f.lines[offset];
    StepEvents(f.startLine + offset, line.columns) +
    VarEvents(if first then f.entryVars else []) + VarEvents(line.vars)
  }

  function AfterInit(line: SourceLine, env: Env): Env {
    if line.init.Some? then env[line.init.value.0 := line.init.value.1] else env
  }

  // The loop that opens at `offset` and simulates, with what it writes and leaves.
  function LoopRun(f: FunctionEntry, offset: nat, env: Env): Option<(WhileLoop, seq<Event>, Env)> {
    match LoopAt(f.loops, f.startLine + offset)
    case None => None
    case Some(wl) =>
      match Simulated(wl, env)
      case None => None
      case Some((ev, env')) => Some((wl, ev, env'))
  }

  // From `offset` on. A simulated loop's lines are written by the simulator and skipped.
  function PlanFrom(f: FunctionEntry, offset: nat, env: Env, first: bool): seq<Item>
    requires WellFormedEntry(f)
    decreases |f.lines| - offset
  {
    if offset >= |f.lines| then []
    else
      var run := LoopRun(f, offset, env);
      if run.Some? then
        var (wl, ev, env') := run.value;
        Emits(ev) + PlanFrom(f, wl.closingLine - f.startLine + 1, env', first)
      else
        var line := f.lines[offset];
        if line.blank then PlanFrom(f, offset + 1, env, first)
        else
          Emits(LineEvents(f, offset, first)) + Visits(offset, line.callees) +
          PlanFrom(f, offset + 1, AfterInit(line, env), false)
  }

  function Plan(f: FunctionEntry): seq<Item>
    requires WellFormedEntry(f)
  {
    PlanFrom(f, 0, map[], true)
  }

  // ----- which call inherits the synthetic return value

  predicate Recursable(f: FunctionEntry, visited: set<string>, callee: string) {
    callee != f.bareName && callee !in visited
  }

  function LastRecursable(f: FunctionEntry, visited: set<string>, callees: seq<string>): (r: Option<nat>)
    ensures r.Some? ==> r.value < |callees|
  {
    if callees == [] then None
    else
      var n := |callees| - 1;
      if Recursable(f, visited, callees[n]) then Some(n) else LastRecursable(f, visited, callees[..n])
  }

  // The last call below `hi` into a function not visited yet.
  function TailCall(f: FunctionEntry, visited: set<string>, hi: nat): Option<(nat, nat)>
    requires hi <= |f.lines|
  {
    if hi == 0 then None
    else
      match LastRecursable(f, visited, f.lines[hi - 1].callees)
      case Some(i) => Some((hi - 1, i))
      case None => TailCall(f, visited, hi - 1)
  }

  // Whether a line worth a step follows the tail call.
  predicate HasPostStep(f: FunctionEntry, tail: Option<(nat, nat)>) {
    exists k :: 0 <= k < |f.lines| && (tail.Some? ==> k > tail.value.0) && !f.lines[k].blank
  }

  // ----- the walk

  datatype Walked = Walked(events: seq<Event>, visited: set<string>)

  function ReturnOf(c: Program, name: string): Option<i64> {
    if name in c.returnValues then c.returnValues[name] else None
  }

  ghost function WalkFn(c: Program, name: string, visited: set<string>, pending: Option<i64>): (r: Walked)
    requires WellFormed(c)
    ensures visited <= r.visited && name in r.visited
    decreases Names(c) - visited, 0
  {
    if name in visited then Walked([], visited)
    else
      var visited' := visited + {name};
      var found := Find(c.table, name);
      if found == None then Walked([], visited')
      else
        var f := found.value;
        assert f.bareName in Names(c);
        var tail := TailCall(f, visited', |f.lines|);
        var post := HasPostStep(f, tail);
        var body := WalkItems(c, Plan(f), visited', tail, if post then None else pending);
        Walked(FrameEvents(c, f, body.events, if post then pending else None), body.visited)
  }

  // One frame: its call, its body, the synthetic value it keeps, its return.
  ghost function FrameEvents(c: Program, f: FunctionEntry, body: seq<Event>, kept: Option<i64>): seq<Event> {
    [Call(f.bareName, f.fullName, f.startLine)] + body +
    (if kept.Some? then [ReturnValue(kept.value), Return(ReturnOf(c, f.bareName))]
     else [Return(ReturnOf(c, f.bareName))])
  }

  // The items in order; only the tail call is handed the synthetic value.
  ghost function WalkItems(c: Program, items: seq<Item>, visited: set<string>, tail: Option<(nat, nat)>,
          handed: Option<i64>): (r: Walked)
    requires WellFormed(c)
    ensures visited <= r.visited
    decreases Names(c) - visited, |items|
  {
    if items == [] then Walked([], visited)
    else
      var n := |items| - 1;
      var w := WalkItems(c, items[..n], visited, tail, handed);
      match items[n]
      case Emit(e) => Walked(w.events + [e], w.visited)
      case Visit(offset, index, callee) =>
        assert Names(c) - w.visited == Names(c) - visited || Names(c) - w.visited < Names(c) - visited;
        var s := WalkFn(c, callee, w.visited, if tail == Some((offset, index)) then handed else None);
        Walked(w.events + s.events, s.visited)
  }
}
