// The while-loop simulator (src/tracer.rs), against the iteration of the loop's body.
module WhileLoops {
  import opened Common
  import opened Expressions

  datatype Value = Int(i: i64) | Compound(text: string)

  // What the source tracer writes. `ReturnValue` is the synthetic `return_value` variable.
  datatype Event =
    | Call(name: string, fullName: string, line: nat)
    | Step(line: nat, column: Option<nat>)
    | Variable(name: string, value: Value)
    | ReturnValue(returned: i64)
    | Return(result: Option<i64>)

  datatype Statement = Statement(target: string, rhs: Expr)

  datatype WhileLoop = WhileLoop(
    headerLine: nat, bodyStartLine: nat, closingLine: nat, condition: Expr, body: seq<Option<Statement>>)

  const MAX_ITERS: nat := 1000

  // ----- one execution of the body

  function Assigned(stmt: Option<Statement>, env: Env): Option<i64> {
    match stmt
    case None => None
    case Some(s) => Eval(s.rhs, env)
  }

  function LineEnv(stmt: Option<Statement>, env: Env): Env {
    var v := Assigned(stmt, env);
    if v.Some? then env[stmt.value.target := v.value] else env
  }

  function StatementEvents(line: nat, stmt: Option<Statement>, env: Env): seq<Event> {
    var v := Assigned(stmt, env);
    [Step(line, None)] + if v.Some? then [Variable(stmt.value.target, Int(v.value))] else []
  }

  // The environment after the first `n` body lines.
  function BodyEnv(body: seq<Option<Statement>>, env: Env, n: nat): Env
    requires n <= |body|
  {
    if n == 0 then env else LineEnv(body[n - 1], BodyEnv(body, env, n - 1))
  }

  function BodyEvents(wl: WhileLoop, env: Env, n: nat): seq<Event>
    requires n <= |wl.body|
  {
    if n == 0 then []
    else
      BodyEvents(wl, env, n - 1) +
      StatementEvents(wl.bodyStartLine + n - 1, wl.body[n - 1], BodyEnv(wl.body, env, n - 1))
  }

  // ----- the loop's meaning: the body iterated

  function EnvAfter(wl: WhileLoop, env: Env, k: nat): Env {
    if k == 0 then env else BodyEnv(wl.body, EnvAfter(wl, env, k - 1), |wl.body|)
  }

  function CondAt(wl: WhileLoop, env: Env, k: nat): Option<i64> {
    Eval(wl.condition, EnvAfter(wl, env, k))
  }

  // The loop stops after exactly `n` iterations.
  ghost predicate HaltsAfter(wl: WhileLoop, env: Env, n: nat) {
    CondAt(wl, env, n) == Some(0) && forall k :: 0 <= k < n ==> CondAt(wl, env, k) != Some(0)
  }

  function Header(wl: WhileLoop): Event {
    Step(wl.headerLine, None)
  }

  // `k` iterations: the header, then the body lines in order.
  function Rounds(wl: WhileLoop, env: Env, k: nat): seq<Event> {
    if k == 0 then []
    else Rounds(wl, env, k - 1) + [Header(wl)] + BodyEvents(wl, EnvAfter(wl, env, k - 1), |wl.body|)
  }

  // The iteration the simulator stops at: the first false condition, or the cap.
  function StopsAt(wl: WhileLoop, env: Env, from: nat, cap: nat): (n: nat)
    requires from <= cap
    ensures from <= n <= cap
    ensures forall k :: from <= k < n ==> CondAt(wl, env, k) != Some(0)
    ensures n < cap ==> CondAt(wl, env, n) == Some(0)
    decreases cap - from, wl
  {
    if from == cap || CondAt(wl, env, from) == Some(0) then from else StopsAt(wl, env, from + 1, cap)
  }

  // What a simulator capped at `cap` iterations writes, and the environment it leaves;
  // `None` when it declines.
  function SimulatedUpTo(wl: WhileLoop, env: Env, cap: nat): Option<(seq<Event>, Env)> {
    if Eval(wl.condition, env) == None then None
    else
      var n := StopsAt(wl, env, 0, cap);
      var rounds := Rounds(wl, env, n);
      Some((if n < cap then rounds + [Header(wl)] else rounds, EnvAfter(wl, env, n)))
  }

  function Simulated(wl: WhileLoop, env: Env): Option<(seq<Event>, Env)> {
    SimulatedUpTo(wl, env, MAX_ITERS)
  }

  // ----- no binding is ever removed, so an evaluable condition stays evaluable

  lemma {:induction false} BodyKeepsBindings(body: seq<Option<Statement>>, env: Env, n: nat)
    requires n <= |body|
    ensures env.Keys <= BodyEnv(body, env, n).Keys
  {
    if n > 0 {
      BodyKeepsBindings(body, env, n - 1);
    }
  }

  lemma {:induction false} CondStaysEvaluable(wl: WhileLoop, env: Env, k: nat)
    requires Eval(wl.condition, env).Some?
    ensures env.Keys <= EnvAfter(wl, env, k).Keys && CondAt(wl, env, k).Some?
  {
    if k > 0 {
      CondStaysEvaluable(wl, env, k - 1);
      BodyKeepsBindings(wl.body, EnvAfter(wl, env, k - 1), |wl.body|);
    }
    EvaluableIffBound(wl.condition, env);
    EvaluableIffBound(wl.condition, EnvAfter(wl, env, k));
  }

  // ----- how often each line is stepped on

  function StepsOn(ev: seq<Event>, line: nat): nat {
    if ev == [] then 0
    else StepsOn(ev[..|ev| - 1], line) + if ev[|ev| - 1] == Step(line, None) then 1 else 0
  }

  lemma {:induction false} StepsOnConcat(a: seq<Event>, b: seq<Event>, line: nat)
    ensures StepsOn(a + b, line) == StepsOn(a, line) + StepsOn(b, line)
    decreases |b|
  {
    if b == [] {
      assert a + b == a;
    } else {
      assert (a + b)[..|a + b| - 1] == a + b[..|b| - 1];
      StepsOnConcat(a, b[..|b| - 1], line);
    }
  }

  lemma {:induction false} LineSteps(at: nat, stmt: Option<Statement>, env: Env, line: nat)
    ensures StepsOn(StatementEvents(at, stmt, env), line) == if line == at then 1 else 0
  {
    assert StepsOn([], line) == 0;
    assert StepsOn([Step(at, None)], line) == if line == at then 1 else 0;
    var v := Assigned(stmt, env);
    if v.Some? {
      StepsOnConcat([Step(at, None)], [Variable(stmt.value.target, Int(v.value))], line);
      assert StepsOn([Variable(stmt.value.target, Int(v.value))], line) == 0;
    }
  }

  lemma {:induction false} OneMoreLine(wl: WhileLoop, env: Env, n: nat, line: nat)
    requires n < |wl.body|
    ensures StepsOn(BodyEvents(wl, env, n + 1), line) ==
      StepsOn(BodyEvents(wl, env, n), line) + if line == wl.bodyStartLine + n then 1 else 0
  {
    var e := BodyEnv(wl.body, env, n);
    LineSteps(wl.bodyStartLine + n, wl.body[n], e, line);
    StepsOnConcat(BodyEvents(wl, env, n), StatementEvents(wl.bodyStartLine + n, wl.body[n], e), line);
  }

  lemma {:induction false} BodySteps(wl: WhileLoop, env: Env, n: nat, line: nat)
    requires n <= |wl.body|
    ensures StepsOn(BodyEvents(wl, env, n), line) ==
      if wl.bodyStartLine <= line < wl.bodyStartLine + n then 1 else 0
  {
    if n == 0 {
      assert BodyEvents(wl, env, n) == [];
    } else {
      var m := n - 1;
      BodySteps(wl, env, m, line);
      OneMoreLine(wl, env, m, line);
      assert m + 1 == n;
    }
  }

  lemma {:induction false} RoundSteps(wl: WhileLoop, env: Env, k: nat, line: nat)
    requires wl.headerLine < wl.bodyStartLine
    ensures StepsOn(Rounds(wl, env, k), line) ==
      if line == wl.headerLine || wl.bodyStartLine <= line < wl.bodyStartLine + |wl.body| then k else 0
  {
    if k > 0 {
      var before, body := Rounds(wl, env, k - 1), BodyEvents(wl, EnvAfter(wl, env, k - 1), |wl.body|);
      RoundSteps(wl, env, k - 1, line);
      BodySteps(wl, EnvAfter(wl, env, k - 1), |wl.body|, line);
      StepsOnConcat(before, [Header(wl)], line);
      StepsOnConcat(before + [Header(wl)], body, line);
      assert StepsOn([], line) == 0;
      assert StepsOn([Header(wl)], line) == if line == wl.headerLine then 1 else 0;
    }
  }

  lemma {:induction false} RoundStepsAll(wl: WhileLoop, env: Env, k: nat)
    requires wl.headerLine < wl.bodyStartLine
    ensures StepsOn(Rounds(wl, env, k), wl.headerLine) == k
    ensures forall line: nat :: wl.bodyStartLine <= line < wl.bodyStartLine + |wl.body| ==>
      StepsOn(Rounds(wl, env, k), line) == k
  {
    RoundSteps(wl, env, k, wl.headerLine);
    forall line: nat | wl.bodyStartLine <= line < wl.bodyStartLine + |wl.body|
      ensures StepsOn(Rounds(wl, env, k), line) == k
    {
      RoundSteps(wl, env, k, line);
    }
  }

  // A loop that halts within the cap is replayed exactly: its iterations, one header step
  // more, every body line once an iteration, and the environment the loop computes.
  lemma {:induction false} SimulationOfHaltingLoop(wl: WhileLoop, env: Env, n: nat, cap: nat)
    requires HaltsAfter(wl, env, n) && n < cap && Eval(wl.condition, env).Some?
    requires wl.headerLine < wl.bodyStartLine
    ensures SimulatedUpTo(wl, env, cap).Some?
    ensures var (ev, env') := SimulatedUpTo(wl, env, cap).value;
      && env' == EnvAfter(wl, env, n)
      && ev == Rounds(wl, env, n) + [Header(wl)]
      && StepsOn(ev, wl.headerLine) == n + 1
      && forall line: nat :: wl.bodyStartLine <= line < wl.bodyStartLine + |wl.body| ==> StepsOn(ev, line) == n
  {
    assert StopsAt(wl, env, 0, cap) == n;
    forall line: nat
      ensures StepsOn(Rounds(wl, env, n) + [Header(wl)], line) ==
        StepsOn(Rounds(wl, env, n), line) + if line == wl.headerLine then 1 else 0
    {
      StepsOnConcat(Rounds(wl, env, n), [Header(wl)], line);
      assert StepsOn([], line) == 0;
      assert StepsOn([Header(wl)], line) == if line == wl.headerLine then 1 else 0;
    }
    RoundStepsAll(wl, env, n);
  }

  // Every other loop whose condition evaluates is cut at the cap: exactly that many
  // headers and bodies.
  lemma {:induction false} SimulationOfLongLoop(wl: WhileLoop, env: Env, cap: nat)
    requires forall n :: 0 <= n < cap ==> !HaltsAfter(wl, env, n)
    requires Eval(wl.condition, env).Some? && wl.headerLine < wl.bodyStartLine
    ensures SimulatedUpTo(wl, env, cap).Some?
    ensures var (ev, env') := SimulatedUpTo(wl, env, cap).value;
      && env' == EnvAfter(wl, env, cap)
      && ev == Rounds(wl, env, cap)
      && StepsOn(ev, wl.headerLine) == cap
      && forall line: nat :: wl.bodyStartLine <= line < wl.bodyStartLine + |wl.body| ==> StepsOn(ev, line) == cap
  {
    StopsAtCap(wl, env, cap);
    var ev := Rounds(wl, env, cap);
    RoundStepsAll(wl, env, cap);
    assert SimulatedUpTo(wl, env, cap) == Some((ev, EnvAfter(wl, env, cap)));
  }

  lemma {:induction false} StopsAtCap(wl: WhileLoop, env: Env, cap: nat)
    requires forall n :: 0 <= n < cap ==> !HaltsAfter(wl, env, n)
    ensures StopsAt(wl, env, 0, cap) == cap
  {
    var m := StopsAt(wl, env, 0, cap);
    assert m < cap ==> HaltsAfter(wl, env, m);
  }

  // ----- the same, run from the front

  datatype Ran = Ran(events: seq<Event>, env: Env)

  // The lines of a body one after the other, each with its step, and with its variable when it assigns a
  // value.
  function Lines(body: seq<Option<Statement>>, line: nat, env: Env): Ran {
    if body == [] then Ran([], env)
    else if body[0].Some? && Eval(body[0].value.rhs, env).Some? then
      var x, v := body[0].value.target, Eval(body[0].value.rhs, env).value;
      var rest := Lines(body[1..], line + 1, env[x := v]);
      Ran([Step(line, None), Variable(x, Int(v))] + rest.events, rest.env)
    else
      var rest := Lines(body[1..], line + 1, env);
      Ran([Step(line, None)] + rest.events, rest.env)
  }

  // At most `fuel` iterations: the header's step, and unless the condition is zero, the body and the rest.
  function Runs(wl: WhileLoop, env: Env, fuel: nat): Ran
    decreases fuel, wl
  {
    if fuel == 0 || Eval(wl.condition, env) == None then Ran([], env)
    else if Eval(wl.condition, env) == Some(0) then Ran([Step(wl.headerLine, None)], env)
    else
      var pass := Lines(wl.body, wl.bodyStartLine, env);
      var rest := Runs(wl, pass.env, fuel - 1);
      Ran([Step(wl.headerLine, None)] + pass.events + rest.events, rest.env)
  }

  // What was written before, then what a run from here on writes.
  function Before(ev: seq<Event>, r: Ran): Ran {
    Ran(ev + r.events, r.env)
  }

  lemma {:induction false} LinesOnward(wl: WhileLoop, env: Env, n: nat)
    requires n <= |wl.body|
    ensures Before(BodyEvents(wl, env, n), Lines(wl.body[n..], wl.bodyStartLine + n, BodyEnv(wl.body, env, n))) ==
      Lines(wl.body, wl.bodyStartLine, env)
  {
    if n == 0 {
      assert wl.body[n..] == wl.body;
      assert [] + Lines(wl.body, wl.bodyStartLine, env).events == Lines(wl.body, wl.bodyStartLine, env).events;
    } else {
      var k := n - 1;
      LinesOnward(wl, env, k);
      LineOnward(wl.body[k..], wl.bodyStartLine + k, BodyEnv(wl.body, env, k), BodyEvents(wl, env, k));
      assert wl.body[k..][1..] == wl.body[n..];
    }
  }

  lemma {:induction false} LineOnward(body: seq<Option<Statement>>, line: nat, env: Env, ev: seq<Event>)
    requires body != []
    ensures Before(ev + StatementEvents(line, body[0], env), Lines(body[1..], line + 1, LineEnv(body[0], env))) ==
      Before(ev, Lines(body, line, env))
  {
    var rest := Lines(body[1..], line + 1, LineEnv(body[0], env)).events;
    Regroup(ev, StatementEvents(line, body[0], env), rest, []);
    if Assigned(body[0], env).Some? {
      assert [Step(line, None)] + [Variable(body[0].value.target, Int(Assigned(body[0], env).value))] ==
        [Step(line, None), Variable(body[0].value.target, Int(Assigned(body[0], env).value))];
    } else {
      assert [Step(line, None)] + [] == [Step(line, None)];
    }
  }

  lemma {:induction false} BodyIsLines(wl: WhileLoop, env: Env)
    ensures Lines(wl.body, wl.bodyStartLine, env) ==
      Ran(BodyEvents(wl, env, |wl.body|), BodyEnv(wl.body, env, |wl.body|))
  {
    LinesOnward(wl, env, |wl.body|);
    assert wl.body[|wl.body|..] == [];
    assert BodyEvents(wl, env, |wl.body|) + [] == BodyEvents(wl, env, |wl.body|);
  }

  // Before it stops, a run is its first rounds and the run that follows them.
  lemma {:induction false} RunsOnward(wl: WhileLoop, env: Env, k: nat, cap: nat)
    requires k <= cap && Eval(wl.condition, env).Some? && forall j :: 0 <= j < k ==> CondAt(wl, env, j) != Some(0)
    ensures Before(Rounds(wl, env, k), Runs(wl, EnvAfter(wl, env, k), cap - k)) == Runs(wl, env, cap)
  {
    if k == 0 {
      assert [] + Runs(wl, env, cap).events == Runs(wl, env, cap).events;
    } else {
      RunsOnward(wl, env, k - 1, cap);
      CondStaysEvaluable(wl, env, k - 1);
      assert CondAt(wl, env, k - 1) != Some(0);
      OneRoundOnward(wl, env, k - 1, cap - k);
    }
  }

  lemma {:induction false} OneRoundOnward(wl: WhileLoop, env: Env, j: nat, fuel: nat)
    requires CondAt(wl, env, j).Some? && CondAt(wl, env, j) != Some(0)
    ensures Before(Rounds(wl, env, j + 1), Runs(wl, EnvAfter(wl, env, j + 1), fuel)) ==
      Before(Rounds(wl, env, j), Runs(wl, EnvAfter(wl, env, j), fuel + 1))
  {
    var now := EnvAfter(wl, env, j);
    BodyIsLines(wl, now);
    RoundOnward(wl, now, Rounds(wl, env, j), fuel);
  }

  lemma {:induction false} RoundOnward(wl: WhileLoop, env: Env, ev: seq<Event>, fuel: nat)
    requires Eval(wl.condition, env).Some? && Eval(wl.condition, env) != Some(0)
    ensures var pass := Lines(wl.body, wl.bodyStartLine, env);
      Before(ev + [Header(wl)] + pass.events, Runs(wl, pass.env, fuel)) == Before(ev, Runs(wl, env, fuel + 1))
  {
    var pass := Lines(wl.body, wl.bodyStartLine, env);
    var rest := Runs(wl, pass.env, fuel).events;
    assert ev + [Header(wl)] + pass.events + rest == ev + ([Header(wl)] + pass.events + rest);
  }

  // The simulation is that run.
  lemma {:induction false} SimulationRuns(wl: WhileLoop, env: Env, cap: nat)
    requires Eval(wl.condition, env).Some?
    ensures SimulatedUpTo(wl, env, cap) == Some((Runs(wl, env, cap).events, Runs(wl, env, cap).env))
  {
    var n := StopsAt(wl, env, 0, cap);
    RunsOnward(wl, env, n, cap);
    CondStaysEvaluable(wl, env, n);
    if n < cap {
      assert Runs(wl, EnvAfter(wl, env, n), cap - n) == Ran([Header(wl)], EnvAfter(wl, env, n));
    } else {
      assert Rounds(wl, env, n) + [] == Rounds(wl, env, n);
    }
  }

  // ----- the simulator as it runs

  class TraceLog {
    var events: seq<Event>

    constructor ()
      ensures events == []
    {
      events := [];
    }

    method Write(e: Event)
      modifies this
      ensures events == old(events) + [e]
    {
      events := events + [e];
    }
  }

  method SimulateWhileLoop(w: TraceLog, wl: WhileLoop, env0: Env) returns (ran: bool, env: Env)
    modifies w
    ensures ran <==> Simulated(wl, env0).Some?
    ensures ran ==> w.events == old(w.events) + Simulated(wl, env0).value.0 && env == Simulated(wl, env0).value.1
    ensures !ran ==> w.events == old(w.events) && env == env0
    ensures ran <==> Vars(wl.condition) <= env0.Keys
    ensures ran ==> w.events == old(w.events) + Runs(wl, env0, 1000).events && env == Runs(wl, env0, 1000).env
  {
    ran, env := SimulateUpTo(w, wl, env0, MAX_ITERS);
    EvaluableIffBound(wl.condition, env0);
    if ran {
      SimulationRuns(wl, env0, MAX_ITERS);
    }
  }

  method SimulateUpTo(w: TraceLog, wl: WhileLoop, env0: Env, cap: nat) returns (ran: bool, env: Env)
    requires cap > 0
    modifies w
    ensures ran <==> SimulatedUpTo(wl, env0, cap).Some?
    ensures ran ==>
      w.events == old(w.events) + SimulatedUpTo(wl, env0, cap).value.0 && env == SimulatedUpTo(wl, env0, cap).value.1
    ensures !ran ==> w.events == old(w.events) && env == env0
  {
    env := env0;
    if Eval(wl.condition, env) == None {
      return false, env;
    }
    ran := true;
    var iters: nat := 0;
    while true
      invariant iters < cap && ran
      invariant env == EnvAfter(wl, env0, iters)
      invariant StopsAt(wl, env0, iters, cap) == StopsAt(wl, env0, 0, cap)
      invariant w.events == old(w.events) + Rounds(wl, env0, iters)
      decreases cap - iters
    {
      CondStaysEvaluable(wl, env0, iters);
      var cond := Eval(wl.condition, env);
      w.Write(Header(wl));
      if cond.value == 0 {
        Regroup(old(w.events), Rounds(wl, env0, iters), [Header(wl)], []);
        break;
      }
      Regroup(old(w.events), Rounds(wl, env0, iters), [Header(wl)], BodyEvents(wl, env, |wl.body|));
      env := RunBody(w, wl, env);
      iters := iters + 1;
      if iters >= cap {
        break;
      }
    }
  }

  lemma {:induction false} Regroup(a: seq<Event>, b: seq<Event>, c: seq<Event>, d: seq<Event>)
    ensures a + b + c == a + (b + c)
    ensures a + b + c + d == a + (b + c + d)
  {
  }

  method RunBody(w: TraceLog, wl: WhileLoop, env0: Env) returns (env: Env)
    modifies w
    ensures w.events == old(w.events) + BodyEvents(wl, env0, |wl.body|)
    ensures env == BodyEnv(wl.body, env0, |wl.body|)
    ensures Ran(w.events, env) == Before(old(w.events), Lines(wl.body, wl.bodyStartLine, env0))
  {
    env := env0;
    var i := 0;
    while i < |wl.body|
      invariant 0 <= i <= |wl.body|
      invariant env == BodyEnv(wl.body, env0, i)
      invariant w.events == old(w.events) + BodyEvents(wl, env0, i)
    {
      w.Write(Step(wl.bodyStartLine + i, None));
      if wl.body[i].Some? {
        var s := wl.body[i].value;
        var v := Eval(s.rhs, env);
        if v.Some? {
          env := env[s.target := v.value];
          w.Write(Variable(s.target, Int(v.value)));
        }
      }
      i := i + 1;
    }
    BodyIsLines(wl, env0);
  }
}
