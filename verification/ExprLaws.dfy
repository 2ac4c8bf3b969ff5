// What the simulator's operators compute (src/tracer.rs): the laws that fix each of them, and a whole loop
// that counts down.
module ExprLaws {
  import opened Common
  import opened Expressions
  import opened WhileLoops

  // The same modulo 2^64.
  predicate Same(a: int, b: int) {
    (a - b) % 0x1_0000_0000_0000_0000 == 0
  }

  lemma {:induction false} Witness(a: int, b: int) returns (k: int)
    requires Same(a, b)
    ensures a - b == k * TWO_64
  {
    k := (a - b) / TWO_64;
  }

  lemma {:induction false} Witnessed(a: int, b: int, k: int)
    requires a - b == k * TWO_64
    ensures Same(a, b)
  {
  }

  // A 64-bit number is told by its residue.
  lemma {:induction false} ResidueTells(a: i64, b: i64)
    requires Same(a, b)
    ensures a == b
  {
    var k := Witness(a, b);
    assert -1 < k < 1;
  }

  lemma {:induction false} SameTrans(a: int, b: int, c: int)
    requires Same(a, b) && (Same(b, c) || Same(c, b))
    ensures Same(a, c)
  {
    var k := Witness(a, b);
    if Same(b, c) {
      var m := Witness(b, c);
      Witnessed(a, c, k + m);
    } else {
      var m := Witness(c, b);
      Witnessed(a, c, k - m);
    }
  }

  lemma {:induction false} SameSum(a: int, b: int, c: int, d: int)
    requires Same(a, b) && Same(c, d)
    ensures Same(a + c, b + d) && Same(a - c, b - d)
  {
    var k := Witness(a, b);
    var m := Witness(c, d);
    Witnessed(a + c, b + d, k + m);
    Witnessed(a - c, b - d, k - m);
  }

  lemma {:induction false} SameTimes(a: int, b: int, c: int)
    requires Same(a, b)
    ensures Same(c * a, c * b)
  {
    var k := Witness(a, b);
    assert c * a - c * b == c * (a - b) == (c * k) * TWO_64;
    Witnessed(c * a, c * b, c * k);
  }

  // Sums, differences and products are exact modulo 2^64, and exact outright when they fit.
  lemma {:induction false} ArithmeticIsExact(l: i64, r: i64)
    ensures Same(Apply(Add, l, r), l + r) && Same(Apply(Sub, l, r), l - r) && Same(Apply(Mul, l, r), l * r)
    ensures -TWO_63 <= l + r < TWO_63 ==> Apply(Add, l, r) == l + r
    ensures -TWO_63 <= l - r < TWO_63 ==> Apply(Sub, l, r) == l - r
    ensures -TWO_63 <= l * r < TWO_63 ==> Apply(Mul, l, r) == l * r
  {
  }

  // Adding undoes subtracting, and the other way round.
  lemma {:induction false} AddUndoesSub(l: i64, r: i64)
    ensures Apply(Add, Apply(Sub, l, r), r) == l
    ensures Apply(Sub, Apply(Add, l, r), r) == l
  {
    ArithmeticIsExact(l, r);
    Undone(Apply(Sub, l, r), l - r, r, Apply(Add, Apply(Sub, l, r), r), l);
    Undone(Apply(Add, l, r), l + r, 0 - r, Apply(Sub, Apply(Add, l, r), r), l);
  }

  lemma {:induction false} Undone(x: i64, exact: int, r: int, back: i64, l: i64)
    requires Same(x, exact) && exact + r == l && back == Wrap(x + r)
    ensures back == l
  {
    assert Same(back, x + r);
    Witnessed(r, r, 0);
    SameSum(x, exact, r, r);
    SameTrans(back, x + r, l);
    ResidueTells(back, l);
  }

  lemma {:induction false} SumsAndProducts(l: i64, r: i64)
    ensures Apply(Add, l, r) == Apply(Add, r, l) && Apply(Mul, l, r) == Apply(Mul, r, l)
    ensures Apply(Add, l, 0) == l && Apply(Sub, l, 0) == l && Apply(Sub, l, l) == 0
    ensures Apply(Mul, l, 1) == l && Apply(Mul, l, 0) == 0
  {
    assert l * r == r * l;
  }

  lemma {:induction false} AddAssociates(a: i64, b: i64, c: i64)
    ensures Apply(Add, Apply(Add, a, b), c) == Apply(Add, a, Apply(Add, b, c))
  {
    var ab, bc := Apply(Add, a, b), Apply(Add, b, c);
    ArithmeticIsExact(a, b);
    ArithmeticIsExact(b, c);
    Witnessed(a, a, 0);
    Witnessed(c, c, 0);
    SameSum(ab, a + b, c, c);
    SameSum(a, a, bc, b + c);
    WrapsAlike(ab + c, a + bc, a + b + c);
  }

  // Two integers congruent to a third wrap to one number.
  lemma {:induction false} WrapsAlike(x: int, y: int, z: int)
    requires Same(x, z) && Same(y, z)
    ensures Wrap(x) == Wrap(y)
  {
    assert Same(Wrap(x), x) && Same(Wrap(y), y);
    SameTrans(Wrap(x), x, z);
    SameTrans(Wrap(y), y, z);
    SameTrans(Wrap(x), z, Wrap(y));
    ResidueTells(Wrap(x), Wrap(y));
  }

  // Products distribute over sums and differences.
  lemma {:induction false} MulDistributes(a: i64, b: i64, c: i64)
    ensures Apply(Mul, a, Apply(Add, b, c)) == Apply(Add, Apply(Mul, a, b), Apply(Mul, a, c))
    ensures Apply(Mul, a, Apply(Sub, b, c)) == Apply(Sub, Apply(Mul, a, b), Apply(Mul, a, c))
  {
    var p, q := a * b, a * c;
    Expanded(a, b, c, p, q);
    WrapIsSame(p);
    WrapIsSame(q);
    WrapIsSame(b + c);
    WrapIsSame(b - c);
    SameSum(Wrap(p), p, Wrap(q), q);
    Distributes(a, Wrap(b + c), b + c, p + q, Wrap(p) + Wrap(q));
    Distributes(a, Wrap(b - c), b - c, p - q, Wrap(p) - Wrap(q));
  }

  lemma {:induction false} Expanded(a: int, b: int, c: int, p: int, q: int)
    requires p == a * b && q == a * c
    ensures a * (b + c) == p + q && a * (b - c) == p - q
  {
  }

  lemma {:induction false} WrapIsSame(x: int)
    ensures Same(Wrap(x), x)
  {
  }

  lemma {:induction false} Distributes(a: int, wrapped: int, exact: int, product: int, total: int)
    requires Same(wrapped, exact) && a * exact == product && Same(total, product)
    ensures Wrap(a * wrapped) == Wrap(total)
  {
    SameTimes(wrapped, exact, a);
    WrapsAlike(a * wrapped, total, product);
  }

  // Exactly one of the three comparisons holds, and it is the integers' own; the other three are their
  // complements.
  lemma {:induction false} ComparisonsAreTheOrder(l: i64, r: i64)
    ensures Apply(Lt, l, r) + Apply(Eq, l, r) + Apply(Gt, l, r) == 1
    ensures Apply(Lt, l, r) == 1 <==> l < r
    ensures Apply(Eq, l, r) == 1 <==> l == r
    ensures Apply(Gt, l, r) == 1 <==> l > r
    ensures Apply(Le, l, r) == 1 - Apply(Gt, l, r)
    ensures Apply(Ge, l, r) == 1 - Apply(Lt, l, r)
    ensures Apply(Ne, l, r) == 1 - Apply(Eq, l, r)
  {
  }

  // Conjunction and disjunction, on every number that is not zero as on one.
  lemma {:induction false} LogicIsTruth(l: i64, r: i64)
    ensures Apply(And, l, r) == 1 <==> l != 0 && r != 0
    ensures Apply(Or, l, r) == 0 <==> l == 0 && r == 0
    ensures Apply(And, l, r) in {0, 1} && Apply(Or, l, r) in {0, 1}
    ensures 1 - Apply(And, l, r) == Apply(Or, Apply(Eq, l, 0), Apply(Eq, r, 0))
    ensures 1 - Apply(Or, l, r) == Apply(And, Apply(Eq, l, 0), Apply(Eq, r, 0))
  {
  }

  // A literal is its value, a variable what is bound, and a compound expression its operator applied to the
  // left and the right operand, in this order.
  lemma {:induction false} EvalApplies(op: BinOp, a: Expr, b: Expr, v: i64, x: string, env: Env)
    ensures Eval(Lit(v), env) == Some(v)
    ensures Eval(Var(x), env) == if x in env then Some(env[x]) else None
    ensures Eval(Bin(op, a, b), env) ==
      if Eval(a, env).Some? && Eval(b, env).Some? then Some(Apply(op, Eval(a, env).value, Eval(b, env).value)) else None
  {
  }

  // ---- A whole loop ---------------------------------------------------------------------

  // A loop `while i > 0` whose one line is `i = i - 1`.
  function Countdown(i: string, header: nat, line: nat, closing: nat): WhileLoop {
    WhileLoop(header, line, closing, Bin(Gt, Var(i), Lit(0)), [Some(Statement(i, Bin(Sub, Var(i), Lit(1))))])
  }

  // One pass of the body writes the line's step and the variable one less.
  lemma {:induction false} CountsOnce(i: string, header: nat, line: nat, closing: nat, env: Env, n: nat)
    requires i in env && env[i] > 0 && n == 1
    ensures var wl := Countdown(i, header, line, closing);
      && n == |wl.body| && BodyEnv(wl.body, env, n) == env[i := env[i] - 1]
      && BodyEvents(wl, env, n) == [Step(line, None), Variable(i, Int(env[i] - 1))]
  {
    var wl, rhs := Countdown(i, header, line, closing), Bin(Sub, Var(i), Lit(1));
    EvalApplies(Sub, Var(i), Lit(1), 1, i, env);
    ArithmeticIsExact(env[i], 1);
    assert Eval(rhs, env) == Some(env[i] - 1);
    assert wl.body[n - 1] == Some(Statement(i, rhs));
    assert BodyEnv(wl.body, env, n - 1) == env && BodyEvents(wl, env, n - 1) == [];
    assert BodyEnv(wl.body, env, n) == LineEnv(wl.body[n - 1], env);
    assert BodyEvents(wl, env, n) == [] + StatementEvents(line, wl.body[n - 1], env);
  }

  // What `k` iterations from `n` write.
  function CountdownText(i: string, header: nat, line: nat, n: int, k: nat): seq<Event>
    requires -TWO_63 <= n - k && n < TWO_63
  {
    if k == 0 then []
    else
      CountdownText(i, header, line, n, k - 1) +
      [Step(header, None), Step(line, None), Variable(i, Int(n - k))]
  }

  lemma {:induction false} CountsDown(i: string, header: nat, line: nat, closing: nat, env: Env, k: nat)
    requires i in env && k <= env[i]
    ensures var wl := Countdown(i, header, line, closing);
      && EnvAfter(wl, env, k) == env[i := env[i] - k]
      && Rounds(wl, env, k) == CountdownText(i, header, line, env[i], k)
  {
    var wl := Countdown(i, header, line, closing);
    if k == 0 {
      assert env[i := env[i]] == env;
    } else {
      var before := EnvAfter(wl, env, k - 1);
      CountsDown(i, header, line, closing, env, k - 1);
      CountsOnce(i, header, line, closing, before, |wl.body|);
      assert before[i := before[i] - 1] == env[i := env[i] - k];
      RoundAdded(wl, env, k - 1, Step(line, None), Variable(i, Int(env[i] - k)));
    }
  }

  lemma {:induction false} RoundAdded(wl: WhileLoop, env: Env, k: nat, a: Event, b: Event)
    requires BodyEvents(wl, EnvAfter(wl, env, k), |wl.body|) == [a, b]
    ensures Rounds(wl, env, k + 1) == Rounds(wl, env, k) + [Step(wl.headerLine, None), a, b]
  {
    assert Rounds(wl, env, k) + [Header(wl)] + [a, b] == Rounds(wl, env, k) + [Header(wl), a, b];
  }

  lemma {:induction false} CountdownCond(i: string, header: nat, line: nat, closing: nat, env: Env, k: nat)
    requires i in env && k <= env[i]
    ensures CondAt(Countdown(i, header, line, closing), env, k) == Some(if env[i] - k > 0 then 1 else 0)
  {
    CountsDown(i, header, line, closing, env, k);
    EvalApplies(Gt, Var(i), Lit(0), 0, i, env[i := env[i] - k]);
  }

  // From `n` below the cap the loop halts after exactly `n` iterations, with `i` at zero; from a greater
  // one it is cut after a thousand, with `i` a thousand less.
  lemma {:induction false} CountdownHalts(i: string, header: nat, line: nat, closing: nat, env: Env)
    requires i in env && env[i] >= 0
    ensures var wl := Countdown(i, header, line, closing); var n := env[i];
      if n < 1000 then
        HaltsAfter(wl, env, n) &&
        Simulated(wl, env) == Some((CountdownText(i, header, line, n, n) + [Step(header, None)], env[i := 0]))
      else Simulated(wl, env) == Some((CountdownText(i, header, line, n, 1000), env[i := n - 1000]))
  {
    var wl, n := Countdown(i, header, line, closing), env[i];
    var stop := if n < 1000 then n else 1000;
    CountsDown(i, header, line, closing, env, stop);
    CountdownCond(i, header, line, closing, env, 0);
    CountdownCond(i, header, line, closing, env, stop);
    forall k | 0 <= k < stop ensures CondAt(wl, env, k) == Some(1) {
      CountdownCond(i, header, line, closing, env, k);
    }
    assert EnvAfter(wl, env, 0) == env;
    StopsThere(wl, env, stop);
  }

  lemma {:induction false} StopsThere(wl: WhileLoop, env: Env, stop: nat)
    requires stop <= MAX_ITERS && forall k :: 0 <= k < stop ==> CondAt(wl, env, k) == Some(1)
    requires stop < MAX_ITERS ==> CondAt(wl, env, stop) == Some(0)
    ensures StopsAt(wl, env, 0, MAX_ITERS) == stop
  {
    var n := StopsAt(wl, env, 0, MAX_ITERS);
    if n < stop {
      assert false;
    }
  }
}
