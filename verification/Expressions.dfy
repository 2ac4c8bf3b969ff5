// The loop simulator's expressions and their wrapping 64-bit evaluation (src/tracer.rs).
module Expressions {
  import opened Common

  const TWO_63 := 0x8000_0000_0000_0000
  const TWO_64 := 0x1_0000_0000_0000_0000

  type i64 = x: int | -TWO_63 <= x < TWO_63

  datatype BinOp = Add | Sub | Mul | Lt | Le | Gt | Ge | Eq | Ne | And | Or

  datatype Expr = Lit(value: i64) | Var(name: string) | Bin(op: BinOp, left: Expr, right: Expr)

  type Env = map<string, i64>

  // Two's complement wrap-around: the one i64 congruent to `x`.
  function Wrap(x: int): (r: i64)
    ensures (r - x) % TWO_64 == 0
    ensures -TWO_63 <= x < TWO_63 ==> r == x
  {
    var m := x % TWO_64;
    if m < TWO_63 then m else m - TWO_64
  }

  function Truth(b: bool): i64 {
    if b then 1 else 0
  }

  function Apply(op: BinOp, l: i64, r: i64): i64 {
    match op
    case Add => Wrap(l + r)
    case Sub => Wrap(l - r)
    case Mul => Wrap(l * r)
    case Lt => Truth(l < r)
    case Le => Truth(l <= r)
    case Gt => Truth(l > r)
    case Ge => Truth(l >= r)
    case Eq => Truth(l == r)
    case Ne => Truth(l != r)
    case And => Truth(l != 0 && r != 0)
    case Or => Truth(l != 0 || r != 0)
  }

  function Eval(e: Expr, env: Env): Option<i64> {
    match e
    case Lit(v) => Some(v)
    case Var(name) => if name in env then Some(env[name]) else None
    case Bin(op, l, r) =>
      match Eval(l, env)
      case None => None
      case Some(lv) =>
        match Eval(r, env)
        case None => None
        case Some(rv) => Some(Apply(op, lv, rv))
  }

  function Vars(e: Expr): set<string> {
    match e
    case Lit(_) => {}
    case Var(name) => {name}
    case Bin(_, l, r) => Vars(l) + Vars(r)
  }

  // An expression evaluates exactly when every variable it names is bound.
  lemma {:induction false} EvaluableIffBound(e: Expr, env: Env)
    ensures Eval(e, env).Some? <==> Vars(e) <= env.Keys
  {
    match e
    case Lit(_) =>
    case Var(_) =>
    case Bin(_, l, r) =>
      EvaluableIffBound(l, env);
      EvaluableIffBound(r, env);
  }

  // Only the named variables matter.
  lemma {:induction false} EvalDependsOnVars(e: Expr, env: Env, env': Env)
    requires forall x :: x in Vars(e) ==> (x in env <==> x in env') && (x in env ==> env[x] == env'[x])
    ensures Eval(e, env) == Eval(e, env')
  {
    match e
    case Lit(_) =>
    case Var(_) =>
    case Bin(_, l, r) =>
      EvalDependsOnVars(l, env, env');
      EvalDependsOnVars(r, env, env');
  }
}
