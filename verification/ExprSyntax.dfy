// How expressions are written and read (src/tracer.rs), operator by operator: each text is spelled out, so
// that the grammar's tokens, levels and associativity are those the parser's documentation lists.
module ExprSyntax {
  import opened Common
  import opened Digits
  import opened Expressions
  import opened ExprParser
  import opened ExprGrammar

  // An identifier: a letter or an underscore, then letters, digits and underscores.
  predicate Name(s: string) {
    && s != ""
    && !('0' <= s[0] <= '9')
    && forall i :: 0 <= i < |s| ==>
         'a' <= s[i] <= 'z' || 'A' <= s[i] <= 'Z' || s[i] == '_' || '0' <= s[i] <= '9'
  }

  predicate Blanks(s: string) {
    forall i :: 0 <= i < |s| ==> s[i] in [' ', '\t', '\n', 12 as char, '\r']
  }

  predicate Numeral(s: string) {
    s != "" && forall i :: 0 <= i < |s| ==> '0' <= s[i] <= '9'
  }

  function Value(ds: string): nat
    requires Numeral(ds) || ds == ""
  {
    if ds == "" then 0 else 10 * Value(ds[..|ds| - 1]) + (ds[|ds| - 1] as int - '0' as int)
  }

  // ---- From derivations -----------------------------------------------------------------

  // `c` is a derivation of `s` from level `k` that means `e`.
  ghost predicate Phrase(k: nat, c: Cst, s: string, e: Expr) {
    Derives(k, c) && Derives(OR, c) && Render(c) == s && Abstract(c) == e
  }

  lemma {:induction false} Reads(c: Cst, s: string, e: Expr)
    requires Phrase(OR, c, s, e)
    ensures ParseExpr(s) == Some(e)
  {
    ParserDecidesGrammar(s, e);
  }

  function NameCst(x: string): Cst {
    CVar("", x, "")
  }

  lemma {:induction false} NamePhrase(k: nat, x: string)
    requires Name(x)
    ensures IsIdent(x) && Phrase(k, NameCst(x), x, Var(x))
  {
    assert "" + x + "" == x;
  }

  // The level of an operator's left operand.
  function LeftLevel(op: BinOp): nat {
    if LevelOf(op) == CMP then SUM else LevelOf(op)
  }

  lemma {:induction false} BinPhrase(op: BinOp, t: string, k: nat, l: Cst, sl: string, el: Expr,
          r: Cst, sr: string, er: Expr)
    requires OpText(op) == t && LevelOf(op) <= k
    requires Phrase(LeftLevel(op), l, sl, el) && Phrase(LevelOf(op) - 1, r, sr, er)
    ensures Phrase(k, CBin(op, l, r), sl + t + sr, Bin(op, el, er))
  {
    assert Derives(OR, CBin(op, l, r));
  }

  lemma {:induction false} NamesPhrase(op: BinOp, t: string, k: nat, x: string, y: string)
    requires Name(x) && Name(y) && OpText(op) == t && LevelOf(op) <= k
    ensures Phrase(k, CBin(op, NameCst(x), NameCst(y)), x + t + y, Bin(op, Var(x), Var(y)))
  {
    NamePhrase(LeftLevel(op), x);
    NamePhrase(LevelOf(op) - 1, y);
    BinPhrase(op, t, k, NameCst(x), x, Var(x), NameCst(y), y, Var(y));
  }

  lemma {:induction false} ParenPhrase(k: nat, c: Cst, s: string, e: Expr)
    requires Phrase(OR, c, s, e)
    ensures Phrase(k, CParen("", c, ""), "(" + s + ")", e)
  {
    assert "" + "(" + s + ")" + "" == "(" + s + ")";
  }

  lemma {:induction false} ReadsTwo(op: BinOp, t: string, x: string, y: string)
    requires Name(x) && Name(y) && OpText(op) == t
    ensures ParseExpr(x + t + y) == Some(Bin(op, Var(x), Var(y)))
  {
    NamesPhrase(op, t, OR, x, y);
    Reads(CBin(op, NameCst(x), NameCst(y)), x + t + y, Bin(op, Var(x), Var(y)));
  }

  // A left operand of two names and a right one of one, and the other way round.
  lemma {:induction false} ReadsLeftFirst(l: Cst, sl: string, el: Expr, q: BinOp, u: string, z: string)
    requires Phrase(LeftLevel(q), l, sl, el) && Name(z) && OpText(q) == u
    ensures ParseExpr(sl + u + z) == Some(Bin(q, el, Var(z)))
  {
    NamePhrase(LevelOf(q) - 1, z);
    BinPhrase(q, u, OR, l, sl, el, NameCst(z), z, Var(z));
    Reads(CBin(q, l, NameCst(z)), sl + u + z, Bin(q, el, Var(z)));
  }

  lemma {:induction false} ReadsRightFirst(p: BinOp, t: string, x: string, r: Cst, sr: string, er: Expr)
    requires Phrase(LevelOf(p) - 1, r, sr, er) && Name(x) && OpText(p) == t
    ensures ParseExpr(x + t + sr) == Some(Bin(p, Var(x), er))
  {
    NamePhrase(LeftLevel(p), x);
    BinPhrase(p, t, OR, NameCst(x), x, Var(x), r, sr, er);
    Reads(CBin(p, NameCst(x), r), x + t + sr, Bin(p, Var(x), er));
  }

  // ---- Each operator --------------------------------------------------------------------

  // What each operator is written as.
  lemma {:induction false} OperatorsRead(x: string, y: string)
    requires Name(x) && Name(y)
    ensures ParseExpr(x + "+" + y) == Some(Bin(Add, Var(x), Var(y)))
    ensures ParseExpr(x + "-" + y) == Some(Bin(Sub, Var(x), Var(y)))
    ensures ParseExpr(x + "*" + y) == Some(Bin(Mul, Var(x), Var(y)))
    ensures ParseExpr(x + "<" + y) == Some(Bin(Lt, Var(x), Var(y)))
    ensures ParseExpr(x + "<=" + y) == Some(Bin(Le, Var(x), Var(y)))
    ensures ParseExpr(x + ">" + y) == Some(Bin(Gt, Var(x), Var(y)))
    ensures ParseExpr(x + ">=" + y) == Some(Bin(Ge, Var(x), Var(y)))
    ensures ParseExpr(x + "==" + y) == Some(Bin(Eq, Var(x), Var(y)))
    ensures ParseExpr(x + "!=" + y) == Some(Bin(Ne, Var(x), Var(y)))
    ensures ParseExpr(x + "&&" + y) == Some(Bin(And, Var(x), Var(y)))
    ensures ParseExpr(x + "||" + y) == Some(Bin(Or, Var(x), Var(y)))
  {
    ArithmeticReads(x, y);
    OrderReads(x, y);
    ReadsTwo(Eq, "==", x, y);
    ReadsTwo(Ne, "!=", x, y);
    ReadsTwo(And, "&&", x, y);
    ReadsTwo(Or, "||", x, y);
  }

  lemma {:induction false} ArithmeticReads(x: string, y: string)
    requires Name(x) && Name(y)
    ensures ParseExpr(x + "+" + y) == Some(Bin(Add, Var(x), Var(y)))
    ensures ParseExpr(x + "-" + y) == Some(Bin(Sub, Var(x), Var(y)))
    ensures ParseExpr(x + "*" + y) == Some(Bin(Mul, Var(x), Var(y)))
  {
    ReadsTwo(Add, "+", x, y);
    ReadsTwo(Sub, "-", x, y);
    ReadsTwo(Mul, "*", x, y);
  }

  lemma {:induction false} OrderReads(x: string, y: string)
    requires Name(x) && Name(y)
    ensures ParseExpr(x + "<" + y) == Some(Bin(Lt, Var(x), Var(y)))
    ensures ParseExpr(x + "<=" + y) == Some(Bin(Le, Var(x), Var(y)))
    ensures ParseExpr(x + ">" + y) == Some(Bin(Gt, Var(x), Var(y)))
    ensures ParseExpr(x + ">=" + y) == Some(Bin(Ge, Var(x), Var(y)))
  {
    ReadsTwo(Lt, "<", x, y);
    ReadsTwo(Le, "<=", x, y);
    ReadsTwo(Gt, ">", x, y);
    ReadsTwo(Ge, ">=", x, y);
  }

  // The groups of operators, by how tightly they bind; `t` is how `op` is written.
  predicate Product(op: BinOp, t: string) {
    op == Mul && t == "*"
  }

  predicate Sum(op: BinOp, t: string) {
    (op == Add && t == "+") || (op == Sub && t == "-")
  }

  predicate Comparison(op: BinOp, t: string) {
    || (op == Lt && t == "<") || (op == Le && t == "<=") || (op == Gt && t == ">") || (op == Ge && t == ">=")
    || (op == Eq && t == "==") || (op == Ne && t == "!=")
  }

  predicate Conjunction(op: BinOp, t: string) {
    op == And && t == "&&"
  }

  predicate Disjunction(op: BinOp, t: string) {
    op == Or && t == "||"
  }

  // `p` binds tighter than `q`.
  predicate Tighter(p: BinOp, t: string, q: BinOp, u: string) {
    || (Product(p, t) && (Sum(q, u) || Comparison(q, u) || Conjunction(q, u) || Disjunction(q, u)))
    || (Sum(p, t) && (Comparison(q, u) || Conjunction(q, u) || Disjunction(q, u)))
    || (Comparison(p, t) && (Conjunction(q, u) || Disjunction(q, u)))
    || (Conjunction(p, t) && Disjunction(q, u))
  }

  // Two operators of one group that chains.
  predicate Alike(p: BinOp, t: string, q: BinOp, u: string) {
    || (Product(p, t) && Product(q, u)) || (Sum(p, t) && Sum(q, u))
    || (Conjunction(p, t) && Conjunction(q, u)) || (Disjunction(p, t) && Disjunction(q, u))
  }

  // Products bind tightest, then sums, comparisons, conjunctions and disjunctions.
  lemma {:induction false} TighterFirst(p: BinOp, t: string, q: BinOp, u: string, x: string, y: string, z: string)
    requires Tighter(p, t, q, u) && Name(x) && Name(y) && Name(z)
    ensures ParseExpr(x + t + y + u + z) == Some(Bin(q, Bin(p, Var(x), Var(y)), Var(z)))
    ensures ParseExpr(x + u + (y + t + z)) == Some(Bin(q, Var(x), Bin(p, Var(y), Var(z))))
  {
    TighterLevels(p, t, q, u);
    NamesPhrase(p, t, LeftLevel(q), x, y);
    ReadsLeftFirst(CBin(p, NameCst(x), NameCst(y)), x + t + y, Bin(p, Var(x), Var(y)), q, u, z);
    NamesPhrase(p, t, LevelOf(q) - 1, y, z);
    ReadsRightFirst(q, u, x, CBin(p, NameCst(y), NameCst(z)), y + t + z, Bin(p, Var(y), Var(z)));
  }

  lemma {:induction false} TighterLevels(p: BinOp, t: string, q: BinOp, u: string)
    requires Tighter(p, t, q, u)
    ensures OpText(p) == t && OpText(q) == u && LevelOf(p) < LevelOf(q) && LevelOf(p) <= LeftLevel(q)
  {
  }

  lemma {:induction false} AlikeLevels(p: BinOp, t: string, q: BinOp, u: string)
    requires Alike(p, t, q, u)
    ensures OpText(p) == t && OpText(q) == u && LevelOf(p) == LevelOf(q) == LeftLevel(q)
  {
  }

  lemma {:induction false} ComparisonLevel(p: BinOp, t: string)
    requires Comparison(p, t)
    ensures OpText(p) == t && LevelOf(p) == CMP
  {
  }

  // Operators of one group associate to the left.
  lemma {:induction false} LeftToRight(p: BinOp, t: string, q: BinOp, u: string, x: string, y: string, z: string)
    requires Alike(p, t, q, u) && Name(x) && Name(y) && Name(z)
    ensures ParseExpr(x + t + y + u + z) == Some(Bin(q, Bin(p, Var(x), Var(y)), Var(z)))
  {
    AlikeLevels(p, t, q, u);
    NamesPhrase(p, t, LeftLevel(q), x, y);
    ReadsLeftFirst(CBin(p, NameCst(x), NameCst(y)), x + t + y, Bin(p, Var(x), Var(y)), q, u, z);
  }

  // The text of one operator.
  predicate Writes(p: BinOp, t: string) {
    Product(p, t) || Sum(p, t) || Comparison(p, t) || Conjunction(p, t) || Disjunction(p, t)
  }

  lemma {:induction false} WritesText(p: BinOp, t: string)
    requires Writes(p, t)
    ensures OpText(p) == t && 1 <= LevelOf(p) <= OR
  {
  }

  // Parentheses come first, on either side, whatever the two operators.
  lemma {:induction false} ParenthesesFirst(p: BinOp, t: string, q: BinOp, u: string, x: string, y: string, z: string)
    requires Writes(p, t) && Writes(q, u) && Name(x) && Name(y) && Name(z)
    ensures ParseExpr("(" + (x + t + y) + ")" + u + z) == Some(Bin(q, Bin(p, Var(x), Var(y)), Var(z)))
    ensures ParseExpr(x + t + ("(" + (y + u + z) + ")")) == Some(Bin(p, Var(x), Bin(q, Var(y), Var(z))))
  {
    WritesText(p, t);
    WritesText(q, u);
    var l, r := CBin(p, NameCst(x), NameCst(y)), CBin(q, NameCst(y), NameCst(z));
    NamesPhrase(p, t, OR, x, y);
    ParenPhrase(LeftLevel(q), l, x + t + y, Bin(p, Var(x), Var(y)));
    ReadsLeftFirst(CParen("", l, ""), "(" + (x + t + y) + ")", Bin(p, Var(x), Var(y)), q, u, z);
    NamesPhrase(q, u, OR, y, z);
    ParenPhrase(LevelOf(p) - 1, r, y + u + z, Bin(q, Var(y), Var(z)));
    ReadsRightFirst(p, t, x, CParen("", r, ""), "(" + (y + u + z) + ")", Bin(q, Var(y), Var(z)));
  }

  lemma {:induction false} SpacedPhrase(k: nat, a: string, x: string, b: string)
    requires Name(x) && Blanks(a) && Blanks(b)
    ensures Phrase(k, CVar(a, x, b), a + x + b, Var(x))
  {
    NamePhrase(k, x);
  }

  // Blanks around a token change nothing.
  lemma {:induction false} BlanksAround(p: BinOp, t: string, x: string, y: string, a: string, b: string, c: string,
          d: string)
    requires Writes(p, t) && Name(x) && Name(y) && Blanks(a) && Blanks(b) && Blanks(c) && Blanks(d)
    ensures ParseExpr(a + x + b + t + (c + y + d)) == Some(Bin(p, Var(x), Var(y)))
  {
    WritesText(p, t);
    var l, r := CVar(a, x, b), CVar(c, y, d);
    SpacedPhrase(LeftLevel(p), a, x, b);
    SpacedPhrase(LevelOf(p) - 1, c, y, d);
    BinPhrase(p, t, OR, l, a + x + b, Var(x), r, c + y + d, Var(y));
    Reads(CBin(p, l, r), a + x + b + t + (c + y + d), Bin(p, Var(x), Var(y)));
  }

  lemma {:induction false} ValueIsDecimal(ds: string)
    requires Numeral(ds) || ds == ""
    ensures AllDigits(ds) && Value(ds) == Decimal(ds)
  {
    if ds != "" {
      assert forall i :: 0 <= i < |ds| ==> IsDigit(ds[i]);
      ValueIsDecimal(ds[..|ds| - 1]);
    }
  }

  // A name is a variable; a numeral is its value when that is below 2^63, and nothing otherwise.
  lemma {:induction false} AtomsRead(x: string, ds: string)
    requires Name(x) && Numeral(ds)
    ensures ParseExpr(x) == Some(Var(x))
    ensures ParseExpr(ds) == if Value(ds) < 0x8000_0000_0000_0000 then Some(Lit(Value(ds))) else None
  {
    NamePhrase(OR, x);
    Reads(NameCst(x), x, Var(x));
    ValueIsDecimal(ds);
    if Decimal(ds) < TWO_63 {
      assert "" + ds + "" == ds;
      Reads(CLit("", ds, ""), ds, Lit(Decimal(ds)));
    } else {
      LargeNumeral(ds);
    }
  }

  lemma {:induction false} NothingAbove(k: nat, s: string)
    requires Parse(ATOM, s, 0) == None
    ensures Parse(k, s, 0) == None
  {
    if k > 0 {
      NothingAbove(k - 1, s);
    }
  }

  lemma {:induction false} LargeNumeral(ds: string)
    requires ds != "" && AllDigits(ds) && Decimal(ds) >= TWO_63
    ensures ParseExpr(ds) == None
  {
    assert Stands(ds, 0, ds);
    SkipDigitsOver(ds, 0, ds);
    assert IsDigit(ds[0]) && SkipSpaces(ds, 0) == 0 && ds[0..|ds|] == ds;
    NothingAbove(OR, ds);
  }

  // ---- Comparisons do not chain ---------------------------------------------------------

  lemma {:induction false} Pieces(x: string, t: string, y: string, u: string, z: string, s: string)
    requires s == x + t + y + u + z
    ensures var m := |x| + |t| + |y|;
      Stands(s, 0, x) && Stands(s, |x|, t) && Stands(s, |x| + |t|, y) && Stands(s, m, u) && Stands(s, m + |u|, z)
  {
    assert Stands(s, 0, s);
    StandsSplit(s, 0, x + t + y + u, z);
    StandsSplit(s, 0, x + t + y, u);
    StandsSplit(s, 0, x + t, y);
    StandsSplit(s, 0, x, t);
  }

  // A comparison stands between two operands.
  lemma {:induction false} OperatorStands(p: BinOp, t: string, y: string, s: string, ql: nat)
    requires OpText(p) == t && LevelOf(p) == CMP && Name(y) && Stands(s, ql, t) && Stands(s, ql + |t|, y)
    ensures ReadsOp(CMP, s, ql, p, ql + |t|) && SkipSpaces(s, ql) == ql && Ends(SUM, s, ql) && OpAt(SUM, s, ql) == None
    ensures OpAt(AND, s, ql) == None && OpAt(OR, s, ql) == None
  {
    var pr := ql + |t|;
    NamePhrase(SUM, y);
    assert Spans(NameCst(y), s, pr, pr + |y|);
    OperatorBetween(p, CMP, NameCst(y), s, ql, pr, pr + |y|);
    assert s[pr] == y[0];
    OperatorStopsAbove(p, s, ql);
  }

  // A name that a comparison follows is read whole as a sum.
  lemma {:induction false} NameThenOperator(x: string, p: BinOp, t: string, y: string, s: string, at: nat, ql: nat)
    requires OpText(p) == t && LevelOf(p) == CMP && Name(x) && Name(y) && ql == at + |x|
    requires Stands(s, at, x) && Stands(s, ql, t) && Stands(s, ql + |t|, y)
    ensures Parse(SUM, s, at) == Some((Var(x), ql)) && SkipSpaces(s, ql) == ql && ReadsOp(CMP, s, ql, p, ql + |t|)
    ensures OpAt(AND, s, ql) == None && OpAt(OR, s, ql) == None && ql < |s|
  {
    OperatorStands(p, t, y, s, ql);
    NamePhrase(SUM, x);
    assert Spans(NameCst(x), s, at, ql);
    PhraseWhole(SUM, NameCst(x), s, at, ql);
  }

  // After a comparison of two names nothing reads another comparison.
  lemma {:induction false} ComparisonsDoNotChain(p: BinOp, t: string, q: BinOp, u: string,
          x: string, y: string, z: string)
    requires Comparison(p, t) && Comparison(q, u) && Name(x) && Name(y) && Name(z)
    ensures ParseExpr(x + t + y + u + z) == None
  {
    ComparisonLevel(p, t);
    ComparisonLevel(q, u);
    Pieces(x, t, y, u, z, x + t + y + u + z);
    ChainRefused(p, t, q, u, x, y, z, x + t + y + u + z, |x|, |x| + |t|, |x| + |t| + |y|);
  }

  lemma {:induction false} ChainRefused(p: BinOp, t: string, q: BinOp, u: string, x: string, y: string, z: string,
          s: string, ql: nat, pr: nat, m: nat)
    requires OpText(p) == t && OpText(q) == u && LevelOf(p) == LevelOf(q) == CMP && Name(x) && Name(y) && Name(z)
    requires ql == |x| && pr == ql + |t| && m == pr + |y|
    requires Stands(s, 0, x) && Stands(s, ql, t) && Stands(s, pr, y) && Stands(s, m, u) && Stands(s, m + |u|, z)
    ensures ParseExpr(s) == None
  {
    NameThenOperator(x, p, t, y, s, 0, ql);
    NameThenOperator(y, q, u, z, s, pr, m);
    SecondRefused(s, ql, p, pr, Var(x), Var(y), m);
  }

  // A comparison at the front, and nothing above a comparison after it.
  lemma {:induction false} SecondRefused(s: string, ql: nat, p: BinOp, pr: nat, lhs: Expr, rhs: Expr, m: nat)
    requires Parse(SUM, s, 0) == Some((lhs, ql)) && SkipSpaces(s, ql) == ql && ReadsOp(CMP, s, ql, p, pr)
    requires Parse(SUM, s, pr) == Some((rhs, m)) && m < |s| && SkipSpaces(s, m) == m
    requires OpAt(AND, s, m) == None && OpAt(OR, s, m) == None
    ensures ParseExpr(s) == None
  {
    ComparisonRead(s, ql, p, pr, lhs, rhs, m);
    NothingAfter(s, Bin(p, lhs, rhs), m);
  }

  lemma {:induction false} ComparisonRead(s: string, ql: nat, p: BinOp, pr: nat, lhs: Expr, rhs: Expr, m: nat)
    requires Parse(SUM, s, 0) == Some((lhs, ql)) && SkipSpaces(s, ql) == ql && ReadsOp(CMP, s, ql, p, pr)
    requires Parse(SUM, s, pr) == Some((rhs, m))
    ensures Parse(CMP, s, 0) == Some((Bin(p, lhs, rhs), m))
  {
    ParseAbove(CMP, SUM, s, 0, lhs, ql);
    RestReads(CMP, SUM, s, ql, p, pr, lhs, rhs, m);
  }

  // A text on which every level stops early is refused.
  lemma {:induction false} NothingAfter(s: string, e: Expr, m: nat)
    requires m < |s| && Parse(CMP, s, 0) == Some((e, m)) && SkipSpaces(s, m) == m
    requires OpAt(AND, s, m) == None && OpAt(OR, s, m) == None
    ensures ParseExpr(s) == None
  {
    StopsAt(AND, CMP, s, e, m);
    StopsAt(OR, AND, s, e, m);
  }

  lemma {:induction false} OperatorStopsAbove(q: BinOp, s: string, m: nat)
    requires LevelOf(q) == CMP && Stands(s, m, OpText(q)) && m + |OpText(q)| < |s| && s[m + |OpText(q)|] != '='
    ensures OpAt(AND, s, m) == None && OpAt(OR, s, m) == None
  {
    OperatorReads(q, AND, s, m);
    OperatorReads(q, OR, s, m);
  }

  lemma {:induction false} StopsAt(k: nat, j: nat, s: string, e: Expr, m: nat)
    requires k == j + 1 && m <= |s| && Parse(j, s, 0) == Some((e, m)) && SkipSpaces(s, m) == m && OpAt(k, s, m) == None
    ensures Parse(k, s, 0) == Some((e, m))
  {
    ParseAbove(k, j, s, 0, e, m);
    RestStops(k, s, m, e);
  }
}
