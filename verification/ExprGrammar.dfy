// The parser decides exactly the documented grammar: concrete syntax trees, with blanks
// around every atom and any redundant parentheses, and the expressions they stand for.
module ExprGrammar {
  import opened Common
  import opened Digits
  import opened Expressions
  import opened ExprParser

  datatype Cst =
    | CLit(lead: string, digits: string, trail: string)
    | CVar(lead: string, name: string, trail: string)
    | CParen(lead: string, inner: Cst, trail: string)
    | CBin(op: BinOp, left: Cst, right: Cst)

  predicate AllSpaces(s: string) {
    forall i :: 0 <= i < |s| ==> IsSpace(s[i])
  }

  predicate IsIdent(s: string) {
    s != "" && IsIdentStart(s[0]) && forall i :: 0 <= i < |s| ==> IsIdentChar(s[i])
  }

  // `c` is derived from level `k`: products, sums, conjunctions and disjunctions associate
  // to the left, a comparison does not chain.
  predicate Derives(k: nat, c: Cst)
    decreases c
  {
    match c
    case CLit(lead, digits, trail) =>
      AllSpaces(lead) && AllSpaces(trail) && digits != "" && AllDigits(digits) && Decimal(digits) < TWO_63
    case CVar(lead, name, trail) => AllSpaces(lead) && AllSpaces(trail) && IsIdent(name)
    case CParen(lead, inner, trail) => AllSpaces(lead) && AllSpaces(trail) && Derives(OR, inner)
    case CBin(op, l, r) =>
      var j := LevelOf(op);
      j <= k && Derives(if j == CMP then SUM else j, l) && Derives(j - 1, r)
  }

  function Render(c: Cst): string {
    match c
    case CLit(lead, digits, trail) => lead + digits + trail
    case CVar(lead, name, trail) => lead + name + trail
    case CParen(lead, inner, trail) => lead + "(" + Render(inner) + ")" + trail
    case CBin(op, l, r) => Render(l) + OpText(op) + Render(r)
  }

  function Abstract(c: Cst): Expr
    requires Derives(OR, c)
  {
    match c
    case CLit(_, digits, _) => Lit(Decimal(digits))
    case CVar(_, name, _) => Var(name)
    case CParen(_, inner, _) => Abstract(inner)
    case CBin(op, l, r) =>
      DerivesUp(if LevelOf(op) == CMP then SUM else LevelOf(op), OR, l);
      DerivesUp(LevelOf(op) - 1, OR, r);
      Bin(op, Abstract(l), Abstract(r))
  }

  lemma {:induction false} DerivesUp(j: nat, k: nat, c: Cst)
    requires Derives(j, c) && j <= k
    ensures Derives(k, c)
  {
  }

  // ----- every derivation is parsed

  // `t` stands at `p` in `s`.
  predicate Stands(s: string, p: nat, t: string) {
    p + |t| <= |s| && s[p..p + |t|] == t
  }

  lemma {:induction false} StandsSplit(s: string, p: nat, a: string, b: string)
    requires Stands(s, p, a + b)
    ensures Stands(s, p, a) && Stands(s, p + |a|, b)
  {
    assert s[p..p + |a|] == (a + b)[..|a|];
    assert s[p + |a|..p + |a| + |b|] == (a + b)[|a|..];
  }

  // What follows a level-`k` phrase at `q` cannot be read as part of it.
  predicate Ends(k: nat, s: string, q: nat)
    requires q <= |s|
  {
    && (q < |s| ==> !IsSpace(s[q]) && !IsIdentChar(s[q]))
    && (k > TERM ==> OpAt(TERM, s, q) == None)
    && (k > SUM ==> OpAt(SUM, s, q) == None)
    && (k >= CMP ==> OpAt(CMP, s, q) == None)
    && (k > AND ==> OpAt(AND, s, q) == None)
  }

  lemma {:induction false} SkipSpacesOver(s: string, p: nat, ws: string)
    requires Stands(s, p, ws) && AllSpaces(ws)
    requires p + |ws| == |s| || !IsSpace(s[p + |ws|])
    ensures SkipSpaces(s, p) == p + |ws|
    decreases |ws|
  {
    if ws != "" {
      assert s[p] == ws[0];
      assert Stands(s, p + 1, ws[1..]);
      SkipSpacesOver(s, p + 1, ws[1..]);
    }
  }

  lemma {:induction false} SkipDigitsOver(s: string, p: nat, ds: string)
    requires Stands(s, p, ds) && AllDigits(ds)
    requires p + |ds| == |s| || !IsDigit(s[p + |ds|])
    ensures SkipDigits(s, p) == p + |ds|
    decreases |ds|
  {
    if ds != "" {
      assert s[p] == ds[0];
      assert Stands(s, p + 1, ds[1..]);
      SkipDigitsOver(s, p + 1, ds[1..]);
    }
  }

  lemma {:induction false} SkipIdentOver(s: string, p: nat, name: string)
    requires Stands(s, p, name) && forall i :: 0 <= i < |name| ==> IsIdentChar(name[i])
    requires p + |name| == |s| || !IsIdentChar(s[p + |name|])
    ensures SkipIdent(s, p) == p + |name|
    decreases |name|
  {
    if name != "" {
      assert s[p] == name[0];
      assert Stands(s, p + 1, name[1..]);
      SkipIdentOver(s, p + 1, name[1..]);
    }
  }

  // A phrase starts with a blank, a digit, an identifier or a parenthesis.
  lemma {:induction false} FirstChar(k: nat, c: Cst)
    requires Derives(k, c)
    ensures Render(c) != ""
    ensures var x := Render(c)[0]; IsSpace(x) || IsIdentChar(x) || x == '('
  {
    match c
    case CLit(lead, digits, trail) => assert Render(c)[0] == if lead == "" then digits[0] else lead[0];
    case CVar(lead, name, trail) => assert Render(c)[0] == if lead == "" then name[0] else lead[0];
    case CParen(lead, inner, trail) => assert Render(c)[0] == if lead == "" then '(' else lead[0];
    case CBin(op, l, r) => FirstChar(if LevelOf(op) == CMP then SUM else LevelOf(op), l);
  }

  // At most one operator stands at a position, when `=` does not follow it.
  lemma {:induction false} OperatorReads(op: BinOp, k: nat, s: string, q: nat)
    requires Stands(s, q, OpText(op)) && q + |OpText(op)| < |s| && s[q + |OpText(op)|] != '='
    ensures OpAt(k, s, q) == if k == LevelOf(op) then Some((op, |OpText(op)|)) else None
  {
    assert s[q] == OpText(op)[0];
    if |OpText(op)| == 2 {
      assert s[q + 1] == OpText(op)[1];
    }
    OpAtByCases(k, s, q);
  }

  lemma {:induction false} OperatorEnds(op: BinOp, s: string, q: nat)
    requires Stands(s, q, OpText(op)) && q + |OpText(op)| < |s| && s[q + |OpText(op)|] != '='
    ensures Ends(if LevelOf(op) == CMP then SUM else LevelOf(op), s, q)
  {
    assert s[q] == OpText(op)[0];
    OperatorReads(op, TERM, s, q);
    OperatorReads(op, SUM, s, q);
    OperatorReads(op, CMP, s, q);
    OperatorReads(op, AND, s, q);
  }

  lemma {:induction false} CloseParenEnds(s: string, q: nat)
    requires q < |s| && s[q] == ')'
    ensures Ends(OR, s, q) && OpAt(OR, s, q) == None
  {
    OpAtByCases(TERM, s, q);
    OpAtByCases(SUM, s, q);
    OpAtByCases(CMP, s, q);
    OpAtByCases(AND, s, q);
    OpAtByCases(OR, s, q);
  }

  lemma {:induction false} EndOfTextEnds(s: string)
    ensures Ends(OR, s, |s|) && OpAt(OR, s, |s|) == None
  {
    OpAtByCases(TERM, s, |s|);
    OpAtByCases(SUM, s, |s|);
    OpAtByCases(CMP, s, |s|);
    OpAtByCases(AND, s, |s|);
    OpAtByCases(OR, s, |s|);
  }

  // ----- a comparison, a left-associative operator, and the atoms

  lemma {:induction false} CmpReads(s: string, p: nat, ql: nat, op: BinOp, pr: nat, q: nat, lhs: Expr, rhs: Expr)
    requires p <= |s| && ql <= |s| && SkipSpaces(s, ql) == ql && ReadsOp(CMP, s, ql, op, pr)
    requires Parse(SUM, s, p) == Some((lhs, ql)) && Parse(SUM, s, pr) == Some((rhs, q))
    requires q <= |s| && SkipSpaces(s, q) == q && OpAt(CMP, s, q) == None
    ensures Parse(CMP, s, p) == Rest(CMP, s, q, Bin(op, lhs, rhs))
  {
    ParseAbove(CMP, SUM, s, p, lhs, ql);
    RestReads(CMP, SUM, s, ql, op, pr, lhs, rhs, q);
    RestStops(CMP, s, q, Bin(op, lhs, rhs));
  }

  lemma {:induction false} LeftReads(k: nat, j: nat, s: string, p: nat, ql: nat, op: BinOp, pr: nat, q: nat, lhs: Expr,
          rhs: Expr)
    requires 0 < k == j + 1 && k != CMP
    requires p <= |s| && ql <= |s| && SkipSpaces(s, ql) == ql && ReadsOp(k, s, ql, op, pr)
    requires Parse(k, s, p) == Rest(k, s, ql, lhs) && Parse(j, s, pr) == Some((rhs, q))
    ensures q <= |s| && Parse(k, s, p) == Rest(k, s, q, Bin(op, lhs, rhs))
  {
    RestReads(k, j, s, ql, op, pr, lhs, rhs, q);
  }

  lemma {:induction false} LitReads(s: string, p: nat, lead: string, m: nat, digits: string, q: nat)
    requires AllSpaces(lead) && digits != "" && AllDigits(digits) && Decimal(digits) < TWO_63
    requires m == p + |lead| && q == m + |digits| && Stands(s, p, lead) && Stands(s, m, digits)
    requires q == |s| || !IsDigit(s[q])
    ensures ParseAtom(s, p) == Some((Lit(Decimal(digits)), q))
  {
    assert s[m] == digits[0];
    SkipSpacesOver(s, p, lead);
    SkipDigitsOver(s, m, digits);
    assert s[m..q] == digits;
  }

  lemma {:induction false} VarReads(s: string, p: nat, lead: string, m: nat, name: string, q: nat)
    requires AllSpaces(lead) && IsIdent(name)
    requires m == p + |lead| && q == m + |name| && Stands(s, p, lead) && Stands(s, m, name)
    requires q == |s| || !IsIdentChar(s[q])
    ensures ParseAtom(s, p) == Some((Var(name), q))
  {
    assert s[m] == name[0];
    SkipSpacesOver(s, p, lead);
    SkipIdentOver(s, m, name);
    assert s[m..q] == name;
  }

  lemma {:induction false} ParenUnfolds(s: string, p: nat, m: nat, from: nat)
    requires p <= |s| && SkipSpaces(s, p) == m < |s| && s[m] == '(' && from == m + 1 && Parse(OR, s, from).Some?
    ensures var e := Parse(OR, s, from).value;
      var q := SkipSpaces(s, e.1);
      ParseAtom(s, p) == if q < |s| && s[q] == ')' then Some((e.0, q + 1)) else None
  {
  }

  lemma {:induction false} ParenReads(s: string, p: nat, m: nat, from: nat, e: Expr, r: nat, q: nat)
    requires p <= |s| && SkipSpaces(s, p) == m < |s| && s[m] == '(' && from == m + 1
    requires Parse(OR, s, from) == Some((e, r)) && r < |s| && s[r] == ')' && q == r + 1
    ensures ParseAtom(s, p) == Some((e, q))
  {
    ParenUnfolds(s, p, m, from);
    assert SkipSpaces(s, r) == r;
  }

  // After a token come its trailing blanks, then what ends the phrase.
  lemma {:induction false} AfterToken(s: string, p: nat, trail: string)
    requires Stands(s, p, trail) && AllSpaces(trail) && Ends(ATOM, s, p + |trail|)
    ensures SkipSpaces(s, p) == p + |trail|
    ensures p < |s| ==> !IsIdentChar(s[p])
  {
    SkipSpacesOver(s, p, trail);
    if trail != "" {
      assert s[p] == trail[0];
    }
  }

  // ----- reading whole phrases: `c` stands in `s` from `p` to `q`

  predicate Spans(c: Cst, s: string, p: nat, q: nat) {
    q == p + |Render(c)| && Stands(s, p, Render(c))
  }

  // A token and the blanks around it.
  lemma {:induction false} TokenSplit(lead: string, token: string, trail: string, s: string, p: nat, m: nat, q': nat,
          q: nat)
    requires Stands(s, p, lead + token + trail) && q == p + |lead + token + trail|
    requires m == p + |lead| && q' == m + |token| && AllSpaces(trail) && Ends(ATOM, s, q)
    ensures Stands(s, p, lead) && Stands(s, m, token) && SkipSpaces(s, q') == q
    ensures q' < |s| ==> !IsIdentChar(s[q'])
  {
    StandsSplit(s, p, lead + token, trail);
    StandsSplit(s, p, lead, token);
    AfterToken(s, q', trail);
  }

  lemma {:induction false} LitParses(c: Cst, s: string, p: nat, q': nat, q: nat)
    requires Derives(OR, c) && c.CLit? && Spans(c, s, p, q) && Ends(ATOM, s, q) && q' + |c.trail| == q
    ensures ParseAtom(s, p) == Some((Abstract(c), q')) && SkipSpaces(s, q') == q
  {
    TokenSplit(c.lead, c.digits, c.trail, s, p, p + |c.lead|, q', q);
    LitReads(s, p, c.lead, p + |c.lead|, c.digits, q');
  }

  lemma {:induction false} VarParses(c: Cst, s: string, p: nat, q': nat, q: nat)
    requires Derives(OR, c) && c.CVar? && Spans(c, s, p, q) && Ends(ATOM, s, q) && q' + |c.trail| == q
    ensures ParseAtom(s, p) == Some((Abstract(c), q')) && SkipSpaces(s, q') == q
  {
    TokenSplit(c.lead, c.name, c.trail, s, p, p + |c.lead|, q', q);
    VarReads(s, p, c.lead, p + |c.lead|, c.name, q');
  }

  lemma {:induction false} ParenSplit(c: Cst, s: string, p: nat, q: nat)
    requires c.CParen? && Spans(c, s, p, q)
    ensures var m := p + |c.lead|; var r := m + 1 + |Render(c.inner)|;
      && Stands(s, p, c.lead) && Spans(c.inner, s, m + 1, r) && Stands(s, r + 1, c.trail)
      && r + 1 + |c.trail| == q
      && s[m] == '(' && s[r] == ')'
  {
    var inner := Render(c.inner);
    StandsSplit(s, p, c.lead + "(" + inner + ")", c.trail);
    StandsSplit(s, p, c.lead + "(" + inner, ")");
    StandsSplit(s, p, c.lead + "(", inner);
    StandsSplit(s, p, c.lead, "(");
  }

  lemma {:induction false} ParenParses(c: Cst, s: string, p: nat, q': nat, q: nat)
    requires Derives(OR, c) && c.CParen? && Spans(c, s, p, q) && Ends(ATOM, s, q) && q' + |c.trail| == q
    ensures ParseAtom(s, p) == Some((Abstract(c), q')) && SkipSpaces(s, q') == q
    decreases c, 0, 0
  {
    var m, r := p + |c.lead|, q' - 1;
    ParenSplit(c, s, p, q);
    AfterToken(s, q', c.trail);
    CloseParenEnds(s, r);
    SkipSpacesOver(s, p, c.lead);
    PhraseWhole(OR, c.inner, s, m + 1, r);
    ParenReads(s, p, m, m + 1, Abstract(c.inner), r, q');
  }

  // An atom is read up to the blanks that trail it.
  lemma {:induction false} AtomReads(c: Cst, s: string, p: nat, q: nat) returns (q': nat)
    requires Derives(OR, c) && !c.CBin? && Spans(c, s, p, q) && Ends(ATOM, s, q)
    ensures q' <= q && Parse(ATOM, s, p) == Some((Abstract(c), q')) && SkipSpaces(s, q') == q
    decreases c, 1, 0
  {
    q' := q - |c.trail|;
    match c
    case CLit(_, _, _) => LitParses(c, s, p, q', q);
    case CVar(_, _, _) => VarParses(c, s, p, q', q);
    case CParen(_, _, _) => ParenParses(c, s, p, q', q);
  }

  // Reading a phrase of level `k` leads to its end, with the phrase as the operand so far.
  lemma {:induction false} PhraseParses(k: nat, c: Cst, s: string, p: nat, q: nat)
    requires 1 <= k <= OR && Derives(k, c) && Derives(OR, c) && Spans(c, s, p, q) && Ends(k, s, q)
    ensures Parse(k, s, p) == Rest(k, s, q, Abstract(c))
    decreases c, 1, 3 * k
  {
    if c.CBin? && LevelOf(c.op) == k {
      BinParses(k, c, s, p, q);
    } else {
      OperandParses(k, c, s, p, q);
    }
  }

  // A phrase of a lower level, as the first operand.
  lemma {:induction false} OperandParses(k: nat, c: Cst, s: string, p: nat, q: nat)
    requires 1 <= k <= OR && Derives(k, c) && Derives(OR, c) && !(c.CBin? && LevelOf(c.op) == k)
    requires Spans(c, s, p, q) && Ends(k, s, q)
    ensures Parse(k, s, p) == Rest(k, s, q, Abstract(c))
    decreases c, 1, 3 * k - 1, 1
  {
    if k == TERM {
      AtomOperand(c, s, p, q);
    } else {
      HigherOperand(k, k - 1, c, s, p, q);
    }
  }

  lemma {:induction false} HigherOperand(k: nat, j: nat, c: Cst, s: string, p: nat, q: nat)
    requires TERM < k <= OR && j + 1 == k && Derives(j, c) && Derives(OR, c) && Spans(c, s, p, q) && Ends(k, s, q)
    ensures Parse(k, s, p) == Rest(k, s, q, Abstract(c))
    decreases c, 1, 3 * k - 1, 0
  {
    PhraseWhole(j, c, s, p, q);
    ParseAbove(k, j, s, p, Abstract(c), q);
  }

  lemma {:induction false} AtomOperand(c: Cst, s: string, p: nat, q: nat)
    requires Derives(OR, c) && !c.CBin? && Spans(c, s, p, q) && Ends(TERM, s, q)
    ensures Parse(TERM, s, p) == Rest(TERM, s, q, Abstract(c))
    decreases c, 1, 1
  {
    var q' := AtomReads(c, s, p, q);
    ParseAbove(TERM, ATOM, s, p, Abstract(c), q');
    RestAfterBlanks(TERM, s, q', q, Abstract(c));
  }

  // A phrase that no operator of its level follows is read whole.
  lemma {:induction false} PhraseWhole(k: nat, c: Cst, s: string, p: nat, q: nat)
    requires 1 <= k <= OR && Derives(k, c) && Derives(OR, c)
    requires Spans(c, s, p, q) && Ends(k, s, q) && OpAt(k, s, q) == None
    ensures Parse(k, s, p) == Some((Abstract(c), q))
    decreases c, 1, 3 * k + 1
  {
    PhraseParses(k, c, s, p, q);
    RestStops(k, s, q, Abstract(c));
  }

  lemma {:induction false} BinSplit(c: Cst, s: string, p: nat, ql: nat, pr: nat, q: nat)
    requires c.CBin? && Spans(c, s, p, q) && ql == p + |Render(c.left)| && pr == ql + |OpText(c.op)|
    ensures Spans(c.left, s, p, ql) && Stands(s, ql, OpText(c.op)) && Spans(c.right, s, pr, q)
  {
    StandsSplit(s, p, Render(c.left) + OpText(c.op), Render(c.right));
    StandsSplit(s, p, Render(c.left), OpText(c.op));
  }

  // The operator between two operands is read, and ends the left one.
  lemma {:induction false} OperatorBetween(op: BinOp, k: nat, r: Cst, s: string, ql: nat, pr: nat, q: nat)
    requires Stands(s, ql, OpText(op)) && pr == ql + |OpText(op)| && Spans(r, s, pr, q)
    requires LevelOf(op) == k && Derives(OR, r)
    ensures ReadsOp(k, s, ql, op, pr)
    ensures k == CMP ==> OpAt(SUM, s, ql) == None
    ensures Ends(if k == CMP then SUM else k, s, ql)
    ensures SkipSpaces(s, ql) == ql
  {
    FirstChar(OR, r);
    assert s[pr] == Render(r)[0];
    OperatorReads(op, k, s, ql);
    OperatorReads(op, SUM, s, ql);
    OperatorEnds(op, s, ql);
  }

  lemma {:induction false} BinParses(k: nat, c: Cst, s: string, p: nat, q: nat)
    requires 1 <= k <= OR && Derives(k, c) && Derives(OR, c) && c.CBin? && LevelOf(c.op) == k
    requires Spans(c, s, p, q) && Ends(k, s, q)
    ensures Parse(k, s, p) == Rest(k, s, q, Abstract(c))
    decreases c, 0, 1
  {
    var ql := p + |Render(c.left)|;
    var pr := ql + |OpText(c.op)|;
    BinSplit(c, s, p, ql, pr, q);
    DerivesUp(if k == CMP then SUM else k, OR, c.left);
    DerivesUp(k - 1, OR, c.right);
    OperatorBetween(c.op, k, c.right, s, ql, pr, q);
    if k == CMP {
      CmpOperands(c, c.op, c.left, c.right, s, p, ql, pr, q);
    } else {
      LeftOperands(k, c, c.op, c.left, c.right, s, p, ql, pr, q);
    }
  }

  lemma {:induction false} CmpOperands( c: Cst, op: BinOp, l: Cst, r: Cst, s: string, p: nat, ql: nat, pr: nat, q: nat)
    requires c == CBin(op, l, r) && Derives(SUM, l) && Derives(SUM, r) && Derives(OR, l) && Derives(OR, r)
    requires Spans(l, s, p, ql) && ql <= pr && Spans(r, s, pr, q)
    requires ReadsOp(CMP, s, ql, op, pr) && OpAt(SUM, s, ql) == None
    requires Ends(SUM, s, ql) && SkipSpaces(s, ql) == ql && Ends(CMP, s, q)
    ensures Parse(CMP, s, p) == Rest(CMP, s, q, Bin(op, Abstract(l), Abstract(r)))
    decreases c, 0, 0
  {
    PhraseWhole(SUM, l, s, p, ql);
    PhraseWhole(SUM, r, s, pr, q);
    CmpReads(s, p, ql, op, pr, q, Abstract(l), Abstract(r));
  }

  lemma {:induction false} LeftOperands(k: nat, c: Cst, op: BinOp, l: Cst, r: Cst, s: string, p: nat, ql: nat, pr: nat,
          q: nat)
    requires 1 <= k <= OR && k != CMP && c == CBin(op, l, r)
    requires Derives(k, l) && Derives(k - 1, r) && Derives(OR, l) && Derives(OR, r)
    requires Spans(l, s, p, ql) && ql <= pr && Spans(r, s, pr, q)
    requires ReadsOp(k, s, ql, op, pr)
    requires Ends(k, s, ql) && SkipSpaces(s, ql) == ql && Ends(k, s, q)
    ensures Parse(k, s, p) == Rest(k, s, q, Bin(op, Abstract(l), Abstract(r)))
    decreases c, 0, 0
  {
    PhraseParses(k, l, s, p, ql);
    if k == TERM {
      var q' := AtomReads(r, s, pr, q);
      LeftReads(k, k - 1, s, p, ql, op, pr, q', Abstract(l), Abstract(r));
      RestAfterBlanks(k, s, q', q, Bin(op, Abstract(l), Abstract(r)));
    } else {
      PhraseWhole(k - 1, r, s, pr, q);
      LeftReads(k, k - 1, s, p, ql, op, pr, q, Abstract(l), Abstract(r));
    }
  }

  // ----- everything parsed is derived

  // `c` with more blanks after its last atom.
  function AddTrail(c: Cst, ws: string): (r: Cst)
    ensures Render(r) == Render(c) + ws
    ensures r.CBin? <==> c.CBin?
    ensures c.CBin? ==> r.op == c.op
  {
    match c
    case CLit(lead, digits, trail) => CLit(lead, digits, trail + ws)
    case CVar(lead, name, trail) => CVar(lead, name, trail + ws)
    case CParen(lead, inner, trail) => CParen(lead, inner, trail + ws)
    case CBin(op, l, r) =>
      assert Render(l) + OpText(op) + (Render(r) + ws) == Render(l) + OpText(op) + Render(r) + ws;
      CBin(op, l, AddTrail(r, ws))
  }

  lemma {:induction false} AddTrailDerives(k: nat, c: Cst, ws: string)
    requires Derives(k, c) && AllSpaces(ws)
    ensures Derives(k, AddTrail(c, ws))
    decreases c
  {
    if c.CBin? {
      AddTrailDerives(LevelOf(c.op) - 1, c.right, ws);
    }
  }

  lemma {:induction false} AddTrailAbstract(c: Cst, ws: string)
    requires Derives(OR, c) && AllSpaces(ws)
    ensures Derives(OR, AddTrail(c, ws)) && Abstract(AddTrail(c, ws)) == Abstract(c)
    decreases c
  {
    AddTrailDerives(OR, c, ws);
    if c.CBin? {
      DerivesUp(LevelOf(c.op) - 1, OR, c.right);
      AddTrailAbstract(c.right, ws);
    }
  }

  // `c` is a derivation of `s[p..q]` from level `k` that means `e`.
  ghost predicate Explains(k: nat, c: Cst, s: string, p: nat, q: nat, e: Expr)
    requires k <= OR
  {
    && p <= q <= |s| && Derives(k, c) && Render(c) == s[p..q]
    && (DerivesUp(k, OR, c); Abstract(c) == e)
  }

  lemma {:induction false} ExplainsUp(j: nat, k: nat, c: Cst, s: string, p: nat, q: nat, e: Expr)
    requires j <= k <= OR && Explains(j, c, s, p, q, e)
    ensures Explains(k, c, s, p, q, e)
  {
    DerivesUp(j, k, c);
  }

  // The blanks after a phrase belong to it.
  lemma {:induction false} ExplainsBlanks(k: nat, c: Cst, s: string, p: nat, q: nat, e: Expr) returns (c': Cst)
    requires k <= OR && Explains(k, c, s, p, q, e)
    ensures Explains(k, c', s, p, SkipSpaces(s, q), e)
  {
    var q' := SkipSpaces(s, q);
    var ws := s[q..q'];
    c' := AddTrail(c, ws);
    DerivesUp(k, OR, c);
    AddTrailDerives(k, c, ws);
    AddTrailAbstract(c, ws);
    assert s[p..q] + ws == s[p..q'];
  }

  lemma {:induction false} DerivesBin(k: nat, kl: nat, kr: nat, op: BinOp, l: Cst, r: Cst)
    requires k == LevelOf(op) && kl == (if k == CMP then SUM else k) && kr == k - 1
    requires Derives(kl, l) && Derives(kr, r)
    ensures Derives(k, CBin(op, l, r))
  {
  }

  // Two operands and the operator between them.
  lemma {:induction false} ExplainsBin(op: BinOp, l: Cst, r: Cst, s: string, p: nat, ql: nat, pr: nat, q: nat, el: Expr,
          er: Expr)
    requires ql + |OpText(op)| == pr && pr <= |s| && s[ql..pr] == OpText(op)
    requires Explains(if LevelOf(op) == CMP then SUM else LevelOf(op), l, s, p, ql, el)
    requires Explains(LevelOf(op) - 1, r, s, pr, q, er)
    ensures Explains(LevelOf(op), CBin(op, l, r), s, p, q, Bin(op, el, er))
  {
    var c, k := CBin(op, l, r), LevelOf(op);
    DerivesBin(k, if k == CMP then SUM else k, k - 1, op, l, r);
    DerivesUp(k, OR, c);
    assert s[p..ql] + s[ql..pr] + s[pr..q] == s[p..q];
  }

  lemma {:induction false} FoundOpStands(ops: seq<BinOp>, s: string, p: nat)
    requires p <= |s| && FindOp(ops, s, p).Some?
    ensures var (op, n) := FindOp(ops, s, p).value;
      op in ops && n == |OpText(op)| && s[p..p + n] == OpText(op)
  {
    if OpText(ops[0]) <= s[p..] {
      assert s[p..][..|OpText(ops[0])|] == s[p..p + |OpText(ops[0])|];
    } else {
      FoundOpStands(ops[1..], s, p);
    }
  }

  lemma {:induction false} ReadOperator(k: nat, s: string, p: nat)
    requires p <= |s| && OpAt(k, s, p).Some?
    ensures var (op, n) := OpAt(k, s, p).value;
      LevelOf(op) == k && n == |OpText(op)| && p + n <= |s| && s[p..p + n] == OpText(op)
  {
    FoundOpStands(OpsOf(k), s, p);
  }

  lemma {:induction false} ParsedIsDerived(k: nat, s: string, p: nat, e: Expr, q: nat) returns (c: Cst)
    requires k <= OR && p <= |s| && Parse(k, s, p) == Some((e, q))
    ensures Explains(k, c, s, p, q, e)
    decreases |s| - p, k, 2
  {
    if k == ATOM {
      c := AtomIsDerived(s, p, e, q);
    } else {
      var first := Parse(k - 1, s, p).value;
      c := ParsedIsDerived(k - 1, s, p, first.0, first.1);
      ExplainsUp(k - 1, if k == CMP then SUM else k, c, s, p, first.1, first.0);
      c := RestIsDerived(k, c, s, p, first.1, first.0, e, q);
    }
  }

  lemma {:induction false} RestIsDerived(k: nat, l: Cst, s: string, p: nat, q: nat, lhs: Expr, e: Expr, end: nat)
    returns (c: Cst)
    requires 1 <= k <= OR && p < q && Explains(if k == CMP then SUM else k, l, s, p, q, lhs)
    requires Rest(k, s, q, lhs) == Some((e, end))
    ensures Explains(k, c, s, p, end, e)
    decreases |s| - q, k, 1
  {
    var lk := if k == CMP then SUM else k;
    var q' := SkipSpaces(s, q);
    var l' := ExplainsBlanks(lk, l, s, p, q, lhs);
    RestAfterBlanks(k, s, q, q', lhs);
    if OpAt(k, s, q') == None {
      RestStops(k, s, q', lhs);
      ExplainsUp(lk, k, l', s, p, q', lhs);
      c := l';
    } else {
      var op, pr := OpAt(k, s, q').value.0, q' + OpAt(k, s, q').value.1;
      if k == CMP {
        c := CmpIsDerived(l', s, p, q', lhs, op, pr, e, end);
      } else {
        c := LeftIsDerived(k, k - 1, l', s, p, q', lhs, op, pr, e, end);
      }
    }
  }

  lemma {:induction false} CmpIsDerived(l: Cst, s: string, p: nat, ql: nat, lhs: Expr, op: BinOp, pr: nat, e: Expr,
          end: nat)
    returns (c: Cst)
    requires p < ql && Explains(SUM, l, s, p, ql, lhs)
    requires SkipSpaces(s, ql) == ql && ReadsOp(CMP, s, ql, op, pr) && Rest(CMP, s, ql, lhs) == Some((e, end))
    ensures Explains(CMP, c, s, p, end, e)
    decreases |s| - ql, CMP, 0
  {
    RestUnfolds(CMP, SUM, s, ql, op, pr, lhs);
    var rhs := Parse(SUM, s, pr).value;
    c := BinIsDerived(CMP, SUM, l, s, p, ql, lhs, op, pr, rhs.0, rhs.1);
  }

  lemma {:induction false} LeftIsDerived(k: nat, j: nat, l: Cst, s: string, p: nat, ql: nat, lhs: Expr, op: BinOp,
          pr: nat, e: Expr, end: nat)
    returns (c: Cst)
    requires 1 <= k <= OR && k != CMP && k == j + 1 && p < ql && Explains(k, l, s, p, ql, lhs)
    requires SkipSpaces(s, ql) == ql && ReadsOp(k, s, ql, op, pr) && Rest(k, s, ql, lhs) == Some((e, end))
    ensures Explains(k, c, s, p, end, e)
    decreases |s| - ql, k, 0
  {
    RestUnfolds(k, j, s, ql, op, pr, lhs);
    var rhs := Parse(j, s, pr).value;
    c := BinIsDerived(k, j, l, s, p, ql, lhs, op, pr, rhs.0, rhs.1);
    c := RestIsDerived(k, c, s, p, rhs.1, Bin(op, lhs, rhs.0), e, end);
  }

  lemma {:induction false} BinIsDerived(k: nat, j: nat, l: Cst, s: string, p: nat, ql: nat, lhs: Expr, op: BinOp,
          pr: nat, rhs: Expr, q: nat)
    returns (c: Cst)
    requires 1 <= k <= OR && k == j + 1 && p < ql < pr <= |s| && Explains(if k == CMP then SUM else k, l, s, p, ql, lhs)
    requires ReadsOp(k, s, ql, op, pr) && Parse(j, s, pr) == Some((rhs, q))
    ensures Explains(k, c, s, p, q, Bin(op, lhs, rhs))
    decreases |s| - pr, k, 0
  {
    ReadOperator(k, s, ql);
    var r := ParsedIsDerived(j, s, pr, rhs, q);
    ExplainsBin(op, l, r, s, p, ql, pr, q, lhs, rhs);
    c := CBin(op, l, r);
  }

  lemma {:induction false} AtomIsDerived(s: string, start: nat, e: Expr, q: nat) returns (c: Cst)
    requires start <= |s| && ParseAtom(s, start) == Some((e, q))
    ensures Explains(ATOM, c, s, start, q, e)
    decreases |s| - start, 0, 0
  {
    var p := SkipSpaces(s, start);
    if s[p] == '(' {
      var inner := Parse(OR, s, p + 1).value;
      var i := ParsedIsDerived(OR, s, p + 1, inner.0, inner.1);
      i := ExplainsBlanks(OR, i, s, p + 1, inner.1, inner.0);
      c := ExplainsParen(s, start, p, i, SkipSpaces(s, inner.1), inner.0);
    } else {
      c := ExplainsToken(s, start, p, e, q);
    }
  }

  lemma {:induction false} ExplainsParen(s: string, start: nat, p: nat, i: Cst, r: nat, e: Expr) returns (c: Cst)
    requires start <= p < r < |s| && AllSpaces(s[start..p]) && s[p] == '(' && s[r] == ')'
    requires Explains(OR, i, s, p + 1, r, e)
    ensures Explains(ATOM, c, s, start, r + 1, e)
  {
    c := CParen(s[start..p], i, "");
    assert Render(c) == s[start..p] + "(" + s[p + 1..r] + ")" + "";
    assert s[start..r + 1] == s[start..p] + [s[p]] + s[p + 1..r] + [s[r]] + "";
  }

  lemma {:induction false} TokenRead(s: string, start: nat, p: nat, e: Expr, q: nat)
    requires start <= |s| && p == SkipSpaces(s, start) < |s| && s[p] != '(' && ParseAtom(s, start) == Some((e, q))
    ensures if IsDigit(s[p]) then q == SkipDigits(s, p) && e == Lit(Decimal(s[p..q])) && Decimal(s[p..q]) < TWO_63
            else q == SkipIdent(s, p) && e == Var(s[p..q]) && IsIdentStart(s[p])
  {
  }

  lemma {:induction false} ExplainsLiteral(s: string, start: nat, p: nat, q: nat) returns (c: Cst)
    requires start <= p < q <= |s| && AllSpaces(s[start..p]) && AllDigits(s[p..q]) && Decimal(s[p..q]) < TWO_63
    ensures Explains(ATOM, c, s, start, q, Lit(Decimal(s[p..q])))
  {
    c := CLit(s[start..p], s[p..q], "");
    assert s[start..p] + s[p..q] + "" == s[start..q];
  }

  lemma {:induction false} ExplainsName(s: string, start: nat, p: nat, q: nat) returns (c: Cst)
    requires start <= p < q <= |s| && AllSpaces(s[start..p]) && IsIdent(s[p..q])
    ensures Explains(ATOM, c, s, start, q, Var(s[p..q]))
  {
    c := CVar(s[start..p], s[p..q], "");
    assert s[start..p] + s[p..q] + "" == s[start..q];
  }

  lemma {:induction false} ExplainsToken(s: string, start: nat, p: nat, e: Expr, q: nat) returns (c: Cst)
    requires start <= |s| && p == SkipSpaces(s, start) < |s| && s[p] != '(' && ParseAtom(s, start) == Some((e, q))
    ensures Explains(ATOM, c, s, start, q, e)
  {
    TokenRead(s, start, p, e, q);
    if IsDigit(s[p]) {
      c := ExplainsLiteral(s, start, p, q);
    } else {
      c := ExplainsName(s, start, p, q);
    }
  }

  // ----- the parser decides the grammar

  ghost predicate Means(s: string, e: Expr) {
    exists c :: Derives(OR, c) && Render(c) == s && Abstract(c) == e
  }

  // The parser accepts exactly the texts derived from the grammar, with their meaning.
  lemma {:induction false} ParserDecidesGrammar(s: string, e: Expr)
    ensures ParseExpr(s) == Some(e) <==> Means(s, e)
  {
    if ParseExpr(s) == Some(e) {
      var q := Parse(OR, s, 0).value.1;
      var c := ParsedIsDerived(OR, s, 0, e, q);
      c := ExplainsBlanks(OR, c, s, 0, q, e);
      assert s[0..|s|] == s;
    }
    if Means(s, e) {
      var c :| Derives(OR, c) && Render(c) == s && Abstract(c) == e;
      assert s[0..|s|] == s;
      EndOfTextEnds(s);
      PhraseWhole(OR, c, s, 0, |s|);
    }
  }

  // A text has at most one meaning.
  lemma {:induction false} GrammarIsUnambiguous(c: Cst, d: Cst)
    requires Derives(OR, c) && Derives(OR, d) && Render(c) == Render(d)
    ensures Abstract(c) == Abstract(d)
  {
    ParserDecidesGrammar(Render(c), Abstract(c));
    ParserDecidesGrammar(Render(c), Abstract(d));
  }

  // ----- printing

  // Expressions the grammar can write: its literals carry no sign.
  predicate Printable(e: Expr) {
    match e
    case Lit(v) => v >= 0
    case Var(name) => IsIdent(name)
    case Bin(_, l, r) => Printable(l) && Printable(r)
  }

  function ExprLevel(e: Expr): nat {
    if e.Bin? then LevelOf(e.op) else ATOM
  }

  // The derivation of `e` from level `k`, with parentheses only where the level needs them.
  function ToCst(k: nat, e: Expr): Cst
    requires Printable(e)
    decreases e, if ExprLevel(e) <= k then 0 else 1
  {
    if ExprLevel(e) > k then CParen("", ToCst(OR, e), "")
    else
      match e
      case Lit(v) => CLit("", DecimalText(v), "")
      case Var(name) => CVar("", name, "")
      case Bin(op, l, r) =>
        var j := LevelOf(op);
        CBin(op, ToCst(if j == CMP then SUM else j, l), ToCst(j - 1, r))
  }

  function Print(e: Expr): string
    requires Printable(e)
  {
    Render(ToCst(OR, e))
  }

  lemma {:induction false} ToCstMeans(k: nat, e: Expr)
    requires Printable(e) && k <= OR
    ensures Derives(k, ToCst(k, e)) && Derives(OR, ToCst(k, e)) && Abstract(ToCst(k, e)) == e
    decreases e, if ExprLevel(e) <= k then 0 else 1
  {
    if ExprLevel(e) > k {
      ToCstMeans(OR, e);
    } else if e.Bin? {
      var j := LevelOf(e.op);
      ToCstMeans(if j == CMP then SUM else j, e.left);
      ToCstMeans(j - 1, e.right);
    }
  }

  // Parsing undoes printing.
  lemma {:induction false} ParsePrint(e: Expr)
    requires Printable(e)
    ensures ParseExpr(Print(e)) == Some(e)
  {
    ToCstMeans(OR, e);
    ParserDecidesGrammar(Print(e), e);
  }
}
