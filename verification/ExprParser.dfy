// The recursive-descent expression parser (src/tracer.rs). A source text is a sequence of bytes, written
// as characters.
module ExprParser {
  import opened Common
  import opened Digits
  import opened Expressions

  // Grammar levels: 0 atom, 1 product, 2 sum, 3 comparison, 4 conjunction, 5 disjunction.
  const ATOM: nat := 0
  const TERM: nat := 1
  const SUM: nat := 2
  const CMP: nat := 3
  const AND: nat := 4
  const OR: nat := 5

  predicate IsSpace(c: char) {
    c == ' ' || c == '\t' || c == '\n' || c as int == 12 || c == '\r'
  }

  predicate IsIdentStart(c: char) {
    'a' <= c <= 'z' || 'A' <= c <= 'Z' || c == '_'
  }

  predicate IsIdentChar(c: char) {
    IsIdentStart(c) || IsDigit(c)
  }

  // The first position from `p` whose byte is not of the class.
  function SkipSpaces(s: string, p: nat): (q: nat)
    requires p <= |s|
    ensures p <= q <= |s| && (forall i :: p <= i < q ==> IsSpace(s[i])) && (q < |s| ==> !IsSpace(s[q]))
    decreases |s| - p
  {
    if p < |s| && IsSpace(s[p]) then SkipSpaces(s, p + 1) else p
  }

  function SkipDigits(s: string, p: nat): (q: nat)
    requires p <= |s|
    ensures p <= q <= |s| && (forall i :: p <= i < q ==> IsDigit(s[i])) && (q < |s| ==> !IsDigit(s[q]))
    decreases |s| - p
  {
    if p < |s| && IsDigit(s[p]) then SkipDigits(s, p + 1) else p
  }

  function SkipIdent(s: string, p: nat): (q: nat)
    requires p <= |s|
    ensures p <= q <= |s| && (forall i :: p <= i < q ==> IsIdentChar(s[i])) && (q < |s| ==> !IsIdentChar(s[q]))
    decreases |s| - p
  {
    if p < |s| && IsIdentChar(s[p]) then SkipIdent(s, p + 1) else p
  }

  function OpText(op: BinOp): (t: string)
    ensures 1 <= |t| <= 2
  {
    match op
    case Add => "+"
    case Sub => "-"
    case Mul => "*"
    case Lt => "<"
    case Le => "<="
    case Gt => ">"
    case Ge => ">="
    case Eq => "=="
    case Ne => "!="
    case And => "&&"
    case Or => "||"
  }

  function LevelOf(op: BinOp): nat {
    match op
    case Mul => TERM
    case Add => SUM
    case Sub => SUM
    case And => AND
    case Or => OR
    case _ => CMP
  }

  // The operators of a level, in the order they are tried: two-character comparisons first.
  function OpsOf(k: nat): seq<BinOp> {
    if k == TERM then [Mul]
    else if k == SUM then [Add, Sub]
    else if k == CMP then [Le, Ge, Eq, Ne, Lt, Gt]
    else if k == AND then [And]
    else if k == OR then [Or]
    else []
  }

  // The first of `ops` that stands at `p`, with its length.
  function FindOp(ops: seq<BinOp>, s: string, p: nat): (r: Option<(BinOp, nat)>)
    requires p <= |s|
    ensures r.Some? ==> 1 <= r.value.1 && p + r.value.1 <= |s|
  {
    if ops == [] then None
    else if OpText(ops[0]) <= s[p..] then Some((ops[0], |OpText(ops[0])|))
    else FindOp(ops[1..], s, p)
  }

  function OpAt(k: nat, s: string, p: nat): (r: Option<(BinOp, nat)>)
    requires p <= |s|
    ensures r.Some? ==> 1 <= r.value.1 && p + r.value.1 <= |s|
  {
    FindOp(OpsOf(k), s, p)
  }

  // The same by looking at two characters.
  function OpByCases(k: nat, c: char, d: char): Option<(BinOp, nat)> {
    if k == TERM then
      if c == '*' then Some((Mul, 1)) else None
    else if k == SUM then
      if c == '+' then Some((Add, 1)) else if c == '-' then Some((Sub, 1)) else None
    else if k == CMP then
      if c == '<' && d == '=' then Some((Le, 2))
      else if c == '>' && d == '=' then Some((Ge, 2))
      else if c == '=' && d == '=' then Some((Eq, 2))
      else if c == '!' && d == '=' then Some((Ne, 2))
      else if c == '<' then Some((Lt, 1))
      else if c == '>' then Some((Gt, 1))
      else None
    else if k == AND then
      if c == '&' && d == '&' then Some((And, 2)) else None
    else if k == OR then
      if c == '|' && d == '|' then Some((Or, 2)) else None
    else None
  }

  function CharAt(s: string, p: nat): char {
    if p < |s| then s[p] else '\0'
  }

  // `op` stands at `p`, looking at two characters.
  predicate OpHere(op: BinOp, c: char, d: char) {
    c == OpText(op)[0] && (|OpText(op)| == 2 ==> d == OpText(op)[1])
  }

  lemma {:induction false} OpTextStands(op: BinOp, s: string, p: nat)
    requires p <= |s|
    ensures OpText(op) <= s[p..] <==> OpHere(op, CharAt(s, p), CharAt(s, p + 1))
  {
    var t := OpText(op);
    assert t[0] != '\0' && (|t| == 2 ==> t[1] != '\0');
    if OpHere(op, CharAt(s, p), CharAt(s, p + 1)) {
      assert s[p..][..|t|] == t;
    }
  }

  lemma {:induction false} FindOpStep(ops: seq<BinOp>, s: string, p: nat)
    requires p <= |s| && ops != []
    ensures FindOp(ops, s, p) ==
      if OpHere(ops[0], CharAt(s, p), CharAt(s, p + 1)) then Some((ops[0], |OpText(ops[0])|))
      else FindOp(ops[1..], s, p)
  {
    OpTextStands(ops[0], s, p);
  }

  lemma {:induction false} OpAtByCases(k: nat, s: string, p: nat)
    requires p <= |s|
    ensures OpAt(k, s, p) == OpByCases(k, CharAt(s, p), CharAt(s, p + 1))
  {
    var ops := OpsOf(k);
    if k == CMP {
      FindOpStep(ops, s, p);
      FindOpStep(ops[1..], s, p);
      assert ops[1..][1..] == [Eq, Ne, Lt, Gt];
      FindOpStep([Eq, Ne, Lt, Gt], s, p);
      assert [Eq, Ne, Lt, Gt][1..] == [Ne, Lt, Gt];
      FindOpStep([Ne, Lt, Gt], s, p);
      assert [Ne, Lt, Gt][1..] == [Lt, Gt];
      FindOpStep([Lt, Gt], s, p);
      assert [Lt, Gt][1..] == [Gt];
      FindOpStep([Gt], s, p);
    } else if k == SUM {
      FindOpStep(ops, s, p);
      assert ops[1..] == [Sub];
      FindOpStep([Sub], s, p);
    } else if ops != [] {
      FindOpStep(ops, s, p);
    }
  }

  type Parsed = Option<(Expr, nat)>

  // What parsing level `k` at `p` yields: the expression, and the position after it and
  // the blanks that follow it.
  function Parse(k: nat, s: string, p: nat): (r: Parsed)
    requires p <= |s|
    ensures r.Some? ==> p < r.value.1 <= |s|
    decreases |s| - p, k, 2
  {
    if k == ATOM then ParseAtom(s, p)
    else
      var first := Parse(k - 1, s, p);
      if first == None then None else Rest(k, s, first.value.1, first.value.0)
  }

  // Continuing level `k` after its first operand and the blanks that follow it.
  function Rest(k: nat, s: string, p: nat, lhs: Expr): (r: Parsed)
    requires k > 0 && p <= |s|
    ensures r.Some? ==> p <= r.value.1 <= |s|
    decreases |s| - p, k, 1
  {
    RestAt(k, s, SkipSpaces(s, p), lhs)
  }

  function RestAt(k: nat, s: string, q: nat, lhs: Expr): (r: Parsed)
    requires k > 0 && q <= |s|
    ensures r.Some? ==> q <= r.value.1 <= |s|
    decreases |s| - q, k, 0
  {
    var op := OpAt(k, s, q);
    if op == None then Some((lhs, q))
    else
      var rhs := Parse(k - 1, s, q + op.value.1);
      if rhs == None then None
      else
        var e := Bin(op.value.0, lhs, rhs.value.0);
        if k == CMP then Some((e, rhs.value.1)) else Rest(k, s, rhs.value.1, e)
  }

  function ParseAtom(s: string, start: nat): (r: Parsed)
    requires start <= |s|
    ensures r.Some? ==> start < r.value.1 <= |s|
    decreases |s| - start, 0, 0
  {
    var p := SkipSpaces(s, start);
    if p == |s| then None
    else if s[p] == '(' then
      var inner := Parse(OR, s, p + 1);
      if inner == None then None
      else
        var q := SkipSpaces(s, inner.value.1);
        if q < |s| && s[q] == ')' then Some((inner.value.0, q + 1)) else None
    else if IsDigit(s[p]) then
      var q := SkipDigits(s, p);
      var v := Decimal(s[p..q]);
      if v < TWO_63 then Some((Lit(v), q)) else None
    else if IsIdentStart(s[p]) then
      var q := SkipIdent(s, p);
      Some((Var(s[p..q]), q))
    else None
  }

  // What `parse_expr` answers: a disjunction that is the whole input.
  function ParseExpr(s: string): Option<Expr> {
    match Parse(OR, s, 0)
    case None => None
    case Some((e, p)) => if SkipSpaces(s, p) == |s| then Some(e) else None
  }

  // ----- one step of the parser at a time

  lemma {:induction false} ParseAbove(k: nat, j: nat, s: string, p: nat, e: Expr, q: nat)
    requires k == j + 1 && p <= |s| && Parse(j, s, p) == Some((e, q))
    ensures q <= |s| && Parse(k, s, p) == Rest(k, s, q, e)
  {
  }

  // The operator `op` of level `k` stands between `q` and `pr`.
  predicate ReadsOp(k: nat, s: string, q: nat, op: BinOp, pr: nat)
    requires q <= |s|
  {
    OpAt(k, s, q).Some? && OpAt(k, s, q).value.0 == op && q + OpAt(k, s, q).value.1 == pr
  }

  lemma {:induction false} OnlyOp(k: nat, op: BinOp, s: string, q: nat)
    requires q <= |s| && OpsOf(k) == [op]
    ensures if OpHere(op, CharAt(s, q), CharAt(s, q + 1)) then ReadsOp(k, s, q, op, q + |OpText(op)|)
      else OpAt(k, s, q) == None
  {
    FindOpStep([op], s, q);
  }

  lemma {:induction false} RestStops(k: nat, s: string, q: nat, e: Expr)
    requires k > 0 && q <= |s| && SkipSpaces(s, q) == q && OpAt(k, s, q) == None
    ensures Rest(k, s, q, e) == Some((e, q))
  {
  }

  lemma {:induction false} RestUnfolds(k: nat, j: nat, s: string, q: nat, op: BinOp, pr: nat, lhs: Expr)
    requires k == j + 1 && q <= |s| && SkipSpaces(s, q) == q && ReadsOp(k, s, q, op, pr)
    ensures var r := Parse(j, s, pr);
      Rest(k, s, q, lhs) ==
        if r == None then None
        else if k == CMP then Some((Bin(op, lhs, r.value.0), r.value.1))
        else Rest(k, s, r.value.1, Bin(op, lhs, r.value.0))
  {
  }

  lemma {:induction false} RestReads(k: nat, j: nat, s: string, q: nat, op: BinOp, pr: nat, lhs: Expr, rhs: Expr,
          q': nat)
    requires k == j + 1 && q <= |s| && SkipSpaces(s, q) == q && ReadsOp(k, s, q, op, pr)
    requires Parse(j, s, pr) == Some((rhs, q'))
    ensures q' <= |s|
    ensures Rest(k, s, q, lhs) == if k == CMP then Some((Bin(op, lhs, rhs), q')) else Rest(k, s, q', Bin(op, lhs, rhs))
  {
    RestUnfolds(k, j, s, q, op, pr, lhs);
  }

  lemma {:induction false} RestFails(k: nat, j: nat, s: string, q: nat, op: BinOp, pr: nat, lhs: Expr)
    requires k == j + 1 && q <= |s| && SkipSpaces(s, q) == q && ReadsOp(k, s, q, op, pr)
    requires Parse(j, s, pr) == None
    ensures Rest(k, s, q, lhs) == None
  {
    RestUnfolds(k, j, s, q, op, pr, lhs);
  }

  // Blanks before an operator make no difference.
  lemma {:induction false} RestAfterBlanks(k: nat, s: string, p: nat, q: nat, e: Expr)
    requires k > 0 && p <= q <= |s| && SkipSpaces(s, p) == q && SkipSpaces(s, q) == q
    ensures Rest(k, s, p, e) == Rest(k, s, q, e)
  {
  }

  // ----- the parser as it runs

  // A method that answered `r` and stopped at `pos` did what `p` says.
  ghost predicate Yields(p: Parsed, r: Option<Expr>, pos: nat) {
    (r.Some? <==> p.Some?) && (r.Some? ==> p.value == (r.value, pos))
  }

  class Parser {
    const src: string
    var pos: nat

    ghost predicate Valid()
      reads this
    {
      pos <= |src|
    }

    constructor (s: string)
      ensures Valid() && src == s && pos == 0
    {
      src, pos := s, 0;
    }

    method SkipWs()
      requires Valid()
      modifies this
      ensures Valid() && pos == SkipSpaces(src, old(pos))
    {
      while pos < |src| && IsSpace(src[pos])
        invariant Valid() && SkipSpaces(src, pos) == SkipSpaces(src, old(pos))
      {
        pos := pos + 1;
      }
    }

    // `eat_str` of an operator's text.
    method EatOp(op: BinOp) returns (ok: bool)
      requires Valid()
      modifies this
      ensures Valid() && ok == OpHere(op, CharAt(src, old(pos)), CharAt(src, old(pos) + 1))
      ensures pos == if ok then old(pos) + |OpText(op)| else old(pos)
    {
      ok := OpText(op) <= src[pos..];
      OpTextStands(op, src, pos);
      if ok {
        pos := pos + |OpText(op)|;
      }
    }

    predicate PeekIs(c: char)
      requires Valid()
      reads this
    {
      pos < |src| && src[pos] == c
    }

    method ParseOr() returns (r: Option<Expr>)
      requires Valid()
      modifies this
      ensures Valid() && Yields(Parse(OR, src, old(pos)), r, pos)
      decreases |src| - pos, OR
    {
      var lhs := ParseAnd();
      if lhs == None {
        return None;
      }
      var e := lhs.value;
      ParseAbove(OR, AND, src, old(pos), e, pos);
      while true
        invariant Valid() && pos > old(pos) && Rest(OR, src, pos, e) == Parse(OR, src, old(pos))
        decreases |src| - pos
      {
        ghost var p := pos;
        SkipWs();
        ghost var q := pos;
        RestAfterBlanks(OR, src, p, q, e);
        OnlyOp(OR, Or, src, q);
        var ok := EatOp(Or);
        if !ok {
          RestStops(OR, src, q, e);
          break;
        }
        ghost var pr := pos;
        var rhs := ParseAnd();
        if rhs == None {
          RestFails(OR, AND, src, q, Or, pr, e);
          return None;
        }
        RestReads(OR, AND, src, q, Or, pr, e, rhs.value, pos);
        e := Bin(Or, e, rhs.value);
      }
      return Some(e);
    }

    method ParseAnd() returns (r: Option<Expr>)
      requires Valid()
      modifies this
      ensures Valid() && Yields(Parse(AND, src, old(pos)), r, pos)
      decreases |src| - pos, AND
    {
      var lhs := ParseCmp();
      if lhs == None {
        return None;
      }
      var e := lhs.value;
      ParseAbove(AND, CMP, src, old(pos), e, pos);
      while true
        invariant Valid() && pos > old(pos) && Rest(AND, src, pos, e) == Parse(AND, src, old(pos))
        decreases |src| - pos
      {
        ghost var p := pos;
        SkipWs();
        ghost var q := pos;
        RestAfterBlanks(AND, src, p, q, e);
        OnlyOp(AND, And, src, q);
        var ok := EatOp(And);
        if !ok {
          RestStops(AND, src, q, e);
          break;
        }
        ghost var pr := pos;
        var rhs := ParseCmp();
        if rhs == None {
          RestFails(AND, CMP, src, q, And, pr, e);
          return None;
        }
        RestReads(AND, CMP, src, q, And, pr, e, rhs.value, pos);
        e := Bin(And, e, rhs.value);
      }
      return Some(e);
    }

    method ParseCmp() returns (r: Option<Expr>)
      requires Valid()
      modifies this
      ensures Valid() && Yields(Parse(CMP, src, old(pos)), r, pos)
      decreases |src| - pos, CMP
    {
      var lhs := ParseSum();
      if lhs == None {
        return None;
      }
      ghost var p := pos;
      ParseAbove(CMP, SUM, src, old(pos), lhs.value, p);
      SkipWs();
      ghost var q := pos;
      RestAfterBlanks(CMP, src, p, q, lhs.value);
      var op := ReadCmpOp();
      if op == None {
        RestStops(CMP, src, q, lhs.value);
        return lhs;
      }
      ghost var pr := pos;
      var rhs := ParseSum();
      if rhs == None {
        RestFails(CMP, SUM, src, q, op.value, pr, lhs.value);
        return None;
      }
      RestReads(CMP, SUM, src, q, op.value, pr, lhs.value, rhs.value, pos);
      return Some(Bin(op.value, lhs.value, rhs.value));
    }

    // The two-character comparisons are tried first.
    method ReadCmpOp() returns (op: Option<BinOp>)
      requires Valid()
      modifies this
      ensures Valid()
      ensures match OpAt(CMP, src, old(pos))
        case None => op == None && pos == old(pos)
        case Some((o, n)) => op == Some(o) && pos == old(pos) + n
    {
      OpAtByCases(CMP, src, pos);
      var ok := EatOp(Le);
      if ok {
        return Some(Le);
      }
      ok := EatOp(Ge);
      if ok {
        return Some(Ge);
      }
      ok := EatOp(Eq);
      if ok {
        return Some(Eq);
      }
      ok := EatOp(Ne);
      if ok {
        return Some(Ne);
      }
      if PeekIs('<') {
        pos := pos + 1;
        return Some(Lt);
      }
      if PeekIs('>') {
        pos := pos + 1;
        return Some(Gt);
      }
      return None;
    }

    method ParseSum() returns (r: Option<Expr>)
      requires Valid()
      modifies this
      ensures Valid() && Yields(Parse(SUM, src, old(pos)), r, pos)
      decreases |src| - pos, SUM
    {
      var lhs := ParseTerm();
      if lhs == None {
        return None;
      }
      var e := lhs.value;
      ParseAbove(SUM, TERM, src, old(pos), e, pos);
      while true
        invariant Valid() && pos > old(pos) && Rest(SUM, src, pos, e) == Parse(SUM, src, old(pos))
        decreases |src| - pos
      {
        ghost var p := pos;
        SkipWs();
        ghost var q := pos;
        RestAfterBlanks(SUM, src, p, q, e);
        OpAtByCases(SUM, src, q);
        var op;
        if PeekIs('+') {
          op := Add;
        } else if PeekIs('-') {
          op := Sub;
        } else {
          RestStops(SUM, src, q, e);
          break;
        }
        pos := pos + 1;
        ghost var pr := pos;
        var rhs := ParseTerm();
        if rhs == None {
          RestFails(SUM, TERM, src, q, op, pr, e);
          return None;
        }
        RestReads(SUM, TERM, src, q, op, pr, e, rhs.value, pos);
        e := Bin(op, e, rhs.value);
      }
      return Some(e);
    }

    method ParseTerm() returns (r: Option<Expr>)
      requires Valid()
      modifies this
      ensures Valid() && Yields(Parse(TERM, src, old(pos)), r, pos)
      decreases |src| - pos, TERM
    {
      var lhs := ParseAtomic();
      if lhs == None {
        return None;
      }
      var e := lhs.value;
      ParseAbove(TERM, ATOM, src, old(pos), e, pos);
      while true
        invariant Valid() && pos > old(pos) && Rest(TERM, src, pos, e) == Parse(TERM, src, old(pos))
        decreases |src| - pos
      {
        ghost var p := pos;
        SkipWs();
        ghost var q := pos;
        RestAfterBlanks(TERM, src, p, q, e);
        OnlyOp(TERM, Mul, src, q);
        if !PeekIs('*') {
          RestStops(TERM, src, q, e);
          break;
        }
        pos := pos + 1;
        ghost var pr := pos;
        var rhs := ParseAtomic();
        if rhs == None {
          RestFails(TERM, ATOM, src, q, Mul, pr, e);
          return None;
        }
        RestReads(TERM, ATOM, src, q, Mul, pr, e, rhs.value, pos);
        e := Bin(Mul, e, rhs.value);
      }
      return Some(e);
    }

    method ParseAtomic() returns (r: Option<Expr>)
      requires Valid()
      modifies this
      ensures Valid() && Yields(Parse(ATOM, src, old(pos)), r, pos)
      decreases |src| - pos, ATOM
    {
      SkipWs();
      if pos == |src| {
        return None;
      }
      var c := src[pos];
      if c == '(' {
        pos := pos + 1;
        var e := ParseOr();
        if e == None {
          return None;
        }
        SkipWs();
        if !PeekIs(')') {
          return None;
        }
        pos := pos + 1;
        return e;
      }
      if IsDigit(c) {
        var start := pos;
        while pos < |src| && IsDigit(src[pos])
          invariant Valid() && start <= pos && SkipDigits(src, pos) == SkipDigits(src, start)
          invariant forall i :: start <= i < pos ==> IsDigit(src[i])
        {
          pos := pos + 1;
        }
        var v := Decimal(src[start..pos]);
        return if v < TWO_63 then Some(Lit(v)) else None;
      }
      if IsIdentStart(c) {
        var start := pos;
        while pos < |src| && IsIdentChar(src[pos])
          invariant Valid() && start <= pos && SkipIdent(src, pos) == SkipIdent(src, start)
        {
          pos := pos + 1;
        }
        return Some(Var(src[start..pos]));
      }
      return None;
    }
  }

  method RunParseExpr(input: string) returns (r: Option<Expr>)
    ensures r == ParseExpr(input)
  {
    var p := new Parser(input);
    r := p.ParseOr();
    if r == None {
      return None;
    }
    p.SkipWs();
    if p.pos < |input| {
      return None;
    }
  }
}
