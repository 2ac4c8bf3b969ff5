// Recognising the top-level while loops of a function body (src/tracer.rs).
module LoopFinder {
  import opened Common
  import opened Expressions
  import opened WhileLoops

  // One trimmed source line: its braces, whether it is a `while ... {` header and what its
  // condition parses to, and the assignment it parses to.
  datatype BodyLine = BodyLine(opens: nat, closes: nat, header: Option<Option<Expr>>, assign: Option<Statement>)

  function Delta(l: BodyLine): int {
    l.opens - l.closes
  }

  // The net braces of lines [lo, hi).
  function Net(lines: seq<BodyLine>, lo: nat, hi: nat): int
    requires lo <= hi <= |lines|
  {
    if lo == hi then 0 else Net(lines, lo, hi - 1) + lines[hi - 1].opens - lines[hi - 1].closes
  }

  // The first line from `from` to `end` that brings `depth` to zero.
  function FindClose(lines: seq<BodyLine>, from: nat, end: nat, depth: int): (r: Option<nat>)
    requires end < |lines|
    ensures r.Some? ==> from <= r.value <= end
    decreases end + 1 - from
  {
    if from > end then None
    else if depth + Delta(lines[from]) == 0 then Some(from)
    else FindClose(lines, from + 1, end, depth + Delta(lines[from]))
  }

  // The body lines strictly between header index `h` and closing index `j`.
  function BodyOf(lines: seq<BodyLine>, h: nat, j: nat): (r: seq<Option<Statement>>)
    requires h < j < |lines|
    ensures |r| == j - h - 1
  {
    seq(j - h - 1, i requires 0 <= i < j - h - 1 => lines[h + 1 + i].assign)
  }

  // The header at index `h` whose brace closes at index `j`.
  function LoopOf(lines: seq<BodyLine>, h: nat, j: nat, condition: Expr): WhileLoop
    requires h < j < |lines|
  {
    WhileLoop(h + 1, h + 2, j + 1, condition, BodyOf(lines, h, j))
  }

  function HeaderLoop(lines: seq<BodyLine>, k: nat, end: nat, depth: int): (r: Option<(Expr, nat)>)
    requires k <= end < |lines|
    ensures r.Some? ==> k < r.value.1 <= end
  {
    if depth == 1 && lines[k].header.Some? && lines[k].header.value.Some? then
      match FindClose(lines, k + 1, end, 1)
      case None => None
      case Some(j) => Some((lines[k].header.value.value, j))
    else None
  }

  function FindLoops(lines: seq<BodyLine>, k: nat, end: nat, depth: int): seq<WhileLoop>
    requires end < |lines|
    decreases end + 1 - k
  {
    if k > end then []
    else
      match HeaderLoop(lines, k, end, depth)
      case Some((condition, j)) => [LoopOf(lines, k, j, condition)] + FindLoops(lines, j + 1, end, depth)
      case None => FindLoops(lines, k + 1, end, depth + Delta(lines[k]))
  }

  lemma {:induction false} FindTakes(lines: seq<BodyLine>, k: nat, end: nat, depth: int, condition: Expr, j: nat,
          out: seq<WhileLoop>)
    requires k <= end < |lines| && HeaderLoop(lines, k, end, depth) == Some((condition, j))
    ensures out + FindLoops(lines, k, end, depth) ==
      out + [LoopOf(lines, k, j, condition)] + FindLoops(lines, j + 1, end, depth)
  {
  }

  lemma {:induction false} FindSkips(lines: seq<BodyLine>, k: nat, end: nat, depth: int)
    requires k <= end < |lines| && HeaderLoop(lines, k, end, depth) == None
    ensures FindLoops(lines, k, end, depth) == FindLoops(lines, k + 1, end, depth + Delta(lines[k]))
  {
  }

  // ----- the scanner as it runs

  method ParseWhileLoops(lines: seq<BodyLine>, start: nat, end: nat) returns (out: seq<WhileLoop>)
    requires start <= end < |lines|
    ensures out == FindLoops(lines, start, end, 0)
  {
    out := [];
    var depth := 0;
    var k := start;
    while k <= end
      invariant start <= k <= end + 1
      invariant out + FindLoops(lines, k, end, depth) == FindLoops(lines, start, end, 0)
      decreases end + 1 - k
    {
      if depth == 1 && lines[k].header.Some? && lines[k].header.value.Some? {
        var closing := ScanClose(lines, k + 1, end);
        if closing.Some? {
          var body := ScanBody(lines, k, closing.value);
          var wl := WhileLoop(k + 1, k + 2, closing.value + 1, lines[k].header.value.value, body);
          FindTakes(lines, k, end, depth, lines[k].header.value.value, closing.value, out);
          out := out + [wl];
          k := closing.value + 1;
          continue;
        }
      }
      FindSkips(lines, k, end, depth);
      depth := depth + Delta(lines[k]);
      k := k + 1;
    }
    assert out + [] == out;
  }

  method ScanClose(lines: seq<BodyLine>, from: nat, end: nat) returns (closing: Option<nat>)
    requires from <= end + 1 && end < |lines|
    ensures closing == FindClose(lines, from, end, 1)
  {
    var localDepth := 1;
    var j := from;
    while j <= end
      invariant from <= j <= end + 1
      invariant FindClose(lines, j, end, localDepth) == FindClose(lines, from, end, 1)
      decreases end + 1 - j
    {
      localDepth := localDepth + Delta(lines[j]);
      if localDepth == 0 {
        return Some(j);
      }
      j := j + 1;
    }
    return None;
  }

  method ScanBody(lines: seq<BodyLine>, h: nat, j: nat) returns (body: seq<Option<Statement>>)
    requires h < j < |lines|
    ensures body == BodyOf(lines, h, j)
  {
    body := [];
    var i := h + 1;
    while i < j
      invariant h + 1 <= i <= j
      invariant body == BodyOf(lines, h, j)[..i - h - 1]
    {
      body := body + [lines[i].assign];
      i := i + 1;
    }
  }

  // ----- what is found

  // `wl` opens after index `lo - 1`, closes by index `end`, and its closing line is the
  // first one that matches the header's brace.
  ghost predicate Matched(lines: seq<BodyLine>, wl: WhileLoop, lo: nat, end: nat) {
    && lo < wl.headerLine < wl.closingLine <= end + 1 <= |lines|
    && wl.bodyStartLine == wl.headerLine + 1
    && lines[wl.headerLine - 1].header == Some(Some(wl.condition))
    && HasBody(lines, wl) && ClosesHere(lines, wl)
  }

  ghost predicate HasBody(lines: seq<BodyLine>, wl: WhileLoop) {
    && wl.headerLine < wl.closingLine <= |lines| && |wl.body| == wl.closingLine - wl.headerLine - 1
    && forall i :: 0 <= i < |wl.body| ==> wl.body[i] == lines[wl.headerLine + i].assign
  }

  ghost predicate ClosesHere(lines: seq<BodyLine>, wl: WhileLoop) {
    && wl.headerLine < wl.closingLine <= |lines| && Net(lines, wl.headerLine, wl.closingLine) == -1
    && forall j :: wl.headerLine <= j < wl.closingLine ==> Net(lines, wl.headerLine, j) != -1
  }

  lemma {:induction false} ClosesFirst(lines: seq<BodyLine>, lo: nat, from: nat, end: nat)
    requires lo <= from <= end + 1 <= |lines|
    requires forall j :: lo <= j <= from ==> Net(lines, lo, j) != -1
    ensures match FindClose(lines, from, end, 1 + Net(lines, lo, from))
      case None => true
      case Some(j) => Net(lines, lo, j + 1) == -1 && forall i :: lo <= i <= j ==> Net(lines, lo, i) != -1
    decreases end + 1 - from
  {
    if from <= end {
      assert Net(lines, lo, from + 1) == Net(lines, lo, from) + Delta(lines[from]);
      if Net(lines, lo, from + 1) != -1 {
        ClosesFirst(lines, lo, from + 1, end);
      }
    }
  }

  ghost predicate Apart(loops: seq<WhileLoop>, i: nat, j: nat) {
    i < j < |loops| ==> loops[i].closingLine < loops[j].headerLine
  }

  ghost predicate LoopsInOrder(lines: seq<BodyLine>, loops: seq<WhileLoop>, lo: nat, end: nat) {
    && (forall i :: 0 <= i < |loops| ==> Matched(lines, loops[i], lo, end))
    && forall i: nat, j: nat {:trigger Apart(loops, i, j)} :: Apart(loops, i, j)
  }

  lemma {:induction false} LoopMatches(lines: seq<BodyLine>, k: nat, end: nat, depth: int)
    requires k <= end < |lines| && HeaderLoop(lines, k, end, depth).Some?
    ensures var (condition, j) := HeaderLoop(lines, k, end, depth).value;
      Matched(lines, LoopOf(lines, k, j, condition), k, end)
  {
    ClosesFirst(lines, k + 1, k + 1, end);
  }

  lemma {:induction false} MatchedEarlier(lines: seq<BodyLine>, wl: WhileLoop, lo: nat, lo': nat, end: nat)
    requires Matched(lines, wl, lo', end) && lo <= lo'
    ensures Matched(lines, wl, lo, end)
  {
  }

  lemma {:induction false} InOrderEarlier(lines: seq<BodyLine>, loops: seq<WhileLoop>, lo: nat, lo': nat, end: nat)
    requires LoopsInOrder(lines, loops, lo', end) && lo <= lo'
    ensures LoopsInOrder(lines, loops, lo, end)
  {
    forall i | 0 <= i < |loops| ensures Matched(lines, loops[i], lo, end) {
      MatchedEarlier(lines, loops[i], lo, lo', end);
    }
  }

  // The loops found are brace-matched, in order and disjoint.
  lemma {:induction false} FoundLoopsMatch(lines: seq<BodyLine>, k: nat, end: nat, depth: int)
    requires end < |lines|
    ensures LoopsInOrder(lines, FindLoops(lines, k, end, depth), k, end)
    decreases end + 1 - k
  {
    if k <= end {
      match HeaderLoop(lines, k, end, depth)
      case None =>
        var next := depth + Delta(lines[k]);
        FoundLoopsMatch(lines, k + 1, end, next);
        InOrderEarlier(lines, FindLoops(lines, k + 1, end, next), k, k + 1, end);
      case Some((condition, j)) =>
        LoopMatches(lines, k, end, depth);
        var rest := FindLoops(lines, j + 1, end, depth);
        FoundLoopsMatch(lines, j + 1, end, depth);
        LoopBeforeRest(lines, LoopOf(lines, k, j, condition), rest, k, j + 1, end);
    }
  }

  lemma {:induction false} LoopBeforeRest(lines: seq<BodyLine>, wl: WhileLoop, rest: seq<WhileLoop>, lo: nat, mid: nat,
          end: nat)
    requires Matched(lines, wl, lo, end) && wl.closingLine <= mid && LoopsInOrder(lines, rest, mid, end)
    ensures LoopsInOrder(lines, [wl] + rest, lo, end)
  {
    InOrderEarlier(lines, rest, lo, mid, end);
    var all := [wl] + rest;
    forall i: nat, j: nat ensures Apart(all, i, j) {
      if i < j < |all| {
        assert Matched(lines, rest[j - 1], mid, end);
        assert i > 0 ==> Apart(rest, i - 1, j - 1);
      }
    }
  }

  // The scan's depth is the brace depth: a loop is found inside exactly one open brace of
  // the function, as long as each recognised header has a net of one brace.
  lemma {:induction false} FoundAtTopLevel(lines: seq<BodyLine>, start: nat, k: nat, end: nat, i: nat)
    requires start <= k <= end + 1 <= |lines|
    requires forall h :: start <= h <= end && lines[h].header.Some? ==> Delta(lines[h]) == 1
    requires i < |FindLoops(lines, k, end, Net(lines, start, k))|
    ensures var wl := FindLoops(lines, k, end, Net(lines, start, k))[i];
      start < wl.headerLine <= |lines| && Net(lines, start, wl.headerLine - 1) == 1
    decreases end + 1 - k
  {
    var depth := Net(lines, start, k);
    assert k <= end;
    match HeaderLoop(lines, k, end, depth)
    case None =>
      assert Net(lines, start, k + 1) == depth + Delta(lines[k]);
      FoundAtTopLevel(lines, start, k + 1, end, i);
    case Some((condition, j)) =>
      SkippedIsLevel(lines, start, k, end, j);
      if i > 0 {
        FoundAtTopLevel(lines, start, j + 1, end, i - 1);
      }
  }

  // A recognised header directly inside the function's braces, whose own brace closes by `end`.
  ghost predicate OpensLoop(lines: seq<BodyLine>, start: nat, end: nat, h: nat)
    requires start <= h <= end < |lines|
  {
    && lines[h].header.Some? && lines[h].header.value.Some? && Net(lines, start, h) == 1
    && exists j: nat :: ClosesAt(lines, h, end, j)
  }

  ghost predicate ClosesAt(lines: seq<BodyLine>, h: nat, end: nat, j: nat)
    requires h <= end < |lines|
  {
    h < j <= end && Net(lines, h + 1, j + 1) == -1
  }

  // Index `h` is not among the lines after a loop's header up to its close.
  predicate Outside(wl: WhileLoop, h: nat) {
    h + 1 <= wl.headerLine || wl.closingLine < h + 1
  }

  predicate AllOutside(loops: seq<WhileLoop>, h: nat) {
    forall i :: 0 <= i < |loops| ==> Outside(loops[i], h)
  }

  lemma {:induction false} CloseIsFound(lines: seq<BodyLine>, lo: nat, from: nat, end: nat, j: nat)
    requires lo <= from <= j <= end < |lines| && Net(lines, lo, j + 1) == -1
    ensures FindClose(lines, from, end, 1 + Net(lines, lo, from)).Some?
    decreases end + 1 - from
  {
    assert Net(lines, lo, from + 1) == Net(lines, lo, from) + Delta(lines[from]);
    if from < j {
      CloseIsFound(lines, lo, from + 1, end, j);
    }
  }

  lemma {:induction false} OpensIsHeader(lines: seq<BodyLine>, start: nat, end: nat, h: nat)
    requires start <= h <= end < |lines| && OpensLoop(lines, start, end, h)
    ensures HeaderLoop(lines, h, end, 1).Some?
  {
    var j: nat :| ClosesAt(lines, h, end, j);
    CloseIsFound(lines, h + 1, h + 1, end, j);
  }

  // Every such header that is in no other loop found is found, as long as each recognised header has a net
  // of one brace.
  lemma {:induction false} EveryLoopIsFound(lines: seq<BodyLine>, start: nat, k: nat, end: nat, h: nat) returns (i: nat)
    requires start <= k <= h <= end < |lines| && OpensLoop(lines, start, end, h)
    requires forall l :: start <= l <= end && lines[l].header.Some? ==> Delta(lines[l]) == 1
    requires AllOutside(FindLoops(lines, k, end, Net(lines, start, k)), h)
    ensures var loops := FindLoops(lines, k, end, Net(lines, start, k)); i < |loops| && loops[i].headerLine == h + 1
    decreases end + 1 - k
  {
    var depth := Net(lines, start, k);
    OpensIsHeader(lines, start, end, h);
    match HeaderLoop(lines, k, end, depth)
    case None =>
      LoopsAfterPlain(lines, start, k, end);
      i := EveryLoopIsFound(lines, start, k + 1, end, h);
    case Some((condition, j)) =>
      if k == h {
        i := 0;
      } else {
        LoopsAfterLoop(lines, start, k, end, condition, j);
        OutsideRest(LoopOf(lines, k, j, condition), FindLoops(lines, j + 1, end, Net(lines, start, j + 1)), h);
        i := EveryLoopIsFound(lines, start, j + 1, end, h);
        i := i + 1;
      }
  }

  lemma {:induction false} LoopsAfterPlain(lines: seq<BodyLine>, start: nat, k: nat, end: nat)
    requires start <= k <= end < |lines| && HeaderLoop(lines, k, end, Net(lines, start, k)) == None
    ensures FindLoops(lines, k, end, Net(lines, start, k)) == FindLoops(lines, k + 1, end, Net(lines, start, k + 1))
  {
  }

  lemma {:induction false} LoopsAfterLoop(lines: seq<BodyLine>, start: nat, k: nat, end: nat, condition: Expr, j: nat)
    requires start <= k <= end < |lines| && Delta(lines[k]) == 1
    requires HeaderLoop(lines, k, end, Net(lines, start, k)) == Some((condition, j))
    ensures k < j <= end
    ensures FindLoops(lines, k, end, Net(lines, start, k))
         == [LoopOf(lines, k, j, condition)] + FindLoops(lines, j + 1, end, Net(lines, start, j + 1))
  {
    SkippedIsLevel(lines, start, k, end, j);
  }

  lemma {:induction false} OutsideRest(wl: WhileLoop, rest: seq<WhileLoop>, h: nat)
    requires AllOutside([wl] + rest, h)
    ensures Outside(wl, h) && AllOutside(rest, h)
  {
    var all := [wl] + rest;
    assert Outside(all[0], h);
    assert forall i :: 0 <= i < |rest| ==> rest[i] == all[i + 1];
  }

  // A loop found leaves the brace depth as it was before its header.
  lemma {:induction false} SkippedIsLevel(lines: seq<BodyLine>, start: nat, k: nat, end: nat, j: nat)
    requires start <= k <= end < |lines| && Delta(lines[k]) == 1
    requires HeaderLoop(lines, k, end, Net(lines, start, k)).Some? &&
      HeaderLoop(lines, k, end, Net(lines, start, k)).value.1 == j
    ensures Net(lines, start, j + 1) == Net(lines, start, k)
  {
    ClosesFirst(lines, k + 1, k + 1, end);
    NetSplit(lines, start, k, j + 1);
    NetSplit(lines, k, k + 1, j + 1);
    assert Net(lines, k, k + 1) == Net(lines, k, k) + Delta(lines[k]);
  }

  lemma {:induction false} NetSplit(lines: seq<BodyLine>, lo: nat, mid: nat, hi: nat)
    requires lo <= mid <= hi <= |lines|
    ensures Net(lines, lo, hi) == Net(lines, lo, mid) + Net(lines, mid, hi)
  {
    if mid < hi {
      NetSplit(lines, lo, mid, hi - 1);
    }
  }
}
