// Byte offsets to lines and columns, and the two tables of line lengths (src/source_map.rs).
module SourceMap {
  import opened Common

  const NEWLINE: Byte := 10

  // An `as u32` cast.
  function Cut(x: nat): (r: nat)
    ensures r < TWO_32
  {
    x % TWO_32
  }

  // ---- Line starts ----------------------------------------------------------------------

  // The starts of the lines begun in the first `n` bytes.
  function Starts(src: seq<Byte>, n: nat): (starts: seq<nat>)
    requires n <= |src|
    ensures |starts| >= 1
  {
    if n == 0 then [0]
    else if src[n - 1] == NEWLINE then Starts(src, n - 1) + [n]
    else Starts(src, n - 1)
  }

  lemma {:induction false} StartsIncrease(src: seq<Byte>, n: nat)
    requires n <= |src|
    ensures Increasing(Starts(src, n)) && Starts(src, n)[0] == 0
    ensures forall i :: 0 <= i < |Starts(src, n)| ==> Starts(src, n)[i] <= n
  {
    if n > 0 {
      StartsIncrease(src, n - 1);
    }
  }

  method FromSource(src: seq<Byte>) returns (starts: seq<nat>)
    ensures starts == Starts(src, |src|)
  {
    starts := [0];
    for i := 0 to |src|
      invariant starts == Starts(src, i)
    {
      if src[i] == NEWLINE {
        starts := starts + [i + 1];
      }
    }
  }

  // ---- Looking an offset up -------------------------------------------------------------

  datatype Search = Found(at: nat) | Absent(before: nat)

  function BinarySearch(s: seq<nat>, x: nat, lo: nat, hi: nat): (r: Search)
    requires Increasing(s) && lo <= hi <= |s|
    requires forall i :: 0 <= i < lo ==> s[i] < x
    requires forall i :: hi <= i < |s| ==> s[i] > x
    ensures r.Found? ==> r.at < |s| && s[r.at] == x
    ensures r.Absent? ==> r.before <= |s|
    ensures r.Absent? ==> forall i :: 0 <= i < r.before ==> s[i] < x
    ensures r.Absent? ==> forall i :: r.before <= i < |s| ==> s[i] > x
    decreases hi - lo
  {
    if lo == hi then Absent(lo)
    else
      var mid := lo + (hi - lo) / 2;
      if s[mid] == x then Found(mid)
      else if s[mid] < x then BinarySearch(s, x, mid + 1, hi)
      else BinarySearch(s, x, lo, mid)
  }

  function ByteToLine(starts: seq<nat>, offset: nat): nat
    requires Increasing(starts)
  {
    match BinarySearch(starts, offset, 0, |starts|)
    case Found(at) => Cut(at + 1)
    case Absent(before) => Cut(before)
  }

  function LineIndex(starts: seq<nat>, offset: nat): nat
    requires Increasing(starts)
  {
    match BinarySearch(starts, offset, 0, |starts|)
    case Found(at) => at
    case Absent(before) => if before == 0 then 0 else before - 1
  }

  function ByteToLineCol(starts: seq<nat>, offset: nat): (nat, nat)
    requires Increasing(starts)
  {
    var at := LineIndex(starts, offset);
    var start := if at < |starts| then starts[at] else 0;
    var column := Cut(Cut(if offset >= start then offset - start else 0) + 1);
    (Cut(at + 1), column)
  }

  // The greatest line that starts at or before the offset.
  ghost predicate IsLineOf(starts: seq<nat>, offset: nat, at: nat) {
    at < |starts| && starts[at] <= offset && (at + 1 < |starts| ==> offset < starts[at + 1])
  }

  lemma {:induction false} LineIsGreatest(src: seq<Byte>, offset: nat)
    ensures Increasing(Starts(src, |src|))
    ensures var starts := Starts(src, |src|);
      && IsLineOf(starts, offset, LineIndex(starts, offset))
      && ByteToLine(starts, offset) == ByteToLineCol(starts, offset).0 == Cut(LineIndex(starts, offset) + 1)
  {
    StartsIncrease(src, |src|);
  }

  lemma {:induction false} LineIsUnique(starts: seq<nat>, offset: nat, i: nat, j: nat)
    requires Increasing(starts) && IsLineOf(starts, offset, i) && IsLineOf(starts, offset, j)
    ensures i == j
  {
    NoLaterLine(starts, offset, i, j);
    NoLaterLine(starts, offset, j, i);
  }

  lemma {:induction false} NoLaterLine(starts: seq<nat>, offset: nat, i: nat, j: nat)
    requires Increasing(starts) && IsLineOf(starts, offset, i)
    ensures i < j ==> !IsLineOf(starts, offset, j)
  {
    if i < j < |starts| {
      assert starts[i + 1] <= starts[j];
    }
  }

  function Newlines(src: seq<Byte>, n: nat): nat
    requires n <= |src|
  {
    if n == 0 then 0 else Newlines(src, n - 1) + if src[n - 1] as char == '\n' then 1 else 0
  }

  lemma {:induction false} StartsCountNewlines(src: seq<Byte>, n: nat)
    requires n <= |src|
    ensures |Starts(src, n)| == Newlines(src, n) + 1
  {
    if n > 0 {
      StartsCountNewlines(src, n - 1);
    }
  }

  lemma {:induction false} StartsPrefix(src: seq<Byte>, m: nat, n: nat)
    requires m <= n <= |src|
    ensures Starts(src, m) <= Starts(src, n)
    ensures forall i :: |Starts(src, m)| <= i < |Starts(src, n)| ==> Starts(src, n)[i] > m
    decreases n
  {
    if m < n {
      StartsPrefix(src, m, n - 1);
    }
  }

  // The line of an offset is one more than the newlines before it.
  lemma {:induction false} LineCountsNewlines(src: seq<Byte>, offset: nat)
    requires offset <= |src|
    ensures Increasing(Starts(src, |src|))
    ensures LineIndex(Starts(src, |src|), offset) == Newlines(src, offset)
  {
    var starts := Starts(src, |src|);
    LineIsGreatest(src, offset);
    StartsIncrease(src, offset);
    StartsCountNewlines(src, offset);
    StartsPrefix(src, offset, |src|);
    var at := Newlines(src, offset);
    assert starts[at] == Starts(src, offset)[at];
    LineIsUnique(starts, offset, at, LineIndex(starts, offset));
  }

  // A position inverts, line start plus column less one, exactly when the column fits 32 bits.
  lemma {:induction false} PositionInverts(src: seq<Byte>, offset: nat)
    ensures Increasing(Starts(src, |src|))
    ensures var starts := Starts(src, |src|);
      var at, column := LineIndex(starts, offset), ByteToLineCol(starts, offset).1;
      && at < |starts|
      && (starts[at] + column - 1 == offset <==> offset - starts[at] + 1 < TWO_32)
  {
    LineIsGreatest(src, offset);
    var starts := Starts(src, |src|);
    CutTwice(offset - starts[LineIndex(starts, offset)]);
  }

  lemma {:induction false} CutTwice(x: nat)
    ensures Cut(Cut(x) + 1) == Cut(x + 1)
    ensures Cut(x + 1) == x + 1 <==> x + 1 < TWO_32
  {
  }

  // ---- Line lengths ---------------------------------------------------------------------

  // The lengths of the lines ended in the first `n` bytes, and that of the open one.
  datatype Scan = Scan(ended: seq<nat>, open: nat)

  function Scanned(src: seq<Byte>, n: nat): Scan
    requires n <= |src|
  {
    if n == 0 then Scan([], 0)
    else
      var s := Scanned(src, n - 1);
      if src[n - 1] as char == '\n' then Scan(s.ended + [s.open], 0) else Scan(s.ended, s.open + 1)
  }

  // The lengths of a source's lines; a final newline opens no further line.
  function Lengths(src: seq<Byte>): seq<nat> {
    var s := Scanned(src, |src|);
    if s.open > 0 then s.ended + [s.open] else s.ended
  }

  function Each(f: nat -> nat, s: seq<nat>): (r: seq<nat>)
    ensures |r| == |s| && forall i :: 0 <= i < |s| ==> r[i] == f(s[i])
  {
    seq(|s|, i requires 0 <= i < |s| => f(s[i]))
  }

  // A 32-bit count that saturates.
  function Saturated(x: nat): nat {
    if x < TWO_32 then x else TWO_32 - 1
  }

  method LineLengths(src: seq<Byte>) returns (lengths: seq<nat>)
    ensures lengths == Each(Cut, Lengths(src))
  {
    lengths := [];
    var lineStart: nat := 0;
    for i := 0 to |src|
      invariant lineStart + Scanned(src, i).open == i
      invariant lengths == Each(Cut, Scanned(src, i).ended)
    {
      if src[i] == NEWLINE {
        lengths := lengths + [Cut(i - lineStart)];
        lineStart := i + 1;
      }
    }
    if lineStart < |src| {
      lengths := lengths + [Cut(|src| - lineStart)];
    }
  }

  // The table read from a file: none for a synthetic or unreadable path.
  method ReadLineLengths(file: Option<seq<Byte>>) returns (lengths: seq<nat>)
    ensures file == None ==> lengths == []
    ensures file == Some([]) ==> lengths == [0]
    ensures file.Some? && file.value != [] ==> lengths == Each(Saturated, Lengths(file.value))
  {
    if file == None {
      return [];
    }
    var src := file.value;
    lengths := [];
    var current: nat := 0;
    for i := 0 to |src|
      invariant current == Saturated(Scanned(src, i).open)
      invariant lengths == Each(Saturated, Scanned(src, i).ended)
    {
      if src[i] == NEWLINE {
        lengths := lengths + [current];
        current := 0;
      } else {
        current := Saturated(current + 1);
      }
    }
    if current > 0 || src == [] || src[|src| - 1] != NEWLINE {
      lengths := lengths + [current];
    }
  }

  // The bytes of the first `i` lines, newlines included.
  function SumTo(lengths: seq<nat>, i: nat): nat
    requires i <= |lengths|
  {
    if i == 0 then 0 else SumTo(lengths, i - 1) + lengths[i - 1] + 1
  }

  lemma {:induction false} SumToPrefix(a: seq<nat>, b: seq<nat>, i: nat)
    requires i <= |a| && a <= b
    ensures SumTo(a, i) == SumTo(b, i)
  {
    if i > 0 {
      SumToPrefix(a, b, i - 1);
    }
  }

  lemma {:induction false} ScannedSums(src: seq<Byte>, n: nat)
    requires n <= |src|
    ensures var s, starts := Scanned(src, n), Starts(src, n);
      && |starts| == |s.ended| + 1
      && n == SumTo(s.ended, |s.ended|) + s.open
      && forall i: nat :: i < |starts| ==> starts[i] == SumTo(s.ended, i)
  {
    if n > 0 {
      ScannedSums(src, n - 1);
      var s, t := Scanned(src, n - 1), Scanned(src, n);
      forall i: nat | i <= |s.ended| ensures SumTo(t.ended, i) == SumTo(s.ended, i) {
        SumToPrefix(s.ended, t.ended, i);
      }
    }
  }

  // Line `i + 1` starts where the lines before it, each with its newline, end.
  lemma {:induction false} StartsAreSums(src: seq<Byte>, i: nat)
    requires i < |Starts(src, |src|)|
    ensures i <= |Lengths(src)| && Starts(src, |src|)[i] == SumTo(Lengths(src), i)
  {
    ScannedSums(src, |src|);
    SumToPrefix(Scanned(src, |src|).ended, Lengths(src), i);
  }

  // A source without a newline is one line, unless it is empty.
  lemma {:induction false} OneOpenLine(src: seq<Byte>, n: nat)
    requires n <= |src| && forall i :: 0 <= i < n ==> src[i] != NEWLINE
    ensures Scanned(src, n).ended == [] && Scanned(src, n).open == n
  {
    if n > 0 {
      OneOpenLine(src, n - 1);
    }
  }

  lemma {:induction false} OneLineLengths(src: seq<Byte>)
    requires forall i :: 0 <= i < |src| ==> src[i] != NEWLINE
    ensures Lengths(src) == if src == [] then [] else [|src|]
  {
    OneOpenLine(src, |src|);
  }

  // The empty source: no line against one of length zero.
  lemma {:induction false} EmptySourceDiffers()
    ensures Each(Cut, Lengths([])) == []
  {
    OneLineLengths([]);
  }

  // A line of 2^32 bytes: its length is cast to zero, and saturates.
  lemma {:induction false} LongLineDiffers(src: seq<Byte>)
    requires |src| == TWO_32 && forall i :: 0 <= i < |src| ==> src[i] != NEWLINE
    ensures Each(Cut, Lengths(src)) == [0] && Each(Saturated, Lengths(src)) == [TWO_32 - 1]
  {
    OneLineLengths(src);
  }

  // A longer line on which both agree all the same.
  lemma {:induction false} LongLineAgrees(src: seq<Byte>)
    requires |src| == 2 * TWO_32 - 1 && forall i :: 0 <= i < |src| ==> src[i] != NEWLINE
    ensures Each(Cut, Lengths(src)) == Each(Saturated, Lengths(src)) == [TWO_32 - 1]
  {
    OneLineLengths(src);
  }

  // Both tables are the same exactly when the source is not empty and each line's length is below 2^32
  // or casts to the largest 32-bit number.
  lemma {:induction false} TablesEqualIff(src: seq<Byte>)
    ensures Each(Cut, Lengths(src)) == (if src == [] then [0] else Each(Saturated, Lengths(src))) <==>
      src != [] && forall i :: 0 <= i < |Lengths(src)| ==>
        Lengths(src)[i] < TWO_32 || Lengths(src)[i] % TWO_32 == TWO_32 - 1
  {
    var ls := Lengths(src);
    if src == [] {
      assert ls == [];
    } else {
      var a, b := Each(Cut, ls), Each(Saturated, ls);
      assert a == b <==> forall i :: 0 <= i < |ls| ==> a[i] == b[i];
    }
  }
}
