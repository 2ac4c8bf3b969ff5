// Lines and the pieces they are written as (onchain/src/listing.rs, `build`): the line a piece begins on,
// and where a listing's instructions and labels stand.
module ListingLines {
  import opened Listing

  predicate OneLine(s: string) {
    forall i :: 0 <= i < |s| ==> s[i] != '\n'
  }

  predicate AllOneLine(ps: seq<string>) {
    forall i :: 0 <= i < |ps| ==> OneLine(ps[i])
  }

  // ---- A text as its reader splits it into lines ----------------------------------------

  // The lines ended so far, and the one still open.
  datatype Lines = Lines(ended: seq<string>, open: string)

  function Split(t: string): Lines {
    if t == "" then Lines([], "")
    else
      var before, c := Split(t[..|t| - 1]), t[|t| - 1];
      if c == '\n' then Lines(before.ended + [before.open], "") else Lines(before.ended, before.open + [c])
  }

  // The 1-based number of the line on which a text that follows `t` begins.
  function LineAfter(t: string): nat {
    |Split(t).ended| + 1
  }

  // Pieces as they are pushed, each followed by a newline.
  function Joined(ps: seq<string>): string {
    if ps == [] then "" else Joined(ps[..|ps| - 1]) + ps[|ps| - 1] + "\n"
  }

  lemma {:induction false} JoinedMore(ps: seq<string>, l: string)
    ensures Joined(ps + [l]) == Joined(ps) + l + "\n"
  {
    assert (ps + [l])[..|ps|] == ps;
  }

  lemma {:induction false} SplitAppend(t: string, s: string)
    requires OneLine(s)
    ensures Split(t + s) == Lines(Split(t).ended, Split(t).open + s)
  {
    if s == "" {
      assert t + s == t;
      assert Split(t).open + s == Split(t).open;
    } else {
      var init, c := s[..|s| - 1], s[|s| - 1];
      SplitAppend(t, init);
      assert (t + s)[..|t + s| - 1] == t + init;
      assert Split(t).open + s == Split(t).open + init + [c];
    }
  }

  lemma {:induction false} SplitNewline(t: string)
    ensures Split(t + "\n") == Lines(Split(t).ended + [Split(t).open], "")
  {
    assert (t + "\n")[..|t|] == t;
  }

  // Pieces without newlines are the lines the reader sees.
  lemma {:induction false} SplitJoined(ps: seq<string>)
    requires AllOneLine(ps)
    ensures Split(Joined(ps)) == Lines(ps, "")
  {
    if ps != [] {
      var init, l := ps[..|ps| - 1], ps[|ps| - 1];
      SplitJoined(init);
      SplitAppend(Joined(init), l);
      SplitNewline(Joined(init) + l);
      assert init + [l] == ps;
      assert "" + l == l;
    }
  }

  lemma {:induction false} LinesGrow(t: string, s: string)
    ensures LineAfter(t + s) >= LineAfter(t)
    ensures LineAfter(t + s) == LineAfter(t) <==> OneLine(s)
  {
    if s == "" {
      assert t + s == t;
    } else {
      var init := s[..|s| - 1];
      LinesGrow(t, init);
      assert (t + s)[..|t + s| - 1] == t + init;
      assert OneLine(s) <==> OneLine(init) && s[|s| - 1] != '\n' by {
        assert s == init + [s[|s| - 1]];
      }
    }
  }

  // A written piece begins on the line its number says exactly when no piece before it has a newline.
  lemma {:induction false} LineAfterPieces(ps: seq<string>)
    ensures LineAfter(Joined(ps)) >= |ps| + 1
    ensures LineAfter(Joined(ps)) == |ps| + 1 <==> AllOneLine(ps)
  {
    if ps != [] {
      var init, l := ps[..|ps| - 1], ps[|ps| - 1];
      LineAfterPieces(init);
      LinesGrow(Joined(init), l);
      SplitNewline(Joined(init) + l);
      assert ps == init + [l];
    }
  }

  // ---- What the second pass writes ------------------------------------------------------

  // The pieces of the text for the first `n` starts.
  function Written(show: nat -> string, labels: Labels, order: seq<nat>, n: nat): seq<string>
    requires n <= |order|
  {
    if n == 0 then []
    else Written(show, labels, order, n - 1) + LabelsAt(labels, order[n - 1]) + [show(order[n - 1])]
  }

  // The line the table gives the k-th start.
  function LineOf(show: nat -> string, labels: Labels, order: seq<nat>, k: nat): nat
    requires k < |order|
  {
    |Written(show, labels, order, k + 1)|
  }

  lemma {:induction false} WrittenPrefix(show: nat -> string, labels: Labels, order: seq<nat>, k: nat, n: nat)
    requires k <= n <= |order|
    ensures Written(show, labels, order, k) <= Written(show, labels, order, n)
    decreases n
  {
    if k < n {
      WrittenPrefix(show, labels, order, k, n - 1);
    }
  }

  // The table is strictly increasing.
  lemma {:induction false} LinesIncrease(show: nat -> string, labels: Labels, order: seq<nat>, j: nat, k: nat)
    requires j < k < |order|
    ensures LineOf(show, labels, order, j) < LineOf(show, labels, order, k)
    decreases k
  {
    if j < k - 1 {
      LinesIncrease(show, labels, order, j, k - 1);
    }
  }

  lemma {:induction false} EndOfPrefix(before: seq<string>, ls: seq<string>, l: string, ps: seq<string>)
    requires before + ls + [l] <= ps
    ensures var n := |before| + |ls| + 1; n <= |ps| && ps[n - 1] == l && ps[|before|..n - 1] == ls
  {
    var now := before + ls + [l];
    assert now[|before|..|before| + |ls|] == ls;
    assert ps[..|now|] == now;
  }

  // The labels of the first `n` starts.
  ghost predicate LabelsOneLine(labels: Labels, order: seq<nat>, n: nat)
    requires n <= |order|
  {
    forall i :: 0 <= i < n ==> AllOneLine(LabelsAt(labels, order[i]))
  }

  ghost predicate InstructionsOneLine(show: nat -> string) {
    forall pc: nat :: OneLine(show(pc))
  }

  lemma {:induction false} WrittenOneLine(show: nat -> string, labels: Labels, order: seq<nat>, n: nat)
    requires n <= |order| && InstructionsOneLine(show)
    ensures AllOneLine(Written(show, labels, order, n)) <==> LabelsOneLine(labels, order, n)
  {
    if n > 0 {
      WrittenOneLine(show, labels, order, n - 1);
      PartsOneLine(Written(show, labels, order, n - 1), LabelsAt(labels, order[n - 1]), show(order[n - 1]));
      assert LabelsOneLine(labels, order, n) <==>
             LabelsOneLine(labels, order, n - 1) && AllOneLine(LabelsAt(labels, order[n - 1]));
    }
  }

  lemma {:induction false} PartsOneLine(a: seq<string>, b: seq<string>, l: string)
    requires OneLine(l)
    ensures AllOneLine(a + b + [l]) <==> AllOneLine(a) && AllOneLine(b)
    ensures AllOneLine(a + b) <==> AllOneLine(a) && AllOneLine(b)
  {
    var s := a + b + [l];
    assert forall i :: 0 <= i < |a| ==> a[i] == s[i] == (a + b)[i];
    assert forall i :: 0 <= i < |b| ==> b[i] == s[|a| + i] == (a + b)[|a| + i];
  }

  // The text before the k-th start's instruction line.
  ghost function Before(show: nat -> string, labels: Labels, order: seq<nat>, k: nat): string
    requires k < |order|
  {
    Joined(Written(show, labels, order, k) + LabelsAt(labels, order[k]))
  }

  lemma {:induction false} JoinedPrefix(ps: seq<string>, k: nat)
    requires k <= |ps|
    ensures Joined(ps[..k]) <= Joined(ps)
    decreases |ps|
  {
    if k == |ps| {
      assert ps[..k] == ps;
    } else {
      JoinedPrefix(ps[..|ps| - 1], k);
      assert ps[..|ps| - 1][..k] == ps[..k];
    }
  }

  // The whole listing.
  ghost function Sheet(show: nat -> string, labels: Labels, order: seq<nat>): string {
    Joined(Written(show, labels, order, |order|))
  }

  // That text, then the instruction line, is how the listing goes.
  lemma {:induction false} BeforeInstruction(show: nat -> string, labels: Labels, order: seq<nat>, k: nat)
    requires k < |order|
    ensures Before(show, labels, order, k) + (show(order[k]) + "\n") <= Sheet(show, labels, order)
  {
    var now, ps := Written(show, labels, order, k + 1), Written(show, labels, order, |order|);
    WrittenPrefix(show, labels, order, k + 1, |order|);
    JoinedMore(Written(show, labels, order, k) + LabelsAt(labels, order[k]), show(order[k]));
    JoinedPrefix(ps, |now|);
    assert ps[..|now|] == now;
    Regroup(Before(show, labels, order, k), show(order[k]), "\n");
  }

  // Line `n` of the text begins at `off` and reads `line`.
  ghost predicate LineAt(text: string, off: nat, line: string, n: nat) {
    off <= |text| && LineAfter(text[..off]) == n && line + "\n" <= text[off..]
  }

  lemma {:induction false} LineAtPrefix(text: string, before: string, line: string, n: nat)
    requires before + (line + "\n") <= text
    ensures LineAt(text, |before|, line, n) <==> LineAfter(before) == n
  {
    var now := before + (line + "\n");
    assert text[..|now|] == now;
    assert text[..|before|] == before;
    assert text[|before|..][..|line| + 1] == line + "\n";
  }

  // Line `n` of the text is the k-th start's own instruction.
  ghost predicate PlacedRight(text: string, show: nat -> string, labels: Labels, order: seq<nat>, k: nat, n: nat)
    requires k < |order|
  {
    LineAt(text, |Before(show, labels, order, k)|, show(order[k]), n)
  }

  // The line the table gives the k-th start is its own instruction's exactly when no label written before
  // that instruction holds a newline.
  lemma {:induction false} PlacedRightIff(show: nat -> string, labels: Labels, order: seq<nat>, k: nat)
    requires k < |order| && InstructionsOneLine(show)
    ensures PlacedRight(Sheet(show, labels, order), show, labels, order, k, LineOf(show, labels, order, k))
       <==> LabelsOneLine(labels, order, k + 1)
  {
    var before := Written(show, labels, order, k);
    BeforeInstruction(show, labels, order, k);
    LineAtPrefix(Sheet(show, labels, order), Before(show, labels, order, k), show(order[k]),
      LineOf(show, labels, order, k));
    LineAfterPieces(before + LabelsAt(labels, order[k]));
    WrittenOneLine(show, labels, order, k + 1);
    PartsOneLine(before, LabelsAt(labels, order[k]), show(order[k]));
  }

  // What a table makes of the whole order.
  ghost predicate AllPlacedRight(text: string, show: nat -> string, labels: Labels, order: seq<nat>,
          table: nat -> nat) {
    forall k: nat :: k < |order| ==> PlacedRight(text, show, labels, order, k, table(order[k]))
  }

  // Every step lands on its instruction's line exactly when no written label holds a newline.
  lemma {:induction false} AllPlacedRightIff(show: nat -> string, labels: Labels, order: seq<nat>, table: nat -> nat)
    requires InstructionsOneLine(show)
    requires forall k: nat :: k < |order| ==> table(order[k]) == LineOf(show, labels, order, k)
    ensures AllPlacedRight(Sheet(show, labels, order), show, labels, order, table) <==>
      LabelsOneLine(labels, order, |order|)
  {
    var text := Sheet(show, labels, order);
    forall k: nat | k < |order|
      ensures PlacedRight(text, show, labels, order, k, table(order[k])) <==> LabelsOneLine(labels, order, k + 1)
    {
      PlacedRightIff(show, labels, order, k);
    }
    if AllPlacedRight(text, show, labels, order, table) && order != [] {
      assert PlacedRight(text, show, labels, order, |order| - 1, table(order[|order| - 1]));
    }
  }

  // Line `n` reads `line`, with `ls` on the lines right above and nothing else since line `before`; no
  // line follows a `last` one.
  ghost predicate StandsUnder(lines: seq<string>, n: nat, ls: seq<string>, line: string, before: nat, last: bool) {
    && |ls| < n <= |lines| && lines[n - 1] == line && lines[n - 1 - |ls|..n - 1] == ls
    && n - 1 - |ls| == before && (last ==> n == |lines|)
  }

  // Where the k-th start's instruction and labels stand among the lines.
  ghost predicate StandsAt(lines: seq<string>, show: nat -> string, labels: Labels, order: seq<nat>, k: nat)
    requires k < |order|
  {
    StandsUnder(lines, LineOf(show, labels, order, k), LabelsAt(labels, order[k]), show(order[k]),
                if k == 0 then 0 else LineOf(show, labels, order, k - 1), k == |order| - 1)
  }

  lemma {:induction false} PiecesOf(show: nat -> string, labels: Labels, order: seq<nat>, k: nat)
    requires k < |order|
    ensures StandsAt(Written(show, labels, order, |order|), show, labels, order, k)
  {
    WrittenPrefix(show, labels, order, k + 1, |order|);
    EndOfPrefix(Written(show, labels, order, k), LabelsAt(labels, order[k]), show(order[k]),
      Written(show, labels, order, |order|));
  }

  // The listing, as the reader of its lines sees it: line `pc_line[pc]` is that pc's instruction, its
  // labels are the lines right above, and the lines up to the previous instruction are all labels.
  lemma {:induction false} ListingIsConsistent(show: nat -> string, labels: Labels, order: seq<nat>, k: nat)
    requires InstructionsOneLine(show) && LabelsOneLine(labels, order, |order|) && k < |order|
    ensures StandsAt(Split(Sheet(show, labels, order)).ended, show, labels, order, k)
  {
    PiecesOf(show, labels, order, k);
    WrittenOneLine(show, labels, order, |order|);
    SplitJoined(Written(show, labels, order, |order|));
  }
}
