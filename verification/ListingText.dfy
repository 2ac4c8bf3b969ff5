// The listing's text and its pc-to-line table (onchain/src/listing.rs, `build`): every pc is placed on
// its own instruction line of the text as a reader splits it.
module ListingText {
  import opened Common
  import opened FieldInts
  import opened Listing
  import opened ListingLines

  function Body(p: Program, pc: nat): string {
    if pc >= |p.words| then "" else
    match p.At(pc)
    case Some(ins) => p.show(ins, if ins.immediate then p.Immediate(pc) else None)
    case None => "dw " + ToHex(p.words[pc])
  }

  function InstrLine(p: Program, pc: nat): string {
    "0x" + Padded(HexText(pc)) + "  " + Body(p, pc)
  }

  function InstrLines(p: Program): nat -> string {
    (pc: nat) => InstrLine(p, pc)
  }

  // ---- Instruction lines hold no newline ------------------------------------------------

  lemma {:induction false} OneLineJoin(a: string, b: string)
    requires OneLine(a) && OneLine(b)
    ensures OneLine(a + b)
  {
  }

  lemma {:induction false} HexIsOneLine(s: string)
    requires AllHex(s)
    ensures OneLine(s) && OneLine(Padded(s))
  {
    forall i | 0 <= i < |s| ensures s[i] != '\n' {
      assert IsHex(s[i]);
    }
  }

  ghost predicate ShownOnOneLine(p: Program) {
    forall ins, imm :: OneLine(p.show(ins, imm))
  }

  lemma {:induction false} BodyOneLine(p: Program, pc: nat)
    requires ShownOnOneLine(p)
    ensures OneLine(Body(p, pc))
  {
    if pc < |p.words| && p.At(pc) == None {
      HexIsOneLine(HexText(p.words[pc]));
      OneLineJoin("0x", HexText(p.words[pc]));
      OneLineJoin("dw ", ToHex(p.words[pc]));
    }
  }

  // An instruction's line has no newline when its shown text has none.
  lemma {:induction false} InstrLineOneLine(p: Program, pc: nat)
    requires ShownOnOneLine(p)
    ensures OneLine(InstrLine(p, pc))
  {
    var hex, body := Padded(HexText(pc)), Body(p, pc);
    HexIsOneLine(HexText(pc));
    BodyOneLine(p, pc);
    OneLineJoin("0x", hex);
    OneLineJoin("0x" + hex, "  ");
    OneLineJoin("0x" + hex + "  ", body);
  }

  lemma {:induction false} InstrLinesOneLine(p: Program)
    requires ShownOnOneLine(p)
    ensures InstructionsOneLine(InstrLines(p))
  {
    forall pc: nat ensures OneLine(InstrLines(p)(pc)) {
      InstrLineOneLine(p, pc);
    }
  }

  // ---- The second pass ------------------------------------------------------------------

  ghost predicate TableOf(show: nat -> string, labels: Labels, order: seq<nat>, n: nat, pcLine: map<nat, nat>)
    requires n <= |order|
  {
    && (forall pc :: pc in pcLine ==> pc in order)
    && (forall k: nat :: k < n ==> order[k] in pcLine && pcLine[order[k]] == LineOf(show, labels, order, k))
  }

  method PushLabels(ls: seq<string>, text0: string, line0: nat, ghost ps: seq<string>) returns (text: string, line: nat)
    requires text0 == Joined(ps) && line0 == |ps|
    ensures text == Joined(ps + ls) && line == |ps + ls|
  {
    text, line := text0, line0;
    assert ps + ls[..0] == ps;
    for i := 0 to |ls|
      invariant text == Joined(ps + ls[..i]) && line == |ps| + i
    {
      JoinedMore(ps + ls[..i], ls[i]);
      assert ps + ls[..i] + [ls[i]] == ps + ls[..i + 1];
      text := text + ls[i];
      text := text + "\n";
      line := line + 1;
    }
    assert ls[..|ls|] == ls;
  }

  // How many of the first `n` starts are in `some`.
  function CountIn(some: set<nat>, order: seq<nat>, n: nat): nat
    requires n <= |order|
  {
    if n == 0 then 0 else CountIn(some, order, n - 1) + if order[n - 1] in some then 1 else 0
  }

  lemma {:induction false} CountsAll(some: set<nat>, order: seq<nat>, n: nat)
    requires n <= |order| && Increasing(order) && forall pc :: pc in some ==> exists i :: 0 <= i < n && order[i] == pc
    ensures CountIn(some, order, n) == |some|
  {
    if n == 0 {
      assert some == {};
    } else {
      var last := order[n - 1];
      CountsAll(some - {last}, order, n - 1);
      SameCount(some, some - {last}, order, n - 1);
      if last in some {
        assert some == (some - {last}) + {last};
      } else {
        assert some - {last} == some;
      }
    }
  }

  lemma {:induction false} SameCount(a: set<nat>, b: set<nat>, order: seq<nat>, n: nat)
    requires n <= |order| && forall i :: 0 <= i < n ==> (order[i] in a <==> order[i] in b)
    ensures CountIn(a, order, n) == CountIn(b, order, n)
  {
    if n > 0 {
      SameCount(a, b, order, n - 1);
    }
  }

  lemma {:induction false} TableStep(show: nat -> string, labels: Labels, order: seq<nat>, k: nat,
          pcLine: map<nat, nat>, line: nat)
    requires k < |order| && Increasing(order) && TableOf(show, labels, order, k, pcLine)
    requires line == LineOf(show, labels, order, k)
    ensures TableOf(show, labels, order, k + 1, pcLine[order[k] := line])
  {
  }

  // The text and the line count once the first `k` starts are written.
  ghost predicate TextUpTo(show: nat -> string, labels: Labels, order: seq<nat>, k: nat, text: string, line: nat)
    requires k <= |order|
  {
    text == Joined(Written(show, labels, order, k)) && line == |Written(show, labels, order, k)|
  }

  lemma {:induction false} TextStep(show: nat -> string, labels: Labels, order: seq<nat>, k: nat, text: string,
          line: nat)
    requires k < |order|
    requires text == Joined(Written(show, labels, order, k) + LabelsAt(labels, order[k]))
    requires line == |Written(show, labels, order, k) + LabelsAt(labels, order[k])|
    ensures TextUpTo(show, labels, order, k + 1, text + show(order[k]) + "\n", line + 1)
    ensures LineOf(show, labels, order, k) == line + 1
  {
    JoinedMore(Written(show, labels, order, k) + LabelsAt(labels, order[k]), show(order[k]));
  }

  // The labels and the instruction of one start.
  method WriteStart(show: nat -> string, labels: Labels, ghost order: seq<nat>, ghost k: nat, pc: nat, text0: string,
          line0: nat)
    returns (text: string, line: nat)
    requires k < |order| && order[k] == pc && TextUpTo(show, labels, order, k, text0, line0)
    ensures TextUpTo(show, labels, order, k + 1, text, line) && line == LineOf(show, labels, order, k)
  {
    text, line := PushLabels(LabelsAt(labels, pc), text0, line0, Written(show, labels, order, k));
    TextStep(show, labels, order, k, text, line);
    line := line + 1;
    text := text + show(pc) + "\n";
  }

  method WriteText(show: nat -> string, order: seq<nat>, decoded: map<nat, Instruction>, labels: Labels)
    returns (text: string, pcLine: map<nat, nat>, instructions: nat)
    requires Increasing(order)
    ensures text == Sheet(show, labels, order)
    ensures TableOf(show, labels, order, |order|, pcLine)
    ensures instructions == CountIn(decoded.Keys, order, |order|)
  {
    text, pcLine, instructions := "", map[], 0;
    var line := 0;
    for k := 0 to |order|
      invariant TextUpTo(show, labels, order, k, text, line)
      invariant TableOf(show, labels, order, k, pcLine)
      invariant instructions == CountIn(decoded.Keys, order, k)
    {
      text, line := WriteStart(show, labels, order, k, order[k], text, line);
      TableStep(show, labels, order, k, pcLine, line);
      pcLine := pcLine[order[k] := line];
      if order[k] in decoded {
        instructions := instructions + 1;
      }
    }
  }

  // ---- The table and the text -----------------------------------------------------------

  // No label of an instruction start holds a newline.
  ghost predicate NoLabelBreaks(order: seq<nat>, names: Names, targets: set<nat>) {
    forall k: nat :: k < |order| ==> AllOneLine(AllLabels(names, targets, order[k]))
  }

  function LineIn(pcLine: map<nat, nat>, pc: nat): nat {
    if pc in pcLine then pcLine[pc] else 0
  }

  // The table's line of every start is, in the text, that start's own instruction.
  ghost predicate TableIsRight(show: nat -> string, labels: Labels, order: seq<nat>, text: string,
          pcLine: map<nat, nat>) {
    AllPlacedRight(text, show, labels, order, (pc: nat) => LineIn(pcLine, pc))
  }

  // The lines a reader sees are, for each start in turn, its labels and then, on the table's line, its
  // instruction.
  ghost predicate ReadsInOrder(show: nat -> string, order: seq<nat>, names: Names, targets: set<nat>, text: string,
          pcLine: map<nat, nat>) {
    forall k: nat :: k < |order| ==> ReadsAt(show, order, names, targets, Split(text).ended, pcLine, k)
  }

  ghost predicate ReadsAt(show: nat -> string, order: seq<nat>, names: Names, targets: set<nat>, lines: seq<string>,
          pcLine: map<nat, nat>, k: nat)
    requires k < |order|
  {
    StandsUnder(lines, LineIn(pcLine, order[k]), AllLabels(names, targets, order[k]), show(order[k]),
                if k == 0 then 0 else LineIn(pcLine, order[k - 1]), k == |order| - 1)
  }

  // The text and the table agree exactly when no label breaks its line, and then read in order.
  lemma {:induction false} TextAndTableAgree(show: nat -> string, order: seq<nat>, names: Names, targets: set<nat>,
          labels: Labels, pcLine: map<nat, nat>)
    requires InstructionsOneLine(show) && Labelled(names, targets, labels)
    requires TableOf(show, labels, order, |order|, pcLine)
    ensures var text := Sheet(show, labels, order);
      && (TableIsRight(show, labels, order, text, pcLine) <==> NoLabelBreaks(order, names, targets))
      && (NoLabelBreaks(order, names, targets) ==> ReadsInOrder(show, order, names, targets, text, pcLine))
  {
    AllPlacedRightIff(show, labels, order, (pc: nat) => LineIn(pcLine, pc));
    LabelsBreakAlike(order, names, targets, labels);
    if NoLabelBreaks(order, names, targets) {
      forall k: nat | k < |order|
        ensures ReadsAt(show, order, names, targets, Split(Sheet(show, labels, order)).ended, pcLine, k)
      {
        ListingIsConsistent(show, labels, order, k);
        ReadsWhereItStands(show, order, names, targets, labels, pcLine, Split(Sheet(show, labels, order)).ended, k);
      }
    }
  }

  lemma {:induction false} LabelsBreakAlike(order: seq<nat>, names: Names, targets: set<nat>, labels: Labels)
    requires Labelled(names, targets, labels)
    ensures LabelsOneLine(labels, order, |order|) <==> NoLabelBreaks(order, names, targets)
  {
    assert forall k: nat :: k < |order| ==> LabelsAt(labels, order[k]) == AllLabels(names, targets, order[k]);
  }

  lemma {:induction false} TableLine(show: nat -> string, labels: Labels, order: seq<nat>, pcLine: map<nat, nat>,
          k: nat)
    requires k < |order| && TableOf(show, labels, order, |order|, pcLine)
    ensures LineIn(pcLine, order[k]) == LineOf(show, labels, order, k)
  {
  }

  lemma {:induction false} ReadsWhereItStands(show: nat -> string, order: seq<nat>, names: Names, targets: set<nat>,
          labels: Labels, pcLine: map<nat, nat>, lines: seq<string>, k: nat)
    requires k < |order| && LabelsAt(labels, order[k]) == AllLabels(names, targets, order[k])
    requires TableOf(show, labels, order, |order|, pcLine) && StandsAt(lines, show, labels, order, k)
    ensures ReadsAt(show, order, names, targets, lines, pcLine, k)
  {
    TableLine(show, labels, order, pcLine, k);
    if k > 0 {
      TableLine(show, labels, order, pcLine, k - 1);
    }
  }

  // `build`: what the table and the text are, how they agree, and what the listing calls each function.
  method Build(p: Program, names: Names)
    returns (text: string, pcLine: map<nat, nat>, instructions: nat, functionAt: map<nat, string>,
          decoded: map<nat, Instruction>, entryNames: map<nat, string>, ghost labels: Labels, ghost targets: set<nat>)
    requires p.Valid()
    ensures Decoded(p, Starts(p, 0), decoded) && instructions == |decoded|
    ensures text == Sheet(InstrLines(p), labels, Starts(p, 0))
    ensures TableOf(InstrLines(p), labels, Starts(p, 0), |Starts(p, 0)|, pcLine)
    ensures Labelled(names, targets, labels)
    ensures ShownOnOneLine(p) ==>
      (TableIsRight(InstrLines(p), labels, Starts(p, 0), text, pcLine) <==> NoLabelBreaks(Starts(p, 0), names, targets))
    ensures ShownOnOneLine(p) && NoLabelBreaks(Starts(p, 0), names, targets) ==>
      ReadsInOrder(InstrLines(p), Starts(p, 0), names, targets, text, pcLine)
    ensures NamesFunctions(names, targets, functionAt)
    ensures forall t :: t in targets <==> CallReaches(p, t)
    ensures NamesEntries(names, entryNames)
  {
    var order: seq<nat>;
    order, decoded := DecodePass(p);
    StartsIncrease(p, 0);
    CountsAll(decoded.Keys, order, |order|);
    var ts := CallTargets(p, decoded);
    targets := ts;
    var ls: Labels;
    ls, functionAt, entryNames := PlaceLabels(names, ts);
    labels := ls;
    text, pcLine, instructions := WriteText(InstrLines(p), order, decoded, ls);
    if ShownOnOneLine(p) {
      InstrLinesOneLine(p);
      TextAndTableAgree(InstrLines(p), order, names, targets, labels, pcLine);
    }
    forall t ensures t in targets <==> CallReaches(p, t) {
      TargetsOfStarts(p, decoded, t);
    }
  }

  // A Cairo 0 class of one word, with one function.
  function NamedOnly(name: string): Names {
    Names(ListingWording(map[]), [], map[0 := name], map[], [])
  }

  // When the name holds a newline the only instruction is on line 3, and the table says 2.
  lemma {:induction false} NewlineMisplaces(first: string, rest: string, show: nat -> string, labels: Labels)
    requires OneLine(first) && OneLine(rest)
    requires Labelled(NamedOnly(first + "\n" + rest), {}, labels)
    ensures var text, off := Sheet(show, labels, [0]), |Before(show, labels, [0], 0)|;
      LineOf(show, labels, [0], 0) == 2 && !LineAt(text, off, show(0), 2) && LineAt(text, off, show(0), 3)
  {
    var heading := first + "\n" + rest + ":";
    LabelOfNamed(first + "\n" + rest);
    assert LabelsAt(labels, 0) == [heading];
    assert Written(show, labels, [0], 0) == [];
    assert Written(show, labels, [0], 1) == [heading] + [show(0)];
    BeforeInstruction(show, labels, [0], 0);
    JoinedMore([], heading);
    assert [] + [heading] == [heading] && Joined([]) + heading == heading;
    assert Before(show, labels, [0], 0) == heading + "\n";
    TwoLines(first, rest + ":");
    assert first + "\n" + (rest + ":") + "\n" == heading + "\n";
    LineAtPrefix(Sheet(show, labels, [0]), Before(show, labels, [0], 0), show(0), 2);
    LineAtPrefix(Sheet(show, labels, [0]), Before(show, labels, [0], 0), show(0), 3);
  }

  lemma {:induction false} LabelOfNamed(name: string)
    ensures AllLabels(NamedOnly(name), {}, 0) == [name + ":"]
  {
  }

  lemma {:induction false} TwoLines(first: string, second: string)
    requires OneLine(first) && OneLine(second)
    ensures LineAfter(first + "\n" + second + "\n") == 3
  {
    SplitAppend("", first);
    assert "" + first == first;
    SplitNewline(first);
    SplitAppend(first + "\n", second);
    SplitNewline(first + "\n" + second);
  }

  // Such a name, whose second line looks like an instruction.
  lemma {:induction false} BrokenNameMisplaces(show: nat -> string, labels: Labels)
    requires Labelled(NamedOnly("main" + "\n" + "0x0000  ret"), {}, labels)
    ensures LineOf(show, labels, [0], 0) == 2
    ensures LineAt(Sheet(show, labels, [0]), |Before(show, labels, [0], 0)|, show(0), 3)
  {
    NewlineMisplaces("main", "0x0000  ret", show, labels);
  }

  // Some call of the program, at a start the decode pass finds, is recorded to reach `t`.
  ghost predicate CallReaches(p: Program, t: nat)
    requires p.Valid()
  {
    exists i: nat :: CallsFrom(p, i, t)
  }

  ghost predicate CallsFrom(p: Program, i: nat, t: nat)
    requires p.Valid()
  {
    && i < |Starts(p, 0)|
    && var pc := Starts(p, 0)[i];
       pc < |p.words| && p.At(pc).Some? && TargetOf(p, pc, p.At(pc).value) == Some(t)
  }

  lemma {:induction false} TargetsOfStarts(p: Program, decoded: map<nat, Instruction>, t: nat)
    requires p.Valid() && Decoded(p, Starts(p, 0), decoded)
    ensures TargetedFrom(p, decoded, decoded.Keys, t) <==> CallReaches(p, t)
  {
    var order := Starts(p, 0);
    if TargetedFrom(p, decoded, decoded.Keys, t) {
      var pc :| pc in decoded && TargetOf(p, pc, decoded[pc]) == Some(t);
      var i: nat :| i < |order| && order[i] == pc;
      assert DecodesAt(p, decoded, order[i]);
      assert CallsFrom(p, i, t);
    }
    if CallReaches(p, t) {
      var i: nat :| CallsFrom(p, i, t);
      assert DecodesAt(p, decoded, order[i]);
      assert order[i] in decoded;
    }
  }
}
