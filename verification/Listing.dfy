// The CASM listing of a class: one line per instruction, label lines above them, and the line of
// every pc (onchain/src/listing.rs, `build`).
module Listing {
  import opened Common
  import Digits
  import opened FieldInts

  // What `build` reads of a decoded instruction.
  datatype Instruction = Instruction(isCall: bool, pcRelative: bool, immediate: bool) {
    function Size(): nat {
      if immediate then 2 else 1
    }
  }

  // A program's words, the instruction decoder for words of at most 128 bits, and the instruction's text.
  datatype Program = Program(
    words: seq<Felt>,
    decoder: Felt -> Option<Instruction>,
    show: (Instruction, Option<Felt>) -> string)
  {
    predicate Valid() {
      forall i :: 0 <= i < |words| ==> words[i] < PRIME
    }

    function At(pc: nat): Option<Instruction>
      requires pc < |words|
    {
      if words[pc] < 0x1_0000_0000_0000_0000_0000_0000_0000_0000 then decoder(words[pc]) else None
    }

    function Width(pc: nat): (w: nat)
      requires pc < |words|
      ensures w == 1 || w == 2
    {
      match At(pc)
      case Some(ins) => ins.Size()
      case None => 1
    }

    function Immediate(pc: nat): Option<Felt> {
      if pc + 1 < |words| then Some(words[pc + 1]) else None
    }
  }

  // ---- The decode pass ----------------------------------------------------------------

  function Starts(p: Program, pc: nat): (order: seq<nat>)
    decreases |p.words| - pc
  {
    if pc >= |p.words| then [] else [pc] + Starts(p, pc + p.Width(pc))
  }

  lemma {:induction false} StartsBounded(p: Program, pc: nat)
    ensures forall i :: 0 <= i < |Starts(p, pc)| ==> pc <= Starts(p, pc)[i] < |p.words|
    ensures Starts(p, pc) != [] <==> pc < |p.words|
    ensures Starts(p, pc) != [] ==> Starts(p, pc)[0] == pc
    decreases |p.words| - pc
  {
    if pc < |p.words| {
      StartsBounded(p, pc + p.Width(pc));
    }
  }

  lemma {:induction false} StartsIncrease(p: Program, pc: nat)
    ensures Increasing(Starts(p, pc))
    decreases |p.words| - pc
  {
    if pc < |p.words| {
      StartsBounded(p, pc + p.Width(pc));
      StartsIncrease(p, pc + p.Width(pc));
    }
  }

  ghost predicate Covers(p: Program, s: nat, k: nat) {
    s < |p.words| && s <= k < s + p.Width(s)
  }

  // The starts partition the words: each word is in the one instruction that covers it.
  lemma {:induction false} StartsCover(p: Program, pc: nat, k: nat)
    requires pc <= k < |p.words|
    ensures exists i :: 0 <= i < |Starts(p, pc)| && Covers(p, Starts(p, pc)[i], k)
    decreases |p.words| - pc
  {
    var w := p.Width(pc);
    if k < pc + w {
      assert Covers(p, Starts(p, pc)[0], k);
    } else {
      StartsCover(p, pc + w, k);
      var i :| 0 <= i < |Starts(p, pc + w)| && Covers(p, Starts(p, pc + w)[i], k);
      assert Covers(p, Starts(p, pc)[i + 1], k);
    }
  }

  lemma {:induction false} StartsFollow(p: Program, pc: nat, i: nat)
    requires i < |Starts(p, pc)|
    ensures Starts(p, pc)[i] < |p.words|
    ensures var next := Starts(p, pc)[i] + p.Width(Starts(p, pc)[i]);
      if i + 1 < |Starts(p, pc)| then Starts(p, pc)[i + 1] == next else next >= |p.words|
    decreases i
  {
    StartsBounded(p, pc);
    StartsBounded(p, pc + p.Width(pc));
    if i > 0 {
      StartsFollow(p, pc + p.Width(pc), i - 1);
    }
  }

  lemma {:induction false} CoveredOnce(p: Program, pc: nat, k: nat, i: nat, j: nat)
    requires i < j < |Starts(p, pc)|
    requires Covers(p, Starts(p, pc)[i], k)
    ensures !Covers(p, Starts(p, pc)[j], k)
  {
    StartsIncrease(p, pc);
    StartsFollow(p, pc, i);
    assert Starts(p, pc)[i + 1] <= Starts(p, pc)[j];
  }

  ghost predicate DecodesAt(p: Program, decoded: map<nat, Instruction>, pc: nat) {
    pc < |p.words| && (if pc in decoded then p.At(pc) == Some(decoded[pc]) else p.At(pc) == None)
  }

  // `decoded` holds exactly the starts in `order` whose word decodes.
  ghost predicate Decoded(p: Program, order: seq<nat>, decoded: map<nat, Instruction>) {
    && (forall pc :: pc in decoded ==> pc in order)
    && (forall i :: 0 <= i < |order| ==> DecodesAt(p, decoded, order[i]))
  }

  method DecodePass(p: Program) returns (order: seq<nat>, decoded: map<nat, Instruction>)
    ensures order == Starts(p, 0)
    ensures Decoded(p, order, decoded)
  {
    order, decoded := [], map[];
    var pc: nat := 0;
    while pc < |p.words|
      invariant order + Starts(p, pc) == Starts(p, 0)
      invariant forall i :: 0 <= i < |order| ==> order[i] < pc
      invariant Decoded(p, order, decoded)
      decreases |p.words| - pc
    {
      assert order + Starts(p, pc) == (order + [pc]) + Starts(p, pc + p.Width(pc));
      match p.At(pc)
      case Some(ins) =>
        order := order + [pc];
        decoded := decoded[pc := ins];
        pc := pc + ins.Size();
      case None =>
        order := order + [pc];
        pc := pc + 1;
    }
    assert order + Starts(p, pc) == order;
  }

  // ---- Call targets -------------------------------------------------------------------

  predicate IsRelativeCall(ins: Instruction) {
    ins.isCall && ins.pcRelative && ins.immediate
  }

  function TargetOf(p: Program, pc: nat, ins: Instruction): Option<nat>
    requires p.Valid()
  {
    if IsRelativeCall(ins) && pc + 1 < |p.words| then CallTarget(pc, p.words[pc + 1]) else None
  }

  ghost predicate TargetedFrom(p: Program, decoded: map<nat, Instruction>, from: set<nat>, t: nat)
    requires p.Valid()
  {
    exists pc :: pc in from && pc in decoded && TargetOf(p, pc, decoded[pc]) == Some(t)
  }

  method CallTargets(p: Program, decoded: map<nat, Instruction>) returns (targets: set<nat>)
    requires p.Valid()
    ensures forall t :: t in targets <==> TargetedFrom(p, decoded, decoded.Keys, t)
  {
    targets := {};
    var left := decoded.Keys;
    ghost var seen := {};
    while left != {}
      invariant left + seen == decoded.Keys
      invariant forall t :: t in targets <==> TargetedFrom(p, decoded, seen, t)
      decreases |left|
    {
      var pc :| pc in left;
      match TargetOf(p, pc, decoded[pc]) {
        case Some(t) =>
          targets := targets + {t};
        case None =>
      }
      left := left - {pc};
      seen := seen + {pc};
    }
  }

  // ---- Labels -------------------------------------------------------------------------

  type Labels = map<nat, seq<string>>

  function LabelsAt(labels: Labels, pc: nat): seq<string> {
    if pc in labels then labels[pc] else []
  }

  function Push(labels: Labels, pc: nat, l: string): (r: Labels)
    ensures LabelsAt(r, pc) == LabelsAt(labels, pc) + [l]
    ensures forall q: nat :: q != pc ==> LabelsAt(r, q) == LabelsAt(labels, q)
  {
    labels[pc := LabelsAt(labels, pc) + [l]]
  }

  datatype Entry = Entry(offset: nat, selector: Felt, kind: string)
  datatype Statement = Statement(start: nat, end: nat, text: string)

  // How labels are worded: an entry point's name and its label, the name of a call target that nothing
  // names, a function's label and a Sierra statement's.
  datatype Wording = Wording(
    entryName: Entry -> string,
    entryLabel: Entry -> string,
    unnamed: nat -> string,
    functionLabel: string -> string,
    statementLabel: (nat, Statement) -> string)

  // The wording of the listing, under the names of the class's ABI.
  function ListingWording(abi: map<Felt, string>): Wording {
    var entryName := (e: Entry) => if e.selector in abi then abi[e.selector] else ToHex(e.selector);
    Wording(
      entryName,
      (e: Entry) => RULE + " " + e.kind + " entry point " + entryName(e) + " (" + ToHex(e.selector) + ") " + RULE,
      (pc: nat) => "fn@0x" + Padded(HexText(pc)),
      (name: string) => name + ":",
      (i: nat, st: Statement) => "// sierra #" + Digits.DecimalText(i) + ": " + st.text)
  }

  const RULE := "\U{2500}\U{2500}"

  // A pc's hexadecimal digits, at least four.
  function Padded(s: string): string {
    if |s| >= 4 then s else seq(4 - |s|, i => '0') + s
  }

  // The names a class comes with: functions by pc, from a Cairo 0 program's identifiers or from a
  // bound build.
  datatype Names = Names(
    wording: Wording,
    entries: seq<Entry>,
    cairo0: map<nat, string>,
    bound: map<nat, string>,
    statements: seq<Statement>)

  function EntryLabels(names: Names, n: nat, pc: nat): seq<string>
    requires n <= |names.entries|
  {
    if n == 0 then []
    else if names.entries[n - 1].offset == pc then
      EntryLabels(names, n - 1, pc) + [names.wording.entryLabel(names.entries[n - 1])]
    else EntryLabels(names, n - 1, pc)
  }

  function FunctionName(names: Names, pc: nat): string {
    if pc in names.cairo0 then names.cairo0[pc]
    else if pc in names.bound then names.bound[pc]
    else names.wording.unnamed(pc)
  }

  function NameLabel(w: Wording, named: map<nat, string>, pc: nat): seq<string> {
    if pc in named then [w.functionLabel(named[pc])] else []
  }

  function FunctionLabels(names: Names, targets: set<nat>, pc: nat): seq<string> {
    if pc in targets then [names.wording.functionLabel(FunctionName(names, pc))]
    else NameLabel(names.wording, names.cairo0, pc) + NameLabel(names.wording, names.bound, pc)
  }

  function StatementLabels(names: Names, n: nat, pc: nat): seq<string>
    requires n <= |names.statements|
  {
    if n == 0 then []
    else if names.statements[n - 1].end > names.statements[n - 1].start == pc then
      StatementLabels(names, n - 1, pc) + [names.wording.statementLabel(n - 1, names.statements[n - 1])]
    else StatementLabels(names, n - 1, pc)
  }

  // All labels of a pc: entry points, then the function's name, then the Sierra statements, in order.
  function AllLabels(names: Names, targets: set<nat>, pc: nat): seq<string> {
    EntryLabels(names, |names.entries|, pc)
    + FunctionLabels(names, targets, pc)
    + StatementLabels(names, |names.statements|, pc)
  }

  ghost predicate HasEntries(names: Names, labels: Labels) {
    forall pc: nat :: LabelsAt(labels, pc) == EntryLabels(names, |names.entries|, pc)
  }

  ghost predicate NamesEntries(names: Names, entryNames: map<nat, string>) {
    forall o: nat :: Lookup(entryNames, o) == EntryNameAt(names, |names.entries|, o)
  }

  // The entry points' labels, and the name of the last entry point at each offset.
  method LabelEntries(names: Names) returns (labels: Labels, entryNames: map<nat, string>)
    ensures HasEntries(names, labels) && NamesEntries(names, entryNames)
  {
    labels, entryNames := map[], map[];
    for n := 0 to |names.entries|
      invariant forall pc: nat :: LabelsAt(labels, pc) == EntryLabels(names, n, pc)
      invariant forall o: nat :: Lookup(entryNames, o) == EntryNameAt(names, n, o)
    {
      var e := names.entries[n];
      entryNames := entryNames[e.offset := names.wording.entryName(e)];
      labels := Push(labels, e.offset, names.wording.entryLabel(e));
    }
  }

  // The name kept for an offset: that of its last entry point.
  function EntryNameAt(names: Names, n: nat, offset: nat): Option<string>
    requires n <= |names.entries|
  {
    if n == 0 then None
    else if names.entries[n - 1].offset == offset then Some(names.wording.entryName(names.entries[n - 1]))
    else EntryNameAt(names, n - 1, offset)
  }

  function Lookup(m: map<nat, string>, k: nat): Option<string> {
    if k in m then Some(m[k]) else None
  }

  ghost predicate AddsTargets(names: Names, targets: set<nat>, labels0: Labels, labels: Labels) {
    && (forall pc: nat :: pc in targets ==>
          LabelsAt(labels, pc) == LabelsAt(labels0, pc) + [names.wording.functionLabel(FunctionName(names, pc))])
    && (forall pc: nat :: pc !in targets ==> LabelsAt(labels, pc) == LabelsAt(labels0, pc))
  }

  ghost predicate NamesTargets(names: Names, targets: set<nat>, functionAt: map<nat, string>) {
    forall pc: nat :: Lookup(functionAt, pc) == if pc in targets then Some(FunctionName(names, pc)) else None
  }

  // Adds the label and the entry of `functionAt` of every call target.
  method LabelTargets(names: Names, targets: set<nat>, labels0: Labels)
    returns (labels: Labels, functionAt: map<nat, string>)
    ensures AddsTargets(names, targets, labels0, labels) && NamesTargets(names, targets, functionAt)
  {
    labels, functionAt := labels0, map[];
    var left := targets;
    while left != {}
      invariant left <= targets
      invariant forall pc: nat :: pc in targets && pc !in left ==>
        LabelsAt(labels, pc) == LabelsAt(labels0, pc) + [names.wording.functionLabel(FunctionName(names, pc))]
      invariant forall pc: nat :: pc !in targets || pc in left ==> LabelsAt(labels, pc) == LabelsAt(labels0, pc)
      invariant forall pc: nat ::
        Lookup(functionAt, pc) == if pc in targets && pc !in left then Some(FunctionName(names, pc)) else None
      decreases |left|
    {
      var t :| t in left;
      functionAt := functionAt[t := FunctionName(names, t)];
      labels := Push(labels, t, names.wording.functionLabel(FunctionName(names, t)));
      left := left - {t};
    }
  }

  function NamedToo(functionAt: map<nat, string>, named: map<nat, string>, targets: set<nat>, pc: nat): Option<string> {
    if pc in functionAt then Some(functionAt[pc])
    else if pc in named && pc !in targets then Some(named[pc])
    else None
  }

  function OrInsert(m: map<nat, string>, k: nat, v: string): (r: map<nat, string>)
    ensures Lookup(r, k) == if k in m then Some(m[k]) else Some(v)
    ensures forall o: nat :: o != k ==> Lookup(r, o) == Lookup(m, o)
  {
    if k in m then m else m[k := v]
  }

  ghost predicate AddsNames(w: Wording, named: map<nat, string>, targets: set<nat>, labels0: Labels, labels: Labels) {
    && (forall pc: nat :: pc in targets || pc !in named ==> LabelsAt(labels, pc) == LabelsAt(labels0, pc))
    && (forall pc: nat :: pc !in targets && pc in named ==>
          LabelsAt(labels, pc) == LabelsAt(labels0, pc) + [w.functionLabel(named[pc])])
  }

  ghost predicate NamesMore(named: map<nat, string>, targets: set<nat>, functionAt0: map<nat, string>,
          functionAt: map<nat, string>) {
    forall pc: nat :: Lookup(functionAt, pc) == NamedToo(functionAt0, named, targets, pc)
  }

  // Adds the names no call reaches; a name already given to a pc stays.
  method LabelNames(w: Wording, named: map<nat, string>, targets: set<nat>, labels0: Labels,
          functionAt0: map<nat, string>)
    returns (labels: Labels, functionAt: map<nat, string>)
    ensures AddsNames(w, named, targets, labels0, labels) && NamesMore(named, targets, functionAt0, functionAt)
  {
    labels, functionAt := labels0, functionAt0;
    var left := named.Keys;
    while left != {}
      invariant left <= named.Keys
      invariant forall pc: nat :: pc in left ==> Lookup(functionAt, pc) == Lookup(functionAt0, pc)
      invariant forall pc: nat :: pc !in left ==> Lookup(functionAt, pc) == NamedToo(functionAt0, named, targets, pc)
      invariant forall pc: nat :: pc in targets || pc !in named || pc in left ==>
        LabelsAt(labels, pc) == LabelsAt(labels0, pc)
      invariant forall pc: nat :: pc !in targets && pc in named && pc !in left ==>
        LabelsAt(labels, pc) == LabelsAt(labels0, pc) + [w.functionLabel(named[pc])]
      decreases |left|
    {
      var pc :| pc in left;
      if pc !in targets {
        labels := Push(labels, pc, w.functionLabel(named[pc]));
        functionAt := OrInsert(functionAt, pc, named[pc]);
      }
      left := left - {pc};
    }
  }

  ghost predicate AddsStatements(names: Names, labels0: Labels, labels: Labels) {
    forall pc: nat :: LabelsAt(labels, pc) == LabelsAt(labels0, pc) + StatementLabels(names, |names.statements|, pc)
  }

  method LabelStatements(names: Names, labels0: Labels) returns (labels: Labels)
    ensures AddsStatements(names, labels0, labels)
  {
    labels := labels0;
    for n := 0 to |names.statements|
      invariant forall pc: nat :: LabelsAt(labels, pc) == LabelsAt(labels0, pc) + StatementLabels(names, n, pc)
    {
      var st := names.statements[n];
      if st.end > st.start {
        ghost var before := labels;
        labels := Push(labels, st.start, names.wording.statementLabel(n, st));
        Regroup(LabelsAt(labels0, st.start), StatementLabels(names, n, st.start),
          [names.wording.statementLabel(n, st)]);
      }
    }
  }

  lemma {:induction false} Regroup<T>(a: seq<T>, b: seq<T>, c: seq<T>)
    ensures (a + b) + c == a + (b + c)
  {
  }

  // Every function the listing names: call targets and named functions alike.
  ghost predicate NamesFunctions(names: Names, targets: set<nat>, functionAt: map<nat, string>) {
    forall pc: nat :: Lookup(functionAt, pc) == NameIfAny(names, targets, pc)
  }

  function NameIfAny(names: Names, targets: set<nat>, pc: nat): Option<string> {
    if pc in targets || pc in names.cairo0 || pc in names.bound then Some(FunctionName(names, pc)) else None
  }

  ghost predicate Labelled(names: Names, targets: set<nat>, labels: Labels) {
    forall pc: nat :: LabelsAt(labels, pc) == AllLabels(names, targets, pc)
  }

  lemma {:induction false} LabelsGathered(names: Names, targets: set<nat>, l0: Labels, l1: Labels, l2: Labels,
          l3: Labels, l4: Labels)
    requires HasEntries(names, l0) && AddsTargets(names, targets, l0, l1)
    requires AddsNames(names.wording, names.cairo0, targets, l1, l2)
    requires AddsNames(names.wording, names.bound, targets, l2, l3)
    requires AddsStatements(names, l3, l4)
    ensures Labelled(names, targets, l4)
  {
    forall pc: nat ensures LabelsAt(l4, pc) == AllLabels(names, targets, pc) {
      Gathered(names, targets, pc, LabelsAt(l0, pc), LabelsAt(l1, pc), LabelsAt(l2, pc), LabelsAt(l3, pc));
    }
  }

  lemma {:induction false} Gathered(names: Names, targets: set<nat>, pc: nat, l0: seq<string>, l1: seq<string>,
          l2: seq<string>, l3: seq<string>)
    requires l1 == if pc in targets then l0 + [names.wording.functionLabel(FunctionName(names, pc))] else l0
    requires l2 == if pc in targets || pc !in names.cairo0 then l1
      else l1 + [names.wording.functionLabel(names.cairo0[pc])]
    requires l3 == if pc in targets || pc !in names.bound then l2
      else l2 + [names.wording.functionLabel(names.bound[pc])]
    ensures l3 == l0 + FunctionLabels(names, targets, pc)
  {
  }

  lemma {:induction false} NamesGathered(names: Names, targets: set<nat>, f1: map<nat, string>, f2: map<nat, string>,
          f3: map<nat, string>)
    requires NamesTargets(names, targets, f1)
    requires NamesMore(names.cairo0, targets, f1, f2) && NamesMore(names.bound, targets, f2, f3)
    ensures NamesFunctions(names, targets, f3)
  {
    forall pc: nat ensures Lookup(f3, pc) == NameIfAny(names, targets, pc) {
      assert Lookup(f1, pc) == if pc in targets then Some(FunctionName(names, pc)) else None;
      assert Lookup(f2, pc) == NamedToo(f1, names.cairo0, targets, pc);
    }
  }

  method PlaceLabels(names: Names, targets: set<nat>)
    returns (labels: Labels, functionAt: map<nat, string>, entryNames: map<nat, string>)
    ensures Labelled(names, targets, labels)
    ensures NamesFunctions(names, targets, functionAt)
    ensures NamesEntries(names, entryNames)
  {
    var l0, l1, l2, l3: Labels;
    var f1, f2: map<nat, string>;
    l0, entryNames := LabelEntries(names);
    l1, f1 := LabelTargets(names, targets, l0);
    l2, f2 := LabelNames(names.wording, names.cairo0, targets, l1, f1);
    l3, functionAt := LabelNames(names.wording, names.bound, targets, l2, f2);
    labels := LabelStatements(names, l3);
    LabelsGathered(names, targets, l0, l1, l2, l3, labels);
    NamesGathered(names, targets, f1, f2, functionAt);
  }
}
