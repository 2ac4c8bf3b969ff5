// The listing's words as a reader takes them (onchain/src/listing.rs): which pc a line shows and with what
// instruction, how labels are worded, and which calls name a target.
module ListingReading {
  import opened Common
  import opened FieldInts
  import opened Listing
  import opened ListingLines
  import opened ListingText

  // ---- Hexadecimal ----------------------------------------------------------------------

  predicate HexString(s: string) {
    s != "" && forall i :: 0 <= i < |s| ==> '0' <= s[i] <= '9' || 'a' <= s[i] <= 'f'
  }

  // The number written, most significant digit first.
  function HexNumber(s: string): nat
    requires s == "" || HexString(s)
  {
    if s == "" then 0
    else
      var c := s[|s| - 1];
      16 * HexNumber(s[..|s| - 1]) + if c <= '9' then c as int - '0' as int else 10 + c as int - 'a' as int
  }

  // `s` writes `n` with at least `least` digits, and no zero before more.
  predicate Writes(s: string, n: nat, least: nat) {
    HexString(s) && HexNumber(s) == n && |s| >= least && (|s| > least ==> s[0] != '0')
  }

  lemma {:induction false} HexReads(s: string)
    requires s == "" || HexString(s)
    ensures AllHex(s) && Hexadecimal(s) == HexNumber(s)
  {
    if s != "" {
      HexReads(s[..|s| - 1]);
    }
  }

  lemma {:induction false} HexLeads(n: nat)
    ensures |HexText(n)| > 1 ==> HexText(n)[0] != '0'
  {
    if n >= 16 {
      HexLeads(n / 16);
      assert HexText(n)[0] == HexText(n / 16)[0];
      if n / 16 < 16 {
        assert HexText(n / 16)[0] == HexDigit(n / 16);
      }
    }
  }

  lemma {:induction false} HexTextWrites(n: nat)
    ensures Writes(HexText(n), n, 1)
  {
    var s := HexText(n);
    assert HexString(s) by {
      assert forall i :: 0 <= i < |s| ==> IsHex(s[i]);
    }
    HexReads(s);
    HexLeads(n);
  }

  lemma {:induction false} ZerosFirst(s: string)
    requires HexString(s)
    ensures HexString("0" + s) && HexNumber("0" + s) == HexNumber(s)
  {
    var t := "0" + s;
    assert t[..|t| - 1] == "0" + s[..|s| - 1];
    if |s| > 1 {
      ZerosFirst(s[..|s| - 1]);
    } else {
      assert s[..|s| - 1] == "" && t[..|t| - 1] == "0" && "0"[..0] == "";
    }
  }

  lemma {:induction false} ZerosPad(z: string, s: string)
    requires HexString(s) && forall i :: 0 <= i < |z| ==> z[i] == '0'
    ensures HexString(z + s) && HexNumber(z + s) == HexNumber(s)
  {
    if z == "" {
      assert z + s == s;
    } else {
      ZerosPad(z[1..], s);
      ZerosFirst(z[1..] + s);
      assert z + s == "0" + (z[1..] + s);
    }
  }

  lemma {:induction false} PaddedWrites(n: nat)
    ensures Writes(Padded(HexText(n)), n, 4)
  {
    HexTextWrites(n);
    if |HexText(n)| < 4 {
      ZerosPad(seq(4 - |HexText(n)|, i => '0'), HexText(n));
    }
  }

  // ---- Instruction lines ----------------------------------------------------------------

  // The instruction at a pc: its word has 128 bits at most, and decodes.
  predicate InstructionAt(p: Program, pc: nat, ins: Instruction) {
    pc < |p.words| && p.words[pc] < 0x1_0000_0000_0000_0000_0000_0000_0000_0000 && p.decoder(p.words[pc]) == Some(ins)
  }

  // The instruction with its immediate, the next word; or the word itself when it decodes to none.
  ghost predicate ReadsWord(p: Program, rest: string, pc: nat)
    requires pc < |p.words|
  {
    && (forall ins :: InstructionAt(p, pc, ins) ==>
          rest == p.show(ins, if ins.immediate && pc + 1 < |p.words| then Some(p.words[pc + 1]) else None))
    && ((forall ins :: !InstructionAt(p, pc, ins)) ==>
          exists word :: rest == "dw " + ("0x" + word) && Writes(word, p.words[pc], 1))
  }

  // A line shows its pc, and after two blanks what stands there.
  ghost predicate ReadsPc(p: Program, line: string, pc: nat) {
    && pc < |p.words|
    && exists digits, rest :: line == "0x" + digits + "  " + rest && Writes(digits, pc, 4) && ReadsWord(p, rest, pc)
  }

  lemma {:induction false} BodyReads(p: Program, pc: nat)
    requires pc < |p.words|
    ensures ReadsWord(p, Body(p, pc), pc)
  {
    if p.At(pc) == None {
      HexTextWrites(p.words[pc]);
    } else {
      assert InstructionAt(p, pc, p.At(pc).value);
    }
  }

  lemma {:induction false} LineReads(p: Program, pc: nat)
    requires pc < |p.words|
    ensures ReadsPc(p, InstrLine(p, pc), pc)
  {
    var digits, rest := Padded(HexText(pc)), Body(p, pc);
    PaddedWrites(pc);
    BodyReads(p, pc);
    assert InstrLine(p, pc) == "0x" + digits + "  " + rest;
  }

  // ---- Labels ---------------------------------------------------------------------------

  // An entry point's label: its kind, its ABI name or else its selector, and its selector.
  function EntryText(e: Entry, abi: map<Felt, string>): string {
    var selector := "0x" + HexText(e.selector);
    var name := if e.selector in abi then abi[e.selector] else selector;
    "\U{2500}\U{2500}" + " " + e.kind + " entry point " + name + " (" + selector + ") " + "\U{2500}\U{2500}"
  }

  // The entry points at a pc, in their order.
  function EntryTexts(entries: seq<Entry>, text: Entry -> string, pc: nat): seq<string> {
    if entries == [] then []
    else (if entries[0].offset == pc then [text(entries[0])] else []) + EntryTexts(entries[1..], text, pc)
  }

  // The function at a pc: one name when a call targets it, else a name of either kind.
  function FunctionTexts(names: Names, targets: set<nat>, pc: nat): seq<string> {
    if pc in targets then
      [(if pc in names.cairo0 then names.cairo0[pc]
        else if pc in names.bound then names.bound[pc]
        else "fn@0x" + Padded(HexText(pc))) + ":"]
    else
      (if pc in names.cairo0 then [names.cairo0[pc] + ":"] else []) +
      (if pc in names.bound then [names.bound[pc] + ":"] else [])
  }

  function StatementText(i: nat, st: Statement): string {
    "// sierra #" + Digits.DecimalText(i) + ": " + st.text
  }

  // The Sierra statements that begin at a pc and are not empty, numbered from `i`.
  function StatementTexts(statements: seq<Statement>, text: (nat, Statement) -> string, i: nat, pc: nat): seq<string> {
    if statements == [] then []
    else
      (if statements[0].start == pc && statements[0].end > pc then [text(i, statements[0])] else []) +
      StatementTexts(statements[1..], text, i + 1, pc)
  }

  function EntryTextOf(abi: map<Felt, string>): Entry -> string {
    (e: Entry) => EntryText(e, abi)
  }

  function StatementTextOf(): (nat, Statement) -> string {
    (i: nat, st: Statement) => StatementText(i, st)
  }

  lemma {:induction false} EntryWorded(w: Wording, abi: map<Felt, string>, e: Entry)
    requires w == ListingWording(abi)
    ensures w.entryLabel(e) == EntryText(e, abi)
  {
    var selector := "0x" + HexText(e.selector);
    var name := if e.selector in abi then abi[e.selector] else selector;
    assert w.entryName(e) == name && ToHex(e.selector) == selector;
    assert w.entryLabel(e) == RULE + " " + e.kind + " entry point " + w.entryName(e) + " (" + selector + ") " + RULE;
  }

  lemma {:induction false} EntryTextsOnward(names: Names, text: Entry -> string, n: nat, pc: nat)
    requires n <= |names.entries| && forall e :: names.wording.entryLabel(e) == text(e)
    ensures EntryLabels(names, n, pc) + EntryTexts(names.entries[n..], text, pc) == EntryTexts(names.entries, text, pc)
  {
    if n == 0 {
      assert names.entries[n..] == names.entries;
    } else {
      var k := n - 1;
      EntryTextsOnward(names, text, k, pc);
      assert names.entries[k..][1..] == names.entries[n..];
    }
  }

  lemma {:induction false} StatementTextsOnward(names: Names, text: (nat, Statement) -> string, n: nat, pc: nat)
    requires n <= |names.statements|
    requires forall i: nat, st :: names.wording.statementLabel(i, st) == text(i, st)
    ensures StatementLabels(names, n, pc) + StatementTexts(names.statements[n..], text, n, pc) ==
      StatementTexts(names.statements, text, 0, pc)
  {
    if n == 0 {
      assert names.statements[n..] == names.statements;
    } else {
      var k := n - 1;
      StatementTextsOnward(names, text, k, pc);
      assert names.statements[k..][1..] == names.statements[n..];
    }
  }

  lemma {:induction false} FunctionWorded(names: Names, abi: map<Felt, string>, targets: set<nat>, pc: nat)
    requires names.wording == ListingWording(abi)
    ensures FunctionLabels(names, targets, pc) == FunctionTexts(names, targets, pc)
  {
  }

  // The labels of a pc, as the listing words them.
  lemma {:induction false} LabelsWorded(names: Names, abi: map<Felt, string>, targets: set<nat>, pc: nat)
    requires names.wording == ListingWording(abi)
    ensures AllLabels(names, targets, pc) == LabelTexts(names, abi, targets, pc)
  {
    var es, ss := |names.entries|, |names.statements|;
    var entry, statement := EntryTextOf(abi), StatementTextOf();
    forall e ensures names.wording.entryLabel(e) == entry(e) {
      EntryWorded(names.wording, abi, e);
    }
    EntryTextsOnward(names, entry, es, pc);
    StatementTextsOnward(names, statement, ss, pc);
    FunctionWorded(names, abi, targets, pc);
    assert names.entries[es..] == [] && names.statements[ss..] == [];
    assert EntryLabels(names, es, pc) + [] == EntryLabels(names, es, pc);
    assert StatementLabels(names, ss, pc) + [] == StatementLabels(names, ss, pc);
  }

  // ---- Call targets ---------------------------------------------------------------------

  // The instruction at `pc` calls `t`: a call relative to its pc with an immediate, whose next word is the
  // offset. An offset too large for an i64 counts as zero.
  predicate CallsPc(p: Program, pc: nat, ins: Instruction, t: nat)
    requires p.Valid()
  {
    && InstructionAt(p, pc, ins) && ins.isCall && ins.pcRelative && ins.immediate && pc + 1 < |p.words|
    && var x := Signed(p.words[pc + 1]);
       if -0x8000_0000_0000_0000 < x < 0x8000_0000_0000_0000 then t == pc + x && t < 0x8000_0000_0000_0000 else t == pc
  }

  lemma {:induction false} CallsSame(p: Program, pc: nat, ins: Instruction, t: nat)
    requires p.Valid() && pc < |p.words| <= 0x8000_0000_0000_0000 && InstructionAt(p, pc, ins)
    ensures TargetOf(p, pc, ins) == Some(t) <==> CallsPc(p, pc, ins, t)
  {
    if pc + 1 < |p.words| {
      CallTargetExact(pc, p.words[pc + 1]);
    }
  }

  lemma {:induction false} TargetsAreCalled(p: Program, t: nat)
    requires p.Valid() && |p.words| <= 0x8000_0000_0000_0000
    ensures CallReaches(p, t) <==> Called(p, t)
  {
    if CallReaches(p, t) {
      var i: nat :| CallsFrom(p, i, t);
      var pc := Starts(p, 0)[i];
      CallsSame(p, pc, p.At(pc).value, t);
    }
    if Called(p, t) {
      var i: nat, ins :| i < |Starts(p, 0)| && CallsPc(p, Starts(p, 0)[i], ins, t);
      CallsSame(p, Starts(p, 0)[i], ins, t);
      assert CallsFrom(p, i, t);
    }
  }

  // ---- The whole listing ----------------------------------------------------------------

  // A pc's labels, as the listing words them.
  function LabelTexts(names: Names, abi: map<Felt, string>, targets: set<nat>, pc: nat): seq<string> {
    EntryTexts(names.entries, EntryTextOf(abi), pc) + FunctionTexts(names, targets, pc) +
    StatementTexts(names.statements, StatementTextOf(), 0, pc)
  }

  // Read line by line, the listing is each start's labels and then its own instruction, on the line of the
  // table; nothing else stands between two instructions or after the last.
  ghost predicate ReadsAsListing(p: Program, names: Names, abi: map<Felt, string>, targets: set<nat>,
          lines: seq<string>, pcLine: map<nat, nat>, k: nat)
    requires k < |Starts(p, 0)|
  {
    var order := Starts(p, 0);
    exists line ::
      && ReadsPc(p, line, order[k])
      && StandsUnder(lines, LineIn(pcLine, order[k]), LabelTexts(names, abi, targets, order[k]), line,
                     if k == 0 then 0 else LineIn(pcLine, order[k - 1]), k == |order| - 1)
  }

  ghost predicate AllRead(p: Program, names: Names, abi: map<Felt, string>, targets: set<nat>, text: string,
          pcLine: map<nat, nat>) {
    forall k: nat :: k < |Starts(p, 0)| ==> ReadsAsListing(p, names, abi, targets, Split(text).ended, pcLine, k)
  }

  ghost predicate Called(p: Program, t: nat)
    requires p.Valid()
  {
    exists i: nat, ins :: i < |Starts(p, 0)| && CallsPc(p, Starts(p, 0)[i], ins, t)
  }

  // The listing built under its own wording reads so, when no shown instruction or label has a newline.
  method BuildListing(p: Program, names: Names, abi: map<Felt, string>)
    returns (text: string, pcLine: map<nat, nat>, instructions: nat, functionAt: map<nat, string>,
        decoded: map<nat, Instruction>, entryNames: map<nat, string>, ghost targets: set<nat>)
    requires p.Valid() && names.wording == ListingWording(abi)
    ensures ShownOnOneLine(p) && NoLabelBreaks(Starts(p, 0), names, targets) ==>
      AllRead(p, names, abi, targets, text, pcLine)
    ensures |p.words| <= 0x8000_0000_0000_0000 ==> forall t: nat :: t in targets <==> Called(p, t)
    ensures instructions == |decoded|
    ensures forall pc :: pc in decoded <==> pc in Starts(p, 0) && exists ins :: InstructionAt(p, pc, ins)
  {
    ghost var labels: Labels;
    text, pcLine, instructions, functionAt, decoded, entryNames, labels, targets := Build(p, names);
    BuiltReads(p, names, abi, targets, text, pcLine);
    BuiltCalls(p, targets);
    BuiltDecodes(p, decoded);
  }

  lemma {:induction false} BuiltReads(p: Program, names: Names, abi: map<Felt, string>, targets: set<nat>, text: string,
          pcLine: map<nat, nat>)
    requires names.wording == ListingWording(abi)
    ensures ReadsInOrder(InstrLines(p), Starts(p, 0), names, targets, text, pcLine) ==>
      AllRead(p, names, abi, targets, text, pcLine)
  {
    if ReadsInOrder(InstrLines(p), Starts(p, 0), names, targets, text, pcLine) {
      forall k: nat | k < |Starts(p, 0)| ensures ReadsAsListing(p, names, abi, targets, Split(text).ended, pcLine, k) {
        assert ReadsAt(InstrLines(p), Starts(p, 0), names, targets, Split(text).ended, pcLine, k);
        StartReads(p, names, abi, targets, Split(text).ended, pcLine, k);
      }
    }
  }

  lemma {:induction false} BuiltCalls(p: Program, targets: set<nat>)
    requires p.Valid()
    ensures |p.words| <= 0x8000_0000_0000_0000 && (forall t: nat :: t in targets <==> CallReaches(p, t)) ==>
      forall t: nat :: t in targets <==> Called(p, t)
  {
    if |p.words| <= 0x8000_0000_0000_0000 {
      forall t: nat ensures CallReaches(p, t) <==> Called(p, t) {
        TargetsAreCalled(p, t);
      }
    }
  }

  lemma {:induction false} BuiltDecodes(p: Program, decoded: map<nat, Instruction>)
    requires Decoded(p, Starts(p, 0), decoded)
    ensures forall pc :: pc in decoded <==> pc in Starts(p, 0) && exists ins :: InstructionAt(p, pc, ins)
  {
    forall pc ensures pc in decoded <==> pc in Starts(p, 0) && exists ins :: InstructionAt(p, pc, ins) {
      if pc in Starts(p, 0) {
        assert DecodesAt(p, decoded, pc);
        if pc in decoded {
          assert InstructionAt(p, pc, decoded[pc]);
        }
      }
    }
  }

  lemma {:induction false} StartReads(p: Program, names: Names, abi: map<Felt, string>, targets: set<nat>,
          lines: seq<string>, pcLine: map<nat, nat>, k: nat)
    requires names.wording == ListingWording(abi) && k < |Starts(p, 0)|
    requires ReadsAt(InstrLines(p), Starts(p, 0), names, targets, lines, pcLine, k)
    ensures ReadsAsListing(p, names, abi, targets, lines, pcLine, k)
  {
    var pc := Starts(p, 0)[k];
    StartsBounded(p, 0);
    LabelsWorded(names, abi, targets, pc);
    LineReads(p, pc);
    assert InstrLines(p)(pc) == InstrLine(p, pc);
  }
}
