// The columns at which a line's statements begin (src/tracer.rs, `statement_columns_on_line`): one scan
// with lookahead, against a classification of every byte followed by a choice of positions.
module Columns {
  import opened Common

  predicate Blank(b: Byte) {
    b == 32 || b == 9 || b == 10 || b == 12 || b == 13
  }

  const QUOTE: Byte := 34
  const APOSTROPHE: Byte := 39
  const BACKSLASH: Byte := 92
  const SEMICOLON: Byte := 59

  predicate Opens(b: Byte) {
    b == 40 || b == 91 || b == 123
  }

  predicate Closes(b: Byte) {
    b == 41 || b == 93 || b == 125
  }

  // ---- First phase: what each byte is part of -------------------------------------------

  datatype Mode = Code | Text | TextEscape | Char | CharEscape
  datatype Context = Context(mode: Mode, depth: nat)

  function Next(c: Context, b: Byte): Context {
    match c.mode
    case Code =>
      if b == QUOTE then c.(mode := Text)
      else if b == APOSTROPHE then c.(mode := Char)
      else if Opens(b) then c.(depth := c.depth + 1)
      else if Closes(b) && c.depth > 0 then c.(depth := c.depth - 1)
      else c
    case Text => if b == BACKSLASH then c.(mode := TextEscape) else if b == QUOTE then c.(mode := Code) else c
    case TextEscape => c.(mode := Text)
    case Char => if b == BACKSLASH then c.(mode := CharEscape) else if b == APOSTROPHE then c.(mode := Code) else c
    case CharEscape => c.(mode := Char)
  }

  // The context in which byte `i` is read.
  function ContextAt(line: seq<Byte>, i: nat): Context
    requires i <= |line|
  {
    if i == 0 then Context(Code, 0) else Next(ContextAt(line, i - 1), line[i - 1])
  }

  // A semicolon outside brackets and literals.
  predicate Ends(line: seq<Byte>, i: nat)
    requires i < |line|
  {
    line[i] == SEMICOLON && ContextAt(line, i) == Context(Code, 0)
  }

  // ---- Second phase: where statements begin ---------------------------------------------

  // A statement may begin at `s`: at the line's start, or after such a semicolon.
  predicate Boundary(line: seq<Byte>, s: nat)
    requires s <= |line|
  {
    s == 0 || Ends(line, s - 1)
  }

  ghost predicate OnlyBlanks(line: seq<Byte>, s: nat, k: nat)
    requires k <= |line|
  {
    forall j :: s <= j < k ==> Blank(line[j])
  }

  // Byte `k` is the first one after a boundary that is not blank.
  ghost predicate Begins(line: seq<Byte>, k: nat)
    requires k < |line|
  {
    !Blank(line[k]) && exists s: nat :: s <= k && Boundary(line, s) && OnlyBlanks(line, s, k)
  }

  // The 1-based positions of the statements among the first `n` bytes.
  ghost function Beginnings(line: seq<Byte>, n: nat): seq<nat>
    requires n <= |line|
  {
    if n == 0 then []
    else if Begins(line, n - 1) then Beginnings(line, n - 1) + [n]
    else Beginnings(line, n - 1)
  }

  ghost function Columns(line: seq<Byte>): seq<nat> {
    var begun := Beginnings(line, |line|);
    if begun == [] then [1] else begun
  }

  // ---- The two agree --------------------------------------------------------------------

  // Whether the next byte that is not blank begins a statement.
  predicate Pending(line: seq<Byte>, i: nat)
    requires i <= |line|
  {
    i == 0 || Ends(line, i - 1) || (Blank(line[i - 1]) && Pending(line, i - 1))
  }

  lemma {:induction false} PendingMeans(line: seq<Byte>, i: nat)
    requires i <= |line|
    ensures Pending(line, i) <==> exists s: nat :: s <= i && Boundary(line, s) && OnlyBlanks(line, s, i)
  {
    if i == 0 || Ends(line, i - 1) {
      assert Boundary(line, i) && OnlyBlanks(line, i, i);
    } else {
      PendingMeans(line, i - 1);
      if Pending(line, i) {
        var s: nat :| s <= i - 1 && Boundary(line, s) && OnlyBlanks(line, s, i - 1);
        assert OnlyBlanks(line, s, i);
      }
      if s: nat :| s <= i && Boundary(line, s) && OnlyBlanks(line, s, i) {
        assert s <= i - 1 && OnlyBlanks(line, s, i - 1);
      }
    }
  }

  // No statement is pending inside a literal.
  lemma {:induction false} NotPendingInLiteral(line: seq<Byte>, i: nat)
    requires i <= |line| && ContextAt(line, i).mode != Code
    ensures !Pending(line, i)
  {
    if i > 0 && ContextAt(line, i - 1).mode != Code {
      NotPendingInLiteral(line, i - 1);
    }
  }

  // The scanner's flags in a context.
  predicate Flags(c: Context, inText: bool, inChar: bool, depth: nat) {
    c == Context(if inText then Text else if inChar then Char else Code, depth) && !(inText && inChar)
  }

  // An `as u32` cast of each position.
  function Cast(s: seq<nat>): (r: seq<nat>)
    ensures |r| == |s| && forall i :: 0 <= i < |s| ==> r[i] == s[i] % TWO_32
  {
    seq(|s|, i requires 0 <= i < |s| => s[i] % TWO_32)
  }

  lemma {:induction false} BeginsWhenPending(line: seq<Byte>, k: nat)
    requires k < |line|
    ensures Begins(line, k) <==> Pending(line, k) && !Blank(line[k])
  {
    PendingMeans(line, k);
  }

  // An escaped pair inside a literal begins nothing and leaves the literal open.
  lemma {:induction false} EscapeSkips(line: seq<Byte>, i: nat)
    requires i + 1 < |line| && line[i] == BACKSLASH
    requires ContextAt(line, i).mode == Text || ContextAt(line, i).mode == Char
    ensures ContextAt(line, i + 2) == ContextAt(line, i)
    ensures !Pending(line, i) && !Pending(line, i + 2)
    ensures Beginnings(line, i + 2) == Beginnings(line, i)
  {
    var c := ContextAt(line, i);
    assert ContextAt(line, i + 1) == Next(c, line[i]);
    assert ContextAt(line, i + 2) == Next(ContextAt(line, i + 1), line[i + 1]);
    NotPendingInLiteral(line, i);
    NotPendingInLiteral(line, i + 1);
    NotPendingInLiteral(line, i + 2);
    BeginsWhenPending(line, i);
    BeginsWhenPending(line, i + 1);
  }

  method StatementColumns(line: seq<Byte>) returns (cols: seq<nat>)
    ensures cols == Cast(Columns(line))
  {
    cols := [];
    var depth, inText, inChar, atStart := 0, false, false, true;
    var i := 0;
    while i < |line|
      invariant 0 <= i <= |line|
      invariant i < |line| ==> Flags(ContextAt(line, i), inText, inChar, depth)
      invariant atStart == Pending(line, i)
      invariant cols == Cast(Beginnings(line, i))
    {
      var b := line[i];
      BeginsWhenPending(line, i);
      if atStart && !Blank(b) {
        cols := cols + [(i + 1) % TWO_32];
        atStart := false;
      }
      if inText {
        if b == BACKSLASH && i + 1 < |line| {
          EscapeSkips(line, i);
          i := i + 2;
          continue;
        }
        NotPendingInLiteral(line, i);
        if b == QUOTE {
          inText := false;
        }
        i := i + 1;
        continue;
      }
      if inChar {
        if b == BACKSLASH && i + 1 < |line| {
          EscapeSkips(line, i);
          i := i + 2;
          continue;
        }
        NotPendingInLiteral(line, i);
        if b == APOSTROPHE {
          inChar := false;
        }
        i := i + 1;
        continue;
      }
      if b == QUOTE {
        inText := true;
      } else if b == APOSTROPHE {
        inChar := true;
      } else if Opens(b) {
        depth := depth + 1;
      } else if Closes(b) {
        if depth > 0 {
          depth := depth - 1;
        }
      } else if b == SEMICOLON && depth == 0 {
        atStart := true;
      }
      i := i + 1;
    }
    if cols == [] {
      cols := [1];
    }
  }

  // ---- What the columns are -------------------------------------------------------------

  ghost predicate AllBlank(line: seq<Byte>) {
    forall i :: 0 <= i < |line| ==> Blank(line[i])
  }

  lemma {:induction false} BeginningsRise(line: seq<Byte>, n: nat)
    requires n <= |line|
    ensures Increasing(Beginnings(line, n))
    ensures forall i :: 0 <= i < |Beginnings(line, n)| ==> 1 <= Beginnings(line, n)[i] <= n
    ensures forall k: nat :: k < n ==> (Begins(line, k) <==> k + 1 in Beginnings(line, n))
  {
    if n > 0 {
      BeginningsRise(line, n - 1);
    }
  }

  lemma {:induction false} FirstBegins(line: seq<Byte>, k: nat)
    requires k < |line| && !Blank(line[k])
    ensures exists j: nat :: j <= k && Begins(line, j)
    decreases k
  {
    if OnlyBlanks(line, 0, k) {
      assert Boundary(line, 0);
      assert Begins(line, k);
    } else {
      var j :| 0 <= j < k && !Blank(line[j]);
      FirstBegins(line, j);
    }
  }

  // Every statement begins at a position a 32-bit column can hold.
  ghost predicate BeginningsFit(line: seq<Byte>) {
    forall k: nat :: k < |line| && Begins(line, k) ==> k + 1 < TWO_32
  }

  // The columns are the positions where a statement begins.
  ghost predicate AreBeginnings(line: seq<Byte>, cols: seq<nat>) {
    forall c: nat :: c in cols <==> 1 <= c <= |line| && Begins(line, c - 1)
  }

  // Unless the line is blank, the columns are exactly the positions where a statement begins if and only if
  // all these fit 32 bits, and then they strictly increase.
  lemma {:induction false} ColumnsAreBeginnings(line: seq<Byte>)
    ensures AllBlank(line) ==> Cast(Columns(line)) == [1]
    ensures !AllBlank(line) ==> (AreBeginnings(line, Cast(Columns(line))) <==> BeginningsFit(line))
    ensures BeginningsFit(line) ==> Increasing(Cast(Columns(line)))
    ensures |line| < TWO_32 ==> BeginningsFit(line)
  {
    var begun := Beginnings(line, |line|);
    BeginningsRise(line, |line|);
    if AllBlank(line) {
      assert begun != [] ==> begun[0] in begun && Begins(line, begun[0] - 1);
    } else {
      var k :| 0 <= k < |line| && !Blank(line[k]);
      FirstBegins(line, k);
      if BeginningsFit(line) {
        CastKeeps(line, begun);
      } else {
        LostBeginning(line);
      }
    }
  }

  lemma {:induction false} CastKeeps(line: seq<Byte>, begun: seq<nat>)
    requires BeginningsFit(line) && begun == Beginnings(line, |line|)
    ensures Cast(begun) == begun
  {
    BeginningsRise(line, |line|);
    forall i | 0 <= i < |begun| ensures begun[i] < TWO_32 {
      assert begun[i] in begun && Begins(line, begun[i] - 1);
    }
  }

  // A position past 32 bits is in no list of casts.
  lemma {:induction false} LostBeginning(line: seq<Byte>)
    requires !BeginningsFit(line)
    ensures !AreBeginnings(line, Cast(Columns(line)))
  {
    var k: nat :| k < |line| && Begins(line, k) && k + 1 >= TWO_32;
    assert k + 1 !in Cast(Columns(line));
  }

  // A statement, then blanks up to a statement at byte 2^32.
  function FarLine(first: Byte, second: Byte): (line: seq<Byte>)
    ensures |line| == TWO_32 + 1 && line[0] == first && line[1] == SEMICOLON && line[TWO_32] == second
    ensures forall i :: 2 <= i < TWO_32 ==> line[i] == 32
  {
    seq(TWO_32 + 1, i => if i == 0 then first else if i == 1 then SEMICOLON else if i < TWO_32 then 32 else second)
  }

  predicate IsLetter(b: Byte) {
    97 <= b <= 122
  }

  // Both statements of that line get column 1.
  lemma {:induction false} FarStatementIsFirst(first: Byte, second: Byte)
    requires IsLetter(first) && IsLetter(second)
    ensures Cast(Columns(FarLine(first, second))) == [1, 1]
  {
    var line := FarLine(first, second);
    BlanksBeginNothing(line, TWO_32);
    BeginsWhenPending(line, TWO_32);
    assert Beginnings(line, TWO_32 + 1) == [1, TWO_32 + 1];
  }

  lemma {:induction false} FirstStatement(line: seq<Byte>, n: nat)
    requires n == 2 <= |line| && IsLetter(line[0]) && line[1] == SEMICOLON
    ensures ContextAt(line, n) == Context(Code, 0) && Pending(line, n) && Beginnings(line, n) == [1]
  {
    assert ContextAt(line, n - 2) == Context(Code, 0) && ContextAt(line, n - 1) == Context(Code, 0);
    BeginsWhenPending(line, n - 2);
    BeginsWhenPending(line, n - 1);
    assert Beginnings(line, n - 2) == [] && Beginnings(line, n - 1) == [1];
  }

  // After `x;` the blanks that follow begin no statement, and one stays pending.
  lemma {:induction false} BlanksBeginNothing(line: seq<Byte>, n: nat)
    requires 2 <= n <= |line| && IsLetter(line[0]) && line[1] == SEMICOLON && forall i :: 2 <= i < n ==> line[i] == 32
    ensures ContextAt(line, n) == Context(Code, 0) && Pending(line, n) && Beginnings(line, n) == [1]
  {
    if n == 2 {
      FirstStatement(line, n);
    } else {
      BlanksBeginNothing(line, n - 1);
    }
  }

  // ---- Lines read byte by byte ----------------------------------------------------------

  // What one more byte does to the context, to what is pending and to the statements begun.
  lemma {:induction false} OneMoreByte(line: seq<Byte>, n: nat)
    requires n < |line|
    ensures ContextAt(line, n + 1) == Next(ContextAt(line, n), line[n])
    ensures Pending(line, n + 1) <==>
      (line[n] == SEMICOLON && ContextAt(line, n) == Context(Code, 0)) || (Blank(line[n]) && Pending(line, n))
    ensures Beginnings(line, n + 1) == Beginnings(line, n) + if Pending(line, n) && !Blank(line[n]) then [n + 1] else []
  {
    BeginsWhenPending(line, n);
  }

  // The text of a line.
  predicate Reads(line: seq<Byte>, text: string) {
    |line| == |text| && forall i :: 0 <= i < |line| ==> line[i] as char == text[i]
  }

  // A semicolon ends a statement, and blanks before the next one are passed.
  lemma {:induction false} SemicolonSeparates(line: seq<Byte>, x: Byte, w: Byte, y: Byte)
    requires IsLetter(x) && IsLetter(y) && w as char in [' ', '\t', '\n', '\r', 12 as char]
    requires Reads(line, [x as char, ';', w as char, y as char])
    ensures Columns(line) == [1, 4]
  {
    OneMoreByte(line, 0);
    OneMoreByte(line, 1);
    OneMoreByte(line, 2);
    OneMoreByte(line, 3);
    assert Beginnings(line, 4) == [1, 4];
  }

  // A bracket or a quote, and what closes it.
  predicate Pair(open: char, close: char) {
    || (open == '(' && close == ')') || (open == '[' && close == ']') || (open == '{' && close == '}')
    || (open == '"' && close == '"') || (open == '\'' && close == '\'')
  }

  // The context after the opening byte.
  function InsidePair(open: char): Context {
    if open == '"' then Context(Text, 0) else if open == '\'' then Context(Char, 0) else Context(Code, 1)
  }

  lemma {:induction false} PairOpens(open: char, close: char, a: Byte, b: Byte, x: Byte)
    requires Pair(open, close) && a as char == open && b as char == close && IsLetter(x)
    ensures !Blank(a) && !Blank(b) && a != SEMICOLON && b != SEMICOLON
    ensures Next(Context(Code, 0), a) == InsidePair(open)
    ensures InsidePair(open) == Next(InsidePair(open), SEMICOLON) == Next(InsidePair(open), x)
    ensures Next(InsidePair(open), b) == Context(Code, 0) != InsidePair(open)
  {
  }

  // Inside a pair a semicolon ends nothing, and after it one does.
  lemma {:induction false} PairsHold(line: seq<Byte>, open: char, x: Byte, close: char, y: Byte)
    requires IsLetter(x) && IsLetter(y) && Pair(open, close)
    requires Reads(line, [open, ';', x as char, close, ';', y as char])
    ensures Columns(line) == [1, 6]
  {
    PairOpens(open, close, line[0], line[3], line[2]);
    PairSkipped(line, open, 4);
    OneMoreByte(line, 4);
    OneMoreByte(line, 5);
    assert Beginnings(line, 6) == [1, 6];
  }

  lemma {:induction false} PairSkipped(line: seq<Byte>, open: char, n: nat)
    requires n == 4 <= |line| && line[1] == SEMICOLON && IsLetter(line[2])
    requires !Blank(line[0]) && !Blank(line[3]) && line[0] != SEMICOLON && line[3] != SEMICOLON
    requires var inside := InsidePair(open);
      && Next(Context(Code, 0), line[0]) == inside == Next(inside, SEMICOLON) == Next(inside, line[2])
      && Next(inside, line[3]) == Context(Code, 0) != inside
    ensures ContextAt(line, n) == Context(Code, 0) && !Pending(line, n) && Beginnings(line, n) == [1]
  {
    OneMoreByte(line, n - 4);
    OneMoreByte(line, n - 3);
    OneMoreByte(line, n - 2);
    OneMoreByte(line, n - 1);
    assert ContextAt(line, n - 4) == Context(Code, 0);
    assert ContextAt(line, n - 3) == ContextAt(line, n - 2) == ContextAt(line, n - 1) == InsidePair(open);
  }

  // An escaped quote does not close its literal.
  lemma {:induction false} EscapesHold(line: seq<Byte>, quote: char, x: Byte)
    requires IsLetter(x) && (quote == '"' || quote == '\'')
    requires Reads(line, [quote, '\\', quote, ';', x as char, quote])
    ensures Columns(line) == [1]
  {
    OneMoreByte(line, 0);
    OneMoreByte(line, 1);
    OneMoreByte(line, 2);
    OneMoreByte(line, 3);
    OneMoreByte(line, 4);
    OneMoreByte(line, 5);
    assert Beginnings(line, 6) == [1];
  }
}
