// Signed readings of field elements: the observed locals' `felt_to_i64` (src/value_probe.rs), and the
// listing's `felt_text` and relative call targets (onchain/src/listing.rs).
module FieldInts {
  import opened Common
  import opened Digits
  import opened Expressions

  // The STARK prime, 2^251 + 17 * 2^192 + 1.
  const PRIME: int := 0x800000000000011000000000000000000000000000000000000000000000001

  function Neg(f: Felt): (r: Felt)
    requires f < PRIME
    ensures r < PRIME && (f + r) % PRIME == 0
  {
    if f == 0 then 0 else PRIME - f
  }

  // The signed number of least magnitude that `f` stands for.
  function Signed(f: Felt): (x: int)
    requires f < PRIME
    ensures x % PRIME == f && -PRIME < 2 * x < PRIME
  {
    if f > PRIME / 2 then f - PRIME else f
  }

  lemma {:induction false} SignedIsUnique(f: Felt, x: int)
    requires f < PRIME && -PRIME < 2 * x < PRIME && x % PRIME == f
    ensures x == Signed(f)
  {
  }

  function FeltToI64(f: Felt): Option<i64>
    requires f < PRIME
  {
    var signed := Signed(f);
    if -TWO_63 <= signed < TWO_63 then Some(signed) else None
  }

  // A local reads as `x` exactly when the felt is the residue of the i64 `x`.
  lemma {:induction false} FeltToI64Exact(f: Felt, x: i64)
    requires f < PRIME
    ensures FeltToI64(f) == Some(x) <==> x % PRIME == f
  {
    if x % PRIME == f {
      SignedIsUnique(f, x);
    }
  }

  // None is read exactly when no i64 has that residue.
  lemma {:induction false} FeltToI64None(f: Felt)
    requires f < PRIME
    ensures FeltToI64(f) == None <==> forall x: i64 :: x % PRIME != f
  {
    if FeltToI64(f) == None {
      forall x: i64 ensures x % PRIME != f {
        FeltToI64Exact(f, x);
      }
    } else {
      assert FeltToI64(f).value % PRIME == f;
    }
  }

  // ---- Felts as the listing writes them -----------------------------------------------

  predicate IsHex(c: char) {
    '0' <= c <= '9' || 'a' <= c <= 'f'
  }

  function HexDigit(d: nat): (c: char)
    requires d < 16
    ensures IsHex(c) && HexValue(c) == d
  {
    if d < 10 then ('0' as int + d) as char else ('a' as int + d - 10) as char
  }

  function HexValue(c: char): nat
    requires IsHex(c)
  {
    if c <= '9' then c as int - '0' as int else c as int - 'a' as int + 10
  }

  predicate AllHex(s: string) {
    forall i :: 0 <= i < |s| ==> IsHex(s[i])
  }

  function Hexadecimal(s: string): nat
    requires AllHex(s)
  {
    if s == "" then 0 else 16 * Hexadecimal(s[..|s| - 1]) + HexValue(s[|s| - 1])
  }

  function HexText(n: nat): (s: string)
    ensures |s| >= 1 && AllHex(s) && Hexadecimal(s) == n
    decreases n
  {
    if n < 16 then
      var s := [HexDigit(n)];
      assert s[..0] == "";
      s
    else
      var s := HexText(n / 16) + [HexDigit(n % 16)];
      assert s[..|s| - 1] == HexText(n / 16);
      s
  }

  function ToHex(f: Felt): string {
    "0x" + HexText(f)
  }

  function FeltText(f: Felt): string
    requires f < PRIME
  {
    if f < TWO_64 then DecimalText(f)
    else if Neg(f) < TWO_64 then "-" + DecimalText(Neg(f))
    else ToHex(f)
  }

  // How a reader understands such a text: hexadecimal after `0x`, else a signed decimal.
  function ReadFelt(s: string): Option<int> {
    if |s| >= 2 && s[..2] == "0x" then
      if AllHex(s[2..]) then Some(Hexadecimal(s[2..])) else None
    else if |s| >= 1 && s[0] == '-' then
      if AllDigits(s[1..]) then Some(0 - Decimal(s[1..])) else None
    else if AllDigits(s) then Some(Decimal(s))
    else None
  }

  // The text reads back as the same felt, and as the signed number nearest zero whenever that number
  // has a magnitude below 2^64.
  ghost predicate ReadsBack(f: Felt)
    requires f < PRIME
  {
    && ReadFelt(FeltText(f)).Some? && ReadFelt(FeltText(f)).value % PRIME == f
    && (-TWO_64 < Signed(f) < TWO_64 ==> ReadFelt(FeltText(f)) == Some(Signed(f)))
  }

  lemma {:induction false} FeltTextReadsBack(f: Felt)
    requires f < PRIME
    ensures ReadsBack(f)
  {
    if f < TWO_64 {
      SmallReadsBack(f);
    } else if Neg(f) < TWO_64 {
      NegativeReadsBack(f);
    } else {
      LargeReadsBack(f);
    }
  }

  lemma {:induction false} SmallReadsBack(f: Felt)
    requires f < TWO_64
    ensures f < PRIME && ReadsBack(f)
  {
    ReadsDecimal(DecimalText(f));
  }

  lemma {:induction false} NegativeReadsBack(f: Felt)
    requires TWO_64 <= f < PRIME && Neg(f) < TWO_64
    ensures ReadsBack(f)
  {
    ReadsNegative(DecimalText(Neg(f)));
    assert 0 - Neg(f) == f - PRIME;
  }

  lemma {:induction false} LargeReadsBack(f: Felt)
    requires TWO_64 <= f < PRIME && Neg(f) >= TWO_64
    ensures ReadsBack(f)
  {
    ReadsHex(HexText(f));
  }

  lemma {:induction false} ReadsDecimal(s: string)
    requires AllDigits(s) && |s| >= 1
    ensures ReadFelt(s) == Some(Decimal(s))
  {
    DecimalIsNotHex(s);
  }

  lemma {:induction false} ReadsNegative(s: string)
    requires AllDigits(s)
    ensures ReadFelt("-" + s) == Some(0 - Decimal(s))
  {
    assert ("-" + s)[1..] == s && ("-" + s)[0] == '-';
  }

  lemma {:induction false} ReadsHex(s: string)
    requires AllHex(s)
    ensures ReadFelt("0x" + s) == Some(Hexadecimal(s))
  {
    assert ("0x" + s)[..2] == "0x" && ("0x" + s)[2..] == s;
  }

  lemma {:induction false} DecimalIsNotHex(s: string)
    requires AllDigits(s) && |s| >= 1
    ensures !(|s| >= 2 && s[..2] == "0x") && s[0] != '-'
  {
    assert IsDigit(s[0]);
    if |s| >= 2 {
      assert IsDigit(s[1]) && s[..2][1] == s[1];
      assert "0x"[1] == 'x';
    }
  }

  // ---- Relative calls -----------------------------------------------------------------

  // `parse::<i64>().unwrap_or(0)` of a decimal text.
  function ParseOrZero(s: string): i64
    requires AllDigits(s)
  {
    if Decimal(s) < TWO_63 then Decimal(s) else 0
  }

  function ReadOffset(imm: Felt): i64
    requires imm < PRIME
  {
    if Neg(imm) < TWO_64 then -ParseOrZero(DecimalText(Neg(imm)))
    else ParseOrZero(DecimalText(imm))
  }

  // The pc a relative call with this immediate is recorded to reach, if any. The addition is on i64.
  function CallTarget(pc: nat, imm: Felt): Option<nat>
    requires imm < PRIME
  {
    var t := Wrap(pc + ReadOffset(imm));
    if t >= 0 then Some(t) else None
  }

  // The recorded target is pc plus the signed offset exactly when the offset's magnitude is below 2^63
  // and the sum is a non-negative i64. A larger offset is read as zero, so the call seems to reach itself.
  lemma {:induction false} CallTargetExact(pc: nat, imm: Felt)
    requires pc < TWO_63 && imm < PRIME
    ensures var x := Signed(imm);
      CallTarget(pc, imm) == (if !(-TWO_63 < x < TWO_63) then Some(pc)
                              else if 0 <= pc + x < TWO_63 then Some(pc + x)
                              else None)
    ensures var x := Signed(imm);
      (CallTarget(pc, imm).Some? && CallTarget(pc, imm).value == pc + x)
      <==> -TWO_63 < x < TWO_63 && 0 <= pc + x < TWO_63
  {
    OffsetExact(imm);
  }

  // So a call forward by 2^63 is recorded to reach its own pc.
  lemma {:induction false} FarCallReachesItself(pc: nat)
    requires pc < TWO_63
    ensures Signed(TWO_63) == TWO_63 && CallTarget(pc, TWO_63) == Some(pc)
  {
    CallTargetExact(pc, TWO_63);
  }

  lemma {:induction false} OffsetExact(imm: Felt)
    requires imm < PRIME
    ensures ReadOffset(imm) == if -TWO_63 < Signed(imm) < TWO_63 then Signed(imm) else 0
  {
  }
}
