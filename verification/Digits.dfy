// Numbers written in base 10 as text, and in base 256 as bytes.
module Digits {
  import opened Common

  predicate IsDigit(c: char) {
    '0' <= c <= '9'
  }

  predicate AllDigits(s: string) {
    forall i :: 0 <= i < |s| ==> IsDigit(s[i])
  }

  function DigitValue(c: char): nat
    requires IsDigit(c)
  {
    c as int - '0' as int
  }

  // The number a run of decimal digits writes, most significant first.
  function Decimal(ds: string): nat
    requires AllDigits(ds)
  {
    if ds == "" then 0 else 10 * Decimal(ds[..|ds| - 1]) + DigitValue(ds[|ds| - 1])
  }

  // A number as `to_string` writes it.
  function DecimalText(n: nat): (s: string)
    ensures |s| >= 1 && AllDigits(s) && Decimal(s) == n
    decreases n
  {
    var d := ('0' as int + n % 10) as char;
    if n < 10 then
      assert [d][..0] == "";
      [d]
    else
      var s := DecimalText(n / 10) + [d];
      assert s[..|s| - 1] == DecimalText(n / 10);
      s
  }

  // The value of bytes, most significant first.
  ghost function BytesValue(bs: seq<Byte>): nat {
    if bs == [] then 0 else 256 * BytesValue(bs[..|bs| - 1]) + bs[|bs| - 1]
  }

  function Pow256(n: nat): (r: nat)
    ensures r > 0
  {
    if n == 0 then 1 else 256 * Pow256(n - 1)
  }
}
