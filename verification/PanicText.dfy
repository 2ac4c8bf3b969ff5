// Recovering text packed into felts: in-place long division from base 10 to base 256, and
// the longest printable run (src/tracer.rs).
module PanicText {
  import opened Common
  import opened Digits

  // The value of decimal digits, most significant first.
  ghost function DigitsValue(ds: seq<nat>): nat {
    if ds == [] then 0 else 10 * DigitsValue(ds[..|ds| - 1]) + ds[|ds| - 1]
  }

  ghost predicate IsDecimal(ds: seq<nat>) {
    forall i :: 0 <= i < |ds| ==> ds[i] <= 9
  }

  // The low `maxLen` base-256 digits of `v`, without leading zeros above the first.
  function BytesOf(v: nat, maxLen: nat): (r: seq<Byte>)
    ensures |r| <= maxLen
  {
    if maxLen == 0 then []
    else if v / 256 == 0 then [v % 256]
    else BytesOf(v / 256, maxLen - 1) + [v % 256]
  }

  // ----- the conversion as it runs

  // One division of the digit buffer by 256, in place.
  method DivideBy256(digits: array<nat>) returns (carry: Byte, allZero: bool)
    requires IsDecimal(digits[..])
    modifies digits
    ensures IsDecimal(digits[..])
    ensures old(DigitsValue(digits[..])) == 256 * DigitsValue(digits[..]) + carry
    ensures allZero <==> DigitsValue(digits[..]) == 0
  {
    carry, allZero := 0, true;
    var i := 0;
    while i < digits.Length
      invariant 0 <= i <= digits.Length
      invariant IsDecimal(digits[..])
      invariant digits[i..] == old(digits[..])[i..]
      invariant DigitsValue(old(digits[..])[..i]) == 256 * DigitsValue(digits[..i]) + carry
      invariant allZero <==> DigitsValue(digits[..i]) == 0
    {
      ghost var before := digits[..];
      assert digits[i] == digits[i..][0] == old(digits[..])[i];
      var cur := carry * 10 + digits[i];
      assert digits[i] == before[i] <= 9;
      digits[i] := cur / 256;
      carry := cur % 256;
      if digits[i] != 0 {
        allZero := false;
      }
      DigitsSnoc(old(digits[..]), i);
      DigitsSnoc(digits[..], i);
      assert digits[..][..i] == before[..i];
      assert digits[..][..i + 1] == digits[..i + 1];
      i := i + 1;
    }
    assert digits[..i] == digits[..];
    assert old(digits[..])[..i] == old(digits[..]);
  }

  lemma {:induction false} DigitsSnoc(ds: seq<nat>, i: nat)
    requires i < |ds|
    ensures DigitsValue(ds[..i + 1]) == 10 * DigitsValue(ds[..i]) + ds[i]
  {
    assert ds[..i + 1][..i] == ds[..i];
  }

  function Reversed<T>(s: seq<T>): (r: seq<T>)
    ensures |r| == |s| && forall i :: 0 <= i < |s| ==> r[i] == s[|s| - 1 - i]
  {
    seq(|s|, i requires 0 <= i < |s| => s[|s| - 1 - i])
  }

  method DigitBuffer(dec: string) returns (digits: array<nat>)
    requires AllDigits(dec)
    ensures fresh(digits) && IsDecimal(digits[..]) && DigitsValue(digits[..]) == Decimal(dec)
  {
    digits := new nat[|dec|](i requires 0 <= i < |dec| => DigitValue(dec[i]));
    DigitsOfText(dec, digits[..]);
  }

  // The low bytes `out` of `v` are written, lowest first, and `rest` is what is left of it.
  ghost predicate Splitting(v: nat, maxLen: nat, rest: nat, out: seq<Byte>) {
    |out| <= maxLen && BytesOf(v, maxLen) == BytesOf(rest, maxLen - |out|) + Reversed(out)
  }

  lemma {:induction false} SplitByte(v: nat, maxLen: nat, rest: nat, out: seq<Byte>, high: nat, low: Byte)
    requires |out| < maxLen && Splitting(v, maxLen, rest, out) && rest == 256 * high + low
    ensures if high == 0 then BytesOf(v, maxLen) == Reversed(out + [low]) else Splitting(v, maxLen, high, out + [low])
  {
    assert rest / 256 == high && rest % 256 == low;
    assert Reversed(out + [low]) == [low] + Reversed(out);
  }

  lemma {:induction false} SplitWhole(v: nat, maxLen: nat)
    ensures Splitting(v, maxLen, v, [])
  {
    assert BytesOf(v, maxLen) + Reversed([]) == BytesOf(v, maxLen);
  }

  lemma {:induction false} SplitAll(v: nat, maxLen: nat, rest: nat, out: seq<Byte>)
    ensures |out| == maxLen && Splitting(v, maxLen, rest, out) ==> BytesOf(v, maxLen) == Reversed(out)
  {
  }

  method FeltDecimalToBytes(dec: string, maxLen: nat) returns (out: seq<Byte>)
    requires AllDigits(dec)
    ensures out == BytesOf(Decimal(dec), maxLen)
  {
    var digits := DigitBuffer(dec);
    ghost var v := Decimal(dec);
    out := [];
    SplitWhole(v, maxLen);
    while |out| < maxLen
      invariant IsDecimal(digits[..]) && Splitting(v, maxLen, DigitsValue(digits[..]), out)
      decreases maxLen - |out|
    {
      ghost var rest := DigitsValue(digits[..]);
      var carry, allZero := DivideBy256(digits);
      SplitByte(v, maxLen, rest, out, DigitsValue(digits[..]), carry);
      out := out + [carry];
      if allZero {
        break;
      }
    }
    SplitAll(v, maxLen, DigitsValue(digits[..]), out);
    out := Reversed(out);
  }

  lemma {:induction false} DigitsOfText(dec: string, ds: seq<nat>)
    requires AllDigits(dec) && |ds| == |dec| && forall i :: 0 <= i < |dec| ==> ds[i] == DigitValue(dec[i])
    ensures IsDecimal(ds) && DigitsValue(ds) == Decimal(dec)
  {
    if dec != "" {
      DigitsOfText(dec[..|dec| - 1], ds[..|ds| - 1]);
    }
  }

  // ----- the conversion is exact

  // What comes back is the value, modulo the room it was given.
  lemma {:induction false} BytesOfValue(v: nat, maxLen: nat)
    ensures var bs := BytesOf(v, maxLen);
      && BytesValue(bs) == v % Pow256(|bs|)
      && (|bs| == maxLen || v < Pow256(|bs|))
      && (maxLen > 0 ==> |bs| > 0)
      && (|bs| > 1 ==> v >= Pow256(|bs| - 1))
    decreases maxLen
  {
    if maxLen > 0 {
      var bs := BytesOf(v, maxLen);
      if v / 256 == 0 {
        assert bs[..0] == [];
        assert Pow256(1) == 256 * Pow256(0);
      } else {
        var high := BytesOf(v / 256, maxLen - 1);
        BytesOfValue(v / 256, maxLen - 1);
        assert bs[..|bs| - 1] == high;
        ModStep(v, Pow256(|high|));
      }
    }
  }

  lemma {:induction false} ModStep(v: nat, p: nat)
    requires p > 0
    ensures 256 * ((v / 256) % p) + v % 256 == v % (256 * p)
    ensures v / 256 < p <==> v < 256 * p
  {
    var q := v / 256;
    var k, r := q / p, q % p;
    assert q == p * k + r;
    assert v == 256 * q + v % 256;
    assert v == (256 * p) * k + (256 * r + v % 256);
    assert 256 * r + v % 256 < 256 * p;
    ModUnique(v, 256 * p, k, 256 * r + v % 256);
  }

  lemma {:induction false} ModUnique(v: int, m: int, k: int, r: int)
    requires 0 <= r < m && v == m * k + r
    ensures v % m == r
  {
    var k', r' := v / m, v % m;
    assert v == m * k' + r';
    assert m * (k - k') == r' - r;
    assert k - k' >= 1 ==> m * (k - k') >= m;
    assert k - k' <= -1 ==> m * (k - k') <= -m;
  }

  // Packed bytes without a leading zero come back as they were.
  lemma {:induction false} BytesRoundTrip(bs: seq<Byte>, maxLen: nat)
    requires 1 <= |bs| <= maxLen && bs[0] != 0
    ensures BytesOf(BytesValue(bs), maxLen) == bs
  {
    var n := |bs| - 1;
    var v := BytesValue(bs);
    assert v == 256 * BytesValue(bs[..n]) + bs[n];
    assert v / 256 == BytesValue(bs[..n]) && v % 256 == bs[n];
    if n == 0 {
      assert BytesValue(bs[..0]) == 0;
    } else {
      LeadingByteCounts(bs[..n]);
      BytesRoundTrip(bs[..n], maxLen - 1);
      assert bs[..n] + [bs[n]] == bs;
    }
  }

  lemma {:induction false} LeadingByteCounts(bs: seq<Byte>)
    requires |bs| >= 1 && bs[0] != 0
    ensures BytesValue(bs) >= Pow256(|bs| - 1)
  {
    var n := |bs| - 1;
    if n > 0 {
      LeadingByteCounts(bs[..n]);
    } else {
      assert BytesValue(bs[..0]) == 0;
    }
  }

  // ----- the longest printable run

  predicate IsPrintable(b: Byte) {
    0x20 <= b <= 0x7e
  }

  ghost predicate IsRun(bs: seq<Byte>, lo: nat, hi: nat) {
    lo <= hi <= |bs| && forall i :: lo <= i < hi ==> 0x20 <= bs[i] <= 0x7e
  }

  // Run [lo, hi) is longer than run [a, b), or as long and not after it.
  predicate Beats(lo: nat, hi: nat, a: nat, b: nat) {
    b - a < hi - lo || (b - a == hi - lo && (lo <= a || lo == hi))
  }

  // The first of the longest runs.
  ghost predicate IsBestRun(bs: seq<Byte>, lo: nat, hi: nat) {
    && IsRun(bs, lo, hi)
    && forall a: nat, b: nat {:trigger IsRun(bs, a, b)} :: IsRun(bs, a, b) ==> Beats(lo, hi, a, b)
  }

  function Text(bs: seq<Byte>): (s: string)
    ensures |s| == |bs| && forall i :: 0 <= i < |s| ==> s[i] == bs[i] as char
  {
    seq(|bs|, i requires 0 <= i < |bs| => bs[i] as char)
  }

  function TrimStart(s: string): (r: string)
    ensures |r| <= |s| && r == s[|s| - |r|..]
    ensures r != "" ==> r[0] != ' '
  {
    if s != "" && s[0] == ' ' then TrimStart(s[1..]) else s
  }

  function TrimEnd(s: string): (r: string)
    ensures r <= s
    ensures r != "" ==> r[|r| - 1] != ' '
  {
    if s != "" && s[|s| - 1] == ' ' then TrimEnd(s[..|s| - 1]) else s
  }

  // `trim` of printable ASCII: only the space is white.
  function Trim(s: string): string {
    TrimEnd(TrimStart(s))
  }

  ghost predicate RunText(bs: seq<Byte>, t: string) {
    exists lo: nat, hi: nat :: IsBestRun(bs, lo, hi) && t == Text(bs[lo..hi])
  }

  // The first `i` bytes are scanned: the run at hand began at `start`, and [lo, hi) is the best before it.
  ghost predicate Scanned(bs: seq<Byte>, i: nat, start: nat, lo: nat, hi: nat) {
    && hi <= start <= i && IsRun(bs, start, i) && IsRun(bs, lo, hi)
    && (start > 0 ==> !IsPrintable(bs[start - 1]))
    && forall a: nat, b: nat {:trigger IsRun(bs, a, b)} :: IsRun(bs, a, b) && b <= i ==>
         start <= a || Beats(lo, hi, a, b)
  }

  // The better of a run and the one that follows it.
  ghost function Better(lo: nat, hi: nat, start: nat, i: nat): (nat, nat) {
    if i - start > hi - lo then (start, i) else (lo, hi)
  }

  lemma {:induction false} RunHolds(bs: seq<Byte>, lo: nat, hi: nat, i: nat)
    requires IsRun(bs, lo, hi)
    ensures lo <= i < hi ==> i < |bs| && IsPrintable(bs[i])
  {
  }

  lemma {:induction false} RunGoesOn(bs: seq<Byte>, i: nat, start: nat, lo: nat, hi: nat)
    requires i < |bs| && IsPrintable(bs[i]) && Scanned(bs, i, start, lo, hi)
    ensures Scanned(bs, i + 1, start, lo, hi)
    ensures Text(bs[start..i + 1]) == Text(bs[start..i]) + [bs[i] as char]
  {
    forall a: nat, b: nat | IsRun(bs, a, b) && b <= i + 1 ensures start <= a || Beats(lo, hi, a, b) {
      if start > 0 {
        RunHolds(bs, a, b, start - 1);
      }
    }
  }

  lemma {:induction false} RunEnds(bs: seq<Byte>, i: nat, start: nat, lo: nat, hi: nat)
    requires i < |bs| && !IsPrintable(bs[i]) && Scanned(bs, i, start, lo, hi)
    ensures var (l, h) := Better(lo, hi, start, i); Scanned(bs, i + 1, i + 1, l, h)
  {
    var (l, h) := Better(lo, hi, start, i);
    forall a: nat, b: nat | IsRun(bs, a, b) && b <= i + 1 ensures i + 1 <= a || Beats(l, h, a, b) {
      RunHolds(bs, a, b, i);
    }
  }

  lemma {:induction false} BestAtEnd(bs: seq<Byte>, start: nat, lo: nat, hi: nat)
    requires Scanned(bs, |bs|, start, lo, hi)
    ensures var (l, h) := Better(lo, hi, start, |bs|); IsBestRun(bs, l, h)
  {
  }

  method BytesToPrintableRun(bs: seq<Byte>) returns (text: string)
    ensures exists t :: RunText(bs, t) && text == Trim(t)
  {
    var best, cur := "", "";
    ghost var lo: nat, hi: nat, start: nat := 0, 0, 0;
    var i := 0;
    while i < |bs|
      invariant 0 <= i <= |bs| && Scanned(bs, i, start, lo, hi)
      invariant cur == Text(bs[start..i]) && best == Text(bs[lo..hi])
    {
      if IsPrintable(bs[i]) {
        RunGoesOn(bs, i, start, lo, hi);
        cur := cur + [bs[i] as char];
      } else {
        RunEnds(bs, i, start, lo, hi);
        if |cur| > |best| {
          best := cur;
          lo, hi := start, i;
        }
        cur := "";
        start := i + 1;
      }
      i := i + 1;
    }
    BestAtEnd(bs, start, lo, hi);
    if |cur| > |best| {
      best := cur;
      lo, hi := start, i;
    }
    text := Trim(best);
    assert RunText(bs, best);
  }

  // ----- panic messages

  // What one felt contributes: the text of its longest run, when that is worth showing.
  ghost predicate IsPart(v: nat, part: Option<string>) {
    if |DecimalText(v)| < 6 then part == None
    else exists t :: RunText(BytesOf(v, 31), t) && part == if |Trim(t)| >= 4 then Some(Trim(t)) else None
  }

  function Join(parts: seq<string>): string {
    if parts == [] then ""
    else if |parts| == 1 then parts[0]
    else Join(parts[..|parts| - 1]) + " " + parts[|parts| - 1]
  }

  function Somes(os: seq<Option<string>>): seq<string> {
    if os == [] then []
    else
      var o := os[|os| - 1];
      var before := Somes(os[..|os| - 1]);
      if o.Some? then before + [o.value] else before
  }

  // The texts there are, in order, with one blank between two.
  function Given(os: seq<Option<string>>): seq<string> {
    if os == [] then [] else (if os[0].Some? then [os[0].value] else []) + Given(os[1..])
  }

  function Spaced(parts: seq<string>): string {
    if parts == [] then ""
    else if |parts| == 1 then parts[0]
    else parts[0] + " " + Spaced(parts[1..])
  }

  lemma {:induction false} SpacedSnoc(parts: seq<string>, last: string)
    requires parts != []
    ensures Spaced(parts + [last]) == Spaced(parts) + " " + last
  {
    if |parts| == 1 {
      assert (parts + [last])[1..] == [last];
    } else {
      SpacedSnoc(parts[1..], last);
      assert (parts + [last])[1..] == parts[1..] + [last];
      assert parts[0] + " " + (Spaced(parts[1..]) + " " + last) == parts[0] + " " + Spaced(parts[1..]) + " " + last;
    }
  }

  lemma {:induction false} JoinIsSpaced(parts: seq<string>)
    ensures Join(parts) == Spaced(parts)
  {
    if |parts| > 1 {
      var n := |parts| - 1;
      JoinIsSpaced(parts[..n]);
      SpacedSnoc(parts[..n], parts[n]);
      assert parts[..n] + [parts[n]] == parts;
    }
  }

  lemma {:induction false} GivenSnoc(os: seq<Option<string>>, last: Option<string>)
    ensures Given(os + [last]) == Given(os) + if last.Some? then [last.value] else []
  {
    if os == [] {
      assert (os + [last])[1..] == [];
    } else {
      GivenSnoc(os[1..], last);
      assert (os + [last])[1..] == os[1..] + [last];
    }
  }

  lemma {:induction false} SomesAreGiven(os: seq<Option<string>>)
    ensures Somes(os) == Given(os)
  {
    if os != [] {
      var n := |os| - 1;
      SomesAreGiven(os[..n]);
      GivenSnoc(os[..n], os[n]);
      assert os[..n] + [os[n]] == os;
    }
  }

  ghost predicate Related<A, B>(xs: seq<A>, ys: seq<B>, rel: (A, B) -> bool) {
    |xs| == |ys| && forall i :: 0 <= i < |xs| ==> rel(xs[i], ys[i])
  }

  lemma {:induction false} RelatedSnoc<A, B>(xs: seq<A>, ys: seq<B>, rel: (A, B) -> bool, i: nat, y: B)
    requires i < |xs| && Related(xs[..i], ys, rel) && rel(xs[i], y)
    ensures Related(xs[..i + 1], ys + [y], rel)
  {
    forall j | 0 <= j < i ensures rel(xs[j], ys[j]) {
      assert rel(xs[..i][j], ys[j]);
    }
  }

  // What each felt contributes, in order.
  ghost predicate AreParts(values: seq<nat>, os: seq<Option<string>>) {
    Related(values, os, IsPart)
  }

  method DecodePart(v: nat) returns (part: Option<string>)
    ensures IsPart(v, part)
  {
    var dec := DecimalText(v);
    if |dec| < 6 {
      return None;
    }
    var bs := FeltDecimalToBytes(dec, 31);
    var ascii := BytesToPrintableRun(bs);
    part := if |ascii| >= 4 then Some(ascii) else None;
  }

  lemma {:induction false} PartAdded(values: seq<nat>, i: nat, os: seq<Option<string>>, part: Option<string>)
    requires i < |values| && AreParts(values[..i], os) && IsPart(values[i], part)
    ensures AreParts(values[..i + 1], os + [part])
    ensures Somes(os + [part]) == if part.Some? then Somes(os) + [part.value] else Somes(os)
  {
    RelatedSnoc(values, os, IsPart, i, part);
    assert (os + [part])[..|os|] == os;
  }

  method DecodeCairoPanicMessage(values: seq<nat>) returns (message: string)
    ensures exists os :: AreParts(values, os) && message == Spaced(Given(os))
  {
    var parts: seq<string> := [];
    ghost var os: seq<Option<string>> := [];
    var i := 0;
    while i < |values|
      invariant 0 <= i <= |values|
      invariant AreParts(values[..i], os) && parts == Somes(os)
    {
      var part := DecodePart(values[i]);
      PartAdded(values, i, os, part);
      if part.Some? {
        parts := parts + [part.value];
      }
      os := os + [part];
      i := i + 1;
    }
    assert values[..i] == values;
    message := Join(parts);
    JoinIsSpaced(parts);
    SomesAreGiven(os);
  }

  predicate PrintableText(bs: seq<Byte>) {
    1 <= |bs| <= 31 && forall i :: 0 <= i < |bs| ==> 0x20 <= bs[i] <= 0x7e
  }

  lemma {:induction false} WholeRun(bs: seq<Byte>, lo: nat, hi: nat)
    requires PrintableText(bs) && IsBestRun(bs, lo, hi)
    ensures lo == 0 && hi == |bs|
  {
    assert IsRun(bs, 0, |bs|);
  }

  function Pow10(n: nat): nat {
    if n == 0 then 1 else 10 * Pow10(n - 1)
  }

  lemma {:induction false} LongText(v: nat, n: nat)
    requires v >= Pow10(n)
    ensures |DecimalText(v)| >= n + 1
  {
    if n > 0 {
      LongText(v / 10, n - 1);
    }
  }

  lemma {:induction false} Powers(n: nat, m: nat)
    requires n == 3 && m == 5
    ensures Pow256(n) == 16777216 && Pow10(m) == 100000
  {
    assert Pow256(n - 2) == 256 && Pow256(n - 1) == 65536;
    assert Pow10(m - 4) == 10 && Pow10(m - 3) == 100 && Pow10(m - 2) == 1000 && Pow10(m - 1) == 10000;
  }

  lemma {:induction false} PowMonotone(a: nat, b: nat)
    requires a <= b
    ensures Pow256(a) <= Pow256(b)
    decreases b
  {
    if a < b {
      PowMonotone(a, b - 1);
    }
  }

  // A felt holding at least four characters is not skipped as a small number.
  lemma {:induction false} PackedIsLong(bs: seq<Byte>)
    requires PrintableText(bs) && |bs| >= 4
    ensures |DecimalText(BytesValue(bs))| >= 6
  {
    var n, m := 3, 5;
    LeadingByteCounts(bs);
    PowMonotone(n, |bs| - 1);
    Powers(n, m);
    LongText(BytesValue(bs), m);
  }

  lemma {:induction false} WholeRunText(bs: seq<Byte>, t: string)
    requires PrintableText(bs)
    ensures RunText(bs, t) <==> t == Text(bs)
  {
    assert IsRun(bs, 0, |bs|) && bs[0..|bs|] == bs;
    assert IsBestRun(bs, 0, |bs|);
    if RunText(bs, t) {
      var lo: nat, hi: nat :| IsBestRun(bs, lo, hi) && t == Text(bs[lo..hi]);
      WholeRun(bs, lo, hi);
    }
  }

  lemma {:induction false} PartOfText(v: nat, room: nat, bs: seq<Byte>, text: string, part: Option<string>)
    requires room == 31 && |DecimalText(v)| >= 6 && BytesOf(v, room) == bs
    requires forall t :: RunText(bs, t) <==> t == text
    ensures IsPart(v, part) <==> part == if |Trim(text)| >= 4 then Some(Trim(text)) else None
  {
    assert RunText(bs, text);
  }

  // A text without blanks at its ends.
  predicate Bare(t: string) {
    t == "" || (t[0] != ' ' && t[|t| - 1] != ' ')
  }

  predicate OnlyBlanks(s: string) {
    forall i :: 0 <= i < |s| ==> s[i] == ' '
  }

  lemma {:induction false} TrimsFront(v: string, k: nat)
    requires k <= |v| && OnlyBlanks(v[..k]) && (k < |v| ==> v[k] != ' ')
    ensures TrimStart(v) == v[k..]
  {
    if k > 0 {
      assert v[..k][0] == v[0];
      assert v[1..][..k - 1] == v[..k][1..];
      TrimsFront(v[1..], k - 1);
      assert v[1..][k - 1..] == v[k..];
    }
  }

  lemma {:induction false} TrimsBack(s: string, b: string)
    requires OnlyBlanks(b) && (s == "" || s[|s| - 1] != ' ')
    ensures TrimEnd(s + b) == s
  {
    if b == "" {
      assert s + b == s;
    } else {
      TrimsBack(s, b[..|b| - 1]);
      assert (s + b)[..|s + b| - 1] == s + b[..|b| - 1];
    }
  }

  lemma {:induction false} TrimsBlanks(a: string, t: string, b: string)
    requires OnlyBlanks(a) && Bare(t) && OnlyBlanks(b)
    ensures Trim(a + t + b) == t
  {
    var v := a + t + b;
    if t == "" {
      TrimsFront(v, |v|);
    } else {
      assert v[..|a|] == a && v[|a|..] == t + b;
      TrimsFront(v, |a|);
      TrimsBack(t, b);
    }
  }

  // A printable text of up to 31 bytes is recovered from the felt it was packed into, without the blanks
  // at its ends, when at least four characters are left; otherwise nothing is.
  lemma {:induction false} PackedTextRecovered(bs: seq<Byte>, a: string, t: string, b: string, part: Option<string>)
    requires PrintableText(bs) && Text(bs) == a + t + b && OnlyBlanks(a) && Bare(t) && OnlyBlanks(b)
    ensures IsPart(BytesValue(bs), part) <==> part == if |t| >= 4 then Some(t) else None
  {
    TrimsBlanks(a, t, b);
    BytesRoundTrip(bs, 31);
    forall s ensures RunText(bs, s) <==> s == Text(bs) {
      WholeRunText(bs, s);
    }
    if |bs| >= 4 {
      PackedIsLong(bs);
    }
    if |DecimalText(BytesValue(bs))| >= 6 {
      PartOfText(BytesValue(bs), 31, bs, Text(bs), part);
    }
  }

  // The pieces that are long enough to be recovered.
  function LongOnes(ts: seq<string>): seq<string> {
    if ts == [] then [] else (if |ts[0]| >= 4 then [ts[0]] else []) + LongOnes(ts[1..])
  }

  ghost predicate Packs(bs: seq<Byte>, t: string) {
    PrintableText(bs) && Bare(t) && exists a, b :: OnlyBlanks(a) && OnlyBlanks(b) && Text(bs) == a + t + b
  }

  lemma {:induction false} GivenLongOnes(os: seq<Option<string>>, ts: seq<string>)
    requires |os| == |ts| && forall i :: 0 <= i < |os| ==> os[i] == if |ts[i]| >= 4 then Some(ts[i]) else None
    ensures Given(os) == LongOnes(ts)
  {
    if os != [] {
      GivenLongOnes(os[1..], ts[1..]);
    }
  }

  // Any message packed in such pieces decodes to those long enough, without the blanks at their ends and
  // with one blank between two.
  lemma {:induction false} PackedMessageRecovered(pieces: seq<seq<Byte>>, ts: seq<string>, values: seq<nat>,
          os: seq<Option<string>>)
    requires |values| == |pieces| == |ts|
    requires forall i :: 0 <= i < |pieces| ==> Packs(pieces[i], ts[i]) && values[i] == BytesValue(pieces[i])
    requires AreParts(values, os)
    ensures Spaced(Given(os)) == Spaced(LongOnes(ts))
  {
    forall i | 0 <= i < |pieces| ensures os[i] == if |ts[i]| >= 4 then Some(ts[i]) else None {
      assert IsPart(values[i], os[i]) && Packs(pieces[i], ts[i]);
      var a, b :| OnlyBlanks(a) && OnlyBlanks(b) && Text(pieces[i]) == a + ts[i] + b;
      PackedTextRecovered(pieces[i], a, ts[i], b, os[i]);
    }
    GivenLongOnes(os, ts);
  }
}
