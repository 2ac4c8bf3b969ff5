// The recording id of a transaction: a version 7 UUID of its block's time and its hash
// (onchain/src/record.rs, `derived_recording_id`; section 5.7 of RFC 9562).
module RecordingId {
  import opened Common
  import opened Digits
  import opened FieldInts

  const TWO_48 := 0x1_0000_0000_0000
  const U64_MAX := 0xFFFF_FFFF_FFFF_FFFF

  // Milliseconds, by a saturating multiplication, cut to 48 bits.
  function Millis(secs: nat): (ms: nat)
    ensures ms < TWO_48
    ensures secs * 1000 < TWO_48 ==> ms == secs * 1000
  {
    (if secs * 1000 <= U64_MAX then secs * 1000 else U64_MAX) % TWO_48
  }

  // ---- Bytes and their text -------------------------------------------------------------

  function Bytes(v: nat, n: nat): (bs: seq<Byte>)
    ensures |bs| == n
  {
    if n == 0 then [] else Bytes(v / 256, n - 1) + [v % 256]
  }

  // The bytes that follow the time: version and variant bits around bits of the hash.
  function Tail(h: seq<Byte>): seq<Byte>
    requires |h| == 32
  {
    [0x70 + h[0] % 16, h[1], 0x80 + h[2] % 64] + h[3..10]
  }

  function IdBytes(secs: nat, hash: Felt): (bs: seq<Byte>)
    ensures |bs| == 16
  {
    Bytes(Millis(secs), 6) + Tail(Bytes(hash, 32))
  }

  function Hex(bs: seq<Byte>): (s: string)
    ensures |s| == 2 * |bs|
  {
    if bs == [] then "" else Hex(bs[..|bs| - 1]) + [HexDigit(bs[|bs| - 1] / 16), HexDigit(bs[|bs| - 1] % 16)]
  }

  function Dashed(hex: string): (s: string)
    requires |hex| == 32
    ensures |s| == 36
  {
    hex[..8] + "-" + hex[8..12] + "-" + hex[12..16] + "-" + hex[16..20] + "-" + hex[20..]
  }

  function IdText(secs: nat, hash: Felt): string {
    Dashed(Hex(IdBytes(secs, hash)))
  }

  // The bytes are filled in place; the masks keep the low bits, and the added bits are clear in them.
  method DerivedRecordingId(secs: nat, hash: Felt) returns (id: string)
    ensures id == IdText(secs, hash)
  {
    var ms := Bytes(Millis(secs), 6);
    var h := Bytes(hash, 32);
    var b := new Byte[16](_ => 0);
    for i := 0 to 6
      invariant forall j :: 0 <= j < i ==> b[j] == ms[j]
    {
      b[i] := ms[i];
    }
    b[6] := 0x70 + h[0] % 16;
    b[7] := h[1];
    b[8] := 0x80 + h[2] % 64;
    for i := 9 to 16
      invariant forall j :: 0 <= j < 6 ==> b[j] == ms[j]
      invariant b[6] == 0x70 + h[0] % 16 && b[7] == h[1] && b[8] == 0x80 + h[2] % 64
      invariant forall j :: 9 <= j < i ==> b[j] == h[j - 6]
    {
      b[i] := h[i - 6];
    }
    assert b[..] == IdBytes(secs, hash);
    id := Dashed(Hex(b[..]));
  }

  lemma {:induction false} HexAt(bs: seq<Byte>, i: nat)
    requires i < |bs|
    ensures Hex(bs)[2 * i] == HexDigit(bs[i] / 16) && Hex(bs)[2 * i + 1] == HexDigit(bs[i] % 16)
    decreases |bs|
  {
    if i < |bs| - 1 {
      HexAt(bs[..|bs| - 1], i);
    }
  }

  // Where the two digits of byte `i` stand in the text: after the dashes before it.
  function PlaceOf(i: nat): nat
    requires i < 16
  {
    2 * i + if i < 4 then 0 else if i < 6 then 1 else if i < 8 then 2 else if i < 10 then 3 else 4
  }

  predicate Writes(c: char, digit: nat) {
    c as int == if digit < 10 then '0' as int + digit else 'a' as int + digit - 10
  }

  // The text is the bytes' lower-case digits, high one first, in groups of 8, 4, 4, 4 and 12.
  lemma {:induction false} IdReads(secs: nat, hash: Felt, i: nat)
    requires i < 16
    ensures var id, b := IdText(secs, hash), IdBytes(secs, hash)[i];
      && |id| == 36 && id[8] == id[13] == id[18] == id[23] == '-'
      && Writes(id[PlaceOf(i)], b / 16) && Writes(id[PlaceOf(i) + 1], b % 16)
  {
    var bs := IdBytes(secs, hash);
    HexAt(bs, i);
    DashedDigit(Hex(bs), 2 * i);
    DashedDigit(Hex(bs), 2 * i + 1);
  }

  lemma {:induction false} DashedDigit(hex: string, k: nat)
    requires |hex| == 32 && k < 32
    ensures var s := Dashed(hex);
      && s[8] == s[13] == s[18] == s[23] == '-'
      && s[k + if k < 8 then 0 else if k < 12 then 1 else if k < 16 then 2 else if k < 20 then 3 else 4] == hex[k]
  {
  }

  // ---- The layout of RFC 9562 -----------------------------------------------------------

  lemma {:induction false} BytesRoundTrip(v: nat, n: nat, limit: nat)
    requires v < limit && limit == Pow256(n)
    ensures BytesValue(Bytes(v, n)) == v
    decreases n
  {
    if n > 0 {
      BytesRoundTrip(v / 256, n - 1, Pow256(n - 1));
      var bs := Bytes(v, n);
      assert bs[..|bs| - 1] == Bytes(v / 256, n - 1);
    }
  }

  lemma {:induction false} PowerSix(n: nat)
    requires n == 6
    ensures Pow256(n) == TWO_48
  {
    assert Pow256(n - 6) == 1;
    assert Pow256(n - 5) == 256;
    assert Pow256(n - 4) == 0x1_0000;
    assert Pow256(n - 3) == 0x100_0000;
    assert Pow256(n - 2) == 0x1_0000_0000;
    assert Pow256(n - 1) == 0x100_0000_0000;
  }

  // The first 48 bits are the milliseconds, the version is 7 and the variant bits are 10; the other bits
  // are those of the hash's first ten bytes, in place.
  lemma {:induction false} FollowsVersionSeven(secs: nat, hash: Felt)
    ensures var bs, h := IdBytes(secs, hash), Bytes(hash, 32);
      bs[6] % 16 == h[0] % 16 && bs[7] == h[1] && bs[8] % 64 == h[2] % 64 &&
      forall i :: 9 <= i < 16 ==> bs[i] == h[i - 6]
    ensures var bs, id := IdBytes(secs, hash), IdText(secs, hash);
      && BytesValue(bs[..6]) == Millis(secs)
      && bs[6] / 16 == 7 && bs[8] / 64 == 2
      && id[14] == '7' && id[19] in "89ab"
  {
    var bs := IdBytes(secs, hash);
    var six := 6;
    PowerSix(six);
    BytesRoundTrip(Millis(secs), six, TWO_48);
    assert bs[..6] == Bytes(Millis(secs), 6);
    HexAt(bs, 6);
    HexAt(bs, 8);
    var d := bs[8] / 16;
    assert d == 8 || d == 9 || d == 10 || d == 11;
  }

  // ---- Order ----------------------------------------------------------------------------

  ghost predicate Alike<T>(s: seq<T>, t: seq<T>, k: nat)
    requires k <= |s| && k <= |t|
  {
    forall i :: 0 <= i < k ==> s[i] == t[i]
  }

  // `s` comes before `t`, which first differ at `k`.
  ghost predicate FirstLess(s: string, t: string, k: nat) {
    k < |s| && k < |t| && Alike(s, t, k) && s[k] < t[k]
  }

  ghost predicate Less(s: string, t: string) {
    (exists k: nat :: FirstLess(s, t, k)) || (|s| < |t| && Alike(s, t, |s|))
  }

  ghost predicate FirstByteLess(a: seq<Byte>, b: seq<Byte>, k: nat) {
    k < |a| && k < |b| && Alike(a, b, k) && a[k] < b[k]
  }

  lemma {:induction false} BytesOrdered(v: nat, w: nat, n: nat)
    requires v < w && v < Pow256(n) && w < Pow256(n)
    ensures exists k: nat :: FirstByteLess(Bytes(v, n), Bytes(w, n), k)
    decreases n
  {
    if n > 0 {
      if v / 256 < w / 256 {
        BytesOrdered(v / 256, w / 256, n - 1);
        var k: nat :| FirstByteLess(Bytes(v / 256, n - 1), Bytes(w / 256, n - 1), k);
        assert FirstByteLess(Bytes(v, n), Bytes(w, n), k);
      } else {
        assert FirstByteLess(Bytes(v, n), Bytes(w, n), n - 1);
      }
    }
  }

  lemma {:induction false} HexAlike(a: seq<Byte>, b: seq<Byte>, k: nat)
    requires k <= |a| && k <= |b| && Alike(a, b, k)
    ensures Alike(Hex(a), Hex(b), 2 * k)
  {
    forall p: nat | p < 2 * k ensures Hex(a)[p] == Hex(b)[p] {
      HexAlikeAt(a, b, p / 2, p);
    }
  }

  lemma {:induction false} HexAlikeAt(a: seq<Byte>, b: seq<Byte>, i: nat, p: nat)
    requires i < |a| && i < |b| && a[i] == b[i] && (p == 2 * i || p == 2 * i + 1)
    ensures Hex(a)[p] == Hex(b)[p]
  {
    HexAt(a, i);
    HexAt(b, i);
  }

  lemma {:induction false} HexDigitRises(c: nat, d: nat)
    requires c < 16 && d < 16
    ensures HexDigit(c) < HexDigit(d) <==> c < d
  {
    assert HexValue(HexDigit(c)) == c && HexValue(HexDigit(d)) == d;
  }

  // Two byte strings first differing at `k` have texts first differing in that byte's digits.
  lemma {:induction false} HexOrdered(a: seq<Byte>, b: seq<Byte>, k: nat)
    requires FirstByteLess(a, b, k)
    ensures FirstLess(Hex(a), Hex(b), 2 * k) || FirstLess(Hex(a), Hex(b), 2 * k + 1)
  {
    HexAlike(a, b, k);
    HexAt(a, k);
    HexAt(b, k);
    DigitsOrdered(Hex(a), Hex(b), 2 * k, a[k], b[k]);
  }

  lemma {:induction false} DigitsOrdered(s: string, t: string, p: nat, c: Byte, d: Byte)
    requires p + 1 < |s| && p + 1 < |t| && Alike(s, t, p) && c < d
    requires s[p] == HexDigit(c / 16) && s[p + 1] == HexDigit(c % 16)
    requires t[p] == HexDigit(d / 16) && t[p + 1] == HexDigit(d % 16)
    ensures FirstLess(s, t, p) || FirstLess(s, t, p + 1)
  {
    if c / 16 < d / 16 {
      HexDigitRises(c / 16, d / 16);
    } else {
      HexDigitRises(c % 16, d % 16);
    }
  }

  // Where a hex digit stands in the dashed text.
  function Place(p: nat): (q: nat)
    requires p < 32
    ensures q < 36
  {
    if p < 8 then p else if p < 12 then p + 1 else if p < 16 then p + 2 else if p < 20 then p + 3 else p + 4
  }

  lemma {:induction false} DashedAt(s: string, p: nat)
    requires |s| == 32 && p < 32
    ensures Dashed(s)[Place(p)] == s[p]
  {
  }

  lemma {:induction false} DashedOrdered(s: string, t: string, p: nat)
    requires |s| == 32 && |t| == 32 && FirstLess(s, t, p) && p < 12
    ensures Less(Dashed(s), Dashed(t))
  {
    var q := Place(p);
    DashedAt(s, p);
    DashedAt(t, p);
    forall i | 0 <= i < q ensures Dashed(s)[i] == Dashed(t)[i] {
      if i != 8 {
        var j := if i < 8 then i else i - 1;
        DashedAt(s, j);
        DashedAt(t, j);
      }
    }
    assert FirstLess(Dashed(s), Dashed(t), q);
  }

  lemma {:induction false} EarlierIsLess(secs: nat, later: nat, hash: Felt, other: Felt)
    requires Millis(secs) < Millis(later)
    ensures Less(IdText(secs, hash), IdText(later, other))
  {
    var six := 6;
    PowerSix(six);
    BytesOrdered(Millis(secs), Millis(later), six);
    var k: nat :| FirstByteLess(Bytes(Millis(secs), six), Bytes(Millis(later), six), k);
    var a, b := IdBytes(secs, hash), IdBytes(later, other);
    assert FirstByteLess(a, b, k);
    HexOrdered(a, b, k);
    DashedOrdered(Hex(a), Hex(b), if FirstLess(Hex(a), Hex(b), 2 * k) then 2 * k else 2 * k + 1);
  }

  lemma {:induction false} FirstIsOnly(s: string, t: string, k: nat, j: nat)
    requires FirstLess(s, t, k)
    ensures !FirstLess(t, s, j)
  {
  }

  lemma {:induction false} NotBoth(s: string, t: string)
    requires |s| == |t| && Less(s, t)
    ensures s != t && !Less(t, s)
  {
    var k: nat :| FirstLess(s, t, k);
    forall j: nat ensures !FirstLess(t, s, j) {
      FirstIsOnly(s, t, k, j);
    }
  }

  // Whatever the hashes, an id comes before another exactly when its cut time in milliseconds does.
  lemma {:induction false} OrderedIff(secs: nat, later: nat)
    ensures (forall hash: Felt, other: Felt :: hash < PRIME && other < PRIME ==>
      Less(IdText(secs, hash), IdText(later, other)))
       <==> Millis(secs) < Millis(later)
  {
    if Millis(secs) < Millis(later) {
      forall hash: Felt, other: Felt ensures Less(IdText(secs, hash), IdText(later, other)) {
        EarlierIsLess(secs, later, hash, other);
      }
    } else {
      NotLess(secs, later, 0);
    }
  }

  lemma {:induction false} NotBeforeItself(s: string)
    ensures !Less(s, s)
  {
  }

  lemma {:induction false} NotLess(secs: nat, later: nat, hash: Felt)
    requires Millis(secs) >= Millis(later)
    ensures !Less(IdText(secs, hash), IdText(later, hash))
  {
    if Millis(secs) > Millis(later) {
      EarlierIsLess(later, secs, hash, hash);
      NotBoth(IdText(later, hash), IdText(secs, hash));
    } else {
      assert IdText(secs, hash) == IdText(later, hash);
      NotBeforeItself(IdText(secs, hash));
    }
  }

  // In particular, an earlier block's ids come first as long as the time fits 48 bits.
  lemma {:induction false} EarlierBlockFirst(secs: nat, later: nat, hash: Felt, other: Felt)
    requires secs < later && later * 1000 < TWO_48
    ensures Less(IdText(secs, hash), IdText(later, other))
  {
    EarlierIsLess(secs, later, hash, other);
  }

  // ---- What an id tells apart -----------------------------------------------------------

  lemma {:induction false} HexInjective(a: seq<Byte>, b: seq<Byte>)
    requires |a| == |b| && Hex(a) == Hex(b)
    ensures a == b
  {
    forall i: nat | i < |a| ensures a[i] == b[i] {
      HexAt(a, i);
      HexAt(b, i);
      assert HexValue(HexDigit(a[i] / 16)) == HexValue(HexDigit(b[i] / 16));
      assert HexValue(HexDigit(a[i] % 16)) == HexValue(HexDigit(b[i] % 16));
    }
  }

  lemma {:induction false} DashedInjective(s: string, t: string)
    requires |s| == 32 && |t| == 32 && Dashed(s) == Dashed(t)
    ensures s == t
  {
    forall p: nat | p < 32 ensures s[p] == t[p] {
      DashedAt(s, p);
      DashedAt(t, p);
    }
  }

  lemma {:induction false} SameTailIff(g: seq<Byte>, h: seq<Byte>)
    requires |g| == 32 && |h| == 32
    ensures Tail(g) == Tail(h) <==>
      g[0] % 16 == h[0] % 16 && g[1] == h[1] && g[2] % 64 == h[2] % 64 && g[3..10] == h[3..10]
  {
    assert Tail(g)[3..] == g[3..10] && Tail(h)[3..] == h[3..10];
    assert Tail(g) == Tail(g)[..3] + Tail(g)[3..] && Tail(h) == Tail(h)[..3] + Tail(h)[3..];
  }

  lemma {:induction false} SameBytesIff(secs: nat, later: nat, hash: Felt, other: Felt)
    ensures IdBytes(secs, hash) == IdBytes(later, other) <==>
      Millis(secs) == Millis(later) && Tail(Bytes(hash, 32)) == Tail(Bytes(other, 32))
  {
    var a, b := IdBytes(secs, hash), IdBytes(later, other);
    var six := 6;
    PowerSix(six);
    BytesRoundTrip(Millis(secs), six, TWO_48);
    BytesRoundTrip(Millis(later), six, TWO_48);
    assert a[..6] == Bytes(Millis(secs), six) && b[..6] == Bytes(Millis(later), six);
    assert a[6..] == Tail(Bytes(hash, 32)) && b[6..] == Tail(Bytes(other, 32));
  }

  // ---- The bytes of a felt --------------------------------------------------------------

  lemma {:induction false} PowSum(a: nat, b: nat)
    ensures Pow256(a + b) == Pow256(a) * Pow256(b)
    decreases b
  {
    if b > 0 {
      PowSum(a, b - 1);
      assert Pow256(a + b) == 256 * Pow256(a + (b - 1));
      Scaled(Pow256(a), Pow256(b - 1));
    }
  }

  lemma {:induction false} Scaled(x: nat, y: nat)
    ensures 256 * (x * y) == x * (256 * y)
  {
  }

  lemma {:induction false} PowOf(a: nat, b: nat, n: nat, x: nat, y: nat)
    requires a + b == n && Pow256(a) == x && Pow256(b) == y
    ensures Pow256(n) == x * y
  {
    PowSum(a, b);
  }

  // The powers of 256 that bound a felt's first byte and carry its third.
  lemma {:induction false} FeltPowers(one: nat)
    requires one == 1
    ensures Pow256(29 * one) == 0x1_00000000000000000000000000000000000000000000000000_00000000
    ensures Pow256(31 * one) == 0x1_000000000000000000000000000000000000000000000000000000_00000000
  {
    assert Pow256(one - 1) == 1;
    assert Pow256(one) == 256;
    PowOf(one, one, 2 * one, 0x100, 0x100);
    PowOf(2 * one, 2 * one, 4 * one, 0x1_0000, 0x1_0000);
    PowOf(4 * one, 4 * one, 8 * one, 0x1_0000_0000, 0x1_0000_0000);
    PowOf(8 * one, 8 * one, 16 * one, 0x1_0000000000000000, 0x1_0000000000000000);
    PowOf(16 * one, 8 * one, 24 * one, 0x1_00000000000000000000000000000000, 0x1_0000000000000000);
    PowOf(24 * one, 4 * one, 28 * one, 0x1_000000000000000000000000000000000000000000000000, 0x1_0000_0000);
    PowOf(28 * one, one, 29 * one, 0x1_00000000000000000000000000000000000000000000000000000000, 0x100);
    PowOf(29 * one, 2 * one, 31 * one, 0x1_0000000000000000000000000000000000000000000000000000000000, 0x1_0000);
  }

  lemma {:induction false} TopByte(v: nat, n: nat, q: nat)
    requires n >= 1 && q < 256 && v < (q + 1) * Pow256(n - 1)
    ensures Bytes(v, n)[0] <= q
    decreases n
  {
    if n > 1 {
      assert Pow256(n - 1) == 256 * Pow256(n - 2);
      Scaled(q + 1, Pow256(n - 2));
      TopByte(v / 256, n - 1, q);
      assert Bytes(v, n)[0] == Bytes(v / 256, n - 1)[0];
    }
  }

  // A felt's first byte is at most 8, so the mask on it clears nothing.
  lemma {:induction false} FirstByteIsKept(hash: Felt)
    requires hash < PRIME
    ensures Bytes(hash, 32)[0] <= 8
  {
    var n := 32;
    FeltPowers(1);
    assert Pow256(n - 1) == Pow256(31 * 1);
    TopByte(hash, n, 8);
  }

  function Zeros(n: nat): (r: seq<Byte>)
    ensures |r| == n && forall i :: 0 <= i < n ==> r[i] == 0
  {
    seq(n, i => 0)
  }

  lemma {:induction false} BytesShift(v: nat, n: nat, k: nat)
    ensures Bytes(v * Pow256(k), n + k) == Bytes(v, n) + Zeros(k)
    decreases k
  {
    if k > 0 {
      BytesShift(v, n, k - 1);
      Scaled(v, Pow256(k - 1));
      assert Bytes(v * Pow256(k), n + k) == Bytes(v * Pow256(k - 1), n + (k - 1)) + [0];
    } else {
      assert Bytes(v, n) + Zeros(0) == Bytes(v, n);
    }
  }

  // Two ids are the same exactly when the cut times are and the hashes agree on their first ten bytes but
  // for the two high bits of the third.
  lemma {:induction false} SameIdIff(secs: nat, later: nat, hash: Felt, other: Felt)
    requires hash < PRIME && other < PRIME
    ensures IdText(secs, hash) == IdText(later, other) <==>
      var g, h := Bytes(hash, 32), Bytes(other, 32);
      && Millis(secs) == Millis(later)
      && g[..2] == h[..2] && g[2] % 64 == h[2] % 64 && g[3..10] == h[3..10]
  {
    SameTextIff(secs, later, hash, other);
    SameBytesIff(secs, later, hash, other);
    FirstByteIsKept(hash);
    FirstByteIsKept(other);
    KeptAlike(Bytes(hash, 32), Bytes(other, 32));
  }

  lemma {:induction false} SameTextIff(secs: nat, later: nat, hash: Felt, other: Felt)
    ensures IdText(secs, hash) == IdText(later, other) <==> IdBytes(secs, hash) == IdBytes(later, other)
  {
    if IdText(secs, hash) == IdText(later, other) {
      DashedInjective(Hex(IdBytes(secs, hash)), Hex(IdBytes(later, other)));
      HexInjective(IdBytes(secs, hash), IdBytes(later, other));
    }
  }

  lemma {:induction false} KeptAlike(g: seq<Byte>, h: seq<Byte>)
    requires |g| == 32 && |h| == 32 && g[0] <= 8 && h[0] <= 8
    ensures Tail(g) == Tail(h) <==> g[..2] == h[..2] && g[2] % 64 == h[2] % 64 && g[3..10] == h[3..10]
  {
    SameTailIff(g, h);
    FirstTwo(g, h);
  }

  lemma {:induction false} FirstTwo(g: seq<Byte>, h: seq<Byte>)
    requires |g| == 32 && |h| == 32
    ensures g[..2] == h[..2] <==> g[0] == h[0] && g[1] == h[1]
  {
    assert g[..2] == [g[0], g[1]] && h[..2] == [h[0], h[1]];
  }

  // The hash that is 64 in its third byte and zero elsewhere.
  const LOST_BIT: Felt := 0x40_0000000000000000000000000000000000000000000000000000000000

  // It gives every block the id that the hash zero gives.
  lemma {:induction false} HashesCollide(secs: nat)
    ensures 0 != LOST_BIT < PRIME && IdText(secs, LOST_BIT) == IdText(secs, 0)
  {
    var k := 29;
    FeltPowers(1);
    assert Pow256(k) == Pow256(29 * 1);
    BytesOfColliding(k);
    SameIdIff(secs, secs, LOST_BIT, 0);
  }

  lemma {:induction false} BytesOfColliding(k: nat)
    requires k == 29 && LOST_BIT == 64 * Pow256(k)
    ensures Bytes(LOST_BIT, 32) == [0, 0, 64] + Zeros(k) && Bytes(0, 32) == [0, 0, 0] + Zeros(k)
  {
    BytesShift(64, 3, k);
    BytesShift(0, 3, k);
    assert 0 * Pow256(k) == 0;
    SmallBytes(3);
  }

  lemma {:induction false} SmallBytes(n: nat)
    requires n == 3
    ensures Bytes(64, n) == [0, 0, 64] && Bytes(0, n) == [0, 0, 0]
  {
    assert Bytes(0, n - 3) == [];
    assert Bytes(0, n - 2) == [0];
    assert Bytes(0, n - 1) == [0, 0];
  }
}
