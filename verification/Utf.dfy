/**
 Text as the output-capture code sees it.

 A string is observed through its UTF-8 encoding (section 3 of RFC 3629), while it is
 indexed by UTF-16 code units (section 2.1 of RFC 2781).  `Text` is the sequence of
 Unicode scalar values, which is what a Dafny `string` is; `Utf16` and `Encode` are its two encodings; `ToScalars` reads an
 arbitrary sequence of code units the way `Buffer.from` does, a surrogate without its
 partner becoming U+FFFD.
 */
module Utf {
  type Unit = u: int | 0 <= u <= 0xFFFF
  type Byte = int
  type Text = string

  const REPLACEMENT: char := 0xFFFD as char

  /** `c` is `a` followed by `b`. */
  predicate Joined(a: Text, b: Text, c: Text) {
    if a == [] then b == c else if b == [] then a == c else a + b == c
  }

  lemma JoinedIs(a: Text, b: Text, c: Text)
    ensures Joined(a, b, c) <==> a + b == c
  {
    assert a == [] ==> a + b == b;
    assert b == [] ==> a + b == a;
  }

  // ----- UTF-8 ---------------------------------------------------------------

  function Width(c: char): (w: nat)
    ensures 1 <= w <= 4
  {
    var n := c as int;
    if n < 0x80 then 1 else if n < 0x800 then 2 else if n < 0x10000 then 3 else 4
  }

  function EncodeScalar(c: char): (b: seq<Byte>)
    ensures |b| == Width(c)
    ensures !Continuation(b[0])
    ensures forall i :: 0 < i < |b| ==> Continuation(b[i])
  {
    var n := c as int;
    if n < 0x80 then [n]
    else if n < 0x800 then [0xC0 + n / 64, 0x80 + n % 64]
    else if n < 0x10000 then [0xE0 + n / 64 / 64, 0x80 + n / 64 % 64, 0x80 + n % 64]
    else [0xF0 + n / 64 / 64 / 64, 0x80 + n / 64 / 64 % 64, 0x80 + n / 64 % 64, 0x80 + n % 64]
  }

  /** A byte of the form 10xxxxxx. */
  predicate Continuation(b: Byte) {
    0x80 <= b < 0xC0
  }

  /** The UTF-8 size of the first `n` scalars. */
  function BytesTo(t: Text, n: nat): nat
    requires n <= |t|
  {
    if n == 0 then 0 else BytesTo(t, n - 1) + Width(t[n - 1])
  }

  function Bytes(t: Text): nat {
    BytesTo(t, |t|)
  }

  lemma {:induction false} BytesToPrefix(t: Text, u: Text, n: nat)
    requires n <= |t| && n <= |u| && forall i :: 0 <= i < n ==> t[i] == u[i]
    ensures BytesTo(t, n) == BytesTo(u, n)
  {
    if n > 0 { BytesToPrefix(t, u, n - 1); }
  }

  lemma {:induction false} BytesToConcat(a: Text, b: Text, n: nat)
    requires n <= |b|
    ensures BytesTo(a + b, |a| + n) == Bytes(a) + BytesTo(b, n)
  {
    if n == 0 { BytesToPrefix(a + b, a, |a|); } else { BytesToConcat(a, b, n - 1); }
  }

  lemma BytesConcat(a: Text, b: Text)
    ensures Bytes(a + b) == Bytes(a) + Bytes(b)
  {
    BytesToConcat(a, b, |b|);
  }

  lemma BytesSplit(t: Text, k: nat)
    requires k <= |t|
    ensures Bytes(t) == Bytes(t[..k]) + Bytes(t[k..])
  {
    assert t == t[..k] + t[k..];
    BytesConcat(t[..k], t[k..]);
  }

  lemma BytesOne(c: char)
    ensures Bytes([c]) == Width(c)
  {
    assert BytesTo([c], 0) == 0;
  }

  lemma BytesCons(t: Text)
    requires t != []
    ensures Bytes(t) == Width(t[0]) + Bytes(t[1..])
  {
    BytesOne(t[0]);
    BytesSplit(t, 1);
    assert t[..1] == [t[0]];
  }

  lemma BytesSnoc(t: Text, c: char)
    ensures Bytes(t + [c]) == Bytes(t) + Width(c)
  {
    BytesOne(c);
    BytesConcat(t, [c]);
  }

  lemma {:induction false} BytesToAtLeast(t: Text, n: nat)
    requires n <= |t|
    ensures n <= BytesTo(t, n)
  {
    if n > 0 { BytesToAtLeast(t, n - 1); }
  }

  lemma BytesAtLeastLength(t: Text)
    ensures |t| <= Bytes(t)
  {
    BytesToAtLeast(t, |t|);
  }

  function Encode(t: Text): (b: seq<Byte>)
    ensures t != [] ==> b != [] && !Continuation(b[0])
  {
    if t == [] then [] else EncodeScalar(t[0]) + Encode(t[1..])
  }

  /** How many bytes have to follow a lead byte; none if it is a sequence by itself, or no lead at all. */
  function Following(b: Byte): nat {
    if 0xC2 <= b < 0xE0 then 1 else if 0xE0 <= b < 0xF0 then 2 else if 0xF0 <= b < 0xF5 then 3 else 0
  }

  /** Which bytes can follow a lead byte: no overlong form, no surrogate, nothing above U+10FFFF. */
  predicate SecondOk(lead: Byte, b: Byte) {
    if lead == 0xE0 then 0xA0 <= b < 0xC0
    else if lead == 0xED then 0x80 <= b < 0xA0
    else if lead == 0xF0 then 0x90 <= b < 0xC0
    else if lead == 0xF4 then 0x80 <= b < 0x90
    else Continuation(b)
  }

  /** The length of the longest beginning that some well-formed sequence begins with. */
  function Subpart(b: seq<Byte>): (k: nat)
    requires b != [] && Following(b[0]) > 0
    ensures 1 <= k <= |b| && k <= Following(b[0]) + 1
  {
    var n := Following(b[0]);
    if |b| < 2 || !SecondOk(b[0], b[1]) then 1
    else if n < 2 || |b| < 3 || !Continuation(b[2]) then 2
    else if n < 3 || |b| < 4 || !Continuation(b[3]) then 3
    else 4
  }

  predicate IsScalar(c: int) {
    0 <= c < 0xD800 || 0xE000 <= c <= 0x10FFFF
  }

  /** The scalar of a sequence that is complete. */
  function Assemble(b: seq<Byte>): (c: int)
    requires b != [] && Following(b[0]) > 0 && Subpart(b) == Following(b[0]) + 1
    ensures IsScalar(c)
  {
    if Following(b[0]) == 1 then (b[0] - 0xC0) * 64 + (b[1] - 0x80)
    else if Following(b[0]) == 2 then (b[0] - 0xE0) * 4096 + (b[1] - 0x80) * 64 + (b[2] - 0x80)
    else (b[0] - 0xF0) * 262144 + (b[1] - 0x80) * 4096 + (b[2] - 0x80) * 64 + (b[3] - 0x80)
  }

  /** How many bytes are decoded at once. */
  function Step(b: seq<Byte>): (k: nat)
    requires b != []
    ensures 1 <= k <= |b|
  {
    if Following(b[0]) == 0 then 1 else Subpart(b)
  }

  /** And what they become: a scalar, or U+FFFD for what is not, or not completely, a well-formed sequence. */
  function DecodeOne(b: seq<Byte>): char
    requires b != []
  {
    if 0 <= b[0] < 0x80 then b[0] as char
    else if Following(b[0]) > 0 && Subpart(b) == Following(b[0]) + 1 then Assemble(b) as char
    else REPLACEMENT
  }

  /** `toString("utf-8")`: U+FFFD takes the place of each maximal subpart of an ill-formed sequence. */
  function Decode(b: seq<Byte>): Text {
    if b == [] then [] else [DecodeOne(b)] + Decode(b[Step(b)..])
  }

  /** An encoded scalar is decoded at once, whatever follows. */
  lemma DecodeScalar(c: char, rest: seq<Byte>)
    ensures Step(EncodeScalar(c) + rest) == Width(c) && DecodeOne(EncodeScalar(c) + rest) == c
  {
    var b := EncodeScalar(c) + rest;
    var n := c as int;
    var q := n / 64;
    var r := q / 64;
    assert n == q * 64 + n % 64 && q == r * 64 + q % 64 && r == r / 64 * 64 + r % 64;
    assert forall i :: 0 <= i < Width(c) ==> b[i] == EncodeScalar(c)[i];
  }

  /** What is well-formed at the beginning is decoded as it is, whatever follows. */
  lemma {:induction false} DecodeOn(t: Text, rest: seq<Byte>)
    ensures Decode(Encode(t) + rest) == t + Decode(rest)
  {
    hide EncodeScalar, Step, DecodeOne, Decode;
    if t == [] {
      assert Encode(t) + rest == rest && t + Decode(rest) == Decode(rest);
    } else {
      var e, more := EncodeScalar(t[0]), Encode(t[1..]) + rest;
      assert Encode(t) + rest == e + more;
      DecodeScalar(t[0], more);
      DecodeStep(e, more);
      DecodeOn(t[1..], rest);
      assert [t[0]] + (t[1..] + Decode(rest)) == t + Decode(rest);
    }
  }

  lemma DecodeStep(e: seq<Byte>, rest: seq<Byte>)
    requires e != [] && Step(e + rest) == |e|
    ensures Decode(e + rest) == [DecodeOne(e + rest)] + Decode(rest)
  {
    hide DecodeOne, Step;
    assert (e + rest)[|e|..] == rest;
  }

  lemma DecodeEncode(t: Text)
    ensures Decode(Encode(t)) == t
  {
    DecodeOn(t, []);
    assert Encode(t) + [] == Encode(t) && t + Decode([]) == t;
  }

  /** Stray and missing continuation bytes. */
  lemma DecodeIllFormed()
    ensures Decode([0x80]) == [REPLACEMENT] && Decode([0xC2, 0x41]) == [REPLACEMENT, 'A']
    ensures Decode([0xE2, 0x82]) == [REPLACEMENT] && Decode([0xC0, 0xAF]) == [REPLACEMENT, REPLACEMENT]
  {
  }

  lemma {:induction false} EncodeConcat(a: Text, b: Text)
    ensures Encode(a + b) == Encode(a) + Encode(b)
  {
    if a == [] {
      assert a + b == b;
    } else {
      assert (a + b)[1..] == a[1..] + b;
      EncodeConcat(a[1..], b);
    }
  }

  lemma {:induction false} EncodeLength(t: Text)
    ensures |Encode(t)| == Bytes(t)
  {
    if t != [] {
      BytesCons(t);
      EncodeLength(t[1..]);
    }
  }

  // ----- UTF-16 --------------------------------------------------------------

  predicate High(u: Unit) { 0xD800 <= u < 0xDC00 }

  predicate Low(u: Unit) { 0xDC00 <= u < 0xE000 }

  function UnitsOf(c: char): (s: seq<Unit>)
    ensures 1 <= |s| <= 2
  {
    var n := c as int;
    if n < 0x10000 then [n] else [0xD800 + (n - 0x10000) / 0x400, 0xDC00 + (n - 0x10000) % 0x400]
  }

  function Utf16(t: Text): seq<Unit> {
    if t == [] then [] else UnitsOf(t[0]) + Utf16(t[1..])
  }

  predicate PairAt(s: seq<Unit>, k: nat) {
    k + 1 < |s| && High(s[k]) && Low(s[k + 1])
  }

  function PairScalar(h: Unit, l: Unit): char
    requires High(h) && Low(l)
  {
    (0x10000 + (h - 0xD800) * 0x400 + (l - 0xDC00)) as char
  }

  function LoneScalar(u: Unit): char {
    if High(u) || Low(u) then REPLACEMENT else u as char
  }

  function ToScalars(s: seq<Unit>): Text {
    if s == [] then []
    else if PairAt(s, 0) then [PairScalar(s[0], s[1])] + ToScalars(s[2..])
    else [LoneScalar(s[0])] + ToScalars(s[1..])
  }

  lemma {:induction false} ToScalarsUtf16(t: Text)
    ensures ToScalars(Utf16(t)) == t
  {
    if t != [] {
      var u, s := UnitsOf(t[0]), Utf16(t);
      assert s[|u|..] == Utf16(t[1..]);
      assert if |u| == 2 then PairAt(s, 0) && PairScalar(s[0], s[1]) == t[0] else !PairAt(s, 0);
      ToScalarsUtf16(t[1..]);
    }
  }

  lemma {:induction false} BytesAtLeastUnits(s: seq<Unit>)
    ensures |s| <= Bytes(ToScalars(s))
  {
    if s != [] {
      BytesAtLeastUnits(if PairAt(s, 0) then s[2..] else s[1..]);
      BytesCons(ToScalars(s));
    }
  }

  /** Cutting code units anywhere but inside a surrogate pair cuts the scalars. */
  lemma {:induction false} SplitScalars(s: seq<Unit>, k: nat)
    requires k <= |s| && (k == 0 || !PairAt(s, k - 1))
    ensures ToScalars(s) == ToScalars(s[..k]) + ToScalars(s[k..])
  {
    if k == 0 {
      assert s[k..] == s;
    } else {
      var n := if PairAt(s, 0) then 2 else 1;
      assert s[..k][n..] == s[n..][..k - n] && s[k..] == s[n..][k - n..];
      assert n < k ==> PairAt(s[n..], k - n - 1) == PairAt(s, k - 1);
      SplitScalars(s[n..], k - n);
    }
  }

  /** Cutting inside a pair leaves U+FFFD on either side, three bytes where there were four. */
  lemma SplitPair(s: seq<Unit>, k: nat)
    requires PairAt(s, k)
    ensures ToScalars(s[..k + 1]) == ToScalars(s[..k]) + [REPLACEMENT]
    ensures ToScalars(s[k + 1..]) == [REPLACEMENT] + ToScalars(s[k + 2..])
    ensures exists c: char :: Width(c) == 4 && ToScalars(s) == ToScalars(s[..k]) + [c] + ToScalars(s[k + 2..])
  {
    var a, m, b := s[..k], [s[k]], s[k + 2..];
    assert s[..k + 1] == a + m;
    SplitScalars(a + m, k);
    assert ToScalars(m) == [REPLACEMENT];
    SplitScalars(s, k);
    assert s[k..][2..] == b && s[k + 1..][1..] == b;
    var c := PairScalar(s[k], s[k + 1]);
    assert Width(c) == 4 && ToScalars(s) == ToScalars(a) + ([c] + ToScalars(b));
    assert ToScalars(a) + ([c] + ToScalars(b)) == ToScalars(a) + [c] + ToScalars(b);
  }

  // ----- the longest prefix and suffix within a byte budget --------------------

  /** The text from position `n` on, as far as the budget goes. */
  function PrefixFrom(t: Text, max: nat, n: nat): Text
    requires n <= |t|
    decreases |t| - n
  {
    if n == |t| || Width(t[n]) > max then [] else [t[n]] + PrefixFrom(t, max - Width(t[n]), n + 1)
  }

  function LongestPrefix(t: Text, max: nat): Text {
    PrefixFrom(t, max, 0)
  }

  /** The text up to position `n`, as far back as the budget goes. */
  function SuffixUpTo(t: Text, max: nat, n: nat): Text
    requires n <= |t|
  {
    if n == 0 || Width(t[n - 1]) > max then [] else SuffixUpTo(t, max - Width(t[n - 1]), n - 1) + [t[n - 1]]
  }

  function LongestSuffix(t: Text, max: nat): Text {
    SuffixUpTo(t, max, |t|)
  }

  lemma {:induction false} PrefixFromIs(t: Text, max: nat, n: nat, k: nat)
    requires n <= k <= |t| && BytesTo(t, k) - BytesTo(t, n) <= max
    requires k < |t| ==> BytesTo(t, k + 1) - BytesTo(t, n) > max
    ensures PrefixFrom(t, max, n) == t[n..k]
    decreases k - n
  {
    if n < k {
      BytesToMonotone(t, n + 1, k);
      PrefixFromIs(t, max - Width(t[n]), n + 1, k);
    }
  }

  lemma {:induction false} SuffixUpToIs(t: Text, max: nat, n: nat, k: nat)
    requires k <= n <= |t| && BytesTo(t, n) - BytesTo(t, k) <= max
    requires k > 0 ==> BytesTo(t, n) - BytesTo(t, k - 1) > max
    ensures SuffixUpTo(t, max, n) == t[k..n]
  {
    if k < n {
      BytesToMonotone(t, k, n - 1);
      SuffixUpToIs(t, max - Width(t[n - 1]), n - 1, k);
    }
  }

  lemma {:induction false} BytesToMonotone(t: Text, m: nat, n: nat)
    requires m <= n <= |t|
    ensures BytesTo(t, m) + (n - m) <= BytesTo(t, n)
  {
    if m < n { BytesToMonotone(t, m, n - 1); }
  }

  lemma {:induction false} PrefixFromFits(t: Text, max: nat, n: nat)
    requires n <= |t|
    ensures var e := n + |PrefixFrom(t, max, n)|;
            && e <= |t| && PrefixFrom(t, max, n) == t[n..e]
            && BytesTo(t, e) - BytesTo(t, n) <= max && (e < |t| ==> BytesTo(t, e + 1) - BytesTo(t, n) > max)
    decreases |t| - n
  {
    if n < |t| && Width(t[n]) <= max { PrefixFromFits(t, max - Width(t[n]), n + 1); }
  }

  lemma {:induction false} SuffixUpToFits(t: Text, max: nat, n: nat)
    requires n <= |t|
    ensures var s := n - |SuffixUpTo(t, max, n)|;
            && 0 <= s && SuffixUpTo(t, max, n) == t[s..n]
            && BytesTo(t, n) - BytesTo(t, s) <= max && (s > 0 ==> BytesTo(t, n) - BytesTo(t, s - 1) > max)
  {
    if n > 0 && Width(t[n - 1]) <= max { SuffixUpToFits(t, max - Width(t[n - 1]), n - 1); }
  }

  lemma SliceBytes(t: Text, k: nat)
    requires k <= |t|
    ensures Bytes(t[..k]) == BytesTo(t, k) && Bytes(t[k..]) == Bytes(t) - BytesTo(t, k)
  {
    BytesToPrefix(t[..k], t, k);
    BytesSplit(t, k);
  }

  /** What "longest prefix" means: it fits, and one scalar more would not. There is only one such cut. */
  lemma PrefixUnique(p: Text, s: Text, max: nat)
    ensures LongestPrefix(p + s, max) == p <==> Bytes(p) <= max && (s == [] || Bytes(p) + Width(s[0]) > max)
  {
    var t, k := p + s, |p|;
    SliceBytes(t, k);
    assert t[..k] == p && t[0..k] == p;
    PrefixFromFits(t, max, 0);
    if Bytes(p) <= max && (s == [] || Bytes(p) + Width(s[0]) > max) { PrefixFromIs(t, max, 0, k); }
  }

  /** What "longest suffix" means: it fits, and one scalar more would not. There is only one such cut. */
  lemma SuffixUnique(p: Text, s: Text, max: nat)
    ensures LongestSuffix(p + s, max) == s <==> Bytes(s) <= max && (p == [] || Width(p[|p| - 1]) + Bytes(s) > max)
  {
    var t, k := p + s, |p|;
    SliceBytes(t, k);
    assert t[k..] == s && t[k..|t|] == s;
    SuffixUpToFits(t, max, |t|);
    if Bytes(s) <= max && (p == [] || Width(p[|p| - 1]) + Bytes(s) > max) { SuffixUpToIs(t, max, |t|, k); }
  }

  /** A cut splits the text in two. */
  lemma PrefixCut(t: Text, max: nat) returns (s: Text)
    ensures var p := LongestPrefix(t, max);
            t == p + s && Bytes(p) <= max && (s == [] || Bytes(p) + Width(s[0]) > max) && Bytes(t) == Bytes(p) + Bytes(s)
  {
    var p := LongestPrefix(t, max);
    PrefixFromFits(t, max, 0);
    s := t[|p|..];
    assert t == p + s;
    PrefixUnique(p, s, max);
    BytesConcat(p, s);
  }

  lemma SuffixCut(t: Text, max: nat) returns (p: Text)
    ensures var s := LongestSuffix(t, max);
            t == p + s && Bytes(s) <= max && (p == [] || Width(p[|p| - 1]) + Bytes(s) > max) && Bytes(t) == Bytes(p) + Bytes(s)
  {
    var s := LongestSuffix(t, max);
    SuffixUpToFits(t, max, |t|);
    p := t[..|t| - |s|];
    assert t == p + s;
    SuffixUnique(p, s, max);
    BytesConcat(p, s);
  }

  lemma LongestPrefixAll(t: Text, max: nat)
    ensures LongestPrefix(t, max) == t <==> Bytes(t) <= max
  {
    PrefixUnique(t, [], max);
    assert t + [] == t;
  }

  lemma LongestSuffixAll(t: Text, max: nat)
    ensures LongestSuffix(t, max) == t <==> Bytes(t) <= max
  {
    SuffixUnique([], t, max);
    assert [] + t == t;
  }

  lemma NothingFits(t: Text)
    ensures LongestPrefix(t, 0) == [] && LongestSuffix(t, 0) == []
  {
    PrefixUnique([], t, 0);
    SuffixUnique(t, [], 0);
    assert [] + t == t && t + [] == t;
  }

  /** Text in front of a suffix that already fills the budget never matters. */
  lemma SuffixDominates(a: Text, b: Text, max: nat)
    requires Bytes(b) >= max
    ensures LongestSuffix(a + b, max) == LongestSuffix(b, max)
  {
    var s := LongestSuffix(b, max);
    var p := SuffixCut(b, max);
    assert a + b == (a + p) + s;
    if p == [] && a != [] { assert Bytes(b) == Bytes(s) == max; }
    SuffixUnique(a + p, s, max);
  }

  /** The streaming law: trimming early, then appending and trimming again, is trimming once. */
  lemma SuffixStreams(a: Text, b: Text, max: nat)
    ensures LongestSuffix(LongestSuffix(a, max) + b, max) == LongestSuffix(a + b, max)
  {
    var p := SuffixCut(a, max);
    SuffixAgain(p, LongestSuffix(a, max) + b, max, |LongestSuffix(a, max)|);
    assert p + (LongestSuffix(a, max) + b) == a + b;
  }

  /** Prepending text whose last scalar does not fit before the first `k` scalars of `u` leaves the cut of `u` alone. */
  lemma SuffixAgain(p: Text, u: Text, max: nat, k: nat)
    requires k <= |u| && (p == [] || Width(p[|p| - 1]) + Bytes(u[..k]) > max)
    ensures LongestSuffix(p + u, max) == LongestSuffix(u, max)
  {
    var q := SuffixCut(u, max);
    var r := LongestSuffix(u, max);
    if q == [] {
      BytesSplit(u, k);
      assert r == u;
      SuffixUnique(p, u, max);
    } else {
      assert p + u == (p + q) + r;
      assert (p + q)[|p + q| - 1] == q[|q| - 1];
      SuffixUnique(p + q, r, max);
    }
  }

  lemma PrefixStreams(a: Text, b: Text, max: nat)
    requires Bytes(a) <= max
    ensures LongestPrefix(a + b, max) == a + LongestPrefix(b, max - Bytes(a))
  {
    var p := LongestPrefix(b, max - Bytes(a));
    var s := PrefixCut(b, max - Bytes(a));
    assert a + b == (a + p) + s;
    BytesConcat(a, p);
    PrefixUnique(a + p, s, max);
  }

  /** Text behind a prefix that already fills the budget never matters. */
  lemma PrefixDominates(a: Text, b: Text, max: nat)
    requires Bytes(a) >= max
    ensures LongestPrefix(a + b, max) == LongestPrefix(a, max)
  {
    var p := LongestPrefix(a, max);
    var s := PrefixCut(a, max);
    assert a + b == p + (s + b);
    if s == [] && b != [] { assert Bytes(p) == max; }
    PrefixUnique(p, s + b, max);
  }
}
