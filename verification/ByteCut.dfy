/**
 Byte-level truncation through a window of code units.

 The cutter never encodes more than `maxBytes` code units, so its window may split a
 surrogate pair.  The result is nevertheless the cut of the full encoding.
 */
module ByteCut {
  import opened Utf

  datatype Mode = Head | Tail

  // ----- boundaries in a byte buffer -------------------------------------------

  function Forward(buf: seq<Byte>, i: nat): (r: nat)
    ensures i <= r && (r == i || r <= |buf|)
    decreases |buf| - i
  {
    if i < |buf| && Continuation(buf[i]) then Forward(buf, i + 1) else i
  }

  function Backward(buf: seq<Byte>, i: nat): (r: nat)
    requires i < |buf|
    ensures r <= i
  {
    if i > 0 && Continuation(buf[i]) then Backward(buf, i - 1) else i
  }

  /** The first position from `pos` on that does not hold a continuation byte, or the end. */
  method FindUtf8BoundaryForward(buf: seq<Byte>, pos: int) returns (i: nat)
    ensures var from := if pos < 0 then 0 else pos;
            && from <= i && (i < |buf| ==> !Continuation(buf[i])) && (i > from ==> i <= |buf|)
            && forall k :: from <= k < i ==> Continuation(buf[k])
    ensures i == Forward(buf, if pos < 0 then 0 else pos)
  {
    i := if pos < 0 then 0 else pos;
    while i < |buf| && Continuation(buf[i])
      invariant var from := if pos < 0 then 0 else pos;
                from <= i && (i > from ==> i <= |buf|) && forall k :: from <= k < i ==> Continuation(buf[k])
      invariant Forward(buf, i) == Forward(buf, if pos < 0 then 0 else pos)
    {
      i := i + 1;
    }
  }

  /** The last position up to `cut` that does not hold a continuation byte, or the start; the end if `cut` is past it. */
  method FindUtf8BoundaryBackward(buf: seq<Byte>, cut: nat) returns (i: nat)
    ensures cut >= |buf| ==> i == |buf|
    ensures cut < |buf| ==> i <= cut && (i == 0 || !Continuation(buf[i])) && forall k :: i < k <= cut ==> Continuation(buf[k])
    ensures i == if cut >= |buf| then |buf| else Backward(buf, cut)
  {
    i := if cut < |buf| then cut else |buf|;
    if i >= |buf| { return |buf|; }
    while i > 0 && Continuation(buf[i])
      invariant i <= cut < |buf| && forall k :: i < k <= cut ==> Continuation(buf[k])
      invariant Backward(buf, i) == Backward(buf, cut)
    {
      i := i - 1;
    }
  }

  lemma {:induction false} ForwardShift(a: seq<Byte>, b: seq<Byte>, i: nat)
    ensures Forward(a + b, |a| + i) == |a| + Forward(b, i)
    decreases |b| - i
  {
    if i < |b| && Continuation(b[i]) { ForwardShift(a, b, i + 1); }
  }

  lemma {:induction false} BackwardShift(a: seq<Byte>, b: seq<Byte>, i: nat)
    requires i < |b| && !Continuation(b[0])
    ensures Backward(a + b, |a| + i) == |a| + Backward(b, i)
  {
    if i > 0 && Continuation(b[i]) { BackwardShift(a, b, i - 1); }
  }

  lemma {:induction false} ForwardInScalar(c: char, b: seq<Byte>, i: nat)
    requires 0 < i <= Width(c) && (b != [] ==> !Continuation(b[0]))
    ensures Forward(EncodeScalar(c) + b, i) == Width(c)
    decreases Width(c) - i
  {
    if i < Width(c) { ForwardInScalar(c, b, i + 1); }
  }

  lemma {:induction false} BackwardInScalar(c: char, b: seq<Byte>, i: nat)
    requires i < Width(c)
    ensures Backward(EncodeScalar(c) + b, i) == 0
  {
    if i > 0 { BackwardInScalar(c, b, i - 1); }
  }

  function StartAt(length: nat, max: nat): nat {
    if length < max then 0 else length - max
  }

  lemma ForwardAligned(b: seq<Byte>)
    requires b == [] || !Continuation(b[0])
    ensures Forward(b, 0) == 0
  {
  }

  /** Moving forward to a boundary keeps the longest suffix that fits. */
  lemma ForwardCut(t: Text, max: nat)
    ensures Forward(Encode(t), StartAt(Bytes(t), max)) == Bytes(t) - Bytes(LongestSuffix(t, max))
  {
    var p := SuffixCut(t, max);
    if p == [] {
      ForwardAligned(Encode(t));
      assert t == LongestSuffix(t, max);
    } else {
      assert p == p[..|p| - 1] + [p[|p| - 1]];
      BytesSnoc(p[..|p| - 1], p[|p| - 1]);
      ForwardInto(p[..|p| - 1], p[|p| - 1], LongestSuffix(t, max), Bytes(t) - max);
    }
  }

  lemma EncodeStarts(t: Text)
    ensures Encode(t) != [] ==> !Continuation(Encode(t)[0])
  {
  }

  /** A position inside a scalar moves forward to its end. */
  lemma ForwardInto(a: Text, c: char, s: Text, i: nat)
    requires Bytes(a) < i <= Bytes(a + [c])
    ensures Forward(Encode(a + [c] + s), i) == Bytes(a + [c])
  {
    hide *;
    BytesSnoc(a, c);
    EncodeStarts(s);
    EncodeSplit(a, c, s);
    assert a + [c] + s == a + ([c] + s);
    EncodeLength(a);
    ForwardShift(Encode(a), EncodeScalar(c) + Encode(s), i - Bytes(a));
    ForwardInScalar(c, Encode(s), i - Bytes(a));
  }

  /** Moving backward to a boundary keeps the longest prefix that fits. */
  lemma BackwardCut(t: Text, max: nat)
    requires max < Bytes(t)
    ensures max < |Encode(t)| && Backward(Encode(t), max) == Bytes(LongestPrefix(t, max))
  {
    var p := LongestPrefix(t, max);
    var s := PrefixCut(t, max);
    var c, b := s[0], s[1..];
    assert t == p + ([c] + b);
    EncodeSplit(p, c, b);
    EncodeLength(p);
    EncodeLength(t);
    BackwardShift(Encode(p), EncodeScalar(c) + Encode(b), max - Bytes(p));
    BackwardInScalar(c, Encode(b), max - Bytes(p));
  }

  lemma EncodeSplit(a: Text, c: char, b: Text)
    ensures Encode(a + ([c] + b)) == Encode(a) + (EncodeScalar(c) + Encode(b))
  {
    EncodeConcat(a, [c] + b);
    assert ([c] + b)[1..] == b;
  }

  /** The bytes of a cut are the encoding of the cut, and decode to it. */
  lemma CutDecodes(p: Text, s: Text)
    ensures Bytes(p) <= |Encode(p + s)| == Bytes(p) + Bytes(s)
    ensures Decode(Encode(p + s)[..Bytes(p)]) == p && Decode(Encode(p + s)[Bytes(p)..]) == s
  {
    EncodeConcat(p, s);
    EncodeLength(p);
    EncodeLength(s);
    DecodeEncode(p);
    DecodeEncode(s);
    assert Encode(p + s)[..Bytes(p)] == Encode(p) && Encode(p + s)[Bytes(p)..] == Encode(s);
  }

  /** Where a head of at most `max` bytes ends, and where a tail of at most `max` bytes starts. */
  function CutEnd(buf: seq<Byte>, max: nat): (end: nat)
    ensures end <= |buf| && end <= max
  {
    if max >= |buf| then |buf| else Backward(buf, max)
  }

  function CutStart(buf: seq<Byte>, max: nat): (start: nat)
    ensures start <= |buf| && |buf| - start <= max
  {
    if max >= |buf| then 0 else Forward(buf, |buf| - max)
  }

  /** On any bytes, well-formed or not: the bytes up to, or from, the boundary, and what they decode to. */
  predicate IsCut(buf: seq<Byte>, max: nat, mode: Mode, text: Text, bytes: nat) {
    if mode.Head? then bytes == CutEnd(buf, max) && text == Decode(buf[..CutEnd(buf, max)])
    else bytes == |buf| - CutStart(buf, max) && text == Decode(buf[CutStart(buf, max)..])
  }

  /** On the encoding of a text that is the longest part that fits. */
  lemma EncodedCut(t: Text, max: nat, mode: Mode, text: Text, bytes: nat)
    requires IsCut(Encode(t), max, mode, text, bytes)
    ensures text == (if mode.Head? then LongestPrefix(t, max) else LongestSuffix(t, max)) && bytes == Bytes(text)
  {
    hide Encode, Decode, Bytes, LongestPrefix, LongestSuffix, Backward, Forward;
    EncodeLength(t);
    if mode.Head? {
      var p := LongestPrefix(t, max);
      var s := PrefixCut(t, max);
      if max < |Encode(t)| { BackwardCut(t, max); } else { LongestPrefixAll(t, max); }
      CutDecodes(p, s);
    } else {
      var p := SuffixCut(t, max);
      ForwardCut(t, max);
      LongestSuffixAll(t, max);
      CutDecodes(p, LongestSuffix(t, max));
    }
  }

  /** The cut of a buffer, shared by strings and byte arrays. */
  method TruncateBuffer(buf: seq<Byte>, maxBytes: nat, mode: Mode) returns (text: Text, bytes: nat)
    ensures |buf| > maxBytes ==> IsCut(buf, maxBytes, mode, text, bytes)
    ensures forall t :: buf == Encode(t) ==> text == (if mode.Head? then LongestPrefix(t, maxBytes) else LongestSuffix(t, maxBytes)) && bytes == Bytes(text)
  {
    hide Decode, Encode, LongestPrefix, LongestSuffix, Bytes, Forward, Backward;
    if mode.Head? {
      var end := FindUtf8BoundaryBackward(buf, maxBytes);
      if end <= 0 {
        DecodeNothing();
        text, bytes := [], 0;
      } else {
        text, bytes := Decode(buf[..end]), end;
      }
    } else {
      var start := FindUtf8BoundaryForward(buf, StartAt(|buf|, maxBytes));
      text, bytes := Decode(buf[start..]), |buf| - start;
      StartsAligned(buf);
    }
    forall t | buf == Encode(t)
      ensures text == (if mode.Head? then LongestPrefix(t, maxBytes) else LongestSuffix(t, maxBytes)) && bytes == Bytes(text)
    {
      EncodedCut(t, maxBytes, mode, text, bytes);
    }
  }

  /** An encoding is cut nowhere if it fits. */
  lemma StartsAligned(buf: seq<Byte>)
    ensures forall t :: buf == Encode(t) ==> Forward(buf, 0) == 0
  {
    forall t | buf == Encode(t) ensures Forward(buf, 0) == 0 {
      EncodeStarts(t);
      ForwardAligned(buf);
    }
  }

  lemma DecodeNothing()
    ensures Decode([]) == []
  {
  }

  /** The path for byte arrays, which need not be well-formed. */
  method TruncateBytes(data: seq<Byte>, maxBytes: nat, mode: Mode) returns (text: Text, bytes: nat)
    ensures IsCut(data, maxBytes, mode, text, bytes) && bytes <= maxBytes
    ensures forall t :: data == Encode(t) ==> text == (if mode.Head? then LongestPrefix(t, maxBytes) else LongestSuffix(t, maxBytes)) && bytes == Bytes(text)
  {
    hide Decode, Encode, LongestPrefix, LongestSuffix, Bytes;
    text, bytes := [], 0;
    if maxBytes == 0 {
      DecodeNothing();
      NothingCut(data, mode);
    } else if |data| <= maxBytes {
      text, bytes := Decode(data), |data|;
      AllCut(data, maxBytes, mode);
    } else {
      text, bytes := TruncateBuffer(data, maxBytes, mode);
    }
    forall t | data == Encode(t)
      ensures text == (if mode.Head? then LongestPrefix(t, maxBytes) else LongestSuffix(t, maxBytes)) && bytes == Bytes(text)
    {
      EncodedCut(t, maxBytes, mode, text, bytes);
    }
  }

  lemma NothingCut(data: seq<Byte>, mode: Mode)
    ensures IsCut(data, 0, mode, Decode([]), 0)
  {
    assert data[..0] == [] && data[|data|..] == [];
  }

  /** Bytes that fit are not cut. */
  lemma AllCut(data: seq<Byte>, max: nat, mode: Mode)
    requires |data| <= max
    ensures IsCut(data, max, mode, Decode(data), |data|)
  {
    assert data[..|data|] == data && data[0..] == data;
  }

  // ----- the window --------------------------------------------------------------

  /** Cutting the last `max` code units off first does not change the tail cut. */
  lemma TailWindow(s: seq<Unit>, max: nat)
    requires 0 < max <= |s|
    ensures LongestSuffix(ToScalars(s[|s| - max..]), max) == LongestSuffix(ToScalars(s), max)
  {
    hide *;
    var k := |s| - max;
    if k == 0 || !PairAt(s, k - 1) {
      SplitScalars(s, k);
      BytesAtLeastUnits(s[k..]);
      SuffixDominates(ToScalars(s[..k]), ToScalars(s[k..]), max);
    } else {
      TailWindowInPair(s, k, max);
    }
  }

  lemma TailWindowInPair(s: seq<Unit>, k: nat, max: nat)
    requires 0 < k < |s| && max == |s| - k && PairAt(s, k - 1)
    ensures LongestSuffix(ToScalars(s[k..]), max) == LongestSuffix(ToScalars(s), max)
  {
    hide LongestSuffix, ToScalars, Bytes, PairAt;
    PairInside(s, k - 1);
    SplitPair(s, k - 1);
    var c: char, a, b := *, ToScalars(s[..k - 1]), ToScalars(s[k + 1..]);
    c :| Width(c) == 4 && ToScalars(s) == a + [c] + b;
    BytesAtLeastUnits(s[k + 1..]);
    SuffixAfterWide(a, c, b, max);
    SuffixAfterWide([], REPLACEMENT, b, max);
    assert [] + [REPLACEMENT] + b == [REPLACEMENT] + b;
  }

  lemma PairInside(s: seq<Unit>, k: nat)
    requires PairAt(s, k)
    ensures k + 1 < |s|
  {
  }

  lemma SuffixAfterWide(a: Text, c: char, b: Text, max: nat)
    requires Width(c) >= 3 && Bytes(b) + 1 >= max
    ensures LongestSuffix(a + [c] + b, max) == LongestSuffix(b, max)
  {
    if Bytes(b) >= max {
      SuffixDominates(a + [c], b, max);
    } else {
      SuffixUnique(a + [c], b, max);
      LongestSuffixAll(b, max);
    }
  }

  /** Cutting the first `max` code units off first does not change the head cut. */
  lemma HeadWindow(s: seq<Unit>, max: nat)
    requires 0 < max <= |s|
    ensures LongestPrefix(ToScalars(s[..max]), max) == LongestPrefix(ToScalars(s), max)
  {
    hide *;
    if !PairAt(s, max - 1) {
      SplitScalars(s, max);
      BytesAtLeastUnits(s[..max]);
      PrefixDominates(ToScalars(s[..max]), ToScalars(s[max..]), max);
    } else {
      HeadWindowInPair(s, max);
    }
  }

  lemma HeadWindowInPair(s: seq<Unit>, max: nat)
    requires 0 < max <= |s| && PairAt(s, max - 1)
    ensures LongestPrefix(ToScalars(s[..max]), max) == LongestPrefix(ToScalars(s), max)
  {
    hide LongestPrefix, ToScalars, Bytes, PairAt;
    PairInside(s, max - 1);
    SplitPair(s, max - 1);
    var c: char, a, b := *, ToScalars(s[..max - 1]), ToScalars(s[max + 1..]);
    c :| Width(c) == 4 && ToScalars(s) == a + [c] + b;
    BytesAtLeastUnits(s[..max - 1]);
    PrefixBeforeWide(a, c, b, max);
    PrefixBeforeWide(a, REPLACEMENT, [], max);
    assert a + [REPLACEMENT] + [] == a + [REPLACEMENT];
  }

  lemma PrefixBeforeWide(a: Text, c: char, b: Text, max: nat)
    requires Width(c) >= 3 && Bytes(a) + 1 >= max
    ensures LongestPrefix(a + [c] + b, max) == LongestPrefix(a, max)
  {
    assert a + [c] + b == a + ([c] + b);
    if Bytes(a) >= max {
      PrefixDominates(a, [c] + b, max);
    } else {
      PrefixStreams(a, [c] + b, max);
      PrefixStreams(a, [], max);
      assert a + [] == a;
    }
  }

  /**
   The cutter on any sequence of code units: its result is the longest prefix (suffix) of the
   scalars the whole string denotes, although only a window of it is ever encoded.
   */
  method TruncateBytesWindowed(data: seq<Unit>, maxBytes: nat, mode: Mode) returns (text: Text, bytes: nat)
    ensures text == if mode.Head? then LongestPrefix(ToScalars(data), maxBytes) else LongestSuffix(ToScalars(data), maxBytes)
    ensures bytes == Bytes(text)
  {
    if maxBytes == 0 {
      NothingFits(ToScalars(data));
      return [], 0;
    }
    if |data| <= maxBytes {
      var len := Bytes(ToScalars(data));
      if len <= maxBytes {
        LongestPrefixAll(ToScalars(data), maxBytes);
        LongestSuffixAll(ToScalars(data), maxBytes);
        return ToScalars(data), len;
      }
    }
    var size := if |data| < maxBytes then |data| else maxBytes;
    var window := if mode.Head? then data[..size] else data[|data| - size..];
    if size == maxBytes { TailWindow(data, size); HeadWindow(data, size); BytesAtLeastUnits(window); }
    assert size < maxBytes ==> window == data;
    text, bytes := TruncateBuffer(Encode(ToScalars(window)), maxBytes, mode);
  }

  method TruncateTailBytes(data: Text, maxBytes: nat) returns (text: Text, bytes: nat)
    ensures text == LongestSuffix(data, maxBytes) && bytes == Bytes(text)
  {
    ToScalarsUtf16(data);
    text, bytes := TruncateBytesWindowed(Utf16(data), maxBytes, Tail);
  }

  method TruncateHeadBytes(data: Text, maxBytes: nat) returns (text: Text, bytes: nat)
    ensures text == LongestPrefix(data, maxBytes) && bytes == Bytes(text)
  {
    ToScalarsUtf16(data);
    text, bytes := TruncateBytesWindowed(Utf16(data), maxBytes, Head);
  }
}
