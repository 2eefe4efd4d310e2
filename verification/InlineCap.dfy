/** The last size guard on a tool result: the head and the tail of the text around a marker. */
module InlineCap {
  import opened Options
  import opened Utf
  import opened Lines
  import opened ByteCut

  /** Drops the partial last line of a head window; a window without a newline behind its start is kept. */
  function HeadLines(t: Text): (r: Text)
    ensures exists rest :: t == r + rest
  {
    var i := LastIndexOf(t, |t| - 1);
    if i > 0 then assert t == t[..i] + t[i..]; t[..i] else assert t == t + []; t
  }

  /** Drops the partial first line of a tail window; a window whose only newline is its last character is kept. */
  function TailLines(t: Text): (r: Text)
    ensures exists rest :: t == rest + r
  {
    var i := IndexOf(t, 0);
    if i < 0 || i == |t| - 1 then assert t == [] + t; t else assert t == t[..i + 1] + t[i + 1..]; t[i + 1..]
  }

  /** Cut at the last newline of the window that is not its first character; the whole window if there is none. */
  ghost predicate EndsAtLastLine(window: Text, head: Text) {
    if exists i :: 0 < i < |window| && window[i] == NL
    then 0 < |head| < |window| && head == window[..|head|] && window[|head|] == NL && forall i :: |head| < i < |window| ==> window[i] != NL
    else head == window
  }

  /** Cut behind the first newline of the window; the whole window if that is missing or its last character. */
  ghost predicate StartsAtFirstLine(window: Text, tail: Text) {
    if exists i :: 0 <= i < |window| - 1 && window[i] == NL
    then var k := |window| - |tail|;
         0 < k < |window| && tail == window[k..] && window[k - 1] == NL && forall i :: 0 <= i < k - 1 ==> window[i] != NL
    else tail == window
  }

  lemma HeadEnds(window: Text)
    ensures EndsAtLastLine(window, HeadLines(window))
  {
    var r := LastIndexOf(window, |window| - 1);
    LastIndexOfIs(window, |window| - 1);
    hide LastIndexOf;
    assert r > 0 ==> HeadLines(window) == window[..r];
    assert r > 0 <==> exists i :: 0 < i < |window| && window[i] == NL;
  }

  lemma TailStarts(window: Text)
    ensures StartsAtFirstLine(window, TailLines(window))
  {
    var r := IndexOf(window, 0);
    FirstAt(window);
    hide IndexOf;
    assert 0 <= r < |window| - 1 ==> TailLines(window) == window[r + 1..];
    assert 0 <= r < |window| - 1 <==> exists i :: 0 <= i < |window| - 1 && window[i] == NL;
  }

  lemma FirstAt(t: Text)
    ensures var r := IndexOf(t, 0); (r >= 0 ==> t[r] == NL) && forall i :: 0 <= i < |t| && (r >= 0 ==> i < r) ==> t[i] != NL
  {
    hide IndexOf;
    IndexOfIs(t, 0);
    var r := IndexOf(t, 0);
    var e := if r < 0 then |t| else r;
    forall i | 0 <= i < e ensures t[i] != NL { assert t[0..e][i] == t[i]; }
  }

  /** A prefix and a suffix that together have fewer bytes than the text do not meet. */
  lemma EndsApart(t: Text, p: Text, s: Text, afterP: Text, beforeS: Text) returns (gone: Text)
    requires t == p + afterP && t == beforeS + s && Bytes(p) + Bytes(s) <= Bytes(t)
    ensures t == p + gone + s && Bytes(gone) == Bytes(t) - Bytes(p) - Bytes(s)
  {
    hide Bytes;
    if |p| + |s| <= |t| {
      gone := t[|p|..|t| - |s|];
    } else {
      var overlap := t[|t| - |s|..|p|];
      assert p == beforeS + overlap && s == overlap + afterP;
      BytesConcat(beforeS, overlap);
      BytesConcat(overlap, afterP);
      BytesConcat(p, afterP);
      BytesAtLeastLength(overlap);
      gone := [];
    }
    assert t == p + gone + s;
    BytesConcat(p + gone, s);
    BytesConcat(p, gone);
  }

  /** What is kept of the head: whole lines within 60% of the budget. */
  function KeptHead(text: Text, maxBytes: nat): Text {
    HeadLines(LongestPrefix(text, maxBytes * 6 / 10))
  }

  /** What is kept of the tail: whole lines within 25% of the budget. */
  function KeptTail(text: Text, maxBytes: nat): Text {
    TailLines(LongestSuffix(text, maxBytes / 4))
  }

  lemma KeptEnds(text: Text, maxBytes: nat) returns (gone: Text)
    requires Bytes(text) > maxBytes
    ensures text == KeptHead(text, maxBytes) + gone + KeptTail(text, maxBytes)
    ensures Bytes(gone) == Bytes(text) - Bytes(KeptHead(text, maxBytes)) - Bytes(KeptTail(text, maxBytes))
    ensures Bytes(KeptHead(text, maxBytes)) <= maxBytes * 6 / 10 && Bytes(KeptTail(text, maxBytes)) <= maxBytes / 4
  {
    hide Bytes, LongestPrefix, LongestSuffix, HeadLines, TailLines;
    var head, tail := LongestPrefix(text, maxBytes * 6 / 10), LongestSuffix(text, maxBytes / 4);
    var afterHead := PrefixCut(text, maxBytes * 6 / 10);
    var beforeTail := SuffixCut(text, maxBytes / 4);
    var h, t := HeadLines(head), TailLines(tail);
    var x :| head == h + x;
    var y :| tail == y + t;
    BytesConcat(h, x);
    BytesConcat(y, t);
    assert text == h + (x + afterHead) && text == (beforeTail + y) + t;
    gone := EndsApart(text, h, t, x + afterHead, beforeTail + y);
  }

  function Composed(head: Text, marker: Text, tail: Text): Text {
    head + [NL] + marker + [NL] + tail
  }

  /** The footer that names the saved text, on a line of its own. */
  function WithFooter(t: Text, footer: Option<Text>): Text {
    if footer == None then t else t + (if t != [] && t[|t| - 1] == NL then [] else [NL]) + footer.value
  }

  function Capped(text: Text, maxBytes: nat, marker: Text, footer: Option<Text>): Text {
    WithFooter(Composed(KeptHead(text, maxBytes), marker, KeptTail(text, maxBytes)), footer)
  }

  /**
   A text within the budget is returned as it is.  Any other becomes a head and a tail around a marker that states
   exactly how many bytes lie between them.  The head ends before the last newline of the longest prefix that
   60% of the budget allow, and the tail begins behind the first newline of the longest suffix in 25% of it.
   */
  method EnforceInlineByteCap(text: Text, maxBytes: int, marker: nat -> Text, footer: Option<Text>)
    returns (r: Text, ghost head: Text, ghost gone: Text, ghost tail: Text)
    ensures maxBytes <= 0 || Bytes(text) <= maxBytes ==> r == text
    ensures 0 < maxBytes < Bytes(text) ==>
              && text == head + gone + tail
              && EndsAtLastLine(LongestPrefix(text, maxBytes * 6 / 10), head) && StartsAtFirstLine(LongestSuffix(text, maxBytes / 4), tail)
              && r == head + [NL] + marker(Bytes(gone)) + [NL] + tail
                      + (if footer == None then [] else (if tail == [] || tail[|tail| - 1] == NL then [] else [NL]) + footer.value)
    ensures 0 < maxBytes < Bytes(text) ==>
              Bytes(gone) == ElidedBytes(text, maxBytes) && r == Capped(text, maxBytes, marker(Bytes(gone)), footer)
  {
    hide Bytes, LongestPrefix, LongestSuffix, HeadLines, TailLines, EndsAtLastLine, StartsAtFirstLine, Composed, WithFooter;
    r, head, gone, tail := text, [], [], [];
    if maxBytes <= 0 {
      return;
    }
    var totalBytes := Bytes(text);
    if totalBytes <= maxBytes {
      return;
    }
    var headWindow, headBytes := TruncateHeadBytes(text, maxBytes * 6 / 10);
    var tailWindow, tailBytes := TruncateTailBytes(text, maxBytes / 4);
    gone := KeptEnds(text, maxBytes);
    var first, last := HeadLines(headWindow), TailLines(tailWindow);
    var elidedBytes := totalBytes - Bytes(first) - Bytes(last);
    r := WithFooter(Composed(first, marker(elidedBytes), last), footer);
    head, tail := first, last;
    HeadEnds(headWindow);
    TailStarts(tailWindow);
    WrittenOut(head, marker(elidedBytes), tail, footer);
  }

  lemma WrittenOut(head: Text, m: Text, tail: Text, footer: Option<Text>)
    ensures WithFooter(Composed(head, m, tail), footer)
            == head + [NL] + m + [NL] + tail
               + if footer == None then [] else (if tail == [] || tail[|tail| - 1] == NL then [] else [NL]) + footer.value
  {
    var c := Composed(head, m, tail);
    assert c[|c| - 1] == if tail == [] then NL else tail[|tail| - 1];
  }

  lemma ComposedBytes(head: Text, m: Text, tail: Text)
    ensures Bytes(Composed(head, m, tail)) == Bytes(head) + Bytes(m) + Bytes(tail) + 2
  {
    hide Bytes;
    BytesSnoc(head, NL);
    BytesConcat(head + [NL], m);
    BytesSnoc(head + [NL] + m, NL);
    BytesConcat(head + [NL] + m + [NL], tail);
  }

  /** What a footer costs: its text, and a newline unless the tail ends in one or there is none. */
  function FooterCost(tail: Text, footer: Option<Text>): nat {
    if footer == None then 0 else Bytes(footer.value) + if tail == [] || tail[|tail| - 1] == NL then 0 else 1
  }

  /** The size of the result, and with it exactly when it stays within the budget. */
  lemma InlineSize(text: Text, maxBytes: nat, marker: Text, footer: Option<Text>)
    requires 0 < maxBytes < Bytes(text)
    ensures var head, tail := KeptHead(text, maxBytes), KeptTail(text, maxBytes);
            Bytes(Capped(text, maxBytes, marker, footer)) == Bytes(head) + Bytes(marker) + Bytes(tail) + 2 + FooterCost(tail, footer)
  {
    hide Bytes, KeptHead, KeptTail;
    var head, tail := KeptHead(text, maxBytes), KeptTail(text, maxBytes);
    var c := Composed(head, marker, tail);
    ComposedBytes(head, marker, tail);
    if footer.Some? {
      var sep: Text := if c[|c| - 1] == NL then [] else [NL];
      assert c[|c| - 1] == if tail == [] then NL else tail[|tail| - 1];
      SeparatorBytes(sep);
      BytesConcat(c + sep, footer.value);
      BytesConcat(c, sep);
    }
  }

  /** The most a footer can cost: a window of no bytes leaves a tail that needs no newline. */
  function MostFooter(maxBytes: nat, footer: Option<Text>): nat {
    if footer == None then 0 else Bytes(footer.value) + if maxBytes / 4 == 0 then 0 else 1
  }

  /** How many bytes lie between the kept ends. */
  function ElidedBytes(text: Text, maxBytes: nat): int {
    Bytes(text) - Bytes(KeptHead(text, maxBytes)) - Bytes(KeptTail(text, maxBytes))
  }

  /** What the two windows leave of the budget. */
  function RoomLeft(maxBytes: nat): nat {
    maxBytes - maxBytes * 6 / 10 - maxBytes / 4
  }

  /** The result on an oversized text, with the marker for the bytes that are elided from it, stays within the budget. */
  predicate InBudget(text: Text, maxBytes: nat, marker: nat -> Text, footer: Option<Text>) {
    ElidedBytes(text, maxBytes) >= 0 && Bytes(Capped(text, maxBytes, marker(ElidedBytes(text, maxBytes)), footer)) <= maxBytes
  }

  /** What `EnforceInlineByteCap` returns on an oversized text has this marker, and more is elided than the windows leave. */
  lemma ElidesMore(text: Text, maxBytes: nat)
    requires 0 < maxBytes < Bytes(text)
    ensures ElidedBytes(text, maxBytes) > RoomLeft(maxBytes)
  {
    hide Bytes, KeptHead, KeptTail;
    var gone := KeptEnds(text, maxBytes);
  }

  /**
   The promise that the result stays within the budget holds for every text exactly when, for every number of
   bytes that can be elided, its marker and the footer fit in what the two windows leave.
   */
  lemma AlwaysInBudget(maxBytes: nat, marker: nat -> Text, footer: Option<Text>)
    requires 0 < maxBytes
    ensures (forall text :: Bytes(text) > maxBytes ==> InBudget(text, maxBytes, marker, footer))
            <==> forall n: nat :: n > RoomLeft(maxBytes) ==> Bytes(marker(n)) + 2 + MostFooter(maxBytes, footer) <= RoomLeft(maxBytes)
  {
    hide Bytes, KeptHead, KeptTail, Capped;
    if forall n: nat :: n > RoomLeft(maxBytes) ==> Bytes(marker(n)) + 2 + MostFooter(maxBytes, footer) <= RoomLeft(maxBytes) {
      forall text | Bytes(text) > maxBytes ensures InBudget(text, maxBytes, marker, footer) {
        ElidesMore(text, maxBytes);
        var n: nat := ElidedBytes(text, maxBytes);
        InlineSize(text, maxBytes, marker(n), footer);
        var gone := KeptEnds(text, maxBytes);
        EmptyTail(text, maxBytes);
      }
    }
    forall n: nat | n > RoomLeft(maxBytes) && Bytes(marker(n)) + 2 + MostFooter(maxBytes, footer) > RoomLeft(maxBytes)
      ensures exists text :: Bytes(text) > maxBytes && !InBudget(text, maxBytes, marker, footer)
    {
      var text := FullWindows(maxBytes, n);
      InlineSize(text, maxBytes, marker(n), footer);
      assert !InBudget(text, maxBytes, marker, footer);
    }
  }

  /** A number in decimal. */
  function Decimal(n: nat): (t: Text)
    ensures Plain(t)
  {
    (if n < 10 then [] else Decimal(n / 10)) + ["0123456789"[n % 10]]
  }

  /** The marker of the source, around the count. */
  function CountingMarker(before: Text, after: Text): nat -> Text {
    (n: nat) => before + Decimal(n) + after
  }

  /** A power of ten. */
  function Power(k: nat): (n: nat)
    ensures n > k
  {
    if k == 0 then 1 else 10 * Power(k - 1)
  }

  lemma {:induction false} DecimalGrows(k: nat)
    ensures |Decimal(Power(k))| == k + 1
  {
    hide Decimal;
    if k == 0 {
      OneDigit(1);
    } else {
      DecimalGrows(k - 1);
      TenTimes(Power(k - 1));
    }
  }

  lemma OneDigit(n: nat)
    requires n < 10
    ensures |Decimal(n)| == 1
  {
  }

  lemma TenTimes(n: nat)
    requires n > 0
    ensures |Decimal(10 * n)| == |Decimal(n)| + 1
  {
    var m := 10 * n;
    assert m / 10 == n && m >= 10;
    assert Decimal(m) == Decimal(n) + ["0123456789"[m % 10]];
  }

  /** The source's marker states a count that can be as long as any budget, so no budget is kept for every text. */
  lemma NoBudgetAlwaysKept(maxBytes: nat, before: Text, after: Text, footer: Option<Text>) returns (text: Text)
    requires 0 < maxBytes
    ensures Bytes(text) > maxBytes && !InBudget(text, maxBytes, CountingMarker(before, after), footer)
  {
    hide Bytes, KeptHead, KeptTail, Capped;
    var n := Power(maxBytes);
    text := FullWindows(maxBytes, n);
    var marker := CountingMarker(before, after);
    LongCount(before, after, maxBytes);
    InlineSize(text, maxBytes, marker(n), footer);
  }

  lemma LongCount(before: Text, after: Text, k: nat)
    ensures Bytes(CountingMarker(before, after)(Power(k))) > k
  {
    DecimalGrows(k);
    hide Bytes, Decimal, Power;
    var n := Power(k);
    BytesAtLeastLength(before + Decimal(n) + after);
  }

  lemma EmptyTail(text: Text, maxBytes: nat)
    requires Bytes(text) > maxBytes
    ensures maxBytes / 4 == 0 ==> KeptTail(text, maxBytes) == []
  {
    hide LongestSuffix;
    if maxBytes / 4 == 0 { NothingFits(text); }
  }

  /** A text of single-byte characters without a newline fills both windows, and as many bytes as one likes are elided. */
  lemma FullWindows(maxBytes: nat, n: nat) returns (text: Text)
    requires n > RoomLeft(maxBytes)
    ensures Bytes(text) > maxBytes && ElidedBytes(text, maxBytes) == n
    ensures Bytes(KeptHead(text, maxBytes)) == maxBytes * 6 / 10
    ensures var tail := KeptTail(text, maxBytes); Bytes(tail) == |tail| == maxBytes / 4 && NL !in tail
  {
    hide Bytes, LongestPrefix, LongestSuffix, HeadLines, TailLines;
    text := seq(n + maxBytes * 6 / 10 + maxBytes / 4, _ => 'x');
    SingleBytes(text);
    SingleCuts(text, maxBytes * 6 / 10);
    SingleCuts(text, maxBytes / 4);
    WholeWindows(LongestPrefix(text, maxBytes * 6 / 10), LongestSuffix(text, maxBytes / 4));
  }

  predicate Plain(t: Text) {
    forall i :: 0 <= i < |t| ==> Width(t[i]) == 1 && t[i] != NL
  }

  lemma SingleBytes(t: Text)
    requires Plain(t)
    ensures Bytes(t) == |t|
  {
    Singles(t, |t|);
  }

  lemma SingleCuts(t: Text, max: nat)
    requires Plain(t) && max < |t|
    ensures var p, s := LongestPrefix(t, max), LongestSuffix(t, max);
            Bytes(p) == |p| == Bytes(s) == |s| == max && NL !in p && NL !in s
  {
    hide Bytes, LongestPrefix, LongestSuffix;
    var p, s, k := t[..max], t[|t| - max..], |t| - max;
    SingleBytes(p);
    SingleBytes(s);
    assert t == p + t[max..] && t == t[..k] + s;
    PrefixUnique(p, t[max..], max);
    SuffixUnique(t[..k], s, max);
  }

  lemma WholeWindows(head: Text, tail: Text)
    requires NL !in head && NL !in tail
    ensures HeadLines(head) == head && TailLines(tail) == tail
  {
    NoNewline(head, |head| - 1);
    IndexOfIs(tail, 0);
  }

  lemma {:induction false} NoNewline(t: Text, from: int)
    requires NL !in t
    ensures LastIndexOf(t, from) == -1
    decreases if from < 0 then 0 else from
  {
    if t != [] && from > 0 { NoNewline(t, from - 1); }
  }

  lemma {:induction false} Singles(t: Text, n: nat)
    requires n <= |t| && Plain(t)
    ensures BytesTo(t, n) == n
  {
    if n > 0 { Singles(t, n - 1); }
  }

  lemma SeparatorBytes(sep: Text)
    requires sep == [] || sep == [NL]
    ensures Bytes(sep) == |sep|
  {
    BytesOne(NL);
  }
}
