/** How a capture with a missing middle is put together, and what its line counts mean. */
module Elision {
  import opened Sequences
  import opened Utf
  import opened Lines

  lemma EmptyBytes(t: Text)
    ensures Bytes(t) == 0 <==> t == []
  {
    BytesAtLeastLength(t);
  }

  function Separator(needed: bool): Text {
    if needed then [NL] else []
  }

  predicate StartsLine(t: Text) {
    t != [] && t[0] == NL
  }

  predicate EndsLine(t: Text) {
    t != [] && t[|t| - 1] == NL
  }

  /** The notice that replaces what is missing in the file, on a line of its own. */
  function Notice(notice: (nat, nat, nat, nat) -> Text, head: Text, ring: Text, total: nat, dropped: nat): Text {
    Separator(head != []) + notice(Bytes(head), Bytes(ring), total, dropped) + Separator(ring != [] && !StartsLine(ring))
  }

  /** The file once it is closed: what was in it, the notice on a line of its own, and what the ring kept. */
  predicate ClosedWith(before: Text, notice: Text, ring: Text, after: Text) {
    after == before + (if before == [] then [] else [NL]) + notice + (if ring == [] || ring[0] == NL then [] else [NL]) + ring
  }

  lemma NoticeIs(notice: (nat, nat, nat, nat) -> Text, head: Text, ring: Text, total: nat, dropped: nat)
    ensures ClosedWith(head, notice(Bytes(head), Bytes(ring), total, dropped), ring, head + Notice(notice, head, ring, total, dropped) + ring)
  {
  }

  /** Head and tail around a marker, which gets a line of its own. */
  function Elided(head: Text, marker: Text, tail: Text): Text {
    head + Separator(!EndsLine(head)) + marker + Separator(!StartsLine(tail)) + tail
  }

  lemma ElidedIs(head: Text, marker: Text, tail: Text)
    ensures Elided(head, marker, tail) == head + (if EndsLine(head) then [] else [NL]) + marker + (if StartsLine(tail) then [] else [NL]) + tail
  {
  }

  lemma ElidedBytes(head: Text, marker: Text, tail: Text)
    ensures Bytes(Elided(head, marker, tail))
            == Bytes(head) + Bytes(marker) + Bytes(tail) + Bytes(Separator(!EndsLine(head))) + Bytes(Separator(!StartsLine(tail)))
  {
    hide Bytes, Separator;
    var a, b := Separator(!EndsLine(head)), Separator(!StartsLine(tail));
    BytesConcat(head + a + marker + b, tail);
    BytesConcat(head + a + marker, b);
    BytesConcat(head + a, marker);
    BytesConcat(head, a);
  }

  /** The lines a retained head shows, its last one perhaps in part. */
  function LinesShown(head: Text): nat {
    CountNewlines(head) + if head != [] && !EndsLine(head) then 1 else 0
  }

  function TailLines(t: Text): nat {
    if t == [] then 0 else CountNewlines(t) + 1
  }

  /** The reported line count is that of the text, except next to a tail that is empty or starts with a newline. */
  lemma ElidedLineCount(head: Text, marker: Text, tail: Text)
    requires NL !in marker && head != []
    ensures LinesShown(head) + 1 + TailLines(tail)
            == CountNewlines(Elided(head, marker, tail)) + if tail == [] then 0 else if StartsLine(tail) then 2 else 1
  {
    hide CountNewlines;
    var a, b := Separator(!EndsLine(head)), Separator(!StartsLine(tail));
    CountConcat(head + a + marker + b, tail);
    CountConcat(head + a + marker, b);
    CountConcat(head + a, marker);
    CountConcat(head, a);
    CountNone(marker);
    SeparatorCount(!EndsLine(head));
    SeparatorCount(!StartsLine(tail));
    CountNone([]);
  }

  lemma SeparatorCount(needed: bool)
    ensures CountNewlines(Separator(needed)) == if needed then 1 else 0
  {
    assert CountTo([NL], 0) == 0;
  }

  // ----- the lines that are gone -----------------------------------------------------------

  /** Where line `i` ends, its newline included. */
  function Stop(ls: seq<Text>, i: nat): nat
    requires i < |ls|
  {
    End(ls, i + 1) + if i + 1 < |ls| then 1 else 0
  }

  /** All of line `i`, its newline included, lies between two positions. */
  predicate Within(ls: seq<Text>, i: nat, start: nat, end: nat)
    requires i < |ls|
  {
    start <= Start(ls, i) && Stop(ls, i) <= end
  }

  function CountWithin(ls: seq<Text>, start: nat, end: nat, n: nat): nat
    requires n <= |ls|
  {
    if n == 0 then 0 else CountWithin(ls, start, end, n - 1) + if Within(ls, n - 1, start, end) then 1 else 0
  }

  /** The number of lines of which nothing is shown, when `lost` is cut out between `head` and `tail`. */
  function LinesGone(head: Text, lost: Text, tail: Text): nat {
    var ls := LinesOf(head + (lost + tail));
    CountWithin(ls, |head|, |head| + |lost|, |ls|)
  }

  lemma {:induction false} CountMonotone(t: Text, m: nat, n: nat)
    requires m <= n <= |t|
    ensures CountTo(t, m) <= CountTo(t, n)
  {
    if m < n { CountMonotone(t, m, n - 1); }
  }

  /** The newline behind the first `n` lines has `n - 1` others before it. */
  lemma NewlineRank(t: Text, ls: seq<Text>, n: nat, p: nat)
    requires ls == LinesOf(t) && 0 < n < |ls| && p <= |t|
    ensures End(ls, n) < p <==> n - 1 < CountTo(t, p)
  {
    hide LinesOf, Feed, JoinTo, CountTo;
    JoinLines(t);
    LinesBefore(t, ls, n);
    var e := End(ls, n);
    forall i | 0 <= i < n ensures NL !in ls[..n][i] { LinesHaveNoNewline(t, i); }
    LinesJoin(ls[..n]);
    assert CountNewlines(t[..e]) == n - 1;
    CountToPrefix(t[..e], t, e);
    NextCount(t, e);
    if e < p { CountMonotone(t, e + 1, p); } else { CountMonotone(t, p, e); }
  }

  lemma NextCount(t: Text, n: nat)
    requires n < |t| && t[n] == NL
    ensures CountTo(t, n + 1) == CountTo(t, n) + 1
  {
  }

  /** Which lines lie between two positions, in terms of the newlines before each. */
  lemma WithinIs(t: Text, ls: seq<Text>, i: nat, start: nat, end: nat)
    requires ls == LinesOf(t) && i < |ls| && 1 <= start <= end <= |t|
    ensures Within(ls, i, start, end) <==> CountTo(t, start - 1) + 1 <= i < CountTo(t, end) + if end == |t| then 1 else 0
  {
    hide LinesOf, Feed, JoinTo, CountTo;
    JoinLines(t);
    LinesBefore(t, ls, |ls|);
    LinesAre(t);
    CountMonotone(t, end, |t|);
    if i > 0 { NewlineRank(t, ls, i, start - 1); }
    if i + 1 < |ls| { NewlineRank(t, ls, i + 1, end); }
  }

  lemma LinesAre(t: Text)
    ensures |LinesOf(t)| == CountTo(t, |t|) + 1
  {
  }

  lemma {:induction false} WithinCount(t: Text, ls: seq<Text>, start: nat, end: nat, lo: nat, hi: nat, n: nat)
    requires ls == LinesOf(t) && n <= |ls| && 1 <= start <= end <= |t|
    requires lo == CountTo(t, start - 1) + 1 && hi == CountTo(t, end) + if end == |t| then 1 else 0
    ensures CountWithin(ls, start, end, n) == NonNegative((if n < hi then n else hi) - lo)
  {
    hide LinesOf, Feed, JoinTo, CountTo, Within;
    if n > 0 {
      WithinCount(t, ls, start, end, lo, hi, n - 1);
      WithinIs(t, ls, n - 1, start, end);
    }
  }

  /** The difference of the counters, where it is not negative, is the number of lines gone. */
  lemma ElidedLinesMeaning(head: Text, lost: Text, tail: Text)
    requires head != []
    ensures NonNegative(CountNewlines(head + (lost + tail)) + 1 - LinesShown(head) - TailLines(tail)) == LinesGone(head, lost, tail)
  {
    hide LinesOf, Feed, CountTo;
    var t := head + (lost + tail);
    var ls, start, end := LinesOf(t), |head|, |head| + |lost|;
    CountsUpTo(head, lost, tail);
    LinesAre(t);
    WithinCount(t, ls, start, end, CountTo(t, start - 1) + 1, CountTo(t, end) + if end == |t| then 1 else 0, |ls|);
  }

  lemma CountsUpTo(head: Text, lost: Text, tail: Text)
    requires head != []
    ensures var t := head + (lost + tail);
            && CountTo(t, |head| - 1) + (if EndsLine(head) then 1 else 0) == CountNewlines(head)
            && CountTo(t, |head| + |lost|) == CountNewlines(head) + CountNewlines(lost)
            && CountTo(t, |t|) == CountNewlines(t) == CountNewlines(head) + CountNewlines(lost) + CountNewlines(tail)
            && (tail == [] ==> CountNewlines(tail) == 0)
  {
    var t := head + (lost + tail);
    CountToPrefix(t, head, |head| - 1);
    CountToConcat(head, lost + tail, |lost|);
    CountToPrefix(lost + tail, lost, |lost|);
    CountConcat(head, lost + tail);
    CountConcat(lost, tail);
  }
}
