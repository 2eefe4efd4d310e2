/** Finding the longest block of lines that an edit repeats. */
module Repeats {
  import opened Options

  type Line = string

  datatype Repeat = Repeat(start: nat, length: nat)

  /** Line `x` stands again `d` lines further on. */
  predicate Again(block: seq<Line>, x: nat, d: nat) {
    x + d < |block| && block[x] == block[x + d]
  }

  predicate AllAgain(block: seq<Line>, lo: nat, hi: nat, d: nat) {
    forall x: nat :: lo <= x < hi ==> Again(block, x, d)
  }

  /** The `k` lines from `i` on stand again from `j` on, and the two do not overlap. */
  predicate IsRun(block: seq<Line>, i: nat, j: nat, k: nat) {
    i + k <= j && j + k <= |block| && AllAgain(block, i, i + k, j - i)
  }

  function CountMeaningful(block: seq<Line>, meaningful: Line -> bool, i: nat, k: nat): nat
    requires i + k <= |block|
  {
    if k == 0 then 0 else CountMeaningful(block, meaningful, i, k - 1) + if meaningful(block[i + k - 1]) then 1 else 0
  }

  /** Half of the lines, and at least two. */
  function Enough(k: nat): nat {
    if (k + 1) / 2 < 2 then 2 else (k + 1) / 2
  }

  lemma EnoughIs(k: nat, n: nat)
    ensures n >= Enough(k) <==> n >= 2 && 2 * n >= k
  {
  }

  predicate MeaningfulEnough(block: seq<Line>, meaningful: Line -> bool, i: nat, k: nat)
    requires i + k <= |block|
  {
    CountMeaningful(block, meaningful, i, k) >= Enough(k)
  }

  /** A repeat worth reporting. */
  predicate Worthy(block: seq<Line>, meaningful: Line -> bool, minLen: nat, i: nat, j: nat, k: nat) {
    k >= minLen && IsRun(block, i, j, k) && MeaningfulEnough(block, meaningful, i, k)
  }

  /** What the search considers: a repeat that is worthy at the greatest length its two places allow. */
  predicate Found(block: seq<Line>, meaningful: Line -> bool, minLen: nat, i: nat, j: nat, k: nat) {
    Worthy(block, meaningful, minLen, i, j, k) && !IsRun(block, i, j, k + 1)
  }

  /** `i` and `k` beat a repeat of length `k'` at `i'`: longer, or as long and no later. */
  predicate Beats(i: nat, k: nat, i': nat, k': nat) {
    k' < k || (k' == k && i <= i')
  }

  /** Over the pairs of places before `(i, j)`, `best` is what was found, and the best of it. */
  ghost predicate BestBefore(block: seq<Line>, meaningful: Line -> bool, minLen: nat, best: Option<Repeat>, i: nat, j: nat) {
    && (best.Some? ==> best.value.start <= i && exists j': nat :: Found(block, meaningful, minLen, best.value.start, j', best.value.length))
    && forall i': nat, j': nat, k': nat :: Found(block, meaningful, minLen, i', j', k') && (i' < i || (i' == i && j' < j)) ==>
         best.Some? && Beats(best.value.start, best.value.length, i', k')
  }

  /** How far the lines from `i` and from `j` agree. */
  method Extent(block: seq<Line>, i: nat, j: nat) returns (k: nat)
    requires i <= j <= |block|
    ensures IsRun(block, i, j, k) && !IsRun(block, i, j, k + 1)
  {
    k := 0;
    while i + k < j && j + k < |block| && block[i + k] == block[j + k]
      invariant IsRun(block, i, j, k)
    {
      assert Again(block, i + k, j - i);
      k := k + 1;
    }
    assert IsRun(block, i, j, k + 1) ==> Again(block, i + k, j - i);
  }

  /** Two places have only one greatest extent. */
  lemma OneExtent(block: seq<Line>, i: nat, j: nat, k: nat, k': nat)
    requires IsRun(block, i, j, k) && !IsRun(block, i, j, k + 1) && IsRun(block, i, j, k') && !IsRun(block, i, j, k' + 1)
    ensures k == k'
  {
  }

  method Count(block: seq<Line>, meaningful: Line -> bool, i: nat, k: nat) returns (n: nat)
    requires i + k <= |block|
    ensures n == CountMeaningful(block, meaningful, i, k)
  {
    n := 0;
    for x := 0 to k
      invariant n == CountMeaningful(block, meaningful, i, x)
    {
      if meaningful(block[i + x]) { n := n + 1; }
    }
  }

  /** One pair of places. */
  method Consider(block: seq<Line>, meaningful: Line -> bool, minLen: nat, i: nat, j: nat, best: Option<Repeat>) returns (r: Option<Repeat>)
    requires i <= j <= |block| && BestBefore(block, meaningful, minLen, best, i, j)
    ensures BestBefore(block, meaningful, minLen, r, i, j + 1)
  {
    hide IsRun, MeaningfulEnough;
    r := best;
    var k := Extent(block, i, j);
    forall k': nat | Found(block, meaningful, minLen, i, j, k') ensures k' == k { OneExtent(block, i, j, k, k'); }
    if k < minLen {
      return;
    }
    ExtentInside(block, i, j, k);
    var n := Count(block, meaningful, i, k);
    EnoughIf(block, meaningful, i, k);
    if n < Enough(k) {
      return;
    }
    assert Found(block, meaningful, minLen, i, j, k);
    if best == None || k > best.value.length { r := Some(Repeat(i, k)); }
  }

  lemma ExtentInside(block: seq<Line>, i: nat, j: nat, k: nat)
    requires IsRun(block, i, j, k)
    ensures i + k <= j && j + k <= |block|
  {
  }

  lemma EnoughIf(block: seq<Line>, meaningful: Line -> bool, i: nat, k: nat)
    requires i + k <= |block|
    ensures MeaningfulEnough(block, meaningful, i, k) <==> CountMeaningful(block, meaningful, i, k) >= Enough(k)
  {
  }

  /**
   The search over all pairs of places.  Although it looks only where two blocks of the least length fit, it
   misses nothing: `None` means that nothing was to be found anywhere, and otherwise the result is the longest
   that was, and the earliest of that length.  A worthy repeat can be in the block and still nothing be found;
   that is so exactly when every one of them is missed.
   */
  method FindLongestRepeat(block: seq<Line>, meaningful: Line -> bool, minLen: nat) returns (best: Option<Repeat>)
    ensures best == None <==> forall i: nat, j: nat, k: nat :: !Found(block, meaningful, minLen, i, j, k)
    ensures best == None <==> AllMissed(block, meaningful, minLen)
    ensures best.Some? ==> exists j: nat :: Found(block, meaningful, minLen, best.value.start, j, best.value.length)
    ensures best.Some? ==> forall i: nat, j: nat, k: nat :: Found(block, meaningful, minLen, i, j, k) ==> Beats(best.value.start, best.value.length, i, k)
  {
    hide IsRun, MeaningfulEnough;
    NoneFoundIff(block, meaningful, minLen);
    forall i: nat, j: nat, k: nat | Found(block, meaningful, minLen, i, j, k) ensures i + minLen <= j && j + minLen <= |block| { ExtentInside(block, i, j, k); }
    best := None;
    var n := |block|;
    if n < 2 * minLen {
      return;
    }
    var i := 0;
    while i < n - minLen + 1
      invariant 0 <= i <= n - minLen + 1 && BestBefore(block, meaningful, minLen, best, i, 0)
    {
      var j := i + minLen;
      while j < n - minLen + 1
        invariant i + minLen <= j && BestBefore(block, meaningful, minLen, best, i, j)
      {
        best := Consider(block, meaningful, minLen, i, j, best);
        j := j + 1;
      }
      i := i + 1;
    }
  }

  // ----- what is missed, and when nothing is ----------------------------------------------

  lemma {:induction false} AllMeaningful(block: seq<Line>, meaningful: Line -> bool, i: nat, k: nat)
    requires i + k <= |block| && forall x :: i <= x < i + k ==> meaningful(block[x])
    ensures CountMeaningful(block, meaningful, i, k) == k
  {
    if k > 0 { AllMeaningful(block, meaningful, i, k - 1); }
  }

  /** Only the first `m` lines can be meaningful. */
  lemma {:induction false} FewMeaningful(block: seq<Line>, meaningful: Line -> bool, i: nat, k: nat, m: nat)
    requires i + k <= |block| && forall x :: i + m <= x < i + k ==> !meaningful(block[x])
    ensures CountMeaningful(block, meaningful, i, k) <= m
  {
    if k > 0 {
      FewMeaningful(block, meaningful, i, k - 1, if m < k then m else k - 1);
    }
  }

  /** A run can be stretched to the greatest extent. */
  lemma {:induction false} Stretch(block: seq<Line>, i: nat, j: nat, k: nat) returns (most: nat)
    requires IsRun(block, i, j, k)
    ensures most >= k && IsRun(block, i, j, most) && !IsRun(block, i, j, most + 1)
    decreases |block| - k
  {
    if IsRun(block, i, j, k + 1) { most := Stretch(block, i, j, k + 1); } else { most := k; }
  }

  /** The lines of a stretch that have no meaning. */
  function CountIdle(block: seq<Line>, meaningful: Line -> bool, i: nat, k: nat): nat
    requires i + k <= |block|
  {
    if k == 0 then 0 else CountIdle(block, meaningful, i, k - 1) + if meaningful(block[i + k - 1]) then 0 else 1
  }

  lemma {:induction false} CountsSplit(block: seq<Line>, meaningful: Line -> bool, i: nat, k: nat, most: nat)
    requires k <= most && i + most <= |block|
    ensures CountMeaningful(block, meaningful, i, most) + CountIdle(block, meaningful, i + k, most - k)
            == CountMeaningful(block, meaningful, i, k) + (most - k)
  {
    if k < most { CountsSplit(block, meaningful, i, k, most - 1); }
  }

  /**
   Exactly when a worthy repeat is missed at its two places: when the lines without meaning, among those by
   which the agreement goes on behind it, are more than its own meaningful lines make up for.
   */
  lemma MissedIff(block: seq<Line>, meaningful: Line -> bool, minLen: nat, i: nat, j: nat, k: nat, most: nat)
    requires Worthy(block, meaningful, minLen, i, j, k) && k <= most && IsRun(block, i, j, most) && !IsRun(block, i, j, most + 1)
    ensures (forall m: nat :: !Found(block, meaningful, minLen, i, j, m))
            <==> CountIdle(block, meaningful, i + k, most - k) > CountMeaningful(block, meaningful, i, k) + (most - k) - Enough(most)
  {
    CountsSplit(block, meaningful, i, k, most);
    forall m: nat | Found(block, meaningful, minLen, i, j, m) ensures m == most { OneExtent(block, i, j, m, most); }
    assert Found(block, meaningful, minLen, i, j, most) <==> MeaningfulEnough(block, meaningful, i, most);
  }

  /** The agreement goes on behind the repeat, and there has more lines without meaning than the repeat makes up for. */
  predicate Missed(block: seq<Line>, meaningful: Line -> bool, i: nat, j: nat, k: nat, most: nat) {
    && k <= most && IsRun(block, i, j, most) && !IsRun(block, i, j, most + 1)
    && CountIdle(block, meaningful, i + k, most - k) > CountMeaningful(block, meaningful, i, k) + (most - k) - Enough(most)
  }

  ghost predicate AllMissed(block: seq<Line>, meaningful: Line -> bool, minLen: nat) {
    forall i: nat, j: nat, k: nat :: Worthy(block, meaningful, minLen, i, j, k) ==> exists most: nat :: Missed(block, meaningful, i, j, k, most)
  }

  /**
   Exactly when the search finds nothing: when every worthy repeat in the block, if there is one, is missed.
   */
  lemma NoneFoundIff(block: seq<Line>, meaningful: Line -> bool, minLen: nat)
    ensures (forall i: nat, j: nat, k: nat :: !Found(block, meaningful, minLen, i, j, k))
            <==> AllMissed(block, meaningful, minLen)
  {
    forall i: nat, j: nat, k: nat | Worthy(block, meaningful, minLen, i, j, k)
      ensures (exists most: nat :: Missed(block, meaningful, i, j, k, most)) <==> forall m: nat :: !Found(block, meaningful, minLen, i, j, m)
    {
      var most := Stretch(block, i, j, k);
      MissedIff(block, meaningful, minLen, i, j, k, most);
      forall most': nat | Missed(block, meaningful, i, j, k, most') ensures most' == most { OneExtent(block, i, j, most', most); }
      if forall m: nat :: !Found(block, meaningful, minLen, i, j, m) { assert Missed(block, meaningful, i, j, k, most); }
    }
  }

  /** Where every line is meaningful no worthy repeat is missed. */
  lemma NoneMissed(block: seq<Line>, meaningful: Line -> bool, minLen: nat, i: nat, j: nat, k: nat)
    requires forall x :: 0 <= x < |block| ==> meaningful(block[x])
    requires Worthy(block, meaningful, minLen, i, j, k)
    ensures exists most: nat :: most >= k && Found(block, meaningful, minLen, i, j, most)
  {
    AllMeaningful(block, meaningful, i, k);
    var most := Stretch(block, i, j, k);
    AllMeaningful(block, meaningful, i, most);
    assert Found(block, meaningful, minLen, i, j, most);
  }

  /** Meaningful lines, and more lines after them that are not. */
  ghost predicate Padded(a: seq<Line>, b: seq<Line>, meaningful: Line -> bool) {
    && |b| > |a|
    && (forall x :: 0 <= x < |a| ==> meaningful(a[x])) && (forall x :: 0 <= x < |b| ==> !meaningful(b[x]))
    && forall x, y :: 0 <= x < y < |a| ==> a[x] != a[y]
  }

  /** In `a + b + a + b` the line at `x` is one of `a` or one of `b`. */
  lemma TwiceAt(a: seq<Line>, b: seq<Line>, x: nat)
    requires x < 2 * (|a| + |b|)
    ensures var y := if x < |a| + |b| then x else x - (|a| + |b|);
            |a + b + a + b| == 2 * (|a| + |b|) && (a + b + a + b)[x] == if y < |a| then a[y] else b[y - |a|]
  {
  }

  lemma Recurring(a: seq<Line>, b: seq<Line>, x: nat)
    requires x < |a| + |b|
    ensures Again(a + b + a + b, x, |a| + |b|)
  {
    TwiceAt(a, b, x);
    TwiceAt(a, b, x + |a| + |b|);
  }

  /** A meaningful line of it stands again only `|a| + |b|` lines further on. */
  lemma Recurs(a: seq<Line>, b: seq<Line>, meaningful: Line -> bool, x: nat, d: nat)
    requires Padded(a, b, meaningful) && d > 0 && Again(a + b + a + b, x, d) && meaningful((a + b + a + b)[x])
    ensures x < |a| && d == |a| + |b|
  {
    TwiceAt(a, b, x);
    TwiceAt(a, b, x + d);
  }

  /**
   Elsewhere it can be: an extent that runs on into enough lines without meaning is turned down, and no
   shorter one is tried, although the repeat of `a` alone is long enough and has meaning throughout.
   */
  lemma SomeMissed(a: seq<Line>, b: seq<Line>, meaningful: Line -> bool, minLen: nat, i: nat, j: nat, k: nat)
    requires Padded(a, b, meaningful) && 2 <= minLen <= |a|
    ensures Worthy(a + b + a + b, meaningful, minLen, 0, |a| + |b|, |a|)
    ensures !Found(a + b + a + b, meaningful, minLen, i, j, k)
  {
    var block, d := a + b + a + b, |a| + |b|;
    forall x: nat | x < d ensures Again(block, x, d) { Recurring(a, b, x); }
    AllMeaningful(block, meaningful, 0, |a|);
    if k >= minLen && IsRun(block, i, j, k) && !IsRun(block, i, j, k + 1) { TurnedDown(a, b, meaningful, i, j, k); }
  }

  lemma TurnedDown(a: seq<Line>, b: seq<Line>, meaningful: Line -> bool, i: nat, j: nat, k: nat)
    requires Padded(a, b, meaningful) && k >= 2
    requires IsRun(a + b + a + b, i, j, k) && !IsRun(a + b + a + b, i, j, k + 1)
    ensures !MeaningfulEnough(a + b + a + b, meaningful, i, k)
  {
    var block, d := a + b + a + b, |a| + |b|;
    forall x | i <= x < i + k && meaningful(block[x]) ensures x < |a| && j - i == d {
      assert Again(block, x, j - i);
      Recurs(a, b, meaningful, x, j - i);
    }
    if i < |a| {
      TwiceAt(a, b, i);
      FullExtent(a, b, i, k);
      FewMeaningful(block, meaningful, i, k, |a| - i);
    } else {
      FewMeaningful(block, meaningful, i, k, 0);
    }
  }

  /** The lines from `i` on recur as far as the first half goes. */
  lemma FullExtent(a: seq<Line>, b: seq<Line>, i: nat, k: nat)
    requires i < |a| && IsRun(a + b + a + b, i, i + |a| + |b|, k) && !IsRun(a + b + a + b, i, i + |a| + |b|, k + 1)
    ensures i + k == |a| + |b|
  {
    if i + k < |a| + |b| { Recurring(a, b, i + k); }
  }
}
