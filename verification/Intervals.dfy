/** Lists of line intervals, kept sorted and apart. */
module Intervals {
  import opened Sorting
  import opened Spans

  predicate Proper(ivs: seq<LineSpan>) {
    forall i :: 0 <= i < |ivs| ==> ivs[i].start <= ivs[i].end
  }

  lemma CoveredAt(ivs: seq<LineSpan>, i: nat, line: nat)
    requires i < |ivs| && ivs[i].Has(line)
    ensures Covered(ivs, line)
  {
    assert ivs[i] in ivs;
  }

  /** In order and at least one line between neighbours, like a gapped list; but a member may hold no line. */
  ghost predicate Spaced(ivs: seq<LineSpan>) {
    && (forall i :: 0 <= i < |ivs| ==> ivs[i].start <= ivs[i].end + 1)
    && (forall i, j :: 0 <= i < j < |ivs| ==> ivs[i].end + 1 < ivs[j].start)
  }

  /** In a spaced list an interval is covered as a whole only by a single member. */
  method IsCovered(ivs: seq<LineSpan>, target: LineSpan) returns (r: bool)
    requires Spaced(ivs) && target.start <= target.end
    ensures r <==> forall line: nat :: target.Has(line) ==> Covered(ivs, line)
  {
    for i := 0 to |ivs|
      invariant forall j :: 0 <= j < i ==> ivs[j].start <= target.start && ivs[j].end < target.end
    {
      if ivs[i].start <= target.start && target.end <= ivs[i].end {
        forall line: nat | target.Has(line) ensures Covered(ivs, line) { CoveredAt(ivs, i, line); }
        return true;
      }
      if ivs[i].start > target.start {
        MissesOne(ivs, target, i);
        return false;
      }
    }
    MissesOne(ivs, target, |ivs|);
    r := false;
  }

  /** The first line that no member reaches. */
  lemma MissesOne(ivs: seq<LineSpan>, target: LineSpan, n: nat)
    requires Spaced(ivs) && n <= |ivs| && target.start <= target.end
    requires forall j :: 0 <= j < n ==> ivs[j].start <= target.start && ivs[j].end < target.end
    requires n < |ivs| ==> ivs[n].start > target.start
    ensures exists line: nat :: target.Has(line) && !Covered(ivs, line)
  {
    var line := if n > 0 && ivs[n - 1].end >= target.start then ivs[n - 1].end + 1 else target.start;
    forall i | 0 <= i < |ivs| ensures !ivs[i].Has(line) {
      assert i < n - 1 ==> ivs[i].end + 1 < ivs[n - 1].start;
      assert n < i ==> ivs[n].end + 1 < ivs[i].start;
    }
    assert target.Has(line) && !Covered(ivs, line);
  }

  lemma CoveredPrefix(ivs: seq<LineSpan>, i: nat)
    requires i < |ivs|
    ensures forall line: nat :: Covered(ivs[..i + 1], line) <==> Covered(ivs[..i], line) || ivs[i].Has(line)
  {
    assert ivs[..i + 1] == ivs[..i] + [ivs[i]];
    CoveredSnoc(ivs[..i], ivs[i]);
  }

  /** Every member ends, with a gap, before line `n`. */
  predicate Before(ivs: seq<LineSpan>, n: nat) {
    forall i :: 0 <= i < |ivs| ==> ivs[i].end + 1 < n
  }

  lemma SpacedSnoc(ivs: seq<LineSpan>, s: LineSpan)
    requires Spaced(ivs) && s.start <= s.end + 1 && Before(ivs, s.start)
    ensures Spaced(ivs + [s]) && (Proper(ivs) && s.start <= s.end ==> Proper(ivs + [s]))
  {
  }

  /** Adds an interval, merging what it touches; a member without lines comes only from an interval without lines. */
  method AddInterval(ivs: seq<LineSpan>, item: LineSpan) returns (out: seq<LineSpan>)
    requires Spaced(ivs) && item.start <= item.end + 1
    ensures Spaced(out) && forall line: nat :: Covered(out, line) <==> Covered(ivs, line) || item.Has(line)
    ensures Proper(ivs) && item.start <= item.end ==> Proper(out)
  {
    hide Covered;
    var s: nat, e: nat, placed := item.start, item.end, false;
    out := [];
    CoveredNothing();
    for i := 0 to |ivs|
      invariant Proper(ivs) && item.start <= item.end ==> s <= e && Proper(out)
      invariant s <= e + 1 && Spaced(out) && forall j :: i <= j < |ivs| ==> Before(out, ivs[j].start)
      invariant if placed then forall j :: i <= j < |ivs| ==> e + 1 < ivs[j].start else Before(out, s)
      invariant forall line: nat :: Covered(out, line) || (!placed && s <= line <= e) <==> Covered(ivs[..i], line) || item.Has(line)
    {
      var a, b := ivs[i].start, ivs[i].end;
      CoveredPrefix(ivs, i);
      if b + 1 < s {
        CoveredSnoc(out, LineSpan(a, b));
        SpacedSnoc(out, LineSpan(a, b));
        out := out + [LineSpan(a, b)];
      } else if e + 1 < a {
        if !placed {
          CoveredSnoc(out, LineSpan(s, e));
          SpacedSnoc(out, LineSpan(s, e));
          out := out + [LineSpan(s, e)];
          placed := true;
        }
        CoveredSnoc(out, LineSpan(a, b));
        SpacedSnoc(out, LineSpan(a, b));
        out := out + [LineSpan(a, b)];
      } else {
        s := if a < s then a else s;
        e := if e < b then b else e;
      }
    }
    assert ivs[..|ivs|] == ivs;
    if !placed {
      CoveredSnoc(out, LineSpan(s, e));
      SpacedSnoc(out, LineSpan(s, e));
      out := out + [LineSpan(s, e)];
    }
  }

  /** `merge`: sort, then fold each interval into the last one if it touches it. */
  method Merge(ivs: seq<LineSpan>) returns (out: seq<LineSpan>)
    requires Proper(ivs)
    ensures Gapped(out) && forall line: nat :: Covered(out, line) <==> Covered(ivs, line)
  {
    hide Covered, Sort, LineSpan.Has;
    CoveredNothing();
    if ivs == [] {
      return [];
    }
    var sorted := Sort(ivs, SpanKey);
    SortMembers(ivs, SpanKey);
    SameCover(sorted, ivs);
    ProperMembers(ivs, sorted);
    out := [sorted[0]];
    CoveredPrefix(sorted, 0);
    CoveredSnoc([], sorted[0]);
    assert [] + [sorted[0]] == [sorted[0]] && sorted[..0] == [];
    for i := 1 to |sorted|
      invariant Gapped(out) && out != [] && forall j :: i <= j < |sorted| ==> out[|out| - 1].start <= sorted[j].start
      invariant forall line: nat :: Covered(out, line) <==> Covered(sorted[..i], line)
    {
      CoveredPrefix(sorted, i);
      out := MergeOne(out, sorted[i]);
      assert forall j :: i < j < |sorted| ==> Leq(SpanKey(sorted[i]), SpanKey(sorted[j]));
    }
    assert sorted[..|sorted|] == sorted;
  }

  lemma ProperMembers(a: seq<LineSpan>, b: seq<LineSpan>)
    requires Proper(a) && forall s :: s in b <==> s in a
    ensures Proper(b)
  {
    forall i | 0 <= i < |b| ensures b[i].start <= b[i].end { assert b[i] in a; }
  }

  method Contained(target: LineSpan, ivs: seq<LineSpan>) returns (r: bool)
    ensures r <==> exists i :: 0 <= i < |ivs| && ivs[i].start <= target.start && ivs[i].end >= target.end
  {
    for i := 0 to |ivs|
      invariant forall j :: 0 <= j < i ==> !(ivs[j].start <= target.start && ivs[j].end >= target.end)
    {
      if ivs[i].start <= target.start && ivs[i].end >= target.end {
        return true;
      }
    }
    r := false;
  }

  // ----- subtraction -----------------------------------------------------------------------

  predicate Apart(a: LineSpan, b: LineSpan) {
    a.end < b.start || b.end < a.start
  }

  predicate PairwiseApart(ivs: seq<LineSpan>) {
    forall i, j :: 0 <= i < j < |ivs| ==> Apart(ivs[i], ivs[j])
  }

  /** Proper, disjoint, and inside the target. */
  predicate PiecesOf(ivs: seq<LineSpan>, target: LineSpan) {
    Proper(ivs) && PairwiseApart(ivs) && forall i :: 0 <= i < |ivs| ==> target.start <= ivs[i].start && ivs[i].end <= target.end
  }

  /** In order, at least a line apart, and inside the target. */
  ghost predicate GapsOf(ivs: seq<LineSpan>, target: LineSpan) {
    Gapped(ivs) && forall i :: 0 <= i < |ivs| ==> target.start <= ivs[i].start && ivs[i].end <= target.end
  }

  /** What is left of an interval once the lines of `cut` are taken out, as 0, 1 or 2 pieces. */
  function Minus(piece: LineSpan, cut: LineSpan): (r: seq<LineSpan>)
    requires piece.start <= piece.end && cut.start <= cut.end
    ensures GapsOf(r, piece)
  {
    if cut.end < piece.start || cut.start > piece.end then [piece] else
      (if cut.start > piece.start then [LineSpan(piece.start, cut.start - 1)] else [])
      + (if cut.end < piece.end then [LineSpan(cut.end + 1, piece.end)] else [])
  }

  lemma MinusCovers(piece: LineSpan, cut: LineSpan, line: nat)
    requires piece.start <= piece.end && cut.start <= cut.end
    ensures Covered(Minus(piece, cut), line) <==> piece.Has(line) && !cut.Has(line)
  {
    var r := Minus(piece, cut);
    if Covered(r, line) {
      var s :| s in r && s.Has(line);
      var i :| 0 <= i < |r| && r[i] == s;
    }
    if piece.Has(line) && !cut.Has(line) {
      if cut.end < piece.start || cut.start > piece.end || line < cut.start {
        CoveredAt(r, 0, line);
      } else {
        CoveredAt(r, |r| - 1, line);
      }
    }
  }

  lemma CoveredConcat(a: seq<LineSpan>, b: seq<LineSpan>)
    ensures forall line: nat :: Covered(a + b, line) <==> Covered(a, line) || Covered(b, line)
  {
    forall line: nat ensures Covered(a + b, line) <==> Covered(a, line) || Covered(b, line) {
      if s :| s in a && s.Has(line) { assert s in a + b; }
      if s :| s in b && s.Has(line) { assert s in a + b; }
    }
  }

  method SubtractOne(out: seq<LineSpan>, cut: LineSpan, ghost target: LineSpan) returns (r: seq<LineSpan>)
    requires GapsOf(out, target) && cut.start <= cut.end
    ensures GapsOf(r, target) && forall line: nat :: Covered(r, line) <==> Covered(out, line) && !cut.Has(line)
  {
    hide Covered;
    r := [];
    CoveredNothing();
    for i := 0 to |out|
      invariant GapsOf(r, target) && forall j :: i <= j < |out| ==> Before(r, out[j].start)
      invariant forall line: nat :: Covered(r, line) <==> Covered(out[..i], line) && !cut.Has(line)
    {
      var more := Minus(out[i], cut);
      CoveredPrefix(out, i);
      CoveredConcat(r, more);
      forall line: nat ensures Covered(more, line) <==> out[i].Has(line) && !cut.Has(line) { MinusCovers(out[i], cut, line); }
      GapsConcat(r, more, out[i]);
      r := r + more;
    }
    assert out[..|out|] == out;
  }

  lemma GapsConcat(a: seq<LineSpan>, b: seq<LineSpan>, piece: LineSpan)
    requires Gapped(a) && GapsOf(b, piece) && Before(a, piece.start)
    ensures Gapped(a + b) && forall n :: piece.start <= piece.end && piece.end + 1 < n ==> Before(a + b, n)
  {
  }

  /** `subtract`: the lines of the interval that are not in the union, in as few pieces as possible. */
  method Subtract(target: LineSpan, ivs: seq<LineSpan>) returns (out: seq<LineSpan>)
    requires target.start <= target.end && Proper(ivs)
    ensures GapsOf(out, target) && forall line: nat :: Covered(out, line) <==> target.Has(line) && !Covered(ivs, line)
  {
    hide Covered;
    out := [target];
    CoveredNothing();
    CoveredSnoc([], target);
    assert [] + [target] == [target];
    for i := 0 to |ivs|
      invariant GapsOf(out, target) && forall line: nat :: Covered(out, line) <==> target.Has(line) && !Covered(ivs[..i], line)
    {
      CoveredPrefix(ivs, i);
      out := SubtractOne(out, ivs[i], target);
      if out == [] {
        CoveredMore(ivs, i + 1);
        return;
      }
    }
    assert ivs[..|ivs|] == ivs;
  }

  lemma CoveredMore(ivs: seq<LineSpan>, i: nat)
    requires i <= |ivs|
    ensures forall line: nat :: Covered(ivs[..i], line) ==> Covered(ivs, line)
  {
  }

  // ----- chunks ------------------------------------------------------------------------------

  /** The chunks follow one another from `from` to `end`, none longer than `most`. */
  predicate Chunks(cs: seq<LineSpan>, start: nat, end: int, most: nat) {
    && (cs == [] ==> end + 1 == start)
    && (cs != [] ==> cs[0].start == start && cs[|cs| - 1].end == end)
    && (forall i :: 0 <= i < |cs| ==> cs[i].start <= cs[i].end && cs[i].Lines() <= most)
    && (forall i :: 0 <= i < |cs| - 1 ==> cs[i + 1].start == cs[i].end + 1)
  }

  /** The chunks that fetch the lines from `start` to `end`. */
  function ChunksOf(start: nat, end: int, most: nat): (cs: seq<LineSpan>)
    requires most >= 1
    decreases end + 1 - start
  {
    if end < start then [] else
      var last := if start + most - 1 < end then start + most - 1 else end;
      [LineSpan(start, last)] + ChunksOf(last + 1, end, most)
  }

  method ChunkRange(target: LineSpan, maxPerCall: nat) returns (out: seq<LineSpan>)
    requires maxPerCall >= 1
    ensures target.end < target.start ==> out == []
    ensures target.start <= target.end ==> Chunks(out, target.start, target.end, maxPerCall) && FullButLast(out, maxPerCall)
    ensures out == ChunksOf(target.start, target.end, maxPerCall)
  {
    out := [];
    var cur := target.start;
    while cur <= target.end
      invariant target.start <= cur
      invariant out + ChunksOf(cur, target.end, maxPerCall) == ChunksOf(target.start, target.end, maxPerCall)
      decreases target.end + 1 - cur
    {
      var end := if cur + maxPerCall - 1 < target.end then cur + maxPerCall - 1 else target.end;
      assert out + [LineSpan(cur, end)] + ChunksOf(end + 1, target.end, maxPerCall) == out + ChunksOf(cur, target.end, maxPerCall);
      out := out + [LineSpan(cur, end)];
      cur := end + 1;
    }
    assert ChunksOf(cur, target.end, maxPerCall) == [] && out + [] == out;
    if target.start <= target.end { ChunksFollow(target.start, target.end, maxPerCall); }
  }

  /** They follow one another, and all but the last are as long as they may be. */
  lemma {:induction false} ChunksFollow(start: nat, end: int, most: nat)
    requires most >= 1 && start <= end + 1
    ensures Chunks(ChunksOf(start, end, most), start, end, most) && FullButLast(ChunksOf(start, end, most), most)
    decreases end + 1 - start
  {
    if start <= end {
      var last := if start + most - 1 < end then start + most - 1 else end;
      ChunksFollow(last + 1, end, most);
    }
  }

  predicate FullButLast(cs: seq<LineSpan>, most: nat) {
    forall i :: 0 <= i < |cs| - 1 ==> cs[i].Lines() == most
  }

  /** Chunks are pieces of the interval they were cut from, and cover it. */
  lemma {:induction false} ChunksCover(cs: seq<LineSpan>, target: LineSpan, most: nat, n: nat)
    requires Chunks(cs, target.start, target.end, most) && n <= |cs|
    ensures PiecesOf(cs[..n], target)
    ensures n > 0 ==> cs[n - 1].end <= target.end && forall i :: 0 <= i < n ==> cs[i].end <= cs[n - 1].end
    ensures forall line: nat :: Covered(cs[..n], line) <==> n > 0 && target.start <= line <= cs[n - 1].end
  {
    hide Covered;
    if n == 0 {
      CoveredNothing();
      assert cs[..0] == [];
    } else {
      ChunksCover(cs, target, most, n - 1);
      ChunkEnds(cs, target, most, n - 1);
      assert cs[..n] == cs[..n - 1] + [cs[n - 1]];
      CoveredSnoc(cs[..n - 1], cs[n - 1]);
      assert n > 1 ==> cs[(n - 2) + 1].start == cs[n - 2].end + 1;
      assert forall i :: 0 <= i < n - 1 ==> cs[..n][i] == cs[..n - 1][i];
    }
  }

  lemma {:induction false} ChunkEnds(cs: seq<LineSpan>, target: LineSpan, most: nat, i: nat)
    requires Chunks(cs, target.start, target.end, most) && i < |cs|
    ensures cs[i].end <= target.end
    decreases |cs| - i
  {
    if i + 1 < |cs| { ChunkEnds(cs, target, most, i + 1); }
  }
}
