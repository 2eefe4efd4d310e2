/** What every run of the unfold satisfies. */
module UnfoldFacts {
  import opened Sequences
  import opened Spans
  import opened Segments
  import opened Forest
  import opened ForestShape
  import opened Unfold

  // ----- the folded set is an antichain --------------------------------------------------

  /** From each node to one of its children. */
  ghost predicate Path(nodes: seq<SpanNode>, p: seq<nat>) {
    p != [] && forall i :: 0 <= i < |p| - 1 ==> p[i] < |nodes| && p[i + 1] in nodes[p[i]].children
  }

  lemma {:induction false} PathInside(nodes: seq<SpanNode>, t: Tree, p: seq<nat>)
    requires Path(nodes, p) && |p| >= 2 && At(nodes, p[0], t)
    ensures p[0] < p[|p| - 1] < p[0] + Size(t)
    decreases p
  {
    hide At, Size, Path;
    SizePositive();
    KidsPlaced(nodes, p[0], t);
    var i := FirstStep(nodes, p);
    assert Inside(p[0], t, p[1], t.kids[i]);
    if |p| > 2 { PathInside(nodes, t.kids[i], p[1..]); }
  }

  /** Which child the path goes to first. */
  lemma FirstStep(nodes: seq<SpanNode>, p: seq<nat>) returns (i: nat)
    requires Path(nodes, p) && |p| >= 2
    ensures p[0] < |nodes| && i < |nodes[p[0]].children| && nodes[p[0]].children[i] == p[1]
    ensures Path(nodes, p[1..])
  {
    var children := nodes[p[0]].children;
    assert p[0 + 1] in children;
    i :| 0 <= i < |children| && children[i] == p[1];
    var rest := p[1..];
    forall j | 0 <= j < |rest| - 1 ensures rest[j] < |nodes| && rest[j + 1] in nodes[rest[j]].children {
      assert p[(j + 1) + 1] in nodes[p[j + 1]].children;
    }
  }

  /** No folded node lies below another one. */
  lemma Antichain(nodes: seq<SpanNode>, queue: seq<nat>, ts: seq<Tree>, p: seq<nat>)
    requires Placed(nodes, queue, ts) && Path(nodes, p) && |p| >= 2 && p[0] in queue
    ensures p[|p| - 1] !in queue
  {
    hide At, Size;
    SizePositive();
    var i :| 0 <= i < |queue| && queue[i] == p[0];
    PathInside(nodes, ts[i], p);
    forall j | 0 <= j < |queue| ensures queue[j] != p[|p| - 1] {
      if i < j { assert Away(queue[i], ts[i], queue[j], ts[j]); }
      if j < i { assert Away(queue[j], ts[j], queue[i], ts[i]); }
    }
  }

  // ----- the run ends, and asking for more never hides anything ----------------------------

  lemma {:induction false} SizeLeft(ts: seq<Tree>, k: nat)
    requires forall j: nat :: j < k ==> Frontier(ts, j) != []
    ensures SizeAll(Frontier(ts, k)) == SizeAll(ts) - k
  {
    if k > 0 {
      SizeLeft(ts, k - 1);
      SizeNext(Frontier(ts, k - 1));
    }
  }

  /** At most one unfold for every node of the forest. */
  lemma UnfoldsAreBounded(ts: seq<Tree>, total: nat, until: nat, limit: nat)
    ensures Unfolds(ts, total, until, limit) <= SizeAll(ts)
  {
    var k := Unfolds(ts, total, until, limit);
    forall j: nat | j < k ensures Frontier(ts, j) != [] { assert !Stops(ts, total, until, limit, j); }
    SizeLeft(ts, k);
  }

  /** With a higher target or a higher ceiling, at least as much is unfolded. */
  lemma UnfoldsMore(ts: seq<Tree>, total: nat, until: nat, limit: nat, until': nat, limit': nat)
    requires until <= until' && limit <= limit'
    ensures Unfolds(ts, total, until, limit) <= Unfolds(ts, total, until', limit')
  {
    var k, k' := Unfolds(ts, total, until, limit), Unfolds(ts, total, until', limit');
    forall j: nat | j < k ensures !Stops(ts, total, until', limit', j) { assert !Stops(ts, total, until, limit, j); }
  }

  lemma SpansMember(ts: seq<Tree>, line: nat)
    ensures Covered(SpansOf(ts), line) <==> exists i :: 0 <= i < |ts| && ts[i].span.Has(line)
  {
    var spans := SpansOf(ts);
    if i :| 0 <= i < |ts| && ts[i].span.Has(line) { assert spans[i] in spans && spans[i].Has(line); }
  }

  /** One unfold hides nothing new. */
  lemma NextHidesLess(q: seq<Tree>, line: nat, lo: int, hi: int)
    requires Contained(q, lo, hi) && Covered(SpansOf(Next(q)), line)
    ensures Covered(SpansOf(q), line) && Contained(Next(q), lo, hi)
  {
    ContainedNext(q, lo, hi);
    SpansMember(q, line);
    SpansMember(Next(q), line);
    var i :| 0 <= i < |Next(q)| && Next(q)[i].span.Has(line);
    if i < |q| - 1 {
      assert q[i + 1].span.Has(line);
    } else {
      assert q[0].kids[i - (|q| - 1)].span.Has(line) && q[0].span.Has(line);
    }
  }

  lemma ContainedNext(q: seq<Tree>, lo: int, hi: int)
    requires Contained(q, lo, hi)
    ensures Contained(Next(q), lo, hi)
  {
    if q != [] {
      assert Contained(q[0].kids, lo, hi);
      assert Contained(q[1..], lo, hi);
      ContainedConcat(q[1..], q[0].kids, lo, hi);
    }
  }

  lemma {:induction false} FrontierContained(ts: seq<Tree>, k: nat, lo: int, hi: int)
    requires Contained(ts, lo, hi)
    ensures Contained(Frontier(ts, k), lo, hi)
  {
    if k > 0 {
      FrontierContained(ts, k - 1, lo, hi);
      ContainedNext(Frontier(ts, k - 1), lo, hi);
    }
  }

  /** A line that is hidden late in the run was hidden all along. */
  lemma {:induction false} HidesLess(ts: seq<Tree>, k: nat, k': nat, line: nat, lo: int, hi: int)
    requires Contained(ts, lo, hi) && k <= k' && Covered(SpansOf(Frontier(ts, k')), line)
    ensures Covered(SpansOf(Frontier(ts, k)), line)
    decreases k'
  {
    hide Covered, Contained, Next;
    if k < k' {
      FrontierContained(ts, k' - 1, lo, hi);
      NextHidesLess(Frontier(ts, k' - 1), line, lo, hi);
      HidesLess(ts, k, k' - 1, line, lo, hi);
    }
  }

  /** Raising the target or the ceiling never hides a line that was shown. */
  lemma MoreIsShown(ts: seq<Tree>, total: nat, until: nat, limit: nat, until': nat, limit': nat, line: nat, lo: int, hi: int)
    requires until <= until' && limit <= limit' && Contained(ts, lo, hi)
    ensures !Covered(FoldedSpans(ts, total, until, limit), line) ==> !Covered(FoldedSpans(ts, total, until', limit'), line)
  {
    hide Covered, Contained, Frontier, SpansOf;
    UnfoldsMore(ts, total, until, limit, until', limit');
    if Covered(FoldedSpans(ts, total, until', limit'), line) {
      HidesLess(ts, Unfolds(ts, total, until, limit), Unfolds(ts, total, until', limit'), line, lo, hi);
    }
  }

  // ----- the counter is the number of lines that are shown --------------------------------

  /** Whatever the forest, the counter ends no higher than where it began or than the ceiling. */
  lemma VisibleBounded(ts: seq<Tree>, total: nat, until: nat, limit: nat)
    ensures var k := Unfolds(ts, total, until, limit);
            VisibleAt(ts, total, k) <= limit || (k == 0 && VisibleAt(ts, total, k) == Minus(total, SumLines(ts)))
  {
    var k := Unfolds(ts, total, until, limit);
    if k > 0 { assert !Stops(ts, total, until, limit, k - 1); }
  }

  lemma SpreadNext(q: seq<Tree>, lo: int, hi: int)
    requires Spread(q, 0) && Contained(q, lo, hi)
    ensures Spread(Next(q), 0)
  {
    if q != [] {
      var n, kids, q' := |q| - 1, q[0].kids, Next(q);
      KidsInside(q, lo, hi);
      hide Spread, Contained;
      forall i | 0 <= i < |q'| ensures Spread(q'[i].kids, 0) {
        if i < n { assert q'[i] == q[i + 1]; } else { assert q'[i] == kids[i - n]; }
      }
      forall i, j | 0 <= i < j < |q'| ensures Clear(q'[i].span, q'[j].span, 0) {
        if j < n {
          assert Clear(q[i + 1].span, q[j + 1].span, 0);
        } else if i < n {
          assert Clear(q[0].span, q[i + 1].span, 0);
        }
      }
      IsSpread(q');
    }
  }

  lemma IsSpread(q: seq<Tree>)
    requires forall i, j :: 0 <= i < j < |q| ==> Clear(q[i].span, q[j].span, 0)
    requires forall i :: 0 <= i < |q| ==> Spread(q[i].kids, 0)
    ensures Spread(q, 0)
  {
  }

  lemma KidsInside(q: seq<Tree>, lo: int, hi: int)
    requires Spread(q, 0) && q != [] && Contained(q, lo, hi)
    ensures forall i, j :: 0 <= i < j < |q| ==> Clear(q[i].span, q[j].span, 0)
    ensures forall i :: 0 <= i < |q| ==> Spread(q[i].kids, 0)
    ensures var kids := q[0].kids;
            && (forall i :: 0 <= i < |kids| ==> Spread(kids[i].kids, 0) && q[0].span.start <= kids[i].span.start && kids[i].span.end <= q[0].span.end)
            && (forall i, j :: 0 <= i < j < |kids| ==> Clear(kids[i].span, kids[j].span, 0))
  {
    assert Spread(q[0].kids, 0);
  }

  lemma {:induction false} FrontierSpread(ts: seq<Tree>, k: nat, lo: int, hi: int)
    requires Spread(ts, 0) && Contained(ts, lo, hi)
    ensures Spread(Frontier(ts, k), 0)
  {
    hide Spread, Contained;
    if k > 0 {
      FrontierSpread(ts, k - 1, lo, hi);
      FrontierContained(ts, k - 1, lo, hi);
      SpreadNext(Frontier(ts, k - 1), lo, hi);
    }
  }

  /** Adding a span that touches no covered line takes exactly its lines away. */
  lemma {:induction false} ShownSnoc(spans: seq<LineSpan>, s: LineSpan, n: nat)
    requires s.start <= s.end && 1 <= s.start && forall line: nat :: s.Has(line) ==> !Covered(spans, line)
    ensures Shown(spans + [s], n) == Shown(spans, n) - if n < s.start then 0 else if n < s.end then n - s.start + 1 else s.Lines()
  {
    CoveredSnoc(spans, s);
    hide Covered;
    if n > 0 { ShownSnoc(spans, s, n - 1); }
  }

  lemma {:induction false} ShownNothing(n: nat)
    ensures Shown([], n) == n
  {
    if n > 0 { ShownNothing(n - 1); }
  }

  /** Disjoint spans hide as many lines as they have. */
  lemma {:induction false} ShownIs(q: seq<Tree>, total: nat)
    requires Spread(q, 0) && Contained(q, 1, total)
    ensures Shown(SpansOf(q), total) + SumLines(q) == total
  {
    if q == [] {
      ShownNothing(total);
    } else {
      var init, t := q[..|q| - 1], q[|q| - 1];
      ShownIs(init, total);
      forall line: nat | t.span.Has(line) ensures !Covered(SpansOf(init), line) {
        SpansMember(init, line);
        forall i | 0 <= i < |init| ensures !init[i].span.Has(line) { assert Clear(q[i].span, t.span, 0); }
      }
      ShownSnoc(SpansOf(init), t.span, total);
    }
  }

  lemma {:induction false} ShownMonotone(a: seq<LineSpan>, b: seq<LineSpan>, n: nat)
    requires forall line: nat :: Covered(b, line) ==> Covered(a, line)
    ensures Shown(a, n) <= Shown(b, n)
  {
    hide Covered;
    if n > 0 { ShownMonotone(a, b, n - 1); }
  }

  lemma {:induction false} SumConcat(a: seq<Tree>, b: seq<Tree>)
    ensures SumLines(a + b) == SumLines(a) + SumLines(b)
  {
    if b == [] {
      assert a + b == a;
    } else {
      assert (a + b)[..|a + b| - 1] == a + b[..|b| - 1];
      SumConcat(a, b[..|b| - 1]);
    }
  }

  lemma SumNext(q: seq<Tree>)
    requires q != []
    ensures SumLines(Next(q)) == SumLines(q) - q[0].span.Lines() + SumLines(q[0].kids)
  {
    SumConcat(q[1..], q[0].kids);
    SumConcat([q[0]], q[1..]);
    assert [q[0]] + q[1..] == q;
    assert [q[0]][..0] == [] && SumLines([q[0]]) == q[0].span.Lines();
  }

  /**
   On a forest of contained and disjoint spans the saturating counter is exact at every step: it is the
   number of lines that no folded span covers.
   */
  lemma {:induction false} VisibleExact(ts: seq<Tree>, total: nat, k: nat)
    requires Contained(ts, 1, total) && Spread(ts, 0)
    requires forall j: nat :: j < k ==> Frontier(ts, j) != []
    ensures VisibleAt(ts, total, k) == Shown(SpansOf(Frontier(ts, k)), total) == total - SumLines(Frontier(ts, k))
  {
    hide Contained, Spread, Covered, Shown, SumLines, Next;
    FrontierContained(ts, k, 1, total);
    FrontierSpread(ts, k, 1, total);
    ShownIs(Frontier(ts, k), total);
    if k > 0 {
      var q := Frontier(ts, k - 1);
      VisibleExact(ts, total, k - 1);
      SumNext(q);
      forall line: nat | Covered(SpansOf(Next(q)), line) ensures Covered(SpansOf(q), line) { HidesLess(ts, k - 1, k, line, 1, total); }
      ShownMonotone(SpansOf(q), SpansOf(Next(q)), total);
    }
  }

  // ----- in which order, and how far --------------------------------------------------------

  function KidsOf(ts: seq<Tree>): seq<Tree> {
    if ts == [] then [] else KidsOf(ts[..|ts| - 1]) + ts[|ts| - 1].kids
  }

  /** The trees `d` levels down, from left to right. */
  function Level(ts: seq<Tree>, d: nat): seq<Tree> {
    if d == 0 then ts else KidsOf(Level(ts, d - 1))
  }

  /** The rest of a level from position `n` on, and below what was unfolded of it, the next one. */
  predicate BetweenLevels(q: seq<Tree>, level: seq<Tree>, n: nat) {
    n <= |level| && q == level[n..] + KidsOf(level[..n])
  }

  lemma LevelStarts(level: seq<Tree>)
    ensures BetweenLevels(level, level, 0)
  {
    NoKids();
    assert level[0..] == level && level[..0] == [];
    AddNothing(level);
  }

  lemma LevelEnds(q: seq<Tree>, level: seq<Tree>)
    requires BetweenLevels(q, level, |level|)
    ensures q == KidsOf(level)
  {
    assert level[|level|..] == [] && level[..|level|] == level;
    AddNothing(KidsOf(level));
  }

  /** Level by level: what is folded lies between two of them. */
  lemma {:induction false} BreadthFirst(ts: seq<Tree>, k: nat) returns (d: nat, n: nat)
    ensures BetweenLevels(Frontier(ts, k), Level(ts, d), n)
  {
    hide KidsOf, BetweenLevels, Next;
    if k == 0 {
      d, n := 0, 0;
      LevelStarts(ts);
    } else {
      d, n := BreadthFirst(ts, k - 1);
      var q := Frontier(ts, k - 1);
      InLevel(q, Level(ts, d), n);
      if n == |Level(ts, d)| {
        LevelEnds(q, Level(ts, d));
        d, n := d + 1, 0;
        LevelStarts(q);
      }
      if n < |Level(ts, d)| {
        OneUnfolded(q, Level(ts, d), n);
        n := n + 1;
      } else {
        NothingUnfolds();
      }
    }
  }

  lemma InLevel(q: seq<Tree>, level: seq<Tree>, n: nat)
    requires BetweenLevels(q, level, n)
    ensures n <= |level|
  {
  }

  lemma NothingUnfolds()
    ensures Next([]) == []
  {
  }

  lemma NoKids()
    ensures KidsOf([]) == []
  {
  }

  lemma OneUnfolded(q: seq<Tree>, level: seq<Tree>, n: nat)
    requires n < |level| && BetweenLevels(q, level, n)
    ensures BetweenLevels(Next(q), level, n + 1)
  {
    var rest, kids := level[n..], KidsOf(level[..n]);
    assert rest == [level[n]] + level[n + 1..];
    assert level[..n + 1][..n] == level[..n] && level[..n + 1][n] == level[n];
    assert (rest + kids)[1..] == level[n + 1..] + kids;
    Assoc(level[n + 1..], kids, level[n].kids);
  }

  /** Before the unfold too few lines were visible, and after it not too many. */
  predicate InBounds(ts: seq<Tree>, total: nat, until: nat, limit: nat, j: nat) {
    VisibleAt(ts, total, j) < until && VisibleAt(ts, total, j + 1) <= limit
  }

  /** How far it goes: every unfold is within bounds, and at the end nothing is left, or one unfold more would not be. */
  lemma UnfoldsUntil(ts: seq<Tree>, total: nat, until: nat, limit: nat)
    ensures var k := Unfolds(ts, total, until, limit);
            (forall j: nat :: j < k ==> InBounds(ts, total, until, limit, j)) && (Frontier(ts, k) == [] || !InBounds(ts, total, until, limit, k))
  {
    hide Frontier, Revealed;
    var k := Unfolds(ts, total, until, limit);
    forall j: nat | j < k ensures InBounds(ts, total, until, limit, j) { assert !Stops(ts, total, until, limit, j); }
  }
}
