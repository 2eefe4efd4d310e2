/** The summary of a parsed source, from the syntax tree to the segments. */
module Summary {
  import opened Utf
  import opened Lines
  import opened Options
  import opened Spans
  import opened Segments
  import opened Forest
  import opened ForestShape
  import opened ForestRuns
  import opened ForestNodes
  import opened Unfold
  import opened UnfoldFacts

  const DEFAULT_MIN_BODY_LINES := 4
  const DEFAULT_MIN_COMMENT_LINES := 6

  datatype SummaryOptions = SummaryOptions(minBody: Option<nat>, minComment: Option<nat>, unfoldUntil: Option<nat>, unfoldLimit: Option<nat>) {
    function MinBody(): nat {
      var n := if minBody.Some? then minBody.value else DEFAULT_MIN_BODY_LINES;
      if n < 2 then 2 else n
    }

    function MinComment(): nat {
      var n := if minComment.Some? then minComment.value else DEFAULT_MIN_COMMENT_LINES;
      if n < 4 then 4 else n
    }

    function Until(): nat {
      if unfoldUntil.Some? then unfoldUntil.value else 0
    }

    function Limit(): nat {
      if unfoldLimit.Some? then unfoldLimit.value else Until() * 2
    }
  }

  datatype SummaryResult = SummaryResult(elided: bool, totalLines: nat, segments: seq<Segment>)

  /** What a summary shows: a tiling of the source whose elided lines are exactly those of the spans. */
  ghost predicate Shows(result: SummaryResult, lines: seq<Text>, spans: seq<LineSpan>) {
    && result.totalLines == |lines| && Tiles(result.segments, |lines|)
    && (forall seg :: seg in result.segments ==> SegmentOk(seg, lines, spans))
    && (result.elided <==> ElidedOf(result.segments) != [])
    && Rebuild(result.segments, lines, |result.segments|) == lines
  }

  method CollectForest(root: Node, minBody: nat, minComment: nat) returns (nodes: seq<SpanNode>, roots: seq<nat>)
    ensures var ts := Elidable(root, minBody, minComment); nodes == Flatten(ts, 0) && roots == Indices(ts, 0)
  {
    hide Elidable, Flatten, Indices;
    var forest := new ElidableForest();
    forest.Collect(root, None, minBody, minComment);
    nodes, roots := forest.nodes, forest.roots;
    ghost var ts := Elidable(root, minBody, minComment);
    assert [] + Flatten(ts, 0) == Flatten(ts, 0) && [] + Indices(ts, 0) == Indices(ts, 0);
  }

  /** Every folded span lies inside the source. */
  lemma FoldedInside(root: Node, minBody: nat, minComment: nat, total: nat, k: nat)
    requires Nested(root) && root.endLine <= total + 1
    ensures var ts := Elidable(root, minBody, minComment); Contained(ts, 1, total) && InSource(SpansOf(Frontier(ts, k)), total)
  {
    var ts := Elidable(root, minBody, minComment);
    ElidableContained(root, minBody, minComment);
    hide Elidable, Frontier;
    assert Contained(ts, 1, total);
    FrontierContained(ts, k, 1, total);
  }

  ghost predicate InSource(spans: seq<LineSpan>, total: nat) {
    forall s :: s in spans ==> 1 <= s.start <= s.end <= total
  }

  /** `merged` covers the same lines of the source as `spans`. */
  ghost predicate SameLines(merged: seq<LineSpan>, spans: seq<LineSpan>, total: nat) {
    forall line: nat :: Covered(merged, line) <==> line <= total && Covered(spans, line)
  }

  lemma NormalSpans(merged: seq<LineSpan>, spans: seq<LineSpan>, total: nat)
    requires Gapped(merged) && SameLines(merged, spans, total) && InSource(spans, total)
    ensures InSource(merged, total)
  {
    forall s | s in merged ensures 1 <= s.start <= s.end <= total {
      assert s.Has(s.start) && s.Has(s.end);
      assert Covered(merged, s.start) && Covered(merged, s.end);
    }
  }

  lemma Assemble(segments: seq<Segment>, lines: seq<Text>, merged: seq<LineSpan>, spans: seq<LineSpan>)
    requires Tiles(segments, |lines|) && forall seg :: seg in segments ==> SegmentOk(seg, lines, merged)
    requires Gapped(merged) && SameLines(merged, spans, |lines|) && InSource(spans, |lines|)
    requires forall i :: 0 <= i < |lines| ==> NL !in lines[i]
    ensures Shows(SummaryResult(merged != [], |lines|, segments), lines, spans)
  {
    hide Covered, Gapped, Rebuild, Between, JoinTo, ElidedOf;
    SourceRebuilt(segments, lines, merged);
    NormalSpans(merged, spans, |lines|);
    ElidedSegmentsAreSpans(segments, lines, merged, |lines|);
    forall seg | seg in segments ensures SegmentOk(seg, lines, spans) {
      assert SegmentOk(seg, lines, merged);
      TileEnds(segments, |lines|, seg);
    }
  }

  lemma TileEnds(segments: seq<Segment>, total: nat, seg: Segment)
    requires Tiles(segments, total) && seg in segments
    ensures seg.end <= total
  {
    var i :| 0 <= i < |segments| && segments[i] == seg;
    TileEndsAt(segments, total, i);
  }

  lemma {:induction false} TileEndsAt(segments: seq<Segment>, total: nat, i: nat)
    requires Tiles(segments, total) && i < |segments|
    ensures segments[i].end <= total
    decreases |segments| - i
  {
    if i + 1 < |segments| { TileEndsAt(segments, total, i + 1); }
  }

  lemma {:induction false} ShownSame(a: seq<LineSpan>, b: seq<LineSpan>, total: nat, n: nat)
    requires SameLines(a, b, total) && n <= total
    ensures Shown(a, n) == Shown(b, n)
  {
    hide Covered;
    if n > 0 { ShownSame(a, b, total, n - 1); }
  }

  /** The number of lines kept is the number of lines no folded span covers. */
  lemma KeptCount(segments: seq<Segment>, lines: seq<Text>, merged: seq<LineSpan>, spans: seq<LineSpan>)
    requires lines != [] && Tiles(segments, |lines|) && forall seg :: seg in segments ==> SegmentOk(seg, lines, merged)
    requires SameLines(merged, spans, |lines|)
    ensures KeptLines(segments, |segments|) == Shown(spans, |lines|)
  {
    hide Covered, SegmentOk;
    KeptAreShown(segments, lines, merged, |lines|, |segments|);
    ShownSame(merged, spans, |lines|, |lines|);
  }

  /** Where no run's span meets what its own members contribute, that is the unfold's counter, which stays within the ceiling. */
  lemma CounterIsShown(root: Node, minBody: nat, minComment: nat, total: nat, until: nat, limit: nat)
    requires Nested(root) && root.endLine <= total + 1 && AllRunsClear(root, minBody, minComment, 0)
    ensures var ts := Elidable(root, minBody, minComment);
            var k := Unfolds(ts, total, until, limit);
            Shown(FoldedSpans(ts, total, until, limit), total) == VisibleAt(ts, total, k) && (k > 0 ==> VisibleAt(ts, total, k) <= limit)
  {
    var ts := Elidable(root, minBody, minComment);
    var k := Unfolds(ts, total, until, limit);
    FoldedInside(root, minBody, minComment, total, k);
    SpreadIff(root, minBody, minComment, 0);
    hide Elidable, Spread, Contained;
    forall j: nat | j < k ensures Frontier(ts, j) != [] { assert !Stops(ts, total, until, limit, j); }
    VisibleExact(ts, total, k);
    VisibleBounded(ts, total, until, limit);
  }

  /** What stays folded of a source under given options. */
  ghost function Folded(root: Node, total: nat, options: SummaryOptions): seq<LineSpan> {
    FoldedSpans(Elidable(root, options.MinBody(), options.MinComment()), total, options.Until(), options.Limit())
  }

  /** The options given, or 4 and 6 lines, no target, and twice the target; but never fewer than 2 and 4 lines. */
  lemma Defaults(options: SummaryOptions)
    ensures options.minBody == None ==> options.MinBody() == 4
    ensures options.minBody.Some? ==> options.MinBody() >= 2 && options.MinBody() >= options.minBody.value
    ensures options.minBody.Some? && options.minBody.value >= 2 ==> options.MinBody() == options.minBody.value
    ensures options.minComment == None ==> options.MinComment() == 6
    ensures options.minComment.Some? ==> options.MinComment() >= 4 && options.MinComment() >= options.minComment.value
    ensures options.minComment.Some? && options.minComment.value >= 4 ==> options.MinComment() == options.minComment.value
  {
  }

  /** With no target nothing is unfolded, and what is covered is whatever any node folds. */
  lemma NoTarget(root: Node, total: nat, options: SummaryOptions, line: nat)
    requires Nested(root) && options.Until() == 0
    ensures Covered(Folded(root, total, options), line) <==> IsFolded(root, options.MinBody(), options.MinComment(), line)
  {
    hide Elidable, Folds;
    var ts := Elidable(root, options.MinBody(), options.MinComment());
    StopsOnce(ts, total, 0, options.Limit(), 0);
    TopsCover(root, options.MinBody(), options.MinComment(), line);
    var spans := SpansOf(ts);
    if s :| s in spans && s.Has(line) {
      var i :| 0 <= i < |spans| && spans[i] == s;
      assert ts[i] in ts;
    }
    if t :| t in ts && t.span.Has(line) {
      var i :| 0 <= i < |ts| && ts[i] == t;
      assert spans[i] in spans;
    }
  }

  /** The elided lines are those that some node folds. */
  ghost predicate ElidesFolded(segments: seq<Segment>, root: Node, minBody: nat, minComment: nat) {
    forall seg, line: nat :: seg in segments && seg.start <= line <= seg.end ==> (!seg.kept <==> IsFolded(root, minBody, minComment, line))
  }

  lemma ElidesAll(result: SummaryResult, lines: seq<Text>, root: Node, options: SummaryOptions)
    requires Nested(root) && options.Until() == 0 && Shows(result, lines, Folded(root, |lines|, options))
    ensures ElidesFolded(result.segments, root, options.MinBody(), options.MinComment())
  {
    hide Folded, Covered, IsFolded, Rebuild, ElidedOf, Tiles;
    forall seg, line: nat | seg in result.segments && seg.start <= line <= seg.end
      ensures !seg.kept <==> IsFolded(root, options.MinBody(), options.MinComment(), line)
    {
      NoTarget(root, |lines|, options, line);
      assert SegmentOk(seg, lines, Folded(root, |lines|, options));
    }
  }

  /**
   The whole pipeline.  With no target exactly the lines that some node folds are elided.  On a source where no
   run's span meets what its own members contribute, the number of lines kept is the unfold's counter, and does
   not exceed the ceiling if anything was unfolded.
   */
  method Summarize(lines: seq<Text>, root: Node, options: SummaryOptions) returns (result: SummaryResult)
    requires lines != [] && Nested(root) && root.endLine <= |lines| + 1
    requires forall i :: 0 <= i < |lines| ==> NL !in lines[i]
    ensures Shows(result, lines, Folded(root, |lines|, options))
    ensures options.Until() == 0 ==> ElidesFolded(result.segments, root, options.MinBody(), options.MinComment())
    ensures var ts := Elidable(root, options.MinBody(), options.MinComment());
            var k := Unfolds(ts, |lines|, options.Until(), options.Limit());
            var keptLines := KeptLines(result.segments, |result.segments|);
            AllRunsClear(root, options.MinBody(), options.MinComment(), 0) ==> keptLines == VisibleAt(ts, |lines|, k) && (k > 0 ==> keptLines <= options.Limit())
  {
    hide *;
    var total, minBody, minComment := |lines|, options.MinBody(), options.MinComment();
    var nodes, roots := CollectForest(root, minBody, minComment);
    ghost var ts := Elidable(root, minBody, minComment);
    ghost var k := Unfolds(ts, total, options.Until(), options.Limit());
    var spans;
    ghost var done, queue;
    spans, done, queue := SelectFolded(nodes, roots, total, options.Until(), options.Limit(), ts);
    var merged := NormalizeSpans(spans, total);
    var segments := BuildSegments(lines, total, merged);
    result := SummaryResult(merged != [], total, segments);
    ghost var folded := Folded(root, total, options);
    FoldedIs(root, total, options);
    assert SameLines(merged, folded, total) by {
      SameCover(spans, folded);
      SameLinesIf(merged, spans, folded, total);
    }
    FoldedInside(root, minBody, minComment, total, k);
    Assemble(segments, lines, merged, folded);
    KeptCount(segments, lines, merged, folded);
    if options.Until() == 0 { ElidesAll(result, lines, root, options); }
    if AllRunsClear(root, minBody, minComment, 0) { CounterIsShown(root, minBody, minComment, total, options.Until(), options.Limit()); }
  }

  lemma FoldedIs(root: Node, total: nat, options: SummaryOptions)
    ensures var ts := Elidable(root, options.MinBody(), options.MinComment());
            && Folded(root, total, options) == FoldedSpans(ts, total, options.Until(), options.Limit())
            && Folded(root, total, options) == SpansOf(Frontier(ts, Unfolds(ts, total, options.Until(), options.Limit())))
  {
  }

  lemma SameLinesIf(merged: seq<LineSpan>, spans: seq<LineSpan>, folded: seq<LineSpan>, total: nat)
    requires forall line: nat :: Covered(merged, line) <==> 0 < total && line <= total && Covered(spans, line)
    requires total > 0 && forall line: nat :: Covered(spans, line) <==> Covered(folded, line)
    ensures SameLines(merged, folded, total)
  {
    hide Covered;
  }
}
