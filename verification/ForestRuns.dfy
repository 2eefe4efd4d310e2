/** What runs of groupable siblings do to the shape of the forest: exactly when spans meet, or coincide. */
module ForestRuns {
  import opened Spans
  import opened Forest
  import opened ForestShape

  // ----- siblings stay clear of each other ---------------------------------------------

  /** The span of one run is clear of what the members of the run contribute. */
  predicate RunClear(children: seq<Node>, minBody: nat, minComment: nat, i: nat, e: nat, gap: nat)
    requires i < e <= |children|
  {
    forall s, k, t ::
      s in RunSpan(children[i], children[e - 1], e - i, minBody) && i <= k < e && t in Elidable(children[k], minBody, minComment)
      ==> Clear(s, t.span, gap)
  }

  /** The same for every run from position `i` on. */
  predicate RunsClear(children: seq<Node>, minBody: nat, minComment: nat, i: nat, gap: nat)
    requires i <= |children|
    decreases |children| - i
  {
    if i == |children| then true
    else if !children[i].groupable then RunsClear(children, minBody, minComment, i + 1, gap)
    else
      var e := RunEnd(children, i + 1);
      RunClear(children, minBody, minComment, i, e, gap) && RunsClear(children, minBody, minComment, e, gap)
  }

  /** And for every node of the source. */
  predicate AllRunsClear(node: Node, minBody: nat, minComment: nat, gap: nat)
    decreases node
  {
    node.comment ||
    (RunsClear(node.children, minBody, minComment, 0, gap)
     && forall i :: 0 <= i < |node.children| ==> AllRunsClear(node.children[i], minBody, minComment, gap))
  }

  /** Every span of the one list is clear of every span of the other. */
  predicate AllClear(a: seq<Tree>, b: seq<Tree>, gap: nat) {
    forall x, y :: x in a && y in b ==> Clear(x.span, y.span, gap)
  }

  lemma SpreadConcat(a: seq<Tree>, b: seq<Tree>, gap: nat)
    ensures Spread(a + b, gap) <==> Spread(a, gap) && Spread(b, gap) && AllClear(a, b, gap)
  {
    var c := a + b;
    if Spread(c, gap) {
      forall i | 0 <= i < |a| ensures Spread(a[i].kids, gap) { assert c[i] == a[i]; }
      forall i | 0 <= i < |b| ensures Spread(b[i].kids, gap) { assert c[|a| + i] == b[i]; }
      forall i, j | 0 <= i < j < |a| ensures Clear(a[i].span, a[j].span, gap) { assert c[i] == a[i] && c[j] == a[j]; }
      forall i, j | 0 <= i < j < |b| ensures Clear(b[i].span, b[j].span, gap) { assert c[|a| + i] == b[i] && c[|a| + j] == b[j]; }
      forall x, y | x in a && y in b ensures Clear(x.span, y.span, gap) {
        var i :| 0 <= i < |a| && a[i] == x;
        var j :| 0 <= j < |b| && b[j] == y;
        assert c[i] == x && c[|a| + j] == y;
      }
    }
    if Spread(a, gap) && Spread(b, gap) && AllClear(a, b, gap) {
      forall i | 0 <= i < |c| ensures Spread(c[i].kids, gap) { assert c[i] == if i < |a| then a[i] else b[i - |a|]; }
      forall i, j | 0 <= i < j < |c| ensures Clear(c[i].span, c[j].span, gap) {
        if j < |a| {
          assert c[i] == a[i] && c[j] == a[j];
        } else if i < |a| {
          assert c[i] == a[i] && c[j] == b[j - |a|] && a[i] in a && b[j - |a|] in b;
        } else {
          assert c[i] == b[i - |a|] && c[j] == b[j - |a|];
        }
      }
    }
  }

  /** What a child contributes lies strictly between its first and its last line. */
  lemma ChildInside(node: Node, minBody: nat, minComment: nat, k: nat, t: Tree)
    requires Nested(node) && k < |node.children| && t in Elidable(node.children[k], minBody, minComment)
    ensures node.children[k].startLine < t.span.start <= t.span.end < node.children[k].endLine
  {
    var ts := Elidable(node.children[k], minBody, minComment);
    ElidableContained(node.children[k], minBody, minComment);
    hide Elidable;
    var i :| 0 <= i < |ts| && ts[i] == t;
  }

  lemma Ordered(node: Node, i: nat, j: nat)
    requires Nested(node) && i < j < |node.children|
    ensures Nested(node.children[i]) && Nested(node.children[j]) && node.children[i].endLine <= node.children[j].startLine
    ensures node.children[i].startLine <= node.children[i].endLine && node.children[j].startLine <= node.children[j].endLine
  {
  }

  lemma {:induction false} InBelow(node: Node, minBody: nat, minComment: nat, n: nat, t: Tree)
    requires n <= |node.children|
    ensures t in Below(node, minBody, minComment, n) <==> exists k :: 0 <= k < n && t in Elidable(node.children[k], minBody, minComment)
  {
    hide Elidable;
    if n > 0 { InBelow(node, minBody, minComment, n - 1, t); }
  }

  /** What different children contribute never meets. */
  lemma {:induction false} BelowSpread(node: Node, minBody: nat, minComment: nat, n: nat, gap: nat)
    requires Nested(node) && n <= |node.children| && gap <= 1
    ensures Spread(Below(node, minBody, minComment, n), gap)
            <==> forall k :: 0 <= k < n ==> Spread(Elidable(node.children[k], minBody, minComment), gap)
  {
    hide Elidable, Spread, Nested;
    if n == 0 {
      NothingSpread(gap);
    } else {
      BelowSpread(node, minBody, minComment, n - 1, gap);
      var before, ts := Below(node, minBody, minComment, n - 1), Elidable(node.children[n - 1], minBody, minComment);
      SpreadConcat(before, ts, gap);
      forall x, y | x in before && y in ts ensures Clear(x.span, y.span, gap) {
        InBelow(node, minBody, minComment, n - 1, x);
        var k :| 0 <= k < n - 1 && x in Elidable(node.children[k], minBody, minComment);
        ChildInside(node, minBody, minComment, k, x);
        ChildInside(node, minBody, minComment, n - 1, y);
        Ordered(node, k, n - 1);
      }
    }
  }

  lemma NothingSpread(gap: nat)
    ensures Spread([], gap)
  {
  }

  /** A run's span lies strictly between the first lines of its first and of its last member. */
  lemma RunInside(node: Node, minBody: nat, i: nat, e: nat, s: LineSpan)
    requires Nested(node) && i < e <= |node.children| && s in RunSpan(node.children[i], node.children[e - 1], e - i, minBody)
    ensures i < e - 1 && node.children[i].startLine < s.start <= s.end < node.children[e - 1].startLine
  {
  }

  /** Only its members can contribute anything that a run's span meets. */
  lemma OthersClear(node: Node, minBody: nat, minComment: nat, i: nat, e: nat, gap: nat, s: LineSpan, k: nat, t: Tree)
    requires Nested(node) && i < e <= |node.children| && gap <= 1
    requires s in RunSpan(node.children[i], node.children[e - 1], e - i, minBody)
    requires k < |node.children| && t in Elidable(node.children[k], minBody, minComment) && !(i <= k < e)
    ensures Clear(s, t.span, gap)
  {
    hide Elidable, RunSpan, Nested;
    RunInside(node, minBody, i, e, s);
    ChildInside(node, minBody, minComment, k, t);
    if k < i { Ordered(node, k, i); } else { Ordered(node, e - 1, k); }
  }

  lemma {:induction false} RunsLater(node: Node, minBody: nat, i: nat, s: LineSpan)
    requires Nested(node) && i <= |node.children| && s in RunSpans(node.children, minBody, i)
    ensures i < |node.children| && node.children[i].startLine < s.start
    decreases |node.children| - i
  {
    hide RunSpan, Nested;
    var children := node.children;
    if i < |children| {
      if !children[i].groupable {
        RunsLater(node, minBody, i + 1, s);
        Ordered(node, i, i + 1);
      } else {
        var e := RunEnd(children, i + 1);
        if s in RunSpan(children[i], children[e - 1], e - i, minBody) {
          RunInside(node, minBody, i, e, s);
        } else {
          RunsLater(node, minBody, e, s);
          Ordered(node, i, e);
        }
      }
    }
  }

  /** Different runs never meet. */
  lemma {:induction false} RunsSpread(node: Node, minBody: nat, i: nat, gap: nat)
    requires Nested(node) && i <= |node.children| && gap <= 1
    ensures Spread(Leaves(RunSpans(node.children, minBody, i)), gap)
    decreases |node.children| - i
  {
    hide RunSpan, Nested, Spread, AllClear, Leaves;
    var children := node.children;
    if i == |children| {
      OneSpread([], gap);
    } else if !children[i].groupable {
      RunsSpread(node, minBody, i + 1, gap);
    } else {
      var e := RunEnd(children, i + 1);
      RunsSpread(node, minBody, e, gap);
      var a, b := RunSpan(children[i], children[e - 1], e - i, minBody), RunSpans(children, minBody, e);
      LeavesConcat(a, b);
      OneSpread(a, gap);
      SpreadConcat(Leaves(a), Leaves(b), gap);
      RunThenRuns(node, minBody, i, e, gap);
    }
  }

  lemma RunThenRuns(node: Node, minBody: nat, i: nat, e: nat, gap: nat)
    requires Nested(node) && i < e <= |node.children| && gap <= 1
    ensures AllClear(Leaves(RunSpan(node.children[i], node.children[e - 1], e - i, minBody)), Leaves(RunSpans(node.children, minBody, e)), gap)
  {
    hide RunSpan, RunSpans, Nested, Leaves;
    var a, b := RunSpan(node.children[i], node.children[e - 1], e - i, minBody), RunSpans(node.children, minBody, e);
    forall x, y | x in Leaves(a) && y in Leaves(b) ensures Clear(x.span, y.span, gap) {
      var p :| 0 <= p < |a| && Leaves(a)[p] == x;
      var q :| 0 <= q < |b| && Leaves(b)[q] == y;
      assert a[p] in a && b[q] in b;
      RunInside(node, minBody, i, e, x.span);
      RunsLater(node, minBody, e, y.span);
      Ordered(node, e - 1, e);
    }
  }

  lemma OneSpread(spans: seq<LineSpan>, gap: nat)
    requires |spans| <= 1
    ensures Spread(Leaves(spans), gap)
  {
  }

  lemma LeavesConcat(a: seq<LineSpan>, b: seq<LineSpan>)
    ensures Leaves(a + b) == Leaves(a) + Leaves(b)
  {
    hide Leaves;
  }

  /** The runs are clear of everything below exactly when each is clear of its own members. */
  lemma {:induction false} RunsMeetMembers(node: Node, minBody: nat, minComment: nat, i: nat, gap: nat)
    requires Nested(node) && i <= |node.children| && gap <= 1
    ensures RunsClear(node.children, minBody, minComment, i, gap)
            <==> ClearOfBelow(node, minBody, minComment, RunSpans(node.children, minBody, i), gap)
    decreases |node.children| - i
  {
    hide RunSpan, Nested, Elidable, Below;
    var children := node.children;
    if i < |children| {
      if !children[i].groupable {
        RunsMeetMembers(node, minBody, minComment, i + 1, gap);
      } else {
        var e := RunEnd(children, i + 1);
        RunsMeetMembers(node, minBody, minComment, e, gap);
        RunMeetsMembers(node, minBody, minComment, i, e, gap);
        ClearConcat(node, minBody, minComment, RunSpan(children[i], children[e - 1], e - i, minBody), RunSpans(children, minBody, e), gap);
      }
    }
  }

  predicate ClearOfBelow(node: Node, minBody: nat, minComment: nat, spans: seq<LineSpan>, gap: nat) {
    forall s, t :: s in spans && t in Below(node, minBody, minComment, |node.children|) ==> Clear(s, t.span, gap)
  }

  lemma ClearConcat(node: Node, minBody: nat, minComment: nat, a: seq<LineSpan>, b: seq<LineSpan>, gap: nat)
    ensures ClearOfBelow(node, minBody, minComment, a + b, gap)
            <==> ClearOfBelow(node, minBody, minComment, a, gap) && ClearOfBelow(node, minBody, minComment, b, gap)
  {
    hide Below;
    assert forall s :: s in a + b <==> s in a || s in b;
  }

  lemma RunMeetsMembers(node: Node, minBody: nat, minComment: nat, i: nat, e: nat, gap: nat)
    requires Nested(node) && i < e <= |node.children| && gap <= 1
    ensures RunClear(node.children, minBody, minComment, i, e, gap)
            <==> ClearOfBelow(node, minBody, minComment, RunSpan(node.children[i], node.children[e - 1], e - i, minBody), gap)
  {
    hide RunSpan, Nested, Elidable, Below;
    var children, n := node.children, |node.children|;
    var spans := RunSpan(children[i], children[e - 1], e - i, minBody);
    if RunClear(children, minBody, minComment, i, e, gap) {
      forall s, t | s in spans && t in Below(node, minBody, minComment, n) ensures Clear(s, t.span, gap) {
        InBelow(node, minBody, minComment, n, t);
        var k :| 0 <= k < n && t in Elidable(children[k], minBody, minComment);
        if !(i <= k < e) { OthersClear(node, minBody, minComment, i, e, gap, s, k, t); }
      }
    }
    if ClearOfBelow(node, minBody, minComment, spans, gap) {
      forall s, k, t | s in spans && i <= k < e && t in Elidable(children[k], minBody, minComment) ensures Clear(s, t.span, gap) {
        InBelow(node, minBody, minComment, n, t);
      }
    }
  }

  /**
   Exactly when siblings are disjoint at every level, and exactly when some line lies between any two: when
   no run's span meets, or touches, what the run's own members contribute.
   */
  lemma {:induction false} SpreadIff(node: Node, minBody: nat, minComment: nat, gap: nat)
    requires Nested(node) && gap <= 1
    ensures Spread(Elidable(node, minBody, minComment), gap) <==> AllRunsClear(node, minBody, minComment, gap)
    decreases node
  {
    if !node.comment {
      var n, runs := |node.children|, RunSpans(node.children, minBody, 0);
      var below := Below(node, minBody, minComment, n);
      forall k | 0 <= k < n
        ensures Spread(Elidable(node.children[k], minBody, minComment), gap) <==> AllRunsClear(node.children[k], minBody, minComment, gap)
      {
        SpreadIff(node.children[k], minBody, minComment, gap);
      }
      BelowSpread(node, minBody, minComment, n, gap);
      RunsSpread(node, minBody, 0, gap);
      RunsMeetMembers(node, minBody, minComment, 0, gap);
      LeavesClear(runs, below, gap);
      SpreadConcat(Leaves(runs), below, gap);
      SpreadUnder(node, minBody, minComment, gap);
    }
  }

  lemma LeavesClear(spans: seq<LineSpan>, ts: seq<Tree>, gap: nat)
    ensures AllClear(Leaves(spans), ts, gap) <==> forall s, t :: s in spans && t in ts ==> Clear(s, t.span, gap)
  {
    hide Leaves;
    var leaves := Leaves(spans);
    if AllClear(leaves, ts, gap) {
      forall s, t | s in spans && t in ts ensures Clear(s, t.span, gap) {
        var i :| 0 <= i < |spans| && spans[i] == s;
        assert leaves[i] in leaves;
      }
    }
    if forall s, t :: s in spans && t in ts ==> Clear(s, t.span, gap) {
      forall x, y | x in leaves && y in ts ensures Clear(x.span, y.span, gap) {
        var i :| 0 <= i < |leaves| && leaves[i] == x;
        assert spans[i] in spans;
      }
    }
  }

  /** A body takes everything inside it one level down. */
  lemma SpreadUnder(node: Node, minBody: nat, minComment: nat, gap: nat)
    requires !node.comment
    ensures Spread(Elidable(node, minBody, minComment), gap)
            <==> Spread(Leaves(RunSpans(node.children, minBody, 0)) + Below(node, minBody, minComment, |node.children|), gap)
  {
    hide RunSpans, Below, Leaves;
    var inner := Leaves(RunSpans(node.children, minBody, 0)) + Below(node, minBody, minComment, |node.children|);
    if IsBody(node, minBody) {
      var ts := [Tree(BodySpan(node), inner)];
      assert Spread(ts, gap) ==> Spread(ts[0].kids, gap);
    }
  }

  // ----- a span inside another can be the same -------------------------------------------

  /** What a span comes from: a body, a comment, or a run with its first and its last member. */
  datatype Source = FromBody(node: Node) | FromComment(node: Node) | FromRun(first: Node, last: Node)

  /** The same traversal as `Elidable`, telling where each span comes from. */
  function Sources(node: Node, minBody: nat, minComment: nat): seq<Source>
    decreases node, 1
  {
    if node.comment then
      if node.LineCount() >= minComment && node.startLine + 2 <= Pred(node.endLine) then [FromComment(node)] else []
    else if IsBody(node, minBody) then [FromBody(node)]
    else RunSources(node.children, minBody, 0) + SourcesBelow(node, minBody, minComment, |node.children|)
  }

  function SourcesBelow(node: Node, minBody: nat, minComment: nat, n: nat): seq<Source>
    requires n <= |node.children|
    decreases node, 0, n
  {
    if n == 0 then [] else SourcesBelow(node, minBody, minComment, n - 1) + Sources(node.children[n - 1], minBody, minComment)
  }

  function RunSources(children: seq<Node>, minBody: nat, i: nat): seq<Source>
    requires i <= |children|
    decreases |children| - i
  {
    if i == |children| then []
    else if !children[i].groupable then RunSources(children, minBody, i + 1)
    else
      var e := RunEnd(children, i + 1);
      (if RunSpan(children[i], children[e - 1], e - i, minBody) == [] then [] else [FromRun(children[i], children[e - 1])])
      + RunSources(children, minBody, e)
  }

  /** The span is the one of this source, which lies inside the lines from `lo` to `hi`. */
  predicate ComesFrom(span: LineSpan, source: Source, lo: nat, hi: nat) {
    match source
    case FromBody(node) => lo <= node.startLine && node.endLine <= hi && span == BodySpan(node) && span.start <= span.end
    case FromComment(node) => lo <= node.startLine && node.endLine <= hi && span == LineSpan(node.startLine + 2, Pred(node.endLine)) && span.start <= span.end
    case FromRun(first, last) =>
      && lo <= first.startLine <= first.contentEnd && last.startLine <= hi && first.contentEnd + 1 < last.startLine
      && span == LineSpan(first.contentEnd + 1, Pred(last.startLine))
  }

  predicate AllComeFrom(spans: seq<LineSpan>, sources: seq<Source>, lo: nat, hi: nat) {
    |spans| == |sources| && forall i :: 0 <= i < |spans| ==> ComesFrom(spans[i], sources[i], lo, hi)
  }

  lemma ComeFromConcat(a: seq<LineSpan>, b: seq<LineSpan>, x: seq<Source>, y: seq<Source>, lo: nat, hi: nat)
    requires AllComeFrom(a, x, lo, hi) && AllComeFrom(b, y, lo, hi)
    ensures AllComeFrom(a + b, x + y, lo, hi)
  {
  }

  lemma ComeFromWider(a: seq<LineSpan>, x: seq<Source>, lo: nat, hi: nat, lo': nat, hi': nat)
    requires AllComeFrom(a, x, lo, hi) && lo' <= lo && hi <= hi'
    ensures AllComeFrom(a, x, lo', hi')
  {
  }

  /** The spans of trees. */
  function Tops(ts: seq<Tree>): (spans: seq<LineSpan>)
    ensures |spans| == |ts| && forall i :: 0 <= i < |ts| ==> spans[i] == ts[i].span
  {
    seq(|ts|, i requires 0 <= i < |ts| => ts[i].span)
  }

  lemma TopsConcat(a: seq<Tree>, b: seq<Tree>)
    ensures Tops(a + b) == Tops(a) + Tops(b)
  {
    hide Tops;
  }

  lemma TopsLeaves(spans: seq<LineSpan>)
    ensures Tops(Leaves(spans)) == spans
  {
    hide Tops, Leaves;
  }

  lemma {:induction false} RunSourcesMatch(node: Node, minBody: nat, i: nat)
    requires Nested(node) && i <= |node.children|
    ensures AllComeFrom(RunSpans(node.children, minBody, i), RunSources(node.children, minBody, i), node.startLine, node.endLine)
    decreases |node.children| - i
  {
    hide RunSpan, Nested, AllComeFrom;
    var children := node.children;
    if i == |children| {
      NothingComes(node.startLine, node.endLine);
    } else {
      if !children[i].groupable {
        RunSourcesMatch(node, minBody, i + 1);
      } else {
        var e := RunEnd(children, i + 1);
        RunSourcesMatch(node, minBody, e);
        var span := RunSpan(children[i], children[e - 1], e - i, minBody);
        var source := if span == [] then [] else [FromRun(children[i], children[e - 1])];
        RunComesFrom(node, minBody, i, e, source);
        ComeFromConcat(span, RunSpans(children, minBody, e), source, RunSources(children, minBody, e), node.startLine, node.endLine);
      }
    }
  }

  lemma NothingComes(lo: nat, hi: nat)
    ensures AllComeFrom([], [], lo, hi)
  {
  }

  lemma RunComesFrom(node: Node, minBody: nat, i: nat, e: nat, source: seq<Source>)
    requires Nested(node) && i < e <= |node.children|
    requires var span := RunSpan(node.children[i], node.children[e - 1], e - i, minBody);
             source == if span == [] then [] else [FromRun(node.children[i], node.children[e - 1])]
    ensures AllComeFrom(RunSpan(node.children[i], node.children[e - 1], e - i, minBody), source, node.startLine, node.endLine)
  {
    assert Nested(node.children[i]) && Nested(node.children[e - 1]);
  }

  lemma {:induction false} SourcesMatch(node: Node, minBody: nat, minComment: nat)
    requires Nested(node)
    ensures AllComeFrom(Tops(Elidable(node, minBody, minComment)), Sources(node, minBody, minComment), node.startLine, node.endLine)
    decreases node, 1
  {
    hide RunSpans, Below, SourcesBelow, RunSources, Tops, Leaves, Nested;
    if !node.comment && !IsBody(node, minBody) { InnerMatch(node, minBody, minComment); }
  }

  /** What stands under a body, if the node has one, and beside it otherwise. */
  lemma {:induction false} InnerMatch(node: Node, minBody: nat, minComment: nat)
    requires Nested(node)
    ensures var inner := Leaves(RunSpans(node.children, minBody, 0)) + Below(node, minBody, minComment, |node.children|);
            AllComeFrom(Tops(inner), RunSources(node.children, minBody, 0) + SourcesBelow(node, minBody, minComment, |node.children|),
                        node.startLine, node.endLine)
    decreases node, 0, |node.children| + 1
  {
    hide RunSpans, Below, SourcesBelow, RunSources, Tops, Leaves, Nested, AllComeFrom;
    var runs, n := RunSpans(node.children, minBody, 0), |node.children|;
    RunSourcesMatch(node, minBody, 0);
    BelowMatch(node, minBody, minComment, n);
    TopsLeaves(runs);
    TopsConcat(Leaves(runs), Below(node, minBody, minComment, n));
    ComeFromConcat(runs, Tops(Below(node, minBody, minComment, n)), RunSources(node.children, minBody, 0),
                   SourcesBelow(node, minBody, minComment, n), node.startLine, node.endLine);
  }

  lemma {:induction false} BelowMatch(node: Node, minBody: nat, minComment: nat, n: nat)
    requires Nested(node) && n <= |node.children|
    ensures AllComeFrom(Tops(Below(node, minBody, minComment, n)), SourcesBelow(node, minBody, minComment, n), node.startLine, node.endLine)
    decreases node, 0, n
  {
    hide Elidable, Sources, Nested, ComesFrom;
    if n > 0 {
      NestedChild(node, n);
      var child := node.children[n - 1];
      var before, ts := Below(node, minBody, minComment, n - 1), Elidable(child, minBody, minComment);
      BelowMatch(node, minBody, minComment, n - 1);
      SourcesMatch(child, minBody, minComment);
      TopsConcat(before, ts);
      ComeFromWider(Tops(ts), Sources(child, minBody, minComment), child.startLine, child.endLine, node.startLine, node.endLine);
      ComeFromConcat(Tops(before), Tops(ts), SourcesBelow(node, minBody, minComment, n - 1), Sources(child, minBody, minComment),
                     node.startLine, node.endLine);
    }
  }

  /** From the first line of a node to its last. */
  predicate EndToEnd(source: Source, node: Node) {
    match source
    case FromBody(inner) => inner.startLine == node.startLine && inner.endLine == node.endLine
    case FromComment(_) => false
    case FromRun(first, last) => first.contentEnd == node.startLine && last.startLine == node.endLine
  }

  /**
   Exactly when a span is the same as its parent's: when what it comes from begins and ends on the first and
   on the last line of the parent's node, which a comment never does.
   */
  lemma SameSpanIff(node: Node, minBody: nat, minComment: nat, i: nat)
    requires Nested(node) && !node.comment && IsBody(node, minBody)
    requires var inner := Elidable(node, minBody, minComment)[0].kids; i < |inner|
    ensures var t := Elidable(node, minBody, minComment)[0];
            var sources := RunSources(node.children, minBody, 0) + SourcesBelow(node, minBody, minComment, |node.children|);
            |sources| == |t.kids| && (t.kids[i].span == t.span <==> EndToEnd(sources[i], node))
  {
    hide RunSpans, Below, SourcesBelow, RunSources, Tops, Leaves;
    InnerMatch(node, minBody, minComment);
    var t := Elidable(node, minBody, minComment)[0];
    var sources := RunSources(node.children, minBody, 0) + SourcesBelow(node, minBody, minComment, |node.children|);
    assert ComesFrom(Tops(t.kids)[i], sources[i], node.startLine, node.endLine);
  }
}
