/** How the spans of a forest lie to each other. */
module ForestShape {
  import opened Spans
  import opened Forest

  /** Every span lies between `lo` and `hi`, and its kids' spans lie inside it. */
  predicate Contained(ts: seq<Tree>, lo: int, hi: int)
    decreases ts
  {
    forall i :: 0 <= i < |ts| ==> lo <= ts[i].span.start <= ts[i].span.end <= hi && Contained(ts[i].kids, ts[i].span.start, ts[i].span.end)
  }

  /** Siblings follow each other with at least one line in between, at every level. */
  predicate Apart(ts: seq<Tree>)
    decreases ts
  {
    && (forall i, j :: 0 <= i < j < |ts| ==> ts[i].span.end + 1 < ts[j].span.start)
    && (forall i :: 0 <= i < |ts| ==> Apart(ts[i].kids))
  }

  /** At least `gap` lines lie between the two, on either side. */
  predicate Clear(s: LineSpan, t: LineSpan, gap: nat) {
    s.end + gap < t.start || t.end + gap < s.start
  }

  /** Siblings are clear of each other at every level, in whatever order they are listed. */
  predicate Spread(ts: seq<Tree>, gap: nat)
    decreases ts
  {
    && (forall i, j :: 0 <= i < j < |ts| ==> Clear(ts[i].span, ts[j].span, gap))
    && (forall i :: 0 <= i < |ts| ==> Spread(ts[i].kids, gap))
  }

  lemma {:induction false} ApartIsSpread(ts: seq<Tree>)
    requires Apart(ts)
    ensures Spread(ts, 1)
    decreases ts
  {
    forall i | 0 <= i < |ts| ensures Spread(ts[i].kids, 1) { ApartIsSpread(ts[i].kids); }
  }

  lemma {:induction false} SpreadLess(ts: seq<Tree>, gap: nat)
    requires Spread(ts, gap)
    ensures Spread(ts, 0)
    decreases ts
  {
    forall i | 0 <= i < |ts| ensures Spread(ts[i].kids, 0) { SpreadLess(ts[i].kids, gap); }
  }

  lemma RunSpanInside(first: Node, last: Node, count: nat, minBody: nat)
    requires Nested(first) && Nested(last)
    ensures forall s :: s in RunSpan(first, last, count, minBody) ==> first.startLine < s.start <= s.end < last.startLine
  {
  }

  lemma {:induction false} RunSpansInside(node: Node, minBody: nat, i: nat)
    requires Nested(node) && i <= |node.children|
    ensures forall s :: s in RunSpans(node.children, minBody, i) ==> node.startLine < s.start <= s.end < node.endLine
    decreases |node.children| - i
  {
    hide RunSpan;
    var children := node.children;
    if i == |children| {
    } else if !children[i].groupable {
      RunSpansInside(node, minBody, i + 1);
    } else {
      var e := RunEnd(children, i + 1);
      RunSpansInside(node, minBody, e);
      RunSpanInside(children[i], children[e - 1], e - i, minBody);
      RunSpansUnfold(children, minBody, i);
      assert node.startLine <= children[i].startLine && children[e - 1].startLine <= node.endLine;
    }
  }

  lemma ContainedConcat(a: seq<Tree>, b: seq<Tree>, lo: int, hi: int)
    ensures Contained(a + b, lo, hi) <==> Contained(a, lo, hi) && Contained(b, lo, hi)
  {
    forall i | 0 <= i < |a| ensures (a + b)[i] == a[i] {}
    forall i | 0 <= i < |b| ensures (a + b)[|a| + i] == b[i] {}
  }

  /** Whatever a node contributes lies strictly between its first and its last line. */
  lemma {:induction false} ElidableContained(node: Node, minBody: nat, minComment: nat)
    requires Nested(node)
    ensures Contained(Elidable(node, minBody, minComment), node.startLine + 1, node.endLine - 1)
    decreases node, 1
  {
    hide RunSpans, Below, Contained, Leaves;
    if node.comment {
      CommentContained(node, minBody, minComment);
    } else {
      var runs, below := Leaves(RunSpans(node.children, minBody, 0)), Below(node, minBody, minComment, |node.children|);
      RunSpansInside(node, minBody, 0);
      LeavesContained(RunSpans(node.children, minBody, 0), node.startLine + 1, node.endLine - 1);
      BelowContained(node, minBody, minComment, |node.children|);
      ContainedConcat(runs, below, node.startLine + 1, node.endLine - 1);
      if IsBody(node, minBody) { ContainedOne(Tree(BodySpan(node), runs + below)); }
    }
  }

  lemma CommentContained(node: Node, minBody: nat, minComment: nat)
    requires node.comment
    ensures Contained(Elidable(node, minBody, minComment), node.startLine + 1, node.endLine - 1)
  {
  }

  lemma LeavesContained(spans: seq<LineSpan>, lo: int, hi: int)
    requires forall s :: s in spans ==> lo <= s.start <= s.end <= hi
    ensures Contained(Leaves(spans), lo, hi)
  {
    hide Leaves;
    var ts := Leaves(spans);
    forall i | 0 <= i < |ts| ensures lo <= ts[i].span.start <= ts[i].span.end <= hi && Contained(ts[i].kids, ts[i].span.start, ts[i].span.end) {
      assert spans[i] in spans && ts[i].kids == [];
    }
  }

  lemma ContainedOne(t: Tree)
    requires t.span.start <= t.span.end && Contained(t.kids, t.span.start, t.span.end)
    ensures Contained([t], t.span.start, t.span.end)
  {
  }

  lemma {:induction false} BelowContained(node: Node, minBody: nat, minComment: nat, n: nat)
    requires Nested(node) && n <= |node.children|
    ensures Contained(Below(node, minBody, minComment, n), node.startLine + 1, node.endLine - 1)
    decreases node, 0, n
  {
    hide Elidable;
    if n > 0 {
      var child := node.children[n - 1];
      BelowContained(node, minBody, minComment, n - 1);
      ElidableContained(child, minBody, minComment);
      var ts := Elidable(child, minBody, minComment);
      assert Contained(ts, node.startLine + 1, node.endLine - 1);
      ContainedConcat(Below(node, minBody, minComment, n - 1), ts, node.startLine + 1, node.endLine - 1);
    }
  }

  lemma {:induction false} NoRuns(children: seq<Node>, minBody: nat, i: nat)
    requires i <= |children| && forall k :: 0 <= k < |children| ==> !children[k].groupable
    ensures RunSpans(children, minBody, i) == []
    decreases |children| - i
  {
    if i < |children| { NoRuns(children, minBody, i + 1); }
  }

  lemma ApartConcat(a: seq<Tree>, b: seq<Tree>, lo: int, mid: int, hi: int)
    requires Apart(a) && Apart(b) && Contained(a, lo, mid - 1) && Contained(b, mid + 1, hi)
    ensures Apart(a + b)
  {
    var c := a + b;
    forall i | 0 <= i < |c| ensures Apart(c[i].kids) {
      assert c[i] == if i < |a| then a[i] else b[i - |a|];
    }
    forall i, j | 0 <= i < j < |c| ensures c[i].span.end + 1 < c[j].span.start {
      if j < |a| {
        assert c[i] == a[i] && c[j] == a[j];
      } else if i < |a| {
        assert c[i] == a[i] && c[j] == b[j - |a|];
      } else {
        assert c[i] == b[i - |a|] && c[j] == b[j - |a|];
      }
    }
  }

  /** Without groupable siblings there are no runs, and between siblings some line is always kept. */
  lemma {:induction false} ElidableApart(node: Node, minBody: nat, minComment: nat)
    requires Nested(node) && NoneGroupable(node)
    ensures Apart(Elidable(node, minBody, minComment))
    decreases node, 1
  {
    hide RunSpans, Below, Apart, NoneGroupable;
    if node.comment {
      CommentApart(node, minBody, minComment);
    } else {
      NoneHere(node);
      NoRuns(node.children, minBody, 0);
      var below := Below(node, minBody, minComment, |node.children|);
      BelowApart(node, minBody, minComment, |node.children|);
      assert Leaves([]) + below == below;
      if IsBody(node, minBody) { ApartOne(Tree(BodySpan(node), below)); }
    }
  }

  lemma NoneHere(node: Node)
    requires NoneGroupable(node)
    ensures forall i :: 0 <= i < |node.children| ==> !node.children[i].groupable
  {
  }

  lemma CommentApart(node: Node, minBody: nat, minComment: nat)
    requires node.comment
    ensures Apart(Elidable(node, minBody, minComment))
  {
  }

  lemma ApartOne(t: Tree)
    requires Apart(t.kids)
    ensures Apart([t])
  {
  }

  lemma {:induction false} BelowApart(node: Node, minBody: nat, minComment: nat, n: nat)
    requires Nested(node) && NoneGroupable(node) && n <= |node.children|
    ensures Apart(Below(node, minBody, minComment, n))
    ensures n > 0 ==> Contained(Below(node, minBody, minComment, n), node.startLine + 1, node.children[n - 1].endLine - 1)
    decreases node, 0, n
  {
    hide Elidable, Apart, Contained, Nested, NoneGroupable;
    if n == 0 {
      ApartNothing();
    } else {
      NestedChild(node, n);
      var child := node.children[n - 1];
      var before, ts := Below(node, minBody, minComment, n - 1), Elidable(child, minBody, minComment);
      BelowApart(node, minBody, minComment, n - 1);
      ElidableApart(child, minBody, minComment);
      ElidableContained(child, minBody, minComment);
      if n == 1 { ContainedNothing(node.startLine + 1, child.startLine - 1); } else {
        ContainedWider(before, node.startLine + 1, node.children[n - 2].endLine - 1, node.startLine + 1, child.startLine - 1);
      }
      ApartConcat(before, ts, node.startLine + 1, child.startLine, child.endLine - 1);
      ContainedWider(before, node.startLine + 1, child.startLine - 1, node.startLine + 1, child.endLine - 1);
      ContainedWider(ts, child.startLine + 1, child.endLine - 1, node.startLine + 1, child.endLine - 1);
      ContainedConcat(before, ts, node.startLine + 1, child.endLine - 1);
    }
  }

  lemma ApartNothing()
    ensures Apart([])
  {
  }

  lemma ContainedNothing(lo: int, hi: int)
    ensures Contained([], lo, hi)
  {
  }

  lemma ContainedWider(ts: seq<Tree>, lo: int, hi: int, lo': int, hi': int)
    requires Contained(ts, lo, hi) && lo' <= lo && hi <= hi'
    ensures Contained(ts, lo', hi')
  {
  }

  lemma NestedChild(node: Node, n: nat)
    requires Nested(node) && 0 < n <= |node.children|
    ensures var child := node.children[n - 1];
            && Nested(child) && node.startLine <= child.startLine <= child.endLine <= node.endLine
            && (n > 1 ==> node.children[n - 2].endLine <= child.startLine) && (NoneGroupable(node) ==> NoneGroupable(child))
  {
  }

  lemma Childless(node: Node, minBody: nat, minComment: nat)
    requires !node.comment && node.children == []
    ensures Elidable(node, minBody, minComment) == if IsBody(node, minBody) then [Tree(BodySpan(node), [])] else []
  {
    assert RunSpans(node.children, minBody, 0) == [] && Below(node, minBody, minComment, 0) == [];
    var none: seq<Tree> := [];
    assert Leaves([]) + none == none;
  }

  /** A child's span need not be smaller than its parent's: a block may begin and end on its parent's lines. */
  lemma ContainmentIsNotStrict() returns (node: Node, t: Tree)
    ensures Nested(node) && NoneGroupable(node) && Elidable(node, 4, 6) == [t] && |t.kids| == 1 && t.kids[0].span == t.span
  {
    var inner := Node(1, 10, 10, false, true, false, []);
    var outer := Node(1, 10, 10, false, true, false, [inner]);
    Childless(inner, 4, 6);
    var kid := Tree(LineSpan(2, 9), []);
    assert Elidable(inner, 4, 6) == [kid];
    NoRuns(outer.children, 4, 0);
    var none: seq<Tree> := [];
    assert Below(outer, 4, 6, 0) == none && none + [kid] == [kid];
    assert Below(outer, 4, 6, 1) == [kid] && Leaves([]) + [kid] == [kid];
    node, t := outer, Tree(LineSpan(2, 9), [kid]);
  }

  /** A run's span and the body of one of the run's own members are siblings, and overlap. */
  lemma RunsOverlap() returns (node: Node)
    ensures Nested(node) && !Apart(Elidable(node, 4, 6))
  {
    hide Elidable, Below, RunSpans, RunEnd, Apart;
    var a, c := Node(1, 1, 1, false, false, true, []), Node(8, 8, 8, false, false, true, []);
    var b := Node(2, 7, 7, false, true, true, []);
    node := Node(1, 8, 8, false, false, false, [a, b, c]);
    assert Nested(a) && Nested(b) && Nested(c);
    assert Nested(node);
    Childless(a, 4, 6);
    Childless(b, 4, 6);
    Childless(c, 4, 6);
    RunOfThree(node.children);
    BelowThree(node, Tree(LineSpan(3, 6), []));
    WithRuns(node, 4, 6);
    Overlapping(Elidable(node, 4, 6));
  }

  lemma RunOfThree(children: seq<Node>)
    requires |children| == 3 && children[0].groupable && children[1].groupable && children[2].groupable
    ensures RunSpans(children, 4, 0) == RunSpan(children[0], children[2], 3, 4)
  {
    hide RunSpan;
    assert RunEnd(children, 3) == 3 && RunEnd(children, 2) == 3;
    RunSpansUnfold(children, 4, 0);
    assert RunSpans(children, 4, 3) == [];
  }

  lemma BelowThree(node: Node, t: Tree)
    requires |node.children| == 3
    requires Elidable(node.children[0], 4, 6) == [] && Elidable(node.children[1], 4, 6) == [t] && Elidable(node.children[2], 4, 6) == []
    ensures Below(node, 4, 6, 3) == [t]
  {
    hide Elidable;
    var none := [t][..0];
    assert Below(node, 4, 6, 0) == none;
    assert Below(node, 4, 6, 1) == none;
    assert Below(node, 4, 6, 2) == none + [t];
  }

  lemma WithRuns(node: Node, minBody: nat, minComment: nat)
    requires !node.comment && !IsBody(node, minBody)
    ensures Elidable(node, minBody, minComment)
            == Leaves(RunSpans(node.children, minBody, 0)) + Below(node, minBody, minComment, |node.children|)
  {
  }

  lemma Overlapping(ts: seq<Tree>)
    requires |ts| == 2 && ts[0].span.end + 1 >= ts[1].span.start
    ensures !Apart(ts)
  {
  }
}
