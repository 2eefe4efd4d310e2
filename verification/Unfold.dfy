/**
 The breadth-first unfold: starting from the outermost spans, folded spans are replaced by the spans
 inside them until enough lines are visible.
 */
module Unfold {
  import opened Sequences
  import opened Spans
  import opened Forest

  // ----- the run, on trees -------------------------------------------------------------

  /** Unfolding the first tree of the queue puts its kids at the end. */
  function Next(q: seq<Tree>): seq<Tree> {
    if q == [] then [] else q[1..] + q[0].kids
  }

  /** What is folded, in queue order, after `k` unfolds. */
  function Frontier(ts: seq<Tree>, k: nat): seq<Tree> {
    if k == 0 then ts else Next(Frontier(ts, k - 1))
  }

  function SumLines(ts: seq<Tree>): nat {
    if ts == [] then 0 else SumLines(ts[..|ts| - 1]) + ts[|ts| - 1].span.Lines()
  }

  /** What unfolding the first of the queue would show. */
  function Revealed(q: seq<Tree>): nat {
    if q == [] then 0 else Minus(q[0].span.Lines(), SumLines(q[0].kids))
  }

  function VisibleAt(ts: seq<Tree>, total: nat, k: nat): nat {
    if k == 0 then Minus(total, SumLines(ts)) else VisibleAt(ts, total, k - 1) + Revealed(Frontier(ts, k - 1))
  }

  /** Nothing is left to unfold, enough is visible, or the next unfold would show too much. */
  predicate Stops(ts: seq<Tree>, total: nat, until: nat, limit: nat, k: nat) {
    || Frontier(ts, k) == []
    || VisibleAt(ts, total, k) >= until
    || VisibleAt(ts, total, k) + Revealed(Frontier(ts, k)) > limit
  }

  predicate StopsAt(ts: seq<Tree>, total: nat, until: nat, limit: nat, k: nat) {
    Stops(ts, total, until, limit, k) && forall j: nat :: j < k ==> !Stops(ts, total, until, limit, j)
  }

  function SpansOf(ts: seq<Tree>): (s: seq<LineSpan>)
    ensures |s| == |ts| && forall i :: 0 <= i < |s| ==> s[i] == ts[i].span
  {
    if ts == [] then [] else SpansOf(ts[..|ts| - 1]) + [ts[|ts| - 1].span]
  }

  // ----- the run, on the arena ---------------------------------------------------------

  /** The nodes from `idx` on are the tree `t` in preorder. */
  ghost predicate At(nodes: seq<SpanNode>, idx: nat, t: Tree) {
    idx + Size(t) <= |nodes| && nodes[idx..idx + Size(t)] == FlattenOne(t, idx)
  }

  /** The queue holds the trees, and no two of them share a node. */
  ghost predicate Placed(nodes: seq<SpanNode>, queue: seq<nat>, ts: seq<Tree>) {
    && |queue| == |ts|
    && (forall i :: 0 <= i < |queue| ==> At(nodes, queue[i], ts[i]))
    && (forall i, j :: 0 <= i < j < |queue| ==> Away(queue[i], ts[i], queue[j], ts[j]))
  }

  predicate Away(i: nat, t: Tree, j: nat, u: Tree) {
    i + Size(t) <= j || j + Size(u) <= i
  }

  /** Node `p` is in none of the queue's trees. */
  ghost predicate Outside(p: nat, queue: seq<nat>, ts: seq<Tree>)
    requires |queue| == |ts|
  {
    forall i :: 0 <= i < |queue| ==> p < queue[i] || queue[i] + Size(ts[i]) <= p
  }

  /** Every tree between `lo` and `hi`. */
  ghost predicate Bounded(queue: seq<nat>, ts: seq<Tree>, lo: nat, hi: nat)
    requires |queue| == |ts|
  {
    forall i :: 0 <= i < |queue| ==> lo <= queue[i] && queue[i] + Size(ts[i]) <= hi
  }

  lemma {:induction false} TreesPlaced(nodes: seq<SpanNode>, ts: seq<Tree>, at: nat)
    requires at + SizeAll(ts) <= |nodes| && nodes[at..at + SizeAll(ts)] == Flatten(ts, at)
    ensures Placed(nodes, Indices(ts, at), ts) && Bounded(Indices(ts, at), ts, at, at + SizeAll(ts))
  {
    hide *;
    if ts == [] {
      NonePlaced(nodes, at);
    } else {
      var init, t := ts[..|ts| - 1], ts[|ts| - 1];
      var here := at + SizeAll(init);
      LastPlaced(nodes, ts, at, init, t, here);
      TreesPlaced(nodes, init, at);
      PlacedSnoc(nodes, Indices(init, at), init, at, here, t);
      assert init + [t] == ts;
    }
  }

  lemma NonePlaced(nodes: seq<SpanNode>, at: nat)
    ensures Placed(nodes, Indices([], at), []) && Bounded(Indices([], at), [], at, at + SizeAll([]))
  {
  }

  lemma LastPlaced(nodes: seq<SpanNode>, ts: seq<Tree>, at: nat, init: seq<Tree>, t: Tree, here: nat)
    requires ts != [] && init == ts[..|ts| - 1] && t == ts[|ts| - 1] && here == at + SizeAll(init)
    requires at + SizeAll(ts) <= |nodes| && nodes[at..at + SizeAll(ts)] == Flatten(ts, at)
    ensures here <= |nodes| && nodes[at..here] == Flatten(init, at) && At(nodes, here, t)
    ensures Indices(ts, at) == Indices(init, at) + [here] && at + SizeAll(ts) == here + Size(t)
  {
    hide *;
    FlattenLast(ts, at);
    FlattenSize(init, at);
    FlattenSize([t], here);
    FlattenSingle(t, here);
    var a, b := Flatten(init, at), FlattenOne(t, here);
    Slices(nodes, at, here, at + SizeAll(ts), a, b);
    AtIs(nodes, here, t, at + SizeAll(ts));
  }

  lemma AtIs(nodes: seq<SpanNode>, idx: nat, t: Tree, end: nat)
    requires idx <= end <= |nodes| && end == idx + Size(t) && nodes[idx..end] == FlattenOne(t, idx)
    ensures At(nodes, idx, t)
  {
  }

  lemma FlattenLast(ts: seq<Tree>, at: nat)
    requires ts != []
    ensures var init, t := ts[..|ts| - 1], ts[|ts| - 1];
            && Flatten(ts, at) == Flatten(init, at) + FlattenOne(t, at + SizeAll(init))
            && Indices(ts, at) == Indices(init, at) + [at + SizeAll(init)] && SizeAll(ts) == SizeAll(init) + Size(t)
  {
    hide FlattenOne, Size;
  }

  lemma Slices<T>(s: seq<T>, start: nat, mid: nat, end: nat, a: seq<T>, b: seq<T>)
    requires start <= mid <= end <= |s| && mid - start == |a| && end - mid == |b| && s[start..end] == a + b
    ensures s[start..mid] == a && s[mid..end] == b
  {
    var all := s[start..end];
    assert s[start..mid] == all[..|a|];
    assert s[mid..end] == all[|a|..];
  }

  lemma PlacedSnoc(nodes: seq<SpanNode>, queue: seq<nat>, ts: seq<Tree>, at: nat, here: nat, t: Tree)
    requires Placed(nodes, queue, ts) && Bounded(queue, ts, at, here) && at <= here && At(nodes, here, t)
    ensures Placed(nodes, queue + [here], ts + [t]) && Bounded(queue + [here], ts + [t], at, here + Size(t))
  {
    hide At, Size;
    SizePositive();
    var queue', ts' := queue + [here], ts + [t];
    forall i, j | 0 <= i < j < |queue'| ensures Away(queue'[i], ts'[i], queue'[j], ts'[j]) {
      if j < |queue| { assert Away(queue[i], ts[i], queue[j], ts[j]); }
    }
  }

  /** The node itself, and its kids right behind it. */
  lemma KidsPlaced(nodes: seq<SpanNode>, idx: nat, t: Tree)
    requires At(nodes, idx, t)
    ensures idx < |nodes| && nodes[idx] == SpanNode(t.span, Indices(t.kids, idx + 1))
    ensures var kids := nodes[idx].children; Placed(nodes, kids, t.kids) && forall i :: 0 <= i < |kids| ==> Inside(idx, t, kids[i], t.kids[i])
  {
    hide Flatten, Indices, SizeAll;
    assert nodes[idx..idx + Size(t)][0] == nodes[idx];
    assert nodes[idx + 1..idx + 1 + SizeAll(t.kids)] == nodes[idx..idx + Size(t)][1..] == Flatten(t.kids, idx + 1);
    TreesPlaced(nodes, t.kids, idx + 1);
  }

  /** Tree `u` at `j` is a proper part of tree `t` at `i`. */
  predicate Inside(i: nat, t: Tree, j: nat, u: Tree) {
    i < j && j + Size(u) <= i + Size(t)
  }

  /** One unfold keeps the trees apart, and the unfolded node is in none of them any more. */
  lemma PlacedNext(nodes: seq<SpanNode>, queue: seq<nat>, ts: seq<Tree>)
    requires Placed(nodes, queue, ts) && queue != []
    ensures queue[0] < |nodes| && nodes[queue[0]].span == ts[0].span && |nodes[queue[0]].children| == |ts[0].kids|
    ensures var queue' := queue[1..] + nodes[queue[0]].children; |queue'| == |Next(ts)| && Placed(nodes, queue', Next(ts)) && Outside(queue[0], queue', Next(ts))
  {
    hide At, Size;
    KidsPlaced(nodes, queue[0], ts[0]);
    var kids := nodes[queue[0]].children;
    var queue', ts' := queue[1..] + kids, Next(ts);
    SizePositive();
    forall i | 0 <= i < |queue'|
      ensures At(nodes, queue'[i], ts'[i]) && (queue[0] < queue'[i] || queue'[i] + Size(ts'[i]) <= queue[0])
    {
      if i < |queue| - 1 {
        assert queue'[i] == queue[i + 1] && ts'[i] == ts[i + 1] && Away(queue[0], ts[0], queue[i + 1], ts[i + 1]);
      } else {
        assert queue'[i] == kids[i - (|queue| - 1)] && ts'[i] == ts[0].kids[i - (|queue| - 1)];
      }
    }
    forall i, j | 0 <= i < j < |queue'| ensures Away(queue'[i], ts'[i], queue'[j], ts'[j]) {
      AwayNext(queue, ts, kids, i, j);
    }
  }

  lemma SizePositive()
    ensures forall t :: Size(t) >= 1
  {
  }

  lemma AwayNext(queue: seq<nat>, ts: seq<Tree>, kids: seq<nat>, i: nat, j: nat)
    requires |queue| == |ts| > 0 && |kids| == |ts[0].kids| && i < j < |queue| - 1 + |kids|
    requires forall i, j :: 0 <= i < j < |queue| ==> Away(queue[i], ts[i], queue[j], ts[j])
    requires forall i, j :: 0 <= i < j < |kids| ==> Away(kids[i], ts[0].kids[i], kids[j], ts[0].kids[j])
    requires forall i :: 0 <= i < |kids| ==> Inside(queue[0], ts[0], kids[i], ts[0].kids[i])
    ensures var queue', ts' := queue[1..] + kids, Next(ts); Away(queue'[i], ts'[i], queue'[j], ts'[j])
  {
    hide Size;
    var n := |queue| - 1;
    if j < n {
      assert Away(queue[i + 1], ts[i + 1], queue[j + 1], ts[j + 1]);
    } else if i < n {
      assert Inside(queue[0], ts[0], kids[j - n], ts[0].kids[j - n]);
      assert Away(queue[0], ts[0], queue[i + 1], ts[i + 1]);
    } else {
      assert Away(kids[i - n], ts[0].kids[i - n], kids[j - n], ts[0].kids[j - n]);
    }
  }

  /** A node that is in none of the trees stays outside when one of them is unfolded. */
  lemma OutsideNext(nodes: seq<SpanNode>, queue: seq<nat>, ts: seq<Tree>, p: nat)
    requires Placed(nodes, queue, ts) && queue != [] && Outside(p, queue, ts)
    requires queue[0] < |nodes| && |nodes[queue[0]].children| == |ts[0].kids|
    ensures Outside(p, queue[1..] + nodes[queue[0]].children, Next(ts))
  {
    hide At, Size;
    KidsPlaced(nodes, queue[0], ts[0]);
    var kids, n := nodes[queue[0]].children, |queue| - 1;
    var queue', ts' := queue[1..] + kids, Next(ts);
    forall i | 0 <= i < |queue'| ensures p < queue'[i] || queue'[i] + Size(ts'[i]) <= p {
      if i < n {
        assert queue'[i] == queue[i + 1] && ts'[i] == ts[i + 1];
      } else {
        assert Inside(queue[0], ts[0], kids[i - n], ts[0].kids[i - n]);
      }
    }
  }

  /** Every step uses up one node. */
  lemma SizeNext(q: seq<Tree>)
    requires q != []
    ensures SizeAll(Next(q)) == SizeAll(q) - 1
  {
    SizeConcat(q[1..], q[0].kids);
    SizeConcat([q[0]], q[1..]);
    FlattenSingle(q[0], 0);
    assert [q[0]] + q[1..] == q;
  }

  predicate NoRepeats(s: seq<nat>) {
    forall i, j :: 0 <= i < j < |s| ==> s[i] != s[j]
  }

  /** Whatever went through the queue and whatever is still in it are all different nodes. */
  lemma QueuedOnce(nodes: seq<SpanNode>, done: seq<nat>, queue: seq<nat>, ts: seq<Tree>)
    requires Placed(nodes, queue, ts) && NoRepeats(done) && forall p :: p in done ==> Outside(p, queue, ts)
    ensures NoRepeats(done + queue) && forall i :: 0 <= i < |queue| ==> queue[i] < |nodes|
  {
    hide Size;
    SizePositive();
    var all := done + queue;
    forall i, j | 0 <= i < j < |all| ensures all[i] != all[j] {
      if i < |done| && j >= |done| {
        assert Outside(all[i], queue, ts);
      } else if i >= |done| {
        assert Away(queue[i - |done|], ts[i - |done|], queue[j - |done|], ts[j - |done|]);
      }
    }
    forall i | 0 <= i < |queue| ensures queue[i] < |nodes| { assert At(nodes, queue[i], ts[i]); }
  }

  function Members(s: seq<nat>): set<nat> {
    set x | x in s
  }

  ghost predicate SameMembers(folded: set<nat>, queue: seq<nat>) {
    forall x :: x in folded <==> x in queue
  }

  method SumSpans(nodes: seq<SpanNode>, list: seq<nat>, ghost ts: seq<Tree>) returns (sum: nat)
    requires Placed(nodes, list, ts)
    ensures sum == SumLines(ts)
  {
    hide At, Size;
    sum := 0;
    for i := 0 to |list|
      invariant sum == SumLines(ts[..i])
    {
      KidsPlaced(nodes, list[i], ts[i]);
      assert ts[..i + 1][..i] == ts[..i];
      sum := sum + nodes[list[i]].span.Lines();
    }
    assert ts[..|list|] == ts;
  }

  /** The spans of a set of nodes, in no particular order. */
  method SpansOfNodes(nodes: seq<SpanNode>, folded: set<nat>, ghost queue: seq<nat>, ghost ts: seq<Tree>) returns (spans: seq<LineSpan>)
    requires Placed(nodes, queue, ts) && SameMembers(folded, queue)
    ensures forall s :: s in spans <==> s in SpansOf(ts)
  {
    hide Size;
    spans := [];
    var rest := folded;
    forall i | 0 <= i < |queue| ensures queue[i] < |nodes| && nodes[queue[i]].span == ts[i].span { KidsPlaced(nodes, queue[i], ts[i]); }
    hide At;
    while rest != {}
      invariant rest <= folded
      invariant forall s :: s in spans <==> exists i :: i in folded && i !in rest && nodes[i].span == s
    {
      var i :| i in rest;
      spans, rest := spans + [nodes[i].span], rest - {i};
    }
    forall s | s in SpansOf(ts) ensures s in spans {
      var i :| 0 <= i < |SpansOf(ts)| && SpansOf(ts)[i] == s;
      assert queue[i] in folded && nodes[queue[i]].span == s;
    }
    forall s | s in spans ensures s in SpansOf(ts) {
      var x :| x in folded && nodes[x].span == s;
      var i :| 0 <= i < |queue| && queue[i] == x;
      assert SpansOf(ts)[i] == s;
    }
  }

  /** What unfolding the first of the queue reveals: its lines less those its children keep folded. */
  method Gain(nodes: seq<SpanNode>, idx: nat, ghost queue: seq<nat>, ghost q: seq<Tree>) returns (gain: nat)
    requires Placed(nodes, queue, q) && queue != [] && idx == queue[0]
    ensures gain == Revealed(q) && idx < |nodes|
  {
    hide At, Size;
    KidsPlaced(nodes, idx, q[0]);
    var node := nodes[idx];
    var childLines := SumSpans(nodes, node.children, q[0].kids);
    gain := Minus(node.span.Lines(), childLines);
  }

  lemma Shrinks(ts: seq<Tree>, total: nat, until: nat, limit: nat, k: nat)
    requires !Stops(ts, total, until, limit, k)
    ensures SizeAll(Frontier(ts, k + 1)) < SizeAll(Frontier(ts, k))
  {
    hide SizeAll, Revealed, VisibleAt;
    SizeNext(Frontier(ts, k));
  }

  /** The first point, from `k` on, where the loop stops. */
  ghost function StopFrom(ts: seq<Tree>, total: nat, until: nat, limit: nat, k: nat): (r: nat)
    ensures r >= k && Stops(ts, total, until, limit, r) && forall j: nat :: k <= j < r ==> !Stops(ts, total, until, limit, j)
    decreases SizeAll(Frontier(ts, k))
  {
    if Stops(ts, total, until, limit, k) then k else
      Shrinks(ts, total, until, limit, k);
      StopFrom(ts, total, until, limit, k + 1)
  }

  /** How many spans are unfolded. */
  ghost function Unfolds(ts: seq<Tree>, total: nat, until: nat, limit: nat): (k: nat)
    ensures StopsAt(ts, total, until, limit, k)
  {
    StopFrom(ts, total, until, limit, 0)
  }

  /** There is only one place to stop. */
  lemma StopsOnce(ts: seq<Tree>, total: nat, until: nat, limit: nat, k: nat)
    requires StopsAt(ts, total, until, limit, k)
    ensures k == Unfolds(ts, total, until, limit)
  {
    assert StopsAt(ts, total, until, limit, Unfolds(ts, total, until, limit));
  }

  /** The spans that stay folded. */
  ghost function FoldedSpans(ts: seq<Tree>, total: nat, until: nat, limit: nat): seq<LineSpan> {
    SpansOf(Frontier(ts, Unfolds(ts, total, until, limit)))
  }

  /** The state after `k` unfolds: the nodes done, and the queue of the folded ones. */
  ghost predicate Run(nodes: seq<SpanNode>, ts: seq<Tree>, done: seq<nat>, queue: seq<nat>, folded: set<nat>, k: nat) {
    && |queue| == |Frontier(ts, k)| && Placed(nodes, queue, Frontier(ts, k)) && SameMembers(folded, queue)
    && |done| == k && NoRepeats(done) && forall p :: p in done ==> Outside(p, queue, Frontier(ts, k))
  }

  lemma RunStarts(nodes: seq<SpanNode>, ts: seq<Tree>, roots: seq<nat>)
    requires nodes == Flatten(ts, 0) && roots == Indices(ts, 0)
    ensures Run(nodes, ts, [], roots, Members(roots), 0)
  {
    FlattenSize(ts, 0);
    hide Flatten, Indices, Size, At;
    assert nodes[0..0 + SizeAll(ts)] == nodes;
    TreesPlaced(nodes, ts, 0);
  }

  lemma RunNext(nodes: seq<SpanNode>, ts: seq<Tree>, done: seq<nat>, queue: seq<nat>, folded: set<nat>, k: nat)
    requires Run(nodes, ts, done, queue, folded, k) && queue != []
    ensures queue[0] < |nodes| && SizeAll(Frontier(ts, k + 1)) < SizeAll(Frontier(ts, k))
    ensures var children := nodes[queue[0]].children;
            Run(nodes, ts, done + [queue[0]], queue[1..] + children, folded - {queue[0]} + Members(children), k + 1)
  {
    hide Placed, Outside, SizeAll;
    var q := Frontier(ts, k);
    PlacedNext(nodes, queue, q);
    QueuedOnce(nodes, done, queue, q);
    forall p | p in done ensures Outside(p, queue[1..] + nodes[queue[0]].children, Next(q)) { OutsideNext(nodes, queue, q, p); }
    SizeNext(q);
    MembersNext(done, queue, folded, nodes[queue[0]].children);
  }

  lemma MembersNext(done: seq<nat>, queue: seq<nat>, folded: set<nat>, children: seq<nat>)
    requires queue != [] && NoRepeats(done + queue) && SameMembers(folded, queue)
    ensures SameMembers(folded - {queue[0]} + Members(children), queue[1..] + children) && NoRepeats(done + [queue[0]])
  {
    assert forall i :: 0 <= i < |queue| ==> (done + queue)[|done| + i] == queue[i];
    assert forall i :: 0 <= i <= |done| ==> (done + [queue[0]])[i] == (done + queue)[i];
  }

  /**
   The unfold loop on the arena: its spans are those that stay folded.  `done` are the nodes unfolded and
   `queue` the folded ones; no node ever enters the queue twice.
   */
  method SelectFolded(nodes: seq<SpanNode>, roots: seq<nat>, total: nat, until: nat, limit: nat, ghost ts: seq<Tree>)
    returns (spans: seq<LineSpan>, ghost done: seq<nat>, ghost queue: seq<nat>)
    requires nodes == Flatten(ts, 0) && roots == Indices(ts, 0)
    ensures forall s :: s in spans <==> s in FoldedSpans(ts, total, until, limit)
    ensures var k := Unfolds(ts, total, until, limit);
            NoRepeats(done + queue) && |done| == k && Placed(nodes, queue, Frontier(ts, k))
  {
    RunStarts(nodes, ts, roots);
    var folded := Members(roots);
    done, queue := [], roots;
    if until == 0 || folded == {} {
      if roots != [] { assert roots[0] in folded; }
      hide Placed, Outside, Flatten, Indices;
      StopsOnce(ts, total, until, limit, 0);
      QueuedOnce(nodes, [], roots, ts);
      spans := SpansOfNodes(nodes, folded, roots, ts);
      return;
    }
    folded, done, queue := Unfolding(nodes, roots, folded, total, until, limit, ts);
    hide Placed, Outside, Flatten, Indices, Frontier;
    ghost var q := Frontier(ts, Unfolds(ts, total, until, limit));
    QueuedOnce(nodes, done, queue, q);
    spans := SpansOfNodes(nodes, folded, queue, q);
  }

  method Unfolding(nodes: seq<SpanNode>, roots: seq<nat>, start: set<nat>, total: nat, until: nat, limit: nat, ghost ts: seq<Tree>)
    returns (folded: set<nat>, ghost done: seq<nat>, ghost queue: seq<nat>)
    requires Run(nodes, ts, [], roots, start, 0)
    ensures Run(nodes, ts, done, queue, folded, Unfolds(ts, total, until, limit))
  {
    hide Placed, Outside, SumLines, Revealed, Run;
    assert Placed(nodes, roots, ts) by { RunLength(nodes, ts, [], roots, start, 0); }
    folded, done, queue := start, [], roots;
    ghost var k := 0;
    var sum := SumSpans(nodes, roots, ts);
    var visible := Minus(total, sum);
    var pending := roots;
    while pending != []
      invariant pending == queue && Run(nodes, ts, done, queue, folded, k)
      invariant visible == VisibleAt(ts, total, k)
      invariant forall j: nat :: j < k ==> !Stops(ts, total, until, limit, j)
      decreases SizeAll(Frontier(ts, k))
    {
      RunLength(nodes, ts, done, queue, folded, k);
      var idx := pending[0];
      pending := pending[1..];
      if visible >= until { break; }
      if idx !in folded { assert false; }
      var gain := Gain(nodes, idx, queue, Frontier(ts, k));
      var newVisible := visible + gain;
      if newVisible > limit { break; }
      RunNext(nodes, ts, done, queue, folded, k);
      var children := nodes[idx].children;
      folded := folded - {idx} + Members(children);
      pending := pending + children;
      visible := newVisible;
      done, queue, k := done + [idx], pending, k + 1;
    }
    RunLength(nodes, ts, done, queue, folded, k);
    StopsOnce(ts, total, until, limit, k);
  }

  lemma RunLength(nodes: seq<SpanNode>, ts: seq<Tree>, done: seq<nat>, queue: seq<nat>, folded: set<nat>, k: nat)
    requires Run(nodes, ts, done, queue, folded, k)
    ensures |queue| == |Frontier(ts, k)| && Placed(nodes, queue, Frontier(ts, k)) && SameMembers(folded, queue)
  {
  }
}
