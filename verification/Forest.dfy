/**
 The forest of elidable spans: the arena that the collector fills in place, and the ordered trees it
 stands for.
 */
module Forest {
  import opened Options
  import opened Spans

  // ----- the parsed source, as far as the collector looks at it --------------------

  /** Lines count from 1.  `contentEnd` is the last line holding a byte of the node. */
  datatype Node = Node(startLine: nat, endLine: nat, contentEnd: nat, comment: bool, elidable: bool, groupable: bool, children: seq<Node>) {
    function LineCount(): nat {
      (if endLine < startLine then 0 else endLine - startLine) + 1
    }
  }

  /** Ranges are not empty, lie inside their parent's, and follow one another. */
  predicate Nested(node: Node) {
    && 1 <= node.startLine <= node.contentEnd <= node.endLine
    && (forall i :: 0 <= i < |node.children| ==> Nested(node.children[i]))
    && (forall i :: 0 <= i < |node.children| ==> node.startLine <= node.children[i].startLine && node.children[i].endLine <= node.endLine)
    && (forall i, j :: 0 <= i < j < |node.children| ==> node.children[i].endLine <= node.children[j].startLine)
  }

  predicate NoneGroupable(node: Node) {
    forall i :: 0 <= i < |node.children| ==> !node.children[i].groupable && NoneGroupable(node.children[i])
  }

  function Pred(n: nat): nat {
    if n == 0 then 0 else n - 1
  }

  // ----- what is elidable, as trees --------------------------------------------------

  datatype Tree = Tree(span: LineSpan, kids: seq<Tree>)

  /** The trees that a node adds to those of its nearest elidable ancestor. */
  function Elidable(node: Node, minBody: nat, minComment: nat): seq<Tree>
    decreases node, 1
  {
    if node.comment then
      if node.LineCount() >= minComment && node.startLine + 2 <= Pred(node.endLine)
      then [Tree(LineSpan(node.startLine + 2, Pred(node.endLine)), [])] else []
    else
      var inner := Leaves(RunSpans(node.children, minBody, 0)) + Below(node, minBody, minComment, |node.children|);
      if IsBody(node, minBody) then [Tree(BodySpan(node), inner)] else inner
  }

  predicate IsBody(node: Node, minBody: nat) {
    node.elidable && node.LineCount() >= minBody && node.startLine + 1 <= Pred(node.endLine)
  }

  function BodySpan(node: Node): LineSpan {
    LineSpan(node.startLine + 1, Pred(node.endLine))
  }

  function Below(node: Node, minBody: nat, minComment: nat, n: nat): seq<Tree>
    requires n <= |node.children|
    decreases node, 0, n
  {
    if n == 0 then [] else Below(node, minBody, minComment, n - 1) + Elidable(node.children[n - 1], minBody, minComment)
  }

  function Leaves(spans: seq<LineSpan>): (ts: seq<Tree>)
    ensures |ts| == |spans| && forall i :: 0 <= i < |ts| ==> ts[i] == Tree(spans[i], [])
  {
    if spans == [] then [] else Leaves(spans[..|spans| - 1]) + [Tree(spans[|spans| - 1], [])]
  }

  /** Where the run of groupable siblings that starts at `i` ends. */
  function RunEnd(children: seq<Node>, i: nat): (e: nat)
    requires i <= |children|
    ensures i <= e <= |children| && (forall k :: i <= k < e ==> children[k].groupable)
    ensures e < |children| ==> !children[e].groupable
    decreases |children| - i
  {
    if i < |children| && children[i].groupable then RunEnd(children, i + 1) else i
  }

  /** The spans of the maximal runs of groupable siblings from position `i` on. */
  function RunSpans(children: seq<Node>, minBody: nat, i: nat): seq<LineSpan>
    requires i <= |children|
    decreases |children| - i
  {
    if i == |children| then []
    else if !children[i].groupable then RunSpans(children, minBody, i + 1)
    else
      var e := RunEnd(children, i + 1);
      RunSpan(children[i], children[e - 1], e - i, minBody) + RunSpans(children, minBody, e)
  }

  /** The lines between the first and the last of a run, if the run is long enough and there are any. */
  function RunSpan(first: Node, last: Node, count: nat, minBody: nat): (r: seq<LineSpan>)
    ensures |r| <= 1
  {
    if count < 2 || (if last.endLine < first.startLine then 0 else last.endLine - first.startLine) + 1 < minBody then [] else
      var firstEnd := if first.contentEnd < Pred(last.startLine) then first.contentEnd else Pred(last.startLine);
      if firstEnd + 1 <= Pred(last.startLine) then [LineSpan(firstEnd + 1, Pred(last.startLine))] else []
  }

  // ----- the arena -------------------------------------------------------------------

  datatype SpanNode = SpanNode(span: LineSpan, children: seq<nat>)
  datatype Arena = Arena(nodes: seq<SpanNode>, roots: seq<nat>)

  function Size(t: Tree): nat
    decreases t
  {
    1 + SizeAll(t.kids)
  }

  function SizeAll(ts: seq<Tree>): nat
    decreases ts
  {
    if ts == [] then 0 else SizeAll(ts[..|ts| - 1]) + Size(ts[|ts| - 1])
  }

  /** The trees one after the other, each in preorder, from index `at` on. */
  function Flatten(ts: seq<Tree>, at: nat): seq<SpanNode>
    decreases ts
  {
    if ts == [] then [] else
      var init := ts[..|ts| - 1];
      Flatten(init, at) + FlattenOne(ts[|ts| - 1], at + SizeAll(init))
  }

  function FlattenOne(t: Tree, at: nat): seq<SpanNode>
    decreases t
  {
    [SpanNode(t.span, Indices(t.kids, at + 1))] + Flatten(t.kids, at + 1)
  }

  /** Where the trees start. */
  function Indices(ts: seq<Tree>, at: nat): (r: seq<nat>)
    ensures |r| == |ts|
  {
    if ts == [] then [] else
      var init := ts[..|ts| - 1];
      Indices(init, at) + [at + SizeAll(init)]
  }

  lemma {:induction false} SizeConcat(a: seq<Tree>, b: seq<Tree>)
    ensures SizeAll(a + b) == SizeAll(a) + SizeAll(b)
  {
    if b == [] {
      assert a + b == a;
    } else {
      assert (a + b)[..|a + b| - 1] == a + b[..|b| - 1];
      SizeConcat(a, b[..|b| - 1]);
    }
  }

  lemma {:induction false} FlattenConcat(a: seq<Tree>, b: seq<Tree>, at: nat)
    ensures Flatten(a + b, at) == Flatten(a, at) + Flatten(b, at + SizeAll(a))
    ensures Indices(a + b, at) == Indices(a, at) + Indices(b, at + SizeAll(a))
  {
    hide FlattenOne, Size;
    if b == [] {
      assert a + b == a;
    } else {
      var init := b[..|b| - 1];
      assert (a + b)[..|a + b| - 1] == a + init;
      FlattenConcat(a, init, at);
      SizeConcat(a, init);
    }
  }

  lemma {:induction false} FlattenSize(ts: seq<Tree>, at: nat)
    ensures |Flatten(ts, at)| == SizeAll(ts)
    decreases ts
  {
    hide Indices;
    if ts != [] {
      FlattenSize(ts[..|ts| - 1], at);
      FlattenSize(ts[|ts| - 1].kids, at + SizeAll(ts[..|ts| - 1]) + 1);
    }
  }

  /** The arena after the trees `ts` were added under `parent`. */
  function Grow(a: Arena, parent: Option<nat>, ts: seq<Tree>): Arena
    requires parent.Some? ==> parent.value < |a.nodes|
  {
    var list := Indices(ts, |a.nodes|);
    match parent
    case None => Arena(a.nodes + Flatten(ts, |a.nodes|), a.roots + list)
    case Some(p) =>
      var node := a.nodes[p];
      Arena(a.nodes[p := node.(children := node.children + list)] + Flatten(ts, |a.nodes|), a.roots)
  }

  lemma GrowNothing(a: Arena, parent: Option<nat>)
    requires parent.Some? ==> parent.value < |a.nodes|
    ensures Grow(a, parent, []) == a
  {
    assert a.roots + [] == a.roots;
    if parent.Some? {
      var node := a.nodes[parent.value];
      assert node.children + [] == node.children;
    }
  }

  lemma FlattenSingle(t: Tree, at: nat)
    ensures Flatten([t], at) == FlattenOne(t, at) && Indices([t], at) == [at] && SizeAll([t]) == Size(t)
  {
    hide FlattenOne, Size;
    var empty := [t][..0];
    assert Flatten(empty, at) == [] && Indices(empty, at) == [] && SizeAll(empty) == 0;
  }

  lemma FlattenLeaf(span: LineSpan, at: nat)
    ensures Flatten([Tree(span, [])], at) == [SpanNode(span, [])] && SizeAll([Tree(span, [])]) == 1
  {
    FlattenSingle(Tree(span, []), at);
    assert Flatten([], at + 1) == [];
  }

  lemma GrowTwice(a: Arena, parent: Option<nat>, ts: seq<Tree>, us: seq<Tree>)
    requires parent.Some? ==> parent.value < |a.nodes|
    ensures |Grow(a, parent, ts).nodes| == |a.nodes| + SizeAll(ts)
    ensures Grow(Grow(a, parent, ts), parent, us) == Grow(a, parent, ts + us)
  {
    hide Flatten, Indices, SizeAll;
    var at := |a.nodes|;
    FlattenSize(ts, at);
    FlattenConcat(ts, us, at);
    var x, y := Flatten(ts, at), Flatten(us, at + SizeAll(ts));
    var i, j := Indices(ts, at), Indices(us, at + SizeAll(ts));
    match parent {
      case None =>
        assert (a.nodes + x) + y == a.nodes + (x + y) && (a.roots + i) + j == a.roots + (i + j);
      case Some(p) =>
        var node := a.nodes[p];
        assert (node.children + i) + j == node.children + (i + j);
        var once := node.(children := node.children + i);
        var twice := node.(children := node.children + (i + j));
        assert (a.nodes[p := once] + x)[p := twice] + y == a.nodes[p := twice] + (x + y);
    }
  }

  /** A body is pushed first, and what is inside it goes under it. */
  lemma GrowNode(a: Arena, parent: Option<nat>, span: LineSpan, kids: seq<Tree>)
    requires parent.Some? ==> parent.value < |a.nodes|
    ensures |Grow(a, parent, [Tree(span, [])]).nodes| == |a.nodes| + 1
    ensures Grow(Grow(a, parent, [Tree(span, [])]), Some(|a.nodes|), kids) == Grow(a, parent, [Tree(span, kids)])
  {
    var at := |a.nodes|;
    FlattenLeaf(span, at);
    FlattenSingle(Tree(span, []), at);
    FlattenSingle(Tree(span, kids), at);
    assert FlattenOne(Tree(span, kids), at) == [SpanNode(span, Indices(kids, at + 1))] + Flatten(kids, at + 1);
    assert [] + Indices(kids, at + 1) == Indices(kids, at + 1);
    GrowNodeAt(if parent.Some? then a.nodes[parent.value := a.nodes[parent.value].(children := a.nodes[parent.value].children + [at])] else a.nodes,
               at, SpanNode(span, []), SpanNode(span, Indices(kids, at + 1)), Flatten(kids, at + 1));
  }

  lemma GrowNodeAt(nodes: seq<SpanNode>, at: nat, leaf: SpanNode, full: SpanNode, rest: seq<SpanNode>)
    requires at == |nodes|
    ensures (nodes + [leaf])[at := full] + rest == nodes + ([full] + rest)
  {
  }

  class ElidableForest {
    var nodes: seq<SpanNode>
    var roots: seq<nat>

    constructor ()
      ensures nodes == [] && roots == []
    {
      nodes, roots := [], [];
    }

    ghost function Contents(): Arena
      reads this
    {
      Arena(nodes, roots)
    }

    method Push(parent: Option<nat>, span: LineSpan) returns (idx: nat)
      requires parent.Some? ==> parent.value < |nodes|
      modifies this
      ensures idx == old(|nodes|) && |nodes| == idx + 1
      ensures Contents() == Grow(old(Contents()), parent, [Tree(span, [])])
    {
      FlattenLeaf(span, |nodes|);
      FlattenSingle(Tree(span, []), |nodes|);
      hide Flatten, Indices;
      idx := |nodes|;
      nodes := nodes + [SpanNode(span, [])];
      match parent {
        case None => roots := roots + [idx];
        case Some(p) =>
          assert nodes[p] == old(nodes)[p];
          nodes := nodes[p := nodes[p].(children := nodes[p].children + [idx])];
          assert nodes == old(nodes)[p := nodes[p]] + [SpanNode(span, [])];
      }
    }

    /** Adds the elidable spans of a node and of everything below it. */
    method Collect(node: Node, parent: Option<nat>, minBody: nat, minComment: nat)
      requires parent.Some? ==> parent.value < |nodes|
      modifies this
      ensures Contents() == Grow(old(Contents()), parent, Elidable(node, minBody, minComment))
      decreases node
    {
      hide Grow, RunSpans, Flatten, Indices;
      if node.comment {
        if node.LineCount() >= minComment && node.startLine + 2 <= Pred(node.endLine) {
          var _ := Push(parent, LineSpan(node.startLine + 2, Pred(node.endLine)));
        } else {
          GrowNothing(Contents(), parent);
        }
        return;
      }
      if IsBody(node, minBody) {
        GrowNode(Contents(), parent, BodySpan(node), Leaves(RunSpans(node.children, minBody, 0)) + Below(node, minBody, minComment, |node.children|));
        var current := Push(parent, BodySpan(node));
        CollectInside(node, Some(current), minBody, minComment);
      } else {
        CollectInside(node, parent, minBody, minComment);
      }
    }

    method CollectInside(node: Node, parent: Option<nat>, minBody: nat, minComment: nat)
      requires parent.Some? ==> parent.value < |nodes|
      modifies this
      ensures Contents() == Grow(old(Contents()), parent,
                                 Leaves(RunSpans(node.children, minBody, 0)) + Below(node, minBody, minComment, |node.children|))
      decreases node, 0
    {
      hide Grow, RunSpans, Flatten, Indices, SizeAll, Elidable;
      ghost var start, runs := Contents(), Leaves(RunSpans(node.children, minBody, 0));
      CollectRuns(node.children, parent, minBody);
      GrowTwice(start, parent, runs, []);
      assert runs + [] == runs;
      for index := 0 to |node.children|
        invariant parent.Some? ==> parent.value < |nodes|
        invariant Contents() == Grow(start, parent, runs + Below(node, minBody, minComment, index))
      {
        ghost var done := runs + Below(node, minBody, minComment, index);
        ghost var more := Elidable(node.children[index], minBody, minComment);
        Collect(node.children[index], parent, minBody, minComment);
        GrowTwice(start, parent, done, more);
        GrowTwice(start, parent, done + more, []);
        assert done + more == runs + Below(node, minBody, minComment, index + 1);
      }
    }

    /** One pass over the children, flushing a run whenever it is interrupted. */
    method CollectRuns(children: seq<Node>, parent: Option<nat>, minBody: nat)
      requires parent.Some? ==> parent.value < |nodes|
      modifies this
      ensures Contents() == Grow(old(Contents()), parent, Leaves(RunSpans(children, minBody, 0)))
      ensures parent.Some? ==> parent.value < |nodes|
    {
      ghost var start, done := Contents(), [];
      hide Grow, Flatten, Indices, SizeAll, RunSpan, RunSpans, RunEnd, Pending, InRuns;
      GrowNothing(start, parent);
      RunsStart(children, minBody);
      var first: Option<Node>, last: Option<Node>, count := None, None, 0;
      for index := 0 to |children|
        invariant parent.Some? ==> parent.value < |nodes|
        invariant count <= index && Contents() == Grow(start, parent, Leaves(done))
        invariant if count == 0 then first == None && last == None
                  else first == Some(children[index - count]) && last == Some(children[index - 1])
        invariant InRuns(done, children, minBody, index, count)
      {
        var child := children[index];
        if child.groupable {
          if first == None { first := Some(child); }
          last := Some(child);
          RunGoesOn(done, children, minBody, index, count);
          count := count + 1;
        } else {
          RunBreaks(done, children, minBody, index, count);
          done := FlushRun(first, last, count, minBody, parent, start, done);
          first, last, count := None, None, 0;
        }
      }
      RunsEnd(done, children, minBody, count);
      done := FlushRun(first, last, count, minBody, parent, start, done);
    }

    method FlushRun(first: Option<Node>, last: Option<Node>, count: nat, minBody: nat, parent: Option<nat>,
                    ghost start: Arena, ghost done: seq<LineSpan>) returns (ghost done': seq<LineSpan>)
      requires parent.Some? ==> parent.value < |nodes| && parent.value < |start.nodes|
      requires Contents() == Grow(start, parent, Leaves(done))
      requires count > 0 ==> first.Some? && last.Some?
      modifies this
      ensures done' == done + if count == 0 then [] else RunSpan(first.value, last.value, count, minBody)
      ensures Contents() == Grow(start, parent, Leaves(done')) && |nodes| >= old(|nodes|)
    {
      hide Grow, Flatten, Indices, SizeAll;
      done' := done;
      if count < 2 || first == None || last == None {
        return;
      }
      var spans := RunSpan(first.value, last.value, count, minBody);
      if spans != [] {
        var _ := Push(parent, spans[0]);
        done' := done + spans;
        assert Leaves(done') == Leaves(done) + [Tree(spans[0], [])];
        GrowTwice(start, parent, Leaves(done), [Tree(spans[0], [])]);
      }
    }
  }

  function Flushed(children: seq<Node>, minBody: nat, index: nat, count: nat): seq<LineSpan>
    requires count <= index <= |children|
  {
    if count == 0 then [] else RunSpan(children[index - count], children[index - 1], count, minBody)
  }

  /** What is still to come when `count` siblings before `index` form an open run. */
  function Pending(children: seq<Node>, minBody: nat, index: nat, count: nat): seq<LineSpan>
    requires count <= index <= |children|
  {
    var e := RunEnd(children, index);
    if count == 0 then RunSpans(children, minBody, index)
    else RunSpan(children[index - count], children[e - 1], e - (index - count), minBody) + RunSpans(children, minBody, e)
  }

  /** What was flushed and what is still to come are the spans of the runs. */
  ghost predicate InRuns(done: seq<LineSpan>, children: seq<Node>, minBody: nat, index: nat, count: nat)
    requires count <= index <= |children|
  {
    RunSpans(children, minBody, 0) == done + Pending(children, minBody, index, count)
  }

  lemma RunsStart(children: seq<Node>, minBody: nat)
    ensures InRuns([], children, minBody, 0, 0)
  {
    assert [] + RunSpans(children, minBody, 0) == RunSpans(children, minBody, 0);
  }

  /** Another groupable sibling only makes the open run longer. */
  lemma RunGoesOn(done: seq<LineSpan>, children: seq<Node>, minBody: nat, index: nat, count: nat)
    requires count <= index < |children| && children[index].groupable && InRuns(done, children, minBody, index, count)
    ensures InRuns(done, children, minBody, index + 1, count + 1)
  {
    PendingGrows(children, minBody, index, count);
    hide Pending, RunSpans;
  }

  lemma PendingGrows(children: seq<Node>, minBody: nat, index: nat, count: nat)
    requires count <= index < |children| && children[index].groupable
    ensures Pending(children, minBody, index, count) == Pending(children, minBody, index + 1, count + 1)
  {
    var e := RunEnd(children, index);
    assert e == RunEnd(children, index + 1);
    if count == 0 { RunSpansUnfold(children, minBody, index); }
    hide RunSpan, RunSpans, RunEnd;
  }

  lemma RunSpansUnfold(children: seq<Node>, minBody: nat, i: nat)
    requires i < |children| && children[i].groupable
    ensures var e := RunEnd(children, i + 1);
            RunSpans(children, minBody, i) == RunSpan(children[i], children[e - 1], e - i, minBody) + RunSpans(children, minBody, e)
  {
  }

  /** Any other sibling closes it. */
  lemma RunBreaks(done: seq<LineSpan>, children: seq<Node>, minBody: nat, index: nat, count: nat)
    requires count <= index < |children| && !children[index].groupable && InRuns(done, children, minBody, index, count)
    ensures InRuns(done + Flushed(children, minBody, index, count), children, minBody, index + 1, 0)
  {
    hide RunSpan;
    var now, later := Flushed(children, minBody, index, count), RunSpans(children, minBody, index + 1);
    assert RunSpans(children, minBody, index) == later;
    assert Pending(children, minBody, index, count) == now + later;
    assert done + (now + later) == done + now + later;
  }

  lemma RunsEnd(done: seq<LineSpan>, children: seq<Node>, minBody: nat, count: nat)
    requires count <= |children| && InRuns(done, children, minBody, |children|, count)
    ensures done + Flushed(children, minBody, |children|, count) == RunSpans(children, minBody, 0)
  {
    hide RunSpan;
    var now := Flushed(children, minBody, |children|, count);
    assert RunSpans(children, minBody, |children|) == [] && now + [] == now;
  }
}
