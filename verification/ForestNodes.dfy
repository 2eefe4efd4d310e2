/** The forest of spans in terms of the source's nodes: which of them it holds, and where. */
module ForestNodes {
  import opened Options
  import opened Spans
  import opened Forest

  // ----- nodes and what they fold ---------------------------------------------------------

  /** Where a span comes from: the body of a node, a comment, or the children from `first` up to `end` of a node. */
  datatype Origin = Body(path: seq<nat>) | Comment(path: seq<nat>) | Run(path: seq<nat>, first: nat, end: nat)

  /** The path, of positions among siblings, leads to a node, and through no comment. */
  predicate Leads(root: Node, path: seq<nat>)
    decreases |path|
  {
    path == [] || (!root.comment && path[0] < |root.children| && Leads(root.children[path[0]], path[1..]))
  }

  function At(root: Node, path: seq<nat>): Node
    requires Leads(root, path)
    decreases |path|
  {
    if path == [] then root else At(root.children[path[0]], path[1..])
  }

  /** A node whose body is folded: elidable, long enough, and with a line between its first and its last. */
  predicate FoldsBody(root: Node, minBody: nat, path: seq<nat>) {
    Leads(root, path) && var node := At(root, path);
    !node.comment && node.elidable && node.endLine - node.startLine + 1 >= minBody && node.startLine + 2 <= node.endLine
  }

  /** The children from `first` up to `end` are groupable, and those beside them are not. */
  predicate MaximalRun(children: seq<Node>, first: nat, end: nat) {
    && first < end <= |children| && (forall i :: first <= i < end ==> children[i].groupable)
    && (first > 0 ==> !children[first - 1].groupable) && (end < |children| ==> !children[end].groupable)
  }

  /** What is folded, and which lines. */
  predicate Folds(root: Node, minBody: nat, minComment: nat, o: Origin, span: LineSpan) {
    Leads(root, o.path) && var node := At(root, o.path);
    match o
    case Body(_) => FoldsBody(root, minBody, o.path) && span.start == node.startLine + 1 && span.end == node.endLine - 1
    case Comment(_) =>
      && node.comment && node.endLine - node.startLine + 1 >= minComment && node.startLine + 3 <= node.endLine
      && span.start == node.startLine + 2 && span.end == node.endLine - 1
    case Run(_, first, end) =>
      && !node.comment && MaximalRun(node.children, first, end) && end - first >= 2
      && var a, b := node.children[first], node.children[end - 1];
         && b.endLine - a.startLine + 1 >= minBody && a.contentEnd + 2 <= b.startLine
         && span.start == a.contentEnd + 1 && span.end == b.startLine - 1
  }

  /** How many nodes stand above: all those that the path leads through, and for a run its node too. */
  function Depth(o: Origin): nat {
    |o.path| + if o.Run? then 1 else 0
  }

  /** `parent` is the nearest node above whose body is folded, if there is any. */
  predicate HangsUnder(root: Node, minBody: nat, o: Origin, parent: Option<seq<nat>>) {
    match parent
    case None => forall n :: 0 <= n < Depth(o) ==> !FoldsBody(root, minBody, o.path[..n])
    case Some(p) =>
      && |p| < Depth(o) && p == o.path[..|p|] && FoldsBody(root, minBody, p)
      && forall n :: |p| < n < Depth(o) ==> !FoldsBody(root, minBody, o.path[..n])
  }

  // ----- the forest, marked -------------------------------------------------------------------

  datatype Marked = Marked(origin: Origin, span: LineSpan, kids: seq<Marked>)

  function Unmarked(ms: seq<Marked>): (ts: seq<Tree>)
    ensures |ts| == |ms|
    decreases ms
  {
    if ms == [] then [] else Unmarked(ms[..|ms| - 1]) + [Tree(ms[|ms| - 1].span, Unmarked(ms[|ms| - 1].kids))]
  }

  predicate Holds(ms: seq<Marked>, o: Origin, span: LineSpan) {
    exists i :: 0 <= i < |ms| && ms[i].origin == o && ms[i].span == span
  }

  /** A place in source order; the runs of a node stand before what is below it. */
  function Place(o: Origin): seq<nat> {
    Shifted(o.path) + if o.Run? then [0, o.first] else []
  }

  function Shifted(path: seq<nat>): (r: seq<nat>)
    ensures |r| == |path|
  {
    if path == [] then [] else [path[0] + 1] + Shifted(path[1..])
  }

  predicate Less(a: seq<nat>, b: seq<nat>)
    decreases |a|
  {
    a != [] && b != [] && (a[0] < b[0] || (a[0] == b[0] && Less(a[1..], b[1..])))
  }

  predicate InOrder(ms: seq<Marked>) {
    forall i, j :: 0 <= i < j < |ms| ==> Less(Place(ms[i].origin), Place(ms[j].origin))
  }

  /** Exactly what is folded and hangs under `parent`. */
  ghost predicate HoldsExactly(root: Node, minBody: nat, minComment: nat, ms: seq<Marked>, parent: Option<seq<nat>>) {
    forall o, span :: Holds(ms, o, span) <==> Folds(root, minBody, minComment, o, span) && HangsUnder(root, minBody, o, parent)
  }

  /** One level of the forest, in source order, and all the levels below its bodies; nothing is below the others. */
  ghost predicate IsLevel(root: Node, minBody: nat, minComment: nat, ms: seq<Marked>, parent: Option<seq<nat>>)
    decreases ms, 1
  {
    HoldsExactly(root, minBody, minComment, ms, parent) && InOrder(ms) && LevelsBelow(root, minBody, minComment, ms)
  }

  ghost predicate LevelsBelow(root: Node, minBody: nat, minComment: nat, ms: seq<Marked>)
    decreases ms, 0
  {
    forall i :: 0 <= i < |ms| ==>
      if ms[i].origin.Body? then IsLevel(root, minBody, minComment, ms[i].kids, Some(ms[i].origin.path)) else ms[i].kids == []
  }

  // ----- one level down -----------------------------------------------------------------------

  function Push(k: nat, o: Origin): Origin {
    o.(path := [k] + o.path)
  }

  function PushAll(k: nat, ms: seq<Marked>): (r: seq<Marked>)
    ensures |r| == |ms|
    ensures forall i :: 0 <= i < |ms| ==> r[i] == Marked(Push(k, ms[i].origin), ms[i].span, PushAll(k, ms[i].kids))
    decreases ms
  {
    seq(|ms|, i requires 0 <= i < |ms| => Marked(Push(k, ms[i].origin), ms[i].span, PushAll(k, ms[i].kids)))
  }

  lemma LeadsDown(node: Node, k: nat, path: seq<nat>)
    requires !node.comment && k < |node.children|
    ensures Leads(node, [k] + path) <==> Leads(node.children[k], path)
    ensures Leads(node, [k] + path) ==> At(node, [k] + path) == At(node.children[k], path)
  {
    assert ([k] + path)[1..] == path;
  }

  lemma FoldsDown(node: Node, minBody: nat, minComment: nat, k: nat, o: Origin, span: LineSpan)
    requires !node.comment && k < |node.children|
    ensures Folds(node, minBody, minComment, Push(k, o), span) <==> Folds(node.children[k], minBody, minComment, o, span)
  {
    LeadsDown(node, k, o.path);
  }

  lemma BodyDown(node: Node, minBody: nat, k: nat, path: seq<nat>)
    requires !node.comment && k < |node.children|
    ensures FoldsBody(node, minBody, [k] + path) <==> FoldsBody(node.children[k], minBody, path)
  {
    LeadsDown(node, k, path);
  }

  lemma PrefixDown(node: Node, minBody: nat, k: nat, o: Origin, n: nat)
    requires !node.comment && k < |node.children| && n <= |o.path|
    ensures n + 1 <= |Push(k, o).path| && Push(k, o).path[..n + 1] == [k] + o.path[..n]
    ensures FoldsBody(node, minBody, Push(k, o).path[..n + 1]) <==> FoldsBody(node.children[k], minBody, o.path[..n])
  {
    BodyDown(node, minBody, k, o.path[..n]);
    assert Push(k, o).path[..n + 1] == [k] + o.path[..n];
  }

  /** No body is folded above, from `d` nodes down. */
  predicate NoneFrom(root: Node, minBody: nat, o: Origin, d: nat) {
    forall n :: d <= n < Depth(o) ==> !FoldsBody(root, minBody, o.path[..n])
  }

  lemma NoneDown(node: Node, minBody: nat, k: nat, o: Origin, d: nat)
    requires !node.comment && k < |node.children|
    ensures NoneFrom(node, minBody, Push(k, o), d + 1) <==> NoneFrom(node.children[k], minBody, o, d)
  {
    hide FoldsBody;
    var o' := Push(k, o);
    forall n: nat | n < Depth(o)
      ensures n <= |o.path| && n + 1 <= |o'.path|
      ensures FoldsBody(node, minBody, o'.path[..n + 1]) <==> FoldsBody(node.children[k], minBody, o.path[..n])
    {
      PrefixDown(node, minBody, k, o, n);
    }
    if NoneFrom(node.children[k], minBody, o, d) {
      forall n | d + 1 <= n < Depth(o') ensures !FoldsBody(node, minBody, o'.path[..n]) {
        assert n == (n - 1) + 1 && !FoldsBody(node.children[k], minBody, o.path[..n - 1]);
      }
    }
    if NoneFrom(node, minBody, o', d + 1) {
      forall n | d <= n < Depth(o) ensures !FoldsBody(node.children[k], minBody, o.path[..n]) { assert !FoldsBody(node, minBody, o'.path[..n + 1]); }
    }
  }

  lemma HangsIs(root: Node, minBody: nat, o: Origin, p: seq<nat>)
    ensures HangsUnder(root, minBody, o, None) <==> NoneFrom(root, minBody, o, 0)
    ensures HangsUnder(root, minBody, o, Some(p)) <==>
              |p| < Depth(o) && p == o.path[..|p|] && FoldsBody(root, minBody, p) && NoneFrom(root, minBody, o, |p| + 1)
  {
  }

  lemma HangsDown(node: Node, minBody: nat, k: nat, o: Origin, q: seq<nat>)
    requires !node.comment && k < |node.children|
    ensures HangsUnder(node, minBody, Push(k, o), Some([k] + q)) <==> HangsUnder(node.children[k], minBody, o, Some(q))
    ensures HangsUnder(node.children[k], minBody, o, None) <==>
              HangsUnder(node, minBody, Push(k, o), if FoldsBody(node, minBody, []) then Some([]) else None)
  {
    hide FoldsBody, HangsUnder, NoneFrom;
    var o' := Push(k, o);
    HangsIs(node, minBody, o', [k] + q);
    HangsIs(node.children[k], minBody, o, q);
    HangsIs(node, minBody, o', []);
    NoneDown(node, minBody, k, o, |q| + 1);
    NoneDown(node, minBody, k, o, 0);
    BodyDown(node, minBody, k, q);
    if |q| < Depth(o) { PrefixDown(node, minBody, k, o, |q|); }
    assert ([k] + q)[1..] == q && ([k] + o.path[..if |q| <= |o.path| then |q| else 0])[1..] == o.path[..if |q| <= |o.path| then |q| else 0];
    NoneAtTop(node, minBody, o');
  }

  lemma NoneAtTop(root: Node, minBody: nat, o: Origin)
    requires o.path != []
    ensures NoneFrom(root, minBody, o, 0) <==> NoneFrom(root, minBody, o, 1) && !FoldsBody(root, minBody, [])
    ensures o.path[..0] == []
  {
    assert o.path[..0] == [];
  }

  function Pop(o: Origin): Origin
    requires o.path != []
  {
    o.(path := o.path[1..])
  }

  lemma PopPush(k: nat, o: Origin)
    ensures Push(k, o).path != [] && Push(k, o).path[0] == k && Pop(Push(k, o)) == o
    ensures o.path != [] && o.path[0] == k ==> Push(k, Pop(o)) == o
  {
    assert ([k] + o.path)[1..] == o.path;
    if o.path != [] { assert [o.path[0]] + o.path[1..] == o.path; }
  }

  lemma HoldsDown(k: nat, ms: seq<Marked>, o: Origin, span: LineSpan)
    ensures Holds(PushAll(k, ms), o, span) <==> o.path != [] && o.path[0] == k && Holds(ms, Pop(o), span)
  {
    hide PushAll;
    PopPush(k, o);
    var r := PushAll(k, ms);
    if Holds(r, o, span) {
      var i :| 0 <= i < |r| && r[i].origin == o && r[i].span == span;
      PopPush(k, ms[i].origin);
    }
    if o.path != [] && o.path[0] == k && Holds(ms, Pop(o), span) {
      var i :| 0 <= i < |ms| && ms[i].origin == Pop(o) && ms[i].span == span;
      assert r[i].origin == o;
    }
  }

  lemma PlaceDown(k: nat, a: Origin, b: Origin)
    requires Less(Place(a), Place(b))
    ensures Less(Place(Push(k, a)), Place(Push(k, b)))
  {
    PlacePush(k, a);
    PlacePush(k, b);
  }

  lemma PlacePush(k: nat, o: Origin)
    ensures Place(Push(k, o)) == [k + 1] + Place(o) && Place(Push(k, o))[1..] == Place(o)
  {
    assert ([k] + o.path)[1..] == o.path;
    assert [k + 1] + (Shifted(o.path) + if o.Run? then [0, o.first] else []) == [k + 1] + Shifted(o.path) + if o.Run? then [0, o.first] else [];
    assert ([k + 1] + Place(o))[1..] == Place(o);
  }

  lemma OrderDown(k: nat, ms: seq<Marked>)
    requires InOrder(ms)
    ensures InOrder(PushAll(k, ms))
  {
    hide PushAll, Less, Place;
    var r := PushAll(k, ms);
    forall i, j | 0 <= i < j < |r| ensures Less(Place(r[i].origin), Place(r[j].origin)) { PlaceDown(k, ms[i].origin, ms[j].origin); }
  }

  /** The levels under a body of a child are levels of the node. */
  lemma {:induction false} LevelDown(node: Node, minBody: nat, minComment: nat, k: nat, ms: seq<Marked>, q: seq<nat>)
    requires !node.comment && k < |node.children| && IsLevel(node.children[k], minBody, minComment, ms, Some(q))
    ensures IsLevel(node, minBody, minComment, PushAll(k, ms), Some([k] + q))
    decreases ms, 1
  {
    hide Folds, HangsUnder, PushAll, Holds;
    OrderDown(k, ms);
    LevelsDown(node, minBody, minComment, k, ms);
    forall o, span
      ensures Holds(PushAll(k, ms), o, span) <==> Folds(node, minBody, minComment, o, span) && HangsUnder(node, minBody, o, Some([k] + q))
    {
      HoldsDown(k, ms, o, span);
      if o.path != [] && o.path[0] == k {
        PopPush(k, o);
        FoldsDown(node, minBody, minComment, k, Pop(o), span);
        HangsDown(node, minBody, k, Pop(o), q);
      } else {
        if HangsUnder(node, minBody, o, Some([k] + q)) { HangsFrom(node, minBody, o, [k] + q); }
      }
    }
  }

  lemma HangsFrom(node: Node, minBody: nat, o: Origin, p: seq<nat>)
    requires p != [] && HangsUnder(node, minBody, o, Some(p))
    ensures o.path != [] && o.path[0] == p[0]
  {
    hide FoldsBody;
    assert p == o.path[..|p|] && o.path[..|p|][0] == o.path[0];
  }

  lemma {:induction false} LevelsDown(node: Node, minBody: nat, minComment: nat, k: nat, ms: seq<Marked>)
    requires !node.comment && k < |node.children| && LevelsBelow(node.children[k], minBody, minComment, ms)
    ensures LevelsBelow(node, minBody, minComment, PushAll(k, ms))
    decreases ms, 0
  {
    hide HoldsExactly, InOrder;
    var r := PushAll(k, ms);
    forall i | 0 <= i < |r|
      ensures if r[i].origin.Body? then IsLevel(node, minBody, minComment, r[i].kids, Some(r[i].origin.path)) else r[i].kids == []
    {
      if ms[i].origin.Body? { LevelDown(node, minBody, minComment, k, ms[i].kids, ms[i].origin.path); }
    }
  }

  // ----- the traversal, marking what it finds ---------------------------------------------------

  function Marks(node: Node, minBody: nat, minComment: nat): seq<Marked>
    decreases node, 1
  {
    if node.comment then
      if node.LineCount() >= minComment && node.startLine + 2 <= Pred(node.endLine)
      then [Marked(Comment([]), LineSpan(node.startLine + 2, Pred(node.endLine)), [])] else []
    else
      var inner := RunMarks(node.children, minBody, 0) + MarksBelow(node, minBody, minComment, |node.children|);
      if IsBody(node, minBody) then [Marked(Body([]), BodySpan(node), inner)] else inner
  }

  function MarksBelow(node: Node, minBody: nat, minComment: nat, n: nat): seq<Marked>
    requires n <= |node.children|
    decreases node, 0, n
  {
    if n == 0 then [] else MarksBelow(node, minBody, minComment, n - 1) + PushAll(n - 1, Marks(node.children[n - 1], minBody, minComment))
  }

  function RunMarks(children: seq<Node>, minBody: nat, i: nat): seq<Marked>
    requires i <= |children|
    decreases |children| - i
  {
    if i == |children| then []
    else if !children[i].groupable then RunMarks(children, minBody, i + 1)
    else
      var e := RunEnd(children, i + 1);
      RunMark(children, minBody, i, e) + RunMarks(children, minBody, e)
  }

  function RunMark(children: seq<Node>, minBody: nat, i: nat, e: nat): seq<Marked>
    requires i < e <= |children|
  {
    var span := RunSpan(children[i], children[e - 1], e - i, minBody);
    if span == [] then [] else [Marked(Run([], i, e), span[0], [])]
  }

  lemma UnmarkedConcat(a: seq<Marked>, b: seq<Marked>)
    ensures Unmarked(a + b) == Unmarked(a) + Unmarked(b)
    decreases |b|
  {
    if b == [] {
      assert a + b == a && Unmarked(a) + [] == Unmarked(a);
    } else {
      var front := b[..|b| - 1];
      assert (a + b)[..|a + b| - 1] == a + front;
      UnmarkedConcat(a, front);
    }
  }

  lemma UnmarkedOne(m: Marked)
    ensures Unmarked([m]) == [Tree(m.span, Unmarked(m.kids))]
  {
    assert Unmarked([m][..0]) == [];
  }

  lemma {:induction false} UnmarkedPushed(k: nat, ms: seq<Marked>)
    ensures Unmarked(PushAll(k, ms)) == Unmarked(ms)
    decreases ms
  {
    if ms != [] {
      UnmarkedPushed(k, ms[..|ms| - 1]);
      UnmarkedPushed(k, ms[|ms| - 1].kids);
      var r := PushAll(k, ms);
      assert r[..|r| - 1] == PushAll(k, ms[..|ms| - 1]);
    }
  }

  lemma UnmarkedRun(children: seq<Node>, minBody: nat, i: nat, e: nat)
    requires i < e <= |children|
    ensures Unmarked(RunMark(children, minBody, i, e)) == Leaves(RunSpan(children[i], children[e - 1], e - i, minBody))
  {
    hide RunSpan, Leaves, Unmarked;
    var span := RunSpan(children[i], children[e - 1], e - i, minBody);
    LeafOf(span);
    NothingMarked();
    if span != [] { UnmarkedOne(Marked(Run([], i, e), span[0], [])); }
  }

  lemma {:induction false} UnmarkedRuns(children: seq<Node>, minBody: nat, i: nat)
    requires i <= |children|
    ensures Unmarked(RunMarks(children, minBody, i)) == Leaves(RunSpans(children, minBody, i))
    decreases |children| - i
  {
    hide RunSpan, Leaves, Unmarked, RunMark;
    LeafOf([]);
    NothingMarked();
    if i < |children| {
      if !children[i].groupable {
        UnmarkedRuns(children, minBody, i + 1);
      } else {
        var e := RunEnd(children, i + 1);
        UnmarkedRuns(children, minBody, e);
        UnmarkedConcat(RunMark(children, minBody, i, e), RunMarks(children, minBody, e));
        LeavesConcat(RunSpan(children[i], children[e - 1], e - i, minBody), RunSpans(children, minBody, e));
        UnmarkedRun(children, minBody, i, e);
      }
    }
  }

  lemma NothingMarked()
    ensures Unmarked([]) == []
  {
  }

  lemma LeavesConcat(a: seq<LineSpan>, b: seq<LineSpan>)
    ensures Leaves(a + b) == Leaves(a) + Leaves(b)
  {
    hide Leaves;
  }

  lemma LeafOf(span: seq<LineSpan>)
    requires |span| <= 1
    ensures Leaves(span) == if span == [] then [] else [Tree(span[0], [])]
  {
  }

  /** Without the marks it is the forest. */
  lemma {:induction false} UnmarkedMarks(node: Node, minBody: nat, minComment: nat)
    ensures Unmarked(Marks(node, minBody, minComment)) == Elidable(node, minBody, minComment)
    decreases node, 1
  {
    if node.comment {
      UnmarkedOne(Marked(Comment([]), LineSpan(node.startLine + 2, Pred(node.endLine)), []));
    } else {
      var n := |node.children|;
      var inner := RunMarks(node.children, minBody, 0) + MarksBelow(node, minBody, minComment, n);
      UnmarkedRuns(node.children, minBody, 0);
      UnmarkedBelow(node, minBody, minComment, n);
      UnmarkedConcat(RunMarks(node.children, minBody, 0), MarksBelow(node, minBody, minComment, n));
      UnmarkedOne(Marked(Body([]), BodySpan(node), inner));
    }
  }

  lemma {:induction false} UnmarkedBelow(node: Node, minBody: nat, minComment: nat, n: nat)
    requires n <= |node.children|
    ensures Unmarked(MarksBelow(node, minBody, minComment, n)) == Below(node, minBody, minComment, n)
    decreases node, 0, n
  {
    hide Elidable, Marks;
    hide Unmarked, PushAll;
    NothingMarked();
    if n > 0 {
      var ms := Marks(node.children[n - 1], minBody, minComment);
      UnmarkedBelow(node, minBody, minComment, n - 1);
      UnmarkedMarks(node.children[n - 1], minBody, minComment);
      UnmarkedPushed(n - 1, ms);
      UnmarkedConcat(MarksBelow(node, minBody, minComment, n - 1), PushAll(n - 1, ms));
    }
  }

  // ----- what it finds ---------------------------------------------------------------------------

  lemma HoldsConcat(a: seq<Marked>, b: seq<Marked>, o: Origin, span: LineSpan)
    ensures Holds(a + b, o, span) <==> Holds(a, o, span) || Holds(b, o, span)
  {
    if i :| 0 <= i < |a| && a[i].origin == o && a[i].span == span { assert (a + b)[i] == a[i]; }
    if i :| 0 <= i < |b| && b[i].origin == o && b[i].span == span { assert (a + b)[|a| + i] == b[i]; }
  }

  /** Everything of `a` stands before everything of `b`. */
  predicate AllBefore(a: seq<Marked>, b: seq<Marked>) {
    forall i, j :: 0 <= i < |a| && 0 <= j < |b| ==> Less(Place(a[i].origin), Place(b[j].origin))
  }

  lemma OrderConcat(a: seq<Marked>, b: seq<Marked>)
    requires InOrder(a) && InOrder(b) && AllBefore(a, b)
    ensures InOrder(a + b)
  {
    hide Less, Place;
  }

  lemma LevelsConcat(root: Node, minBody: nat, minComment: nat, a: seq<Marked>, b: seq<Marked>)
    requires LevelsBelow(root, minBody, minComment, a) && LevelsBelow(root, minBody, minComment, b)
    ensures LevelsBelow(root, minBody, minComment, a + b)
  {
    hide IsLevel;
  }

  /** A run of siblings from position `i` on. */
  predicate IsRunFrom(o: Origin, i: nat) {
    o.Run? && o.path == [] && o.first >= i
  }

  /** What a run of several siblings folds, in lines. */
  lemma RunSpanIs(a: Node, b: Node, count: nat, minBody: nat)
    requires Nested(a) && Nested(b) && a.endLine <= b.startLine
    ensures RunSpan(a, b, count, minBody)
            == if count >= 2 && b.endLine - a.startLine + 1 >= minBody && a.contentEnd + 2 <= b.startLine
               then [LineSpan(a.contentEnd + 1, b.startLine - 1)] else []
  {
  }

  lemma Siblings(node: Node, i: nat, j: nat)
    requires Nested(node) && i < j < |node.children|
    ensures Nested(node.children[i]) && Nested(node.children[j]) && node.children[i].endLine <= node.children[j].startLine
  {
  }

  lemma OneRun(node: Node, minBody: nat, minComment: nat, i: nat, e: nat, o: Origin, span: LineSpan)
    requires Nested(node) && !node.comment && i < e <= |node.children| && MaximalRun(node.children, i, e)
    ensures Holds(RunMark(node.children, minBody, i, e), o, span) <==> Folds(node, minBody, minComment, o, span) && o == Run([], i, e)
  {
    hide MaximalRun, Nested;
    var ms := RunMark(node.children, minBody, i, e);
    if i < e - 1 {
      Siblings(node, i, e - 1);
      RunSpanIs(node.children[i], node.children[e - 1], e - i, minBody);
    }
    if ms != [] { HoldsOne(ms[0], o, span); }
  }

  /** A maximal run that begins before this one ends is this one. */
  lemma SameRun(children: seq<Node>, i: nat, e: nat, first: nat, end: nat)
    requires MaximalRun(children, i, e) && MaximalRun(children, first, end) && i <= first < e
    ensures first == i && end == e
  {
  }

  /** The marked runs are exactly the maximal runs that are folded, in order. */
  lemma {:induction false} RunsAre(node: Node, minBody: nat, minComment: nat, i: nat)
    requires Nested(node) && !node.comment && i <= |node.children|
    requires 0 < i < |node.children| && node.children[i].groupable ==> !node.children[i - 1].groupable
    ensures forall o, span :: Holds(RunMarks(node.children, minBody, i), o, span) <==> Folds(node, minBody, minComment, o, span) && IsRunFrom(o, i)
    ensures InOrder(RunMarks(node.children, minBody, i)) && LevelsBelow(node, minBody, minComment, RunMarks(node.children, minBody, i))
    decreases |node.children| - i
  {
    hide Folds, RunSpan, Nested, RunMark, LevelsBelow, InOrder, Holds;
    var children := node.children;
    if i == |children| {
      NothingHeld(node, minBody, minComment);
      forall o, span | IsRunFrom(o, 0) && Folds(node, minBody, minComment, o, span) ensures !IsRunFrom(o, i) {
        FoldedRun(node, minBody, minComment, o, span);
      }
    } else if !children[i].groupable {
      RunsAre(node, minBody, minComment, i + 1);
      forall o, span | IsRunFrom(o, i) && Folds(node, minBody, minComment, o, span) ensures IsRunFrom(o, i + 1) {
        FoldedRun(node, minBody, minComment, o, span);
      }
    } else {
      var e := RunEnd(children, i + 1);
      var a, b := RunMark(children, minBody, i, e), RunMarks(children, minBody, e);
      RunsAre(node, minBody, minComment, e);
      forall o, span ensures Holds(a + b, o, span) <==> Folds(node, minBody, minComment, o, span) && IsRunFrom(o, i) {
        HoldsConcat(a, b, o, span);
        OneRun(node, minBody, minComment, i, e, o, span);
        if IsRunFrom(o, i) && Folds(node, minBody, minComment, o, span) {
          FoldedRun(node, minBody, minComment, o, span);
          if o.first < e { SameRun(children, i, e, o.first, o.end); }
        }
      }
      RunFirst(node, minBody, minComment, i, e);
      RunsFollow(node, minBody, minComment, i, e, b);
      OrderConcat(a, b);
      LevelsConcat(node, minBody, minComment, a, b);
    }
  }

  lemma NothingHeld(node: Node, minBody: nat, minComment: nat)
    ensures InOrder([]) && LevelsBelow(node, minBody, minComment, []) && forall o, span :: !Holds([], o, span)
  {
  }

  lemma FoldedRun(node: Node, minBody: nat, minComment: nat, o: Origin, span: LineSpan)
    requires Folds(node, minBody, minComment, o, span) && o.Run? && o.path == []
    ensures MaximalRun(node.children, o.first, o.end)
  {
  }

  lemma RunFirst(node: Node, minBody: nat, minComment: nat, i: nat, e: nat)
    requires i < e <= |node.children|
    ensures InOrder(RunMark(node.children, minBody, i, e)) && LevelsBelow(node, minBody, minComment, RunMark(node.children, minBody, i, e))
  {
  }

  lemma RunsFollow(node: Node, minBody: nat, minComment: nat, i: nat, e: nat, b: seq<Marked>)
    requires i < e <= |node.children| && forall o, span :: Holds(b, o, span) ==> IsRunFrom(o, e)
    ensures AllBefore(RunMark(node.children, minBody, i, e), b)
  {
    hide RunSpan;
    var a := RunMark(node.children, minBody, i, e);
    forall x, y | 0 <= x < |a| && 0 <= y < |b| ensures Less(Place(a[x].origin), Place(b[y].origin)) {
      assert Holds(b, b[y].origin, b[y].span);
      assert Place(a[x].origin) == [0, i] && Place(b[y].origin) == [0, b[y].origin.first];
    }
  }

  /** What hangs at the top of a node that is not folded, or under its body. */
  function TopOf(node: Node, minBody: nat): Option<seq<nat>> {
    if FoldsBody(node, minBody, []) then Some([]) else None
  }

  /** What the children from 0 up to `n` contribute. */
  ghost predicate BelowExactly(node: Node, minBody: nat, minComment: nat, ms: seq<Marked>, n: nat) {
    forall o, span :: Holds(ms, o, span) <==>
      Folds(node, minBody, minComment, o, span) && HangsUnder(node, minBody, o, TopOf(node, minBody)) && o.path != [] && o.path[0] < n
  }

  lemma {:induction false} BelowAre(node: Node, minBody: nat, minComment: nat, n: nat)
    requires Nested(node) && !node.comment && n <= |node.children|
    ensures var ms := MarksBelow(node, minBody, minComment, n);
            BelowExactly(node, minBody, minComment, ms, n) && InOrder(ms) && LevelsBelow(node, minBody, minComment, ms)
    decreases node, 0, n
  {
    hide Folds, Nested, LevelsBelow, InOrder, Holds, HangsUnder, TopOf, Marks, PushAll, BelowExactly, IsLevel;
    if n == 0 {
      NothingHeld(node, minBody, minComment);
      NothingBelow(node, minBody, minComment);
    } else {
      ChildNested(node, n - 1);
      BelowAre(node, minBody, minComment, n - 1);
      MarksAre(node.children[n - 1], minBody, minComment);
      BelowNext(node, minBody, minComment, n, MarksBelow(node, minBody, minComment, n - 1), Marks(node.children[n - 1], minBody, minComment));
    }
  }

  lemma ChildNested(node: Node, k: nat)
    requires Nested(node) && k < |node.children|
    ensures Nested(node.children[k])
  {
  }

  lemma NothingBelow(node: Node, minBody: nat, minComment: nat)
    ensures BelowExactly(node, minBody, minComment, [], 0)
  {
    hide Folds, HangsUnder, TopOf;
  }

  lemma BelowNext(node: Node, minBody: nat, minComment: nat, n: nat, before: seq<Marked>, ms: seq<Marked>)
    requires 0 < n <= |node.children| && !node.comment && IsLevel(node.children[n - 1], minBody, minComment, ms, None)
    requires BelowExactly(node, minBody, minComment, before, n - 1) && InOrder(before) && LevelsBelow(node, minBody, minComment, before)
    ensures var all := before + PushAll(n - 1, ms);
            BelowExactly(node, minBody, minComment, all, n) && InOrder(all) && LevelsBelow(node, minBody, minComment, all)
  {
    hide Folds, LevelsBelow, InOrder, Holds, HangsUnder, PushAll;
    var k := n - 1;
    var pushed := PushAll(k, ms);
    forall o, span ensures Holds(before + pushed, o, span) <==>
      Folds(node, minBody, minComment, o, span) && HangsUnder(node, minBody, o, TopOf(node, minBody)) && o.path != [] && o.path[0] < n
    {
      HoldsConcat(before, pushed, o, span);
      HoldsDown(k, ms, o, span);
      if o.path != [] && o.path[0] == k {
        PopPush(k, o);
        FoldsDown(node, minBody, minComment, k, Pop(o), span);
        HangsDown(node, minBody, k, Pop(o), []);
      }
    }
    BelowFollows(node, minBody, minComment, n, before, ms);
    OrderDown(k, ms);
    OrderConcat(before, pushed);
    LevelsDown(node, minBody, minComment, k, ms);
    LevelsConcat(node, minBody, minComment, before, pushed);
  }

  lemma BelowFollows(node: Node, minBody: nat, minComment: nat, n: nat, before: seq<Marked>, ms: seq<Marked>)
    requires n > 0 && BelowExactly(node, minBody, minComment, before, n - 1)
    ensures AllBefore(before, PushAll(n - 1, ms))
  {
    hide Folds, HangsUnder, TopOf, PushAll;
    var pushed := PushAll(n - 1, ms);
    forall x, y | 0 <= x < |before| && 0 <= y < |pushed| ensures Less(Place(before[x].origin), Place(pushed[y].origin)) {
      assert Holds(before, before[x].origin, before[x].span);
    }
  }

  /** What is inside a node: its runs first, and then what is below its children. */
  lemma {:induction false} InnerAre(node: Node, minBody: nat, minComment: nat)
    requires Nested(node) && !node.comment
    ensures var ms := RunMarks(node.children, minBody, 0) + MarksBelow(node, minBody, minComment, |node.children|);
            && InOrder(ms) && LevelsBelow(node, minBody, minComment, ms)
            && forall o, span :: Holds(ms, o, span) <==>
                 Folds(node, minBody, minComment, o, span) && HangsUnder(node, minBody, o, TopOf(node, minBody)) && o != Body([])
    decreases node, 0, |node.children| + 1
  {
    hide Nested, LevelsBelow, InOrder, Holds, HangsUnder, TopOf, MarksBelow, RunMarks;
    var runs, below := RunMarks(node.children, minBody, 0), MarksBelow(node, minBody, minComment, |node.children|);
    RunsAre(node, minBody, minComment, 0);
    BelowAre(node, minBody, minComment, |node.children|);
    forall o, span ensures Holds(runs + below, o, span) <==>
      Folds(node, minBody, minComment, o, span) && HangsUnder(node, minBody, o, TopOf(node, minBody)) && o != Body([])
    {
      HoldsConcat(runs, below, o, span);
      if o.Run? && o.path == [] { RunHangs(node, minBody, o); }
    }
    hide Folds;
    RunsBefore(runs, below);
    OrderConcat(runs, below);
    LevelsConcat(node, minBody, minComment, runs, below);
  }

  lemma RunHangs(node: Node, minBody: nat, o: Origin)
    requires o.Run? && o.path == []
    ensures HangsUnder(node, minBody, o, TopOf(node, minBody))
  {
    hide FoldsBody;
    assert o.path[..0] == [];
  }

  lemma RunsBefore(runs: seq<Marked>, below: seq<Marked>)
    requires forall o, span :: Holds(runs, o, span) ==> IsRunFrom(o, 0)
    requires forall o, span :: Holds(below, o, span) ==> o.path != []
    ensures AllBefore(runs, below)
  {
    forall x, y | 0 <= x < |runs| && 0 <= y < |below| ensures Less(Place(runs[x].origin), Place(below[y].origin)) {
      assert Holds(runs, runs[x].origin, runs[x].span) && Holds(below, below[y].origin, below[y].span);
    }
  }

  /** The marked forest, level by level, is what the nodes fold. */
  lemma {:induction false} MarksAre(node: Node, minBody: nat, minComment: nat)
    requires Nested(node)
    ensures IsLevel(node, minBody, minComment, Marks(node, minBody, minComment), None)
    decreases node, 1
  {
    if node.comment {
      CommentAre(node, minBody, minComment);
    } else {
      hide Nested, LevelsBelow, InOrder, Folds, Holds, HangsUnder, MarksBelow, RunMarks;
      var inner := RunMarks(node.children, minBody, 0) + MarksBelow(node, minBody, minComment, |node.children|);
      InnerAre(node, minBody, minComment);
      IsBodyIff(node, minBody);
      if IsBody(node, minBody) { BodyAre(node, minBody, minComment, inner); } else { NoBody(node, minBody, minComment, inner); }
    }
  }

  lemma IsBodyIff(node: Node, minBody: nat)
    requires Nested(node) && !node.comment
    ensures IsBody(node, minBody) <==> FoldsBody(node, minBody, [])
  {
  }

  lemma HoldsOne(m: Marked, o: Origin, span: LineSpan)
    ensures Holds([m], o, span) <==> o == m.origin && span == m.span
  {
    assert [m][0] == m;
  }

  /** Nothing is below a comment. */
  lemma OnlyComment(node: Node, minBody: nat, minComment: nat, o: Origin, span: LineSpan)
    requires Nested(node) && node.comment
    ensures Folds(node, minBody, minComment, o, span) <==>
              && o == Comment([]) && node.LineCount() >= minComment && node.startLine + 2 <= Pred(node.endLine)
              && span == LineSpan(node.startLine + 2, Pred(node.endLine))
    ensures HangsUnder(node, minBody, Comment([]), None)
  {
    assert Leads(node, o.path) ==> o.path == [];
    assert Folds(node, minBody, minComment, o, span) ==> o == Comment([]);
  }

  lemma CommentAre(node: Node, minBody: nat, minComment: nat)
    requires Nested(node) && node.comment
    ensures IsLevel(node, minBody, minComment, Marks(node, minBody, minComment), None)
  {
    var ms := Marks(node, minBody, minComment);
    forall o, span ensures Holds(ms, o, span) <==> Folds(node, minBody, minComment, o, span) && HangsUnder(node, minBody, o, None) {
      OnlyComment(node, minBody, minComment, o, span);
      if ms != [] { HoldsOne(ms[0], o, span); }
    }
  }

  lemma BodyAre(node: Node, minBody: nat, minComment: nat, inner: seq<Marked>)
    requires Nested(node) && !node.comment && IsBody(node, minBody) && FoldsBody(node, minBody, [])
    requires InOrder(inner) && LevelsBelow(node, minBody, minComment, inner)
    requires forall o, span :: Holds(inner, o, span) <==>
               Folds(node, minBody, minComment, o, span) && HangsUnder(node, minBody, o, TopOf(node, minBody)) && o != Body([])
    ensures IsLevel(node, minBody, minComment, [Marked(Body([]), BodySpan(node), inner)], None)
  {
    hide LevelsBelow, InOrder;
    var all := [Marked(Body([]), BodySpan(node), inner)];
    forall o, span ensures Holds(all, o, span) <==> Folds(node, minBody, minComment, o, span) && HangsUnder(node, minBody, o, None) {
      HoldsOne(all[0], o, span);
      OnlyBody(node, minBody, minComment, o, span);
    }
    forall o ensures HangsUnder(node, minBody, o, Some([])) ==> o != Body([]) {}
    hide Holds, Folds, HangsUnder;
    assert HoldsExactly(node, minBody, minComment, inner, Some([]));
    assert IsLevel(node, minBody, minComment, inner, Some([]));
    AtTop(node, minBody, minComment, all);
  }

  lemma AtTop(node: Node, minBody: nat, minComment: nat, all: seq<Marked>)
    requires |all| == 1 && all[0].origin == Body([]) && IsLevel(node, minBody, minComment, all[0].kids, Some([]))
    ensures InOrder(all) && LevelsBelow(node, minBody, minComment, all)
  {
    hide IsLevel;
  }

  lemma OnlyBody(node: Node, minBody: nat, minComment: nat, o: Origin, span: LineSpan)
    requires Nested(node) && IsBody(node, minBody) && FoldsBody(node, minBody, [])
    ensures Folds(node, minBody, minComment, o, span) && HangsUnder(node, minBody, o, None) <==> o == Body([]) && span == BodySpan(node)
  {
    assert o.path[..0] == [];
    assert HangsUnder(node, minBody, o, None) ==> Depth(o) == 0;
    assert o == Body([]) ==> At(node, o.path) == node;
  }

  lemma NoBody(node: Node, minBody: nat, minComment: nat, inner: seq<Marked>)
    requires !FoldsBody(node, minBody, []) && InOrder(inner) && LevelsBelow(node, minBody, minComment, inner)
    requires forall o, span :: Holds(inner, o, span) <==>
               Folds(node, minBody, minComment, o, span) && HangsUnder(node, minBody, o, TopOf(node, minBody)) && o != Body([])
    ensures IsLevel(node, minBody, minComment, inner, None)
  {
    hide LevelsBelow, InOrder, Holds, HangsUnder;
  }

  /**
   The forest that the collector builds: marked, its trees are at every level exactly what is folded and hangs
   under the same body, in source order.
   */
  lemma ForestIs(root: Node, minBody: nat, minComment: nat) returns (ms: seq<Marked>)
    requires Nested(root)
    ensures Unmarked(ms) == Elidable(root, minBody, minComment) && IsLevel(root, minBody, minComment, ms, None)
  {
    ms := Marks(root, minBody, minComment);
    UnmarkedMarks(root, minBody, minComment);
    MarksAre(root, minBody, minComment);
  }

  // ----- what the outermost trees cover ----------------------------------------------------------

  /** The nodes that a path leads through lie around the one it leads to. */
  lemma {:induction false} Around(root: Node, path: seq<nat>, n: nat)
    requires Nested(root) && Leads(root, path) && n <= |path|
    ensures Leads(root, path[..n]) && Nested(At(root, path))
    ensures var a, b := At(root, path[..n]), At(root, path); a.startLine <= b.startLine && b.endLine <= a.endLine
    decreases |path|
  {
    if path == [] {
      assert path[..n] == [];
    } else {
      var child, rest := root.children[path[0]], path[1..];
      if n == 0 {
        assert path[..0] == [] && rest[..0] == [];
        Around(child, rest, 0);
      } else {
        assert path[..n] != [] && path[..n][0] == path[0] && path[..n][1..] == rest[..n - 1];
        Around(child, rest, n - 1);
      }
    }
  }

  lemma FoldedInside(root: Node, minBody: nat, minComment: nat, o: Origin, span: LineSpan)
    requires Nested(root) && Folds(root, minBody, minComment, o, span) && Nested(At(root, o.path))
    ensures At(root, o.path).startLine < span.start <= span.end < At(root, o.path).endLine
  {
    if o.Run? {
      var node := At(root, o.path);
      assert Nested(node.children[o.first]) && node.children[o.end - 1].endLine <= node.endLine && Nested(node.children[o.end - 1]);
    }
  }

  /** A line that anything folds. */
  ghost predicate IsFolded(root: Node, minBody: nat, minComment: nat, line: nat) {
    exists o, span: LineSpan :: Folds(root, minBody, minComment, o, span) && span.Has(line)
  }

  /** What hangs under a body lies inside it. */
  lemma InsideBody(root: Node, minBody: nat, minComment: nat, o: Origin, span: LineSpan, n: nat) returns (outer: LineSpan)
    requires Nested(root) && Folds(root, minBody, minComment, o, span) && n < Depth(o) && FoldsBody(root, minBody, o.path[..n])
    ensures Folds(root, minBody, minComment, Body(o.path[..n]), outer) && forall line: nat :: span.Has(line) ==> outer.Has(line)
  {
    Around(root, o.path, n);
    FoldedInside(root, minBody, minComment, o, span);
    var a := At(root, o.path[..n]);
    outer := LineSpan(a.startLine + 1, a.endLine - 1);
  }

  /** The first body above that is folded, if there is any. */
  function FirstBody(root: Node, minBody: nat, o: Origin, n: nat): (r: nat)
    requires n <= Depth(o)
    ensures n <= r <= Depth(o) && (r < Depth(o) ==> FoldsBody(root, minBody, o.path[..r]))
    ensures forall k :: n <= k < r ==> !FoldsBody(root, minBody, o.path[..k])
    decreases Depth(o) - n
  {
    if n == Depth(o) || FoldsBody(root, minBody, o.path[..n]) then n else FirstBody(root, minBody, o, n + 1)
  }

  /** Whatever is folded at any depth lies in something that is folded with no body above it. */
  lemma Outermost(root: Node, minBody: nat, minComment: nat, o: Origin, span: LineSpan) returns (top: Origin, outer: LineSpan)
    requires Nested(root) && Folds(root, minBody, minComment, o, span)
    ensures Folds(root, minBody, minComment, top, outer) && HangsUnder(root, minBody, top, None)
    ensures forall line: nat :: span.Has(line) ==> outer.Has(line)
  {
    hide Folds, FoldsBody;
    var n := FirstBody(root, minBody, o, 0);
    if n == Depth(o) {
      top, outer := o, span;
    } else {
      top := Body(o.path[..n]);
      outer := InsideBody(root, minBody, minComment, o, span, n);
      forall k | 0 <= k < Depth(top) ensures !FoldsBody(root, minBody, top.path[..k]) { assert top.path[..k] == o.path[..k]; }
    }
  }

  /** The outermost trees cover a line exactly if anything folds it. */
  lemma TopsCover(root: Node, minBody: nat, minComment: nat, line: nat)
    requires Nested(root)
    ensures (exists t :: t in Elidable(root, minBody, minComment) && t.span.Has(line)) <==> IsFolded(root, minBody, minComment, line)
  {
    hide Elidable, Folds, HangsUnder, Nested;
    var ms := ForestIs(root, minBody, minComment);
    var ts := Elidable(root, minBody, minComment);
    forall i | 0 <= i < |ms| ensures ts[i].span == ms[i].span { UnmarkedAt(ms, i); }
    if t :| t in ts && t.span.Has(line) {
      var i :| 0 <= i < |ts| && ts[i] == t;
      assert Holds(ms, ms[i].origin, ms[i].span);
      assert Folds(root, minBody, minComment, ms[i].origin, ms[i].span);
    }
    if o, span: LineSpan :| Folds(root, minBody, minComment, o, span) && span.Has(line) {
      var top, outer := Outermost(root, minBody, minComment, o, span);
      assert Holds(ms, top, outer);
      var i :| 0 <= i < |ms| && ms[i].origin == top && ms[i].span == outer;
      assert ts[i] in ts;
    }
  }

  lemma {:induction false} UnmarkedAt(ms: seq<Marked>, i: nat)
    requires i < |ms|
    ensures Unmarked(ms)[i] == Tree(ms[i].span, Unmarked(ms[i].kids))
    decreases |ms|
  {
    if i < |ms| - 1 { UnmarkedAt(ms[..|ms| - 1], i); }
  }
}
