/** The effect of promotion on the Unreleased section. */
module ChangelogMoves {
  import opened Sequences
  import opened Changelog
  import opened ChangelogFix
  import opened ChangelogPromote
  import opened ChangelogItems

  /** An item that was promoted, and whether it was new to the category it went to. */
  datatype Move = Move(title: string, lines: seq<Line>, appended: bool)

  function MovedTo(moves: seq<Move>, title: string, n: nat): seq<Line>
    requires n <= |moves|
  {
    if n == 0 then [] else
      MovedTo(moves, title, n - 1) + if moves[n - 1].title == title && moves[n - 1].appended then Solid(moves[n - 1].lines) else []
  }

  /** The items among the first `n` moves that were new to the category they went to. */
  function AppendedTo(moves: seq<Move>, title: string, n: nat): seq<seq<Line>>
    requires n <= |moves|
  {
    if n == 0 then [] else
      AppendedTo(moves, title, n - 1) + if moves[n - 1].title == title && moves[n - 1].appended then [moves[n - 1].lines] else []
  }

  /** The items of the subsection that a category's items are added to: the last of its name. */
  function Present(subs: seq<Subsection>, title: string): seq<seq<Line>> {
    var i := Find(subs, title, |subs|);
    if i < 0 then [] else ItemTexts(Texts(subs[i].lines))
  }

  /** An item is added exactly if it was neither there at the start nor added before. */
  predicate Fair(present: seq<seq<Line>>, moves: seq<Move>, k: nat)
    requires k < |moves|
  {
    moves[k].appended <==> moves[k].lines !in present + AppendedTo(moves, moves[k].title, k)
  }

  ghost predicate InfixAt(x: seq<Line>, y: seq<Line>, i: nat) {
    i + |x| <= |y| && y[i..i + |x|] == x
  }

  ghost predicate Infix(x: seq<Line>, y: seq<Line>) {
    exists i :: InfixAt(x, y, i)
  }

  lemma InfixGrows(x: seq<Line>, a: seq<Line>, y: seq<Line>, b: seq<Line>)
    requires Infix(x, y)
    ensures Infix(x, a + y + b)
  {
    var i: nat :| InfixAt(x, y, i);
    assert (a + y + b)[|a| + i..|a| + i + |x|] == y[i..i + |x|];
    assert InfixAt(x, a + y + b, |a| + i);
  }

  lemma InfixSelf(x: seq<Line>)
    ensures Infix(x, x)
  {
    assert InfixAt(x, x, 0);
  }

  /** An item of a subsection stands in it in one piece. */
  lemma {:induction false} ItemInside(ns: seq<Numbered>, i: nat, k: nat)
    requires i <= |ns| && k < |Items(ns, i)|
    ensures Infix(Solid(Items(ns, i)[k].lines), Solid(Texts(ns[i..])))
    decreases |ns| - i
  {
    hide Trim, Texts, Solid, Infix, Items;
    var s := NextItem(ns, i);
    if s == |ns| {
      NoItemsLeft(ns, i);
    } else {
      var e := NextItem(ns, s + 1);
      ItemsStep(ns, i);
      CutInThree(ns, i, s, e);
      SolidTexts(ns[i..s] + ns[s..e], ns[e..]);
      SolidTexts(ns[i..s], ns[s..e]);
      if k == 0 {
        SolidTrim(Texts(ns[s..e]));
        InfixSelf(Solid(Texts(ns[s..e])));
        InfixGrows(Solid(Texts(ns[s..e])), Solid(Texts(ns[i..s])), Solid(Texts(ns[s..e])), Solid(Texts(ns[e..])));
      } else {
        ItemInside(ns, e, k - 1);
        var x := Solid(Items(ns, e)[k - 1].lines);
        InfixGrows(x, Solid(Texts(ns[i..s])) + Solid(Texts(ns[s..e])), Solid(Texts(ns[e..])), []);
        AddNothing(Solid(Texts(ns[i..s])) + Solid(Texts(ns[s..e])) + Solid(Texts(ns[e..])));
      }
    }
  }

  lemma NoItemsLeft(ns: seq<Numbered>, i: nat)
    requires i <= |ns| && NextItem(ns, i) == |ns|
    ensures Items(ns, i) == []
  {
  }

  /** Whether an item, apart from the blank lines around it, is one of the subsection's items. */
  method SubsectionHasItem(sub: Subsection, lines: seq<Line>) returns (has: bool)
    ensures has <==> Trim(lines) == [] || exists k :: 0 <= k < |Items(sub.lines, 0)| && Items(sub.lines, 0)[k].lines == Trim(lines)
    ensures has <==> Trim(lines) == [] || Trim(lines) in ItemTexts(Texts(sub.lines))
    ensures has ==> Infix(Solid(lines), Solid(Texts(sub.lines)))
  {
    hide Trim, Texts, Solid, Infix, Items, ItemTexts;
    ItemsAre(sub.lines, 0);
    assert sub.lines[0..] == sub.lines;
    var wanted := TrimBlankLines(lines);
    SolidTrim(lines);
    if wanted == [] {
      SolidNone();
      EmptyInside(Solid(Texts(sub.lines)));
      return true;
    }
    var items := ParseItems(sub.lines);
    for k := 0 to |items|
      invariant forall j :: 0 <= j < k ==> items[j].lines != wanted
    {
      if items[k].lines == wanted {
        ItemInside(sub.lines, 0, k);
        assert LinesOfItems(items)[k] == wanted;
        return true;
      }
    }
    has := false;
  }

  lemma SolidNone()
    ensures Solid([]) == []
  {
  }

  lemma EmptyInside(y: seq<Line>)
    ensures Infix([], y)
  {
    assert InfixAt([], y, 0);
  }

  function FiledAll(subs: seq<Subsection>, title: string): seq<Line> {
    Filed(subs, title, |subs|)
  }

  /** Appending to the last subsection of a category appends to the category. */
  lemma {:induction false} FiledAppend(a: seq<Subsection>, b: seq<Subsection>, at: nat, more: seq<Line>, title: string, n: nat)
    requires at < n <= |a| == |b| && Find(a, a[at].title, n) == at
    requires forall i :: 0 <= i < n ==> b[i].title == a[i].title && (i != at ==> b[i] == a[i])
    requires Solid(Texts(b[at].lines)) == Solid(Texts(a[at].lines)) + more
    ensures Filed(b, title, n) == Filed(a, title, n) + if title == a[at].title then more else []
  {
    hide Solid, Texts;
    if n - 1 == at {
      FiledPrefix(a, b, title, at);
      assert Filed(a, title, at) + (Solid(Texts(a[at].lines)) + more) == Filed(a, title, at) + Solid(Texts(a[at].lines)) + more;
    } else {
      FiledAppend(a, b, at, more, title, n - 1);
    }
  }

  /** The end of a category is its last subsection. */
  lemma {:induction false} FiledEnds(a: seq<Subsection>, at: nat, n: nat)
    requires at < n <= |a| && Find(a, a[at].title, n) == at
    ensures Filed(a, a[at].title, n) == Filed(a, a[at].title, at) + Solid(Texts(a[at].lines))
  {
    hide Solid, Texts;
    if n - 1 > at { FiledEnds(a, at, n - 1); }
  }

  /** The items of one subsection, added to the Unreleased section unless they are there already. */
  method AddItems(u: Section, title: string, items: seq<ParsedItem>) returns (r: Section, ghost moves: seq<Move>)
    requires SectionOk(u) && forall k :: 0 <= k < |items| ==> GoodItem(items[k].lines)
    ensures SectionOk(r) && r == u.(subsections := r.subsections)
    ensures |moves| == |items| && forall k :: 0 <= k < |items| ==> moves[k].title == title && moves[k].lines == items[k].lines
    ensures forall t :: FiledAll(r.subsections, t) == FiledAll(u.subsections, t) + MovedTo(moves, t, |moves|)
    ensures forall k :: 0 <= k < |items| ==> Infix(Solid(items[k].lines), FiledAll(r.subsections, title))
    ensures forall t :: Present(r.subsections, t) == Present(u.subsections, t) + AppendedTo(moves, t, |moves|)
    ensures forall k :: 0 <= k < |moves| ==> Fair(Present(u.subsections, title), moves, k)
  {
    hide Find, Filed, FiledAll, Solid, Infix, Present, GoodItem, Fair;
    var subs, at := GetOrCreateSubsection(u.subsections, title);
    ghost var start := subs;
    moves := [];
    forall t ensures FiledAll(subs, t) == FiledAll(start, t) + MovedTo(moves, t, 0) && Present(subs, t) == Present(start, t) + AppendedTo(moves, t, 0) {
      AddNothing(FiledAll(start, t));
    }
    for k := 0 to |items|
      invariant |subs| == |start| && at < |subs| && subs[at].title == title && Find(subs, title, |subs|) == at && SubsOk(subs)
      invariant |moves| == k && forall j :: 0 <= j < k ==> moves[j].title == title && moves[j].lines == items[j].lines
      invariant forall t :: FiledAll(subs, t) == FiledAll(start, t) + MovedTo(moves, t, |moves|)
      invariant forall j :: 0 <= j < k ==> Infix(Solid(items[j].lines), FiledAll(subs, title))
      invariant forall t :: Present(subs, t) == Present(start, t) + AppendedTo(moves, t, |moves|)
      invariant forall j :: 0 <= j < |moves| ==> Fair(Present(start, title), moves, j)
    {
      subs, moves := AddItem(start, subs, at, title, items[k], moves);
    }
    r := u.(subsections := subs);
  }

  predicate SubsOk(subs: seq<Subsection>) {
    forall i :: 0 <= i < |subs| ==> BodyLines(subs[i].lines)
  }

  /** Lines of a body that form one item. */
  predicate GoodItem(lines: seq<Line>) {
    ItemBlock(lines) && Trim(lines) == lines && forall i :: 0 <= i < |lines| ==> BodyLine(lines[i])
  }

  lemma NewSub(subs: seq<Subsection>, title: string, t: string)
    requires Find(subs, title, |subs|) == -1
    ensures FiledAll(subs + [Subsection(title, [])], t) == FiledAll(subs, t)
    ensures Present(subs + [Subsection(title, [])], t) == Present(subs, t)
  {
    hide Find, Solid, Texts, ItemTexts, Present, FiledAll;
    FiledEmpty(subs, title, t);
    FindNew(subs, title, t);
    EmptySub();
    NewPresent(subs, title, t);
  }

  lemma FiledEmpty(subs: seq<Subsection>, title: string, t: string)
    ensures FiledAll(subs + [Subsection(title, [])], t) == FiledAll(subs, t)
  {
    hide Solid, Texts;
    FiledPrefix(subs, subs + [Subsection(title, [])], t, |subs|);
    EmptySub();
    AddNothing(FiledAll(subs, t));
  }

  lemma FindNew(subs: seq<Subsection>, title: string, t: string)
    ensures var more := subs + [Subsection(title, [])]; Find(more, t, |more|) == if t == title then |subs| else Find(subs, t, |subs|)
  {
    FindSame(subs, subs + [Subsection(title, [])], t, |subs|);
  }

  lemma EmptySub()
    ensures Solid(Texts([])) == [] && ItemTexts(Texts([])) == []
  {
  }

  lemma NewPresent(subs: seq<Subsection>, title: string, t: string)
    requires Find(subs, title, |subs|) == -1
    ensures Present(subs + [Subsection(title, [])], t) == Present(subs, t)
  {
    hide Find, Texts, ItemTexts;
    FindNew(subs, title, t);
    EmptySub();
  }

  /** The subsection that a category's items go to, created if there is none. */
  method GetOrCreateSubsection(before: seq<Subsection>, title: string) returns (subs: seq<Subsection>, at: nat)
    requires SubsOk(before)
    ensures SubsOk(subs) && at < |subs| && subs[at].title == title && Find(subs, title, |subs|) == at
    ensures forall t :: FiledAll(subs, t) == FiledAll(before, t) && Present(subs, t) == Present(before, t)
  {
    hide Find, FiledAll, Present;
    var i := Find(before, title, |before|);
    if i >= 0 { return before, i; }
    at, subs := |before|, before + [Subsection(title, [])];
    FindNew(before, title, title);
    forall t ensures FiledAll(subs, t) == FiledAll(before, t) && Present(subs, t) == Present(before, t) { NewSub(before, title, t); }
  }

  method AddItem(ghost start: seq<Subsection>, subs: seq<Subsection>, at: nat, title: string, item: ParsedItem, ghost moves: seq<Move>)
    returns (subs': seq<Subsection>, ghost moves': seq<Move>)
    requires at < |subs| && subs[at].title == title && Find(subs, title, |subs|) == at && SubsOk(subs)
    requires GoodItem(item.lines)
    requires forall t :: FiledAll(subs, t) == FiledAll(start, t) + MovedTo(moves, t, |moves|)
    requires forall t :: Present(subs, t) == Present(start, t) + AppendedTo(moves, t, |moves|)
    requires forall j :: 0 <= j < |moves| ==> Fair(Present(start, title), moves, j) && moves[j].title == title
    ensures |subs'| == |subs| && subs'[at].title == title && Find(subs', title, |subs'|) == at && SubsOk(subs')
    ensures |moves'| == |moves| + 1 && moves'[..|moves|] == moves && moves'[|moves|] == Move(title, item.lines, moves'[|moves|].appended)
    ensures forall t :: FiledAll(subs', t) == FiledAll(start, t) + MovedTo(moves', t, |moves'|)
    ensures Infix(Solid(item.lines), FiledAll(subs', title))
    ensures forall x :: Infix(x, FiledAll(subs, title)) ==> Infix(x, FiledAll(subs', title))
    ensures forall t :: Present(subs', t) == Present(start, t) + AppendedTo(moves', t, |moves'|)
    ensures forall j :: 0 <= j < |moves'| ==> Fair(Present(start, title), moves', j)
  {
    hide Trim, Texts, Solid, Infix, Items, AppendLines, ItemTexts, Present, Fair;
    subs' := subs;
    var has := SubsectionHasItem(subs[at], item.lines);
    if !has {
      var target := AppendSubsectionLines(subs[at], item.lines);
      AppendKeeps(Texts(subs[at].lines), item.lines);
      subs' := subs[at := target];
      AppendOk(subs[at], target, item.lines);
      forall t ensures FiledAll(subs', t) == FiledAll(subs, t) + if t == title then Solid(item.lines) else [] {
        FiledAppend(subs, subs', at, Solid(item.lines), t, |subs|);
      }
      forall t ensures Find(subs', t, |subs'|) == Find(subs, t, |subs|) { FindSame(subs, subs', t, |subs|); }
    }
    PresentNext(start, subs, subs', at, item.lines, moves, Move(title, item.lines, !has));
    moves' := moves + [Move(title, item.lines, !has)];
    forall t ensures FiledAll(subs', t) == FiledAll(start, t) + MovedTo(moves', t, |moves'|) {
      MovedNext(start, subs, subs', moves, Move(title, item.lines, !has), t);
    }
    FiledEnds(subs', at, |subs'|);
    LastInside(subs', at, title, item.lines, has, FiledAll(subs, title));
    forall x | Infix(x, FiledAll(subs, title)) ensures Infix(x, FiledAll(subs', title)) {
      Extends(x, FiledAll(subs, title), FiledAll(subs', title), if has then [] else Solid(item.lines));
    }
  }

  /** What one move does to the items that are present, and why it is fair. */
  lemma PresentNext(start: seq<Subsection>, subs: seq<Subsection>, subs': seq<Subsection>, at: nat, lines: seq<Line>, moves: seq<Move>, m: Move)
    requires at < |subs| == |subs'| && Find(subs, m.title, |subs|) == at && m.lines == lines && GoodItem(lines)
    requires forall t :: Present(subs, t) == Present(start, t) + AppendedTo(moves, t, |moves|)
    requires forall j :: 0 <= j < |moves| ==> Fair(Present(start, m.title), moves, j) && moves[j].title == m.title
    requires m.appended <==> lines !in ItemTexts(Texts(subs[at].lines))
    requires if !m.appended then subs' == subs else
               && (forall i :: 0 <= i < |subs| ==> subs'[i].title == subs[i].title && (i != at ==> subs'[i] == subs[i]))
               && Texts(subs'[at].lines) == AppendLines(Texts(subs[at].lines), lines)
    ensures forall t :: Present(subs', t) == Present(start, t) + AppendedTo(moves + [m], t, |moves| + 1)
    ensures forall j :: 0 <= j <= |moves| ==> Fair(Present(start, m.title), moves + [m], j)
  {
    hide Texts, Trim, GoodItem, AppendLines, ItemTexts, Present, Fair, AppendedTo;
    forall t ensures Present(subs', t) == Present(start, t) + AppendedTo(moves + [m], t, |moves| + 1) {
      PresentAt(subs, subs', at, lines, m, t);
      AppendedNext(moves, m, t);
      var more := if m.appended && t == m.title then [lines] else [];
      assert Present(start, t) + (AppendedTo(moves, t, |moves|) + more) == Present(start, t) + AppendedTo(moves, t, |moves|) + more;
    }
    PresentIs(subs, m.title, at);
    forall j | 0 <= j <= |moves| ensures Fair(Present(start, m.title), moves + [m], j) {
      assert j < |moves| ==> Fair(Present(start, m.title), moves, j);
      StillFair(Present(start, m.title), moves, m, j);
    }
  }

  lemma PresentIs(subs: seq<Subsection>, title: string, at: nat)
    requires at < |subs| && Find(subs, title, |subs|) == at
    ensures Present(subs, title) == ItemTexts(Texts(subs[at].lines))
  {
  }

  lemma PresentAt(subs: seq<Subsection>, subs': seq<Subsection>, at: nat, lines: seq<Line>, m: Move, t: string)
    requires at < |subs| == |subs'| && Find(subs, m.title, |subs|) == at && GoodItem(lines)
    requires if !m.appended then subs' == subs else
               && (forall i :: 0 <= i < |subs| ==> subs'[i].title == subs[i].title && (i != at ==> subs'[i] == subs[i]))
               && Texts(subs'[at].lines) == AppendLines(Texts(subs[at].lines), lines)
    ensures Present(subs', t) == Present(subs, t) + if m.appended && t == m.title then [lines] else []
  {
    hide Texts, Trim, ItemBlock, AppendLines, ItemTexts;
    FindSame(subs, subs', t, |subs|);
    if m.appended && t == m.title { AppendItem(Texts(subs[at].lines), lines); }
  }

  lemma AppendedNext(moves: seq<Move>, m: Move, t: string)
    ensures AppendedTo(moves + [m], t, |moves| + 1) == AppendedTo(moves, t, |moves|) + if m.appended && t == m.title then [m.lines] else []
  {
    AppendedPrefix(moves, moves + [m], t, |moves|);
  }

  lemma StillFair(present: seq<seq<Line>>, moves: seq<Move>, m: Move, j: nat)
    requires j <= |moves| && (j < |moves| ==> Fair(present, moves, j))
    requires j == |moves| ==> (m.appended <==> m.lines !in present + AppendedTo(moves, m.title, |moves|))
    ensures Fair(present, moves + [m], j)
  {
    AppendedPrefix(moves, moves + [m], (moves + [m])[j].title, j);
  }

  lemma {:induction false} AppendedPrefix(a: seq<Move>, b: seq<Move>, t: string, n: nat)
    requires n <= |a| && n <= |b| && forall i :: 0 <= i < n ==> a[i] == b[i]
    ensures AppendedTo(a, t, n) == AppendedTo(b, t, n)
  {
    if n > 0 { AppendedPrefix(a, b, t, n - 1); }
  }

  lemma Extends(x: seq<Line>, y: seq<Line>, z: seq<Line>, more: seq<Line>)
    requires Infix(x, y) && (z == y + more || (z == y && more == []))
    ensures Infix(x, z)
  {
    InfixGrows(x, [], y, more);
    assert [] + y + more == y + more && y + [] == y;
  }

  lemma AppendOk(target: Subsection, r: Subsection, source: seq<Line>)
    requires BodyLines(target.lines) && (forall i :: 0 <= i < |source| ==> BodyLine(source[i]))
    requires Texts(r.lines) == AppendLines(Texts(target.lines), source)
    ensures BodyLines(r.lines)
  {
    hide Trim, AppendLines;
    AppendBody(Texts(target.lines), source);
    forall i | 0 <= i < |r.lines| ensures BodyLine(r.lines[i].line) { assert r.lines[i].line == Texts(r.lines)[i]; }
  }

  lemma MovedNext(start: seq<Subsection>, subs: seq<Subsection>, subs': seq<Subsection>, moves: seq<Move>, m: Move, t: string)
    requires FiledAll(subs, t) == FiledAll(start, t) + MovedTo(moves, t, |moves|)
    requires if m.appended then FiledAll(subs', t) == FiledAll(subs, t) + (if t == m.title then Solid(m.lines) else []) else subs' == subs
    ensures FiledAll(subs', t) == FiledAll(start, t) + MovedTo(moves + [m], t, |moves| + 1)
  {
    hide Solid, FiledAll, MovedTo;
    MovedSnoc(moves, m, t);
    Assoc(FiledAll(start, t), MovedTo(moves, t, |moves|), if t == m.title && m.appended then Solid(m.lines) else []);
    AddNothing(FiledAll(subs, t));
  }

  lemma MovedSnoc(moves: seq<Move>, m: Move, t: string)
    ensures MovedTo(moves + [m], t, |moves| + 1) == MovedTo(moves, t, |moves|) + if t == m.title && m.appended then Solid(m.lines) else []
  {
    hide Solid;
    MovedPrefix(moves, moves + [m], t, |moves|);
  }

  lemma {:induction false} MovedPrefix(a: seq<Move>, b: seq<Move>, t: string, n: nat)
    requires n <= |a| && n <= |b| && forall i :: 0 <= i < n ==> a[i] == b[i]
    ensures MovedTo(a, t, n) == MovedTo(b, t, n)
  {
    hide Solid;
    if n > 0 { MovedPrefix(a, b, t, n - 1); }
  }

  lemma LastInside(subs: seq<Subsection>, at: nat, title: string, lines: seq<Line>, has: bool, before: seq<Line>)
    requires at < |subs| && subs[at].title == title && FiledAll(subs, title) == Filed(subs, title, at) + Solid(Texts(subs[at].lines))
    requires if has then Infix(Solid(lines), Solid(Texts(subs[at].lines))) else FiledAll(subs, title) == before + Solid(lines)
    ensures Infix(Solid(lines), FiledAll(subs, title))
  {
    hide Solid, Texts, Infix;
    if has {
      InfixGrows(Solid(lines), Filed(subs, title, at), Solid(Texts(subs[at].lines)), []);
      AddNothing(FiledAll(subs, title));
    } else {
      InfixSelf(Solid(lines));
      InfixGrows(Solid(lines), before, Solid(lines), []);
      AddNothing(FiledAll(subs, title));
    }
  }
}
