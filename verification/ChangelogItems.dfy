/** The items of a stretch of lines, and what appending an item does to them. */
module ChangelogItems {
  import opened Sequences
  import opened Changelog
  import opened ChangelogFix
  import opened ChangelogPromote

  /** The item blocks among the first `n` lines: each item line opens one, and what follows belongs to it. */
  function Blocks(ls: seq<Line>, n: nat): seq<seq<Line>>
    requires n <= |ls|
  {
    if n == 0 then [] else
      var bs := Blocks(ls, n - 1);
      if ls[n - 1].Item? then bs + [[ls[n - 1]]]
      else if bs == [] then []
      else bs[|bs| - 1 := bs[|bs| - 1] + [ls[n - 1]]]
  }

  function TrimAll(bs: seq<seq<Line>>): (r: seq<seq<Line>>)
    ensures |r| == |bs| && forall i :: 0 <= i < |r| ==> r[i] == Trim(bs[i])
  {
    seq(|bs|, i requires 0 <= i < |bs| => Trim(bs[i]))
  }

  /** The texts of the items, without the blank lines around each. */
  function ItemTexts(ls: seq<Line>): seq<seq<Line>> {
    TrimAll(Blocks(ls, |ls|))
  }

  lemma TrimAllConcat(a: seq<seq<Line>>, b: seq<seq<Line>>)
    ensures TrimAll(a + b) == TrimAll(a) + TrimAll(b)
  {
    hide Trim, TrimAll;
  }

  lemma {:induction false} BlocksPrefix(a: seq<Line>, b: seq<Line>, n: nat)
    requires n <= |a| && n <= |b| && forall i :: 0 <= i < n ==> a[i] == b[i]
    ensures Blocks(a, n) == Blocks(b, n)
  {
    if n > 0 { BlocksPrefix(a, b, n - 1); }
  }

  lemma {:induction false} BlocksNone(ls: seq<Line>, n: nat)
    requires n <= |ls| && forall i :: 0 <= i < n ==> !ls[i].Item?
    ensures Blocks(ls, n) == []
  {
    if n > 0 { BlocksNone(ls, n - 1); }
  }

  /** An item line, and no other after it. */
  predicate ItemBlock(ls: seq<Line>) {
    ls != [] && ls[0].Item? && forall i :: 0 < i < |ls| ==> !ls[i].Item?
  }

  lemma {:induction false} BlocksOne(ls: seq<Line>, n: nat)
    requires ItemBlock(ls) && 0 < n <= |ls|
    ensures Blocks(ls, n) == [ls[..n]]
  {
    if n == 1 {
      assert ls[..1] == [ls[0]] && Blocks(ls, 0) == [];
    } else {
      BlocksOne(ls, n - 1);
      assert ls[..n] == ls[..n - 1] + [ls[n - 1]];
    }
  }

  lemma {:induction false} BlocksSome(ls: seq<Line>, n: nat)
    requires 0 < n <= |ls| && ls[0].Item?
    ensures Blocks(ls, n) != []
  {
    if n > 1 { BlocksSome(ls, n - 1); }
  }

  /** What begins with an item adds its own blocks. */
  lemma {:induction false} BlocksConcat(a: seq<Line>, b: seq<Line>, n: nat)
    requires n <= |b| && (n > 0 ==> b[0].Item?)
    ensures Blocks(a + b, |a| + n) == Blocks(a, |a|) + Blocks(b, n)
  {
    if n == 0 {
      BlocksPrefix(a + b, a, |a|);
    } else {
      BlocksConcat(a, b, n - 1);
      if n > 1 { BlocksSome(b, n - 1); }
    }
  }

  /** Lines that are no items, before the first one, do not show. */
  lemma {:induction false} BlocksLead(a: seq<Line>, b: seq<Line>, n: nat)
    requires n <= |b| && forall i :: 0 <= i < |a| ==> !a[i].Item?
    ensures Blocks(a + b, |a| + n) == Blocks(b, n)
  {
    if n == 0 { BlocksNone(a + b, |a|); } else { BlocksLead(a, b, n - 1); }
  }

  lemma TrimMore(g: seq<Line>, l: Line)
    requires l.Blank?
    ensures Trim(g + [l]) == Trim(g)
  {
    hide Trim;
    var a, c := TrimParts(g);
    assert g + [l] == a + Trim(g) + (c + [l]);
    TrimIs(a, Trim(g), c + [l]);
  }

  /** Blank lines behind only lengthen the last block. */
  lemma {:induction false} BlocksTrail(a: seq<Line>, c: seq<Line>, n: nat)
    requires n <= |c| && AllBlank(c)
    ensures TrimAll(Blocks(a + c, |a| + n)) == TrimAll(Blocks(a, |a|))
  {
    hide Trim, TrimAll;
    if n == 0 {
      BlocksPrefix(a + c, a, |a|);
    } else {
      BlocksTrail(a, c, n - 1);
      var bs := Blocks(a + c, |a| + n - 1);
      assert (a + c)[|a| + n - 1] == c[n - 1] && c[n - 1] in c;
      if bs != [] { TrimMore(bs[|bs| - 1], c[n - 1]); }
    }
  }

  lemma ItemTextsTrim(ls: seq<Line>)
    ensures ItemTexts(Trim(ls)) == ItemTexts(ls)
  {
    hide Trim, TrimAll, Blocks;
    var a, c := TrimParts(ls);
    var t := Trim(ls);
    assert ls == a + (t + c);
    forall i | 0 <= i < |a| ensures !a[i].Item? { assert a[i] in a; }
    BlocksLead(a, t + c, |t + c|);
    BlocksTrail(t, c, |c|);
  }

  /** Lines that begin with an item do not begin with blank ones. */
  lemma NotBlankFirst(ls: seq<Line>, a: seq<Line>, b: seq<Line>)
    requires ItemBlock(ls) && AllBlank(a)
    ensures ls == a + b ==> a == []
  {
    forall i | 0 <= i < |a| ensures a[i] != ls[0] { assert a[i] in a; }
    assert a != [] ==> (a + b)[0] == a[0];
  }

  lemma TrimBlock(ls: seq<Line>)
    requires ItemBlock(ls)
    ensures ItemBlock(Trim(ls)) && Trim(Trim(ls)) == Trim(ls)
  {
    hide Trim;
    var a, c := TrimParts(ls);
    TrimAgain(Trim(ls));
    NotBlankFirst(ls, a, Trim(ls) + c);
    NotBlankFirst(ls, c, []);
    assert forall i :: 0 <= i < |Trim(ls)| ==> Trim(ls)[i] == ls[i];
  }

  /** An item appended is one item more, whatever separates it from the others. */
  lemma AppendItem(target: seq<Line>, item: seq<Line>)
    requires ItemBlock(item) && Trim(item) == item
    ensures ItemTexts(AppendLines(target, item)) == ItemTexts(target) + [item]
  {
    hide Trim, TrimAll;
    var t := Trim(target);
    var sep := if t != [] && t[|t| - 1].Item? then [] else [EMPTY];
    BlocksOne(item, |item|);
    assert item[..|item|] == item && TrimAll([item]) == [item];
    ItemTextsTrim(target);
    if t == [] {
      assert ItemTexts(t) == [];
    } else {
      assert AppendLines(target, item) == (t + sep) + item;
      BlocksConcat(t + sep, item, |item|);
      TrimAllConcat(Blocks(t + sep, |t + sep|), [item]);
      BlocksTrail(t, sep, |sep|);
    }
  }

  function LinesOfItems(items: seq<ParsedItem>): (r: seq<seq<Line>>)
    ensures |r| == |items| && forall i :: 0 <= i < |r| ==> r[i] == items[i].lines
  {
    seq(|items|, i requires 0 <= i < |items| => items[i].lines)
  }

  /** The parser's items are these. */
  lemma {:induction false} ItemsAre(ns: seq<Numbered>, i: nat)
    requires i <= |ns|
    ensures LinesOfItems(Items(ns, i)) == ItemTexts(Texts(ns[i..]))
    decreases |ns| - i
  {
    hide Trim, TrimAll, Texts, Items, Blocks;
    var ls, s := Texts(ns[i..]), NextItem(ns, i);
    if s == |ns| {
      NoItemsHere(ns, i);
      BlocksNone(ls, |ls|);
    } else {
      var e := NextItem(ns, s + 1);
      ItemsAre(ns, e);
      ItemsStep(ns, i);
      TextsOf(ns, i, s, e);
      OneMoreItem(Texts(ns[i..s]), Texts(ns[s..e]), Texts(ns[e..]));
    }
  }

  lemma TextsOf(ns: seq<Numbered>, i: nat, s: nat, e: nat)
    requires i <= s <= e <= |ns|
    ensures Texts(ns[i..]) == Texts(ns[i..s]) + (Texts(ns[s..e]) + Texts(ns[e..]))
  {
    hide Texts;
    CutInThree(ns, i, s, e);
    TextsConcat(ns[s..e], ns[e..]);
    TextsConcat(ns[i..s], ns[s..e] + ns[e..]);
  }

  lemma TextsConcat(a: seq<Numbered>, b: seq<Numbered>)
    ensures Texts(a + b) == Texts(a) + Texts(b)
  {
    hide Texts;
    forall i | 0 <= i < |a + b| ensures Texts(a + b)[i] == (Texts(a) + Texts(b))[i] {
      assert (a + b)[i] == if i < |a| then a[i] else b[i - |a|];
    }
  }

  lemma OneMoreItem(a: seq<Line>, b: seq<Line>, c: seq<Line>)
    requires (forall i :: 0 <= i < |a| ==> !a[i].Item?) && ItemBlock(b) && (c != [] ==> c[0].Item?)
    ensures ItemTexts(a + (b + c)) == [Trim(b)] + ItemTexts(c)
  {
    hide Trim, TrimAll, Blocks;
    BlocksLead(a, b + c, |b + c|);
    BlocksConcat(b, c, |c|);
    BlocksOne(b, |b|);
    assert b[..|b|] == b;
    TrimAllConcat([b], Blocks(c, |c|));
    assert TrimAll([b]) == [Trim(b)];
  }

  lemma NoItemsHere(ns: seq<Numbered>, i: nat)
    requires i <= |ns| && NextItem(ns, i) == |ns|
    ensures Items(ns, i) == []
  {
  }

  /** Every item the parser finds is a block of its own. */
  lemma {:induction false} ItemsAreBlocks(ns: seq<Numbered>, starts: set<nat>, i: nat)
    requires i <= |ns|
    ensures forall p :: p in Promotable(Items(ns, i), starts) ==> ItemBlock(p.lines) && Trim(p.lines) == p.lines
    decreases |ns| - i
  {
    hide Trim, Texts, Items, Promotable;
    var s := NextItem(ns, i);
    if s == |ns| {
      LastNone(ns, starts, i);
    } else {
      var e := NextItem(ns, s + 1);
      ItemsAreBlocks(ns, starts, e);
      ItemsStep(ns, i);
      TrimBlock(Texts(ns[s..e]));
      PromotableStep(ParsedItem(ns[s].number, ns[e - 1].number, Trim(Texts(ns[s..e]))), Items(ns, e), starts);
    }
  }
}
