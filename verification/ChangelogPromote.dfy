/** Moving items that were added to a released section back to the Unreleased one. */
module ChangelogPromote {
  import opened Sequences
  import opened Changelog

  datatype ParsedItem = ParsedItem(startLine: nat, endLine: nat, lines: seq<Line>)

  // ----- items ---------------------------------------------------------------------------

  function NextItem(ns: seq<Numbered>, i: nat): (e: nat)
    requires i <= |ns|
    ensures i <= e <= |ns| && (forall k :: i <= k < e ==> !ns[k].line.Item?) && (e < |ns| ==> ns[e].line.Item?)
    decreases |ns| - i
  {
    if i < |ns| && !ns[i].line.Item? then NextItem(ns, i + 1) else i
  }

  /** The items from position `i` on: each runs from its first line to the next item. */
  function Items(ns: seq<Numbered>, i: nat): seq<ParsedItem>
    requires i <= |ns|
    decreases |ns| - i
  {
    var s := NextItem(ns, i);
    if s == |ns| then [] else
      var e := NextItem(ns, s + 1);
      [ParsedItem(ns[s].number, ns[e - 1].number, Trim(Texts(ns[s..e])))] + Items(ns, e)
  }

  ghost predicate SoFar(items: seq<ParsedItem>, ns: seq<Numbered>, i: nat)
    requires i <= |ns|
  {
    items + Items(ns, i) == Items(ns, 0)
  }

  lemma SoFarSkip(items: seq<ParsedItem>, ns: seq<Numbered>, i: nat)
    requires i < |ns| && !ns[i].line.Item? && SoFar(items, ns, i)
    ensures SoFar(items, ns, i + 1)
  {
    hide Trim, Texts;
    assert NextItem(ns, i) == NextItem(ns, i + 1);
    assert Items(ns, i) == Items(ns, i + 1);
  }

  lemma SoFarItem(items: seq<ParsedItem>, ns: seq<Numbered>, s: nat, e: nat)
    requires s < e <= |ns| && ns[s].line.Item? && e == NextItem(ns, s + 1) && SoFar(items, ns, s)
    ensures SoFar(items + [ParsedItem(ns[s].number, ns[e - 1].number, Trim(Texts(ns[s..e])))], ns, e)
  {
    hide Trim, Texts, Items;
    ItemsStep(ns, s);
    Assoc(items, [ParsedItem(ns[s].number, ns[e - 1].number, Trim(Texts(ns[s..e])))], Items(ns, e));
  }

  method ParseItems(ns: seq<Numbered>) returns (items: seq<ParsedItem>)
    ensures items == Items(ns, 0)
  {
    hide Trim, Texts, Items, SoFar;
    items := [];
    var index: nat := 0;
    NoItems(ns);
    while index < |ns|
      invariant index <= |ns| && SoFar(items, ns, index)
    {
      if !ns[index].line.Item? {
        SoFarSkip(items, ns, index);
        index := index + 1;
        continue;
      }
      var start := index;
      index := index + 1;
      while index < |ns| && !ns[index].line.Item?
        invariant start < index <= |ns| && NextItem(ns, index) == NextItem(ns, start + 1)
      {
        index := index + 1;
      }
      var lines := TrimBlankLines(Texts(ns[start..index]));
      SoFarItem(items, ns, start, index);
      items := items + [ParsedItem(ns[start].number, ns[index - 1].number, lines)];
    }
    SoFarAll(items, ns);
  }

  lemma NoItems(ns: seq<Numbered>)
    ensures SoFar([], ns, 0)
  {
    assert [] + Items(ns, 0) == Items(ns, 0);
  }

  lemma SoFarAll(items: seq<ParsedItem>, ns: seq<Numbered>)
    requires SoFar(items, ns, |ns|)
    ensures items == Items(ns, 0)
  {
    assert Items(ns, |ns|) == [] && items + [] == items;
  }

  function Promotable(items: seq<ParsedItem>, starts: set<nat>): seq<ParsedItem> {
    if items == [] then [] else (if items[0].startLine in starts then [items[0]] else []) + Promotable(items[1..], starts)
  }

  /** What is left of a subsection: all but the promotable items. */
  function Kept(ns: seq<Numbered>, starts: set<nat>, i: nat): seq<Numbered>
    requires i <= |ns|
    decreases |ns| - i
  {
    var s := NextItem(ns, i);
    if s == |ns| then ns[i..] else
      var e := NextItem(ns, s + 1);
      ns[i..s] + (if ns[s].number in starts then [] else ns[s..e]) + Kept(ns, starts, e)
  }

  function ItemLines(items: seq<ParsedItem>): seq<Line> {
    if items == [] then [] else Solid(items[0].lines) + ItemLines(items[1..])
  }

  /** Every solid line either stays or belongs to a promotable item; none is lost or doubled. */
  lemma {:induction false} ItemsConserve(ns: seq<Numbered>, starts: set<nat>, i: nat)
    requires i <= |ns|
    ensures multiset(Solid(Texts(ns[i..])))
            == multiset(Solid(Texts(Kept(ns, starts, i)))) + multiset(ItemLines(Promotable(Items(ns, i), starts)))
    decreases |ns| - i
  {
    hide Solid, Trim, Texts, Kept, Items, Promotable, ItemLines;
    var s := NextItem(ns, i);
    if s == |ns| {
      LastStep(ns, starts, i);
    } else {
      var e := NextItem(ns, s + 1);
      ItemsConserve(ns, starts, e);
      Step(ns, starts, i);
      CutInThree(ns, i, s, e);
      SolidTexts(ns[i..s] + ns[s..e], ns[e..]);
      SolidTexts(ns[i..s], ns[s..e]);
    }
  }

  lemma LastStep(ns: seq<Numbered>, starts: set<nat>, i: nat)
    requires i <= |ns| && NextItem(ns, i) == |ns|
    ensures Kept(ns, starts, i) == ns[i..] && ItemLines(Promotable(Items(ns, i), starts)) == []
  {
  }

  /** One item: kept with what comes before it, or promoted. */
  lemma Step(ns: seq<Numbered>, starts: set<nat>, i: nat)
    requires i <= |ns| && NextItem(ns, i) < |ns|
    ensures var s := NextItem(ns, i);
            var e := NextItem(ns, s + 1);
            var before, item, moves := ns[i..s], ns[s..e], ns[s].number in starts;
            && Solid(Texts(Kept(ns, starts, i)))
                 == Solid(Texts(before)) + (if moves then [] else Solid(Texts(item))) + Solid(Texts(Kept(ns, starts, e)))
            && ItemLines(Promotable(Items(ns, i), starts))
                 == (if moves then Solid(Texts(item)) else []) + ItemLines(Promotable(Items(ns, e), starts))
  {
    hide Solid, Trim, Texts;
    var s := NextItem(ns, i);
    var e := NextItem(ns, s + 1);
    var item, keep, more := ns[s..e], Kept(ns, starts, e), Promotable(Items(ns, e), starts);
    var p := ParsedItem(ns[s].number, ns[e - 1].number, Trim(Texts(item)));
    ItemsStep(ns, i);
    PromotableStep(p, Items(ns, e), starts);
    SolidTrim(Texts(item));
    SolidTexts(ns[i..s], keep);
    SolidTexts(ns[i..s] + item, keep);
    SolidTexts(ns[i..s], item);
    KeptStep(ns, starts, i);
    ItemLinesCons(p, more);
    ItemLinesNone(more);
    AddNothing(Solid(Texts(ns[i..s])));
  }

  lemma KeptStep(ns: seq<Numbered>, starts: set<nat>, i: nat)
    requires i <= |ns| && NextItem(ns, i) < |ns|
    ensures var s := NextItem(ns, i);
            var e := NextItem(ns, s + 1);
            Kept(ns, starts, i) == (if ns[s].number in starts then ns[i..s] else ns[i..s] + ns[s..e]) + Kept(ns, starts, e)
  {
    var s := NextItem(ns, i);
    assert ns[i..s] + [] == ns[i..s];
  }

  lemma ItemsStep(ns: seq<Numbered>, i: nat)
    requires i <= |ns| && NextItem(ns, i) < |ns|
    ensures var s := NextItem(ns, i);
            var e := NextItem(ns, s + 1);
            Items(ns, i) == [ParsedItem(ns[s].number, ns[e - 1].number, Trim(Texts(ns[s..e])))] + Items(ns, e)
  {
    hide Trim, Texts;
  }

  lemma PromotableStep(p: ParsedItem, items: seq<ParsedItem>, starts: set<nat>)
    ensures Promotable([p] + items, starts) == (if p.startLine in starts then [p] else []) + Promotable(items, starts)
  {
    assert ([p] + items)[1..] == items;
  }

  lemma ItemLinesCons(p: ParsedItem, items: seq<ParsedItem>)
    ensures ItemLines([p] + items) == Solid(p.lines) + ItemLines(items)
  {
    hide Solid;
    assert ([p] + items)[1..] == items;
  }

  lemma ItemLinesNone(items: seq<ParsedItem>)
    ensures [] + items == items && [] + ItemLines(items) == ItemLines(items)
  {
  }

  lemma SolidTexts(a: seq<Numbered>, b: seq<Numbered>)
    ensures Solid(Texts(a + b)) == Solid(Texts(a)) + Solid(Texts(b))
  {
    assert Texts(a + b) == Texts(a) + Texts(b);
    SolidConcat(Texts(a), Texts(b));
  }

  // ----- removal by line number ------------------------------------------------------------

  /** Line numbers grow; within an item that is to be removed they have no gaps. */
  predicate Numbering(ns: seq<Numbered>) {
    forall i :: 0 <= i < |ns| ==> ns[i].number == ns[0].number + i
  }

  /** Line `n` belongs to one of the items. */
  predicate Hit(items: seq<ParsedItem>, n: nat) {
    items != [] && (items[0].startLine <= n <= items[0].endLine || Hit(items[1..], n))
  }

  lemma {:induction false} HitSnoc(items: seq<ParsedItem>, p: ParsedItem, n: nat)
    ensures Hit(items + [p], n) <==> Hit(items, n) || p.startLine <= n <= p.endLine
  {
    if items == [] {
      assert [] + [p] == [p] && [p][1..] == [];
    } else {
      assert (items + [p])[1..] == items[1..] + [p];
      HitSnoc(items[1..], p, n);
    }
  }

  /** `lineRangeSet`. */
  method LineRangeSet(items: seq<ParsedItem>) returns (lines: set<nat>)
    ensures forall n: nat :: n in lines <==> Hit(items, n)
  {
    lines := {};
    for i := 0 to |items|
      invariant forall n: nat :: n in lines <==> Hit(items[..i], n)
    {
      lines := AddRange(lines, items[i].startLine, items[i].endLine);
      forall n: nat ensures Hit(items[..i + 1], n) <==> Hit(items[..i], n) || items[i].startLine <= n <= items[i].endLine {
        assert items[..i + 1] == items[..i] + [items[i]];
        HitSnoc(items[..i], items[i], n);
      }
    }
    assert items[..|items|] == items;
  }

  method AddRange(before: set<nat>, start: nat, end: nat) returns (lines: set<nat>)
    ensures forall n: nat :: n in lines <==> n in before || start <= n <= end
  {
    lines := before;
    var line := start;
    while line <= end
      invariant start <= line && forall n: nat :: n in lines <==> n in before || (start <= n < line && n <= end)
      decreases end + 1 - line
    {
      lines := lines + {line};
      line := line + 1;
    }
  }

  function Without(ns: seq<Numbered>, gone: set<nat>, i: nat): seq<Numbered>
    requires i <= |ns|
    decreases |ns| - i
  {
    if i == |ns| then [] else (if ns[i].number in gone then [] else [ns[i]]) + Without(ns, gone, i + 1)
  }

  method RemoveLines(ns: seq<Numbered>, gone: set<nat>) returns (r: seq<Numbered>)
    ensures r == Without(ns, gone, 0)
  {
    r := [];
    for i := |ns| downto 0
      invariant r == Without(ns, gone, i)
    {
      if ns[i].number in gone { assert [] + r == r; } else { r := [ns[i]] + r; }
    }
  }

  lemma {:induction false} WithoutStretch(ns: seq<Numbered>, gone: set<nat>, i: nat, e: nat, all: bool)
    requires i <= e <= |ns| && forall k :: i <= k < e ==> (ns[k].number in gone <==> all)
    ensures Without(ns, gone, i) == (if all then [] else ns[i..e]) + Without(ns, gone, e)
    decreases e - i
  {
    if i == e {
      assert ns[i..e] == [] && [] + Without(ns, gone, e) == Without(ns, gone, e);
    } else {
      WithoutStretch(ns, gone, i + 1, e, all);
      var rest := Without(ns, gone, e);
      if all {
        assert [] + ([] + rest) == rest && [] + rest == rest;
      } else {
        assert ns[i..e] == [ns[i]] + ns[i + 1..e];
        assert [ns[i]] + (ns[i + 1..e] + rest) == ns[i..e] + rest;
      }
    }
  }

  lemma HitStep(ns: seq<Numbered>, starts: set<nat>, i: nat, n: nat)
    requires i <= |ns| && NextItem(ns, i) < |ns|
    ensures var s := NextItem(ns, i);
            var e := NextItem(ns, s + 1);
            Hit(Promotable(Items(ns, i), starts), n)
            <==> (ns[s].number in starts && ns[s].number <= n <= ns[e - 1].number) || Hit(Promotable(Items(ns, e), starts), n)
  {
    hide Trim, Texts, Items, Promotable;
    var s := NextItem(ns, i);
    var e := NextItem(ns, s + 1);
    var p, more := ParsedItem(ns[s].number, ns[e - 1].number, Trim(Texts(ns[s..e]))), Promotable(Items(ns, e), starts);
    ItemsStep(ns, i);
    PromotableStep(p, Items(ns, e), starts);
    assert ([p] + more)[1..] == more && [] + more == more;
  }

  lemma HitNone(ns: seq<Numbered>, starts: set<nat>, i: nat, n: nat)
    requires i <= |ns| && NextItem(ns, i) == |ns|
    ensures !Hit(Promotable(Items(ns, i), starts), n)
  {
  }

  /** Later items lie on later lines. */
  lemma {:induction false} HitBelow(ns: seq<Numbered>, starts: set<nat>, i: nat, n: nat)
    requires i <= |ns| && Numbering(ns) && Hit(Promotable(Items(ns, i), starts), n)
    ensures i < |ns| && ns[i].number <= n
    decreases |ns| - i
  {
    hide Hit, Promotable, Items;
    var s := NextItem(ns, i);
    if s == |ns| {
      HitNone(ns, starts, i, n);
    } else {
      var e := NextItem(ns, s + 1);
      HitStep(ns, starts, i, n);
      if Hit(Promotable(Items(ns, e), starts), n) { HitBelow(ns, starts, e, n); }
    }
  }

  /** Removing the promotable items' line numbers removes exactly the promotable items. */
  lemma {:induction false} RemovalIsExact(ns: seq<Numbered>, starts: set<nat>, gone: set<nat>, i: nat)
    requires i <= |ns| && Numbering(ns)
    requires forall k :: i <= k < |ns| ==> (ns[k].number in gone <==> Hit(Promotable(Items(ns, i), starts), ns[k].number))
    ensures Without(ns, gone, i) == Kept(ns, starts, i)
    decreases |ns| - i
  {
    hide Hit, Promotable, Items, Kept, Without;
    var s := NextItem(ns, i);
    if s == |ns| {
      forall k | i <= k < |ns| ensures ns[k].number !in gone { HitNone(ns, starts, i, ns[k].number); }
      WithoutStretch(ns, gone, i, |ns|, false);
      LastStep(ns, starts, i);
      WithoutEnd(ns, gone);
    } else {
      var e := NextItem(ns, s + 1);
      forall k | i <= k < |ns|
        ensures ns[k].number in gone <==> (if k < s then false else if k < e then ns[s].number in starts else Hit(Promotable(Items(ns, e), starts), ns[k].number))
      {
        HitStep(ns, starts, i, ns[k].number);
        if Hit(Promotable(Items(ns, e), starts), ns[k].number) { HitBelow(ns, starts, e, ns[k].number); }
      }
      WithoutStretch(ns, gone, i, s, false);
      WithoutStretch(ns, gone, s, e, ns[s].number in starts);
      RemovalIsExact(ns, starts, gone, e);
      KeptStep(ns, starts, i);
      Assoc(ns[i..s], ns[s..e], Kept(ns, starts, e));
      AddNothing(Kept(ns, starts, e));
    }
  }

  lemma WithoutEnd(ns: seq<Numbered>, gone: set<nat>)
    ensures Without(ns, gone, |ns|) == [] && forall a: seq<Numbered> :: a + Without(ns, gone, |ns|) == a
  {
  }

  /** What is kept holds no promotable item, so a second visit changes nothing. */
  predicate NoneToMove(ns: seq<Numbered>, starts: set<nat>) {
    forall k :: 0 <= k < |ns| ==> ns[k].line.Item? ==> ns[k].number !in starts
  }

  lemma {:induction false} KeptHasNone(ns: seq<Numbered>, starts: set<nat>, i: nat)
    requires i <= |ns|
    ensures NoneToMove(Kept(ns, starts, i), starts)
    decreases |ns| - i
  {
    hide Kept;
    var s := NextItem(ns, i);
    if s == |ns| {
      LastStep(ns, starts, i);
    } else {
      var e := NextItem(ns, s + 1);
      KeptHasNone(ns, starts, e);
      KeptStep(ns, starts, i);
    }
  }

  lemma {:induction false} NothingPromotable(ns: seq<Numbered>, starts: set<nat>, i: nat)
    requires i <= |ns| && NoneToMove(ns, starts)
    ensures Promotable(Items(ns, i), starts) == [] && Kept(ns, starts, i) == ns[i..]
    decreases |ns| - i
  {
    hide Kept, Items, Promotable;
    var s := NextItem(ns, i);
    if s == |ns| {
      LastNone(ns, starts, i);
    } else {
      var e := NextItem(ns, s + 1);
      NothingPromotable(ns, starts, e);
      KeptStep(ns, starts, i);
      ItemsStep(ns, i);
      var p := ParsedItem(ns[s].number, ns[e - 1].number, Trim(Texts(ns[s..e])));
      PromotableStep(p, Items(ns, e), starts);
      CutInThree(ns, i, s, e);
    }
  }

  lemma LastNone(ns: seq<Numbered>, starts: set<nat>, i: nat)
    requires i <= |ns| && NextItem(ns, i) == |ns|
    ensures Promotable(Items(ns, i), starts) == [] && Kept(ns, starts, i) == ns[i..]
  {
  }
}
