/** Fixing a changelog: promotion, normalising, printing, and why fixing twice is fixing once. */
module FixChangelog {
  import opened Options
  import opened Sequences
  import opened Changelog
  import opened ChangelogFix
  import opened ChangelogPrint
  import opened ChangelogPromote
  import opened ChangelogItems
  import opened ChangelogMoves

  // ----- one released section ---------------------------------------------------------------

  function PromotedSub(sub: Subsection, starts: set<nat>): Subsection {
    sub.(lines := Kept(sub.lines, starts, 0))
  }

  function PromotedSubs(subs: seq<Subsection>, starts: set<nat>): (r: seq<Subsection>)
    ensures |r| == |subs| && forall i :: 0 <= i < |r| ==> r[i] == PromotedSub(subs[i], starts)
  {
    seq(|subs|, i requires 0 <= i < |subs| => PromotedSub(subs[i], starts))
  }

  function PromotedSection(s: Section, starts: set<nat>): Section {
    s.(subsections := PromotedSubs(s.subsections, starts))
  }

  datatype Moved = Moved(title: string, lines: seq<Line>)

  function MovedItems(title: string, items: seq<ParsedItem>): (m: seq<Moved>)
    ensures |m| == |items| && forall i :: 0 <= i < |m| ==> m[i] == Moved(title, items[i].lines)
  {
    seq(|items|, i requires 0 <= i < |items| => Moved(title, items[i].lines))
  }

  /** The promotable items of a section, in order. */
  function SectionItems(subs: seq<Subsection>, starts: set<nat>, n: nat): seq<Moved>
    requires n <= |subs|
  {
    if n == 0 then [] else
      SectionItems(subs, starts, n - 1) + MovedItems(subs[n - 1].title, Promotable(Items(subs[n - 1].lines, 0), starts))
  }

  function Origins(moves: seq<Move>): (m: seq<Moved>)
    ensures |m| == |moves| && forall i :: 0 <= i < |m| ==> m[i] == Moved(moves[i].title, moves[i].lines)
  {
    seq(|moves|, i requires 0 <= i < |moves| => Moved(moves[i].title, moves[i].lines))
  }

  /** The state of the Unreleased section, which is created when it is first needed. */
  function FiledIn(u: Option<Section>, title: string): seq<Line> {
    if u.Some? then FiledAll(u.value.subsections, title) else []
  }

  function PresentIn(u: Option<Section>, title: string): seq<seq<Line>> {
    if u.Some? then Present(u.value.subsections, title) else []
  }

  /** An item was added exactly if it was not there at the start and had not been added before. */
  ghost predicate Deduplicates(moves: seq<Move>, u: Option<Section>, u': Option<Section>) {
    && (forall t :: PresentIn(u', t) == PresentIn(u, t) + AppendedTo(moves, t, |moves|))
    && (forall k :: 0 <= k < |moves| ==> Fair(PresentIn(u, moves[k].title), moves, k))
  }

  /** What the moves did: the appended ones, no more than needed, extend their categories, and all of them are there now. */
  ghost predicate Explains(moves: seq<Move>, u: Option<Section>, u': Option<Section>) {
    && Deduplicates(moves, u, u')
    && (forall t :: FiledIn(u', t) == FiledIn(u, t) + MovedTo(moves, t, |moves|))
    && (forall k :: 0 <= k < |moves| ==> Infix(Solid(moves[k].lines), FiledIn(u', moves[k].title)))
    && (moves == [] ==> u' == u)
  }

  lemma ExplainsNothing(u: Option<Section>)
    ensures Explains([], u, u)
  {
    hide Present;
    forall t ensures FiledIn(u, t) == FiledIn(u, t) + MovedTo([], t, 0) { AddNothing(FiledIn(u, t)); }
  }

  lemma {:induction false} MovedConcat(a: seq<Move>, b: seq<Move>, t: string, n: nat)
    requires n <= |b|
    ensures MovedTo(a + b, t, |a| + n) == MovedTo(a, t, |a|) + MovedTo(b, t, n)
  {
    hide Solid;
    if n == 0 { MovedPrefix(a, a + b, t, |a|); } else { MovedConcat(a, b, t, n - 1); }
  }

  lemma ExplainsBoth(a: seq<Move>, b: seq<Move>, u: Option<Section>, v: Option<Section>, w: Option<Section>)
    requires Explains(a, u, v) && Explains(b, v, w)
    ensures Explains(a + b, u, w)
  {
    hide Solid, Infix, MovedTo, FiledIn, Deduplicates;
    DeduplicatesBoth(a, b, u, v, w);
    forall t ensures FiledIn(w, t) == FiledIn(u, t) + MovedTo(a + b, t, |a + b|) {
      MovedConcat(a, b, t, |b|);
      Assoc(FiledIn(u, t), MovedTo(a, t, |a|), MovedTo(b, t, |b|));
    }
    forall k | 0 <= k < |a + b| ensures Infix(Solid((a + b)[k].lines), FiledIn(w, (a + b)[k].title)) {
      if k < |a| {
        var t := a[k].title;
        InfixGrows(Solid(a[k].lines), [], FiledIn(v, t), MovedTo(b, t, |b|));
        AddNothing(FiledIn(v, t));
      }
    }
  }

  lemma {:induction false} AppendedConcat(a: seq<Move>, b: seq<Move>, t: string, n: nat)
    requires n <= |b|
    ensures AppendedTo(a + b, t, |a| + n) == AppendedTo(a, t, |a|) + AppendedTo(b, t, n)
  {
    if n == 0 { AppendedPrefix(a, a + b, t, |a|); } else { AppendedConcat(a, b, t, n - 1); }
  }

  lemma DeduplicatesBoth(a: seq<Move>, b: seq<Move>, u: Option<Section>, v: Option<Section>, w: Option<Section>)
    requires Deduplicates(a, u, v) && Deduplicates(b, v, w)
    ensures Deduplicates(a + b, u, w)
  {
    hide AppendedTo, PresentIn;
    forall t ensures PresentIn(w, t) == PresentIn(u, t) + AppendedTo(a + b, t, |a + b|) {
      AppendedConcat(a, b, t, |b|);
      assert PresentIn(u, t) + AppendedTo(a, t, |a|) + AppendedTo(b, t, |b|) == PresentIn(u, t) + (AppendedTo(a, t, |a|) + AppendedTo(b, t, |b|));
    }
    forall k | 0 <= k < |a + b| ensures Fair(PresentIn(u, (a + b)[k].title), a + b, k) {
      if k < |a| {
        assert Fair(PresentIn(u, a[k].title), a, k);
        AppendedPrefix(a, a + b, a[k].title, k);
      } else {
        var m := b[k - |a|];
        assert Fair(PresentIn(v, m.title), b, k - |a|);
        AppendedConcat(a, b, m.title, k - |a|);
        assert PresentIn(u, m.title) + AppendedTo(a, m.title, |a|) + AppendedTo(b, m.title, k - |a|)
               == PresentIn(u, m.title) + (AppendedTo(a, m.title, |a|) + AppendedTo(b, m.title, k - |a|));
      }
    }
  }

  predicate Visitable(s: Section, starts: set<nat>) {
    SectionOk(s) && forall i :: 0 <= i < |s.subsections| ==> Numbering(s.subsections[i].lines) || NoneToMove(s.subsections[i].lines, starts)
  }

  lemma {:induction false} ItemBodies(ns: seq<Numbered>, starts: set<nat>, i: nat)
    requires i <= |ns| && BodyLines(ns)
    ensures forall p :: p in Promotable(Items(ns, i), starts) ==> forall k :: 0 <= k < |p.lines| ==> BodyLine(p.lines[k])
    decreases |ns| - i
  {
    hide Items, Promotable, Trim;
    var s := NextItem(ns, i);
    if s == |ns| {
      LastNone(ns, starts, i);
    } else {
      var e := NextItem(ns, s + 1);
      ItemsStep(ns, i);
      PromotableStep(ParsedItem(ns[s].number, ns[e - 1].number, Trim(Texts(ns[s..e]))), Items(ns, e), starts);
      ItemBodies(ns, starts, e);
      BodyParts(Texts(ns[s..e]));
    }
  }

  lemma {:induction false} KeptBodies(ns: seq<Numbered>, starts: set<nat>, i: nat)
    requires i <= |ns| && BodyLines(ns)
    ensures BodyLines(Kept(ns, starts, i))
    decreases |ns| - i
  {
    hide Kept;
    var s := NextItem(ns, i);
    if s == |ns| {
      LastNone(ns, starts, i);
    } else {
      var e := NextItem(ns, s + 1);
      KeptStep(ns, starts, i);
      KeptBodies(ns, starts, e);
      BodiesJoin(ns[i..s], ns[s..e]);
      BodiesJoin(if ns[s].number in starts then ns[i..s] else ns[i..s] + ns[s..e], Kept(ns, starts, e));
    }
  }

  lemma BodiesJoin(a: seq<Numbered>, b: seq<Numbered>)
    ensures BodyLines(a) && BodyLines(b) ==> BodyLines(a + b)
  {
  }

  /** Removes a subsection's promotable items and returns them. */
  method TakeItems(sub: Subsection, starts: set<nat>) returns (sub': Subsection, items: seq<ParsedItem>)
    requires Numbering(sub.lines) || NoneToMove(sub.lines, starts)
    ensures items == Promotable(Items(sub.lines, 0), starts) && sub' == PromotedSub(sub, starts)
  {
    hide Items, Promotable, Kept, Hit, Without;
    var parsed := ParseItems(sub.lines);
    items := Promotable(parsed, starts);
    assert sub.lines[0..] == sub.lines;
    if items == [] {
      NoneMeansKept(sub.lines, starts, 0);
      return sub, [];
    }
    if NoneToMove(sub.lines, starts) { NothingPromotable(sub.lines, starts, 0); }
    var gone := LineRangeSet(items);
    var left := RemoveLines(sub.lines, gone);
    RemovalIsExact(sub.lines, starts, gone, 0);
    sub' := sub.(lines := left);
  }

  lemma {:induction false} NoneMeansKept(ns: seq<Numbered>, starts: set<nat>, i: nat)
    requires i <= |ns| && Promotable(Items(ns, i), starts) == []
    ensures Kept(ns, starts, i) == ns[i..]
    decreases |ns| - i
  {
    hide Items, Promotable, Kept;
    var s := NextItem(ns, i);
    if s == |ns| {
      LastNone(ns, starts, i);
    } else {
      var e := NextItem(ns, s + 1);
      ItemsStep(ns, i);
      PromotableStep(ParsedItem(ns[s].number, ns[e - 1].number, Trim(Texts(ns[s..e]))), Items(ns, e), starts);
      NoneMeansKept(ns, starts, e);
      KeptStep(ns, starts, i);
      CutInThree(ns, i, s, e);
    }
  }

  const NEW_UNRELEASED := Section(Release("Unreleased", 0), "Unreleased", [], [])

  lemma SubBodies(s: Section, j: nat)
    requires SectionOk(s) && j < |s.subsections|
    ensures BodyLines(s.subsections[j].lines)
  {
  }

  /** The Unreleased section, created if there is none, receives items. */
  method Receive(u: Option<Section>, sub: Subsection, items: seq<ParsedItem>, starts: set<nat>) returns (u': Option<Section>, ghost moves: seq<Move>)
    requires (u.Some? ==> SectionOk(u.value)) && BodyLines(sub.lines) && items != [] && items == Promotable(Items(sub.lines, 0), starts)
    ensures u'.Some? && SectionOk(u'.value) && Explains(moves, u, u') && Origins(moves) == MovedItems(sub.title, items)
    ensures var base := if u.Some? then u.value else NEW_UNRELEASED; u'.value == base.(subsections := u'.value.subsections)
  {
    hide Items, Promotable, Solid, Filed, MovedTo, Infix, Present, ItemBlock, Fair, AppendedTo;
    ItemBodies(sub.lines, starts, 0);
    ItemsAreBlocks(sub.lines, starts, 0);
    NothingFiled();
    var base := if u.Some? then u.value else NEW_UNRELEASED;
    var r;
    r, moves := AddItems(base, sub.title, items);
    u' := Some(r);
  }

  lemma NothingFiled()
    ensures forall t :: FiledAll([], t) == [] && Present([], t) == []
  {
  }

  /** The inner loop: every subsection of one released section. */
  method PromoteSection(s: Section, starts: set<nat>, u: Option<Section>) returns (s': Section, u': Option<Section>, ghost moves: seq<Move>, count: nat)
    requires Visitable(s, starts) && (u.Some? ==> SectionOk(u.value))
    ensures s' == PromotedSection(s, starts) && count == |moves|
    ensures Origins(moves) == SectionItems(s.subsections, starts, |s.subsections|)
    ensures Explains(moves, u, u') && (u'.Some? ==> SectionOk(u'.value))
    ensures u.Some? ==> u'.Some? && u'.value == u.value.(subsections := u'.value.subsections)
    ensures u == None ==> (u' == None <==> moves == []) && (u'.Some? ==> u'.value == NEW_UNRELEASED.(subsections := u'.value.subsections))
  {
    hide Explains, Items, Promotable, Kept, SectionOk;
    s', u', moves, count := s, u, [], 0;
    ExplainsNothing(u);
    for j := 0 to |s.subsections|
      invariant |s'.subsections| == |s.subsections| && s' == s.(subsections := s'.subsections) && count == |moves|
      invariant forall i :: 0 <= i < |s.subsections| ==>
                  s'.subsections[i] == if i < j then PromotedSub(s.subsections[i], starts) else s.subsections[i]
      invariant Origins(moves) == SectionItems(s.subsections, starts, j)
      invariant Explains(moves, u, u') && (u'.Some? ==> SectionOk(u'.value))
      invariant u.Some? ==> u'.Some? && u'.value == u.value.(subsections := u'.value.subsections)
      invariant u == None ==> (u' == None <==> moves == []) && (u'.Some? ==> u'.value == NEW_UNRELEASED.(subsections := u'.value.subsections))
    {
      var sub, items := TakeItems(s.subsections[j], starts);
      s' := s'.(subsections := s'.subsections[j := sub]);
      if |items| > 0 {
        SubBodies(s, j);
        ghost var before := u';
        ghost var more;
        u', more := Receive(u', s.subsections[j], items, starts);
        ExplainsBoth(moves, more, u, before, u');
        moves, count := moves + more, count + |items|;
      }
    }
  }

  // ----- all sections -------------------------------------------------------------------------

  /** The position of the first Unreleased section from `i` on, or the end. */
  function UnreleasedFrom(ss: seq<Section>, i: nat): (r: nat)
    requires i <= |ss|
    ensures i <= r <= |ss| && (r < |ss| ==> ss[r].title == UNRELEASED) && forall k :: i <= k < r ==> ss[k].title != UNRELEASED
    decreases |ss| - i
  {
    if i == |ss| || ss[i].title == UNRELEASED then i else UnreleasedFrom(ss, i + 1)
  }

  function AllItems(ss: seq<Section>, starts: set<nat>, n: nat): seq<Moved>
    requires n <= |ss|
  {
    if n == 0 then [] else
      AllItems(ss, starts, n - 1) + if ss[n - 1].title == UNRELEASED then [] else SectionItems(ss[n - 1].subsections, starts, |ss[n - 1].subsections|)
  }

  /** A section after promotion; the Unreleased ones are not visited. */
  function After(s: Section, starts: set<nat>): Section {
    if s.title == UNRELEASED then s else PromotedSection(s, starts)
  }

  /**
   What promotion did to a document: `at` is where the Unreleased section was, or the end if there was
   none, and `shift` is 1 if one had to be put in front.
   */
  ghost predicate PromotedTo(before: seq<Section>, starts: set<nat>, after: seq<Section>, moves: seq<Move>, at: nat, shift: nat) {
    && at == UnreleasedFrom(before, 0) && shift == (if at == |before| && moves != [] then 1 else 0)
    && |after| == |before| + shift
    && (forall i :: 0 <= i < |before| && i != at ==> after[i + shift] == After(before[i], starts))
    && Origins(moves) == AllItems(before, starts, |before|)
    && Explains(moves, Target(before, at), if at < |before| then Some(after[at]) else if shift == 1 then Some(after[0]) else None)
    && (at < |before| ==> after[at] == before[at].(subsections := after[at].subsections))
    && (shift == 1 ==> after[0] == NEW_UNRELEASED.(subsections := after[0].subsections))
  }

  function Target(ss: seq<Section>, at: nat): Option<Section> {
    if at < |ss| then Some(ss[at]) else None
  }

  lemma {:induction false} KeptNumbering(subs: seq<Subsection>, starts: set<nat>, n: nat)
    requires n <= |subs|
    ensures forall i :: 0 <= i < n ==> NoneToMove(PromotedSub(subs[i], starts).lines, starts)
  {
    hide Kept, NoneToMove;
    if n > 0 {
      KeptNumbering(subs, starts, n - 1);
      KeptHasNone(subs[n - 1].lines, starts, 0);
    }
  }

  /** A section that was visited once can be visited again, to no effect. */
  lemma VisitedAgain(s: Section, starts: set<nat>)
    requires SectionOk(s)
    ensures var r := PromotedSection(s, starts);
            Visitable(r, starts) && PromotedSection(r, starts) == r && SectionItems(r.subsections, starts, |r.subsections|) == []
  {
    hide Kept, NoneToMove, Items, Promotable, BodyLines;
    var r := PromotedSection(s, starts);
    KeptNumbering(s.subsections, starts, |s.subsections|);
    forall i | 0 <= i < |r.subsections| ensures PromotedSub(r.subsections[i], starts) == r.subsections[i] && BodyLines(r.subsections[i].lines) {
      var ns := r.subsections[i].lines;
      NothingPromotable(ns, starts, 0);
      assert ns[0..] == ns;
      KeptBodies(s.subsections[i].lines, starts, 0);
    }
    NoSectionItems(r.subsections, starts, |r.subsections|);
  }

  lemma {:induction false} NoSectionItems(subs: seq<Subsection>, starts: set<nat>, n: nat)
    requires n <= |subs| && forall i :: 0 <= i < |subs| ==> NoneToMove(subs[i].lines, starts)
    ensures SectionItems(subs, starts, n) == []
  {
    hide NoneToMove, Items, Promotable;
    if n > 0 {
      NoSectionItems(subs, starts, n - 1);
      NothingPromotable(subs[n - 1].lines, starts, 0);
    }
  }

  /** The outer loop, after `visited` of the sections that were there at the start. */
  ghost predicate Visiting(before: seq<Section>, starts: set<nat>, now: seq<Section>, moves: seq<Move>, u: Option<Section>, at: nat, shift: nat, visited: nat) {
    && at == UnreleasedFrom(before, 0) && shift == (if at == |before| && u.Some? then 1 else 0)
    && |now| == |before| + shift && visited <= |before|
    && (forall i :: 0 <= i < |before| && i != at ==> now[i + shift] == if i < visited then After(before[i], starts) else before[i])
    && Origins(moves) == AllItems(before, starts, visited)
    && Explains(moves, Target(before, at), u) && (u.Some? ==> SectionOk(u.value))
    && (at < |before| ==> u.Some? && now[at] == u.value == before[at].(subsections := u.value.subsections))
    && (shift == 1 ==> now[0] == u.value == NEW_UNRELEASED.(subsections := u.value.subsections))
    && (at == |before| ==> (u == None <==> moves == []))
  }

  lemma VisitingStarts(before: seq<Section>, starts: set<nat>)
    requires forall i :: 0 <= i < |before| ==> SectionOk(before[i])
    ensures var at := UnreleasedFrom(before, 0); Visiting(before, starts, before, [], Target(before, at), at, 0, 0)
  {
    hide Explains, SectionOk;
    ExplainsNothing(Target(before, UnreleasedFrom(before, 0)));
  }

  lemma VisitingSkips(before: seq<Section>, starts: set<nat>, now: seq<Section>, moves: seq<Move>, u: Option<Section>, at: nat, shift: nat, visited: nat)
    requires Visiting(before, starts, now, moves, u, at, shift, visited) && visited < |before| && before[visited].title == UNRELEASED
    ensures Visiting(before, starts, now, moves, u, at, shift, visited + 1)
  {
    hide Explains, SectionOk, SectionItems, AllItems, Origins, Target, UnreleasedFrom, PromotedSection;
    AllItemsSkip(before, starts, visited);
  }

  lemma AllItemsSkip(ss: seq<Section>, starts: set<nat>, n: nat)
    requires n < |ss| && ss[n].title == UNRELEASED
    ensures AllItems(ss, starts, n + 1) == AllItems(ss, starts, n)
  {
    hide SectionItems;
    AddNothing(AllItems(ss, starts, n));
  }

  /** One section visited for the first time; `pos` is where it is now. */
  lemma VisitingNext(before: seq<Section>, starts: set<nat>, now: seq<Section>, moves: seq<Move>, u: Option<Section>, at: nat, shift: nat, visited: nat,
                     s': Section, u': Option<Section>, more: seq<Move>, now': seq<Section>)
    requires Visiting(before, starts, now, moves, u, at, shift, visited) && visited < |before| && before[visited].title != UNRELEASED
    requires s' == PromotedSection(before[visited], starts)
    requires Origins(more) == SectionItems(before[visited].subsections, starts, |before[visited].subsections|)
    requires Explains(more, u, u') && (u'.Some? ==> SectionOk(u'.value))
    requires u.Some? ==> u'.Some? && u'.value == u.value.(subsections := u'.value.subsections)
    requires u == None ==> (u' == None <==> more == []) && (u'.Some? ==> u'.value == NEW_UNRELEASED.(subsections := u'.value.subsections))
    requires now' == Updated(now, visited + shift, s', u, u', if at < |before| then at else 0)
    ensures Visiting(before, starts, now', moves + more, u', at, if at == |before| && u'.Some? then 1 else 0, visited + 1)
  {
    hide Explains, SectionOk, SectionItems, PromotedSection, AllItems, Origins, UnreleasedFrom;
    ExplainsBoth(moves, more, Target(before, at), u, u');
    OriginsConcat(moves, more);
    AllItemsNext(before, starts, visited);
  }

  lemma AllItemsNext(ss: seq<Section>, starts: set<nat>, n: nat)
    requires n < |ss| && ss[n].title != UNRELEASED
    ensures AllItems(ss, starts, n + 1) == AllItems(ss, starts, n) + SectionItems(ss[n].subsections, starts, |ss[n].subsections|)
  {
    hide SectionItems;
  }

  lemma OriginsConcat(a: seq<Move>, b: seq<Move>)
    ensures Origins(a + b) == Origins(a) + Origins(b)
  {
  }

  /** The section replaced, and the Unreleased one put in front or replaced. */
  function Updated(now: seq<Section>, k: nat, s': Section, u: Option<Section>, u': Option<Section>, unreleased: nat): seq<Section>
    requires k < |now| && (u.Some? ==> unreleased < |now|)
  {
    var sections := now[k := s'];
    if u' == None then sections else if u == None then [u'.value] + sections else sections[unreleased := u'.value]
  }

  /** Visiting a section again, as happens when the Unreleased section has just been put in front, changes nothing. */
  lemma VisitingAgain(before: seq<Section>, starts: set<nat>, now: seq<Section>, moves: seq<Move>, u: Option<Section>, at: nat, shift: nat, visited: nat,
                      s': Section, u': Option<Section>, more: seq<Move>)
    requires Visiting(before, starts, now, moves, u, at, shift, visited) && 0 < visited && u.Some?
    requires visited - 1 != at && SectionOk(before[visited - 1]) && before[visited - 1].title != UNRELEASED
    requires var s := now[visited - 1 + shift];
             && s' == PromotedSection(s, starts) && Origins(more) == SectionItems(s.subsections, starts, |s.subsections|)
    requires Explains(more, u, u') && u'.Some? && SectionOk(u'.value) && u'.value == u.value.(subsections := u'.value.subsections)
    ensures var now' := Updated(now, visited - 1 + shift, s', u, u', if at < |before| then at else 0);
            Visiting(before, starts, now', moves + more, u', at, shift, visited)
  {
    hide Explains, SectionOk, SectionItems, PromotedSection;
    VisitedAgain(before[visited - 1], starts);
    ExplainsBoth(moves, more, Target(before, at), u, u');
    OriginsConcat(moves, more);
    AddNothing(Origins(moves));
  }

  /** An Unreleased section met in the loop has not been visited. */
  lemma Untouched(before: seq<Section>, starts: set<nat>, now: seq<Section>, moves: seq<Move>, u: Option<Section>, at: nat, shift: nat, visited: nat, i: nat)
    requires Visiting(before, starts, now, moves, u, at, shift, visited) && i < |before| && i <= visited <= i + 1
    requires now[i + shift].title == UNRELEASED && (visited == i + 1 ==> before[i].title != UNRELEASED)
    ensures visited == i && before[i].title == UNRELEASED
  {
    hide Explains, SectionOk, SectionItems;
  }

  /** Any other section can be visited, for the first time or again. */
  lemma Current(before: seq<Section>, starts: set<nat>, now: seq<Section>, moves: seq<Move>, u: Option<Section>, at: nat, shift: nat, visited: nat, i: nat)
    requires Visiting(before, starts, now, moves, u, at, shift, visited) && i < |before| && i <= visited <= i + 1
    requires now[i + shift].title != UNRELEASED && forall k :: 0 <= k < |before| ==> Visitable(before[k], starts)
    requires visited == i + 1 ==> i != at && before[i].title != UNRELEASED
    ensures i != at && before[i].title != UNRELEASED && SectionOk(before[i]) && (u.Some? ==> SectionOk(u.value))
    ensures Visitable(now[i + shift], starts) && now[i + shift] == if visited == i then before[i] else PromotedSection(before[i], starts)
  {
    hide Explains, SectionOk, SectionItems, PromotedSection;
    assert Visitable(before[i], starts);
    VisitableOk(before[i], starts);
    if visited == i + 1 { VisitedAgain(before[i], starts); }
  }

  lemma VisitableOk(s: Section, starts: set<nat>)
    requires Visitable(s, starts)
    ensures SectionOk(s)
  {
  }

  lemma VisitingEnds(before: seq<Section>, starts: set<nat>, now: seq<Section>, moves: seq<Move>, u: Option<Section>, at: nat, shift: nat, visited: nat)
    requires Visiting(before, starts, now, moves, u, at, shift, visited) && visited == |before|
    ensures PromotedTo(before, starts, now, moves, at, shift)
  {
    hide Explains, SectionOk, AllItems, After, Infix;
  }

  method PromoteAll(sections: seq<Section>, starts: set<nat>) returns (r: seq<Section>, count: nat, ghost moves: seq<Move>, ghost at: nat, ghost shift: nat)
    requires forall i :: 0 <= i < |sections| ==> Visitable(sections[i], starts)
    ensures forall i :: 0 <= i < |r| ==> SectionOk(r[i])
    ensures PromotedTo(sections, starts, r, moves, at, shift) && count == |moves|
  {
    hide Explains, SectionOk, SectionItems, PromotedSection, UnreleasedFrom, AllItems, Origins;
    var unreleased := UnreleasedFrom(sections, 0);
    var u := Target(sections, unreleased);
    r, count, moves, at, shift := sections, 0, [], unreleased, 0;
    forall i | 0 <= i < |sections| ensures SectionOk(sections[i]) { VisitableOk(sections[i], starts); }
    VisitingStarts(sections, starts);
    if unreleased == |sections| { unreleased := 0; }
    var k := 0;
    ghost var visited := 0;
    while k < |r|
      invariant Visiting(sections, starts, r, moves, u, at, shift, visited) && count == |moves|
      invariant shift <= k <= |r| && k - shift <= visited <= k - shift + 1 && unreleased == (if at < |sections| then at else 0)
      invariant visited == k - shift + 1 ==> u.Some? && visited - 1 != at && sections[visited - 1].title != UNRELEASED
      decreases if u == None then 1 else 0, |r| - k
    {
      var section := r[k];
      ghost var i := k - shift;
      if section.title == UNRELEASED {
        Untouched(sections, starts, r, moves, u, at, shift, visited, i);
        VisitingSkips(sections, starts, r, moves, u, at, shift, visited);
        visited := visited + 1;
        k := k + 1;
        continue;
      }
      ghost var u0, now0, moves0 := u, r, moves;
      Current(sections, starts, r, moves, u, at, shift, visited, i);
      var section', u', more, c := PromoteSection(section, starts, u);
      r := r[k := section'];
      if u'.Some? {
        if u == None { r := [u'.value] + r; } else { r := r[unreleased := u'.value]; }
      }
      if visited == i {
        VisitingNext(sections, starts, now0, moves0, u0, at, shift, visited, section', u', more, r);
        shift, visited := if at == |sections| && u'.Some? then 1 else 0, visited + 1;
      } else {
        VisitingAgain(sections, starts, now0, moves0, u0, at, shift, visited, section', u', more);
      }
      u, moves, count := u', moves + more, count + c;
      k := k + 1;
    }
    VisitingEnds(sections, starts, r, moves, u, at, shift, visited);
    AllOk(sections, starts, r, moves, u, at, shift, visited);
  }

  lemma AllOk(before: seq<Section>, starts: set<nat>, now: seq<Section>, moves: seq<Move>, u: Option<Section>, at: nat, shift: nat, visited: nat)
    requires Visiting(before, starts, now, moves, u, at, shift, visited) && forall i :: 0 <= i < |before| ==> SectionOk(before[i])
    ensures forall i :: 0 <= i < |now| ==> SectionOk(now[i])
  {
    hide Explains, SectionOk, AllItems, PromotedSection;
    forall i | 0 <= i < |now| ensures SectionOk(now[i]) {
      if i >= shift && i - shift != at { SectionStillOk(before[i - shift], starts); }
    }
  }

  lemma SectionStillOk(s: Section, starts: set<nat>)
    requires SectionOk(s)
    ensures SectionOk(PromotedSection(s, starts))
  {
    VisitedAgain(s, starts);
    VisitableOk(PromotedSection(s, starts), starts);
  }

  // ----- the whole fix -------------------------------------------------------------------------

  /** As parsed, the lines of a subsection carry consecutive numbers, the last of them no higher than `n`. */
  predicate AllNumbered(s: Section) {
    forall i :: 0 <= i < |s.subsections| ==> Numbering(s.subsections[i].lines)
  }

  predicate OpenAt(s: Section, n: nat) {
    s.subsections != [] ==> var ls := s.subsections[|s.subsections| - 1].lines; ls != [] ==> ls[|ls| - 1].number == n
  }

  lemma {:induction false} ParseNumbers(ls: seq<Line>, n: nat)
    requires n <= |ls|
    ensures var d := FeedTo(NOTHING, WithNumbers(ls), n);
            (forall i :: 0 <= i < |d.sections| ==> AllNumbered(d.sections[i])) && (d.sections != [] ==> OpenAt(d.sections[|d.sections| - 1], n))
  {
    hide Feed, AllNumbered, OpenAt;
    if n > 0 {
      ParseNumbers(ls, n - 1);
      var d := FeedTo(NOTHING, WithNumbers(ls), n - 1);
      if d.sections != [] { FeedNumbers(d.sections[|d.sections| - 1], WithNumbers(ls)[n - 1]); }
      FeedParts(d, WithNumbers(ls)[n - 1]);
    }
  }

  /** A line read into a section goes on from its last number. */
  lemma FeedNumbers(s: Section, l: Numbered)
    requires l.number > 0 && AllNumbered(s) && OpenAt(s, l.number - 1)
    ensures AllNumbered(FeedSection(s, l)) && OpenAt(FeedSection(s, l), l.number)
  {
  }

  /** A line opens a section, or leaves all but the last as they are. */
  lemma FeedParts(d: Document, l: Numbered)
    ensures var r := Feed(d, l);
            if l.line.Release? then
              && r.sections == d.sections + [Section(l.line, l.line.title, [], [])]
              && AllNumbered(Section(l.line, l.line.title, [], [])) && OpenAt(Section(l.line, l.line.title, [], []), l.number)
            else if d.sections == [] then r.sections == []
            else r.sections == d.sections[|d.sections| - 1 := FeedSection(d.sections[|d.sections| - 1], l)]
  {
  }

  predicate AllClean(ss: seq<Section>) {
    forall k :: 0 <= k < |ss| ==> Clean(ss[k].subsections)
  }

  function NormalAll(ss: seq<Section>): (r: seq<Section>)
    ensures |r| == |ss| && forall i :: 0 <= i < |r| ==> r[i] == Normal(ss[i])
  {
    seq(|ss|, i requires 0 <= i < |ss| => Normal(ss[i]))
  }

  /** The headings of the first `n` sections without a body. */
  function SumEmpty(ss: seq<Section>, n: nat): nat
    requires n <= |ss|
  {
    if n == 0 then 0 else SumEmpty(ss, n - 1) + EmptyHeadings(ss[n - 1].subsections, |ss[n - 1].subsections|)
  }

  /** The headings of the first `n` sections that neither are empty nor remain. */
  function SumDuplicates(ss: seq<Section>, n: nat): int
    requires n <= |ss|
  {
    if n == 0 then 0 else
      var subs := ss[n - 1].subsections;
      SumDuplicates(ss, n - 1) + |subs| - EmptyHeadings(subs, |subs|) - |Merged(subs, |subs|)|
  }

  method NormalizeAll(ss: seq<Section>) returns (r: seq<Section>, merged: nat, removed: nat)
    ensures r == NormalAll(ss)
    ensures merged == SumDuplicates(ss, |ss|) && removed == SumEmpty(ss, |ss|)
    ensures merged == 0 && removed == 0 <==> AllClean(ss)
  {
    hide Normal, Clean, EmptyHeadings, Merged;
    r, merged, removed := [], 0, 0;
    for k := 0 to |ss|
      invariant |r| == k && forall i :: 0 <= i < k ==> r[i] == Normal(ss[i])
      invariant merged == SumDuplicates(ss, k) && removed == SumEmpty(ss, k)
      invariant merged == 0 && removed == 0 <==> forall i :: 0 <= i < k ==> Clean(ss[i].subsections)
    {
      var s, m, e := NormalizeSection(ss[k]);
      r, merged, removed := r + [s], merged + m, removed + e;
    }
  }

  lemma NormalAllPrintable(ss: seq<Section>)
    requires forall i :: 0 <= i < |ss| ==> SectionOk(ss[i])
    ensures forall i :: 0 <= i < |ss| ==> Printable(NormalAll(ss)[i]) && SectionOk(NormalAll(ss)[i])
  {
    hide Normal, SectionOk, Tidy;
    forall i | 0 <= i < |ss| ensures Printable(NormalAll(ss)[i]) && SectionOk(NormalAll(ss)[i]) { NormalMeans(ss[i], ""); }
  }

  datatype FixResult = FixResult(content: seq<Line>, promotedItems: nat, mergedDuplicateHeadings: nat, removedEmptyHeadings: nat)

  /** What fixing makes of a content. */
  ghost predicate IsFix(content: seq<Line>, starts: set<nat>, r: FixResult, after: seq<Section>, moves: seq<Move>, at: nat, shift: nat) {
    var d := Parse(WithNumbers(content));
    && PromotedTo(d.sections, starts, after, moves, at, shift) && r.promotedItems == |moves|
    && (forall i :: 0 <= i < |after| ==> SectionOk(after[i]))
    && (if moves == [] && AllClean(after) then r.content == content
        else DocumentLike(Parse(WithNumbers(r.content)), Document(d.prefix, NormalAll(after)), |after|))
    && AllClean(Parse(WithNumbers(r.content)).sections)
    && r.mergedDuplicateHeadings == SumDuplicates(after, |after|) && r.removedEmptyHeadings == SumEmpty(after, |after|)
  }

  /**
   `fixChangelogContent`.  `after` are the sections once items have been promoted.  If there was anything
   to do, the content reads back as those sections normalised; if not, it is returned as it is.  Either
   way nothing is left to normalise, and no line is lost or doubled from the content given to the content returned.
   */
  method FixChangelogContent(content: seq<Line>, starts: set<nat>)
    returns (r: FixResult, ghost after: seq<Section>, ghost moves: seq<Move>, ghost at: nat, ghost shift: nat)
    ensures AllClean(Parse(WithNumbers(r.content)).sections)
    ensures IsFix(content, starts, r, after, moves, at, shift)
    ensures Conserved(Parse(WithNumbers(content)), starts, Parse(WithNumbers(r.content)), moves, at, shift)
  {
    hide PromotedTo, SectionOk, Normal, Clean, Parse, DocumentLike, Print, SumDuplicates, SumEmpty, ReadsAs, Conserved;
    var d := ParseChangelog(content);
    Parsed(content, starts);
    var sections, count, merged, removed;
    sections, count, moves, at, shift := PromoteAll(d.sections, starts);
    after := sections;
    var normal;
    normal, merged, removed := NormalizeAll(sections);
    if count == 0 && merged == 0 && removed == 0 {
      NothingMoved(d.sections, starts, after, moves, at, shift);
      SameReads(d);
      PromotionConserves(d, starts, d, after, moves, at, shift);
      return FixResult(content, 0, 0, 0), after, moves, at, shift;
    }
    var output := RenderChangelog(Document(d.prefix, normal));
    NormalAllPrintable(sections);
    RoundTrip(Document(d.prefix, normal));
    LikeTidyIsClean(Parse(WithNumbers(output)), Document(d.prefix, normal));
    PrintedReads(Parse(WithNumbers(output)), d.prefix, after);
    PromotionConserves(d, starts, Parse(WithNumbers(output)), after, moves, at, shift);
    r := FixResult(output, count, merged, removed);
  }

  lemma Parsed(content: seq<Line>, starts: set<nat>)
    ensures var d := Parse(WithNumbers(content)); DocumentOk(d) && forall i :: 0 <= i < |d.sections| ==> Visitable(d.sections[i], starts)
  {
    ParseNumbers(content, |content|);
    FeedOk(WithNumbers(content), |content|);
    hide Feed, FeedTo, NoneToMove, Numbering;
    var d := Parse(WithNumbers(content));
    forall i | 0 <= i < |d.sections| ensures Visitable(d.sections[i], starts) { assert AllNumbered(d.sections[i]); }
  }

  /** If no item was moved, no section changed. */
  lemma NothingMoved(before: seq<Section>, starts: set<nat>, after: seq<Section>, moves: seq<Move>, at: nat, shift: nat)
    requires PromotedTo(before, starts, after, moves, at, shift) && moves == []
    ensures after == before
  {
    hide SectionItems, Infix, PromotedSection, Solid;
    forall i | 0 <= i < |before| ensures after[i] == before[i] {
      if i != at && before[i].title != UNRELEASED {
        NoItemsIn(before, starts, |before|, i);
        NoItemsMeansSame(before[i], starts, |before[i].subsections|);
      }
    }
  }

  lemma {:induction false} NoItemsIn(ss: seq<Section>, starts: set<nat>, n: nat, i: nat)
    requires i < n <= |ss| && AllItems(ss, starts, n) == [] && ss[i].title != UNRELEASED
    ensures SectionItems(ss[i].subsections, starts, |ss[i].subsections|) == []
  {
    hide SectionItems;
    if i < n - 1 { NoItemsIn(ss, starts, n - 1, i); }
  }

  lemma {:induction false} NoItemsSame(subs: seq<Subsection>, starts: set<nat>, n: nat, i: nat)
    requires i < n <= |subs| && SectionItems(subs, starts, n) == []
    ensures PromotedSub(subs[i], starts) == subs[i]
  {
    hide Items, Promotable, Kept;
    if i < n - 1 {
      NoItemsSame(subs, starts, n - 1, i);
    } else {
      var ns := subs[i].lines;
      assert MovedItems(subs[i].title, Promotable(Items(ns, 0), starts)) == [];
      NoneMeansKept(ns, starts, 0);
      assert ns[0..] == ns;
    }
  }

  lemma NoItemsMeansSame(s: Section, starts: set<nat>, n: nat)
    requires n == |s.subsections| && SectionItems(s.subsections, starts, n) == []
    ensures PromotedSection(s, starts) == s
  {
    hide PromotedSub, SectionItems;
    forall i | 0 <= i < n ensures PromotedSub(s.subsections[i], starts) == s.subsections[i] { NoItemsSame(s.subsections, starts, n, i); }
    assert PromotedSubs(s.subsections, starts) == s.subsections;
  }

  /** The promotable items of the released sections of a content. */
  function ToPromote(content: seq<Line>, starts: set<nat>): seq<Moved> {
    var ss := Parse(WithNumbers(content)).sections;
    AllItems(ss, starts, |ss|)
  }

  /** Exactly when a content is left alone: when it is clean and no released section has a promotable item. */
  lemma UntouchedIff(content: seq<Line>, starts: set<nat>, r: FixResult, after: seq<Section>, moves: seq<Move>, at: nat, shift: nat)
    requires IsFix(content, starts, r, after, moves, at, shift)
    requires Conserved(Parse(WithNumbers(content)), starts, Parse(WithNumbers(r.content)), moves, at, shift)
    ensures r.content == content <==> AllClean(Parse(WithNumbers(content)).sections) && ToPromote(content, starts) == []
    ensures r.promotedItems == |ToPromote(content, starts)|
  {
    hide AllClean, Parse, DocumentLike, SumDuplicates, SumEmpty, Conserved, PromotedTo, AllItems;
    var ss := Parse(WithNumbers(content)).sections;
    MovesAre(ss, starts, after, moves, at, shift);
    if moves == [] { NothingMoved(ss, starts, after, moves, at, shift); }
    if r.content == content { NothingLeft(Parse(WithNumbers(content)), starts, moves, at, shift); }
  }

  lemma MovesAre(before: seq<Section>, starts: set<nat>, after: seq<Section>, moves: seq<Move>, at: nat, shift: nat)
    requires PromotedTo(before, starts, after, moves, at, shift)
    ensures |moves| == |AllItems(before, starts, |before|)| && at == UnreleasedFrom(before, 0)
  {
    hide AllItems, Explains, After;
    assert |Origins(moves)| == |moves|;
  }

  /** Fixed once, a content is left alone by any later fix that has nothing to promote, and by no other. */
  lemma FixAgain(content: seq<Line>, starts: set<nat>, r: FixResult, after: seq<Section>, moves: seq<Move>, at: nat, shift: nat,
                 starts': set<nat>, r': FixResult, after': seq<Section>, moves': seq<Move>, at': nat, shift': nat)
    requires IsFix(content, starts, r, after, moves, at, shift) && IsFix(r.content, starts', r', after', moves', at', shift')
    requires Conserved(Parse(WithNumbers(r.content)), starts', Parse(WithNumbers(r'.content)), moves', at', shift')
    ensures r'.content == r.content <==> ToPromote(r.content, starts') == []
    ensures r'.promotedItems == |ToPromote(r.content, starts')|
  {
    hide PromotedTo, AllClean, Parse, DocumentLike, SumDuplicates, SumEmpty, Conserved, ToPromote;
    UntouchedIff(r.content, starts', r', after', moves', at', shift');
  }

  method FixTwice(content: seq<Line>, starts: set<nat>, starts': set<nat>) returns (once: FixResult, twice: FixResult)
    ensures twice.content == once.content <==> ToPromote(once.content, starts') == []
    ensures twice.promotedItems == |ToPromote(once.content, starts')|
  {
    hide IsFix, Conserved, ToPromote;
    ghost var after, moves, at, shift, after', moves', at', shift';
    once, after, moves, at, shift := FixChangelogContent(content, starts);
    twice, after', moves', at', shift' := FixChangelogContent(once.content, starts');
    FixAgain(content, starts, once, after, moves, at, shift, starts', twice, after', moves', at', shift');
  }

  lemma {:induction false} SomeSolid(ls: seq<Line>, i: nat)
    requires i < |ls| && !ls[i].Blank?
    ensures Solid(ls) != []
  {
    if i < |ls| - 1 { SomeSolid(ls[..|ls| - 1], i); }
  }

  /** Every item has a line that is not blank: the one that begins it. */
  lemma {:induction false} ItemsSolid(ns: seq<Numbered>, i: nat)
    requires i <= |ns|
    ensures forall x :: x in Items(ns, i) ==> Solid(x.lines) != []
    decreases |ns| - i
  {
    hide Trim, Solid;
    var s := NextItem(ns, i);
    if s < |ns| {
      var e := NextItem(ns, s + 1);
      ItemsSolid(ns, e);
      SolidTrim(Texts(ns[s..e]));
      SomeSolid(Texts(ns[s..e]), 0);
    }
  }

  lemma {:induction false} PromotableIn(items: seq<ParsedItem>, starts: set<nat>)
    ensures forall x :: x in Promotable(items, starts) ==> x in items
  {
    if items != [] { PromotableIn(items[1..], starts); }
  }

  lemma {:induction false} SectionSolid(subs: seq<Subsection>, starts: set<nat>, n: nat)
    requires n <= |subs|
    ensures forall m :: m in SectionItems(subs, starts, n) ==> Solid(m.lines) != []
  {
    hide Solid, Items, Promotable;
    if n > 0 {
      SectionSolid(subs, starts, n - 1);
      ItemsSolid(subs[n - 1].lines, 0);
      PromotableIn(Items(subs[n - 1].lines, 0), starts);
    }
  }

  lemma {:induction false} AllSolid(ss: seq<Section>, starts: set<nat>, n: nat)
    requires n <= |ss|
    ensures forall m :: m in AllItems(ss, starts, n) ==> Solid(m.lines) != []
  {
    hide Solid, SectionItems;
    if n > 0 {
      AllSolid(ss, starts, n - 1);
      SectionSolid(ss[n - 1].subsections, starts, |ss[n - 1].subsections|);
    }
  }

  lemma {:induction false} NoneReleased(ss: seq<Section>, starts: set<nat>, title: string, n: nat)
    requires n <= |ss|
    requires forall k :: 0 <= k < n && ss[k].title != UNRELEASED ==> LeftFrom(ss[k].subsections, starts, title, |ss[k].subsections|) == []
    ensures LeftReleased(ss, starts, title, n) == []
  {
    hide LeftFrom;
    if n > 0 { NoneReleased(ss, starts, title, n - 1); }
  }

  lemma NoneMore(was: seq<Line>, left: seq<Line>)
    requires multiset(was) == multiset(was) + multiset(left)
    ensures left == []
  {
    forall x ensures multiset(left)[x] == 0 { assert (multiset(was) + multiset(left))[x] == multiset(was)[x] + multiset(left)[x]; }
    assert multiset(left) == multiset{} && |multiset(left)| == |left|;
  }

  /** A document that is as it was before has lost nothing: there was no item to promote. */
  lemma NothingLeft(d: Document, starts: set<nat>, moves: seq<Move>, at: nat, shift: nat)
    requires Conserved(d, starts, d, moves, at, shift) && at == UnreleasedFrom(d.sections, 0)
    ensures AllItems(d.sections, starts, |d.sections|) == []
  {
    hide LeftFrom, LeftReleased, OriginLines, AllItems, Solid, FiledAll;
    var ss := d.sections;
    var all := AllItems(ss, starts, |ss|);
    if all != [] {
      var title := all[0].title;
      forall k | 0 <= k < |ss| && ss[k].title != UNRELEASED ensures LeftFrom(ss[k].subsections, starts, title, |ss[k].subsections|) == [] {
        assert SectionConserved(ss[k], ss[k], starts, moves, false);
        assert CategoryConserved(ss[k], ss[k], starts, moves, false, title);
        NoneMore(FiledAll(ss[k].subsections, title), LeftFrom(ss[k].subsections, starts, title, |ss[k].subsections|));
      }
      NoneReleased(ss, starts, title, |ss|);
      AllLeft(ss, starts, title, |ss|);
      AllSolid(ss, starts, |ss|);
      assert OriginLines(all, title) == Solid(all[0].lines) + OriginLines(all[1..], title) by { OriginFirst(all); }
    }
  }

  lemma OriginFirst(ms: seq<Moved>)
    requires ms != []
    ensures OriginLines(ms, ms[0].title) == Solid(ms[0].lines) + OriginLines(ms[1..], ms[0].title)
  {
  }

  lemma NoStartHere(ns: seq<Numbered>)
    ensures NoneToMove(ns, {})
  {
  }

  lemma {:induction false} NothingToMove(ss: seq<Section>, n: nat)
    requires n <= |ss|
    ensures AllItems(ss, {}, n) == []
  {
    hide SectionItems, NoneToMove;
    if n > 0 {
      var subs := ss[n - 1].subsections;
      NothingToMove(ss, n - 1);
      forall i | 0 <= i < |subs| ensures NoneToMove(subs[i].lines, {}) { NoStartHere(subs[i].lines); }
      NoSectionItems(subs, {}, |subs|);
    }
  }

  // ----- conservation -----------------------------------------------------------------------------

  lemma {:induction false} FiledLike(a: seq<Subsection>, b: seq<Subsection>, title: string, n: nat)
    requires n <= |a| && n <= |b| && forall i :: 0 <= i < n ==> SubLike(a[i], b[i])
    ensures Filed(a, title, n) == Filed(b, title, n)
  {
    hide Solid, Trim;
    if n > 0 {
      FiledLike(a, b, title, n - 1);
      assert SubLike(a[n - 1], b[n - 1]);
      SolidTrim(Texts(a[n - 1].lines));
      SolidTrim(Texts(b[n - 1].lines));
    }
  }

  /**
   Read back, the printed document has the sections in their order, each with its heading, and under every
   category exactly the solid lines that were there after promotion, in their order.
   */
  lemma PrintedConserves(r: Document, prefix: seq<Numbered>, after: seq<Section>, k: nat, title: string)
    requires DocumentLike(r, Document(prefix, NormalAll(after)), |after|) && k < |after| && SectionOk(after[k])
    ensures k < |r.sections| == |after| && r.sections[k].heading == after[k].heading
    ensures FiledAll(r.sections[k].subsections, title) == FiledAll(after[k].subsections, title)
    ensures Solid(Texts(r.sections[k].leading)) == Solid(Texts(after[k].leading))
  {
    hide Normal, Filed, Solid, Trim, SectionOk, SubLike;
    NormalMeans(after[k], title);
    var x, y := r.sections[k], NormalAll(after)[k];
    assert SectionLike(x, y, |y.subsections|);
    FiledLike(x.subsections, y.subsections, title, |y.subsections|);
    SolidTrim(Texts(x.leading));
    SolidTrim(Texts(y.leading));
  }

  /** The lines of the items that left a category. */
  function LeftFrom(subs: seq<Subsection>, starts: set<nat>, title: string, n: nat): seq<Line>
    requires n <= |subs|
  {
    if n == 0 then [] else
      LeftFrom(subs, starts, title, n - 1) + if subs[n - 1].title == title then ItemLines(Promotable(Items(subs[n - 1].lines, 0), starts)) else []
  }

  /** A released section loses exactly the lines of its promotable items. */
  lemma {:induction false} ReleasedConserves(subs: seq<Subsection>, starts: set<nat>, title: string, n: nat)
    requires n <= |subs|
    ensures multiset(Filed(subs, title, n)) == multiset(Filed(PromotedSubs(subs, starts), title, n)) + multiset(LeftFrom(subs, starts, title, n))
  {
    hide Solid, Items, Promotable, Kept, ItemLines, PromotedSubs;
    if n > 0 {
      ReleasedConserves(subs, starts, title, n - 1);
      var ns := subs[n - 1].lines;
      ItemsConserve(ns, starts, 0);
      assert ns[0..] == ns;
      if subs[n - 1].title == title {
        Shared(Filed(subs, title, n - 1), Filed(PromotedSubs(subs, starts), title, n - 1), LeftFrom(subs, starts, title, n - 1),
               Solid(Texts(ns)), Solid(Texts(Kept(ns, starts, 0))), ItemLines(Promotable(Items(ns, 0), starts)));
      }
    }
  }

  /** Two lists shared out, one behind the other. */
  lemma Shared(a: seq<Line>, b: seq<Line>, c: seq<Line>, a': seq<Line>, b': seq<Line>, c': seq<Line>)
    requires multiset(a) == multiset(b) + multiset(c) && multiset(a') == multiset(b') + multiset(c')
    ensures multiset(a + a') == multiset(b + b') + multiset(c + c')
  {
  }

  /** The lines of the promoted items of a category, in order. */
  function OriginLines(ms: seq<Moved>, title: string): seq<Line> {
    if ms == [] then [] else (if ms[0].title == title then Solid(ms[0].lines) else []) + OriginLines(ms[1..], title)
  }

  /** What left a category of the released sections. */
  function LeftReleased(ss: seq<Section>, starts: set<nat>, title: string, n: nat): seq<Line>
    requires n <= |ss|
  {
    if n == 0 then [] else
      var s := ss[n - 1];
      LeftReleased(ss, starts, title, n - 1) + if s.title == UNRELEASED then [] else LeftFrom(s.subsections, starts, title, |s.subsections|)
  }

  lemma {:induction false} OriginConcat(a: seq<Moved>, b: seq<Moved>, title: string)
    ensures OriginLines(a + b, title) == OriginLines(a, title) + OriginLines(b, title)
  {
    hide Solid;
    if a == [] {
      assert a + b == b;
      AddNothing(OriginLines(b, title));
    } else {
      assert (a + b)[1..] == a[1..] + b && (a + b)[0] == a[0];
      OriginConcat(a[1..], b, title);
      Assoc(if a[0].title == title then Solid(a[0].lines) else [], OriginLines(a[1..], title), OriginLines(b, title));
    }
  }

  lemma {:induction false} OriginItems(items: seq<ParsedItem>, from: string, title: string)
    ensures OriginLines(MovedItems(from, items), title) == if from == title then ItemLines(items) else []
  {
    hide Solid;
    if items != [] {
      assert MovedItems(from, items)[1..] == MovedItems(from, items[1..]);
      OriginItems(items[1..], from, title);
      AddNothing(OriginLines(MovedItems(from, items[1..]), title));
    }
  }

  lemma {:induction false} SectionLeft(subs: seq<Subsection>, starts: set<nat>, title: string, n: nat)
    requires n <= |subs|
    ensures OriginLines(SectionItems(subs, starts, n), title) == LeftFrom(subs, starts, title, n)
  {
    hide Items, Promotable, ItemLines, OriginLines, MovedItems;
    if n == 0 {
      NoLines(title);
    } else {
      SectionLeft(subs, starts, title, n - 1);
      var items := Promotable(Items(subs[n - 1].lines, 0), starts);
      OriginConcat(SectionItems(subs, starts, n - 1), MovedItems(subs[n - 1].title, items), title);
      OriginItems(items, subs[n - 1].title, title);
    }
  }

  lemma NoLines(title: string)
    ensures OriginLines([], title) == []
  {
  }

  /** The lines of all promoted items of a category are exactly those that left it in the released sections. */
  lemma {:induction false} AllLeft(ss: seq<Section>, starts: set<nat>, title: string, n: nat)
    requires n <= |ss|
    ensures OriginLines(AllItems(ss, starts, n), title) == LeftReleased(ss, starts, title, n)
  {
    hide SectionItems, LeftFrom, OriginLines;
    NoLines(title);
    if n > 0 {
      AllLeft(ss, starts, title, n - 1);
      var subs := ss[n - 1].subsections;
      var more := if ss[n - 1].title == UNRELEASED then [] else SectionItems(subs, starts, |subs|);
      OriginConcat(AllItems(ss, starts, n - 1), more, title);
      SectionLeft(subs, starts, title, |subs|);
    }
  }

  /** The lines of the promoted items that were there already. */
  function DroppedTo(moves: seq<Move>, title: string, n: nat): seq<Line>
    requires n <= |moves|
  {
    if n == 0 then [] else
      DroppedTo(moves, title, n - 1) + if moves[n - 1].title == title && !moves[n - 1].appended then Solid(moves[n - 1].lines) else []
  }

  /** Every promoted line was added to its category or belongs to an item that was there already. */
  lemma {:induction false} AddedOrDropped(moves: seq<Move>, title: string, n: nat)
    requires n <= |moves|
    ensures multiset(OriginLines(Origins(moves[..n]), title)) == multiset(MovedTo(moves, title, n)) + multiset(DroppedTo(moves, title, n))
  {
    hide Solid, OriginLines, Origins;
    if n == 0 {
      NoOrigins(moves, title);
    } else {
      AddedOrDropped(moves, title, n - 1);
      OneOrigin(moves, title, n);
    }
  }

  lemma NoOrigins(moves: seq<Move>, title: string)
    ensures OriginLines(Origins(moves[..0]), title) == []
  {
  }

  lemma OneOrigin(moves: seq<Move>, title: string, n: nat)
    requires 0 < n <= |moves|
    ensures OriginLines(Origins(moves[..n]), title)
            == OriginLines(Origins(moves[..n - 1]), title) + if moves[n - 1].title == title then Solid(moves[n - 1].lines) else []
  {
    hide Solid;
    var m := moves[n - 1];
    var one := [Moved(m.title, m.lines)];
    assert Origins(moves[..n]) == Origins(moves[..n - 1]) + one;
    OriginConcat(Origins(moves[..n - 1]), one, title);
    assert one[1..] == [];
    AddNothing(if m.title == title then Solid(m.lines) else []);
  }

  /** What becomes of one category of one section, from the content given to the content returned. */
  ghost predicate CategoryConserved(before: Section, after: Section, starts: set<nat>, moves: seq<Move>, receives: bool, title: string) {
    var was, now := FiledAll(before.subsections, title), FiledAll(after.subsections, title);
    if receives then now == was + MovedTo(moves, title, |moves|)
    else if before.title == UNRELEASED then now == was
    else multiset(was) == multiset(now) + multiset(LeftFrom(before.subsections, starts, title, |before.subsections|))
  }

  ghost predicate SectionConserved(before: Section, after: Section, starts: set<nat>, moves: seq<Move>, receives: bool) {
    && after.heading == before.heading && Solid(Texts(after.leading)) == Solid(Texts(before.leading))
    && forall t :: CategoryConserved(before, after, starts, moves, receives, t)
  }

  /**
   Conservation, of every solid line: the prefix, the sections in their order, their headings and leading
   lines are kept; a released category and the items promoted out of it are what it was; the Unreleased
   section has what it had and, in order, what was added to it; and the promoted items of a category are
   exactly what left it.
   */
  ghost predicate Conserved(d: Document, starts: set<nat>, out: Document, moves: seq<Move>, at: nat, shift: nat) {
    && |out.sections| == |d.sections| + shift && Solid(Texts(out.prefix)) == Solid(Texts(d.prefix))
    && (forall k :: 0 <= k < |d.sections| ==> SectionConserved(d.sections[k], out.sections[k + shift], starts, moves, k == at))
    && (shift == 1 ==> SectionConserved(NEW_UNRELEASED, out.sections[0], starts, moves, true))
    && (forall t :: OriginLines(Origins(moves), t) == LeftReleased(d.sections, starts, t, |d.sections|))
  }

  /** The document reads as its sections after promotion, apart from blank lines and the grouping of categories. */
  ghost predicate ReadsAs(out: Document, prefix: seq<Numbered>, after: seq<Section>) {
    && |out.sections| == |after| && Solid(Texts(out.prefix)) == Solid(Texts(prefix))
    && forall k :: 0 <= k < |after| ==> SectionReads(out.sections[k], after[k])
  }

  ghost predicate SectionReads(out: Section, s: Section) {
    && out.heading == s.heading && Solid(Texts(out.leading)) == Solid(Texts(s.leading))
    && forall t :: FiledAll(out.subsections, t) == FiledAll(s.subsections, t)
  }

  lemma SameReads(d: Document)
    ensures ReadsAs(d, d.prefix, d.sections)
  {
  }

  lemma PrintedReads(out: Document, prefix: seq<Numbered>, after: seq<Section>)
    requires DocumentLike(out, Document(prefix, NormalAll(after)), |after|) && forall k :: 0 <= k < |after| ==> SectionOk(after[k])
    ensures ReadsAs(out, prefix, after)
  {
    hide Solid, SectionLike, SectionOk, FiledAll;
    SolidTrim(Texts(out.prefix));
    SolidTrim(Texts(prefix));
    forall k | 0 <= k < |after| ensures SectionReads(out.sections[k], after[k]) {
      PrintedConserves(out, prefix, after, k, "");
      forall t ensures FiledAll(out.sections[k].subsections, t) == FiledAll(after[k].subsections, t) {
        PrintedConserves(out, prefix, after, k, t);
      }
    }
  }

  lemma PromotionConserves(d: Document, starts: set<nat>, out: Document, after: seq<Section>, moves: seq<Move>, at: nat, shift: nat)
    requires PromotedTo(d.sections, starts, after, moves, at, shift) && ReadsAs(out, d.prefix, after)
    ensures Conserved(d, starts, out, moves, at, shift)
  {
    hide Solid, FiledAll, LeftFrom, LeftReleased, OriginLines, AllItems, MovedTo, Deduplicates, Infix, PromotedSection;
    forall t ensures OriginLines(Origins(moves), t) == LeftReleased(d.sections, starts, t, |d.sections|) {
      AllLeft(d.sections, starts, t, |d.sections|);
    }
    forall k | 0 <= k < |d.sections| ensures SectionConserved(d.sections[k], out.sections[k + shift], starts, moves, k == at) {
      var before, now, receives := d.sections[k], out.sections[k + shift], k == at;
      assert SectionReads(now, after[k + shift]);
      forall t ensures CategoryConserved(before, now, starts, moves, receives, t) {
        if receives {
          assert FiledIn(Some(after[at]), t) == FiledIn(Target(d.sections, at), t) + MovedTo(moves, t, |moves|);
        } else if before.title != UNRELEASED {
          PromotedConserves(before, starts, t);
        }
      }
      PromotedKeeps(before, starts);
    }
    if shift == 1 {
      assert SectionReads(out.sections[0], after[0]);
      NothingFiled();
      forall t ensures CategoryConserved(NEW_UNRELEASED, out.sections[0], starts, moves, true, t) {
        assert FiledIn(Some(after[0]), t) == FiledIn(None, t) + MovedTo(moves, t, |moves|);
      }
    }
  }

  lemma PromotedKeeps(s: Section, starts: set<nat>)
    ensures PromotedSection(s, starts).heading == s.heading && PromotedSection(s, starts).leading == s.leading
  {
  }

  lemma PromotedConserves(s: Section, starts: set<nat>, title: string)
    ensures multiset(FiledAll(s.subsections, title))
            == multiset(FiledAll(PromotedSection(s, starts).subsections, title)) + multiset(LeftFrom(s.subsections, starts, title, |s.subsections|))
  {
    hide Filed, LeftFrom;
    ReleasedConserves(s.subsections, starts, title, |s.subsections|);
  }
}
