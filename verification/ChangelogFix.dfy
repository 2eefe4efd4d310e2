/** Normalising and printing a changelog, and why doing it twice changes nothing. */
module ChangelogFix {
  import opened Sorting
  import opened Sequences
  import opened Changelog

  // ----- well-formed documents -----------------------------------------------------------

  predicate BodyLine(l: Line) {
    !l.Release? && !l.Category?
  }

  predicate BodyLines(ns: seq<Numbered>) {
    forall i :: 0 <= i < |ns| ==> BodyLine(ns[i].line)
  }

  predicate SectionOk(s: Section) {
    s.heading.Release? && s.heading.title == s.title && BodyLines(s.leading)
    && forall i :: 0 <= i < |s.subsections| ==> BodyLines(s.subsections[i].lines)
  }

  predicate DocumentOk(d: Document) {
    && (forall i :: 0 <= i < |d.prefix| ==> !d.prefix[i].line.Release?)
    && forall i :: 0 <= i < |d.sections| ==> SectionOk(d.sections[i])
  }

  lemma {:induction false} FeedOk(ns: seq<Numbered>, n: nat)
    requires n <= |ns|
    ensures DocumentOk(FeedTo(NOTHING, ns, n))
  {
    if n > 0 { FeedOk(ns, n - 1); }
  }

  // ----- normalising -----------------------------------------------------------------------

  /** What appending to a subsection gives: items run on, anything else is set apart by an empty line. */
  function AppendLines(target: seq<Line>, source: seq<Line>): seq<Line> {
    var s, t := Trim(source), Trim(target);
    if s == [] then target
    else if t == [] then s
    else t + (if t[|t| - 1].Item? && s[0].Item? then [] else [EMPTY]) + s
  }

  method AppendSubsectionLines(target: Subsection, source: seq<Line>) returns (r: Subsection)
    ensures r == target.(lines := r.lines) && Texts(r.lines) == AppendLines(Texts(target.lines), source)
    ensures Trim(source) != [] ==> r.lines == Synthetic(Texts(r.lines))
    ensures Trim(source) == [] ==> r == target
    ensures var s, t := Trim(source), Trim(Texts(target.lines));
            s != [] ==> Texts(r.lines) == if t == [] then s else t + (if t[|t| - 1].Item? && s[0].Item? then [] else [EMPTY]) + s
  {
    var trimmedSource := TrimBlankLines(source);
    if |trimmedSource| == 0 {
      return target;
    }
    var existing := TrimBlankLines(Texts(target.lines));
    if |existing| == 0 {
      return target.(lines := Synthetic(trimmedSource));
    }
    var separator := if existing[|existing| - 1].Item? && trimmedSource[0].Item? then [] else [EMPTY];
    r := target.(lines := Synthetic(existing + separator + trimmedSource));
  }

  lemma AppendKeeps(target: seq<Line>, source: seq<Line>)
    ensures Solid(AppendLines(target, source)) == Solid(target) + Solid(source)
  {
    hide Trim, Solid, Trimmed;
    SolidTrim(target);
    SolidTrim(source);
    NoSolid(Trim(target), Trim(source));
    if Trim(target) != [] && Trim(source) != [] {
      SetApart(Trim(target), [], Trim(source));
      SetApart(Trim(target), [EMPTY], Trim(source));
    }
  }

  lemma NoSolid(t: seq<Line>, s: seq<Line>)
    ensures t == [] ==> Solid(t) + Solid(s) == Solid(s)
    ensures s == [] ==> Solid(t) + Solid(s) == Solid(t)
  {
    AddNothing(Solid(t));
    AddNothing(Solid(s));
  }

  lemma SetApart(t: seq<Line>, sep: seq<Line>, s: seq<Line>)
    requires AllBlank(sep)
    ensures Solid(t + sep + s) == Solid(t) + Solid(s)
  {
    hide Solid;
    SolidBlank(sep);
    SolidConcat(t + sep, s);
    SolidConcat(t, sep);
    AddNothing(Solid(t));
  }

  lemma AppendTrims(target: seq<Line>, source: seq<Line>)
    requires Trimmed(target) && target != []
    ensures Trimmed(AppendLines(target, source)) && AppendLines(target, source) != []
  {
    hide Trim;
    var _, _ := TrimParts(source);
    TrimAgain(target);
  }

  /** The position of the subsection with a title, if there is one. */
  function Find(subs: seq<Subsection>, title: string, n: nat): (i: int)
    requires n <= |subs|
    ensures -1 <= i < n && (i >= 0 ==> subs[i].title == title) && (i == -1 ==> forall j :: 0 <= j < n ==> subs[j].title != title)
  {
    if n == 0 then -1 else if subs[n - 1].title == title then n - 1 else Find(subs, title, n - 1)
  }

  /** One more subsection: dropped if it is empty, merged into its namesake, or added. */
  function Add(acc: seq<Subsection>, sub: Subsection): seq<Subsection> {
    var t, i := Trim(Texts(sub.lines)), Find(acc, sub.title, |acc|);
    if t == [] then acc
    else if i >= 0 then acc[i := acc[i].(lines := Synthetic(AppendLines(Texts(acc[i].lines), t)))]
    else acc + [Subsection(sub.title, Synthetic(t))]
  }

  function Merged(subs: seq<Subsection>, n: nat): seq<Subsection>
    requires n <= |subs|
  {
    if n == 0 then [] else Add(Merged(subs, n - 1), subs[n - 1])
  }

  predicate DistinctTitles(subs: seq<Subsection>) {
    forall i, j :: 0 <= i < j < |subs| ==> subs[i].title != subs[j].title
  }

  predicate Tidy(subs: seq<Subsection>) {
    DistinctTitles(subs) && forall i :: 0 <= i < |subs| ==> TidyLines(Texts(subs[i].lines))
  }

  predicate TidyLines(ls: seq<Line>) {
    ls != [] && Trimmed(ls) && forall i :: 0 <= i < |ls| ==> BodyLine(ls[i])
  }

  /** Nothing to merge and nothing to remove among the first `n`. */
  predicate CleanTo(subs: seq<Subsection>, n: nat)
    requires n <= |subs|
  {
    && (forall i, j :: 0 <= i < j < n ==> subs[i].title != subs[j].title)
    && (forall i :: 0 <= i < n ==> Trim(Texts(subs[i].lines)) != [])
  }

  predicate Clean(subs: seq<Subsection>) {
    CleanTo(subs, |subs|)
  }

  /** The solid lines filed under a category. */
  function Filed(subs: seq<Subsection>, title: string, n: nat): seq<Line>
    requires n <= |subs|
  {
    if n == 0 then [] else Filed(subs, title, n - 1) + if subs[n - 1].title == title then Solid(Texts(subs[n - 1].lines)) else []
  }

  function TitleKey(s: Subsection): Key {
    (TitleOrder(s.title), 0)
  }

  function TitleOrder(title: string): int {
    if title == "Breaking Changes" then 0 else if title == "Added" then 1 else if title == "Changed" then 2
    else if title == "Fixed" then 3 else if title == "Removed" then 4 else 5
  }

  /** Where `i` is the only one with its title, the category holds just its lines. */
  lemma {:induction false} FiledAt(subs: seq<Subsection>, i: nat, n: nat)
    requires i < n <= |subs| && DistinctTitles(subs)
    ensures Filed(subs, subs[i].title, n) == Solid(Texts(subs[i].lines))
  {
    hide Solid, Texts;
    if i == n - 1 { FiledNone(subs, subs[i].title, n - 1); } else { FiledAt(subs, i, n - 1); }
  }

  lemma {:induction false} FiledNone(subs: seq<Subsection>, title: string, n: nat)
    requires n <= |subs| && forall i :: 0 <= i < n ==> subs[i].title != title
    ensures Filed(subs, title, n) == []
  {
    if n > 0 { FiledNone(subs, title, n - 1); }
  }

  lemma BodyParts(ls: seq<Line>)
    requires forall i :: 0 <= i < |ls| ==> BodyLine(ls[i])
    ensures forall i :: 0 <= i < |Trim(ls)| ==> BodyLine(Trim(ls)[i])
  {
    var a, c := TrimParts(ls);
    assert forall i :: 0 <= i < |Trim(ls)| ==> Trim(ls)[i] == ls[|a| + i];
  }

  lemma AppendBody(target: seq<Line>, source: seq<Line>)
    requires (forall i :: 0 <= i < |target| ==> BodyLine(target[i])) && forall i :: 0 <= i < |source| ==> BodyLine(source[i])
    ensures forall i :: 0 <= i < |AppendLines(target, source)| ==> BodyLine(AppendLines(target, source)[i])
  {
    BodyParts(target);
    BodyParts(source);
  }

  lemma AddTidy(acc: seq<Subsection>, sub: Subsection)
    requires Tidy(acc) && BodyLines(sub.lines)
    ensures Tidy(Add(acc, sub))
  {
    hide Trim, Find, AppendLines;
    var ls := Texts(sub.lines);
    var t, i := Trim(ls), Find(acc, sub.title, |acc|);
    var _, _ := TrimParts(ls);
    BodyParts(ls);
    if t != [] && i >= 0 {
      AppendTrims(Texts(acc[i].lines), t);
      AppendBody(Texts(acc[i].lines), t);
    }
  }

  lemma {:induction false} AddFiles(acc: seq<Subsection>, sub: Subsection, title: string)
    requires DistinctTitles(acc)
    ensures DistinctTitles(Add(acc, sub))
    ensures Filed(Add(acc, sub), title, |Add(acc, sub)|)
            == Filed(acc, title, |acc|) + if sub.title == title then Solid(Texts(sub.lines)) else []
  {
    hide Trim, AppendLines, Solid;
    var ls := Texts(sub.lines);
    var t, i, r := Trim(ls), Find(acc, sub.title, |acc|), Add(acc, sub);
    SolidTrim(ls);
    FiledMiss(acc, title);
    if t == [] {
      SolidBlank([]);
    } else if i >= 0 {
      AppendKeeps(Texts(acc[i].lines), t);
      FiledAt(acc, i, |acc|);
      FiledAt(r, i, |r|);
      if title != sub.title { FiledElsewhere(acc, r, title, |acc|); }
    } else {
      FiledPrefix(acc, r, title, |acc|);
    }
  }

  lemma FiledMiss(subs: seq<Subsection>, title: string)
    ensures Find(subs, title, |subs|) == -1 ==> Filed(subs, title, |subs|) == []
  {
    if Find(subs, title, |subs|) == -1 { FiledNone(subs, title, |subs|); }
  }

  lemma {:induction false} FiledPrefix(a: seq<Subsection>, b: seq<Subsection>, title: string, n: nat)
    requires n <= |a| && n <= |b| && forall i :: 0 <= i < n ==> a[i] == b[i]
    ensures Filed(a, title, n) == Filed(b, title, n)
  {
    hide Solid;
    if n > 0 { FiledPrefix(a, b, title, n - 1); }
  }

  /** Categories other than the one changed are not affected. */
  lemma {:induction false} FiledElsewhere(a: seq<Subsection>, b: seq<Subsection>, title: string, n: nat)
    requires n <= |a| == |b| && forall i :: 0 <= i < n ==> a[i].title == b[i].title && (a[i].title == title ==> a[i] == b[i])
    ensures Filed(a, title, n) == Filed(b, title, n)
  {
    hide Solid;
    if n > 0 { FiledElsewhere(a, b, title, n - 1); }
  }

  /** Merging files every solid line where it was filed before, in the same order. */
  lemma {:induction false} MergedFiles(subs: seq<Subsection>, title: string, n: nat)
    requires n <= |subs|
    ensures DistinctTitles(Merged(subs, n)) && Filed(Merged(subs, n), title, |Merged(subs, n)|) == Filed(subs, title, n)
  {
    hide Add, Solid;
    if n > 0 {
      MergedFiles(subs, title, n - 1);
      AddFiles(Merged(subs, n - 1), subs[n - 1], title);
    }
  }

  lemma {:induction false} MergedTidy(subs: seq<Subsection>, n: nat)
    requires n <= |subs| && forall i :: 0 <= i < n ==> BodyLines(subs[i].lines)
    ensures Tidy(Merged(subs, n))
  {
    hide Add, TidyLines;
    if n > 0 {
      MergedTidy(subs, n - 1);
      AddTidy(Merged(subs, n - 1), subs[n - 1]);
    }
  }

  /** Every subsection survives exactly when there is nothing to merge and nothing to remove. */
  lemma {:induction false} MergedAll(subs: seq<Subsection>, n: nat)
    requires n <= |subs|
    ensures |Merged(subs, n)| <= n && (|Merged(subs, n)| == n <==> CleanTo(subs, n))
    ensures |Merged(subs, n)| == n ==> forall i :: 0 <= i < n ==> Merged(subs, n)[i].title == subs[i].title
  {
    hide Trim, AppendLines, Synthetic;
    if n > 0 { MergedAll(subs, n - 1); }
  }

  lemma {:induction false} InsertDistinct(x: Subsection, subs: seq<Subsection>)
    requires DistinctTitles(subs) && forall i :: 0 <= i < |subs| ==> subs[i].title != x.title
    ensures DistinctTitles(Insert(x, subs, TitleKey)) && forall y :: y in Insert(x, subs, TitleKey) <==> y == x || y in subs
  {
    if subs == [] || Leq(TitleKey(x), TitleKey(subs[0])) {
    } else {
      var rest := Insert(x, subs[1..], TitleKey);
      InsertDistinct(x, subs[1..]);
      assert subs == [subs[0]] + subs[1..];
      forall i | 0 <= i < |rest| ensures rest[i].title != subs[0].title { assert rest[i] in rest; }
    }
  }

  lemma {:induction false} SortDistinct(subs: seq<Subsection>)
    requires DistinctTitles(subs)
    ensures DistinctTitles(Sort(subs, TitleKey)) && forall y :: y in Sort(subs, TitleKey) <==> y in subs
  {
    hide Insert;
    if subs != [] {
      SortDistinct(subs[1..]);
      var rest := Sort(subs[1..], TitleKey);
      forall i | 0 <= i < |rest| ensures rest[i].title != subs[0].title { assert rest[i] in subs[1..]; }
      InsertDistinct(subs[0], Sort(subs[1..], TitleKey));
      assert subs == [subs[0]] + subs[1..];
    }
  }

  lemma FiledSame(a: seq<Subsection>, b: seq<Subsection>, title: string)
    requires DistinctTitles(a) && DistinctTitles(b) && forall y :: y in a <==> y in b
    ensures Filed(a, title, |a|) == Filed(b, title, |b|)
  {
    hide Filed, Solid;
    var i := Find(a, title, |a|);
    if i >= 0 {
      assert a[i] in b;
      var j :| 0 <= j < |b| && b[j] == a[i];
      FiledAt(a, i, |a|);
      FiledAt(b, j, |b|);
    } else {
      forall j | 0 <= j < |b| ensures b[j].title != title { assert b[j] in a; }
      FiledNone(a, title, |a|);
      FiledNone(b, title, |b|);
    }
  }

  const UNRELEASED := "Unreleased"

  function Normal(s: Section): Section {
    var merged := Merged(s.subsections, |s.subsections|);
    s.(leading := Synthetic(Trim(Texts(s.leading))), subsections := if s.title == UNRELEASED then Sort(merged, TitleKey) else merged)
  }

  /** Normalising keeps the headings and every solid line where it is filed, and leaves nothing to normalise. */
  lemma NormalMeans(s: Section, title: string)
    requires SectionOk(s)
    ensures var r := Normal(s);
            && r.heading == s.heading && r.title == s.title && SectionOk(r) && Tidy(r.subsections)
            && Texts(r.leading) == Trim(Texts(s.leading)) && Solid(Texts(r.leading)) == Solid(Texts(s.leading))
            && Filed(r.subsections, title, |r.subsections|) == Filed(s.subsections, title, |s.subsections|)
            && (s.title == UNRELEASED ==> Sorted(r.subsections, TitleKey))
  {
    hide Trim, Merged, Filed, Sort, Solid;
    var merged := Merged(s.subsections, |s.subsections|);
    BodyParts(Texts(s.leading));
    SolidTrim(Texts(s.leading));
    MergedTidy(s.subsections, |s.subsections|);
    MergedFiles(s.subsections, title, |s.subsections|);
    if s.title == UNRELEASED {
      SortDistinct(merged);
      SortMembers(merged, TitleKey);
      FiledSame(Sort(merged, TitleKey), merged, title);
      TidyMembers(merged, Sort(merged, TitleKey));
    }
    TidyBody(Normal(s).subsections);
  }

  lemma TidyMembers(a: seq<Subsection>, b: seq<Subsection>)
    requires Tidy(a) && DistinctTitles(b) && forall y :: y in b <==> y in a
    ensures Tidy(b)
  {
    hide TidyLines;
    forall i | 0 <= i < |b| ensures TidyLines(Texts(b[i].lines)) { assert b[i] in a; }
  }

  lemma TidyBody(subs: seq<Subsection>)
    requires Tidy(subs)
    ensures forall i :: 0 <= i < |subs| ==> BodyLines(subs[i].lines)
  {
    forall i | 0 <= i < |subs| ensures BodyLines(subs[i].lines) {
      var ls := Texts(subs[i].lines);
      assert TidyLines(ls);
      assert forall k :: 0 <= k < |ls| ==> BodyLine(ls[k]);
    }
  }

  /** How many headings have nothing under them. */
  function EmptyHeadings(subs: seq<Subsection>, n: nat): nat
    requires n <= |subs|
  {
    if n == 0 then 0 else EmptyHeadings(subs, n - 1) + if Trim(Texts(subs[n - 1].lines)) == [] then 1 else 0
  }

  /** Where each title is. */
  ghost predicate TitlesAt(byTitle: map<string, nat>, subs: seq<Subsection>) {
    && (forall t :: t in byTitle <==> Find(subs, t, |subs|) >= 0)
    && forall t :: t in byTitle ==> byTitle[t] == Find(subs, t, |subs|)
  }

  /** A subsection with a body is merged into its namesake, or added. */
  method AddSubsection(subs: seq<Subsection>, byTitle: map<string, nat>, sub: Subsection, trimmedLines: seq<Line>)
    returns (subs': seq<Subsection>, byTitle': map<string, nat>, joined: bool)
    requires TitlesAt(byTitle, subs) && trimmedLines == Trim(Texts(sub.lines)) && trimmedLines != []
    ensures subs' == Add(subs, sub) && TitlesAt(byTitle', subs') && |subs'| == |subs| + if joined then 0 else 1
  {
    hide Trim, AppendLines, Texts;
    joined := sub.title in byTitle;
    if joined {
      var i := byTitle[sub.title];
      var _, _ := TrimParts(Texts(sub.lines));
      TrimAgain(trimmedLines);
      var appended := AppendSubsectionLines(subs[i], trimmedLines);
      subs', byTitle' := subs[i := appended], byTitle;
      forall t ensures Find(subs', t, |subs'|) == Find(subs, t, |subs|) { FindSame(subs, subs', t, |subs|); }
    } else {
      subs', byTitle' := subs + [Subsection(sub.title, Synthetic(trimmedLines))], byTitle[sub.title := |subs|];
      forall t ensures Find(subs', t, |subs|) == Find(subs, t, |subs|) { FindSame(subs, subs', t, |subs|); }
    }
  }

  method NormalizeSection(s: Section) returns (r: Section, merged: nat, removed: nat)
    ensures r == Normal(s)
    ensures removed == EmptyHeadings(s.subsections, |s.subsections|)
    ensures merged + removed + |Merged(s.subsections, |s.subsections|)| == |s.subsections|
    ensures merged == 0 && removed == 0 <==> Clean(s.subsections)
  {
    hide Trim, Sort, Texts, Find, TitlesAt;
    merged, removed := 0, 0;
    var byTitle: map<string, nat> := map[];
    var subs: seq<Subsection> := [];
    NoTitles();
    for k := 0 to |s.subsections|
      invariant subs == Merged(s.subsections, k) && merged + removed + |subs| == k && removed == EmptyHeadings(s.subsections, k)
      invariant TitlesAt(byTitle, subs)
    {
      var sub := s.subsections[k];
      var trimmedLines := TrimBlankLines(Texts(sub.lines));
      if |trimmedLines| == 0 {
        removed := removed + 1;
      } else {
        var joined;
        subs, byTitle, joined := AddSubsection(subs, byTitle, sub, trimmedLines);
        if joined { merged := merged + 1; }
      }
    }
    MergedAll(s.subsections, |s.subsections|);
    if s.title == UNRELEASED { subs := Sort(subs, TitleKey); }
    var leading := TrimBlankLines(Texts(s.leading));
    r := s.(leading := Synthetic(leading), subsections := subs);
  }

  lemma NoTitles()
    ensures TitlesAt(map[], [])
  {
  }

  lemma {:induction false} FindSame(a: seq<Subsection>, b: seq<Subsection>, title: string, n: nat)
    requires n <= |a| && n <= |b| && forall i :: 0 <= i < n ==> a[i].title == b[i].title
    ensures Find(a, title, n) == Find(b, title, n)
  {
    if n > 0 { FindSame(a, b, title, n - 1); }
  }
}
