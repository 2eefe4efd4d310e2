/** Printing a changelog, and reading back what was printed. */
module ChangelogPrint {
  import opened Sequences
  import opened Changelog
  import opened ChangelogFix

  // ----- printing --------------------------------------------------------------------------

  function PrintSub(sub: Subsection): seq<Line> {
    var ls := Trim(Texts(sub.lines));
    if ls == [] then [] else [EMPTY, Category(sub.title, 0), EMPTY] + ls
  }

  function PrintSubs(subs: seq<Subsection>, n: nat): seq<Line>
    requires n <= |subs|
  {
    if n == 0 then [] else PrintSubs(subs, n - 1) + PrintSub(subs[n - 1])
  }

  function PrintLeading(s: Section): seq<Line> {
    var ls := Trim(Texts(s.leading));
    if ls == [] then [] else [EMPTY] + ls
  }

  function PrintSection(s: Section): seq<Line> {
    [s.heading] + PrintLeading(s) + PrintSubs(s.subsections, |s.subsections|) + [EMPTY]
  }

  function PrintSections(ss: seq<Section>, n: nat): seq<Line>
    requires n <= |ss|
  {
    if n == 0 then [] else PrintSections(ss, n - 1) + PrintSection(ss[n - 1])
  }

  function PrintPrefix(ns: seq<Numbered>): seq<Line> {
    var ls := Trim(Texts(ns));
    if ls == [] then [] else ls + [EMPTY]
  }

  /** Empty lines at the end are popped. */
  function Popped(ls: seq<Line>): seq<Line> {
    if ls != [] && ls[|ls| - 1] == EMPTY then Popped(ls[..|ls| - 1]) else ls
  }

  /** A file of no lines still has its final newline, and so reads as one empty line. */
  function Print(d: Document): seq<Line> {
    var ls := Popped(PrintPrefix(d.prefix) + PrintSections(d.sections, |d.sections|));
    if ls == [] then [EMPTY] else ls
  }

  predicate AllPrintable(d: Document) {
    DocumentOk(d) && forall i :: 0 <= i < |d.sections| ==> Printable(d.sections[i])
  }

  /** Prints a document so that it reads back as it was, up to the blank lines around each text. */
  method RenderChangelog(d: Document) returns (output: seq<Line>)
    ensures output == Print(d)
    ensures (forall i :: 0 <= i < |d.sections| ==> !d.sections[i].heading.Blank?) ==>
              output == if Blocks(d) == [] then [EMPTY] else Separated(Blocks(d))
    ensures AllPrintable(d) ==> DocumentLike(Parse(WithNumbers(output)), d, |d.sections|)
  {
    hide Trim, Popped, PrintSection, AllPrintable, Parse, WithNumbers, DocumentLike, Blocks, Separated;
    output := [];
    var prefix := TrimBlankLines(Texts(d.prefix));
    if |prefix| > 0 { output := prefix + [EMPTY]; }
    ghost var start, sections := output, [];
    AddNothing(output);
    for k := 0 to |d.sections|
      invariant output == start + sections && sections == PrintSections(d.sections, k)
    {
      output := RenderSection(output, d.sections[k]);
      Assoc(start, sections, PrintSection(d.sections[k]));
      sections := sections + PrintSection(d.sections[k]);
    }
    output := PopEmpty(output);
    if output == [] { output := [EMPTY]; }
    assert output == Print(d);
    if AllPrintable(d) { RoundTrip(d); }
    if forall i :: 0 <= i < |d.sections| ==> !d.sections[i].heading.Blank? { Layout(d); }
  }

  method RenderSection(before: seq<Line>, s: Section) returns (output: seq<Line>)
    ensures output == before + PrintSection(s)
  {
    hide Trim, PrintSub;
    output := before + [s.heading];
    var leading := TrimBlankLines(Texts(s.leading));
    if |leading| > 0 { output := output + ([EMPTY] + leading); }
    ghost var opening, subs := [s.heading] + PrintLeading(s), [];
    Assoc(before, [s.heading], PrintLeading(s));
    AddNothing(output);
    AddNothing([s.heading]);
    AddNothing(before + opening);
    for j := 0 to |s.subsections|
      invariant output == before + opening + subs && subs == PrintSubs(s.subsections, j)
    {
      ghost var sub := PrintSub(s.subsections[j]);
      output := RenderSub(output, s.subsections[j]);
      Assoc(before + opening, subs, sub);
      subs := subs + sub;
    }
    output := output + [EMPTY];
    Assoc(before, opening, subs);
    Assoc(before, opening + subs, [EMPTY]);
  }

  method RenderSub(before: seq<Line>, sub: Subsection) returns (output: seq<Line>)
    ensures output == before + PrintSub(sub)
  {
    var lines := TrimBlankLines(Texts(sub.lines));
    if |lines| == 0 {
      AddNothing(before);
      return before;
    }
    output := before + [EMPTY, Category(sub.title, 0), EMPTY] + lines;
    Assoc(before, [EMPTY, Category(sub.title, 0), EMPTY], lines);
  }

  method PopEmpty(ls: seq<Line>) returns (r: seq<Line>)
    ensures r == Popped(ls)
  {
    r := ls;
    while |r| > 0 && r[|r| - 1] == EMPTY
      invariant Popped(r) == Popped(ls)
    {
      r := r[..|r| - 1];
    }
  }

  // ----- reading back ------------------------------------------------------------------------

  /** The first `n` subsections of `s`, up to blank lines around their text. */
  ghost predicate SectionLike(r: Section, s: Section, n: nat)
    requires n <= |s.subsections|
  {
    && r.heading == s.heading && r.title == s.title && |r.subsections| == n && Trim(Texts(r.leading)) == Trim(Texts(s.leading))
    && forall j :: 0 <= j < n ==> SubLike(r.subsections[j], s.subsections[j])
  }

  ghost predicate SubLike(r: Subsection, s: Subsection) {
    r.title == s.title && Trim(Texts(r.lines)) == Trim(Texts(s.lines))
  }

  ghost predicate DocumentLike(r: Document, d: Document, n: nat)
    requires n <= |d.sections|
  {
    && Trim(Texts(r.prefix)) == Trim(Texts(d.prefix)) && |r.sections| == n
    && forall k :: 0 <= k < n ==> SectionLike(r.sections[k], d.sections[k], |d.sections[k].subsections|)
  }

  lemma TrimSnocBlank(ls: seq<Line>, b: Line)
    requires b.Blank?
    ensures Trim(ls + [b]) == Trim(ls)
  {
    hide Trim;
    var a, c := TrimParts(ls);
    assert ls + [b] == a + Trim(ls) + (c + [b]);
    TrimIs(a, Trim(ls), c + [b]);
  }

  lemma TrimBlankCons(b: Line, ls: seq<Line>)
    requires b.Blank?
    ensures Trim([b] + ls) == Trim(ls)
  {
    hide Trim;
    var a, c := TrimParts(ls);
    assert [b] + ls == ([b] + a) + Trim(ls) + c;
    TrimIs([b] + a, Trim(ls), c);
  }

  lemma TextsSnoc(ns: seq<Numbered>, n: Numbered)
    ensures Texts(ns + [n]) == Texts(ns) + [n.line]
  {
  }

  /** A blank line changes nothing, wherever it goes. */
  lemma FeedSectionBlank(r: Section, n: Numbered, s: Section, k: nat)
    requires n.line.Blank? && k <= |s.subsections|
    ensures SectionLike(FeedSection(r, n), s, k) <==> SectionLike(r, s, k)
  {
    hide Trim, Texts;
    if r.subsections == [] {
      TextsSnoc(r.leading, n);
      TrimSnocBlank(Texts(r.leading), n.line);
    } else {
      var i := |r.subsections| - 1;
      var last, r' := r.subsections[i], FeedSection(r, n);
      TextsSnoc(last.lines, n);
      TrimSnocBlank(Texts(last.lines), n.line);
      assert r'.subsections[i].title == last.title && Trim(Texts(r'.subsections[i].lines)) == Trim(Texts(last.lines));
      assert forall j :: 0 <= j < i ==> r'.subsections[j] == r.subsections[j];
      assert r.subsections == r'.subsections[i := last];
    }
  }

  lemma FeedBlank(r: Document, n: Numbered, d: Document, k: nat)
    requires n.line.Blank? && k <= |d.sections|
    ensures DocumentLike(Feed(r, n), d, k) <==> DocumentLike(r, d, k)
  {
    hide Trim, Texts, FeedSection, SectionLike;
    if r.sections == [] {
      TextsSnoc(r.prefix, n);
      TrimSnocBlank(Texts(r.prefix), n.line);
    } else {
      var i := |r.sections| - 1;
      var r' := Feed(r, n);
      if i < k { FeedSectionBlank(r.sections[i], n, d.sections[i], |d.sections[i].subsections|); }
      assert forall j :: 0 <= j < i ==> r'.sections[j] == r.sections[j];
      assert r'.sections[i] == FeedSection(r.sections[i], n);
    }
  }

  /** Lines without headings go to what is open. */
  lemma {:induction false} FeedPlain(r: Section, ns: seq<Numbered>, n: nat)
    requires n <= |ns| && BodyLines(ns)
    ensures FeedSectionTo(r, ns, n) ==
            if r.subsections == [] then r.(leading := r.leading + ns[..n])
            else var i := |r.subsections| - 1; r.(subsections := r.subsections[i := r.subsections[i].(lines := r.subsections[i].lines + ns[..n])])
  {
    if n == 0 {
      assert r.leading + ns[..0] == r.leading;
      if r.subsections != [] {
        var i := |r.subsections| - 1;
        assert r.subsections[i].lines + ns[..0] == r.subsections[i].lines;
      }
    } else {
      FeedPlain(r, ns, n - 1);
      assert ns[..n] == ns[..n - 1] + [ns[n - 1]];
      if r.subsections == [] {
        assert r.leading + ns[..n - 1] + [ns[n - 1]] == r.leading + ns[..n];
      } else {
        var i := |r.subsections| - 1;
        assert r.subsections[i].lines + ns[..n - 1] + [ns[n - 1]] == r.subsections[i].lines + ns[..n];
      }
    }
  }

  lemma {:induction false} FeedSectionOn(r: Section, a: seq<Numbered>, b: seq<Numbered>, n: nat)
    requires n <= |b|
    ensures FeedSectionTo(r, a + b, |a| + n) == FeedSectionTo(FeedSectionTo(r, a, |a|), b, n)
  {
    if n == 0 { FeedSectionSame(r, a + b, a, |a|); } else { FeedSectionOn(r, a, b, n - 1); }
  }

  lemma {:induction false} FeedSectionSame(r: Section, a: seq<Numbered>, b: seq<Numbered>, n: nat)
    requires n <= |a| && n <= |b| && forall i :: 0 <= i < n ==> a[i] == b[i]
    ensures FeedSectionTo(r, a, n) == FeedSectionTo(r, b, n)
  {
    if n > 0 { FeedSectionSame(r, a, b, n - 1); }
  }

  lemma TextsSplit(ns: seq<Numbered>, m: nat)
    requires m <= |ns|
    ensures Texts(ns[..m]) == Texts(ns)[..m] && Texts(ns[m..]) == Texts(ns)[m..]
  {
  }

  lemma Split(ns: seq<Numbered>, a: seq<Line>, b: seq<Line>)
    requires Texts(ns) == a + b
    ensures |ns| == |a| + |b| && Texts(ns[..|a|]) == a && Texts(ns[|a|..]) == b && ns[..|a|] + ns[|a|..] == ns
  {
    TextsSplit(ns, |a|);
  }

  lemma FeedLeading(s: Section, ns: seq<Numbered>)
    requires SectionOk(s) && Texts(ns) == PrintLeading(s)
    ensures SectionLike(FeedSectionTo(Section(s.heading, s.title, [], []), ns, |ns|), s, 0)
  {
    hide Trim, FeedSection, FeedSectionTo, Texts, PrintLeading;
    LeadingLike(s, ns);
    FeedPlain(Section(s.heading, s.title, [], []), ns, |ns|);
    assert [] + ns[..|ns|] == ns;
  }

  lemma LeadingLike(s: Section, ns: seq<Numbered>)
    requires SectionOk(s) && Texts(ns) == PrintLeading(s)
    ensures BodyLines(ns) && Trim(Texts(ns)) == Trim(Texts(s.leading))
  {
    hide Trim, Texts;
    var ls := Trim(Texts(s.leading));
    var _, _ := TrimParts(Texts(s.leading));
    BodyParts(Texts(s.leading));
    TrimBlankCons(EMPTY, ls);
    TrimAgain(ls);
    forall i | 0 <= i < |ns| ensures BodyLine(ns[i].line) { assert ns[i].line == PrintLeading(s)[i]; }
  }

  lemma FeedLast(r: Section, ns: seq<Numbered>, n: nat)
    requires n < |ns|
    ensures FeedSectionTo(r, ns, n + 1) == FeedSection(FeedSectionTo(r, ns, n), ns[n])
  {
  }

  /** The two lines before the text of a printed subsection: a blank one, and the heading. */
  lemma FeedHeading(r: Section, blank: Numbered, heading: Numbered, s: Section, k: nat)
    requires k < |s.subsections| && SectionLike(r, s, k) && blank.line.Blank? && heading.line == Category(s.subsections[k].title, 0)
    ensures var x := FeedSection(FeedSection(r, blank), heading);
            && |x.subsections| == k + 1 && x.subsections[k] == Subsection(s.subsections[k].title, [])
            && SectionLike(x.(subsections := x.subsections[..k]), s, k)
  {
    hide SubLike, Trim, Texts;
    FeedSectionBlank(r, blank, s, k);
    hide FeedSection;
    OpenSub(FeedSection(r, blank), heading);
    var r1 := FeedSection(r, blank);
    assert (r1.subsections + [Subsection(heading.line.title, [])])[..k] == r1.subsections;
  }

  lemma OpenSub(r: Section, heading: Numbered)
    requires heading.line.Category?
    ensures FeedSection(r, heading) == r.(subsections := r.subsections + [Subsection(heading.line.title, [])])
  {
  }

  /** The last subsection replaced by one that is like the printed one. */
  lemma CloseSub(x: Section, s: Section, k: nat, sub: Subsection)
    requires k < |s.subsections| && |x.subsections| == k + 1
    requires SectionLike(x.(subsections := x.subsections[..k]), s, k) && SubLike(sub, s.subsections[k])
    ensures SectionLike(x.(subsections := x.subsections[k := sub]), s, k + 1)
  {
    hide SubLike;
    var before, after := x.subsections[..k], x.subsections[k := sub];
    assert forall j :: 0 <= j < k ==> after[j] == before[j];
  }

  lemma TextLike(rest: seq<Numbered>, sub: Subsection)
    requires TidyLines(Texts(sub.lines)) && Texts(rest) == [EMPTY] + Texts(sub.lines)
    ensures SubLike(Subsection(sub.title, rest), sub) && BodyLines(rest)
  {
    hide Trim;
    var ls := Texts(sub.lines);
    TrimBlankCons(EMPTY, ls);
    forall i | 0 <= i < |rest| ensures BodyLine(rest[i].line) { assert rest[i].line == ([EMPTY] + ls)[i]; }
  }

  lemma PrintTidy(sub: Subsection)
    requires TidyLines(Texts(sub.lines))
    ensures PrintSub(sub) == [EMPTY, Category(sub.title, 0), EMPTY] + Texts(sub.lines)
  {
    hide Trim;
    TrimAgain(Texts(sub.lines));
  }

  /** A printed subsection reads back as one more subsection. */
  lemma FeedSub(r: Section, ns: seq<Numbered>, s: Section, k: nat)
    requires k < |s.subsections| && SectionLike(r, s, k) && TidyLines(Texts(s.subsections[k].lines))
    requires Texts(ns) == PrintSub(s.subsections[k])
    ensures SectionLike(FeedSectionTo(r, ns, |ns|), s, k + 1)
  {
    hide *;
    PrintTidy(s.subsections[k]);
    PrintedLines(ns, s.subsections[k]);
    FeedSubAt(r, ns, s, k);
  }

  lemma FeedSubAt(r: Section, ns: seq<Numbered>, s: Section, k: nat)
    requires k < |s.subsections| && SectionLike(r, s, k) && TidyLines(Texts(s.subsections[k].lines))
    requires |ns| >= 3 && ns[0].line.Blank? && ns[1].line == Category(s.subsections[k].title, 0)
    requires Texts(ns[2..]) == [EMPTY] + Texts(s.subsections[k].lines)
    ensures SectionLike(FeedSectionTo(r, ns, |ns|), s, k + 1)
  {
    hide *;
    var sub, rest := s.subsections[k], ns[2..];
    FeedHeading(r, ns[0], ns[1], s, k);
    TextLike(rest, sub);
    var x := FeedSection(FeedSection(r, ns[0]), ns[1]);
    FeedPlain(x, rest, |rest|);
    FeedThree(r, ns);
    assert rest[..|rest|] == rest && [] + rest == rest;
    CloseSub(x, s, k, Subsection(sub.title, rest));
  }

  lemma PrintedLines(ns: seq<Numbered>, sub: Subsection)
    requires Texts(ns) == [EMPTY, Category(sub.title, 0), EMPTY] + Texts(sub.lines)
    ensures |ns| >= 3 && ns[0].line.Blank? && ns[1].line == Category(sub.title, 0) && Texts(ns[2..]) == [EMPTY] + Texts(sub.lines)
  {
    assert Texts(ns)[0] == ns[0].line && Texts(ns)[1] == ns[1].line;
    TextsSplit(ns, 2);
  }

  lemma FeedThree(r: Section, ns: seq<Numbered>)
    requires |ns| >= 2
    ensures FeedSectionTo(r, ns, |ns|) == FeedSectionTo(FeedSection(FeedSection(r, ns[0]), ns[1]), ns[2..], |ns| - 2)
  {
    hide FeedSection;
    assert ns[..2] + ns[2..] == ns;
    FeedSectionOn(r, ns[..2], ns[2..], |ns| - 2);
    assert FeedSectionTo(r, ns[..2], 1) == FeedSection(FeedSectionTo(r, ns[..2], 0), ns[..2][0]);
    assert FeedSectionTo(r, ns[..2], 2) == FeedSection(FeedSectionTo(r, ns[..2], 1), ns[..2][1]);
  }

  lemma {:induction false} FeedSubs(r: Section, ns: seq<Numbered>, s: Section, k: nat)
    requires k <= |s.subsections| && Tidy(s.subsections) && SectionLike(r, s, 0) && Texts(ns) == PrintSubs(s.subsections, k)
    ensures SectionLike(FeedSectionTo(r, ns, |ns|), s, k)
    decreases k
  {
    hide SectionLike, PrintSub, TidyLines, FeedSection, FeedSectionTo, Texts;
    if k == 0 {
      FeedNoLines(r, ns);
    } else {
      var m := |PrintSubs(s.subsections, k - 1)|;
      Split(ns, PrintSubs(s.subsections, k - 1), PrintSub(s.subsections[k - 1]));
      FeedSubs(r, ns[..m], s, k - 1);
      FeedSub(FeedSectionTo(r, ns[..m], m), ns[m..], s, k - 1);
      FeedSectionOn(r, ns[..m], ns[m..], |ns| - m);
    }
  }

  lemma FeedNoLines(r: Section, ns: seq<Numbered>)
    ensures FeedSectionTo(r, ns, 0) == r
  {
  }

  predicate Printable(s: Section) {
    SectionOk(s) && Tidy(s.subsections)
  }

  lemma IsPrintable(s: Section)
    requires Printable(s)
    ensures SectionOk(s) && Tidy(s.subsections)
  {
  }

  lemma FeedBodyLike(s: Section, ns: seq<Numbered>)
    requires Printable(s) && Texts(ns) == PrintLeading(s) + PrintSubs(s.subsections, |s.subsections|) + [EMPTY]
    ensures SectionLike(FeedSectionTo(Section(s.heading, s.title, [], []), ns, |ns|), s, |s.subsections|)
  {
    hide *;
    var start := Section(s.heading, s.title, [], []);
    var lead, subs := PrintLeading(s), PrintSubs(s.subsections, |s.subsections|);
    var a, n := |lead|, |lead| + |subs|;
    BodyLinesSplit(ns, lead, subs);
    FeedInner(s, ns[..n][..a], ns[..n][a..]);
    assert ns[..n][..a] + ns[..n][a..] == ns[..n];
    FeedSectionSame(start, ns[..n], ns, n);
    FeedSectionBlank(FeedSectionTo(start, ns, n), ns[n], s, |s.subsections|);
    FeedLast(start, ns, n);
  }

  lemma FeedInner(s: Section, lead: seq<Numbered>, subs: seq<Numbered>)
    requires Printable(s) && Texts(lead) == PrintLeading(s) && Texts(subs) == PrintSubs(s.subsections, |s.subsections|)
    ensures SectionLike(FeedSectionTo(Section(s.heading, s.title, [], []), lead + subs, |lead| + |subs|), s, |s.subsections|)
  {
    hide *;
    IsPrintable(s);
    var start := Section(s.heading, s.title, [], []);
    FeedLeading(s, lead);
    FeedSubs(FeedSectionTo(start, lead, |lead|), subs, s, |s.subsections|);
    FeedSectionOn(start, lead, subs, |subs|);
  }

  lemma BodyLinesSplit(ns: seq<Numbered>, lead: seq<Line>, subs: seq<Line>)
    requires Texts(ns) == lead + subs + [EMPTY]
    ensures var a, n := |lead|, |lead| + |subs|;
            |ns| == n + 1 && ns[n].line.Blank? && Texts(ns[..n][..a]) == lead && Texts(ns[..n][a..]) == subs
  {
    var a, n := |lead|, |lead| + |subs|;
    assert Texts(ns)[n] == ns[n].line;
    TextsSplit(ns, n);
    TextsSplit(ns[..n], a);
  }

  lemma PrintedBody(s: Section)
    requires Printable(s)
    ensures forall i :: 0 < i < |PrintSection(s)| ==> !PrintSection(s)[i].Release?
  {
    hide PrintSubs, Trim;
    var lead, subs := PrintLeading(s), PrintSubs(s.subsections, |s.subsections|);
    BodyParts(Texts(s.leading));
    PrintedSubs(s.subsections, |s.subsections|);
    forall i | 0 <= i < |lead| ensures !lead[i].Release? { assert i > 0 ==> lead[i] == Trim(Texts(s.leading))[i - 1]; }
    assert PrintSection(s) == [s.heading] + (lead + subs + [EMPTY]);
  }

  lemma {:induction false} PrintedSubs(subs: seq<Subsection>, n: nat)
    requires Tidy(subs) && n <= |subs|
    ensures forall i :: 0 <= i < |PrintSubs(subs, n)| ==> !PrintSubs(subs, n)[i].Release?
  {
    hide Trim;
    if n > 0 {
      PrintedSubs(subs, n - 1);
      var ls, p := Texts(subs[n - 1].lines), PrintSub(subs[n - 1]);
      assert TidyLines(ls);
      TrimAgain(ls);
      forall i | 0 <= i < |p| ensures !p[i].Release? { if i >= 3 { assert p[i] == ls[i - 3] && BodyLine(ls[i - 3]); } }
    }
  }

  /** A printed section reads back as one more section. */
  lemma FeedPrinted(r: Document, ns: seq<Numbered>, d: Document, k: nat)
    requires k < |d.sections| && DocumentLike(r, d, k) && Printable(d.sections[k]) && Texts(ns) == PrintSection(d.sections[k])
    ensures DocumentLike(FeedTo(r, ns, |ns|), d, k + 1)
  {
    hide SectionLike, PrintLeading, PrintSubs, PrintSection, Tidy, Trim, Feed, FeedTo, FeedSectionTo, FeedSection;
    var s := d.sections[k];
    SectionLines(s, ns);
    var body, start := ns[1..], Section(s.heading, s.title, [], []);
    FeedBodyLike(s, body);
    OpenSection(r, ns[0], s);
    var r1 := r.(sections := r.sections + [start]);
    FeedBody(r1, body, |body|);
    FeedFirst(r, ns);
    assert |r.sections| == k;
    var x := FeedSectionTo(start, body, |body|);
    assert r1.sections[k := x] == r.sections + [x];
    MoreLike(r, d, k, x);
  }

  lemma OpenSection(r: Document, n: Numbered, s: Section)
    requires n.line == s.heading && s.heading.Release? && s.heading.title == s.title
    ensures Feed(r, n) == r.(sections := r.sections + [Section(s.heading, s.title, [], [])])
  {
  }

  lemma MoreLike(r: Document, d: Document, k: nat, x: Section)
    requires k < |d.sections| && DocumentLike(r, d, k) && SectionLike(x, d.sections[k], |d.sections[k].subsections|)
    ensures DocumentLike(r.(sections := r.sections + [x]), d, k + 1)
  {
    hide SectionLike, Trim;
  }

  lemma SectionLines(s: Section, ns: seq<Numbered>)
    requires Printable(s) && Texts(ns) == PrintSection(s)
    ensures |ns| >= 1 && ns[0].line == s.heading && s.heading.Release? && s.heading.title == s.title
    ensures Texts(ns[1..]) == PrintLeading(s) + PrintSubs(s.subsections, |s.subsections|) + [EMPTY]
    ensures forall i :: 0 <= i < |ns[1..]| ==> !ns[1..][i].line.Release?
  {
    hide PrintLeading, PrintSubs, Tidy, Texts;
    PrintedBody(s);
    AfterHeading(ns, s.heading, PrintLeading(s), PrintSubs(s.subsections, |s.subsections|));
    forall i | 0 <= i < |ns[1..]| ensures !ns[1..][i].line.Release? { assert ns[1..][i].line == PrintSection(s)[i + 1]; }
  }

  lemma AfterHeading(ns: seq<Numbered>, heading: Line, lead: seq<Line>, subs: seq<Line>)
    requires Texts(ns) == [heading] + lead + subs + [EMPTY]
    ensures |ns| >= 1 && ns[0].line == heading && Texts(ns[1..]) == lead + subs + [EMPTY]
  {
    assert Texts(ns)[0] == ns[0].line;
    TextsSplit(ns, 1);
    assert [heading] + lead + subs + [EMPTY] == [heading] + (lead + subs + [EMPTY]);
  }

  lemma FeedFirst(r: Document, ns: seq<Numbered>)
    requires ns != []
    ensures FeedTo(r, ns, |ns|) == FeedTo(Feed(r, ns[0]), ns[1..], |ns| - 1)
  {
    assert ns[..1] + ns[1..] == ns;
    FeedOn(r, ns[..1], ns[1..], |ns| - 1);
    assert FeedTo(r, ns[..1], 1) == Feed(FeedTo(r, ns[..1], 0), ns[..1][0]);
  }

  lemma {:induction false} FeedSections(r: Document, ns: seq<Numbered>, d: Document, k: nat)
    requires k <= |d.sections| && DocumentLike(r, d, 0) && Texts(ns) == PrintSections(d.sections, k)
    requires forall i :: 0 <= i < |d.sections| ==> Printable(d.sections[i])
    ensures DocumentLike(FeedTo(r, ns, |ns|), d, k)
    decreases k
  {
    hide DocumentLike, PrintSection, Printable, Feed, FeedTo, Texts;
    if k == 0 {
      FeedNothing(r, ns);
    } else {
      var m := |PrintSections(d.sections, k - 1)|;
      Split(ns, PrintSections(d.sections, k - 1), PrintSection(d.sections[k - 1]));
      FeedSections(r, ns[..m], d, k - 1);
      FeedPrinted(FeedTo(r, ns[..m], m), ns[m..], d, k - 1);
      FeedOn(r, ns[..m], ns[m..], |ns| - m);
    }
  }

  lemma FeedNothing(r: Document, ns: seq<Numbered>)
    ensures FeedTo(r, ns, 0) == r
  {
  }

  lemma {:induction false} FeedPrefix(ns: seq<Numbered>, n: nat)
    requires n <= |ns| && forall i :: 0 <= i < n ==> !ns[i].line.Release?
    ensures FeedTo(NOTHING, ns, n) == Document(ns[..n], [])
  {
    if n > 0 {
      FeedPrefix(ns, n - 1);
      assert ns[..n] == ns[..n - 1] + [ns[n - 1]];
    } else {
      assert ns[..0] == [];
    }
  }

  lemma PrintedPrefix(d: Document, ns: seq<Numbered>)
    requires (forall i :: 0 <= i < |d.prefix| ==> !d.prefix[i].line.Release?) && Texts(ns) == PrintPrefix(d.prefix)
    ensures DocumentLike(FeedTo(NOTHING, ns, |ns|), d, 0)
  {
    hide Trim;
    var ls := Trim(Texts(d.prefix));
    var a, c := TrimParts(Texts(d.prefix));
    forall i | 0 <= i < |ls| ensures !ls[i].Release? { assert ls[i] == Texts(d.prefix)[|a| + i]; }
    forall i | 0 <= i < |ns| ensures !ns[i].line.Release? { assert ns[i].line == PrintPrefix(d.prefix)[i]; }
    FeedPrefix(ns, |ns|);
    assert ns[..|ns|] == ns;
    TrimSnocBlank(ls, EMPTY);
    TrimAgain(ls);
  }

  lemma {:induction false} FeedBlanks(ns: seq<Numbered>, m: nat, n: nat, d: Document)
    requires m <= n <= |ns| && forall i :: m <= i < n ==> ns[i].line.Blank?
    ensures DocumentLike(FeedTo(NOTHING, ns, n), d, |d.sections|) <==> DocumentLike(FeedTo(NOTHING, ns, m), d, |d.sections|)
  {
    hide DocumentLike, Feed;
    if m < n {
      FeedBlanks(ns, m, n - 1, d);
      FeedBlank(FeedTo(NOTHING, ns, n - 1), ns[n - 1], d, |d.sections|);
    }
  }

  lemma {:induction false} PoppedParts(ls: seq<Line>) returns (c: seq<Line>)
    ensures ls == Popped(ls) + c && forall l :: l in c ==> l == EMPTY
  {
    if ls != [] && ls[|ls| - 1] == EMPTY {
      var rest := PoppedParts(ls[..|ls| - 1]);
      c := rest + [EMPTY];
    } else {
      c := [];
    }
  }

  /** What was printed reads back as the same document, up to the blank lines around each text. */
  lemma RoundTrip(d: Document)
    requires AllPrintable(d)
    ensures DocumentLike(Parse(WithNumbers(Print(d))), d, |d.sections|)
  {
    hide DocumentLike, Popped, PrintSections, PrintPrefix, Printable, SectionOk, Feed, FeedTo;
    var ls, out := PrintPrefix(d.prefix) + PrintSections(d.sections, |d.sections|), Print(d);
    var ns := WithNumbers(ls);
    AllPrinted(d, ns);
    var c := PoppedParts(ls);
    var keep := |Popped(ls)|;
    forall i | keep <= i < |ns| ensures ns[i].line.Blank? { assert ns[i].line == ls[i] == c[i - keep] && c[i - keep] in c; }
    FeedBlanks(ns, keep, |ns|, d);
    FeedSame(NOTHING, WithNumbers(Popped(ls)), ns, keep);
    if out != Popped(ls) {
      var one, none := WithNumbers([EMPTY]), WithNumbers([]);
      FeedBlanks(one, 0, 1, d);
      FeedSame(NOTHING, none, one, 0);
    }
  }

  lemma AllPrinted(d: Document, ns: seq<Numbered>)
    requires AllPrintable(d)
    requires Texts(ns) == PrintPrefix(d.prefix) + PrintSections(d.sections, |d.sections|)
    ensures DocumentLike(FeedTo(NOTHING, ns, |ns|), d, |d.sections|)
  {
    hide *;
    var m := |PrintPrefix(d.prefix)|;
    PrintedParts(d, ns, m);
    PrintedPrefix(d, ns[..m]);
    FeedSections(FeedTo(NOTHING, ns[..m], m), ns[m..], d, |d.sections|);
    FeedOn(NOTHING, ns[..m], ns[m..], |ns| - m);
    assert ns[..m] + ns[m..] == ns;
  }

  lemma PrintedParts(d: Document, ns: seq<Numbered>, m: nat)
    requires AllPrintable(d) && m == |PrintPrefix(d.prefix)|
    requires Texts(ns) == PrintPrefix(d.prefix) + PrintSections(d.sections, |d.sections|)
    ensures m <= |ns| && Texts(ns[..m]) == PrintPrefix(d.prefix) && Texts(ns[m..]) == PrintSections(d.sections, |d.sections|)
    ensures (forall i :: 0 <= i < |d.prefix| ==> !d.prefix[i].line.Release?) && forall i :: 0 <= i < |d.sections| ==> Printable(d.sections[i])
  {
    hide PrintSections, PrintPrefix, Printable;
    TextsSplit(ns, m);
  }

  /** A document that reads back like a tidy one has nothing left to normalise. */
  lemma LikeTidyIsClean(r: Document, d: Document)
    requires DocumentLike(r, d, |d.sections|) && forall i :: 0 <= i < |d.sections| ==> Printable(d.sections[i])
    ensures forall k :: 0 <= k < |r.sections| ==> Clean(r.sections[k].subsections)
  {
    hide Trim;
    forall k | 0 <= k < |r.sections| ensures Clean(r.sections[k].subsections) {
      var a, b := r.sections[k], d.sections[k];
      assert SectionLike(a, b, |b.subsections|);
      forall i | 0 <= i < |a.subsections| ensures a.subsections[i].title == b.subsections[i].title && Trim(Texts(a.subsections[i].lines)) != [] {
        assert SubLike(a.subsections[i], b.subsections[i]);
        var ls := Texts(b.subsections[i].lines);
        assert TidyLines(ls);
        TrimAgain(ls);
      }
    }
  }

  // ----- the layout of what is printed -----------------------------------------------------------

  /** A text, without the blank lines around it; none if nothing is left. */
  function BlockOf(ls: seq<Line>): seq<seq<Line>> {
    if Trim(ls) == [] then [] else [Trim(ls)]
  }

  function BlocksOfSub(sub: Subsection): seq<seq<Line>> {
    if Trim(Texts(sub.lines)) == [] then [] else [[Category(sub.title, 0)], Trim(Texts(sub.lines))]
  }

  function BlocksOfSubs(subs: seq<Subsection>, n: nat): seq<seq<Line>>
    requires n <= |subs|
  {
    if n == 0 then [] else BlocksOfSubs(subs, n - 1) + BlocksOfSub(subs[n - 1])
  }

  function BlocksOfSection(s: Section): seq<seq<Line>> {
    [[s.heading]] + (BlockOf(Texts(s.leading)) + BlocksOfSubs(s.subsections, |s.subsections|))
  }

  function BlocksOfSections(ss: seq<Section>, n: nat): seq<seq<Line>>
    requires n <= |ss|
  {
    if n == 0 then [] else BlocksOfSections(ss, n - 1) + BlocksOfSection(ss[n - 1])
  }

  /** Everything that is printed: each heading and each text is a block. */
  function Blocks(d: Document): seq<seq<Line>> {
    BlockOf(Texts(d.prefix)) + BlocksOfSections(d.sections, |d.sections|)
  }

  /** Each block with an empty line behind it. */
  function Followed(bs: seq<seq<Line>>): seq<Line> {
    if bs == [] then [] else bs[0] + [EMPTY] + Followed(bs[1..])
  }

  /** Each block with an empty line in front of it. */
  function Preceded(bs: seq<seq<Line>>): seq<Line> {
    if bs == [] then [] else [EMPTY] + bs[0] + Preceded(bs[1..])
  }

  /** The blocks with exactly one empty line between any two. */
  function Separated(bs: seq<seq<Line>>): seq<Line>
    requires bs != []
  {
    bs[0] + Preceded(bs[1..])
  }

  lemma {:induction false} FollowedConcat(a: seq<seq<Line>>, b: seq<seq<Line>>)
    ensures Followed(a + b) == Followed(a) + Followed(b)
  {
    if a == [] {
      assert a + b == b;
      AddNothing(Followed(b));
    } else {
      assert (a + b)[0] == a[0] && (a + b)[1..] == a[1..] + b;
      FollowedConcat(a[1..], b);
      Assoc(a[0] + [EMPTY], Followed(a[1..]), Followed(b));
    }
  }

  lemma {:induction false} PrecededConcat(a: seq<seq<Line>>, b: seq<seq<Line>>)
    ensures Preceded(a + b) == Preceded(a) + Preceded(b)
  {
    if a == [] {
      assert a + b == b;
      AddNothing(Preceded(b));
    } else {
      assert (a + b)[0] == a[0] && (a + b)[1..] == a[1..] + b;
      PrecededConcat(a[1..], b);
      Assoc([EMPTY] + a[0], Preceded(a[1..]), Preceded(b));
    }
  }

  lemma {:induction false} FollowedIs(bs: seq<seq<Line>>)
    ensures Preceded(bs) + [EMPTY] == [EMPTY] + Followed(bs)
  {
    if bs == [] {
      AddNothing([EMPTY]);
    } else {
      FollowedIs(bs[1..]);
      Assoc([EMPTY] + bs[0], Preceded(bs[1..]), [EMPTY]);
      Assoc([EMPTY] + bs[0], [EMPTY], Followed(bs[1..]));
      Assoc([EMPTY], bs[0] + [EMPTY], Followed(bs[1..]));
      Assoc([EMPTY], bs[0], [EMPTY]);
    }
  }

  lemma SubLayout(sub: Subsection)
    ensures PrintSub(sub) == Preceded(BlocksOfSub(sub))
  {
    hide Trim, Preceded;
    NothingPreceded();
    TwoPreceded([Category(sub.title, 0)], Trim(Texts(sub.lines)));
  }

  lemma {:induction false} SubsLayout(subs: seq<Subsection>, n: nat)
    requires n <= |subs|
    ensures PrintSubs(subs, n) == Preceded(BlocksOfSubs(subs, n))
  {
    hide PrintSub, BlocksOfSub, Preceded;
    NothingPreceded();
    if n > 0 {
      SubsLayout(subs, n - 1);
      SubLayout(subs[n - 1]);
      PrecededConcat(BlocksOfSubs(subs, n - 1), BlocksOfSub(subs[n - 1]));
    }
  }

  lemma TwoPreceded(a: seq<Line>, b: seq<Line>)
    ensures Preceded([a, b]) == [EMPTY] + a + [EMPTY] + b
  {
    OnePreceded(b);
    assert [a, b][1..] == [b];
  }

  lemma OnePreceded(b: seq<Line>)
    ensures Preceded([b]) == [EMPTY] + b && Followed([b]) == b + [EMPTY]
  {
    assert [b][1..] == [];
  }

  lemma SectionLayout(s: Section)
    ensures PrintSection(s) == Followed(BlocksOfSection(s))
  {
    hide Trim, PrintSubs, BlocksOfSubs, Preceded, Followed;
    var n := |s.subsections|;
    var lead, subs := BlockOf(Texts(s.leading)), BlocksOfSubs(s.subsections, n);
    SubsLayout(s.subsections, n);
    PrecededConcat(lead, subs);
    NothingPreceded();
    if lead != [] { OnePreceded(lead[0]); }
    assert PrintLeading(s) == Preceded(lead);
    FollowedIs(lead + subs);
    FollowedConcat([[s.heading]], lead + subs);
    OnePreceded([s.heading]);
    Assoc([s.heading], Preceded(lead), Preceded(subs));
    Assoc([s.heading], Preceded(lead) + Preceded(subs), [EMPTY]);
    Assoc([s.heading], [EMPTY], Followed(lead + subs));
  }

  lemma NothingPreceded()
    ensures Preceded([]) == [] && Followed([]) == []
  {
  }

  lemma {:induction false} SectionsLayout(ss: seq<Section>, n: nat)
    requires n <= |ss|
    ensures PrintSections(ss, n) == Followed(BlocksOfSections(ss, n))
  {
    hide PrintSection, BlocksOfSection, Followed;
    NothingPreceded();
    if n > 0 {
      SectionsLayout(ss, n - 1);
      SectionLayout(ss[n - 1]);
      FollowedConcat(BlocksOfSections(ss, n - 1), BlocksOfSection(ss[n - 1]));
    }
  }

  /** Blocks that are not empty and do not end in an empty line. */
  predicate Ended(bs: seq<seq<Line>>) {
    forall i :: 0 <= i < |bs| ==> bs[i] != [] && Last(bs[i]) != EMPTY
  }

  lemma BlockEnded(ls: seq<Line>)
    ensures Ended(BlockOf(ls))
  {
    var _, _ := TrimParts(ls);
  }

  lemma SubEnded(sub: Subsection)
    ensures Ended(BlocksOfSub(sub))
  {
    var _, _ := TrimParts(Texts(sub.lines));
    hide Trim;
    assert Last([Category(sub.title, 0)]) == Category(sub.title, 0);
  }

  lemma {:induction false} SubsEnded(subs: seq<Subsection>, n: nat)
    requires n <= |subs|
    ensures Ended(BlocksOfSubs(subs, n))
  {
    hide BlocksOfSub;
    if n > 0 {
      SubsEnded(subs, n - 1);
      SubEnded(subs[n - 1]);
    }
  }

  lemma {:induction false} SectionsEnded(ss: seq<Section>, n: nat)
    requires n <= |ss| && forall i :: 0 <= i < |ss| ==> !ss[i].heading.Blank?
    ensures Ended(BlocksOfSections(ss, n))
  {
    hide BlockOf, BlocksOfSubs;
    if n > 0 {
      SectionsEnded(ss, n - 1);
      BlockEnded(Texts(ss[n - 1].leading));
      SubsEnded(ss[n - 1].subsections, |ss[n - 1].subsections|);
    }
  }

  lemma {:induction false} PrecededEnds(bs: seq<seq<Line>>)
    requires Ended(bs) && bs != []
    ensures Preceded(bs) != [] && Last(Preceded(bs)) != EMPTY
  {
    if |bs| > 1 {
      PrecededEnds(bs[1..]);
    } else {
      OnePreceded(bs[0]);
      assert bs == [bs[0]];
    }
  }

  /**
   The layout: the blocks of the document in order, with exactly one empty line between any two, and none behind
   the last; a document without any is one empty line.
   */
  lemma Layout(d: Document)
    requires forall i :: 0 <= i < |d.sections| ==> !d.sections[i].heading.Blank?
    ensures Print(d) == if Blocks(d) == [] then [EMPTY] else Separated(Blocks(d))
  {
    hide Trim, PrintSections, BlocksOfSections, Followed, Preceded;
    var prefix, bs := BlockOf(Texts(d.prefix)), Blocks(d);
    SectionsLayout(d.sections, |d.sections|);
    FollowedConcat(prefix, BlocksOfSections(d.sections, |d.sections|));
    NothingPreceded();
    if prefix != [] { OnePreceded(prefix[0]); }
    assert PrintPrefix(d.prefix) == Followed(prefix);
    BlockEnded(Texts(d.prefix));
    SectionsEnded(d.sections, |d.sections|);
    assert Ended(bs);
    if bs != [] { FollowedPops(bs); }
  }

  lemma FollowedPops(bs: seq<seq<Line>>)
    requires bs != [] && Ended(bs)
    ensures Popped(Followed(bs)) == Separated(bs) && Separated(bs) != []
  {
    hide Preceded;
    var x := Separated(bs);
    FollowedIs(bs[1..]);
    Assoc(bs[0], Preceded(bs[1..]), [EMPTY]);
    Assoc(bs[0], [EMPTY], Followed(bs[1..]));
    assert Followed(bs) == x + [EMPTY];
    NothingPreceded();
    if |bs| > 1 { PrecededEnds(bs[1..]); }
    assert Last(x) != EMPTY;
    assert (x + [EMPTY])[..|x|] == x;
  }
}
