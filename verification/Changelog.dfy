/**
 The changelog document: parsing, trimming and printing.  A line is what its text is recognised as; two
 lines are equal when their texts are.
 */
module Changelog {
  import opened Sequences

  datatype Line =
    | Release(title: string, spelling: nat)     // `## [title]`
    | Category(title: string, spelling: nat)    // `### title`
    | Item(text: string)                        // a list item
    | Plain(text: string)
    | Blank(spaces: nat)                        // nothing but white space

  datatype Numbered = Numbered(line: Line, number: nat)
  datatype Subsection = Subsection(title: string, lines: seq<Numbered>)
  datatype Section = Section(heading: Line, title: string, leading: seq<Numbered>, subsections: seq<Subsection>)
  datatype Document = Document(prefix: seq<Numbered>, sections: seq<Section>)

  const EMPTY := Blank(0)

  function Texts(ns: seq<Numbered>): (ls: seq<Line>)
    ensures |ls| == |ns| && forall i :: 0 <= i < |ls| ==> ls[i] == ns[i].line
  {
    seq(|ns|, i requires 0 <= i < |ns| => ns[i].line)
  }

  function Synthetic(ls: seq<Line>): (ns: seq<Numbered>)
    ensures |ns| == |ls| && Texts(ns) == ls && forall i :: 0 <= i < |ns| ==> ns[i].number == 0
  {
    seq(|ls|, i requires 0 <= i < |ls| => Numbered(ls[i], 0))
  }

  function WithNumbers(ls: seq<Line>): (ns: seq<Numbered>)
    ensures |ns| == |ls| && Texts(ns) == ls && forall i :: 0 <= i < |ns| ==> ns[i].number == i + 1
  {
    seq(|ls|, i requires 0 <= i < |ls| => Numbered(ls[i], i + 1))
  }

  // ----- trimming ----------------------------------------------------------------------

  function TrimStart(ls: seq<Line>): seq<Line> {
    if ls != [] && ls[0].Blank? then TrimStart(ls[1..]) else ls
  }

  function TrimEnd(ls: seq<Line>): seq<Line> {
    if ls != [] && ls[|ls| - 1].Blank? then TrimEnd(ls[..|ls| - 1]) else ls
  }

  function Trim(ls: seq<Line>): seq<Line> {
    TrimEnd(TrimStart(ls))
  }

  predicate Trimmed(ls: seq<Line>) {
    ls != [] ==> !ls[0].Blank? && !ls[|ls| - 1].Blank?
  }

  predicate AllBlank(ls: seq<Line>) {
    forall l :: l in ls ==> l.Blank?
  }

  lemma {:induction false} TrimStartIs(a: seq<Line>, b: seq<Line>)
    requires AllBlank(a) && (b != [] ==> !b[0].Blank?)
    ensures TrimStart(a + b) == b
  {
    if a == [] {
      assert a + b == b;
    } else {
      assert (a + b)[1..] == a[1..] + b;
      TrimStartIs(a[1..], b);
    }
  }

  lemma {:induction false} TrimEndIs(b: seq<Line>, c: seq<Line>)
    requires AllBlank(c) && (b != [] ==> !b[|b| - 1].Blank?)
    ensures TrimEnd(b + c) == b
  {
    if c == [] {
      assert b + c == b;
    } else {
      assert (b + c)[..|b + c| - 1] == b + c[..|c| - 1];
      TrimEndIs(b, c[..|c| - 1]);
    }
  }

  /** What trimming leaves is unique: blank lines on either side of it do not matter. */
  lemma TrimIs(a: seq<Line>, b: seq<Line>, c: seq<Line>)
    requires AllBlank(a) && AllBlank(c) && Trimmed(b)
    ensures Trim(a + b + c) == b
  {
    hide TrimStart, TrimEnd;
    if b == [] {
      assert a + b + c == (a + c) + b;
      TrimStartIs(a + c, b);
      TrimEndIs(b, []);
      assert b + [] == b;
    } else {
      assert a + b + c == a + (b + c);
      TrimStartIs(a, b + c);
      TrimEndIs(b, c);
    }
  }

  lemma {:induction false} TrimStartParts(ls: seq<Line>) returns (a: seq<Line>)
    ensures var b := TrimStart(ls); ls == a + b && AllBlank(a) && (b != [] ==> !b[0].Blank?)
  {
    if ls != [] && ls[0].Blank? {
      var rest := TrimStartParts(ls[1..]);
      a := [ls[0]] + rest;
    } else {
      a := [];
    }
  }

  lemma {:induction false} TrimEndParts(ls: seq<Line>) returns (c: seq<Line>)
    ensures var b := TrimEnd(ls); ls == b + c && AllBlank(c) && (b != [] ==> !b[|b| - 1].Blank?)
  {
    if ls != [] && ls[|ls| - 1].Blank? {
      var rest := TrimEndParts(ls[..|ls| - 1]);
      c := rest + [ls[|ls| - 1]];
    } else {
      c := [];
    }
  }

  /** The lines are what trimming leaves, between blanks. */
  lemma TrimParts(ls: seq<Line>) returns (a: seq<Line>, c: seq<Line>)
    ensures ls == a + Trim(ls) + c && AllBlank(a) && AllBlank(c) && Trimmed(Trim(ls))
  {
    hide TrimStart, TrimEnd;
    a := TrimStartParts(ls);
    c := TrimEndParts(TrimStart(ls));
    assert ls == a + (Trim(ls) + c);
    if Trim(ls) != [] { assert Trim(ls)[0] == TrimStart(ls)[0]; }
  }

  /** `trimBlankLines`: two indices moving towards each other. */
  method TrimBlankLines(ls: seq<Line>) returns (r: seq<Line>)
    ensures r == Trim(ls)
  {
    var start, end := 0, |ls|;
    while start < end && ls[start].Blank?
      invariant 0 <= start <= end == |ls| && AllBlank(ls[..start])
    {
      assert ls[..start + 1] == ls[..start] + [ls[start]];
      start := start + 1;
    }
    while end > start && ls[end - 1].Blank?
      invariant start <= end <= |ls| && AllBlank(ls[end..]) && (start < |ls| ==> !ls[start].Blank?)
    {
      assert ls[end - 1..] == [ls[end - 1]] + ls[end..];
      end := end - 1;
    }
    r := ls[start..end];
    assert ls == ls[..start] + ls[start..end] + ls[end..];
    TrimIs(ls[..start], r, ls[end..]);
  }

  lemma TrimAgain(ls: seq<Line>)
    ensures Trimmed(ls) ==> Trim(ls) == ls
  {
    if Trimmed(ls) {
      TrimIs([], ls, []);
      assert [] + ls + [] == ls;
    }
  }

  /** The lines that are not blank. */
  function Solid(ls: seq<Line>): seq<Line> {
    if ls == [] then [] else Solid(ls[..|ls| - 1]) + if ls[|ls| - 1].Blank? then [] else [ls[|ls| - 1]]
  }

  lemma {:induction false} SolidConcat(a: seq<Line>, b: seq<Line>)
    ensures Solid(a + b) == Solid(a) + Solid(b)
  {
    if b == [] {
      assert a + b == a;
    } else {
      assert (a + b)[..|a + b| - 1] == a + b[..|b| - 1];
      SolidConcat(a, b[..|b| - 1]);
    }
  }

  lemma {:induction false} SolidBlank(a: seq<Line>)
    requires AllBlank(a)
    ensures Solid(a) == []
  {
    if a != [] { SolidBlank(a[..|a| - 1]); }
  }

  lemma SolidTrim(ls: seq<Line>)
    ensures Solid(Trim(ls)) == Solid(ls)
  {
    hide Trim, Solid;
    var a, c := TrimParts(ls);
    SolidConcat(a + Trim(ls), c);
    SolidConcat(a, Trim(ls));
    SolidBlank(a);
    SolidBlank(c);
    assert [] + Solid(Trim(ls)) + [] == Solid(Trim(ls));
  }

  // ----- parsing -----------------------------------------------------------------------

  /** One more line: a heading opens a section or a subsection, any other line goes to what is open. */
  function Feed(d: Document, n: Numbered): Document {
    if n.line.Release? then d.(sections := d.sections + [Section(n.line, n.line.title, [], [])])
    else if d.sections == [] then d.(prefix := d.prefix + [n])
    else d.(sections := d.sections[|d.sections| - 1 := FeedSection(d.sections[|d.sections| - 1], n)])
  }

  function FeedSection(s: Section, n: Numbered): Section {
    if n.line.Category? then s.(subsections := s.subsections + [Subsection(n.line.title, [])])
    else if s.subsections == [] then s.(leading := s.leading + [n])
    else
      var last := s.subsections[|s.subsections| - 1];
      s.(subsections := s.subsections[|s.subsections| - 1 := last.(lines := last.lines + [n])])
  }

  function FeedTo(d: Document, ns: seq<Numbered>, n: nat): Document
    requires n <= |ns|
  {
    if n == 0 then d else Feed(FeedTo(d, ns, n - 1), ns[n - 1])
  }

  function FeedSectionTo(s: Section, ns: seq<Numbered>, n: nat): Section
    requires n <= |ns|
  {
    if n == 0 then s else FeedSection(FeedSectionTo(s, ns, n - 1), ns[n - 1])
  }

  const NOTHING := Document([], [])

  function Parse(ns: seq<Numbered>): Document {
    FeedTo(NOTHING, ns, |ns|)
  }

  /** The lines of a section body go to the section. */
  lemma {:induction false} FeedBody(d: Document, ns: seq<Numbered>, n: nat)
    requires n <= |ns| && d.sections != [] && forall i :: 0 <= i < n ==> !ns[i].line.Release?
    ensures var k := |d.sections| - 1; FeedTo(d, ns, n) == d.(sections := d.sections[k := FeedSectionTo(d.sections[k], ns, n)])
  {
    if n > 0 { FeedBody(d, ns, n - 1); }
  }

  lemma {:induction false} FeedOn(d: Document, a: seq<Numbered>, b: seq<Numbered>, n: nat)
    requires n <= |b|
    ensures FeedTo(d, a + b, |a| + n) == FeedTo(FeedTo(d, a, |a|), b, n)
  {
    if n == 0 { FeedSame(d, a + b, a, |a|); } else { FeedOn(d, a, b, n - 1); }
  }

  lemma {:induction false} FeedSame(d: Document, a: seq<Numbered>, b: seq<Numbered>, n: nat)
    requires n <= |a| && n <= |b| && forall i :: 0 <= i < n ==> a[i] == b[i]
    ensures FeedTo(d, a, n) == FeedTo(d, b, n)
  {
    if n > 0 { FeedSame(d, a, b, n - 1); }
  }

  method ParseChangelog(ls: seq<Line>) returns (d: Document)
    ensures d == Parse(WithNumbers(ls)) && LinesOf(d) == HeldLines(ls)
  {
    hide FeedTo, FeedSectionTo, Feed, WithNumbers, LinesOf, HeldLines;
    var ns := WithNumbers(ls);
    var prefix: seq<Numbered>, index := [], 0;
    FeedNone(NOTHING, ns);
    while index < |ns| && !ns[index].line.Release?
      invariant 0 <= index <= |ns| && FeedTo(NOTHING, ns, index) == Document(prefix, [])
    {
      FeedNext(NOTHING, ns, index);
      prefix := prefix + [ns[index]];
      index := index + 1;
    }
    d := Document(prefix, []);
    while index < |ns|
      invariant 0 <= index <= |ns| && FeedTo(NOTHING, ns, index) == d && (index < |ns| ==> ns[index].line.Release?)
    {
      var heading := ns[index].line;
      ghost var begun := FeedTo(NOTHING, ns, index + 1);
      FeedNext(NOTHING, ns, index);
      var start := index + 1;
      index := start;
      while index < |ns| && !ns[index].line.Release?
        invariant start <= index <= |ns| && forall i :: start <= i < index ==> !ns[i].line.Release?
      {
        index := index + 1;
      }
      var body := ns[start..index];
      FeedSlice(NOTHING, ns, start, index);
      FeedBody(begun, body, |body|);
      var section := ParseReleaseSection(heading, body);
      d := d.(sections := d.sections + [section]);
    }
    ParseKeeps(ls, |ls|);
    assert HeldLines(ls)[..|ls|] == HeldLines(ls);
  }

  lemma FeedNone(d: Document, ns: seq<Numbered>)
    ensures FeedTo(d, ns, 0) == d
  {
  }

  lemma FeedNext(d: Document, ns: seq<Numbered>, n: nat)
    requires n < |ns|
    ensures var before, after := FeedTo(d, ns, n), FeedTo(d, ns, n + 1);
            if ns[n].line.Release? then after == before.(sections := before.sections + [Section(ns[n].line, ns[n].line.title, [], [])])
            else before.sections == [] ==> after == before.(prefix := before.prefix + [ns[n]])
  {
  }

  lemma {:induction false} FeedSlice(d: Document, ns: seq<Numbered>, start: nat, end: nat)
    requires start <= end <= |ns|
    ensures FeedTo(d, ns, end) == FeedTo(FeedTo(d, ns, start), ns[start..end], end - start)
  {
    if start < end {
      FeedSlice(d, ns, start, end - 1);
      FeedSame(FeedTo(d, ns, start), ns[start..end], ns[start..end - 1], end - 1 - start);
    }
  }

  method ParseReleaseSection(heading: Line, body: seq<Numbered>) returns (s: Section)
    requires heading.Release? && forall i :: 0 <= i < |body| ==> !body[i].line.Release?
    ensures s == FeedSectionTo(Section(heading, heading.title, [], []), body, |body|)
  {
    ghost var start := Section(heading, heading.title, [], []);
    var leading: seq<Numbered>, index := [], 0;
    while index < |body| && !body[index].line.Category?
      invariant 0 <= index <= |body| && FeedSectionTo(start, body, index) == Section(heading, heading.title, leading, [])
    {
      leading := leading + [body[index]];
      index := index + 1;
    }
    s := Section(heading, heading.title, leading, []);
    while index < |body|
      invariant 0 <= index <= |body| && FeedSectionTo(start, body, index) == s && (index < |body| ==> body[index].line.Category?)
    {
      var title := body[index].line.title;
      var lines: seq<Numbered> := [];
      index := index + 1;
      while index < |body| && !body[index].line.Category?
        invariant index <= |body| && FeedSectionTo(start, body, index) == s.(subsections := s.subsections + [Subsection(title, lines)])
      {
        lines := lines + [body[index]];
        index := index + 1;
      }
      s := s.(subsections := s.subsections + [Subsection(title, lines)]);
    }
  }

  // ----- nothing is lost in parsing ---------------------------------------------------------

  /** A line as the document holds it: of a category heading in a section only the title, and no number of a heading. */
  function Held(l: Line, number: nat, inSection: bool): Numbered {
    if l.Release? then Numbered(l, 0) else if inSection && l.Category? then Numbered(Category(l.title, 0), 0) else Numbered(l, number)
  }

  predicate Begun(ls: seq<Line>, n: nat) {
    exists k :: 0 <= k < n <= |ls| && ls[k].Release?
  }

  function HeldLines(ls: seq<Line>): (ns: seq<Numbered>)
    ensures |ns| == |ls| && forall i :: 0 <= i < |ns| ==> ns[i] == Held(ls[i], i + 1, Begun(ls, i))
  {
    seq(|ls|, i requires 0 <= i < |ls| => Held(ls[i], i + 1, Begun(ls, i)))
  }

  /** The lines of a document, one part after the other. */
  function LinesOfSubs(subs: seq<Subsection>, n: nat): seq<Numbered>
    requires n <= |subs|
  {
    if n == 0 then [] else LinesOfSubs(subs, n - 1) + [Numbered(Category(subs[n - 1].title, 0), 0)] + subs[n - 1].lines
  }

  function LinesOfSections(ss: seq<Section>, n: nat): seq<Numbered>
    requires n <= |ss|
  {
    if n == 0 then [] else
      var s := ss[n - 1];
      LinesOfSections(ss, n - 1) + [Numbered(s.heading, 0)] + s.leading + LinesOfSubs(s.subsections, |s.subsections|)
  }

  function LinesOf(d: Document): seq<Numbered> {
    d.prefix + LinesOfSections(d.sections, |d.sections|)
  }

  lemma {:induction false} SubsPrefix(a: seq<Subsection>, b: seq<Subsection>, n: nat)
    requires n <= |a| && n <= |b| && forall i :: 0 <= i < n ==> a[i] == b[i]
    ensures LinesOfSubs(a, n) == LinesOfSubs(b, n)
  {
    if n > 0 { SubsPrefix(a, b, n - 1); }
  }

  lemma {:induction false} SectionsPrefix(a: seq<Section>, b: seq<Section>, n: nat)
    requires n <= |a| && n <= |b| && forall i :: 0 <= i < n ==> a[i] == b[i]
    ensures LinesOfSections(a, n) == LinesOfSections(b, n)
  {
    if n > 0 { SectionsPrefix(a, b, n - 1); }
  }

  lemma SectionFed(s: Section, n: Numbered)
    requires !n.line.Release?
    ensures var t := FeedSection(s, n);
            && t.heading == s.heading
            && t.leading + LinesOfSubs(t.subsections, |t.subsections|)
               == s.leading + LinesOfSubs(s.subsections, |s.subsections|) + [Held(n.line, n.number, true)]
  {
    var t, k := FeedSection(s, n), |s.subsections|;
    if n.line.Category? {
      SubsPrefix(s.subsections, t.subsections, k);
    } else if k > 0 {
      SubsPrefix(s.subsections, t.subsections, k - 1);
    }
  }

  lemma DocumentFed(d: Document, n: Numbered)
    ensures LinesOf(Feed(d, n)) == LinesOf(d) + [Held(n.line, n.number, d.sections != [])]
  {
    hide LinesOfSubs, FeedSection;
    var k := |d.sections|;
    if n.line.Release? {
      HeadingFed(d, n);
    } else if k > 0 {
      BodyFed(d, n);
    } else {
      assert LinesOfSections(d.sections, 0) == [] && d.prefix + [] == d.prefix && d.prefix + [n] + [] == d.prefix + [n];
    }
  }

  lemma HeadingFed(d: Document, n: Numbered)
    requires n.line.Release?
    ensures LinesOf(Feed(d, n)) == LinesOf(d) + [Held(n.line, n.number, d.sections != [])]
  {
    hide LinesOfSubs;
    SectionsPrefix(d.sections, Feed(d, n).sections, |d.sections|);
    NoSubs();
  }

  lemma BodyFed(d: Document, n: Numbered)
    requires !n.line.Release? && d.sections != []
    ensures LinesOf(Feed(d, n)) == LinesOf(d) + [Held(n.line, n.number, d.sections != [])]
  {
    hide LinesOfSubs, FeedSection, Held;
    var e, k := Feed(d, n), |d.sections|;
    var s, t := d.sections[k - 1], FeedSection(d.sections[k - 1], n);
    SectionsPrefix(d.sections, e.sections, k - 1);
    SectionFed(s, n);
    LinesOfLast(d);
    LinesOfLast(e);
    hide LinesOf, LinesOfSections;
    Assoc(d.prefix + LinesOfSections(d.sections, k - 1) + [Numbered(s.heading, 0)], s.leading + LinesOfSubs(s.subsections, |s.subsections|),
           [Held(n.line, n.number, true)]);
  }

  lemma LinesOfLast(d: Document)
    requires d.sections != []
    ensures var k := |d.sections| - 1;
            var s := d.sections[k];
            LinesOf(d) == (d.prefix + LinesOfSections(d.sections, k) + [Numbered(s.heading, 0)]) + (s.leading + LinesOfSubs(s.subsections, |s.subsections|))
  {
    hide LinesOfSubs;
  }

  lemma NoSubs()
    ensures LinesOfSubs([], 0) == []
  {
  }

  /** Every line is in the document, in its place and with its number. */
  lemma {:induction false} ParseKeeps(ls: seq<Line>, n: nat)
    requires n <= |ls|
    ensures var d := FeedTo(NOTHING, WithNumbers(ls), n); LinesOf(d) == HeldLines(ls)[..n] && (d.sections != [] <==> Begun(ls, n))
  {
    hide Feed, LinesOf, Held;
    if n == 0 {
      NothingHeld();
    } else {
      var d := FeedTo(NOTHING, WithNumbers(ls), n - 1);
      ParseKeeps(ls, n - 1);
      DocumentFed(d, WithNumbers(ls)[n - 1]);
      SectionsFed(d, WithNumbers(ls)[n - 1]);
      assert HeldLines(ls)[..n] == HeldLines(ls)[..n - 1] + [HeldLines(ls)[n - 1]];
    }
  }

  lemma SectionsFed(d: Document, n: Numbered)
    ensures Feed(d, n).sections != [] <==> d.sections != [] || n.line.Release?
  {
  }

  lemma NothingHeld()
    ensures LinesOf(NOTHING) == []
  {
  }
}
