/** The longest prefix of a tool input that is a complete sequence of edit sections. */
module EditBoundary {
  import opened Options
  import opened Sequences
  import opened EditLines

  datatype Reason = Fine | NoCompletePrefix | InsertMissingPayload
  datatype Boundary = Boundary(ok: bool, parsedEnd: nat, reason: Reason, sections: seq<EditSection>)

  // ----- one line ------------------------------------------------------------------------

  /** `parsed` counts the lines of the prefix. */
  datatype State = State(sections: seq<EditSection>, format: Option<Format>, parsed: nat, needsPayload: bool, payloadAllowed: bool,
                         sawRequired: bool, seenContent: bool)

  const START := State([], None, 0, false, false, false, false)

  predicate Owes(s: State) {
    s.needsPayload && !s.sawRequired
  }

  function Count(s: State, ops: nat, payload: nat, deleted: nat): seq<EditSection>
    requires s.sections != []
  {
    var k := |s.sections| - 1;
    var cur := s.sections[k];
    s.sections[k := EditSection(cur.target, cur.opCount + ops, cur.payloadLines + payload, cur.deletedLines + deleted)]
  }

  function One(b: bool): nat {
    if b then 1 else 0
  }

  /** The state after line `n`, or nothing if the line ends the prefix. */
  function Step(s: State, l: Line, n: nat): Option<State> {
    if !s.seenContent && l.blank then Some(s.(parsed := n))
    else
      var s := s.(seenContent := true);
      if l.beginPatch || l.endPatch then if Owes(s) then None else Some(s.(parsed := n, payloadAllowed := false))
      else if l.header.Some? then
        if Owes(s) then None else
          Some(s.(sections := s.sections + [EditSection(l.header.value.1, 0, 0, 0)], format := Some(l.header.value.0), parsed := n,
                  needsPayload := false, payloadAllowed := false, sawRequired := false))
      else if s.sections == [] || s.format == None then None
      else if s.format == Some(New) then StepNew(s, l, n) else StepLegacy(s, l, n)
  }

  function StepNew(s: State, l: Line, n: nat): Option<State>
    requires s.sections != []
  {
    if s.payloadAllowed && !l.pilcrow && !IsNewOp(l) then Some(s.(sections := Count(s, 0, 1, 0), parsed := n))
    else if l.blank then Some(s.(parsed := n, payloadAllowed := false))
    else if l.newInsert.Some? then Some(s.(sections := Count(s, 1, One(l.newInsert.value), 0), parsed := n, payloadAllowed := true))
    else if l.newRange.Some? then
      var r := l.newRange.value;
      Some(s.(sections := Count(s, 1, One(r.takesPayload && r.hasInline), r.lines), parsed := n, payloadAllowed := r.takesPayload))
    else None
  }

  function StepLegacy(s: State, l: Line, n: nat): Option<State>
    requires s.sections != []
  {
    if s.payloadAllowed && !Opens(l) then
      Some(s.(sections := Count(s, 0, 1, 0), parsed := n, sawRequired := true, needsPayload := false))
    else if l.blank then
      if Owes(s) then None else Some(s.(parsed := n, payloadAllowed := false, needsPayload := false, sawRequired := false))
    else if Owes(s) then None
    else if l.legacyInsert then Some(s.(sections := Count(s, 1, 0, 0), needsPayload := true, payloadAllowed := true, sawRequired := false))
    else if l.legacyReplace.Some? then
      Some(s.(sections := Count(s, 1, 0, l.legacyReplace.value), parsed := n, needsPayload := false, payloadAllowed := true, sawRequired := false))
    else None
  }

  // ----- all lines -------------------------------------------------------------------------

  /** The state after the first `n` lines, or nothing if an earlier line ended the prefix. */
  function After(ls: seq<Line>, n: nat): Option<State>
    requires n <= |ls|
  {
    if n == 0 then Some(START) else
      var s := After(ls, n - 1);
      if s == None then None else Step(s.value, ls[n - 1], n)
  }

  /** How far the lines can be read: up to the first that ends the prefix. */
  function Readable(ls: seq<Line>, n: nat): (k: nat)
    requires n <= |ls|
    ensures k <= n
  {
    if n == 0 || After(ls, n).Some? then n else Readable(ls, n - 1)
  }

  function Offset(ls: seq<Line>, n: nat): nat
    requires n <= |ls|
  {
    if n == 0 then 0 else Offset(ls, n - 1) + ls[n - 1].length
  }

  function Verdict(ls: seq<Line>, s: State): Boundary
    requires s.parsed <= |ls|
  {
    var end := Offset(ls, s.parsed);
    Boundary(end > 0 && s.sections != [], end,
             if Owes(s) then InsertMissingPayload else if end > 0 && s.sections != [] then Fine else NoCompletePrefix, s.sections)
  }

  lemma {:induction false} ReadableIs(ls: seq<Line>, k: nat, n: nat)
    requires k <= n <= |ls| && After(ls, k).Some? && (k < n ==> After(ls, k + 1) == None)
    ensures Readable(ls, n) == k
  {
    hide Step;
    if k < n {
      StaysStopped(ls, k + 1, n);
      if n > k + 1 { ReadableIs(ls, k, n - 1); }
    }
  }

  lemma {:induction false} StaysStopped(ls: seq<Line>, m: nat, n: nat)
    requires m <= n <= |ls| && After(ls, m) == None
    ensures After(ls, n) == None
  {
    hide Step;
    if m < n { StaysStopped(ls, m, n - 1); }
  }

  lemma {:induction false} ReadableStops(ls: seq<Line>, n: nat)
    requires n <= |ls|
    ensures After(ls, Readable(ls, n)).Some? && (Readable(ls, n) < n ==> After(ls, Readable(ls, n) + 1) == None)
  {
    hide Step;
    if n > 0 && After(ls, n) == None { ReadableStops(ls, n - 1); }
  }

  /** A line either becomes the end of the prefix or leaves it where it was; it never moves back. */
  lemma StepParsed(s: State, l: Line, n: nat)
    requires Step(s, l, n).Some?
    ensures var t := Step(s, l, n).value; t.parsed == n || t.parsed == s.parsed
  {
  }

  // ----- the cut -------------------------------------------------------------------------------

  /** Where a line extends the prefix nothing is owed; only an unfinished legacy insert leaves it behind. */
  ghost predicate Sound(s: State) {
    && (s.format == Some(New) ==> !s.needsPayload)
    && (s.format == None <==> s.sections == [])
  }

  lemma StepSound(s: State, l: Line, n: nat)
    requires Sound(s) && Step(s, l, n).Some?
    ensures var t := Step(s, l, n).value;
            && Sound(t) && |s.sections| <= |t.sections| <= |s.sections| + 1
            && (t.parsed == n && s.parsed < n ==> !Owes(t) || (!s.seenContent && l.blank))
            && (t.parsed != n ==> s.sections != [] && Owes(t) && !Owes(s) && |t.sections| == |s.sections| && t.sections == Count(s, 1, 0, 0))
            && (Owes(s) && s.seenContent ==> t.parsed == n)
  {
  }

  lemma {:induction false} AfterSound(ls: seq<Line>, n: nat)
    requires n <= |ls| && After(ls, n).Some?
    ensures var s := After(ls, n).value;
            && Sound(s) && s.parsed <= n && (!s.seenContent ==> !Owes(s) && s.sections == [])
            && (s.parsed == n ==> !Owes(s)) && (s.parsed < n ==> Owes(s) && s.parsed == n - 1 && s.sections != [])
  {
    hide Step, Count;
    if n > 0 {
      AfterSound(ls, n - 1);
      var s := After(ls, n - 1).value;
      StepSound(s, ls[n - 1], n);
      StepSeen(s, ls[n - 1], n);
      StepParsed(s, ls[n - 1], n);
    }
  }

  lemma StepSeen(s: State, l: Line, n: nat)
    requires Step(s, l, n).Some?
    ensures var t := Step(s, l, n).value; !t.seenContent || (!s.seenContent && l.blank) ==> t == s.(parsed := n)
    ensures var t := Step(s, l, n).value; s.seenContent ==> t.seenContent
  {
  }

  /** The state where reading ends. */
  function Final(ls: seq<Line>): (s: State)
    ensures After(ls, Readable(ls, |ls|)) == Some(s) && s.parsed <= |ls|
  {
    ReadableStops(ls, |ls|);
    AfterSound(ls, Readable(ls, |ls|));
    After(ls, Readable(ls, |ls|)).value
  }

  /**
   The loop over the lines.  It reads `k` of them, up to the first that stops it; the prefix ends there, or a line
   before if that is a legacy insert without its payload.  The sections are those of the lines that were read,
   one for each of the headers in `heads`.
   */
  method ParseEditBoundary(ls: seq<Line>) returns (r: Boundary, ghost p: nat, ghost k: nat, ghost heads: seq<nat>)
    requires forall i :: 0 <= i < |ls| ==> ls[i].length > 0
    ensures p == Final(ls).parsed && r == Verdict(ls, Final(ls)) && r.parsedEnd == Offset(ls, p)
    ensures ReadsTo(ls, k) && SectionsAre(ls, k, r.sections, heads) && p == (if Unfinished(ls, k) then k - 1 else k)
    ensures r.ok <==> p > 0 && r.sections != []
    ensures r.reason == if Unfinished(ls, k) then InsertMissingPayload else if p > 0 && r.sections != [] then Fine else NoCompletePrefix
  {
    hide Step;
    var s, parsedEnd, end, i := START, 0, 0, 0;
    while i < |ls|
      invariant 0 <= i <= |ls| && After(ls, i) == Some(s) && s.parsed <= i
      invariant end == Offset(ls, i) && parsedEnd == Offset(ls, s.parsed)
    {
      end := end + ls[i].length;
      var next := Step(s, ls[i], i + 1);
      if next == None {
        break;
      }
      StepParsed(s, ls[i], i + 1);
      if next.value.parsed != s.parsed { parsedEnd := end; }
      s := next.value;
      i := i + 1;
    }
    ReadableIs(ls, i, |ls|);
    p := s.parsed;
    var reason := if Owes(s) then InsertMissingPayload else if parsedEnd > 0 && s.sections != [] then Fine else NoCompletePrefix;
    r := Boundary(parsedEnd > 0 && s.sections != [], parsedEnd, reason, s.sections);
    k, heads := FinalIs(ls);
    OffsetGrows(ls, 0, p);
  }

  /** What the later lines are never mattered for what was read before. */
  lemma {:induction false} AfterPrefix(ls: seq<Line>, p: nat, n: nat)
    requires n <= p <= |ls|
    ensures After(ls[..p], n) == After(ls, n) && Offset(ls[..p], n) == Offset(ls, n)
  {
    hide Step;
    if n > 0 { AfterPrefix(ls, p, n - 1); }
  }

  lemma {:induction false} OffsetGrows(ls: seq<Line>, m: nat, n: nat)
    requires m <= n <= |ls| && forall i :: 0 <= i < |ls| ==> ls[i].length > 0
    ensures Offset(ls, m) + (n - m) <= Offset(ls, n)
  {
    if m < n { OffsetGrows(ls, m, n - 1); }
  }

  /** The end of the prefix never moves back as more lines are read. */
  lemma {:induction false} PrefixGrows(ls: seq<Line>, m: nat, n: nat)
    requires m <= n <= |ls| && After(ls, n).Some?
    ensures After(ls, m).Some? && After(ls, m).value.parsed <= After(ls, n).value.parsed
  {
    hide Step;
    if m < n {
      AfterSound(ls, n - 1);
      StepParsed(After(ls, n - 1).value, ls[n - 1], n);
      PrefixGrows(ls, m, n - 1);
    }
  }

  /**
   Cutting the input at the boundary and parsing again reads all of it, with every section and nothing
   owed.  The sections are the same, but for an unfinished legacy insert, which was counted and is cut off.
   */
  lemma Reparse(ls: seq<Line>)
    requires forall i :: 0 <= i < |ls| ==> ls[i].length > 0
    requires Final(ls).sections != []
    ensures var s := Final(ls);
            var cut := ls[..s.parsed];
               && Readable(cut, |cut|) == |cut|
               && var t := Final(cut);
                  && t.parsed == |cut| && !Owes(t) && Verdict(cut, t).ok && Verdict(cut, t).reason == Fine
                  && Verdict(cut, t).parsedEnd == Verdict(ls, s).parsedEnd
                  && (if Owes(s) then t.sections != [] && s.sections == Count(t, 1, 0, 0) else s.sections == t.sections)
  {
    hide Step, Count;
    var k := Readable(ls, |ls|);
    AfterSound(ls, k);
    var s := After(ls, k).value;
    var p := s.parsed;
    PrefixGrows(ls, p, k);
    AfterSound(ls, p);
    AfterPrefix(ls, p, p);
    var cut, t := ls[..p], After(ls, p).value;
    ReadableIs(cut, p, p);
    if p < k {
      StepSound(t, ls[k - 1], k);
      StepParsed(t, ls[k - 1], k);
    }
    StartHasNone(ls);
    OffsetGrows(ls, 0, p);
  }

  lemma StartHasNone(ls: seq<Line>)
    ensures After(ls, 0) == Some(START)
  {
  }

  // ----- what the states say of the lines ---------------------------------------------------------

  /** The state after `n` lines, in terms of the lines. */
  ghost predicate Knows(ls: seq<Line>, n: nat, s: State)
    requires n <= |ls|
  {
    && (s.seenContent <==> exists k :: 0 <= k < n && !ls[k].blank)
    && (s.sections == [] <==> forall h: nat :: !InSection(ls, h, n))
    && (s.sections == [] ==> s.format == None && !s.payloadAllowed && !Owes(s))
    && forall h: nat :: InSection(ls, h, n) ==> Fits(ls, h, n, s)
  }

  ghost predicate Fits(ls: seq<Line>, h: nat, n: nat, s: State)
    requires InSection(ls, h, n)
  {
    && s.format == Some(ls[h].header.value.0) && (s.payloadAllowed <==> AfterOp(ls, h, n)) && (Owes(s) <==> Lacking(ls, h, n))
    && (IsNew(ls, h) ==> !s.needsPayload)
  }

  lemma InSectionNext(ls: seq<Line>, n: nat, m: nat, h: nat)
    requires n < |ls| && m == n + 1
    ensures InSection(ls, h, m) <==> if Head(ls, n) then h == n else InSection(ls, h, n)
  {
  }

  lemma AfterOpNext(ls: seq<Line>, n: nat, m: nat, h: nat)
    requires h < n < |ls| && m == n + 1
    ensures AfterOp(ls, h, m) <==> TakesPayload(ls, h, n) || IsPayload(ls, h, n)
  {
    hide TakesPayload, Free;
    if TakesPayload(ls, h, n) { assert OpenedAt(ls, h, m, n); }
    if k: nat :| OpenedAt(ls, h, n, k) { assert Free(ls, h, n) ==> OpenedAt(ls, h, m, k); }
    if k: nat :| OpenedAt(ls, h, m, k) { assert k < n ==> OpenedAt(ls, h, n, k); }
  }

  lemma OneSection(ls: seq<Line>, n: nat, h: nat, h': nat)
    requires InSection(ls, h, n) && InSection(ls, h', n)
    ensures h == h'
  {
  }

  /** The last line of a section: how the state goes on. */
  lemma StepFits(ls: seq<Line>, n: nat, m: nat, s: State, h: nat)
    requires n < |ls| && m == n + 1 && InSection(ls, h, n) && s.sections != [] && Fits(ls, h, n, s)
    requires s.seenContent || !ls[n].blank
    requires !Leading(ls, n)
    ensures Step(s, ls[n], m) == None <==> Breaks(ls, h, n)
    ensures Step(s, ls[n], m).Some? && !Head(ls, n) ==> InSection(ls, h, m) && Fits(ls, h, m, Step(s, ls[n], m).value)
  {
    hide Leading;
    AfterOpNext(ls, n, m, h);
    InSectionNext(ls, n, m, h);
    hide AfterOp, InSection;
  }

  /** Right behind a header. */
  lemma HeadFits(ls: seq<Line>, n: nat, m: nat, s: State)
    requires n < |ls| && m == n + 1 && Head(ls, n) && Step(s, ls[n], m).Some? && (Leading(ls, n) <==> !s.seenContent && ls[n].blank)
    ensures var t := Step(s, ls[n], m).value; InSection(ls, n, m) && t.sections != [] && Fits(ls, n, m, t)
  {
  }

  lemma FirstSection(ls: seq<Line>, n: nat, m: nat, s: State)
    requires n < |ls| && m == n + 1 && (Leading(ls, n) <==> !s.seenContent && ls[n].blank)
    requires s.sections == [] && s.format == None && !s.payloadAllowed && !Owes(s)
    ensures Step(s, ls[n], m) == None <==> Body(ls, n)
    ensures Step(s, ls[n], m).Some? && !Head(ls, n) ==>
              var t := Step(s, ls[n], m).value; t.sections == [] && t.format == None && !t.payloadAllowed && !Owes(t)
  {
    hide Leading;
  }

  /** The state reads on exactly if the line does not stop it. */
  lemma StepKnows(ls: seq<Line>, n: nat, m: nat, s: State)
    requires n < |ls| && m == n + 1 && Knows(ls, n, s)
    ensures Step(s, ls[n], m) == None <==> Stops(ls, n)
    ensures Step(s, ls[n], m).Some? ==> Knows(ls, m, Step(s, ls[n], m).value)
  {
    forall h: nat ensures InSection(ls, h, m) <==> if Head(ls, n) then h == n else InSection(ls, h, n) { InSectionNext(ls, n, m, h); }
    LeadingIs(ls, n, s);
    if Step(s, ls[n], m).Some? {
      StepSections(s, ls[n], m);
      if Head(ls, n) { HeadFits(ls, n, m, s); }
    }
    if s.sections == [] {
      FirstSection(ls, n, m, s);
    } else {
      var h: nat :| InSection(ls, h, n);
      forall h': nat | InSection(ls, h', n) ensures h' == h { OneSection(ls, n, h, h'); }
      HeadIsSeen(ls, h, n);
      StepFits(ls, n, m, s, h);
    }
    hide Step, Fits, InSection, Breaks, Leading, Head, Body, Owes;
  }

  lemma LeadingIs(ls: seq<Line>, n: nat, s: State)
    requires n < |ls| && (s.seenContent <==> exists k :: 0 <= k < n && !ls[k].blank)
    ensures Leading(ls, n) <==> !s.seenContent && ls[n].blank
  {
  }

  /** A header is not a leading blank line. */
  lemma HeadIsSeen(ls: seq<Line>, h: nat, n: nat)
    requires InSection(ls, h, n)
    ensures exists k :: 0 <= k < n && !ls[k].blank
    ensures forall i: nat :: n <= i ==> !Leading(ls, i)
  {
  }

  lemma StepSections(s: State, l: Line, n: nat)
    requires Step(s, l, n).Some?
    ensures var t := Step(s, l, n).value;
            |t.sections| >= |s.sections| && (t.seenContent <==> s.seenContent || !l.blank)
  {
  }

  /** What a line adds to the section it is in. */
  lemma StepCounts(ls: seq<Line>, n: nat, m: nat, s: State, h: nat)
    requires n < |ls| && m == n + 1 && InSection(ls, h, n) && s.sections != [] && Fits(ls, h, n, s) && !Leading(ls, n) && (s.seenContent || !ls[n].blank)
    requires Step(s, ls[n], m).Some? && !Head(ls, n)
    ensures Step(s, ls[n], m).value.sections
            == Count(s, One(IsOp(ls, h, n)), One(IsPayload(ls, h, n) || HasInline(ls, h, n)), Deletes(ls, h, n))
  {
    hide Leading;
    CountNothing(s);
    hide AfterOp, InSection;
  }

  lemma CountNothing(s: State)
    requires s.sections != []
    ensures Count(s, 0, 0, 0) == s.sections
  {
  }

  lemma SectionGrows(ls: seq<Line>, h: nat, n: nat, m: nat)
    requires h < n < |ls| && m == n + 1 && ls[h].header.Some?
    ensures var a, b := SectionOf(ls, h, n), SectionOf(ls, h, m);
            b == EditSection(a.target, a.opCount + One(IsOp(ls, h, n)), a.payloadLines + One(IsPayload(ls, h, n) || HasInline(ls, h, n)),
                             a.deletedLines + Deletes(ls, h, n))
  {
    hide IsOp, IsPayload, HasInline, Deletes;
  }

  lemma SectionStarts(ls: seq<Line>, h: nat)
    requires h < |ls| && ls[h].header.Some?
    ensures SectionOf(ls, h, h + 1) == EditSection(ls[h].header.value.1, 0, 0, 0)
  {
  }

  /** The header listed last is that of the open section. */
  lemma LastHead(ls: seq<Line>, n: nat, sections: seq<EditSection>, heads: seq<nat>, h: nat)
    requires SectionsAre(ls, n, sections, heads) && InSection(ls, h, n)
    ensures heads != [] && Last(heads) == h && sections != [] && Last(sections) == SectionOf(ls, h, n)
  {
    hide Head, SectionOf;
    assert h in heads;
    var a :| 0 <= a < |heads| && heads[a] == h;
    var last := |heads| - 1;
    assert heads[last] <= h by { assert Head(ls, heads[last]) && heads[last] < n; }
    assert sections[last] == SectionOf(ls, heads[last], EndOf(heads, last, n));
  }

  lemma SectionsOpen(ls: seq<Line>, n: nat, m: nat, sections: seq<EditSection>, heads: seq<nat>)
    requires n < |ls| && m == n + 1 && SectionsAre(ls, n, sections, heads) && Head(ls, n)
    ensures SectionsAre(ls, m, sections + [EditSection(ls[n].header.value.1, 0, 0, 0)], heads + [n])
  {
    hide SectionOf, Head;
    SectionStarts(ls, n);
    var more, at := sections + [EditSection(ls[n].header.value.1, 0, 0, 0)], heads + [n];
    forall i: nat | i < m && Head(ls, i) ensures i in at { assert i < n ==> i in heads; }
    forall a | 0 <= a < |at| ensures more[a] == SectionOf(ls, at[a], EndOf(at, a, m)) {
      if a < |heads| {
        assert more[a] == sections[a] && EndOf(at, a, m) == EndOf(heads, a, n);
      }
    }
  }

  lemma SectionsGrow(ls: seq<Line>, n: nat, m: nat, sections: seq<EditSection>, heads: seq<nat>)
    requires n < |ls| && m == n + 1 && SectionsAre(ls, n, sections, heads) && !Head(ls, n)
    ensures SectionsAre(ls, m, if heads == [] then [] else sections[|sections| - 1 := SectionOf(ls, Last(heads), m)], heads)
  {
    hide SectionOf, Head;
    var more := if heads == [] then [] else sections[|sections| - 1 := SectionOf(ls, Last(heads), m)];
    forall a | 0 <= a < |more| ensures more[a] == SectionOf(ls, heads[a], EndOf(heads, a, m)) {
      assert a < |heads| - 1 ==> EndOf(heads, a, m) == EndOf(heads, a, n);
    }
    forall i: nat | i < m && Head(ls, i) ensures i in heads { assert i != n; }
  }

  lemma StepFound(ls: seq<Line>, n: nat, m: nat, s: State, heads: seq<nat>) returns (heads': seq<nat>)
    requires n < |ls| && m == n + 1 && Knows(ls, n, s) && SectionsAre(ls, n, s.sections, heads) && Step(s, ls[n], m).Some?
    ensures SectionsAre(ls, m, Step(s, ls[n], m).value.sections, heads')
  {
    LeadingIs(ls, n, s);
    hide Fits, InSection, SectionsAre, SectionOf;
    heads' := heads;
    if Head(ls, n) {
      SectionsOpen(ls, n, m, s.sections, heads);
      heads' := heads + [n];
    } else if s.sections == [] {
      SectionsGrow(ls, n, m, s.sections, heads);
      NoHeads(ls, n, s.sections, heads);
      FirstSection(ls, n, m, s);
    } else {
      var h: nat :| InSection(ls, h, n);
      SectionFound(ls, n, m, s, heads, h);
    }
    hide Step, Head;
  }

  lemma NoHeads(ls: seq<Line>, n: nat, sections: seq<EditSection>, heads: seq<nat>)
    requires SectionsAre(ls, n, sections, heads)
    ensures |heads| == |sections|
  {
  }

  lemma SectionFound(ls: seq<Line>, n: nat, m: nat, s: State, heads: seq<nat>, h: nat)
    requires n < |ls| && m == n + 1 && InSection(ls, h, n) && s.sections != [] && Fits(ls, h, n, s) && SectionsAre(ls, n, s.sections, heads)
    requires (Leading(ls, n) <==> !s.seenContent && ls[n].blank) && (s.seenContent <==> exists k :: 0 <= k < n && !ls[k].blank)
    requires Step(s, ls[n], m).Some? && !Head(ls, n)
    ensures SectionsAre(ls, m, Step(s, ls[n], m).value.sections, heads)
  {
    hide Step, InSection, SectionsAre, SectionOf, Fits, IsOp, IsPayload, HasInline, Deletes, Leading, Head;
    HeadIsSeen(ls, h, n);
    NoHeads(ls, n, s.sections, heads);
    LastHead(ls, n, s.sections, heads, h);
    StepCounts(ls, n, m, s, h);
    SectionsGrow(ls, n, m, s.sections, heads);
    SectionGrows(ls, h, n, m);
  }

  /** Whatever has been read fits the lines, and its sections are theirs. */
  lemma {:induction false} AfterKnows(ls: seq<Line>, n: nat) returns (heads: seq<nat>)
    requires n <= |ls| && After(ls, n).Some?
    ensures Knows(ls, n, After(ls, n).value) && SectionsAre(ls, n, After(ls, n).value.sections, heads)
    ensures forall i: nat :: i < n ==> !Stops(ls, i)
  {
    hide Step, Stops, Knows, SectionsAre;
    if n == 0 {
      heads := [];
      KnowsFirst(ls);
    } else {
      var s := After(ls, n - 1).value;
      heads := AfterKnows(ls, n - 1);
      StepKnows(ls, n - 1, n, s);
      heads := StepFound(ls, n - 1, n, s, heads);
    }
  }

  lemma KnowsFirst(ls: seq<Line>)
    ensures Knows(ls, 0, START) && SectionsAre(ls, 0, [], [])
  {
  }

  /** An insert that lacks its payload when the reading ends. */
  ghost predicate Unfinished(ls: seq<Line>, k: nat) {
    exists h: nat :: InSection(ls, h, k) && Lacking(ls, h, k)
  }

  /** The reading ends at the first line that stops it, and the prefix there or, if an insert lacks its payload, a line before. */
  lemma FinalIs(ls: seq<Line>) returns (k: nat, heads: seq<nat>)
    ensures ReadsTo(ls, k) && SectionsAre(ls, k, Final(ls).sections, heads)
    ensures (Owes(Final(ls)) <==> Unfinished(ls, k)) && Final(ls).parsed == if Unfinished(ls, k) then k - 1 else k
  {
    hide Step, Stops, SectionsAre;
    k := Readable(ls, |ls|);
    ReadableStops(ls, |ls|);
    var s := After(ls, k).value;
    heads := AfterKnows(ls, k);
    AfterSound(ls, k);
    if k < |ls| { StepKnows(ls, k, k + 1, s); }
    OwesIf(ls, k, s);
  }

  lemma OwesIf(ls: seq<Line>, k: nat, s: State)
    requires k <= |ls| && Knows(ls, k, s)
    ensures Owes(s) <==> Unfinished(ls, k)
  {
    hide Lacking, InSection, Owes;
  }
}
