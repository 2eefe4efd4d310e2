/** Line spans, and the canonical form of a set of lines. */
module Spans {
  import opened Sorting

  datatype LineSpan = LineSpan(start: nat, end: nat) {
    predicate Has(line: nat) {
      start <= line <= end
    }

    /** The number of lines, by the source's saturating arithmetic: 1 for a span that ends before it starts. */
    function Lines(): nat {
      (if end < start then 0 else end - start) + 1
    }
  }

  ghost predicate Covered(spans: seq<LineSpan>, line: nat) {
    exists s :: s in spans && s.Has(line)
  }

  /** In order, none empty, and at least one line between neighbours. */
  ghost predicate Gapped(spans: seq<LineSpan>) {
    && (forall i :: 0 <= i < |spans| ==> spans[i].start <= spans[i].end)
    && (forall i, j :: 0 <= i < j < |spans| ==> spans[i].end + 1 < spans[j].start)
  }

  function SpanKey(s: LineSpan): Key {
    (s.start, s.end)
  }

  /** The spans that lie in range at all, cut at the last line. */
  method Clip(spans: seq<LineSpan>, total: nat) returns (kept: seq<LineSpan>)
    ensures forall s :: s in kept ==> s.start <= s.end <= total
    ensures forall line: nat :: Covered(kept, line) <==> line <= total && Covered(spans, line)
  {
    kept := [];
    for i := 0 to |spans|
      invariant forall s :: s in kept ==> s.start <= s.end <= total
      invariant forall line: nat :: Covered(kept, line) <==> line <= total && Covered(spans[..i], line)
    {
      ghost var before := kept;
      var span := spans[i];
      if span.start <= span.end && span.start <= total {
        kept := kept + [span.(end := if span.end < total then span.end else total)];
        CoveredSnoc(before, kept[|before|]);
      }
      assert spans[..i + 1] == spans[..i] + [span];
      CoveredSnoc(spans[..i], span);
    }
    assert spans[..|spans|] == spans;
  }

  lemma CoveredSnoc(spans: seq<LineSpan>, s: LineSpan)
    ensures forall line: nat :: Covered(spans + [s], line) <==> Covered(spans, line) || s.Has(line)
  {
    forall line: nat ensures Covered(spans + [s], line) <==> Covered(spans, line) || s.Has(line) {
      if s.Has(line) { assert s in spans + [s]; }
      if Covered(spans, line) {
        var t :| t in spans && t.Has(line);
        assert t in spans + [s];
      }
    }
  }

  /** Stretches the last span over `span` if they touch. */
  method MergeOne(out: seq<LineSpan>, span: LineSpan) returns (r: seq<LineSpan>)
    requires Gapped(out) && span.start <= span.end && (out != [] ==> out[|out| - 1].start <= span.start)
    ensures Gapped(r) && r != [] && r[|r| - 1].start <= span.start
    ensures forall line: nat :: Covered(r, line) <==> Covered(out, line) || span.Has(line)
  {
    hide Covered, LineSpan.Has;
    if out != [] && span.start <= out[|out| - 1].end + 1 {
      var last := out[|out| - 1];
      CoveredLast(out, span);
      r := out[..|out| - 1] + [last.(end := if last.end < span.end then span.end else last.end)];
    } else {
      CoveredSnoc(out, span);
      r := out + [span];
    }
  }

  /** The canonical form: the same lines in range, as few spans as possible, in order. */
  method NormalizeSpans(spans: seq<LineSpan>, total: nat) returns (merged: seq<LineSpan>)
    ensures Gapped(merged) && forall s :: s in merged ==> s.end <= total
    ensures forall line: nat :: Covered(merged, line) <==> 0 < total && line <= total && Covered(spans, line)
  {
    hide Covered, Sort, LineSpan.Has;
    CoveredNothing();
    if total == 0 {
      return [];
    }
    var kept := Clip(spans, total);
    var sorted := Sort(kept, SpanKey);
    SortMembers(kept, SpanKey);
    SameCover(sorted, kept);
    merged := [];
    for i := 0 to |sorted|
      invariant Gapped(merged)
      invariant merged != [] ==> forall j :: i <= j < |sorted| ==> merged[|merged| - 1].start <= sorted[j].start
      invariant forall line: nat :: Covered(merged, line) <==> Covered(sorted[..i], line)
    {
      assert sorted[i] in kept;
      merged := MergeOne(merged, sorted[i]);
      assert forall j :: i < j < |sorted| ==> Leq(SpanKey(sorted[i]), SpanKey(sorted[j]));
      assert sorted[..i + 1] == sorted[..i] + [sorted[i]];
      CoveredSnoc(sorted[..i], sorted[i]);
    }
    assert sorted[..|sorted|] == sorted;
    EndsCovered(merged);
  }

  lemma CoveredNothing()
    ensures forall line: nat :: !Covered([], line)
  {
  }

  lemma EndsCovered(spans: seq<LineSpan>)
    requires Gapped(spans)
    ensures forall s :: s in spans ==> Covered(spans, s.end)
  {
    assert forall s :: s in spans ==> s.Has(s.end);
  }

  lemma SameCover(a: seq<LineSpan>, b: seq<LineSpan>)
    requires forall s :: s in a <==> s in b
    ensures forall line: nat :: Covered(a, line) <==> Covered(b, line)
  {
  }

  /** Stretching the last span over a span that begins inside it or right after it. */
  lemma CoveredLast(spans: seq<LineSpan>, s: LineSpan)
    requires spans != []
    requires var last := spans[|spans| - 1]; last.start <= last.end && last.start <= s.start <= last.end + 1 && s.start <= s.end
    ensures var last := spans[|spans| - 1];
            var stretched := spans[..|spans| - 1] + [last.(end := if last.end < s.end then s.end else last.end)];
            forall line: nat :: Covered(stretched, line) <==> Covered(spans, line) || s.Has(line)
  {
    var last := spans[|spans| - 1];
    CoveredSnoc(spans[..|spans| - 1], last);
    CoveredSnoc(spans[..|spans| - 1], last.(end := if last.end < s.end then s.end else last.end));
    assert spans[..|spans| - 1] + [last] == spans;
  }

  /** The canonical form depends only on the set of lines, so the order the spans arrive in never shows. */
  lemma {:induction false} GappedUnique(a: seq<LineSpan>, b: seq<LineSpan>)
    requires Gapped(a) && Gapped(b) && forall line: nat :: Covered(a, line) <==> Covered(b, line)
    ensures a == b
  {
    if a == [] {
      if b != [] { FirstCovers(b); }
    } else {
      FirstCovers(a);
      FirstCovers(b);
      assert a[0].start == b[0].start;
      assert a[0].end == b[0].end;
      RestCovers(a);
      RestCovers(b);
      GappedUnique(a[1..], b[1..]);
      assert a == [a[0]] + a[1..] && b == [b[0]] + b[1..];
    }
  }

  /** The first span is the first stretch of covered lines. */
  lemma FirstCovers(a: seq<LineSpan>)
    requires Gapped(a) && a != []
    ensures Covered(a, a[0].start) && Covered(a, a[0].end) && !Covered(a, a[0].end + 1)
    ensures forall line: nat :: Covered(a, line) ==> a[0].start <= line
    ensures forall line: nat :: a[0].Has(line) ==> Covered(a, line)
  {
    assert a[0] in a && a[0].Has(a[0].start) && a[0].Has(a[0].end);
  }

  lemma RestCovers(a: seq<LineSpan>)
    requires Gapped(a) && a != []
    ensures Gapped(a[1..])
    ensures forall line: nat :: Covered(a[1..], line) <==> Covered(a, line) && line > a[0].end
  {
    var rest := a[1..];
    forall line: nat ensures Covered(rest, line) <==> Covered(a, line) && line > a[0].end {
      if Covered(rest, line) {
        var s :| s in rest && s.Has(line);
        assert s in a;
      }
      if Covered(a, line) && line > a[0].end {
        var s :| s in a && s.Has(line);
        assert s in rest;
      }
    }
  }
}
