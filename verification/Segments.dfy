/** Cutting the source into kept and elided segments. */
module Segments {
  import opened Utf
  import opened Lines
  import opened Options
  import opened Spans

  /** A stretch of lines, 1-based and inclusive, with its text if it is kept. */
  datatype Segment = Segment(kept: bool, start: nat, end: nat, text: Option<Text>)

  /** Line `n` of the source, counted from 1; empty past the end. */
  function LineAt(lines: seq<Text>, n: nat): Text {
    if 1 <= n <= |lines| then lines[n - 1] else []
  }

  function Between(lines: seq<Text>, start: nat, end: nat): (ls: seq<Text>)
    ensures |ls| == if end < start then 0 else end - start + 1
    ensures forall i :: 0 <= i < |ls| ==> ls[i] == LineAt(lines, start + i)
    decreases end
  {
    if end < start then [] else if end == start then [LineAt(lines, end)] else Between(lines, start, end - 1) + [LineAt(lines, end)]
  }

  ghost predicate AllKind(spans: seq<LineSpan>, kept: bool, start: nat, end: nat) {
    forall line: nat :: start <= line <= end ==> (Covered(spans, line) <==> !kept)
  }

  /** A segment is of one kind throughout, and carries its text if it is kept. */
  ghost predicate SegmentOk(seg: Segment, lines: seq<Text>, spans: seq<LineSpan>) {
    && seg.start <= seg.end && AllKind(spans, seg.kept, seg.start, seg.end)
    && seg.text == if seg.kept then Some(Join(Between(lines, seg.start, seg.end))) else None
  }

  /** The segments follow each other from line 1 to line `upto`, kept and elided by turns. */
  ghost predicate Tiles(segments: seq<Segment>, upto: nat) {
    && (segments == [] ==> upto == 0)
    && (segments != [] ==> segments[0].start == 1 && segments[|segments| - 1].end == upto)
    && (forall i :: 0 <= i < |segments| ==> segments[i].start <= segments[i].end)
    && forall i :: 0 <= i < |segments| - 1 ==> segments[i + 1].start == segments[i].end + 1 && segments[i + 1].kept != segments[i].kept
  }

  function ElidedLines(spans: seq<LineSpan>): set<nat> {
    set s, line: nat | s in spans && s.start <= line <= s.end && s.Has(line) :: line
  }

  method BuildSegments(lines: seq<Text>, total: nat, spans: seq<LineSpan>) returns (segments: seq<Segment>)
    ensures Tiles(segments, total) && forall seg :: seg in segments ==> SegmentOk(seg, lines, spans)
  {
    hide *;
    segments := [];
    NothingTiles();
    if total == 0 {
      return;
    }
    var elided := ElidedLines(spans);
    ElidedLinesAre(spans);
    var current: Option<bool> := None;
    var start, text := 1, [];
    for line := 1 to total + 1
      invariant 1 <= start <= line && Tiles(segments, start - 1) && forall seg :: seg in segments ==> SegmentOk(seg, lines, spans)
      invariant if current == None then line == start == 1 && text == [] && segments == [] else
                  && start < line && Collected(lines, spans, current.value, start, line - 1, text)
                  && (segments != [] ==> segments[|segments| - 1].kept != current.value)
    {
      var kept := line !in elided;
      if current.Some? && current.value != kept {
        segments := PushSegment(segments, current.value, start, line - 1, text, lines, spans);
        start, text := line, [];
      }
      CollectedNext(lines, spans, kept, start, line, text);
      current := Some(kept);
      if kept { text := text + [LineAt(lines, line)]; }
    }
    if current.Some? {
      segments := PushSegment(segments, current.value, start, total, text, lines, spans);
    }
  }

  lemma NothingTiles()
    ensures Tiles([], 0)
  {
  }

  /** The lines from `start` to `end` are of one kind, and are in `text` if that kind is kept. */
  ghost predicate Collected(lines: seq<Text>, spans: seq<LineSpan>, kept: bool, start: nat, end: nat, text: seq<Text>) {
    AllKind(spans, kept, start, end) && text == if kept then Between(lines, start, end) else []
  }

  lemma CollectedNext(lines: seq<Text>, spans: seq<LineSpan>, kept: bool, start: nat, line: nat, text: seq<Text>)
    requires 1 <= start <= line && (Covered(spans, line) <==> !kept)
    requires if start == line then text == [] else Collected(lines, spans, kept, start, line - 1, text)
    ensures Collected(lines, spans, kept, start, line, if kept then text + [LineAt(lines, line)] else text)
  {
    hide Covered, LineAt;
  }

  lemma ElidedLinesAre(spans: seq<LineSpan>)
    ensures forall line: nat :: line in ElidedLines(spans) <==> Covered(spans, line)
  {
    forall line: nat | Covered(spans, line) ensures line in ElidedLines(spans) {
      var s :| s in spans && s.Has(line);
    }

  }

  method PushSegment(segments: seq<Segment>, kept: bool, start: nat, end: nat, text: seq<Text>,
                     ghost lines: seq<Text>, ghost spans: seq<LineSpan>) returns (r: seq<Segment>)
    requires 1 <= start <= end && Tiles(segments, start - 1) && forall seg :: seg in segments ==> SegmentOk(seg, lines, spans)
    requires Collected(lines, spans, kept, start, end, text)
    requires segments != [] ==> segments[|segments| - 1].kept != kept
    ensures Tiles(r, end) && forall seg :: seg in r ==> SegmentOk(seg, lines, spans)
    ensures r != [] && r[|r| - 1].kept == kept
  {
    hide Covered, JoinTo;
    var seg := Segment(kept, start, end, if kept then Some(Join(text)) else None);
    assert SegmentOk(seg, lines, spans);
    r := segments + [seg];
  }

  // ----- what a tiling means -----------------------------------------------------

  /** The source put back together: the lines of each kept text, the source's own where it was elided. */
  function Rebuild(segments: seq<Segment>, lines: seq<Text>, n: nat): seq<Text>
    requires n <= |segments|
  {
    if n == 0 then [] else
      var seg := segments[n - 1];
      Rebuild(segments, lines, n - 1) + if seg.text.Some? then LinesOf(seg.text.value) else Between(lines, seg.start, seg.end)
  }

  /** Nothing is lost and nothing is invented: kept texts and elided source lines make up the source. */
  lemma {:induction false} RebuildsTo(segments: seq<Segment>, lines: seq<Text>, spans: seq<LineSpan>, total: nat, n: nat)
    requires Tiles(segments, total) && forall seg :: seg in segments ==> SegmentOk(seg, lines, spans)
    requires forall i :: 0 <= i < |lines| ==> NL !in lines[i]
    requires n <= |segments|
    ensures Rebuild(segments, lines, n) == Between(lines, 1, if n == 0 then 0 else segments[n - 1].end)
  {
    hide *;
    if n == 0 {
      RebuildNothing(segments, lines);
    } else {
      RebuildsTo(segments, lines, spans, total, n - 1);
      RebuildNext(segments, lines, spans, total, n);
      BetweenConcat(lines, segments[n - 1].start - 1, segments[n - 1].end);
    }
  }

  lemma RebuildNothing(segments: seq<Segment>, lines: seq<Text>)
    ensures Rebuild(segments, lines, 0) == Between(lines, 1, 0)
  {
  }

  /** One segment more brings the lines from its start to its end. */
  lemma RebuildNext(segments: seq<Segment>, lines: seq<Text>, spans: seq<LineSpan>, total: nat, n: nat)
    requires Tiles(segments, total) && forall seg :: seg in segments ==> SegmentOk(seg, lines, spans)
    requires (forall i :: 0 <= i < |lines| ==> NL !in lines[i]) && 0 < n <= |segments|
    ensures var seg := segments[n - 1];
            && seg.start == (if n == 1 then 0 else segments[n - 2].end) + 1 && seg.start <= seg.end
            && Rebuild(segments, lines, n) == Rebuild(segments, lines, n - 1) + Between(lines, seg.start, seg.end)
  {
    hide LinesOf, JoinTo, Join, AllKind, Between;
    var seg := segments[n - 1];
    assert seg in segments;
    StretchRebuilt(lines, seg.start, seg.end);
    assert n > 1 ==> segments[(n - 2) + 1].start == segments[n - 2].end + 1;
  }

  lemma StretchRebuilt(lines: seq<Text>, start: nat, end: nat)
    requires start <= end && forall i :: 0 <= i < |lines| ==> NL !in lines[i]
    ensures LinesOf(Join(Between(lines, start, end))) == Between(lines, start, end)
  {
    hide LinesOf, Join, Between;
    LinesJoin(Between(lines, start, end));
  }

  lemma BetweenConcat(lines: seq<Text>, mid: nat, end: nat)
    requires mid <= end
    ensures Between(lines, 1, end) == Between(lines, 1, mid) + Between(lines, mid + 1, end)
  {
    hide Between;
  }

  lemma SourceRebuilt(segments: seq<Segment>, lines: seq<Text>, spans: seq<LineSpan>)
    requires Tiles(segments, |lines|) && forall seg :: seg in segments ==> SegmentOk(seg, lines, spans)
    requires forall i :: 0 <= i < |lines| ==> NL !in lines[i]
    ensures Rebuild(segments, lines, |segments|) == lines
  {
    hide SegmentOk, Rebuild;
    RebuildsTo(segments, lines, spans, |lines|, |segments|);
    assert Between(lines, 1, |lines|) == lines;
  }

  /** The elided ones of the first `n` segments, as spans. */
  function ElidedTo(segments: seq<Segment>, n: nat): seq<LineSpan>
    requires n <= |segments|
  {
    if n == 0 then [] else
      var seg := segments[n - 1];
      if seg.kept then ElidedTo(segments, n - 1) else ElidedTo(segments, n - 1) + [LineSpan(seg.start, seg.end)]
  }

  function ElidedOf(segments: seq<Segment>): seq<LineSpan> {
    ElidedTo(segments, |segments|)
  }

  function EndOf(segments: seq<Segment>, n: nat): nat
    requires n <= |segments|
  {
    if n == 0 then 0 else segments[n - 1].end
  }

  lemma {:induction false} ElidedGapped(segments: seq<Segment>, total: nat, n: nat)
    requires Tiles(segments, total) && n <= |segments|
    ensures var e := ElidedTo(segments, n);
            Gapped(e) && (e != [] ==> e[|e| - 1].end + (if segments[n - 1].kept then 1 else 0) <= EndOf(segments, n))
  {
    if n > 0 {
      ElidedGapped(segments, total, n - 1);
      NextSegment(segments, total, n);
    }
  }

  lemma NextSegment(segments: seq<Segment>, total: nat, n: nat)
    requires Tiles(segments, total) && 0 < n <= |segments|
    ensures segments[n - 1].start == EndOf(segments, n - 1) + 1 && segments[n - 1].start <= segments[n - 1].end
    ensures n > 1 ==> segments[n - 1].kept != segments[n - 2].kept
  {
    assert n > 1 ==> segments[(n - 2) + 1].kept != segments[n - 2].kept;
  }

  lemma {:induction false} ElidedToIs(segments: seq<Segment>, lines: seq<Text>, spans: seq<LineSpan>, total: nat, n: nat)
    requires Tiles(segments, total) && forall seg :: seg in segments ==> SegmentOk(seg, lines, spans)
    requires n <= |segments|
    ensures forall line: nat :: Covered(ElidedTo(segments, n), line) <==> 1 <= line <= EndOf(segments, n) && Covered(spans, line)
  {
    hide JoinTo, Between, Covered, Tiles;
    if n == 0 {
      CoveredNothing();
    } else {
      var seg := segments[n - 1];
      ElidedToIs(segments, lines, spans, total, n - 1);
      assert SegmentOk(seg, lines, spans);
      NextSegment(segments, total, n);
      CoveredSnoc(ElidedTo(segments, n - 1), LineSpan(seg.start, seg.end));
    }
  }

  /** There is one elided segment for every span, in the same order and with the same bounds. */
  lemma ElidedSegmentsAreSpans(segments: seq<Segment>, lines: seq<Text>, spans: seq<LineSpan>, total: nat)
    requires Tiles(segments, total) && forall seg :: seg in segments ==> SegmentOk(seg, lines, spans)
    requires Gapped(spans) && forall s :: s in spans ==> 1 <= s.start && s.end <= total
    ensures ElidedOf(segments) == spans
  {
    ElidedToIs(segments, lines, spans, total, |segments|);
    ElidedGapped(segments, total, |segments|);
    assert forall line: nat :: Covered(spans, line) ==> 1 <= line <= total;
    GappedUnique(ElidedOf(segments), spans);
  }

  /** How many of the lines 1..n no span covers. */
  ghost function Shown(spans: seq<LineSpan>, n: nat): nat {
    if n == 0 then 0 else Shown(spans, n - 1) + if Covered(spans, n) then 0 else 1
  }

  function KeptLines(segments: seq<Segment>, n: nat): int
    requires n <= |segments|
  {
    if n == 0 then 0 else KeptLines(segments, n - 1) + if segments[n - 1].kept then segments[n - 1].end - segments[n - 1].start + 1 else 0
  }

  lemma {:induction false} ShownStretch(spans: seq<LineSpan>, kept: bool, start: nat, end: nat)
    requires 1 <= start <= end + 1 && AllKind(spans, kept, start, end)
    ensures Shown(spans, end) == Shown(spans, start - 1) + if kept then end - start + 1 else 0
    decreases end
  {
    hide Covered;
    if start <= end { ShownStretch(spans, kept, start, end - 1); }
  }

  /** The kept segments hold exactly the lines that no span covers. */
  lemma {:induction false} KeptAreShown(segments: seq<Segment>, lines: seq<Text>, spans: seq<LineSpan>, total: nat, n: nat)
    requires Tiles(segments, total) && forall seg :: seg in segments ==> SegmentOk(seg, lines, spans)
    requires n <= |segments|
    ensures KeptLines(segments, n) == Shown(spans, if n == 0 then 0 else segments[n - 1].end)
  {
    hide Covered, JoinTo, Between;
    if n > 0 {
      KeptAreShown(segments, lines, spans, total, n - 1);
      var seg := segments[n - 1];
      assert SegmentOk(seg, lines, spans);
      assert seg.start == (if n == 1 then 0 else segments[n - 2].end) + 1;
      ShownStretch(spans, seg.kept, seg.start, seg.end);
    }
  }
}
