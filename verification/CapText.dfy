/** The column cap as a function of a chunk and of the line it continues, and when a change by it shows in the size. */
module CapText {
  import opened Sequences
  import opened Utf
  import opened Lines
  import opened ColumnCap

  /** What a stretch of a line becomes: nothing once the line is cut, itself if it fits, else what fits beside the ellipsis. */
  function CapPart(segment: Text, max: nat, lineBytes: nat, cut: bool): Text {
    if cut then []
    else if lineBytes + Bytes(segment) <= max then segment
    else LongestPrefix(segment, HeadRoom(max, lineBytes)) + [ELLIPSIS]
  }

  /** Line by line; only the first continues a line. */
  function CapParts(ls: seq<Text>, max: nat, lineBytes: nat, cut: bool): (ps: seq<Text>)
    ensures |ps| == |ls|
    ensures forall i :: 0 <= i < |ps| ==> ps[i] == if i == 0 then CapPart(ls[i], max, lineBytes, cut) else CapPart(ls[i], max, 0, false)
  {
    seq(|ls|, i requires 0 <= i < |ls| => if i == 0 then CapPart(ls[i], max, lineBytes, cut) else CapPart(ls[i], max, 0, false))
  }

  /** What becomes of a chunk. */
  function CapChunk(chunk: Text, max: nat, lineBytes: nat, cut: bool): Text {
    Join(CapParts(LinesOf(chunk), max, lineBytes, cut))
  }

  /** A line that is not cut is within the cap. */
  predicate InLine(max: nat, lineBytes: nat, cut: bool) {
    cut || lineBytes <= max
  }

  // ----- chunk by stretches ----------------------------------------------------------------

  lemma PartNothing(max: nat, lineBytes: nat, cut: bool)
    requires InLine(max, lineBytes, cut)
    ensures CapPart([], max, lineBytes, cut) == []
  {
  }

  lemma ChunkNothing(max: nat, lineBytes: nat, cut: bool)
    requires InLine(max, lineBytes, cut)
    ensures CapChunk([], max, lineBytes, cut) == []
  {
    NoNewline([]);
    PartNothing(max, lineBytes, cut);
  }

  /** Behind a newline stands an empty line. */
  lemma LinesNewline(q: Text)
    ensures LinesOf(q + [NL]) == LinesOf(q) + [[]]
  {
    LinesConcat(q, []);
    NoNewline([]);
    AddNothing(q + [NL]);
  }

  lemma ChunkNewline(q: Text, max: nat, lineBytes: nat, cut: bool)
    ensures CapChunk(q + [NL], max, lineBytes, cut) == CapChunk(q, max, lineBytes, cut) + [NL]
  {
    hide LinesOf, JoinTo, CapPart, Bytes;
    LinesNewline(q);
    PartNothing(max, 0, false);
    var ps := CapParts(LinesOf(q), max, lineBytes, cut);
    assert CapParts(LinesOf(q) + [[]], max, lineBytes, cut) == ps + [[]];
    JoinNewline(ps);
  }

  /** At the start of a chunk or of a line. */
  predicate AtStart(p: Text) {
    p == [] || p[|p| - 1] == NL
  }

  lemma StartLines(p: Text)
    requires AtStart(p)
    ensures Last(LinesOf(p)) == [] && (|LinesOf(p)| == 1 <==> p == [])
  {
    if p == [] {
      NoNewline([]);
    } else {
      assert p == p[..|p| - 1] + [NL];
      LinesNewline(p[..|p| - 1]);
    }
  }

  lemma ChunkSegment(p: Text, segment: Text, max: nat, lineBytes: nat, cut: bool)
    requires AtStart(p) && NL !in segment && InLine(max, lineBytes, cut)
    ensures CapChunk(p + segment, max, lineBytes, cut)
            == CapChunk(p, max, lineBytes, cut) + CapPart(segment, max, if p == [] then lineBytes else 0, p == [] && cut)
  {
    StartLines(p);
    hide LinesOf, JoinTo, CapPart, Bytes;
    var ls := LinesOf(p);
    var n, part := |ls| - 1, CapPart(segment, max, if p == [] then lineBytes else 0, p == [] && cut);
    LinesExtend(p, segment);
    AddNothing(segment);
    AddNothing(part);
    PartNothing(max, lineBytes, cut);
    PartNothing(max, 0, false);
    var ps := CapParts(ls, max, lineBytes, cut);
    assert ps[n] == [];
    assert CapParts(Extend(ls, segment), max, lineBytes, cut) == Extend(ps, part);
    JoinExtend(ps, part);
  }

  // ----- when a change shows ---------------------------------------------------------------

  /** A cut takes more than the ellipsis brings: the line is cut already, or has room for an ellipsis, as every later line does. */
  predicate Watching(max: nat, lineBytes: nat, cut: bool) {
    max >= ELLIPSIS_BYTES && (cut || lineBytes + ELLIPSIS_BYTES <= max)
  }

  lemma PartShrinks(segment: Text, max: nat, lineBytes: nat, cut: bool)
    requires Watching(max, lineBytes, cut)
    ensures CapPart(segment, max, lineBytes, cut) == segment || Bytes(CapPart(segment, max, lineBytes, cut)) < Bytes(segment)
  {
    if cut {
      assert Bytes([]) == 0;
      BytesAtLeastLength(segment);
    } else if lineBytes + Bytes(segment) > max {
      var rest := PrefixCut(segment, HeadRoom(max, lineBytes));
      BytesSnoc(LongestPrefix(segment, HeadRoom(max, lineBytes)), ELLIPSIS);
    }
  }

  /** Lines that change only by getting smaller make a text that changes only by getting smaller. */
  lemma {:induction false} JoinShrinks(ls: seq<Text>, ps: seq<Text>, n: nat)
    requires n <= |ls| == |ps| && forall i :: 0 <= i < |ls| ==> ps[i] == ls[i] || Bytes(ps[i]) < Bytes(ls[i])
    ensures JoinTo(ps, n) == JoinTo(ls, n) || Bytes(JoinTo(ps, n)) < Bytes(JoinTo(ls, n))
  {
    hide Bytes;
    if n > 1 {
      JoinShrinks(ls, ps, n - 1);
      JoinBytes(ls, n);
      JoinBytes(ps, n);
    }
  }

  lemma JoinBytes(ls: seq<Text>, n: nat)
    requires 1 < n <= |ls|
    ensures Bytes(JoinTo(ls, n)) == Bytes(JoinTo(ls, n - 1)) + 1 + Bytes(ls[n - 1])
  {
    BytesConcat(JoinTo(ls, n - 1) + [NL], ls[n - 1]);
    BytesSnoc(JoinTo(ls, n - 1), NL);
  }

  lemma ChangeShows(chunk: Text, max: nat, lineBytes: nat, cut: bool)
    requires Watching(max, lineBytes, cut)
    ensures CapChunk(chunk, max, lineBytes, cut) == chunk || Bytes(CapChunk(chunk, max, lineBytes, cut)) < Bytes(chunk)
  {
    hide LinesOf, JoinTo, CapPart, Bytes;
    var ls, ps := LinesOf(chunk), CapParts(LinesOf(chunk), max, lineBytes, cut);
    forall i | 0 <= i < |ls| ensures ps[i] == ls[i] || Bytes(ps[i]) < Bytes(ls[i]) {
      PartShrinks(ls[i], max, if i == 0 then lineBytes else 0, i == 0 && cut);
    }
    JoinShrinks(ls, ps, |ls|);
    JoinLines(chunk);
  }

  /** Three bytes at the end of a line become an ellipsis of three bytes. */
  lemma ThreeForThree(segment: Text, max: nat, lineBytes: nat)
    requires Bytes(segment) == ELLIPSIS_BYTES && lineBytes <= max < lineBytes + ELLIPSIS_BYTES
    ensures CapPart(segment, max, lineBytes, false) == [ELLIPSIS] && Bytes([ELLIPSIS]) == ELLIPSIS_BYTES
  {
    NothingFits(segment);
    BytesOne(ELLIPSIS);
  }

  /** Where a cut need not show, there is a chunk where it does not. */
  lemma Unseen(max: nat, lineBytes: nat, cut: bool) returns (chunk: Text)
    requires InLine(max, lineBytes, cut) && !Watching(max, lineBytes, cut)
    ensures CapChunk(chunk, max, lineBytes, cut) != chunk && Bytes(CapChunk(chunk, max, lineBytes, cut)) == Bytes(chunk)
  {
    var three := "xxx";
    assert Bytes(three) == 3 by { assert BytesTo(three, 0) == 0 && BytesTo(three, 1) == 1 && BytesTo(three, 2) == 2; }
    ChunkNothing(max, lineBytes, cut);
    hide CapChunk, CapPart, Bytes, JoinTo;
    if !cut {
      chunk := three;
      ChunkSegment([], three, max, lineBytes, cut);
      ThreeForThree(three, max, lineBytes);
      assert [] + three == three && [] + [ELLIPSIS] == [ELLIPSIS];
    } else {
      chunk := [NL] + three;
      ChunkNewline([], max, lineBytes, cut);
      assert [] + [NL] == [NL];
      ChunkSegment([NL], three, max, lineBytes, cut);
      ThreeForThree(three, max, 0);
      BytesConcat([NL], three);
      BytesConcat([NL], [ELLIPSIS]);
    }
  }

  /** Every change the cap makes to a chunk shows in its size, whatever the chunk, if and only if this holds before it. */
  lemma NoticedIff(max: nat, lineBytes: nat, cut: bool)
    requires InLine(max, lineBytes, cut)
    ensures (forall chunk :: CapChunk(chunk, max, lineBytes, cut) != chunk ==> Bytes(CapChunk(chunk, max, lineBytes, cut)) < Bytes(chunk))
            <==> Watching(max, lineBytes, cut)
  {
    hide CapChunk, Bytes;
    if Watching(max, lineBytes, cut) {
      forall chunk | CapChunk(chunk, max, lineBytes, cut) != chunk ensures Bytes(CapChunk(chunk, max, lineBytes, cut)) < Bytes(chunk) {
        ChangeShows(chunk, max, lineBytes, cut);
      }
    } else {
      var chunk := Unseen(max, lineBytes, cut);
    }
  }
}
