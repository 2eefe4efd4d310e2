/** Middle elision: keep a head window and a tail window of a text, and drop what lies between. */
module Middle {
  import opened Options
  import opened Sequences
  import opened Utf
  import opened Lines
  import opened ByteCut
  import opened Truncation

  /** How an elision of so many lines and bytes is announced; its wording is left open. */
  type Marker = (nat, nat) -> Text

  datatype Windows = Windows(headBytes: int, headLines: int, tailBytes: nat, tailLines: nat)

  function Max(a: int, b: int): int {
    if a < b then b else a
  }

  function WindowsOf(maxLines: nat, maxBytes: nat, maxHeadLines: Option<int>, maxHeadBytes: Option<int>): Windows {
    var headBytes := if maxHeadBytes.Some? then maxHeadBytes.value else maxBytes / 2;
    var headLines := if maxHeadLines.Some? then maxHeadLines.value else Max(1, maxLines / 2);
    Windows(headBytes, headLines, Max(0, maxBytes - headBytes), Max(0, maxLines - headLines))
  }

  /**
   How a budget is shared out: by default in halves, of which the tail's has what is left over, but never fewer
   than one line for the head; otherwise the head has what it is given and the tail the rest, if there is any.
   */
  lemma Shares(maxLines: nat, maxBytes: nat, maxHeadLines: Option<int>, maxHeadBytes: Option<int>)
    ensures var w := WindowsOf(maxLines, maxBytes, maxHeadLines, maxHeadBytes);
            && (maxHeadBytes == None ==> w.headBytes + w.tailBytes == maxBytes && w.headBytes <= w.tailBytes <= w.headBytes + 1)
            && (maxHeadLines == None && maxLines >= 2 ==> w.headLines + w.tailLines == maxLines && w.headLines <= w.tailLines <= w.headLines + 1)
            && (maxHeadLines == None && maxLines < 2 ==> w.headLines == 1 && w.tailLines == 0)
            && (maxHeadBytes.Some? ==> w.headBytes == maxHeadBytes.value)
            && (maxHeadLines.Some? ==> w.headLines == maxHeadLines.value)
            && (if w.headBytes <= maxBytes then w.headBytes + w.tailBytes == maxBytes else w.tailBytes == 0)
            && (if w.headLines <= maxLines then w.headLines + w.tailLines == maxLines else w.tailLines == 0)
  {
  }

  function OutputLines(r: Result): nat {
    if r.Cut? then r.outputLines else 0
  }

  function OutputBytes(r: Result): nat {
    if r.Cut? then r.outputBytes else Bytes(r.content)
  }

  /** How the two windows are put together once both have been cut. */
  function Combine(content: Text, totalLines: nat, totalBytes: nat, head: Result, tail: Result, marker: Marker): Result {
    var h, t := OutputLines(head), OutputLines(tail);
    if h == 0 || (head.Cut? && head.firstLineExceedsLimit) then tail
    else if t == 0 then head
    else if h + t >= totalLines then Whole(content, totalLines, totalBytes)
    else
      var elidedLines := totalLines - h - t;
      var elidedBytes := Max(0, totalBytes - OutputBytes(head) - OutputBytes(tail));
      var m := marker(elidedLines, elidedBytes);
      Cut(head.content + [NL] + m + [NL] + tail.content, ByMiddle, totalLines, totalBytes,
          h + t + 1, OutputBytes(head) + OutputBytes(tail) + Bytes(m) + 2, elidedLines, elidedBytes,
          tail.Cut? && tail.lastLinePartial, false)
  }

  ghost predicate MiddleSpec(content: Text, ls: seq<Text>, maxLines: nat, maxBytes: nat, w: Windows, marker: Marker, r: Result)
    requires ls != []
  {
    if Fits(content, ls, maxLines, maxBytes) then r == Whole(content, |ls|, Bytes(content))
    else if w.headBytes <= 0 || w.headLines <= 0 then
      TailSpec(content, ls, if w.tailLines == 0 then maxLines else w.tailLines, if w.tailBytes == 0 then maxBytes else w.tailBytes, r)
    else if w.tailBytes <= 0 || w.tailLines <= 0 then
      HeadSpec(content, ls, w.headLines, w.headBytes, r)
    else
      exists head, tail :: BothCut(content, ls, w, head, tail) && r == Combine(content, |ls|, Bytes(content), head, tail, marker)
  }

  ghost predicate BothCut(content: Text, ls: seq<Text>, w: Windows, head: Result, tail: Result)
    requires ls != []
  {
    && w.headBytes >= 0 && w.headLines >= 0
    && HeadSpec(content, ls, w.headLines, w.headBytes, head) && TailSpec(content, ls, w.tailLines, w.tailBytes, tail)
  }

  method TruncateMiddle(content: Text, maxLines: nat, maxBytes: nat, maxHeadLines: Option<int>, maxHeadBytes: Option<int>, marker: Marker)
    returns (r: Result)
    ensures MiddleSpec(content, LinesOf(content), maxLines, maxBytes, WindowsOf(maxLines, maxBytes, maxHeadLines, maxHeadBytes), marker, r)
    ensures |LinesOf(content)| <= maxLines && Bytes(content) <= maxBytes ==> r == Whole(content, |LinesOf(content)|, Bytes(content))
  {
    hide HeadSpec, TailSpec, Combine, Feed, Bytes, CountTo;
    var w := WindowsOf(maxLines, maxBytes, maxHeadLines, maxHeadBytes);
    var totalBytes, totalLines := Bytes(content), CountNewlines(content) + 1;
    ghost var ls := LinesOf(content);
    if totalBytes <= maxBytes && totalLines <= maxLines {
      return Whole(content, totalLines, totalBytes);
    }
    if w.headBytes <= 0 || w.headLines <= 0 {
      r := TruncateTail(content, if w.tailLines == 0 then maxLines else w.tailLines, if w.tailBytes == 0 then maxBytes else w.tailBytes);
      return;
    }
    if w.tailBytes <= 0 || w.tailLines <= 0 {
      r := TruncateHead(content, w.headLines, w.headBytes);
      return;
    }
    var head := TruncateHead(content, w.headLines, w.headBytes);
    var tail := TruncateTail(content, w.tailLines, w.tailBytes);
    assert BothCut(content, ls, w, head, tail);
    r := Combine(content, totalLines, totalBytes, head, tail, marker);
  }

  // ----- what the result is ------------------------------------------------------

  /** Both windows are in force, and together they are the whole budget. */
  ghost predicate Windowed(content: Text, ls: seq<Text>, maxLines: nat, maxBytes: nat, w: Windows, head: Result, tail: Result) {
    && ls != [] && !Fits(content, ls, maxLines, maxBytes) && BothCut(content, ls, w, head, tail)
    && w.headBytes > 0 && w.headLines > 0 && w.tailBytes > 0 && w.tailLines > 0
    && w.headBytes + w.tailBytes == maxBytes && w.headLines + w.tailLines == maxLines
  }

  /** A text that breaks a limit of the whole breaks a limit of each window. */
  lemma WindowsBreak(content: Text, ls: seq<Text>, maxLines: nat, maxBytes: nat, w: Windows, head: Result, tail: Result)
    requires Windowed(content, ls, maxLines, maxBytes, w, head, tail)
    ensures head.Cut? && tail.Cut?
  {
  }

  /** A middle elision keeps first and last lines that share none, accounts for every line, and stays in budget. */
  lemma MiddleLines(content: Text, ls: seq<Text>, maxLines: nat, maxBytes: nat, w: Windows, head: Result, tail: Result, marker: Marker, r: Result)
    requires Windowed(content, ls, maxLines, maxBytes, w, head, tail)
    requires r == Combine(content, |ls|, Bytes(content), head, tail, marker) && r.Cut? && r.reason == ByMiddle
    ensures head.Cut? && tail.Cut?
    ensures 1 <= head.outputLines <= w.headLines && 1 <= tail.outputLines <= w.tailLines
    ensures head.outputLines + r.elidedLines + tail.outputLines == |ls| && 1 <= r.elidedLines
    ensures r.outputLines == head.outputLines + tail.outputLines + 1
    ensures head.content == Join(ls[..head.outputLines])
    ensures tail.content == if r.lastLinePartial then LongestSuffix(Last(ls), w.tailBytes) else Join(ls[|ls| - tail.outputLines..])
  {
    WindowsBreak(content, ls, maxLines, maxBytes, w, head, tail);
    assert r.lastLinePartial == tail.lastLinePartial;
  }

  lemma MiddleInBudget(content: Text, ls: seq<Text>, maxLines: nat, maxBytes: nat, w: Windows, head: Result, tail: Result)
    requires Windowed(content, ls, maxLines, maxBytes, w, head, tail)
    ensures Bytes(head.content) + Bytes(tail.content) <= maxBytes
  {
    WindowsBreak(content, ls, maxLines, maxBytes, w, head, tail);
    hide JoinTo, Bytes, BytesTo, LongestSuffix, SuffixUpTo;
    SideBytesIs(ls, head.outputLines, Head);
    if tail.lastLinePartial {
      var p := SuffixCut(Last(ls), w.tailBytes);
    } else {
      SideBytesIs(ls, tail.outputLines, Tail);
    }
  }

  /** The reported size is the size of the result. */
  lemma MiddleSize(content: Text, ls: seq<Text>, maxLines: nat, maxBytes: nat, w: Windows, head: Result, tail: Result, marker: Marker, r: Result)
    requires Windowed(content, ls, maxLines, maxBytes, w, head, tail)
    requires r == Combine(content, |ls|, Bytes(content), head, tail, marker) && r.Cut? && r.reason == ByMiddle
    ensures r.content == head.content + [NL] + marker(r.elidedLines, r.elidedBytes) + [NL] + tail.content
    ensures r.outputBytes == Bytes(r.content)
  {
    WindowsBreak(content, ls, maxLines, maxBytes, w, head, tail);
    BytesSandwich(head.content, marker(r.elidedLines, r.elidedBytes), tail.content);
  }

  /** The elided bytes are exactly the text between the kept ends. */
  lemma MiddleGone(content: Text, ls: seq<Text>, maxLines: nat, maxBytes: nat, w: Windows, head: Result, tail: Result, marker: Marker, r: Result)
    returns (gone: Text)
    requires content == Join(ls) && Windowed(content, ls, maxLines, maxBytes, w, head, tail)
    requires r == Combine(content, |ls|, Bytes(content), head, tail, marker) && r.Cut? && r.reason == ByMiddle
    ensures content == head.content + gone + tail.content && Bytes(gone) == r.elidedBytes
  {
    MiddleLines(content, ls, maxLines, maxBytes, w, head, tail, marker, r);
    gone := KeptEnds(content, ls, head.outputLines, tail.outputLines, tail.content, w.tailBytes);
    BytesConcat(head.content + gone, tail.content);
    BytesConcat(head.content, gone);
    WindowsBreak(content, ls, maxLines, maxBytes, w, head, tail);
  }

  lemma BytesSandwich(a: Text, m: Text, b: Text)
    ensures Bytes(a + [NL] + m + [NL] + b) == Bytes(a) + Bytes(m) + Bytes(b) + 2
  {
    BytesConcat(a + [NL] + m + [NL], b);
    BytesSnoc(a + [NL] + m, NL);
    BytesConcat(a + [NL], m);
    BytesSnoc(a, NL);
  }

  /** The first lines and the last lines of a text, or the end of its last line, are its two ends. */
  lemma KeptEnds(content: Text, ls: seq<Text>, h: nat, t: nat, tail: Text, max: nat) returns (gone: Text)
    requires content == Join(ls) && 1 <= h && 1 <= t && h + t < |ls|
    requires tail == Join(ls[|ls| - t..]) || tail == LongestSuffix(Last(ls), max)
    ensures content == Join(ls[..h]) + gone + tail
  {
    if tail == Join(ls[|ls| - t..]) {
      gone := Between(content, ls, h, |ls| - t);
    } else {
      gone := Between(content, ls, h, |ls| - 1);
      assert ls[|ls| - 1..] == [Last(ls)];
      var p := SuffixCut(Last(ls), max);
      gone := gone + p;
    }
  }

  lemma Between(content: Text, ls: seq<Text>, h: nat, k: nat) returns (gone: Text)
    requires content == Join(ls) && 1 <= h <= k < |ls|
    ensures content == Join(ls[..h]) + gone + Join(ls[k..])
  {
    LinesBefore(content, ls, h);
    LinesBefore(content, ls, k);
    EndMonotone(ls, h, k);
    gone := content[End(ls, h)..Start(ls, k)];
  }

  lemma {:induction false} EndMonotone(ls: seq<Text>, m: nat, n: nat)
    requires m <= n <= |ls|
    ensures End(ls, m) <= End(ls, n)
  {
    if m < n { EndMonotone(ls, m, n - 1); }
  }

  // ----- returned whole because the windows meet ---------------------------------------

  /** The two windows are filled to the last byte, with only a newline between them. */
  ghost predicate FillBoth(ls: seq<Text>, w: Windows) {
    exists k :: 1 <= k < |ls| && k <= w.headLines && |ls| - k <= w.tailLines && FillAt(ls, w, k)
  }

  predicate FillAt(ls: seq<Text>, w: Windows, k: nat)
    requires k <= |ls|
  {
    SideBytes(ls, k, Head) == w.headBytes && SideBytes(ls, |ls| - k, Tail) == w.tailBytes
  }

  /** The last line alone is too big for the tail, and all others fit in the head. */
  predicate OnlyLastOut(ls: seq<Text>, w: Windows) {
    && |ls| >= 2 && Bytes(Last(ls)) > w.tailBytes
    && |ls| - 1 <= w.headLines && SideBytes(ls, |ls| - 1, Head) <= w.headBytes
  }

  /** The two line counts, as the windows are put together. */
  ghost predicate Meet(ls: seq<Text>, h: nat, t: nat) {
    1 <= h && 1 <= t && h + t >= |ls|
  }

  lemma CombineWhole(content: Text, ls: seq<Text>, maxLines: nat, maxBytes: nat, w: Windows, head: Result, tail: Result, marker: Marker)
    requires Windowed(content, ls, maxLines, maxBytes, w, head, tail)
    ensures head.Cut? && tail.Cut? && (tail.lastLinePartial <==> Bytes(Last(ls)) > w.tailBytes) && (tail.lastLinePartial ==> tail.outputLines == 1)
    ensures Combine(content, |ls|, Bytes(content), head, tail, marker).Whole? <==> Meet(ls, head.outputLines, tail.outputLines)
  {
    hide SideBytes, JoinTo, Bytes, BytesTo, LongestSuffix, KeepsMost;
    PartialIf(content, ls, w.tailLines, w.tailBytes, tail);
  }

  lemma FillExactly(content: Text, ls: seq<Text>, maxLines: nat, maxBytes: nat, w: Windows, head: Result, tail: Result)
    requires content == Join(ls) && Windowed(content, ls, maxLines, maxBytes, w, head, tail) && head.Cut? && tail.Cut?
    ensures FillBoth(ls, w) <==> !tail.lastLinePartial && Meet(ls, head.outputLines, tail.outputLines)
    ensures FillBoth(ls, w) ==> |ls| <= maxLines && Bytes(content) == maxBytes + 1 && Bytes(Last(ls)) <= w.tailBytes
  {
    hide HeadSpec, TailSpec, JoinTo, Bytes, BytesTo, SideBytes;
    if k :| 1 <= k < |ls| && k <= w.headLines && |ls| - k <= w.tailLines && FillAt(ls, w, k) {
      FilledMeets(content, ls, maxLines, maxBytes, w, head, tail, k);
      SidesJoin(content, ls, k);
    }
    if !tail.lastLinePartial && Meet(ls, head.outputLines, tail.outputLines) {
      HeadKeeps(content, ls, maxLines, maxBytes, w, head, tail);
      MeetFills(content, ls, maxLines, maxBytes, w, head, tail);
    }
  }

  lemma OnlyLastExactly(content: Text, ls: seq<Text>, maxLines: nat, maxBytes: nat, w: Windows, head: Result, tail: Result)
    requires content == Join(ls) && Windowed(content, ls, maxLines, maxBytes, w, head, tail) && head.Cut?
    requires Bytes(Last(ls)) > w.tailBytes
    ensures OnlyLastOut(ls, w) <==> Meet(ls, head.outputLines, 1)
    ensures OnlyLastOut(ls, w) ==> |ls| <= maxLines && Bytes(content) == SideBytes(ls, |ls| - 1, Head) + 1 + Bytes(Last(ls))
  {
    hide HeadSpec, TailSpec, JoinTo, Bytes, BytesTo, SideBytes, KeepsMost;
    HeadKeeps(content, ls, maxLines, maxBytes, w, head, tail);
    if OnlyLastOut(ls, w) {
      LastSide(ls);
      SidesJoin(content, ls, |ls| - 1);
      KeepsAtLeast(ls, head.outputLines, |ls| - 1, w.headLines, w.headBytes, Head);
    }
  }

  lemma Broken(content: Text, ls: seq<Text>, maxLines: nat, maxBytes: nat, w: Windows, head: Result, tail: Result)
    requires Windowed(content, ls, maxLines, maxBytes, w, head, tail)
    ensures |ls| <= maxLines ==> Bytes(content) > maxBytes
  {
    hide HeadSpec, TailSpec;
  }

  /**
   Exactly when the content is returned whole although it breaks a limit, and by how much: the line limit
   is kept and the byte budget never is, by one byte when the tail is whole lines.
   */
  lemma Overlap(content: Text, ls: seq<Text>, maxLines: nat, maxBytes: nat, w: Windows, head: Result, tail: Result, marker: Marker)
    requires content == Join(ls) && Windowed(content, ls, maxLines, maxBytes, w, head, tail)
    ensures var whole := Combine(content, |ls|, Bytes(content), head, tail, marker).Whole?;
            && (whole <==> FillBoth(ls, w) || OnlyLastOut(ls, w))
            && (whole ==> |ls| <= maxLines && Bytes(content) > maxBytes)
    ensures FillBoth(ls, w) ==> !OnlyLastOut(ls, w) && Bytes(content) == maxBytes + 1
    ensures OnlyLastOut(ls, w) ==> Bytes(content) == SideBytes(ls, |ls| - 1, Head) + 1 + Bytes(Last(ls))
  {
    hide BothCut, HeadSpec, TailSpec, Combine, FillBoth, Meet, JoinTo, Bytes, BytesTo, SideBytes;
    CombineWhole(content, ls, maxLines, maxBytes, w, head, tail, marker);
    FillExactly(content, ls, maxLines, maxBytes, w, head, tail);
    Broken(content, ls, maxLines, maxBytes, w, head, tail);
    if Bytes(Last(ls)) > w.tailBytes { OnlyLastExactly(content, ls, maxLines, maxBytes, w, head, tail); }
  }

  /** In the partial case the excess is the same one byte exactly when the last line takes up all the room the head left. */
  lemma PartialExcess(content: Text, ls: seq<Text>, maxLines: nat, maxBytes: nat, w: Windows, head: Result, tail: Result)
    requires content == Join(ls) && Windowed(content, ls, maxLines, maxBytes, w, head, tail) && OnlyLastOut(ls, w)
    ensures Bytes(content) == maxBytes + 1 <==> Bytes(Last(ls)) - w.tailBytes == w.headBytes - SideBytes(ls, |ls| - 1, Head)
    ensures Bytes(content) - maxBytes == 1 + (Bytes(Last(ls)) - w.tailBytes) - (w.headBytes - SideBytes(ls, |ls| - 1, Head))
  {
    hide SideBytes, KeepsMost, JoinTo, Bytes, BytesTo;
    Overlap(content, ls, maxLines, maxBytes, w, head, tail, (_, _) => []);
  }

  lemma LastSide(ls: seq<Text>)
    requires ls != []
    ensures SideBytes(ls, 1, Tail) == Bytes(Last(ls))
  {
    assert SideBytes(ls, 0, Tail) == 0;
  }

  /** What the head keeps is short of everything. */
  lemma HeadKeeps(content: Text, ls: seq<Text>, maxLines: nat, maxBytes: nat, w: Windows, head: Result, tail: Result)
    requires content == Join(ls) && Windowed(content, ls, maxLines, maxBytes, w, head, tail) && head.Cut?
    ensures KeepsMost(ls, head.outputLines, w.headLines, w.headBytes, Head) && head.outputLines < |ls|
    ensures head.outputLines <= w.headLines && SideBytes(ls, head.outputLines, Head) <= w.headBytes
  {
    hide TailSpec, JoinTo, Bytes, BytesTo;
    SideBytesIs(ls, |ls|, Head);
    assert Side(ls, |ls|, Head) == ls;
  }

  lemma KeepsAtLeast(ls: seq<Text>, n: nat, m: nat, maxLines: nat, maxBytes: nat, side: Mode)
    requires KeepsMost(ls, n, maxLines, maxBytes, side) && m <= |ls| && m <= maxLines && SideBytes(ls, m, side) <= maxBytes
    ensures m <= n
  {
    KeepsMostIs(ls, n, maxLines, maxBytes, side);
  }

  /** One more line is at least one more byte. */
  lemma SideGrows(ls: seq<Text>, m: nat, n: nat, side: Mode)
    requires 1 <= m < n <= |ls|
    ensures SideBytes(ls, m, side) < SideBytes(ls, n, side)
  {
    SideMonotone(ls, m, n - 1, side);
  }

  lemma SidesJoin(content: Text, ls: seq<Text>, k: nat)
    requires content == Join(ls) && 1 <= k < |ls|
    ensures Bytes(content) == SideBytes(ls, k, Head) + 1 + SideBytes(ls, |ls| - k, Tail)
  {
    hide JoinTo, Bytes, BytesTo;
    var first, rest := Side(ls, k, Head), Side(ls, |ls| - k, Tail);
    SideBytesIs(ls, k, Head);
    SideBytesIs(ls, |ls| - k, Tail);
    assert ls == first + rest;
    BytesJoinConcat(first, rest);
  }

  /** Windows that are filled exactly are what both sides keep. */
  lemma FilledMeets(content: Text, ls: seq<Text>, maxLines: nat, maxBytes: nat, w: Windows, head: Result, tail: Result, k: nat)
    requires content == Join(ls) && Windowed(content, ls, maxLines, maxBytes, w, head, tail) && head.Cut? && tail.Cut?
    requires 1 <= k < |ls| && k <= w.headLines && |ls| - k <= w.tailLines && FillAt(ls, w, k)
    ensures head.outputLines == k && tail.outputLines == |ls| - k && !tail.lastLinePartial && Bytes(Last(ls)) <= w.tailBytes
  {
    hide JoinTo, Bytes, BytesTo, LongestSuffix;
    PartialIf(content, ls, w.tailLines, w.tailBytes, tail);
    LastSide(ls);
    SideMonotone(ls, 1, |ls| - k, Tail);
    KeepsAtLeast(ls, head.outputLines, k, w.headLines, w.headBytes, Head);
    KeepsAtLeast(ls, tail.outputLines, |ls| - k, w.tailLines, w.tailBytes, Tail);
    if k < head.outputLines { SideGrows(ls, k, head.outputLines, Head); }
    if |ls| - k < tail.outputLines { SideGrows(ls, |ls| - k, tail.outputLines, Tail); }
  }

  /** Whole lines on both sides that meet fill both windows. */
  lemma MeetFills(content: Text, ls: seq<Text>, maxLines: nat, maxBytes: nat, w: Windows, head: Result, tail: Result)
    requires content == Join(ls) && Windowed(content, ls, maxLines, maxBytes, w, head, tail) && head.Cut? && tail.Cut?
    requires !tail.lastLinePartial && 1 <= head.outputLines < |ls| && head.outputLines + tail.outputLines >= |ls|
    ensures |ls| - head.outputLines <= w.tailLines && FillAt(ls, w, head.outputLines)
  {
    hide JoinTo, Bytes, BytesTo, LongestSuffix;
    var k := head.outputLines;
    SidesJoin(content, ls, k);
    SideMonotone(ls, |ls| - k, tail.outputLines, Tail);
  }

  /** The same about what is returned: whole when it fits, and otherwise exactly when the windows meet. */
  lemma ReturnedWhole(content: Text, maxLines: nat, maxBytes: nat, maxHeadLines: Option<int>, maxHeadBytes: Option<int>, marker: Marker, r: Result)
    requires var w := WindowsOf(maxLines, maxBytes, maxHeadLines, maxHeadBytes);
             && w.headBytes > 0 && w.headLines > 0 && w.tailBytes > 0 && w.tailLines > 0
             && MiddleSpec(content, LinesOf(content), maxLines, maxBytes, w, marker, r)
    ensures var ls, w := LinesOf(content), WindowsOf(maxLines, maxBytes, maxHeadLines, maxHeadBytes);
            && (r.Whole? <==> Fits(content, ls, maxLines, maxBytes) || FillBoth(ls, w) || OnlyLastOut(ls, w))
            && (r.Whole? ==> r.content == content && |ls| <= maxLines)
            && (r.Whole? && !Fits(content, ls, maxLines, maxBytes) ==> Bytes(content) > maxBytes)
            && (FillBoth(ls, w) ==> Bytes(content) == maxBytes + 1)
  {
    var ls, w := LinesOf(content), WindowsOf(maxLines, maxBytes, maxHeadLines, maxHeadBytes);
    JoinLines(content);
    FitsIs(content, ls, maxLines, maxBytes, Head);
    hide LinesOf, Feed, HeadSpec, TailSpec, FillBoth, OnlyLastOut, JoinTo, Bytes, BytesTo, SideBytes;
    if Fits(content, ls, maxLines, maxBytes) {
      MeetBreaks(content, ls, maxLines, maxBytes, w);
    } else {
      var head, tail :| BothCut(content, ls, w, head, tail) && r == Combine(content, |ls|, Bytes(content), head, tail, marker);
      Overlap(content, ls, maxLines, maxBytes, w, head, tail, marker);
    }
  }

  /** Content that fills both windows does not fit. */
  lemma MeetBreaks(content: Text, ls: seq<Text>, maxLines: nat, maxBytes: nat, w: Windows)
    requires content == Join(ls) && w.headBytes + w.tailBytes == maxBytes
    ensures FillBoth(ls, w) ==> Bytes(content) == maxBytes + 1
  {
    hide JoinTo, Bytes, BytesTo, SideBytes;
    if k :| 1 <= k < |ls| && k <= w.headLines && |ls| - k <= w.tailLines && FillAt(ls, w, k) { SidesJoin(content, ls, k); }
  }

  /** The specification leaves nothing open. */
  lemma MiddleOnce(content: Text, ls: seq<Text>, maxLines: nat, maxBytes: nat, w: Windows, marker: Marker, r: Result, r': Result)
    requires ls != [] && MiddleSpec(content, ls, maxLines, maxBytes, w, marker, r) && MiddleSpec(content, ls, maxLines, maxBytes, w, marker, r')
    ensures r == r'
  {
    hide HeadSpec, TailSpec;
    if Fits(content, ls, maxLines, maxBytes) {
    } else if w.headBytes <= 0 || w.headLines <= 0 {
      TailOnce(content, ls, if w.tailLines == 0 then maxLines else w.tailLines, if w.tailBytes == 0 then maxBytes else w.tailBytes, r, r');
    } else if w.tailBytes <= 0 || w.tailLines <= 0 {
      HeadOnce(content, ls, w.headLines, w.headBytes, r, r');
    } else {
      var head, tail :| BothCut(content, ls, w, head, tail) && r == Combine(content, |ls|, Bytes(content), head, tail, marker);
      var head', tail' :| BothCut(content, ls, w, head', tail') && r' == Combine(content, |ls|, Bytes(content), head', tail', marker);
      HeadOnce(content, ls, w.headLines, w.headBytes, head, head');
      TailOnce(content, ls, w.tailLines, w.tailBytes, tail, tail');
    }
  }

  /**
   A budget broken without bound: a short line, and one of any length behind it, come back whole.
   */
  method OverlapRun(long: Text, marker: Marker) returns (r: Result)
    requires NL !in long && Bytes(long) >= 2
    ensures var content := Join(["a", long]); r == Whole(content, 2, 2 + Bytes(long)) && Bytes(content) == 2 + Bytes(long)
  {
    ghost var ls := ["a", long];
    var content := "a" + [NL] + long;
    ShortAndLong(long);
    r := TruncateMiddle(content, 2, 2, None, None, marker);
    OnlyLongOut(content, ls, marker, r);
  }

  lemma ShortAndLong(long: Text)
    requires NL !in long
    ensures var ls := ["a", long]; LinesOf(Join(ls)) == ls && Join(ls) == "a" + [NL] + long && Bytes(Join(ls)) == 2 + Bytes(long)
  {
    var ls := ["a", long];
    LinesJoin(ls);
    JoinSnoc(["a"], long);
    assert ["a"] + [long] == ls && Join(["a"]) == "a" by { assert ["a"][..1] == ["a"]; }
    BytesConcat("a" + [NL], long);
    BytesSnoc("a", NL);
    BytesOne('a');
  }

  lemma OnlyLongOut(content: Text, ls: seq<Text>, marker: Marker, r: Result)
    requires |ls| == 2 && ls[0] == "a" && content == Join(ls) && Bytes(content) > 2 && Bytes(ls[1]) >= 2
    requires MiddleSpec(content, ls, 2, 2, Windows(1, 1, 1, 1), marker, r)
    ensures r == Whole(content, 2, Bytes(content))
  {
    assert SideBytes(ls, 1, Head) == 1 by { assert SideBytes(ls, 0, Head) == 0; BytesOne('a'); assert "a" == ['a']; }
    hide HeadSpec, TailSpec, Combine, SideBytes, Bytes;
    var w := Windows(1, 1, 1, 1);
    var head, tail :| BothCut(content, ls, w, head, tail) && r == Combine(content, |ls|, Bytes(content), head, tail, marker);
    assert OnlyLastOut(ls, w);
    Overlap(content, ls, 2, 2, w, head, tail, marker);
    WholeIs(content, ls, w, head, tail, marker);
  }

  lemma WholeIs(content: Text, ls: seq<Text>, w: Windows, head: Result, tail: Result, marker: Marker)
    requires ls != [] && BothCut(content, ls, w, head, tail) && Combine(content, |ls|, Bytes(content), head, tail, marker).Whole?
    ensures Combine(content, |ls|, Bytes(content), head, tail, marker) == Whole(content, |ls|, Bytes(content))
  {
    hide JoinTo, Bytes, BytesTo, SideBytes;
  }
}
