/**
 Line-aware truncation: keep the first lines, keep the last lines, or keep both ends.

 `KeepsMost` is the specification: as many whole lines as the two limits allow, from one side.
 */
module Truncation {
  import opened Sequences
  import opened Utf
  import opened Lines
  import opened ByteCut

  datatype Reason = ByLines | ByBytes | ByMiddle

  datatype Result =
    | Whole(content: Text, totalLines: nat, totalBytes: nat)
    | Cut(content: Text, reason: Reason, totalLines: nat, totalBytes: nat, outputLines: nat, outputBytes: nat,
          elidedLines: nat, elidedBytes: nat, lastLinePartial: bool, firstLineExceedsLimit: bool)

  // ----- specification ---------------------------------------------------------

  /** The first, or the last, `n` lines. */
  function Side(ls: seq<Text>, n: nat, side: Mode): seq<Text>
    requires n <= |ls|
  {
    if side.Head? then ls[..n] else ls[|ls| - n..]
  }

  /** Their size, newlines between them included. */
  function SideBytes(ls: seq<Text>, n: nat, side: Mode): nat
    requires n <= |ls|
  {
    if n == 0 then 0
    else SideBytes(ls, n - 1, side) + (if n == 1 then 0 else 1) + Bytes(if side.Head? then ls[n - 1] else ls[|ls| - n])
  }

  lemma {:induction false} SideBytesIs(ls: seq<Text>, n: nat, side: Mode)
    requires n <= |ls|
    ensures SideBytes(ls, n, side) == Bytes(Join(Side(ls, n, side)))
  {
    hide Bytes, JoinTo, Side;
    if n == 0 {
      NoSide(ls, side);
    } else {
      SideBytesIs(ls, n - 1, side);
      SideNext(ls, n, side);
      var rest := Side(ls, n - 1, side);
      if side.Head? { JoinSnoc(rest, ls[n - 1]); } else { BytesJoinCons(ls[|ls| - n], rest); }
    }
  }

  lemma NoSide(ls: seq<Text>, side: Mode)
    ensures Bytes(Join(Side(ls, 0, side))) == 0
  {
  }

  lemma SideNext(ls: seq<Text>, n: nat, side: Mode)
    requires 0 < n <= |ls|
    ensures var rest := Side(ls, n - 1, side);
            |rest| == n - 1 && Side(ls, n, side) == if side.Head? then rest + [ls[n - 1]] else [ls[|ls| - n]] + rest
  {
  }

  /** `n` lines fit, and one more would break a limit (or there is none). */
  predicate KeepsMost(ls: seq<Text>, n: nat, maxLines: nat, maxBytes: nat, side: Mode) {
    && n <= |ls| && n <= maxLines && SideBytes(ls, n, side) <= maxBytes
    && (n < |ls| && n < maxLines ==> SideBytes(ls, n + 1, side) > maxBytes)
  }

  predicate Fits(content: Text, ls: seq<Text>, maxLines: nat, maxBytes: nat) {
    |ls| <= maxLines && Bytes(content) <= maxBytes
  }

  /** All the lines together break a limit. */
  predicate Overflows(ls: seq<Text>, maxLines: nat, maxBytes: nat, side: Mode) {
    |ls| > maxLines || SideBytes(ls, |ls|, side) > maxBytes
  }

  lemma {:induction false} SideMonotone(ls: seq<Text>, m: nat, n: nat, side: Mode)
    requires m <= n <= |ls|
    ensures SideBytes(ls, m, side) <= SideBytes(ls, n, side)
  {
    if m < n {
      SideMonotone(ls, m, n - 1, side);
    }
  }

  /** Keeping the most is keeping the largest number of lines that any choice within the limits could keep. */
  lemma KeepsMostIs(ls: seq<Text>, n: nat, maxLines: nat, maxBytes: nat, side: Mode)
    requires n <= |ls|
    ensures KeepsMost(ls, n, maxLines, maxBytes, side) <==>
            && n <= maxLines && SideBytes(ls, n, side) <= maxBytes
            && forall m :: n < m <= |ls| && m <= maxLines ==> SideBytes(ls, m, side) > maxBytes
  {
    if KeepsMost(ls, n, maxLines, maxBytes, side) {
      forall m | n < m <= |ls| && m <= maxLines ensures SideBytes(ls, m, side) > maxBytes {
        SideMonotone(ls, n + 1, m, side);
      }
    } else if n < |ls| && n < maxLines && SideBytes(ls, n, side) <= maxBytes {
      assert SideBytes(ls, n + 1, side) <= maxBytes;
    }
  }

  /** There is only one largest number. */
  lemma KeepsMostOnce(ls: seq<Text>, m: nat, n: nat, maxLines: nat, maxBytes: nat, side: Mode)
    requires KeepsMost(ls, m, maxLines, maxBytes, side) && KeepsMost(ls, n, maxLines, maxBytes, side)
    ensures m == n
  {
    KeepsMostIs(ls, m, maxLines, maxBytes, side);
    KeepsMostIs(ls, n, maxLines, maxBytes, side);
  }

  /** A line has at most as many code units as bytes, so comparing code units first only rejects sooner. */
  method Measure(line: Text) returns (codeUnits: nat, bytes: nat)
    ensures codeUnits <= bytes == Bytes(line)
  {
    ToScalarsUtf16(line);
    BytesAtLeastUnits(Utf16(line));
    codeUnits, bytes := |Utf16(line)|, Bytes(line);
  }

  // ----- head --------------------------------------------------------------------

  ghost predicate HeadSpec(content: Text, ls: seq<Text>, maxLines: nat, maxBytes: nat, r: Result) {
    r.totalLines == |ls| && r.totalBytes == Bytes(content) &&
    if Fits(content, ls, maxLines, maxBytes) then r.Whole? && r.content == content
    else
      && r.Cut? && KeepsMost(ls, r.outputLines, maxLines, maxBytes, Head)
      && r.content == Join(ls[..r.outputLines]) && r.outputBytes == Bytes(r.content)
      && r.reason == (if r.outputLines == maxLines then ByLines else ByBytes)
      && r.firstLineExceedsLimit == (r.outputLines == 0 < maxLines) && !r.lastLinePartial
      && r.elidedLines == 0 && r.elidedBytes == 0
  }

  /** The specification leaves nothing open. */
  lemma HeadOnce(content: Text, ls: seq<Text>, maxLines: nat, maxBytes: nat, r: Result, r': Result)
    requires HeadSpec(content, ls, maxLines, maxBytes, r) && HeadSpec(content, ls, maxLines, maxBytes, r')
    ensures r == r'
  {
    if !Fits(content, ls, maxLines, maxBytes) { KeepsMostOnce(ls, r.outputLines, r'.outputLines, maxLines, maxBytes, Head); }
  }

  lemma FitsIs(content: Text, ls: seq<Text>, maxLines: nat, maxBytes: nat, side: Mode)
    requires ls == LinesOf(content)
    ensures Lined(content, ls) && content == Join(ls)
    ensures Fits(content, ls, maxLines, maxBytes) <==> !Overflows(ls, maxLines, maxBytes, side)
  {
    LinesAreLined(content);
    SideBytesIs(ls, |ls|, side);
    assert Side(ls, |ls|, side) == ls;
    JoinLines(content);
  }

  lemma NextHeadLine(content: Text, ls: seq<Text>, n: nat, maxLines: nat, maxBytes: nat, cursor: nat, nl: int)
    requires Lined(content, ls) && n < |ls| && n < maxLines && Overflows(ls, maxLines, maxBytes, Head)
    requires cursor == Start(ls, n) && nl == IndexOf(content, cursor)
    ensures var lineEnd := if nl == -1 then |content| else nl;
            && cursor <= lineEnd == End(ls, n + 1)
            && SideBytes(ls, n + 1, Head) == SideBytes(ls, n, Head) + (if n > 0 then 1 else 0) + Bytes(content[cursor..lineEnd])
    ensures nl == -1 ==> SideBytes(ls, n + 1, Head) > maxBytes
    ensures nl != -1 ==> n + 1 < |ls| && nl + 1 == Start(ls, n + 1)
  {
    assert LineIs(content, ls, n);
    FindForward(content, ls, n);
  }

  method TruncateHead(content: Text, maxLines: nat, maxBytes: nat) returns (r: Result)
    ensures HeadSpec(content, LinesOf(content), maxLines, maxBytes, r)
    ensures r.Whole? <==> |LinesOf(content)| <= maxLines && Bytes(content) <= maxBytes
  {
    var totalBytes, totalLines := Bytes(content), CountNewlines(content) + 1;
    if totalLines <= maxLines && totalBytes <= maxBytes {
      return Whole(content, totalLines, totalBytes);
    }
    ghost var ls := LinesOf(content);
    FitsIs(content, ls, maxLines, maxBytes, Head);
    var includedLines, bytesUsed, cutIndex, reason := TakeFromHead(content, ls, maxLines, maxBytes);
    LinesBefore(content, ls, includedLines);
    SideBytesIs(ls, includedLines, Head);
    r := Cut(content[..cutIndex], reason, totalLines, totalBytes, includedLines, bytesUsed, 0, 0, false, includedLines == 0 < maxLines);
  }

  /** The forward loop. */
  method TakeFromHead(content: Text, ghost ls: seq<Text>, maxLines: nat, maxBytes: nat)
    returns (includedLines: nat, bytesUsed: nat, cutIndex: nat, reason: Reason)
    requires Lined(content, ls) && Overflows(ls, maxLines, maxBytes, Head)
    ensures includedLines < |ls| && KeepsMost(ls, includedLines, maxLines, maxBytes, Head)
    ensures bytesUsed == SideBytes(ls, includedLines, Head) && cutIndex == End(ls, includedLines)
    ensures reason == if includedLines == maxLines then ByLines else ByBytes
  {
    includedLines, bytesUsed, cutIndex, reason := 0, 0, 0, ByLines;
    var cursor: nat := 0;
    while includedLines < maxLines
      invariant includedLines <= maxLines && includedLines < |ls| && reason == ByLines
      invariant cursor == Start(ls, includedLines) && cutIndex == End(ls, includedLines)
      invariant bytesUsed == SideBytes(ls, includedLines, Head) <= maxBytes
    {
      var nl := IndexOf(content, cursor);
      NextHeadLine(content, ls, includedLines, maxLines, maxBytes, cursor, nl);
      var lineEnd := if nl == -1 then |content| else nl;
      var sepBytes := if includedLines > 0 then 1 else 0;
      var remaining := maxBytes - bytesUsed - sepBytes;
      if remaining < 0 {
        reason := ByBytes;
        break;
      }
      var lineText := content[cursor..lineEnd];
      var lineCodeUnits, lineBytes := Measure(lineText);
      if lineCodeUnits > remaining || lineBytes > remaining {
        reason := ByBytes;
        break;
      }
      bytesUsed, includedLines := bytesUsed + sepBytes + lineBytes, includedLines + 1;
      cutIndex := lineEnd;
      if nl == -1 {
        assert false;
        break;
      }
      cursor := nl + 1;
    }
    if includedLines >= maxLines && bytesUsed <= maxBytes { reason := ByLines; }
  }

  // ----- tail --------------------------------------------------------------------

  ghost predicate TailSpec(content: Text, ls: seq<Text>, maxLines: nat, maxBytes: nat, r: Result)
    requires ls != []
  {
    r.totalLines == |ls| && r.totalBytes == Bytes(content) &&
    if Fits(content, ls, maxLines, maxBytes) then r.Whole? && r.content == content
    else
      && r.Cut? && !r.firstLineExceedsLimit && r.outputBytes == Bytes(r.content) && r.elidedLines == 0 && r.elidedBytes == 0
      && KeepsMost(ls, if r.lastLinePartial then 0 else r.outputLines, maxLines, maxBytes, Tail)
      && if r.lastLinePartial then
           0 < maxLines && r.content == LongestSuffix(Last(ls), maxBytes) && r.outputLines == 1 && r.reason == ByBytes
         else
           && r.content == Join(ls[|ls| - r.outputLines..]) && (r.outputLines == 0 ==> maxLines == 0)
           && r.reason == (if r.outputLines == maxLines then ByLines else ByBytes)
  }

  /** What is cut is a partial line exactly when the last line alone is too big. */
  lemma PartialIf(content: Text, ls: seq<Text>, maxLines: nat, maxBytes: nat, r: Result)
    requires ls != [] && TailSpec(content, ls, maxLines, maxBytes, r) && r.Cut?
    ensures r.lastLinePartial <==> 0 < maxLines && Bytes(Last(ls)) > maxBytes
  {
    assert SideBytes(ls, 0, Tail) == 0 && SideBytes(ls, 0 + 1, Tail) == Bytes(Last(ls));
    if r.outputLines > 0 && !r.lastLinePartial { SideMonotone(ls, 1, r.outputLines, Tail); }
  }

  lemma TailOnce(content: Text, ls: seq<Text>, maxLines: nat, maxBytes: nat, r: Result, r': Result)
    requires ls != [] && TailSpec(content, ls, maxLines, maxBytes, r) && TailSpec(content, ls, maxLines, maxBytes, r')
    ensures r == r'
  {
    if !Fits(content, ls, maxLines, maxBytes) {
      PartialIf(content, ls, maxLines, maxBytes, r);
      PartialIf(content, ls, maxLines, maxBytes, r');
      if !r.lastLinePartial { KeepsMostOnce(ls, r.outputLines, r'.outputLines, maxLines, maxBytes, Tail); }
    }
  }

  /**
   Looking back for a newline from just before the start of the text is looking at index 0, so a text
   that begins with a newline would find it again; the byte budget is exhausted before that can happen.
   Here the last `n` lines are taken and `m` are left.
   */
  lemma NextTailLine(content: Text, ls: seq<Text>, m: nat, n: nat, maxLines: nat, maxBytes: nat, end: nat, nl: int)
    requires Lined(content, ls) && m + n == |ls| && 0 < m && n < maxLines && Overflows(ls, maxLines, maxBytes, Tail)
    requires SideBytes(ls, n, Tail) + (if n > 0 then 1 else 0) <= maxBytes
    requires end == End(ls, m) && nl == LastIndexOf(content, end - 1)
    ensures 0 <= nl + 1 <= end <= |content|
    ensures SideBytes(ls, n + 1, Tail) == SideBytes(ls, n, Tail) + (if n > 0 then 1 else 0) + Bytes(content[nl + 1..end])
    ensures nl == -1 ==> SideBytes(ls, n + 1, Tail) > maxBytes
    ensures nl != -1 ==> m > 1 && nl == End(ls, m - 1)
  {
    hide LastIndexOf, End, SideBytes, Bytes, Lined;
    SideStep(ls, n);
    LineBefore(content, ls, m);
    EndPositive(content, ls, m, n, maxLines, maxBytes);
    FindBackward(content, ls, m - 1);
  }

  lemma SideStep(ls: seq<Text>, n: nat)
    requires n < |ls|
    ensures SideBytes(ls, n + 1, Tail) == SideBytes(ls, n, Tail) + (if n > 0 then 1 else 0) + Bytes(ls[|ls| - n - 1])
  {
  }

  lemma EndAtLeast(ls: seq<Text>, m: nat)
    requires 0 < m <= |ls|
    ensures End(ls, m) == 0 ==> m == 1 && Bytes(ls[m - 1]) == 0
  {
  }

  /** A first line that is empty would have fitted, and with it everything. */
  lemma EndPositive(content: Text, ls: seq<Text>, m: nat, n: nat, maxLines: nat, maxBytes: nat)
    requires Lined(content, ls) && m + n == |ls| && 0 < m && n < maxLines && Overflows(ls, maxLines, maxBytes, Tail)
    requires SideBytes(ls, n, Tail) + (if n > 0 then 1 else 0) <= maxBytes
    ensures End(ls, m) > 0
  {
    hide Lined, SideBytes;
    SideStep(ls, n);
    EndAtLeast(ls, m);
  }

  /** The line that ends where `m` lines end. */
  lemma LineBefore(content: Text, ls: seq<Text>, m: nat)
    requires Lined(content, ls) && 0 < m <= |ls|
    ensures Start(ls, m - 1) <= End(ls, m) <= |content| && content[Start(ls, m - 1)..End(ls, m)] == ls[m - 1]
  {
    assert LineIs(content, ls, m - 1);
  }

  lemma LastLine(content: Text, ls: seq<Text>, nl: int)
    requires Lined(content, ls) && nl == LastIndexOf(content, |content| - 1)
    ensures 0 <= nl + 1 <= |content| && content[nl + 1..] == Last(ls)
  {
    hide Lined, LastIndexOf, End;
    LastStart(content, ls);
    FindBackward(content, ls, |ls| - 1);
  }

  lemma LastStart(content: Text, ls: seq<Text>)
    requires Lined(content, ls)
    ensures ls != [] && End(ls, |ls|) == |content| && (End(ls, |ls|) > 0 || content == [])
    ensures Start(ls, |ls| - 1) <= |content| && content[Start(ls, |ls| - 1)..] == Last(ls)
  {
    hide End;
    assert LineIs(content, ls, |ls| - 1);
    var start := Start(ls, |ls| - 1);
    assert content[start..] == content[start..|content|];
  }

  lemma TailWhole(content: Text, ls: seq<Text>, maxLines: nat, maxBytes: nat, left: nat, n: nat, start: nat)
    requires content == Join(ls) && !Fits(content, ls, maxLines, maxBytes)
    requires left + n == |ls| && 0 < left && (n == 0 ==> maxLines == 0) && KeepsMost(ls, n, maxLines, maxBytes, Tail)
    requires start == End(ls, left) + (if n == 0 then 0 else 1)
    ensures start <= |content|
    ensures TailSpec(content, ls, maxLines, maxBytes,
                     Cut(content[start..], if n == maxLines then ByLines else ByBytes, |ls|, Bytes(content), n,
                         SideBytes(ls, n, Tail), 0, 0, false, false))
  {
    LinesBefore(content, ls, left);
    SideBytesIs(ls, n, Tail);
    assert Side(ls, n, Tail) == ls[left..] == ls[|ls| - n..];
  }

  lemma TailPartial(content: Text, ls: seq<Text>, maxLines: nat, maxBytes: nat, text: Text)
    requires ls != [] && !Fits(content, ls, maxLines, maxBytes)
    requires 0 < maxLines && KeepsMost(ls, 0, maxLines, maxBytes, Tail) && text == LongestSuffix(Last(ls), maxBytes)
    ensures TailSpec(content, ls, maxLines, maxBytes, Cut(text, ByBytes, |ls|, Bytes(content), 1, Bytes(text), 0, 0, true, false))
  {
  }

  method TruncateTail(content: Text, maxLines: nat, maxBytes: nat) returns (r: Result)
    ensures TailSpec(content, LinesOf(content), maxLines, maxBytes, r)
    ensures r.Whole? <==> |LinesOf(content)| <= maxLines && Bytes(content) <= maxBytes
  {
    var totalBytes, totalLines := Bytes(content), CountNewlines(content) + 1;
    if totalLines <= maxLines && totalBytes <= maxBytes {
      return Whole(content, totalLines, totalBytes);
    }
    ghost var ls := LinesOf(content);
    FitsIs(content, ls, maxLines, maxBytes, Tail);
    var includedLines, bytesUsed, startIndex, reason, left := TakeFromTail(content, ls, maxLines, maxBytes);
    if includedLines == 0 && reason == ByBytes {
      var nl := LastIndexOf(content, |content| - 1);
      LastLine(content, ls, nl);
      var text, bytes := TruncateLastLine(content[nl + 1..], maxBytes);
      TailPartial(content, ls, maxLines, maxBytes, text);
      return Cut(text, ByBytes, totalLines, totalBytes, 1, bytes, 0, 0, true, false);
    }
    TailWhole(content, ls, maxLines, maxBytes, left, includedLines, startIndex);
    r := Cut(content[startIndex..], reason, totalLines, totalBytes, includedLines, bytesUsed, 0, 0, false, false);
  }

  /** The backward loop. */
  method TakeFromTail(content: Text, ghost ls: seq<Text>, maxLines: nat, maxBytes: nat)
    returns (includedLines: nat, bytesUsed: nat, startIndex: nat, reason: Reason, ghost left: nat)
    requires Lined(content, ls) && Overflows(ls, maxLines, maxBytes, Tail)
    ensures 0 < left && left + includedLines == |ls| && KeepsMost(ls, includedLines, maxLines, maxBytes, Tail)
    ensures bytesUsed == SideBytes(ls, includedLines, Tail)
    ensures startIndex == End(ls, left) + (if includedLines == 0 then 0 else 1)
    ensures reason == if includedLines == maxLines then ByLines else ByBytes
  {
    includedLines, bytesUsed, startIndex, reason := 0, 0, |content|, ByLines;
    var end: nat := |content|;
    left := |ls|;
    while includedLines < maxLines
      invariant includedLines <= maxLines && 0 < left && left + includedLines == |ls|
      invariant end == End(ls, left)
      invariant startIndex == end + (if includedLines == 0 then 0 else 1)
      invariant bytesUsed == SideBytes(ls, includedLines, Tail) <= maxBytes
      invariant reason == ByLines
    {
      var nl := LastIndexOf(content, end - 1);
      var lineStart := if nl == -1 then 0 else nl + 1;
      var sepBytes := if includedLines > 0 then 1 else 0;
      var remaining := maxBytes - bytesUsed - sepBytes;
      if remaining < 0 {
        assert SideBytes(ls, includedLines + 1, Tail) >= bytesUsed + sepBytes;
        reason := ByBytes;
        break;
      }
      NextTailLine(content, ls, left, includedLines, maxLines, maxBytes, end, nl);
      assert lineStart == nl + 1;
      var lineText := content[lineStart..end];
      var lineCodeUnits, lineBytes := Measure(lineText);
      if lineCodeUnits > remaining || lineBytes > remaining {
        reason := ByBytes;
        break;
      }
      bytesUsed, includedLines := bytesUsed + sepBytes + lineBytes, includedLines + 1;
      startIndex := lineStart;
      if nl == -1 {
        assert false;
        break;
      }
      end, left := nl, left - 1;
    }
    if includedLines >= maxLines && bytesUsed <= maxBytes { reason := ByLines; }
  }

  /** A last line that is too long is cut; a window of code units is taken first when it is very long. */
  method TruncateLastLine(line: Text, maxBytes: nat) returns (text: Text, bytes: nat)
    ensures text == LongestSuffix(line, maxBytes) && bytes == Bytes(text)
  {
    var units := Utf16(line);
    ToScalarsUtf16(line);
    if |units| > maxBytes {
      text, bytes := TruncateBytesWindowed(units[|units| - maxBytes..], maxBytes, Tail);
      if maxBytes == 0 { NothingFits(line); } else { TailWindow(units, maxBytes); }
    } else {
      text, bytes := TruncateTailBytes(line, maxBytes);
    }
  }
}
