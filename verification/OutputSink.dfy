/**
 The streaming sink: a column cap, a retained head, a rolling tail, and an artifact file that is opened
 as soon as memory no longer holds everything.

 Ghost fields carry the whole streams: `raw` as pushed, `capped` after the column cap, `tail` the part of
 `capped` that went past the head, `emitted` what was handed to the file.
 */
module OutputSinks {
  import opened Options
  import opened Sequences
  import opened Utf
  import opened Lines
  import opened ByteCut
  import opened TailBuffers
  import opened ColumnCap
  import opened CapText
  import opened ArtifactCap
  import opened Elision

  /** The head differs from the stream: it is not a prefix of it, and as both only grow it never will be. */
  ghost predicate Broken(head: Text, stream: Text) {
    exists i :: DiffersAt(head, stream, i)
  }

  ghost predicate DiffersAt(head: Text, stream: Text, i: int) {
    0 <= i < |head| && i < |stream| && head[i] != stream[i]
  }

  /**
   A chunk shared out between head and tail keeps them in order exactly when its head share is empty or
   nothing has gone to the tail yet; out of order is for good.
   */
  lemma OrderStep(head: Text, tail: Text, c: Text, p: Text, t: Text, room: int)
    requires Joined(head, tail, c) || Broken(head, c)
    requires tail != [] ==> Width(tail[0]) > room
    requires p != [] ==> Width(p[0]) <= room
    ensures Broken(head + p, c + (p + t)) || Joined(head + p, tail + t, c + (p + t))
    ensures Joined(head + p, tail + t, c + (p + t)) <==> Joined(head, tail, c) && (tail == [] || p == [])
  {
    var head', tail', c' := head + p, tail + t, c + (p + t);
    JoinedIs(head, tail, c);
    JoinedIs(head', tail', c');
    if Broken(head, c) {
      var i :| DiffersAt(head, c, i);
      assert DiffersAt(head', c', i);
      assert (head' + tail')[i] == head[i] == (head + tail)[i];
    } else if tail != [] && p != [] {
      assert head'[|head|] == p[0] && c'[|head|] == tail[0] && DiffersAt(head', c', |head|);
      assert (head' + tail')[|head|] == p[0];
    } else {
      assert p == [] ==> head' == head && p + t == t;
      assert head' + tail' == c';
    }
  }

  lemma FirstFits(t: Text, max: nat)
    requires Bytes(t) <= max
    ensures t != [] ==> Width(t[0]) <= max
  {
    if t != [] { BytesCons(t); }
  }

  function Appended(ghost start: Text, out: Text, part: Text): (r: Text)
    ensures start + r == start + out + part && r == out + part
  {
    out + part
  }

  datatype OutputSummary = OutputSummary(
    output: Text, truncated: bool, totalLines: nat, totalBytes: nat, outputLines: nat, outputBytes: nat,
    elidedBytes: Option<nat>, elidedLines: Option<nat>, columnDroppedBytes: Option<nat>, columnTruncatedLines: Option<nat>,
    hasArtifact: bool)

  function OrZero(n: Option<nat>): nat {
    if n == None then 0 else n.value
  }

  class OutputSink {
    // configuration
    const hasArtifact: bool
    const spillThreshold: nat
    const headLimit: nat
    const maxColumns: nat
    const artifactMaxBytes: nat
    const artifactHeadBudget: nat
    const artifactTailBudget: nat

    // the in-memory view
    var buffer: Text
    var bufferBytes: nat
    var head: Text
    var headBytes: nat
    var headLines: nat
    var headRetentionDisabled: bool
    var totalLines: nat
    var totalBytes: nat
    var sawData: bool
    var truncated: bool

    // the column cap
    var currentLineBytes: nat
    var columnEllipsisAdded: bool
    var columnDroppedBytes: nat
    var columnTruncatedLines: nat

    // the artifact file
    var file: Option<Text>
    var pendingFileWrites: Option<seq<Text>>
    var artifactHeadBytesWritten: nat
    var artifactHeadClosed: bool
    var artifactTailRing: Text
    var artifactTailRingBytes: nat
    var artifactTailIncomingBytes: nat

    ghost var raw: Text
    ghost var capped: Text
    ghost var cappedRaw: Text       // what went through the column cap since the last replacement
    ghost var cappedOut: Text       // and what came out
    ghost var tail: Text
    ghost var emitted: Text
    ghost var overflow: Text
    ghost var history: Text         // all that was ever pushed
    ghost var replaced: bool
    ghost var failed: bool          // the file could once not be opened
    ghost var watched: bool         // every change by the column cap so far had to show in the size of its chunk
    ghost var intact: bool          // when it was opened, memory held all that had been pushed, in order

    // ----- invariants ------------------------------------------------------------

    ghost predicate TailValid()
      reads this`buffer, this`bufferBytes, this`tail
    {
      && bufferBytes == Bytes(buffer)
      && buffer == if bufferBytes <= spillThreshold then LongestSuffix(tail, spillThreshold) else tail
    }

    ghost predicate CapValid()
      reads this`raw, this`capped, this`replaced, this`cappedRaw, this`cappedOut, this`currentLineBytes, this`columnEllipsisAdded,
            this`columnDroppedBytes, this`columnTruncatedLines
    {
      && Bytes(capped) + columnDroppedBytes == Bytes(raw) + ELLIPSIS_BYTES * columnTruncatedLines
      && if maxColumns == 0 then capped == raw && columnDroppedBytes == 0 == columnTruncatedLines
         else LinesValid() && (!replaced ==> raw == cappedRaw && capped == cappedOut)
    }

    ghost predicate FileValid()
      reads this`file, this`emitted, this`overflow, this`artifactHeadBytesWritten, this`artifactHeadClosed, this`artifactTailRing,
            this`artifactTailRingBytes, this`artifactTailIncomingBytes
    {
      && (file == None ==> emitted == [])
      && if artifactMaxBytes == 0 then file.Some? ==> file.value == emitted else
         Split(emitted, Written(), overflow, artifactHeadBudget, artifactTailBudget, artifactHeadBytesWritten,
               artifactHeadClosed, artifactTailRing, artifactTailRingBytes, artifactTailIncomingBytes)
    }

    /** What is on disk. */
    function Written(): Text
      reads this`file
    {
      if file.Some? then file.value else []
    }

    ghost predicate HeadValid()
      reads this`head, this`headBytes, this`headLines, this`headRetentionDisabled, this`tail, this`capped
    {
      HeadValidFor(capped)
    }

    /** The head and the tail share out the stream `c`; a gap left in the head is too narrow for what came next. */
    ghost predicate HeadValidFor(c: Text)
      reads this`head, this`headBytes, this`headLines, this`headRetentionDisabled, this`tail
    {
      && headBytes == Bytes(head) <= headLimit && headLines == CountNewlines(head)
      && (headRetentionDisabled ==> head == [])
      && headBytes + Bytes(tail) == Bytes(c)
      && (tail != [] && !headRetentionDisabled ==> Width(tail[0]) > headLimit - headBytes)
      && (Joined(head, tail, c) || Broken(head, c))
    }

    /** Head and tail are the capped stream, cut in two. */
    ghost predicate InOrder()
      reads this`head, this`tail, this`capped
    {
      Joined(head, tail, capped)
    }

    /** What of a chunk goes to the head. */
    function HeadShare(out: Text): Text
      reads this`head, this`headBytes, this`headRetentionDisabled
    {
      if headRetentionDisabled || headBytes >= headLimit then [] else LongestPrefix(out, headLimit - headBytes)
    }

    ghost predicate CountersValid()
      reads this`totalBytes, this`totalLines, this`sawData, this`raw, this`history, this`replaced
    {
      && totalBytes == Bytes(raw) && totalLines == CountNewlines(raw) && sawData == (raw != [])
      && (!replaced ==> raw == history)
    }

    /** What the file was handed is the whole stream exactly if memory held it all when the file was opened. */
    ghost predicate FileMirrored()
      reads this`pendingFileWrites, this`file, this`emitted, this`history, this`intact
    {
      pendingFileWrites == None && (file.Some? ==> hasArtifact && (emitted == history <==> intact))
    }

    /** Until the file is open, nothing that got past the column cap is lost from memory. */
    ghost predicate MemoryWhole()
      reads this`file, this`failed, this`buffer, this`tail, this`truncated
    {
      hasArtifact && !failed && file == None ==> buffer == tail && !truncated
    }

    /** The column cap, if there is one, cannot change a chunk without making it smaller. */
    predicate Watches()
      reads this`currentLineBytes, this`columnEllipsisAdded
    {
      maxColumns == 0 || Watching(maxColumns, currentLineBytes, columnEllipsisAdded)
    }

    /** What the column cap makes of a chunk. */
    function CapOf(chunk: Text): Text
      reads this`currentLineBytes, this`columnEllipsisAdded
    {
      if maxColumns == 0 then chunk else CapChunk(chunk, maxColumns, currentLineBytes, columnEllipsisAdded)
    }

    /** No change by the cap could go unseen, nothing was replaced, and the file could be opened whenever it had to be. */
    ghost predicate Plain()
      reads this`replaced, this`failed, this`watched
    {
      hasArtifact && watched && !replaced && !failed
    }

    /** Order that holds now held when the file was opened. */
    ghost predicate OrderKept()
      reads this`file, this`replaced, this`failed, this`watched, this`head, this`tail, this`capped, this`intact
    {
      file.Some? && Plain() && InOrder() ==> intact
    }

    /** Without the mark, the column cap dropped no more than its ellipses take, and if it was watched, nothing at all. */
    ghost predicate LossNoticed()
      reads this`truncated, this`columnDroppedBytes, this`columnTruncatedLines, this`watched, this`raw, this`capped
    {
      && (!truncated ==> columnDroppedBytes <= ELLIPSIS_BYTES * columnTruncatedLines)
      && (!truncated && watched ==> capped == raw)
      && (maxColumns == 0 ==> watched)
    }

    /** The flag tells the truth about the tail; only a replacement may leave more in memory than the threshold. */
    ghost predicate MarkValid()
      reads this`truncated, this`buffer, this`bufferBytes, this`tail, this`replaced
    {
      && (!truncated ==> buffer == tail)
      && (maxColumns == 0 && truncated ==> bufferBytes < Bytes(tail))
      && (!replaced ==> bufferBytes <= spillThreshold)
    }

    ghost predicate Valid()
      reads this
    {
      && TailValid() && HeadValid() && MarkValid() && StreamsValid() && MemoryWhole() && OrderKept() && LossNoticed()
      && (replaced ==> headRetentionDisabled)
    }

    /** The invariants that do not speak of the memory. */
    ghost predicate StreamsValid()
      reads this`raw, this`capped, this`replaced, this`cappedRaw, this`cappedOut, this`currentLineBytes, this`columnEllipsisAdded,
            this`columnDroppedBytes, this`columnTruncatedLines, this`file, this`emitted, this`overflow, this`artifactHeadBytesWritten,
            this`artifactHeadClosed, this`artifactTailRing, this`artifactTailRingBytes, this`artifactTailIncomingBytes,
            this`totalBytes, this`totalLines, this`sawData, this`history, this`pendingFileWrites, this`intact
    {
      CapValid() && CountersValid() && FileValid() && FileMirrored()
    }

    constructor (hasArtifact: bool, spillThreshold: nat, headBytes: int, maxColumns: int, artifactMaxBytes: int, artifactHeadBytes: int)
      ensures Valid() && raw == [] && history == [] && head == [] && tail == [] && file == None && !replaced && !failed && !truncated
      ensures watched && currentLineBytes == 0 && !columnEllipsisAdded
      ensures this.hasArtifact == hasArtifact && this.spillThreshold == spillThreshold
      ensures headLimit == NonNegative(headBytes) && this.maxColumns == NonNegative(maxColumns)
      ensures this.artifactMaxBytes == NonNegative(artifactMaxBytes)
      ensures this.headBytes == bufferBytes == 0 && !headRetentionDisabled
      ensures artifactHeadBudget + artifactTailBudget == this.artifactMaxBytes
      ensures 0 <= artifactHeadBytes <= this.artifactMaxBytes ==> artifactHeadBudget == artifactHeadBytes
      ensures artifactHeadBytes < 0 ==> artifactHeadBudget == 0
      ensures artifactHeadBytes > this.artifactMaxBytes ==> artifactTailBudget == 0
    {
      this.hasArtifact, this.spillThreshold := hasArtifact, spillThreshold;
      headLimit, this.maxColumns, this.artifactMaxBytes := NonNegative(headBytes), NonNegative(maxColumns), NonNegative(artifactMaxBytes);
      var budget := NonNegative(if artifactHeadBytes < NonNegative(artifactMaxBytes) then artifactHeadBytes else NonNegative(artifactMaxBytes));
      artifactHeadBudget, artifactTailBudget := budget, NonNegative(NonNegative(artifactMaxBytes) - budget);
      buffer, bufferBytes, head, this.headBytes, headLines, headRetentionDisabled := [], 0, [], 0, 0, false;
      totalLines, totalBytes, sawData, truncated := 0, 0, false, false;
      currentLineBytes, columnEllipsisAdded, columnDroppedBytes, columnTruncatedLines := 0, false, 0, 0;
      file, pendingFileWrites := None, None;
      artifactHeadBytesWritten, artifactHeadClosed := 0, false;
      artifactTailRing, artifactTailRingBytes, artifactTailIncomingBytes := [], 0, 0;
      raw, capped, tail, emitted, overflow := [], [], [], [], [];
      cappedRaw, cappedOut := [], [];
      history, replaced, failed, watched, intact := [], false, false, true, true;
      new;
      LongestSuffixAll([], spillThreshold);
      StartsCapped(this.maxColumns);
      SplitStarts(artifactHeadBudget, artifactTailBudget);
    }

    // ----- the rolling tail --------------------------------------------------------

    predicate WillOverflow(dataBytes: nat)
      reads this`bufferBytes
    {
      bufferBytes + dataBytes > spillThreshold
    }

    method PushTail(chunk: Text, dataBytes: nat)
      requires TailValid() && MarkValid() && dataBytes == Bytes(chunk)
      modifies this`buffer, this`bufferBytes, this`truncated, this`tail
      ensures TailValid() && MarkValid() && tail == old(tail) + chunk
      ensures dataBytes > 0 && old(WillOverflow(dataBytes)) ==> truncated && bufferBytes <= spillThreshold < Bytes(tail)
      ensures dataBytes == 0 || !old(WillOverflow(dataBytes)) ==> buffer == old(buffer) + chunk && truncated == old(truncated)
    {
      ghost var before := tail;
      tail := tail + chunk;
      if dataBytes == 0 {
        BytesAtLeastLength(chunk);
        assert before + chunk == before && buffer + chunk == buffer;
        return;
      }
      BytesConcat(buffer, chunk);
      BytesConcat(before, chunk);
      ghost var outside := SuffixCut(before, spillThreshold);
      SuffixStreams(before, chunk, spillThreshold);
      LongestSuffixAll(buffer + chunk, spillThreshold);
      if !WillOverflow(dataBytes) {
        buffer, bufferBytes := buffer + chunk, bufferBytes + dataBytes;
        return;
      }
      truncated := true;
      ghost var p := SuffixCut(before + chunk, spillThreshold);
      if dataBytes >= spillThreshold {
        SuffixDominates(before, chunk, spillThreshold);
        buffer, bufferBytes := TruncateTailBytes(chunk, spillThreshold);
      } else {
        buffer, bufferBytes := TruncateTailBytes(buffer + chunk, spillThreshold);
      }
    }

    // ----- the artifact file -------------------------------------------------------

    method PushArtifactTail(chunk: Text)
      requires artifactTailRingBytes == Bytes(artifactTailRing)
      modifies this`artifactTailRing, this`artifactTailRingBytes, this`artifactTailIncomingBytes
      ensures artifactTailRing == LongestSuffix(old(artifactTailRing) + chunk, artifactTailBudget)
      ensures artifactTailRingBytes == Bytes(artifactTailRing)
      ensures artifactTailIncomingBytes == old(artifactTailIncomingBytes) + Bytes(chunk)
    {
      var chunkBytes := Bytes(chunk);
      artifactTailIncomingBytes := artifactTailIncomingBytes + chunkBytes;
      var budget := artifactTailBudget;
      if chunkBytes >= budget {
        SuffixDominates(artifactTailRing, chunk, budget);
        artifactTailRing, artifactTailRingBytes := TruncateTailBytes(chunk, budget);
        return;
      }
      BytesConcat(artifactTailRing, chunk);
      artifactTailRing, artifactTailRingBytes := artifactTailRing + chunk, artifactTailRingBytes + chunkBytes;
      LongestSuffixAll(artifactTailRing, budget);
      if artifactTailRingBytes > budget {
        artifactTailRing, artifactTailRingBytes := TruncateTailBytes(artifactTailRing, budget);
      }
    }

    method EmitToSink(chunk: Text)
      requires FileValid() && file.Some?
      modifies this`file, this`artifactHeadBytesWritten, this`artifactHeadClosed, this`artifactTailRing,
               this`artifactTailRingBytes, this`artifactTailIncomingBytes, this`emitted, this`overflow
      ensures FileValid() && file.Some? && emitted == old(emitted) + chunk
    {
      ghost var before := emitted;
      emitted := emitted + chunk;
      if chunk == [] {
        assert emitted == before;
        return;
      }
      if artifactMaxBytes == 0 {
        file := Some(file.value + chunk);
        return;
      }
      var chunkBytes := Bytes(chunk);
      var room := if artifactHeadClosed then 0 else artifactHeadBudget - artifactHeadBytesWritten;
      BytesAtLeastLength(chunk);
      if room >= chunkBytes {
        SplitHead(before, file.value, overflow, artifactHeadBudget, artifactTailBudget, artifactHeadBytesWritten,
                  artifactHeadClosed, artifactTailRing, artifactTailRingBytes, artifactTailIncomingBytes, chunk);
        file := Some(file.value + chunk);
        artifactHeadBytesWritten := artifactHeadBytesWritten + chunkBytes;
        return;
      }
      EmitOverflowing(chunk, room, before);
    }

    /** The part of a chunk that does not fit the head is diverted; the head is closed from then on. */
    method EmitOverflowing(chunk: Text, room: nat, ghost before: Text)
      requires file.Some? && artifactMaxBytes > 0 && chunk != [] && room < Bytes(chunk) && emitted == before + chunk
      requires room == if artifactHeadClosed then 0 else artifactHeadBudget - artifactHeadBytesWritten
      requires Split(before, file.value, overflow, artifactHeadBudget, artifactTailBudget, artifactHeadBytesWritten,
                     artifactHeadClosed, artifactTailRing, artifactTailRingBytes, artifactTailIncomingBytes)
      modifies this`file, this`artifactHeadBytesWritten, this`artifactHeadClosed, this`artifactTailRing,
               this`artifactTailRingBytes, this`artifactTailIncomingBytes, this`overflow
      ensures FileValid() && file.Some?
    {
      ghost var file0, overflow0, written0, closed0 := file.value, overflow, artifactHeadBytesWritten, artifactHeadClosed;
      ghost var ring0, ringBytes0, incoming0 := artifactTailRing, artifactTailRingBytes, artifactTailIncomingBytes;
      var rest := chunk;
      ghost var h := [];
      if room > 0 {
        var headSlice, headSliceBytes := TruncateHeadBytes(chunk, room);
        ghost var t := PrefixCut(chunk, room);
        h := headSlice;
        file := Some(file.value + headSlice);
        artifactHeadBytesWritten := artifactHeadBytesWritten + headSliceBytes;
        artifactHeadClosed := true;
        rest := chunk[|headSlice|..];
        assert rest == t;
      } else {
        assert file.value + h == file.value;
      }
      assert chunk == h + rest;
      overflow := overflow + rest;
      ghost var ring' := LongestSuffix(artifactTailRing + rest, artifactTailBudget);
      SplitOver(before, file0, overflow0, artifactHeadBudget, artifactTailBudget, written0, closed0, ring0, ringBytes0, incoming0,
                h, rest, artifactHeadClosed, ring');
      if artifactTailBudget == 0 {
        NothingFits(artifactTailRing + rest);
        NothingFits(overflow0);
        artifactTailIncomingBytes := artifactTailIncomingBytes + Bytes(rest);
        return;
      }
      PushArtifactTail(rest);
    }

    /** Opens the file, replays what memory holds, then drains the queue; on failure the queue is lost. */
    method CreateFileSink(canOpen: bool)
      requires FileValid() && file == None && pendingFileWrites.Some?
      modifies this`file, this`pendingFileWrites, this`artifactHeadBytesWritten, this`artifactHeadClosed, this`artifactTailRing,
               this`artifactTailRingBytes, this`artifactTailIncomingBytes, this`emitted, this`overflow
      ensures FileValid() && pendingFileWrites == None && file.Some? == canOpen
      ensures canOpen ==> emitted == head + buffer + Concat(old(pendingFileWrites).value)
      ensures !canOpen ==> emitted == []
    {
      if !canOpen {
        pendingFileWrites := None;
        return;
      }
      file := Some([]);
      if |head| > 0 { EmitToSink(head); }
      assert emitted == head;
      if |buffer| > 0 { EmitToSink(buffer); }
      assert emitted == head + buffer;
      DrainPending(pendingFileWrites.value);
      pendingFileWrites := None;
    }

    method DrainPending(pending: seq<Text>)
      requires FileValid() && file.Some?
      modifies this`file, this`artifactHeadBytesWritten, this`artifactHeadClosed, this`artifactTailRing,
               this`artifactTailRingBytes, this`artifactTailIncomingBytes, this`emitted, this`overflow
      ensures FileValid() && file.Some? && emitted == old(emitted) + Concat(pending)
    {
      var i := 0;
      ConcatNone(emitted, pending);
      while i < |pending|
        invariant 0 <= i <= |pending| && FileValid() && file.Some?
        invariant emitted == old(emitted) + ConcatTo(pending, i)
      {
        EmitToSink(pending[i]);
        ConcatStep(old(emitted), pending, i);
        i := i + 1;
      }
    }

    method WriteToFile(chunk: Text, canOpen: bool)
      requires FileValid() && pendingFileWrites == None
      modifies this`file, this`pendingFileWrites, this`artifactHeadBytesWritten, this`artifactHeadClosed, this`artifactTailRing,
               this`artifactTailRingBytes, this`artifactTailIncomingBytes, this`emitted, this`overflow
      ensures FileValid() && pendingFileWrites == None && file.Some? == (old(file).Some? || canOpen)
      ensures file.Some? ==> emitted == (if old(file).Some? then old(emitted) else head + buffer) + chunk
    {
      if file.Some? {
        EmitToSink(chunk);
        return;
      }
      ConcatOne(chunk);
      pendingFileWrites := Some([chunk]);
      CreateFileSink(canOpen);
    }

    // ----- the column cap ----------------------------------------------------------

    ghost predicate LinesValid()
      reads this`cappedRaw, this`cappedOut, this`currentLineBytes, this`columnEllipsisAdded, this`columnDroppedBytes, this`columnTruncatedLines
    {
      StreamCapped(cappedRaw, cappedOut, maxColumns, currentLineBytes, columnEllipsisAdded, columnDroppedBytes, columnTruncatedLines)
    }

    /** The state of the cap after the lines `rs` came in and the lines `os` went out. */
    ghost predicate CapAt(rs: seq<Text>, os: seq<Text>)
      reads this`currentLineBytes, this`columnEllipsisAdded, this`columnDroppedBytes, this`columnTruncatedLines
    {
      Capped(rs, os, maxColumns, currentLineBytes, columnEllipsisAdded, columnDroppedBytes, columnTruncatedLines)
    }

    method CapSegment(segment: Text, ghost rs: seq<Text>, ghost os: seq<Text>) returns (out: Text)
      requires CapAt(rs, os) && NL !in segment
      modifies this`currentLineBytes, this`columnEllipsisAdded, this`columnDroppedBytes, this`columnTruncatedLines
      ensures CapAt(Extend(rs, segment), Extend(os, out))
      ensures out == CapPart(segment, maxColumns, old(currentLineBytes), old(columnEllipsisAdded))
    {
      var segBytes := Bytes(segment);
      if columnEllipsisAdded {
        CapDrop(rs, os, maxColumns, currentLineBytes, columnDroppedBytes, columnTruncatedLines, segment);
        columnDroppedBytes := columnDroppedBytes + segBytes;
        out := [];
        ExtendEmpty(os);
      } else if segBytes <= maxColumns - currentLineBytes {
        CapKeep(rs, os, maxColumns, currentLineBytes, columnDroppedBytes, columnTruncatedLines, segment);
        currentLineBytes := currentLineBytes + segBytes;
        out := segment;
      } else {
        out := CutSegment(segment, segBytes, rs, os);
      }
    }

    /** The first overflow on a line: keep what fits, append the ellipsis, skip until the newline. */
    method CutSegment(segment: Text, segBytes: nat, ghost rs: seq<Text>, ghost os: seq<Text>) returns (out: Text)
      requires CapAt(rs, os) && NL !in segment && !columnEllipsisAdded
      requires segBytes == Bytes(segment) && segBytes > maxColumns - currentLineBytes
      modifies this`currentLineBytes, this`columnEllipsisAdded, this`columnDroppedBytes, this`columnTruncatedLines
      ensures CapAt(Extend(rs, segment), Extend(os, out))
      ensures out == LongestPrefix(segment, HeadRoom(maxColumns, old(currentLineBytes))) + [ELLIPSIS]
    {
      var headRoom := HeadRoom(maxColumns, currentLineBytes);
      var kept, keptBytes := [], 0;
      if headRoom > 0 { kept, keptBytes := TruncateHeadBytes(segment, headRoom); } else { NothingFits(segment); }
      CapCut(rs, os, maxColumns, currentLineBytes, columnDroppedBytes, columnTruncatedLines, segment, kept);
      columnDroppedBytes, columnTruncatedLines := columnDroppedBytes + (segBytes - keptBytes), columnTruncatedLines + 1;
      currentLineBytes, columnEllipsisAdded := currentLineBytes + keptBytes + ELLIPSIS_BYTES, true;
      out := kept + [ELLIPSIS];
    }

    method ApplyColumnCap(chunk: Text) returns (out: Text)
      requires LinesValid()
      modifies this`currentLineBytes, this`columnEllipsisAdded, this`columnDroppedBytes, this`columnTruncatedLines,
               this`cappedRaw, this`cappedOut
      ensures LinesValid() && cappedRaw == old(cappedRaw) + chunk && cappedOut == old(cappedOut) + out
      ensures out == CapChunk(chunk, maxColumns, old(currentLineBytes), old(columnEllipsisAdded))
      ensures Bytes(out) + columnDroppedBytes + ELLIPSIS_BYTES * old(columnTruncatedLines)
              == Bytes(chunk) + old(columnDroppedBytes) + ELLIPSIS_BYTES * columnTruncatedLines
    {
      hide CapChunk, Capped, StreamCapped, Feed, JoinTo, Bytes;
      BytesConcat(cappedRaw, chunk);
      ghost var rs, os;
      StreamCappedLines(cappedRaw, cappedOut, maxColumns, currentLineBytes, columnEllipsisAdded, columnDroppedBytes, columnTruncatedLines);
      out, rs, os := CapLines(chunk, LinesOf(cappedRaw), LinesOf(cappedOut));
      FeedOn(cappedRaw, chunk, |chunk|);
      JoinLines(cappedRaw + chunk);
      BytesConcat(cappedOut, out);
      cappedRaw, cappedOut := cappedRaw + chunk, cappedOut + out;
      StreamCappedIf(cappedRaw, cappedOut, rs, os, maxColumns, currentLineBytes, columnEllipsisAdded, columnDroppedBytes, columnTruncatedLines);
      StreamCappedLines(cappedRaw, cappedOut, maxColumns, currentLineBytes, columnEllipsisAdded, columnDroppedBytes, columnTruncatedLines);
    }

    /** What lies before the next newline, if anything. */
    method CapStretch(segment: Text, ghost rs: seq<Text>, ghost os: seq<Text>) returns (out: Text)
      requires CapAt(rs, os) && NL !in segment && rs != [] && os != []
      modifies this`currentLineBytes, this`columnEllipsisAdded, this`columnDroppedBytes, this`columnTruncatedLines
      ensures CapAt(Extend(rs, segment), Extend(os, out)) && Join(Extend(os, out)) == Join(os) + out
      ensures Extend(rs, segment) != [] && Extend(os, out) != []
      ensures out == CapPart(segment, maxColumns, old(currentLineBytes), old(columnEllipsisAdded))
    {
      hide Capped, JoinTo, Bytes, CapPart;
      CapAtInLine(rs, os);
      PartNothing(maxColumns, currentLineBytes, columnEllipsisAdded);
      out := [];
      if |segment| > 0 {
        out := CapSegment(segment, rs, os);
      } else {
        ExtendEmpty(rs);
        ExtendEmpty(os);
      }
      JoinExtend(os, out);
    }

    lemma CapAtInLine(rs: seq<Text>, os: seq<Text>)
      requires CapAt(rs, os)
      ensures InLine(maxColumns, currentLineBytes, columnEllipsisAdded)
    {
      assert LineOk(rs, os, |rs| - 1, maxColumns);
    }

    lemma CapAtLines(rs: seq<Text>, os: seq<Text>, chunk: Text)
      requires CapAt(rs, os)
      ensures rs != [] && os != [] && Feed(rs, chunk, 0) == rs
    {
    }

    /** The newline itself. */
    method CloseLine(ghost rs: seq<Text>, ghost os: seq<Text>)
      requires CapAt(rs, os) && rs != [] && os != []
      modifies this`currentLineBytes, this`columnEllipsisAdded
      ensures CapAt(rs + [[]], os + [[]]) && Join(os + [[]]) == Join(os) + [NL]
      ensures currentLineBytes == 0 && !columnEllipsisAdded
    {
      hide Capped, JoinTo;
      CapNewline(rs, os, maxColumns, currentLineBytes, columnEllipsisAdded, columnDroppedBytes, columnTruncatedLines);
      JoinNewline(os);
      currentLineBytes, columnEllipsisAdded := 0, false;
    }

    /** The loop of the column cap: one stretch up to a newline at a time. */
    method CapLines(chunk: Text, ghost rs0: seq<Text>, ghost os0: seq<Text>) returns (out: Text, ghost rs: seq<Text>, ghost os: seq<Text>)
      requires CapAt(rs0, os0)
      modifies this`currentLineBytes, this`columnEllipsisAdded, this`columnDroppedBytes, this`columnTruncatedLines
      ensures CapAt(rs, os) && rs == Feed(rs0, chunk, |chunk|) && Join(os) == Join(os0) + out
      ensures out == CapChunk(chunk, maxColumns, old(currentLineBytes), old(columnEllipsisAdded))
    {
      hide *;
      ghost var bytes0, cut0 := currentLineBytes, columnEllipsisAdded;
      CapAtLines(rs0, os0, chunk);
      CapAtInLine(rs0, os0);
      CapStarts(chunk, bytes0, cut0);
      out, rs, os := [], rs0, os0;
      var cursor: nat := 0;
      ghost var done: nat := 0;
      assert Join(os0) + out == Join(os0);
      while cursor < |chunk|
        invariant cursor == done <= |chunk| && CapAt(rs, os)
        invariant rs == Feed(rs0, chunk, done) && Join(os) == Join(os0) + out && rs != [] && os != []
        invariant out == CapChunk(chunk[..done], maxColumns, bytes0, cut0) && AtStart(chunk[..done])
        invariant currentLineBytes == (if done == 0 then bytes0 else 0) && columnEllipsisAdded == (done == 0 && cut0)
      {
        ghost var start := cursor;
        var nlIdx := IndexOf(chunk, cursor);
        IndexOfIs(chunk, cursor);
        var segEnd := if nlIdx == -1 then |chunk| else nlIdx;
        FeedSegment(rs0, chunk, cursor, segEnd);
        CapOn(chunk, start, segEnd, bytes0, cut0);
        var part := CapStretch(chunk[cursor..segEnd], rs, os);
        rs, os := Extend(rs, chunk[cursor..segEnd]), Extend(os, part);
        out := Appended(Join(os0), out, part);
        done := segEnd;
        if nlIdx == -1 { break; }
        FeedNewline(rs0, chunk, nlIdx);
        CapNext(chunk, nlIdx, bytes0, cut0);
        CloseLine(rs, os);
        rs, os := rs + [[]], os + [[]];
        out := Appended(Join(os0), out, [NL]);
        cursor, done := nlIdx + 1, nlIdx + 1;
      }
      assert chunk[..|chunk|] == chunk;
    }

    lemma CapStarts(chunk: Text, bytes0: nat, cut0: bool)
      requires InLine(maxColumns, bytes0, cut0)
      ensures CapChunk(chunk[..0], maxColumns, bytes0, cut0) == [] && AtStart(chunk[..0])
    {
      ChunkNothing(maxColumns, bytes0, cut0);
    }

    lemma CapOn(chunk: Text, start: nat, end: nat, bytes0: nat, cut0: bool)
      requires start <= end <= |chunk| && AtStart(chunk[..start]) && NL !in chunk[start..end] && InLine(maxColumns, bytes0, cut0)
      ensures CapChunk(chunk[..end], maxColumns, bytes0, cut0) == CapChunk(chunk[..start], maxColumns, bytes0, cut0)
              + CapPart(chunk[start..end], maxColumns, if start == 0 then bytes0 else 0, start == 0 && cut0)
    {
      hide CapChunk, CapPart;
      assert chunk[..end] == chunk[..start] + chunk[start..end];
      ChunkSegment(chunk[..start], chunk[start..end], maxColumns, bytes0, cut0);
    }

    lemma CapNext(chunk: Text, nl: nat, bytes0: nat, cut0: bool)
      requires nl < |chunk| && chunk[nl] == NL
      ensures CapChunk(chunk[..nl + 1], maxColumns, bytes0, cut0) == CapChunk(chunk[..nl], maxColumns, bytes0, cut0) + [NL]
      ensures AtStart(chunk[..nl + 1])
    {
      hide CapChunk;
      assert chunk[..nl + 1] == chunk[..nl] + [NL];
      ChunkNewline(chunk[..nl], maxColumns, bytes0, cut0);
    }

    // ----- push --------------------------------------------------------------------

    /**
     Counts a chunk and caps its lines.  The chunk counts as capped, and is marked, when it got smaller; where the
     cap is watched that is whenever it was changed.
     */
    method Record(chunk: Text) returns (out: Text, outBytes: nat)
      requires CapValid() && CountersValid()
      modifies this`totalBytes, this`totalLines, this`sawData, this`truncated, this`currentLineBytes, this`columnEllipsisAdded,
               this`columnDroppedBytes, this`columnTruncatedLines, this`cappedRaw, this`cappedOut, this`raw, this`capped, this`history,
               this`watched
      ensures CapValid() && CountersValid()
      ensures out == old(CapOf(chunk)) && watched == (old(watched) && old(Watches()))
      ensures old(Watches()) ==> (outBytes < Bytes(chunk) <==> out != chunk)
      ensures raw == old(raw) + chunk && history == old(history) + chunk && capped == old(capped) + out && outBytes == Bytes(out)
      ensures truncated == (old(truncated) || outBytes < Bytes(chunk)) && (maxColumns == 0 ==> out == chunk)
      ensures outBytes < Bytes(chunk) <==>
                columnDroppedBytes - old(columnDroppedBytes) > ELLIPSIS_BYTES * (columnTruncatedLines - old(columnTruncatedLines))
    {
      hide CapValid, Watches, CapOf, Bytes, CountNewlines;
      Count(chunk);
      out := Cap(chunk);
      history := history + chunk;
      outBytes := Bytes(out);
      if outBytes < Bytes(chunk) { truncated := true; }
    }

    /** The cap, if there is one. */
    method Cap(chunk: Text) returns (out: Text)
      requires CapValid()
      modifies this`currentLineBytes, this`columnEllipsisAdded, this`columnDroppedBytes, this`columnTruncatedLines,
               this`cappedRaw, this`cappedOut, this`raw, this`capped, this`watched
      ensures CapValid() && raw == old(raw) + chunk && capped == old(capped) + out
      ensures out == old(CapOf(chunk)) && watched == (old(watched) && old(Watches())) && (maxColumns == 0 ==> out == chunk)
      ensures old(Watches()) ==> (Bytes(out) < Bytes(chunk) <==> out != chunk)
      ensures Bytes(out) < Bytes(chunk) <==>
                columnDroppedBytes - old(columnDroppedBytes) > ELLIPSIS_BYTES * (columnTruncatedLines - old(columnTruncatedLines))
    {
      hide StreamCapped, CapChunk, Watching, Bytes;
      if maxColumns > 0 && Watches() { ChangeShows(chunk, maxColumns, currentLineBytes, columnEllipsisAdded); }
      watched := watched && Watches();
      BytesConcat(raw, chunk);
      out := chunk;
      if maxColumns > 0 { out := ApplyColumnCap(chunk); }
      BytesConcat(capped, out);
      raw, capped := raw + chunk, capped + out;
    }

    method Count(chunk: Text)
      requires totalBytes == Bytes(raw) && totalLines == CountNewlines(raw) && sawData == (raw != [])
      modifies this`totalBytes, this`totalLines, this`sawData
      ensures totalBytes == Bytes(raw + chunk) && totalLines == CountNewlines(raw + chunk) && sawData == (raw + chunk != [])
    {
      BytesConcat(raw, chunk);
      CountConcat(raw, chunk);
      totalBytes := totalBytes + Bytes(chunk);
      if |chunk| > 0 {
        sawData := true;
        totalLines := totalLines + CountNewlines(chunk);
      }
    }

    /** Drains capped text into the head until its budget is exhausted, and the rest into the tail. */
    method Admit(out: Text, outBytes: nat, ghost before: Text) returns (ghost share: Text, ghost rest: Text)
      requires TailValid() && MarkValid() && HeadValidFor(before) && outBytes == Bytes(out)
      requires LossNoticed()
      modifies this`head, this`headBytes, this`headLines, this`buffer, this`bufferBytes, this`truncated, this`tail
      ensures LossNoticed()
      ensures TailValid() && MarkValid() && HeadValidFor(before + out)
      ensures share == old(HeadShare(out)) && out == share + rest && head == old(head) + share && tail == old(tail) + rest
      ensures Joined(head, tail, before + out) <==> old(Joined(head, tail, before)) && (old(tail) == [] || share == [])
      ensures truncated == (old(truncated) || (rest != [] && old(WillOverflow(Bytes(rest)))))
      ensures !old(WillOverflow(outBytes)) && old(buffer == tail) ==> buffer == tail && truncated == old(truncated)
    {
      hide TailValid, HeadValidFor, Joined, Bytes, LongestPrefix;
      if outBytes == 0 {
        NothingToShare(out);
        assert before + out == before && head + [] == head && tail + [] == tail && out == [] + out;
        share, rest := [], [];
        return;
      }
      share, rest := AdmitSome(out, outBytes, before);
    }

    method AdmitSome(out: Text, outBytes: nat, ghost before: Text) returns (ghost share: Text, ghost rest: Text)
      requires TailValid() && MarkValid() && HeadValidFor(before) && outBytes == Bytes(out) > 0
      modifies this`head, this`headBytes, this`headLines, this`buffer, this`bufferBytes, this`truncated, this`tail
      ensures TailValid() && MarkValid() && HeadValidFor(before + out)
      ensures share == old(HeadShare(out)) && out == share + rest && head == old(head) + share && tail == old(tail) + rest
      ensures Joined(head, tail, before + out) <==> old(Joined(head, tail, before)) && (old(tail) == [] || share == [])
      ensures truncated == (old(truncated) || (rest != [] && old(WillOverflow(Bytes(rest)))))
      ensures !old(WillOverflow(outBytes)) && old(buffer == tail) ==> buffer == tail && truncated == old(truncated)
    {
      hide TailValid, MarkValid, LongestPrefix, Bytes, HeadShare, Joined, Broken, CountNewlines;
      var tailChunk, tailBytes := FillHead(out, outBytes);
      share, rest := old(HeadShare(out)), tailChunk;
      OrderStep(old(head), tail, before, share, rest, if headRetentionDisabled then 0 else headLimit - old(headBytes));
      BytesConcat(before, out);
      BytesConcat(tail, rest);
      EmptyBytes(rest);
      PushTail(tailChunk, tailBytes);
    }

    lemma NothingToShare(out: Text)
      requires Bytes(out) == 0
      ensures out == [] && HeadShare(out) == []
    {
      EmptyBytes(out);
      if headBytes < headLimit { LongestPrefixAll([], headLimit - headBytes); }
    }

    method FillHead(out: Text, outBytes: nat) returns (tailChunk: Text, tailBytes: nat)
      requires headBytes == Bytes(head) <= headLimit && headLines == CountNewlines(head) && outBytes == Bytes(out) > 0
      modifies this`head, this`headBytes, this`headLines
      ensures head == old(head) + old(HeadShare(out)) && out == old(HeadShare(out)) + tailChunk && tailBytes == Bytes(tailChunk)
      ensures headBytes == Bytes(head) <= headLimit && headLines == CountNewlines(head)
      ensures headBytes + tailBytes == old(headBytes) + outBytes && tailBytes <= outBytes
      ensures old(HeadShare(out)) != [] ==> Width(old(HeadShare(out))[0]) <= headLimit - old(headBytes) && !headRetentionDisabled
      ensures tailChunk != [] && !headRetentionDisabled ==> Width(tailChunk[0]) > headLimit - headBytes
    {
      hide LongestPrefix, Bytes, CountNewlines, Width;
      tailChunk, tailBytes := out, outBytes;
      if headLimit > 0 && !headRetentionDisabled && headBytes < headLimit {
        var room := headLimit - headBytes;
        ghost var rest := PrefixCut(out, room);
        LongestPrefixAll(out, room);
        if outBytes <= room {
          AddToHead(out, outBytes);
          FirstFits(out, room);
          return [], 0;
        }
        var headSlice, headSliceBytes := TruncateHeadBytes(out, room);
        FirstFits(headSlice, room);
        if headSliceBytes > 0 {
          AddToHead(headSlice, headSliceBytes);
          tailChunk, tailBytes := out[|headSlice|..], outBytes - headSliceBytes;
          assert tailChunk == rest;
        } else {
          BytesAtLeastLength(headSlice);
          assert rest == out && head + headSlice == head;
        }
      } else {
        assert head + [] == head && [] + out == out;
      }
    }

    method AddToHead(text: Text, bytes: nat)
      requires headBytes == Bytes(head) && headLines == CountNewlines(head) && bytes == Bytes(text)
      modifies this`head, this`headBytes, this`headLines
      ensures head == old(head) + text && headBytes == old(headBytes) + bytes == Bytes(head) && headLines == CountNewlines(head)
    {
      BytesConcat(head, text);
      CountConcat(head, text);
      head, headBytes, headLines := head + text, headBytes + bytes, headLines + CountNewlines(text);
    }

    /** Mirrors a raw chunk once memory no longer holds everything; `before` is the stream without it. */
    method Mirror(chunk: Text, cappedThisChunk: bool, cappedBytes: nat, canOpen: bool, ghost before: Text)
      requires FileValid() && pendingFileWrites == None && history == before + chunk
      requires file.Some? ==> hasArtifact && (emitted == before <==> intact)
      modifies this`file, this`pendingFileWrites, this`artifactHeadBytesWritten, this`artifactHeadClosed, this`artifactTailRing,
               this`artifactTailRingBytes, this`artifactTailIncomingBytes, this`emitted, this`overflow, this`failed, this`intact
      ensures FileValid() && FileMirrored()
      ensures file.Some? == (old(file).Some? || (Spills(cappedThisChunk, cappedBytes) && canOpen))
      ensures failed == (old(failed) || (old(file) == None && Spills(cappedThisChunk, cappedBytes) && !canOpen))
      ensures file.Some? ==> emitted == (if old(file).Some? then old(emitted) else head + buffer) + chunk
      ensures intact == if old(file) == None && file.Some? then head + buffer == before else old(intact)
    {
      hide FileValid, WillOverflow;
      if hasArtifact && (file.Some? || cappedThisChunk || WillOverflow(cappedBytes)) {
        failed := failed || (file == None && !canOpen);
        SameEnds(if file.Some? then emitted else head + buffer, before, chunk);
        if file == None && canOpen { intact := head + buffer == before; }
        WriteToFile(chunk, canOpen);
      }
    }

    /** The file has to be opened: the cap dropped bytes, or the tail is about to. */
    predicate Spills(cappedThisChunk: bool, cappedBytes: nat)
      reads this`bufferBytes
    {
      hasArtifact && (cappedThisChunk || WillOverflow(cappedBytes))
    }

    /** Counts the chunk, caps it, and mirrors it if it has to be mirrored. */
    method Stage(chunk: Text, canOpen: bool) returns (out: Text, outBytes: nat)
      requires StreamsValid() && LossNoticed()
      modifies this`totalBytes, this`totalLines, this`sawData, this`truncated, this`currentLineBytes, this`columnEllipsisAdded,
               this`columnDroppedBytes, this`columnTruncatedLines, this`cappedRaw, this`cappedOut, this`raw, this`capped, this`history,
               this`file, this`pendingFileWrites, this`artifactHeadBytesWritten, this`artifactHeadClosed, this`artifactTailRing,
               this`artifactTailRingBytes, this`artifactTailIncomingBytes, this`emitted, this`overflow, this`failed, this`watched, this`intact
      ensures StreamsValid() && LossNoticed() && out == old(CapOf(chunk)) && watched == (old(watched) && old(Watches()))
      ensures raw == old(raw) + chunk && history == old(history) + chunk && capped == old(capped) + out && outBytes == Bytes(out)
      ensures maxColumns == 0 ==> out == chunk
      ensures var spills := Spills(outBytes < Bytes(chunk), outBytes);
              && file.Some? == (old(file).Some? || (spills && canOpen))
              && failed == (old(failed) || (old(file) == None && spills && !canOpen))
      ensures file.Some? ==> emitted == (if old(file).Some? then old(emitted) else head + buffer) + chunk
      ensures intact == if old(file) == None && file.Some? then old(head + buffer == history) else old(intact)
      ensures truncated == (old(truncated) || outBytes < Bytes(chunk))
    {
      hide CapValid, CountersValid, FileValid, Spills, Bytes, Watching, CapOf;
      out, outBytes := Record(chunk);
      Mirror(chunk, outBytes < Bytes(chunk), outBytes, canOpen, old(history));
    }

    /**
     Pushes a chunk.  `out` is the chunk after the column cap, `share` the part of it that goes to the
     head and `rest` the part that goes to the tail.
     */
    method Push(chunk: Text, canOpen: bool) returns (ghost out: Text, ghost share: Text, ghost rest: Text)
      requires Valid()
      modifies this
      ensures Valid() && replaced == old(replaced) && headRetentionDisabled == old(headRetentionDisabled)
      ensures out == old(CapOf(chunk)) && watched == (old(watched) && old(Watches()))
      ensures raw == old(raw) + chunk && history == old(history) + chunk && capped == old(capped) + out
      ensures maxColumns == 0 ==> out == chunk
      ensures out == share + rest && share == old(HeadShare(out)) && head == old(head) + share && tail == old(tail) + rest
      ensures InOrder() <==> old(InOrder()) && (old(tail) == [] || share == [])
      ensures var spills := hasArtifact && (Bytes(out) < Bytes(chunk) || old(bufferBytes) + Bytes(out) > spillThreshold);
              && (file.Some? <==> old(file).Some? || (spills && canOpen))
              && (failed <==> old(failed) || (old(file) == None && spills && !canOpen))
      ensures file.Some? ==> emitted == (if old(file).Some? then old(emitted) else old(head + buffer)) + chunk
      ensures intact == if old(file) == None && file.Some? then old(head + buffer == history) else old(intact)
      ensures old(file) == None && file.Some? && old(Plain()) ==> intact == old(InOrder())
      ensures truncated == (old(truncated) || Bytes(out) < Bytes(chunk) || (rest != [] && old(bufferBytes) + Bytes(rest) > spillThreshold))
    {
      hide TailValid, MarkValid, StreamsValid, HeadValid, InOrder, LossNoticed, HeadShare, Watches, CapOf, Bytes;
      if Plain() && file == None { OrderIsIntact(); }
      out, share, rest := Take(chunk, canOpen);
    }

    /** The chunk goes through the cap, to the file, and into memory. */
    method Take(chunk: Text, canOpen: bool) returns (ghost out: Text, ghost share: Text, ghost rest: Text)
      requires TailValid() && HeadValid() && MarkValid() && StreamsValid() && LossNoticed()
      modifies this
      ensures TailValid() && HeadValid() && MarkValid() && StreamsValid() && LossNoticed()
      ensures replaced == old(replaced) && headRetentionDisabled == old(headRetentionDisabled)
      ensures out == old(CapOf(chunk)) && watched == (old(watched) && old(Watches()))
      ensures raw == old(raw) + chunk && history == old(history) + chunk && capped == old(capped) + out
      ensures maxColumns == 0 ==> out == chunk
      ensures out == share + rest && share == old(HeadShare(out)) && head == old(head) + share && tail == old(tail) + rest
      ensures InOrder() <==> old(InOrder()) && (old(tail) == [] || share == [])
      ensures file.Some? == (old(file).Some? || (old(Spills(Bytes(out) < Bytes(chunk), Bytes(out))) && canOpen))
      ensures failed == (old(failed) || (old(file) == None && old(Spills(Bytes(out) < Bytes(chunk), Bytes(out))) && !canOpen))
      ensures file.Some? ==> emitted == (if old(file).Some? then old(emitted) else old(head + buffer)) + chunk
      ensures intact == if old(file) == None && file.Some? then old(head + buffer == history) else old(intact)
      ensures truncated == (old(truncated) || Bytes(out) < Bytes(chunk) || (rest != [] && old(WillOverflow(Bytes(rest)))))
      ensures !old(WillOverflow(Bytes(out))) && old(buffer == tail) ==> buffer == tail && (truncated ==> old(truncated) || Bytes(out) < Bytes(chunk))
    {
      hide TailValid, StreamsValid, HeadValidFor, HeadShare, Joined, Bytes, Spills, WillOverflow, Watches, CapOf, LossNoticed;
      var cappedText, cappedBytes := Stage(chunk, canOpen);
      out := cappedText;
      share, rest := Admit(cappedText, cappedBytes, old(capped));
    }

    /** While memory is whole, it is the stream exactly if head and tail are in order. */
    lemma OrderIsIntact()
      requires Valid() && Plain() && file == None
      ensures InOrder() <==> head + buffer == history
    {
      JoinedIs(head, tail, capped);
    }

    lemma SameEnds(a: Text, b: Text, c: Text)
      ensures a + c == b + c <==> a == b
    {
      if a + c == b + c {
        assert |a| == |b| && a == (a + c)[..|a|] && b == (b + c)[..|a|];
      }
    }

    /** With no head window nothing can come out of order. */
    lemma NoHeadInOrder()
      requires HeadValid() && headLimit == 0
      ensures InOrder()
    {
      EmptyBytes(head);
    }

    /** Nor can it while the first scalar that went past the head is a single byte: the head was then full. */
    lemma SingleByteInOrder(out: Text)
      requires HeadValid() && tail != [] && Width(tail[0]) == 1
      ensures HeadShare(out) == []
    {
    }

    /** Puts `text` in place of everything captured so far; the head is given up for good. */
    method Replace(text: Text)
      requires Valid()
      modifies this`buffer, this`bufferBytes, this`tail, this`head, this`headBytes, this`headLines, this`headRetentionDisabled,
               this`totalBytes, this`totalLines, this`sawData, this`truncated, this`currentLineBytes, this`columnEllipsisAdded,
               this`columnDroppedBytes, this`columnTruncatedLines, this`raw, this`capped, this`cappedRaw, this`cappedOut, this`replaced
      ensures Valid() && replaced && raw == capped == tail == buffer == text && head == [] && headRetentionDisabled && !truncated
    {
      hide *;
      FileSide();
      truncated, replaced := false, true;
      ReplaceMemory(text);
      ReplaceCounters(text);
      ReplacedValid();
    }

    lemma FileSide()
      requires Valid()
      ensures FileValid() && FileMirrored() && (maxColumns == 0 ==> watched)
    {
    }

    lemma ReplacedValid()
      requires TailValid() && HeadValidFor(capped) && CapValid() && CountersValid() && FileValid() && FileMirrored()
      requires replaced && headRetentionDisabled && !truncated && buffer == tail && columnDroppedBytes == 0 && capped == raw
      requires maxColumns == 0 ==> watched
      ensures Valid()
    {
      hide TailValid, HeadValidFor, CapValid, CountersValid, FileValid, FileMirrored;
    }

    method ReplaceMemory(text: Text)
      modifies this`buffer, this`bufferBytes, this`tail, this`head, this`headBytes, this`headLines, this`headRetentionDisabled
      ensures TailValid() && HeadValidFor(text) && buffer == tail == text && head == [] && headRetentionDisabled
    {
      hide TailValid, HeadValidFor;
      ReplaceTail(text);
      ReplaceHead(text);
    }

    method ReplaceTail(text: Text)
      modifies this`buffer, this`bufferBytes, this`tail
      ensures TailValid() && buffer == tail == text
    {
      LongestSuffixAll(text, spillThreshold);
      buffer, bufferBytes, tail := text, Bytes(text), text;
    }

    method ReplaceHead(text: Text)
      requires tail == text
      modifies this`head, this`headBytes, this`headLines, this`headRetentionDisabled
      ensures HeadValidFor(text) && head == [] && headRetentionDisabled
    {
      head, headBytes, headLines, headRetentionDisabled := [], 0, 0, true;
    }

    method ReplaceCounters(text: Text)
      requires replaced
      modifies this`totalBytes, this`totalLines, this`sawData, this`currentLineBytes, this`columnEllipsisAdded,
               this`columnDroppedBytes, this`columnTruncatedLines, this`raw, this`capped, this`cappedRaw, this`cappedOut
      ensures CapValid() && CountersValid() && raw == capped == text && columnDroppedBytes == 0
    {
      totalBytes, totalLines, sawData := Bytes(text), CountNewlines(text), text != [];
      currentLineBytes, columnEllipsisAdded, columnDroppedBytes, columnTruncatedLines := 0, false, 0, 0;
      raw, capped := text, text;
      cappedRaw, cappedOut := [], [];
      StartsCapped(maxColumns);
    }

    // ----- whole captures ------------------------------------------------------------

    /** A stream piped in chunk by chunk; the decoder's last flush is the last chunk. */
    method Capture(chunks: seq<Text>, canOpen: bool)
      requires Valid()
      modifies this
      ensures Valid() && history == old(history) + Concat(chunks) && replaced == old(replaced)
      ensures canOpen ==> failed == old(failed)
    {
      hide Valid, HeadShare, Spills, WillOverflow, InOrder, Bytes, ConcatTo, Watches, CapOf, Plain;
      var i := 0;
      ConcatNone(history, chunks);
      while i < |chunks|
        invariant 0 <= i <= |chunks| && Valid() && replaced == old(replaced) && (canOpen ==> failed == old(failed))
        invariant history == old(history) + ConcatTo(chunks, i)
      {
        ghost var out, share, rest := Push(chunks[i], canOpen);
        ConcatStep(old(history), chunks, i);
        i := i + 1;
      }
    }

    /**
     Without a column cap or under one that is watched, whatever was pushed in whatever chunks: the tail past the
     head is in memory as far as it fits, and either the file was never opened and memory holds everything, or the
     file was handed the whole stream, in order, exactly if head and tail were in order when it was opened.  Without
     a cap the mark says whether all of the tail is in memory.
     */
    lemma PlainCapture()
      requires Valid() && Plain()
      ensures buffer == LongestSuffix(tail, spillThreshold) && bufferBytes == Bytes(buffer)
      ensures maxColumns == 0 ==> (truncated <==> Bytes(tail) > spillThreshold) && (InOrder() <==> head + tail == history)
      ensures file == None ==> !truncated && buffer == tail && capped == history && (InOrder() <==> head + buffer == history)
      ensures file.Some? ==> (emitted == history <==> intact)
      ensures file.Some? && artifactMaxBytes == 0 ==> file.value == emitted
      ensures InOrder() && file.Some? ==> intact
      ensures headLimit == 0 ==> head == [] && InOrder() && tail == capped
    {
      JoinedIs(head, tail, capped);
      if headLimit == 0 { NoHeadInOrder(); }
      EmptyBytes(head);
      var p := SuffixCut(tail, spillThreshold);
      LongestSuffixAll(tail, spillThreshold);
    }

    /** The next push is sure to notice what the cap does to its chunk, whatever the chunk, if and only if the cap is watched. */
    lemma NoticesAll()
      requires Valid()
      ensures (forall chunk :: CapOf(chunk) != chunk ==> Bytes(CapOf(chunk)) < Bytes(chunk)) <==> Watches()
    {
      hide CapChunk, Bytes;
      if maxColumns > 0 {
        StreamCappedLines(cappedRaw, cappedOut, maxColumns, currentLineBytes, columnEllipsisAdded, columnDroppedBytes, columnTruncatedLines);
        CapAtInLine(LinesOf(cappedRaw), LinesOf(cappedOut));
        NoticedIff(maxColumns, currentLineBytes, columnEllipsisAdded);
        if Watches() {
          forall chunk | CapOf(chunk) != chunk ensures Bytes(CapOf(chunk)) < Bytes(chunk) {
            assert CapOf(chunk) == CapChunk(chunk, maxColumns, currentLineBytes, columnEllipsisAdded);
          }
        } else {
          var chunk := Unseen(maxColumns, currentLineBytes, columnEllipsisAdded);
          assert CapOf(chunk) == CapChunk(chunk, maxColumns, currentLineBytes, columnEllipsisAdded);
        }
      }
    }

    /** At the start of a line a cap of at least three bytes is watched, so pushing whole lines keeps it so. */
    lemma WholeLinesWatched()
      requires Valid() && !replaced && AtStart(raw) && (maxColumns > 0 ==> maxColumns >= ELLIPSIS_BYTES)
      ensures Watches()
    {
      if maxColumns > 0 {
        StreamCappedLines(raw, capped, maxColumns, currentLineBytes, columnEllipsisAdded, columnDroppedBytes, columnTruncatedLines);
        StartLines(raw);
        var rs, os := LinesOf(raw), LinesOf(capped);
        assert LineOk(rs, os, |rs| - 1, maxColumns);
      }
    }

    /** With a column cap, memory and file hold the whole stream, in order, exactly under these conditions. */
    lemma CappedCapture()
      requires Valid() && hasArtifact && !failed && !replaced
      ensures file == None ==> !truncated && buffer == tail && columnDroppedBytes <= ELLIPSIS_BYTES * columnTruncatedLines
      ensures file == None && InOrder() ==> (head + buffer == history <==> capped == raw)
      ensures file.Some? ==> (emitted == history <==> intact)
      ensures columnTruncatedLines == 0 ==> capped == raw
    {
      JoinedIs(head, tail, capped);
      if columnTruncatedLines == 0 && maxColumns > 0 {
        NoneCut(raw, capped, maxColumns, currentLineBytes, columnEllipsisAdded, columnDroppedBytes);
      }
    }

    // ----- dump ------------------------------------------------------------------------

    /**
     Writes the ring behind the head.  `gone` is the one stretch of the emitted text that the file
     lacks; the notice stands in its place.
     */
    method FlushArtifactTailIfCapped(notice: (nat, nat, nat, nat) -> Text) returns (ghost gone: Text)
      requires FileValid()
      modifies this`file
      ensures file.Some? == old(file).Some?
      ensures file.Some? && artifactMaxBytes > 0 ==>
                emitted == old(file).value + gone + artifactTailRing && (gone == [] <==> Bytes(emitted) <= Bytes(old(file).value) + artifactTailBudget)
      ensures file.Some? && (artifactMaxBytes == 0 || gone == []) ==> file.value == emitted
      ensures file.Some? && artifactMaxBytes > 0 && gone != [] ==>
                ClosedWith(old(file).value, notice(Bytes(old(file).value), Bytes(artifactTailRing), Bytes(emitted), Bytes(gone)),
                           artifactTailRing, file.value)
      ensures file.Some? && artifactMaxBytes > 0 ==> Bytes(old(file).value) <= artifactHeadBudget && Bytes(artifactTailRing) <= artifactTailBudget
    {
      gone := [];
      if file == None || artifactMaxBytes == 0 { return; }
      gone := SplitCloses(emitted, file.value, overflow, artifactHeadBudget, artifactTailBudget, artifactHeadBytesWritten,
                          artifactHeadClosed, artifactTailRing, artifactTailRingBytes, artifactTailIncomingBytes);
      NoticeIs(notice, file.value, artifactTailRing, Bytes(emitted), Bytes(gone));
      FlushRing(notice, gone);
    }

    method FlushRing(notice: (nat, nat, nat, nat) -> Text, ghost gone: Text)
      requires file.Some? && artifactHeadBytesWritten == Bytes(file.value) && artifactTailRingBytes == Bytes(artifactTailRing)
      requires Bytes(gone) == artifactTailIncomingBytes - artifactTailRingBytes && emitted == file.value + gone + artifactTailRing
      modifies this`file
      ensures file.Some?
      ensures file.value == if gone == [] then emitted else
                old(file).value + Notice(notice, old(file).value, artifactTailRing, Bytes(emitted), Bytes(gone)) + artifactTailRing
    {
      hide Bytes, Notice;
      ghost var start := file.value;
      BytesAtLeastLength(gone);
      BytesAtLeastLength(artifactTailRing);
      EmptyBytes(gone);
      EmptyBytes(artifactTailRing);
      BytesConcat(start + gone, artifactTailRing);
      BytesConcat(start, gone);
      assert gone == [] ==> start + gone == start && start + gone + artifactTailRing == start + artifactTailRing;
      var tailBytes := artifactTailRingBytes;
      var droppedBytes := NonNegative(artifactTailIncomingBytes - tailBytes);
      if tailBytes == 0 && droppedBytes == 0 {
        assert start + artifactTailRing == start;
        return;
      }
      if droppedBytes > 0 {
        file := Some(file.value + Notice(notice, file.value, artifactTailRing, artifactHeadBytesWritten + artifactTailIncomingBytes, droppedBytes));
      }
      if tailBytes > 0 {
        file := Some(file.value + artifactTailRing);
      } else {
        assert file.value + artifactTailRing == file.value;
      }
    }

    /** The cut lines and the bytes cut off them, left out where there are none; the lines are those that were too long. */
    ghost predicate CutsReported(summary: OutputSummary)
      reads this`raw, this`capped, this`replaced
    {
      var dropped, lines := OrZero(summary.columnDroppedBytes), OrZero(summary.columnTruncatedLines);
      && summary.columnDroppedBytes != Some(0) && summary.columnTruncatedLines != Some(0)
      && Bytes(capped) + dropped == Bytes(raw) + ELLIPSIS_BYTES * lines
      && (maxColumns == 0 ==> dropped == 0 && lines == 0)
      && (maxColumns > 0 && !replaced ==> lines == CountLong(LinesOf(raw), |LinesOf(raw)|, maxColumns))
    }

    lemma CutsAre(summary: OutputSummary)
      requires CapValid()
      requires summary.columnDroppedBytes == (if columnDroppedBytes > 0 then Some(columnDroppedBytes) else None)
      requires summary.columnTruncatedLines == (if columnTruncatedLines > 0 then Some(columnTruncatedLines) else None)
      ensures CutsReported(summary)
    {
      hide Bytes, StreamCapped;
      if maxColumns > 0 && !replaced {
        CappedMeans(raw, capped, maxColumns, currentLineBytes, columnEllipsisAdded, columnDroppedBytes, columnTruncatedLines);
      }
    }

    /** The captured output as it is shown: the head, a marker if something is missing in between, the tail. */
    method Dump(noticeLine: Text, marker: (nat, nat) -> Text, notice: (nat, nat, nat, nat) -> Text)
      returns (summary: OutputSummary, ghost body: Text, ghost lost: Text, ghost gone: Text)
      requires Valid()
      modifies this`file, this`truncated
      ensures tail == lost + buffer && summary.output == noticeLine + body && summary.outputBytes == Bytes(body)
      ensures summary.totalBytes == Bytes(raw) && summary.totalLines == if raw == [] then 0 else CountNewlines(raw) + 1
      ensures summary.elidedBytes.Some? <==> head != [] && Bytes(lost) > ELLIPSIS_BYTES * columnTruncatedLines
      ensures summary.elidedBytes.Some? ==>
                && summary.elidedBytes.value == Bytes(lost) - ELLIPSIS_BYTES * columnTruncatedLines && summary.elidedLines.Some?
                && body == head + (if EndsLine(head) then [] else [NL]) + marker(summary.elidedLines.value, summary.elidedBytes.value)
                           + (if StartsLine(buffer) then [] else [NL]) + buffer
      ensures summary.elidedBytes.Some? && InOrder() ==> summary.elidedLines.value == LinesGone(head, lost, buffer)
      ensures summary.elidedBytes == None ==> body == head + buffer
      ensures summary.truncated == truncated == (old(truncated) || summary.elidedBytes.Some?)
      ensures summary.hasArtifact == file.Some? && CutsReported(summary)
      ensures !summary.truncated ==> lost == [] && body == head + tail
      ensures !summary.truncated && InOrder() ==> body == capped
      ensures maxColumns == 0 ==> (summary.truncated <==> lost != [])
      ensures summary.outputLines == if summary.elidedBytes.Some? then LinesShown(head) + 1 + TailLines(buffer) else TailLines(body)
      ensures file.Some? == old(file).Some? && (file.Some? && (artifactMaxBytes == 0 || gone == []) ==> file.value == emitted)
      ensures file.Some? && artifactMaxBytes > 0 ==>
                emitted == old(file).value + gone + artifactTailRing && (gone == [] <==> Bytes(emitted) <= Bytes(old(file).value) + artifactTailBudget)
      ensures file.Some? && artifactMaxBytes > 0 && gone != [] ==>
                ClosedWith(old(file).value, notice(Bytes(old(file).value), Bytes(artifactTailRing), Bytes(emitted), Bytes(gone)),
                           artifactTailRing, file.value)
    {
      hide Notice, Bytes, Joined, Broken, StreamCapped, Split, LongestSuffix, CountTo, CountNewlines, Elided, EndsLine, StartsLine,
           CutsReported, LinesShown, TailLines, LinesGone, ClosedWith;
      if head != [] { SameLineCount(); }
      gone := FlushArtifactTailIfCapped(notice);
      lost := TailLost();
      body, summary := Compose(noticeLine, marker, lost);
      JoinedIs(head, tail, capped);
      EmptyBytes(lost);
      EmptyBytes(head);
      if summary.elidedBytes.Some? { ElidedIs(head, marker(summary.elidedLines.value, summary.elidedBytes.value), buffer); }
      if head != [] && InOrder() {
        ElidedLinesMeaning(head, lost, buffer);
      }
      assert [] + buffer == buffer;
    }

    /** Raw and capped lines correspond one to one. */
    lemma SameLineCount()
      requires Valid() && head != []
      ensures CountNewlines(capped) == CountNewlines(raw) && raw != []
    {
      hide TailValid, FileValid, Split, Bytes;
      EmptyBytes(head);
      EmptyBytes(capped);
      if maxColumns > 0 {
        StreamCappedLines(raw, capped, maxColumns, currentLineBytes, columnEllipsisAdded, columnDroppedBytes, columnTruncatedLines);
        NothingCapped(raw, capped, maxColumns, currentLineBytes, columnEllipsisAdded, columnDroppedBytes, columnTruncatedLines);
      }
    }

    method Compose(noticeLine: Text, marker: (nat, nat) -> Text, ghost lost: Text) returns (ghost shown: Text, summary: OutputSummary)
      requires CapValid() && HeadValid() && CountersValid() && TailValid()
      requires tail == lost + buffer && Bytes(tail) == Bytes(lost) + bufferBytes
      modifies this`truncated
      ensures summary.output == noticeLine + shown && summary.outputBytes == Bytes(shown)
      ensures summary.totalBytes == Bytes(raw) && summary.totalLines == if raw == [] then 0 else CountNewlines(raw) + 1
      ensures summary.elidedBytes.Some? <==> Bytes(head) > 0 && Bytes(lost) > ELLIPSIS_BYTES * columnTruncatedLines
      ensures summary.elidedBytes.Some? ==>
                && summary.elidedBytes.value == Bytes(lost) - ELLIPSIS_BYTES * columnTruncatedLines && summary.elidedLines.Some?
                && summary.elidedLines.value == NonNegative(summary.totalLines - LinesShown(head) - TailLines(buffer))
                && shown == Elided(head, marker(summary.elidedLines.value, summary.elidedBytes.value), buffer)
                && summary.outputLines == LinesShown(head) + 1 + TailLines(buffer)
      ensures summary.elidedBytes == None ==> shown == head + buffer && summary.outputLines == TailLines(shown)
      ensures summary.truncated == truncated == (old(truncated) || summary.elidedBytes.Some?)
      ensures summary.hasArtifact == file.Some? && CutsReported(summary)
    {
      hide Joined, Broken, StreamCapped, LongestSuffix, Elided, LinesShown, TailLines, Bytes, CountNewlines;
      var allLines := if sawData then totalLines + 1 else 0;
      var effectiveTotalBytes := NonNegative(totalBytes - columnDroppedBytes);
      var body, outputBytes, outputLines, elidedBytes, elidedLines := buffer, bufferBytes, TailLines(buffer), None, None;
      EmptyBytes(head);
      assert [] + buffer == buffer;
      if headBytes > 0 && effectiveTotalBytes > headBytes + bufferBytes {
        var bytes := NonNegative(effectiveTotalBytes - headBytes - bufferBytes);
        var lines := NonNegative(allLines - LinesShown(head) - TailLines(buffer));
        var text := marker(lines, bytes);
        elidedBytes, elidedLines := Some(bytes), Some(lines);
        body := Elided(head, text, buffer);
        ElidedBytes(head, text, buffer);
        outputBytes := headBytes + Bytes(text) + bufferBytes + Bytes(Separator(!EndsLine(head))) + Bytes(Separator(!StartsLine(buffer)));
        outputLines := LinesShown(head) + 1 + TailLines(buffer);
        truncated := true;
      } else if headBytes > 0 {
        body, outputBytes := head + buffer, headBytes + bufferBytes;
        BytesConcat(head, buffer);
        outputLines := TailLines(body);
      }
      shown := body;
      summary := OutputSummary(noticeLine + body, truncated, allLines, totalBytes, outputLines, outputBytes, elidedBytes, elidedLines,
                               if columnDroppedBytes > 0 then Some(columnDroppedBytes) else None,
                               if columnTruncatedLines > 0 then Some(columnTruncatedLines) else None, file.Some?);
      CutsAre(summary);
    }

    lemma TailLost() returns (lost: Text)
      requires TailValid() && MarkValid()
      ensures tail == lost + buffer && Bytes(tail) == Bytes(lost) + bufferBytes
      ensures !truncated ==> lost == []
    {
      if bufferBytes <= spillThreshold { lost := SuffixCut(tail, spillThreshold); } else { lost := []; }
      assert [] + buffer == buffer;
      if !truncated { assert |lost| == 0; }
    }

  }

  /**
   Order is not kept in general: a head too narrow for the first scalar still takes the second, and the
   two are captured the wrong way round, without a mark.
   */
  method Reordered(x: char, y: char, headBytes: nat) returns (sink: OutputSink)
    requires Width(y) <= headBytes < Width(x)
    ensures fresh(sink) && sink.Valid() && !sink.InOrder()
    ensures sink.raw == [x, y] && sink.head == [y] && sink.buffer == [x] && !sink.truncated
  {
    hide OutputSink.TailValid, OutputSink.CapValid, OutputSink.FileValid, OutputSink.CountersValid, Bytes, LongestPrefix;
    sink := new OutputSink(false, 100, headBytes, 0, 0, 0);
    OneScalar(x, headBytes);
    OneScalar(y, headBytes);
    assert sink.InOrder();
    var x', y' := [x], [y];
    ghost var out, share, rest := sink.Push(x', true);
    assert out == x' && share == [] && share + rest == rest;
    assert sink.raw == x' && sink.head == [] && sink.tail == x';
    assert !sink.truncated;
    ghost var out', share', rest' := sink.Push(y', true);
    assert out' == y' && share' == y' && |share' + rest'| == 1;
    assert rest' == [] && sink.head == y' && sink.tail == x' && sink.raw == [x] + [y] == [x, y];
    assert sink.buffer == sink.tail;
  }

  /** When the file is opened later, it is written in that wrong order. */
  method ReorderedFile(x: char, y: char, z: Text, headBytes: nat) returns (sink: OutputSink)
    requires Width(y) <= headBytes < Width(x) && Bytes(z) > 8
    ensures fresh(sink) && sink.Valid() && sink.Plain() && !sink.intact
    ensures sink.history == [x] + [y] + z && sink.file == Some([y] + [x] + z) && [y] + [x] + z != [x] + [y] + z
  {
    hide OutputSink.TailValid, OutputSink.CapValid, OutputSink.CountersValid, Bytes, LongestPrefix;
    sink := new OutputSink(true, 8, headBytes, 0, 0, 0);
    OneScalar(x, headBytes);
    OneScalar(y, headBytes);
    var x', y' := [x], [y];
    ghost var out, share, rest := sink.Push(x', true);
    assert share + rest == rest && sink.head == [] && sink.tail == x' && sink.file == None;
    TailBytes(sink);
    ghost var out', share', rest' := sink.Push(y', true);
    assert |share' + rest'| == 1;
    assert sink.head == y' && sink.tail == x' && sink.file == None && sink.buffer == x';
    TailBytes(sink);
    assert sink.history == x' + y';
    ghost var out'', share'', rest'' := sink.Push(z, true);
    assert sink.emitted == y' + x' + z;
    assert ([y] + [x] + z)[0] == y && ([x] + [y] + z)[0] == x;
  }

  lemma TailBytes(sink: OutputSink)
    requires sink.Valid()
    ensures sink.bufferBytes == Bytes(sink.buffer)
  {
  }

  lemma CappedIs(sink: OutputSink)
    requires sink.Valid() && !sink.replaced && sink.maxColumns > 0
    ensures StreamCapped(sink.raw, sink.capped, sink.maxColumns, sink.currentLineBytes, sink.columnEllipsisAdded,
                         sink.columnDroppedBytes, sink.columnTruncatedLines)
  {
    hide StreamCapped;
  }

  /**
   Under any cap, when a chunk ends within the last three bytes of a line, three bytes more are cut, and neither the
   mark nor the file tells of it: the ellipsis is as long as what it replaced.
   */
  method Unnoticed(line: Text, rest: Text, maxColumns: nat) returns (sink: OutputSink)
    requires NL !in line && NL !in rest && Bytes(line) <= maxColumns < Bytes(line) + ELLIPSIS_BYTES && maxColumns > 0
    requires Bytes(rest) == ELLIPSIS_BYTES && rest != [ELLIPSIS]
    ensures fresh(sink) && sink.Valid() && sink.hasArtifact && sink.file == None && !sink.truncated && !sink.failed && !sink.replaced
    ensures sink.raw == line + rest && sink.head == [] && sink.buffer == sink.capped == line + [ELLIPSIS] != sink.raw
  {
    hide OutputSink.TailValid, OutputSink.FileValid, OutputSink.CountersValid, OutputSink.CapValid, OutputSink.LossNoticed,
         Bytes, LongestPrefix, StreamCapped, CapChunk;
    sink := new OutputSink(true, maxColumns + ELLIPSIS_BYTES, 0, maxColumns, 0, 0);
    CutAtEnd(line, rest, maxColumns);
    ghost var out, share, rest' := sink.Push(line, true);
    assert sink.raw == line && sink.capped == line && share + rest' == rest' && sink.tail == line && sink.file == None;
    OpenLine(sink, line);
    TailBytes(sink);
    ghost var out', share', rest'' := sink.Push(rest, true);
    assert out' == [ELLIPSIS] && share' + rest'' == rest'' && sink.tail == line + [ELLIPSIS];
    assert |rest| == 0 || (line + rest)[|line|..] == rest;
    assert (line + [ELLIPSIS])[|line|..] == [ELLIPSIS];
  }

  lemma CutAtEnd(line: Text, rest: Text, max: nat)
    requires NL !in line && NL !in rest && Bytes(line) <= max < Bytes(line) + ELLIPSIS_BYTES && Bytes(rest) == ELLIPSIS_BYTES
    ensures CapChunk(line, max, 0, false) == line
    ensures CapChunk(rest, max, Bytes(line), false) == [ELLIPSIS] && Bytes([ELLIPSIS]) == ELLIPSIS_BYTES
  {
    hide CapChunk, Bytes;
    ChunkNothing(max, 0, false);
    ChunkNothing(max, Bytes(line), false);
    ChunkSegment([], line, max, 0, false);
    ChunkSegment([], rest, max, Bytes(line), false);
    ThreeForThree(rest, max, Bytes(line));
    assert [] + line == line && [] + rest == rest && [] + [ELLIPSIS] == [ELLIPSIS];
  }

  /** The cap's state in the middle of the first line. */
  lemma OpenLine(sink: OutputSink, line: Text)
    requires sink.Valid() && !sink.replaced && sink.maxColumns > 0 && sink.raw == sink.capped == line && NL !in line && Bytes(line) <= sink.maxColumns
    ensures sink.currentLineBytes == Bytes(line) && !sink.columnEllipsisAdded
  {
    hide OutputSink.TailValid, OutputSink.FileValid, Bytes;
    CappedIs(sink);
    StreamCappedLines(line, line, sink.maxColumns, sink.currentLineBytes, sink.columnEllipsisAdded,
                      sink.columnDroppedBytes, sink.columnTruncatedLines);
    NoNewline(line);
  }

  /** A cut line, a newline that the tail could not keep, and a line behind it. */
  method CutAndOverflowing(w: char, x: char) returns (sink: OutputSink)
    requires Width(w) >= 2 && Width(x) == 1 && x != NL
    ensures fresh(sink) && sink.Valid() && sink.raw == [w, NL, x] && sink.capped == [ELLIPSIS, NL, x]
    ensures sink.head == [ELLIPSIS] && sink.tail == [NL, x] && sink.buffer == [x] && sink.columnTruncatedLines == 1
  {
    hide OutputSink.FileValid, OutputSink.CountersValid, Bytes, LongestPrefix, LongestSuffix, StreamCapped,
         OutputSink.LossNoticed, CapChunk;
    sink := new OutputSink(false, 1, 3, 1, 0, 0);
    var chunk := [w, NL, x];
    ghost var out, share, rest := sink.Push(chunk, true);
    assert sink.raw == [] + chunk == chunk && sink.capped == [] + out == out;
    CappedIs(sink);
    WideThenNarrow(w, x, sink.capped, sink.currentLineBytes, sink.columnEllipsisAdded, sink.columnDroppedBytes, sink.columnTruncatedLines);
    Shares(x);
    assert share == [ELLIPSIS] && rest == out[1..] == [NL, x] && sink.tail == [] + rest == rest && sink.head == [] + share;
  }

  lemma Shares(x: char)
    requires Width(x) == 1
    ensures LongestPrefix([ELLIPSIS, NL, x], 3) == [ELLIPSIS] && LongestSuffix([NL, x], 1) == [x]
  {
    hide Bytes, LongestPrefix, LongestSuffix;
    BytesOne(ELLIPSIS);
    BytesOne(x);
    PrefixUnique([ELLIPSIS], [NL, x], 3);
    SuffixUnique([NL], [x], 1);
    assert [ELLIPSIS] + [NL, x] == [ELLIPSIS, NL, x] && [NL] + [x] == [NL, x];
  }

  lemma OnlyNewline(lost: Text, x: char)
    requires lost + [x] == [NL, x]
    ensures lost == [NL] && Bytes(lost) == 1
  {
    assert |lost| == 1 && lost[0] == (lost + [x])[0];
    BytesOne(NL);
  }

  /** Text is missing from the middle of a dump and no marker says so. */
  method Unmarked(w: char, x: char, marker: (nat, nat) -> Text, notice: (nat, nat, nat, nat) -> Text)
    returns (sink: OutputSink, summary: OutputSummary)
    requires Width(w) >= 2 && Width(x) == 1 && x != NL
    ensures fresh(sink) && sink.raw == [w, NL, x] && sink.capped == [ELLIPSIS, NL, x]
    ensures summary.output == [ELLIPSIS, x] && summary.elidedBytes == None
  {
    hide OutputSink.Valid, OutputSink.InOrder, Elided, LinesGone, Notice, Bytes;
    sink := CutAndOverflowing(w, x);
    ghost var body, lost, gone;
    summary, body, lost, gone := sink.Dump([], marker, notice);
    OnlyNewline(lost, x);
    assert body == [ELLIPSIS] + [x] == [ELLIPSIS, x] && [] + body == body;
  }

  lemma OneScalar(c: char, max: nat)
    ensures Bytes([c]) == Width(c) && LongestPrefix([c], max) == if Width(c) <= max then [c] else []
  {
    BytesOne(c);
    LongestPrefixAll([c], max);
    PrefixUnique([], [c], max);
    assert [] + [c] == [c];
  }
}
