# Verified models of the capture, summary, edit, changelog and session-statistics code

The modules here model the parts of the repository that do real work on text, trees, intervals and tables,
and prove what those parts are for. Each method follows the source's own loops and state and is proved
against a specification; lemmas then prove what the specification promises.

| files | models |
|---|---|
| `Sequences`, `Options`, `Sorting`, `Latest`, `Chained` | what several modules need: facts about sequences, options, a stable sort, the last of the items with a key, lists one after the other |
| `Utf`, `ByteCut` | UTF-8 and UTF-16, the longest prefix and suffix within a byte budget, the windowed cutter |
| `Lines`, `Truncation`, `Middle`, `InlineCap` | lines, greedy head and tail truncation, middle elision, the inline size guard |
| `TailBuffer`, `ColumnCap`, `CapText`, `ArtifactCap`, `Elision`, `OutputSink` | the lazy tail ring and the streaming sink: column cap, retained head, rolling tail, artifact file |
| `Spans`, `Segments`, `Forest`, `ForestNodes`, `ForestShape`, `ForestRuns`, `Unfold`, `UnfoldFacts`, `Summary` | the structural summariser |
| `Edits`, `AstEdit` | edit application and staged multi-file edits |
| `Changelog`, `ChangelogFix`, `ChangelogOrder`, `ChangelogPrint`, `ChangelogPromote`, `ChangelogItems`, `ChangelogMoves`, `FixChangelog` | the changelog fixer: parser, printer, normaliser, promotion |
| `DiffScan`, `DiffItems`, `RunFixer` | which lines a diff adds for good, and the fixer on all changelogs of a repository |
| `Intervals`, `ReadReplay`, `PairReplay` | the two read-configuration simulators |
| `EditLines`, `EditBoundary`, `SyncTables`, `Sync`, `Repeats`, `MapPool` | the edit-prefix parser, incremental ingestion, repeated blocks in an edit, the worker pool and context residency |

## How things are modelled

- A text is a sequence of Unicode scalar values. Its size is that of its UTF-8 form (section 3 of RFC 3629) and
  its code units are those of UTF-16 (section 2.1 of RFC 2781). `Utf.ToScalars` reads an arbitrary sequence of
  code units, a surrogate without its partner becoming U+FFFD, so the cutter is proved on ill-formed strings
  too; everything above it assumes well-formed chunks.
- A file is the text written to it so far. `scratch/streaming-output.ts` creates its file sink without waiting on
  the success path, so a push that opens the file also drains the queue; whether the file can be opened is a
  parameter of each push.
- Bytes are decoded as the standard decoder does it: each maximal part of an ill-formed sequence that could begin a
  well-formed one, or else one byte, becomes U+FFFD.
- Texts whose wording does not matter (elision markers, the artifact notice, footers) are function parameters, and
  results hold for every choice of them.
- A syntax tree is an ordered tree of non-empty nested ranges with three flags per node, for the kind tables. The
  parser, the matcher and the writability of files are parameters.
- A changelog line is what the source's patterns recognise it as, with its text; an input of the edit-boundary
  parser is a sequence of lines, each with what the source's patterns match on it, in any combination.
- Integers are unbounded. Saturating subtractions are written out; saturation at the top of a machine integer is not.

## What the code does otherwise than its comments say

- `push` keeps no "head closed" flag: a scalar too wide for the room left in the head goes to the tail, and a later,
  narrower one still enters the head. `OutputSinks.OrderStep` is the exact condition for one chunk. The file holds the
  whole stream exactly if head and tail were in order when it was opened (`OutputSinks.OutputSink.PlainCapture`);
  `OutputSinks.Reordered` and `OutputSinks.ReorderedFile` are runs where memory and file hold it the wrong way round.
- A chunk counts as capped when it got smaller. Before a push there is an exact guard: every change the cap can make to
  the next chunk shows in its size if and only if the cap is at least three bytes and the open line is cut already or has
  room for an ellipsis (`CapText.NoticedIff`, `OutputSinks.OutputSink.NoticesAll`). Pushed under that guard, for instance
  in whole lines (`OutputSinks.OutputSink.WholeLinesWatched`), the stream is in memory unchanged or in the file,
  the file in order under the condition above (`OutputSinks.OutputSink.PlainCapture`). Without it, under any cap, three bytes at the end of a line can be cut and
  neither mark nor file tells (`OutputSinks.Unnoticed`).
- `dump` subtracts dropped bytes from the raw total but does not add the bytes of the ellipses that were put in, so a
  marker appears exactly when more is lost than three bytes per cut line (`OutputSinks.OutputSink.Dump`).
  `OutputSinks.Unmarked` is a run that loses text with no marker.
- The overlap branch of the middle elision returns content whole that breaks the byte budget every time. It is taken
  exactly when both windows are filled to the last byte, one byte too many with the newline between them, or when the
  last line alone is too big for the tail and all others fit in the head (`Middle.ReturnedWhole`). In the second case the
  excess is unbounded (`Middle.OverlapRun`); `Middle.PartialExcess` says when it is still one byte.
- The comment on the span forest promises strictly smaller children. A span equals its parent's exactly when what it
  comes from begins and ends on the first and the last line of the parent's node (`ForestRuns.SameSpanIff`).
- Sibling spans can meet where there are runs: exactly when a run's span meets what the run's own members contribute
  (`ForestRuns.SpreadIff`).
- The inline guard promises a result within its budget. It keeps the promise for every text exactly when, for every count
  of elided bytes above what the two windows leave, the marker for that count and the footer fit in what they leave
  (`InlineCap.AlwaysInBudget`). The source's marker states the count in decimal, which can be longer than any budget, so
  no budget is kept for every text (`InlineCap.NoBudgetAlwaysKept`); `InlineCap.InlineSize` decides each text.
- `find_longest_repeat` promises a repeat if there is one that is long enough and has enough meaning. It tries each pair
  of places at its greatest extent only, and so misses one exactly when the lines behind it have too little meaning
  (`Repeats.MissedIff`). It finds nothing exactly when every worthy repeat is missed (`Repeats.NoneFoundIff`), as in the
  family of `Repeats.SomeMissed`.
- The incremental sync is meant to leave what a full rebuild leaves. For an append-only file that is so exactly if no sync
  since the last rebuild read on from the middle of a line, and the first line, when it was read unfinished, said nothing
  of the session that it does not say when finished (`Sync.SyncMany`).

## Model

| member | source | states |
|---|---|---|
| Utf.DecodeEncode | scratch/streaming-output.ts:201-212 | decoding the UTF-8 encoding of any text gives the text back |
| Utf.DecodeOn | scratch/streaming-output.ts:201-212 | a well-formed beginning is decoded as it is, whatever bytes follow it |
| Utf.ToScalarsUtf16 | scratch/streaming-output.ts:196-201 | reading the UTF-16 form of any text gives the text back |
| Utf.PrefixUnique | scratch/streaming-output.ts:203-207 | a text is the longest aligned prefix within a byte budget exactly when it fits and the next scalar would not; the cut is unique |
| Utf.SuffixUnique | scratch/streaming-output.ts:208-213 | the same for the longest aligned suffix |
| Utf.SuffixStreams | scratch/streaming-output.ts:957-965 | trimming the tail early, appending and trimming again is the same as trimming the whole stream once |
| Utf.SuffixDominates | scratch/streaming-output.ts:952-956 | a chunk as large as the budget decides the tail by itself, whatever came before |
| Utf.PrefixStreams | scratch/streaming-output.ts:855-871 | filling a head budget chunk by chunk gives the longest prefix of the stream within it |
| ByteCut.FindUtf8BoundaryForward | scratch/streaming-output.ts:158-162 | the first position at or after the given one that does not hold a continuation byte, or the end; negative positions count as 0 |
| ByteCut.FindUtf8BoundaryBackward | scratch/streaming-output.ts:165-171 | the last position at or before the cut that does not hold a continuation byte, or the start; the end of the buffer if the cut is past it |
| ByteCut.ForwardCut | scratch/streaming-output.ts:209-211 | on encoded text the forward boundary from the window start leaves exactly the longest aligned suffix |
| ByteCut.BackwardCut | scratch/streaming-output.ts:203-206 | on encoded text the backward boundary leaves exactly the longest aligned prefix |
| ByteCut.CutDecodes | scratch/streaming-output.ts:206-212 | cutting encoded text between scalars and decoding both halves gives the two texts |
| ByteCut.TailWindow | scratch/streaming-output.ts:196-199 | cutting the tail inside a window of as many code units as the budget has bytes loses nothing, even when the window splits a surrogate pair |
| ByteCut.HeadWindow | scratch/streaming-output.ts:196-199 | the same for the head |
| ByteCut.TruncateBytesWindowed | scratch/streaming-output.ts:177-214 | for every sequence of code units, lone surrogates included, the windowed path returns the longest aligned prefix or suffix within the budget, and its exact size |
| ByteCut.TruncateBuffer | scratch/streaming-output.ts:200-213 | a buffer that is too long is cut at the boundary, whatever its bytes, and decoded with replacement; on the encoding of a text the result is the longest aligned part within the budget, with its size |
| ByteCut.TruncateBytes | scratch/streaming-output.ts:216-233 | the path for byte arrays, well-formed or not: at most the budget, cut at a boundary and decoded with replacement; on encoded text the same cut as for strings |
| ByteCut.TruncateTailBytes | scratch/streaming-output.ts:239-241 | the longest aligned suffix of a string within the budget, and its size |
| ByteCut.TruncateHeadBytes | scratch/streaming-output.ts:247-249 | the longest aligned prefix of a string within the budget, and its size |
| Lines.JoinLines | scratch/streaming-output.ts:142-150 | splitting a text into lines and joining them gives the text back |
| Lines.LinesJoin | scratch/streaming-output.ts:142-150 | joining newline-free lines and splitting gives the lines back |
| Lines.FindBackward | scratch/streaming-output.ts:408-450 | a backward newline search finds the previous line end, although a search from -1 is read as one from index 0 |
| Lines.FindForward | scratch/streaming-output.ts:310-366 | a forward newline search finds the end of the next line |
| Middle.Shares | scratch/streaming-output.ts:510-517 | for every limit, the default shares are halves that differ by at most one, the tail having what is left over, but never less than a line for the head; otherwise the tail has the rest |
| Truncation.KeepsMostIs | scratch/streaming-output.ts:310-366 | keeping lines until the next one breaks a limit is keeping as many as both limits allow, and conversely |
| Truncation.SideBytesIs | scratch/streaming-output.ts:340-361 | the running byte count is the size of the kept lines joined by newlines |
| Truncation.NextHeadLine | scratch/streaming-output.ts:320-366 | one turn of the forward loop adds exactly the next line and its separator |
| Truncation.NextTailLine | scratch/streaming-output.ts:414-455 | one turn of the backward loop adds exactly the previous line and its separator, and stops at the first line |
| Truncation.TruncateHead | scratch/streaming-output.ts:285-381 | the whole content exactly if it is within both limits, else as many whole first lines as both limits allow, with exact counts and the right reason; nothing if the first line alone is too long |
| Truncation.TruncateTail | scratch/streaming-output.ts:389-487 | the whole content exactly if it is within both limits, else as many whole last lines as both limits allow, or the longest aligned end of the last line when it alone is too long; the loop terminates on every content |
| Truncation.PartialIf | scratch/streaming-output.ts:436-463 | the tail is a partial line exactly when the last line alone is over the byte budget |
| Middle.TruncateMiddle | scratch/streaming-output.ts:510-571 | every branch of the middle elision, in terms of the head and tail cuts within their windows; content within both limits comes back whole |
| Middle.MiddleLines | scratch/streaming-output.ts:533-570 | when the middle is elided, the parts are first and last lines sharing none, kept and elided lines add up to all lines and at least one is elided |
| Middle.MiddleInBudget | scratch/streaming-output.ts:516-545 | the kept parts together fit the byte budget |
| Middle.MiddleSize | scratch/streaming-output.ts:548-566 | the reported size is the size of the composed text |
| Middle.MiddleGone | scratch/streaming-output.ts:548-566 | the content is head, gap, tail, and the gap has exactly the reported number of bytes |
| Middle.MiddleOnce | scratch/streaming-output.ts:510-571 | the specification of the middle elision leaves nothing open: two results for the same input are the same |
| Middle.ReturnedWhole | scratch/streaming-output.ts:510-546 | with both windows in force the content is returned whole exactly when it fits, or both windows are filled exactly, or only the last line is too big; in the last two the byte budget is broken every time, by one byte when both windows are filled |
| Middle.Overlap | scratch/streaming-output.ts:533-546 | the same in terms of the two cuts, with the size of the content in both cases |
| Middle.PartialExcess | scratch/streaming-output.ts:546 | with a partial last line the excess is one byte exactly when that line takes up all the room the head left, and otherwise by how much it differs |
| Middle.OverlapRun | scratch/streaming-output.ts:546 | a run whose excess is unbounded: two lines, the second arbitrarily long, come back whole under a budget of two bytes |
| InlineCap.KeptEnds | scratch/streaming-output.ts:619-621 | head and tail windows of an oversized text do not meet and stay within 60% and 25% of the budget |
| InlineCap.EnforceInlineByteCap | scratch/streaming-output.ts:587-631 | a text within the budget is untouched; any other becomes a head and a tail, each on its own lines, around a marker stating the exact number of bytes between them; the head ends before the last newline of the longest prefix within 60%, or is all of it if there is none behind its first character, and the tail begins behind the first newline of the longest suffix within 25%, or is all of it if that is missing or its last character |
| InlineCap.InlineSize | scratch/streaming-output.ts:613-631 | the size of the result for every oversized text, and with it exactly when it stays within the budget |
| InlineCap.AlwaysInBudget | scratch/streaming-output.ts:604-631 | every oversized text stays within the budget if and only if, for every count of bytes above what the two windows leave, the marker for that count and the footer fit in what they leave |
| InlineCap.NoBudgetAlwaysKept | scratch/streaming-output.ts:604-631 | with the decimal count of the source, for every budget there is a text whose result breaks it |
| TailBuffers.TailBuffer.Append | scratch/streaming-output.ts:645-678 | after any interleaving of calls the buffer stands for the whole stream, holds at most twice the budget and at most ten pieces |
| TailBuffers.TailBuffer.GetText | scratch/streaming-output.ts:680-684 | the text is the longest aligned suffix of everything appended within the budget, and reading changes no later answer |
| TailBuffers.TailBuffer.GetBytes | scratch/streaming-output.ts:686-690 | the size of that suffix |
| TailBuffers.TailBuffer.TrimTo | scratch/streaming-output.ts:705-718 | trims what is held to its longest suffix within a budget |
| ColumnCap.CappedMeans | scratch/streaming-output.ts:883-930 | for every chunking the lines going out correspond one to one to the lines coming in, each the raw line or a prefix of it with one ellipsis, at most three bytes over the cap; the counter is the number of too long lines and the bytes balance |
| ColumnCap.CutKeepsRoom | scratch/streaming-output.ts:907-919 | a cut line keeps at least the longest prefix that fits beside the ellipsis, however it was chunked |
| ColumnCap.CapCut | scratch/streaming-output.ts:907-921 | the step that cuts a line keeps the relation between raw and capped lines |
| CapText.NoticedIff | scratch/streaming-output.ts:834-930 | whatever the chunk, every change the cap makes to it shows in its size, if and only if the cap is at least three bytes and the line it continues is cut already or has room for an ellipsis |
| OutputSinks.OutputSink.ApplyColumnCap | scratch/streaming-output.ts:883-930 | the loop over a chunk computes the line-by-line cap of it, extends the capped stream, keeps its relation to the raw one and balances the dropped bytes |
| ArtifactCap.SplitOver | scratch/streaming-output.ts:1014-1037 | a chunk that does not fit the head is split between head and ring without losing order |
| ArtifactCap.SplitCloses | scratch/streaming-output.ts:1155-1175 | emitted text is head, one gap, ring; the gap is exactly the dropped count, both parts are within budget, and nothing is dropped exactly when the stream fits head and tail budget |
| OutputSinks.OutputSink.EmitToSink | scratch/streaming-output.ts:1003-1037 | every emitted chunk keeps the split of the emitted stream into head on disk and overflow in the ring |
| OutputSinks.OutputSink.PushArtifactTail | scratch/streaming-output.ts:1039-1057 | the ring becomes the longest aligned suffix of ring and chunk within the tail budget, and incoming bytes are counted |
| OutputSinks.OutputSink.CreateFileSink | scratch/streaming-output.ts:1059-1095 | opening the file emits retained head, tail buffer and queued chunks in that order; a failure leaves no file and an empty queue |
| OutputSinks.OutputSink.WriteToFile | scratch/streaming-output.ts:976-990 | a chunk reaches the file after everything memory held before it |
| OutputSinks.OutputSink.constructor | scratch/streaming-output.ts:778-800 | clamped limits and artifact budgets that add up to the cap; the empty sink satisfies all invariants |
| OutputSinks.OutputSink.PushTail | scratch/streaming-output.ts:938-966 | the buffer stays the longest aligned suffix of the tail stream within the threshold, and the mark says whether anything left memory |
| OutputSinks.OrderStep | scratch/streaming-output.ts:852-873 | a chunk keeps head and tail in order exactly when its head share is empty or nothing has gone to the tail yet; once out of order, always out of order |
| OutputSinks.OutputSink.FillHead | scratch/streaming-output.ts:855-871 | the head takes the longest aligned prefix of a chunk that its room allows, the rest is passed on |
| OutputSinks.OutputSink.Admit | scratch/streaming-output.ts:852-874 | head and tail share out every capped chunk, and the split of the stream is kept |
| OutputSinks.OutputSink.Record | scratch/streaming-output.ts:823-840 | counters cover exactly the raw stream and the cap extends the capped one; with room for an ellipsis in the open line, a chunk counts as capped exactly when the cap changed it, and in any case exactly when it lost more bytes than its ellipses take |
| OutputSinks.OutputSink.Mirror | scratch/streaming-output.ts:842-847 | the raw chunk is mirrored exactly when a file is open, bytes were capped, or memory would overflow |
| OutputSinks.OutputSink.Push | scratch/streaming-output.ts:806-874 | one push keeps every invariant of the sink and states its whole effect: streams, head and tail shares, order, file, failure and mark; a file that is opened gets the whole stream exactly if memory held it, and while every push has met the guard of the cap that is if head and tail were in order |
| OutputSinks.OutputSink.PlainCapture | scratch/streaming-output.ts:806-1095 | without a column cap, or with one whose guard every push has met, for every push sequence and any head window: memory holds the longest aligned suffix of the tail stream; either no file was opened and memory holds the whole unchanged stream, or the file was handed exactly the whole stream if and only if head and tail were in order when it was opened; without a head window they always are |
| OutputSinks.OutputSink.NoticesAll | scratch/streaming-output.ts:834-850 | before any push to a valid sink: whatever is pushed next, a change by the cap is noticed, if and only if there is no cap or its guard holds |
| OutputSinks.OutputSink.WholeLinesWatched | scratch/streaming-output.ts:883-930 | at the start of a line the guard of a cap of at least three bytes holds, so pushes of whole lines meet it |
| OutputSinks.OutputSink.CappedCapture | scratch/streaming-output.ts:834-850 | whether or not the guard was met: without a file the cap dropped no more than its ellipses take, and memory in order is the whole stream exactly if the cap changed nothing; no line counted as cut means that nothing was changed |
| OutputSinks.Unnoticed | scratch/streaming-output.ts:834-847 | under any cap, a run where a chunk ends within the last three bytes of a line, the next three are cut, and neither the mark nor a file tells of it |
| OutputSinks.OutputSink.Capture | scratch/streaming-output.ts:1097-1109 | piping in any sequence of chunks pushes their concatenation and keeps the invariants |
| OutputSinks.OutputSink.NoHeadInOrder | scratch/streaming-output.ts:855-871 | without a head window order is always kept |
| OutputSinks.OutputSink.SingleByteInOrder | scratch/streaming-output.ts:855-871 | order is kept while the first scalar past the head is a single byte: the head is then full for good |
| OutputSinks.Reordered | scratch/streaming-output.ts:855-871 | order is not kept in general: a scalar too wide for the head followed by a narrower one is captured the wrong way round, unmarked |
| OutputSinks.ReorderedFile | scratch/streaming-output.ts:842-873 | a run where the artifact file holds the stream in the wrong order |
| OutputSinks.OutputSink.Replace | scratch/streaming-output.ts:1123-1138 | after a replacement the text alone is the stream, counters match it, the head is given up and all invariants hold |
| OutputSinks.OutputSink.FlushArtifactTailIfCapped | scratch/streaming-output.ts:1155-1175 | the closed file is the emitted stream verbatim when nothing was dropped, else head, one notice in place of one gap, and ring |
| OutputSinks.OutputSink.Dump | scratch/streaming-output.ts:1177-1249 | the shown text with its separators, its exact size and line count, the gap in bytes, and in lines whatever the column cap; the marker appears exactly when the lost bytes exceed three per cut line; the cut lines are those too long for the cap, and the bytes cut off balance; without a column cap the truncated mark holds exactly when something was lost; the closed file, verbatim or with one notice, on a line of its own, for one gap |
| OutputSinks.Unmarked | scratch/streaming-output.ts:1201-1229 | a run whose dump lacks text in the middle and has no marker |
| Elision.ElidedLinesMeaning | scratch/streaming-output.ts:1199-1223 | the reported number of elided lines is the number of lines of the stream that lie, newline included, wholly inside the lost stretch |
| Elision.ElidedLineCount | scratch/streaming-output.ts:1199-1233 | the reported line count is that of the shown text, except next to a tail that is empty or starts with a newline |
| Forest.ElidableForest.Push | crates/aery-ast/src/summary.rs:97-105 | a new node is appended to the arena and to its parent's children or to the roots |
| Forest.ElidableForest.Collect | crates/aery-ast/src/summary.rs:244-323 | the arena grows by the preorder form of exactly the trees that the syntax node contributes, under the right parent |
| Forest.ElidableForest.CollectRuns | crates/aery-ast/src/summary.rs:282-311 | one pass with an open run finds the spans of the maximal runs of groupable siblings |
| Forest.ElidableForest.FlushRun | crates/aery-ast/src/summary.rs:325-355 | a run of at least two siblings that is long enough yields the lines between its first and its last member, if there are any |
| Forest.GrowTwice | crates/aery-ast/src/summary.rs:97-105 | adding trees one after the other is adding them together |
| ForestNodes.ForestIs | crates/aery-ast/src/summary.rs:244-355 | the forest, level by level and in source order, holds exactly these and each under the nearest body above it: the inside of every elidable body with at least the minimum of lines and a line inside, of every comment long enough from its third line on, and of every maximal run of at least two groupable siblings that is long enough, for all nodes reached through no comment |
| ForestNodes.TopsCover | crates/aery-ast/src/summary.rs:244-355 | the outermost spans cover exactly the lines that any body, comment or run folds |
| ForestShape.ElidableContained | crates/aery-ast/src/summary.rs:244-355 | every span lies inside its parent's, runs included, and strictly inside the lines of the node it comes from |
| ForestShape.ElidableApart | crates/aery-ast/src/summary.rs:244-323 | without groupable siblings, sibling spans leave at least one line between them at every level |
| ForestShape.ContainmentIsNotStrict | crates/aery-ast/src/summary.rs:81-84 | a child's span can equal its parent's, so containment is not strict |
| ForestShape.RunsOverlap | crates/aery-ast/src/summary.rs:282-311 | with runs, sibling spans can overlap |
| ForestRuns.SpreadIff | crates/aery-ast/src/summary.rs:244-355 | siblings are disjoint at every level, or apart by a line, if and only if every run is clear of what its own members contribute, or apart from it by a line |
| ForestRuns.SourcesMatch | crates/aery-ast/src/summary.rs:244-355 | every span comes from a body, a comment or a run whose lines lie within those of the node it was collected from |
| ForestRuns.SameSpanIff | crates/aery-ast/src/summary.rs:81-84 | a span equals its parent's if and only if what it comes from begins and ends on the first and last line of the parent's node; a comment's never does |
| Unfold.PlacedNext | crates/aery-ast/src/summary.rs:132-156 | one unfold keeps the queued nodes' subtrees disjoint, and the unfolded node is in none of them any more |
| Unfold.SelectFolded | crates/aery-ast/src/summary.rs:115-159 | the spans are those that stay folded at the first point where nothing is left, enough is visible or the next step would show too much; no node enters the queue twice |
| Unfold.Unfolding | crates/aery-ast/src/summary.rs:131-156 | the loop body refines the breadth-first run on trees: queue, folded set and counter agree with it at every step |
| Unfold.StopsOnce | crates/aery-ast/src/summary.rs:132-156 | there is exactly one point where the loop stops |
| UnfoldFacts.Antichain | crates/aery-ast/src/summary.rs:132-156 | no folded node lies below another folded node |
| UnfoldFacts.UnfoldsAreBounded | crates/aery-ast/src/summary.rs:132-156 | at most one unfold for every node, so the loop terminates |
| UnfoldFacts.BreadthFirst | crates/aery-ast/src/summary.rs:132-156 | after any number of unfolds, what is folded is the rest of one level of the forest and, below what was unfolded of it, the next one |
| UnfoldFacts.UnfoldsUntil | crates/aery-ast/src/summary.rs:132-150 | before every unfold fewer lines than the target are visible and after it no more than the ceiling; at the end nothing is left or one unfold more would break this |
| UnfoldFacts.UnfoldsMore | crates/aery-ast/src/summary.rs:132-156 | a higher target or a higher ceiling unfolds at least as much |
| UnfoldFacts.MoreIsShown | crates/aery-ast/src/summary.rs:107-114 | raising the target or the ceiling never hides a line that was shown |
| UnfoldFacts.VisibleBounded | crates/aery-ast/src/summary.rs:143-150 | the counter never ends above the ceiling, unless nothing was unfolded |
| UnfoldFacts.VisibleExact | crates/aery-ast/src/summary.rs:128-155 | on contained and disjoint spans the saturating counter is, at every step, the number of lines that no folded span covers |
| Spans.NormalizeSpans | crates/aery-ast/src/summary.rs:799-819 | normalised spans are sorted, lie in range with at least one line between neighbours, and cover exactly the lines in range that the input covers |
| Spans.GappedUnique | crates/aery-ast/src/summary.rs:799-819 | the normal form depends only on the set of lines, so the order of a hash set never shows |
| Segments.BuildSegments | crates/aery-ast/src/summary.rs:821-860 | segments tile lines 1 to the last, kept and elided by turns, each of one kind throughout and carrying its text if kept |
| Segments.SourceRebuilt | crates/aery-ast/src/summary.rs:821-875 | the kept texts together with the elided source lines are the source lines |
| Segments.ElidedSegmentsAreSpans | crates/aery-ast/src/summary.rs:821-860 | there is exactly one elided segment for every normalised span, with the same bounds |
| Segments.KeptAreShown | crates/aery-ast/src/summary.rs:821-860 | the kept segments hold exactly the lines that no span covers |
| Summary.Summarize | crates/aery-ast/src/summary.rs:161-209 | the pipeline from syntax tree to segments: the tiling, the elided lines, the rebuilt source; with no target exactly the lines that some node folds are elided; where no run meets what its own members contribute, a number of kept lines equal to the counter of the unfold and within the ceiling |
| Summary.Defaults | crates/aery-ast/src/summary.rs:187-194 | without options bodies need 4 lines and comments 6; given ones are taken, but never fewer than 2 and 4 |
| Edits.SortedInTurn | crates/aery-ast/src/ops.rs:188-198 | the stably sorted edits follow each other exactly when any two of them are compatible in the order listed |
| Edits.ApplyEdits | crates/aery-ast/src/ops.rs:187-212 | each outcome exactly: overlap, out of bounds, invalid text, or success, and then byte for byte what no edit takes away and what each edit inserts, each where it belongs |
| Edits.Splice | crates/aery-ast/src/ops.rs:200-211 | splicing from the last edit to the first, in place, gives the left-to-right interleaving |
| Edits.WeaveLength | crates/aery-ast/src/ops.rs:200-211 | every deleted byte goes and every inserted byte comes |
| Edits.WeavePlaces | crates/aery-ast/src/ops.rs:200-211 | every byte outside the edits and every byte of an insertion stands where the edits before it have moved it |
| Sorting.SortIs | crates/aery-ast/src/ops.rs:189 | the sort orders its input, loses and invents nothing, and keeps equal keys in their order |
| AstEdit.MatchesAre | crates/aery-engine/src/ast.rs:823-825 | the matches of a file are exactly what the rules that compiled find, in the order of the rules and of the matches of each |
| AstEdit.ChangesAre | crates/aery-engine/src/ast.rs:799-886 | the changes there are to make are exactly those the usable candidates offer, in their order |
| AstEdit.TakeMatches | crates/aery-engine/src/ast.rs:823-859 | a file's changes are its first matches in rule order as far as the replacement limit leaves room, and the limit is reached exactly when there is one more |
| AstEdit.PassFile | crates/aery-engine/src/ast.rs:799-894 | one file: skipped and counted, refused for a reason, or staged with its counts and edits; the pass stops only when a limit is used up |
| AstEdit.Flush | crates/aery-engine/src/ast.rs:896-903 | writes are made in order up to the first that fails |
| AstEdit.Replace | crates/aery-engine/src/ast.rs:765-919 | it fails only for a reason, and then the disk is untouched; otherwise the changes are the first there are, within both limits, the limit is reported exactly when there are more and only when one is used up, the per-file counts are exact and add up to the changes, and the disk holds the edited files and is otherwise unchanged; if a write fails each file is as it was or edited |
| AstEdit.CountsAddUp | crates/aery-engine/src/ast.rs:872-911 | the reported counts of the files add up to the number of reported changes |
| Changelog.ParseChangelog | scripts/fix-changelogs.ts:126-155 | the index loops build the same document as reading line by line into what is open, and its parts one after the other are the lines of the content, each with its number |
| Changelog.ParseReleaseSection | scripts/fix-changelogs.ts:157-189 | the same for one release section |
| Changelog.ParseKeeps | scripts/fix-changelogs.ts:126-189 | every line read so far is in the document, in its place and with its number |
| Changelog.TrimBlankLines | scripts/fix-changelogs.ts:191-197 | trimming leaves exactly what lies between the outer blank lines |
| ChangelogFix.AppendSubsectionLines | scripts/fix-changelogs.ts:207-221 | appending trims both parts and puts one empty line between them unless the last line of the one and the first of the other are list items |
| ChangelogFix.AppendKeeps | scripts/fix-changelogs.ts:207-221 | appending keeps every solid line of both parts, in order |
| ChangelogFix.NormalizeSection | scripts/fix-changelogs.ts:302-340 | merging by title, dropping empty headings and ordering the Unreleased section, with counters that are zero exactly when there was nothing to do |
| ChangelogFix.NormalMeans | scripts/fix-changelogs.ts:302-340 | normalising keeps heading and every solid line under its category in order, and leaves distinct, trimmed, non-empty categories |
| ChangelogOrder.CategoryOrder | scripts/fix-changelogs.ts:297-334 | a normalised section has exactly the categories that were filled; in the Unreleased section the five standard ones come first, in the standard order, and all others stand in the order in which they were first filled |
| ChangelogPrint.RenderChangelog | scripts/fix-changelogs.ts:342-369 | every heading and every text without the blank lines around it is printed as a block, in order, with exactly one empty line between any two; what is printed for a well-formed document reads back as that document, up to blank lines around each text |
| ChangelogPrint.RoundTrip | scripts/fix-changelogs.ts:342-369 | what was printed reads back as the same document, up to blank lines around each text |
| ChangelogPrint.Layout | scripts/fix-changelogs.ts:342-369 | the printed lines are the blocks of the document with exactly one empty line between any two and none at the end |
| DiffScan.ScannedIs | scripts/fix-changelogs.ts:440-495 | the items read are exactly the added and the removed list lines of named files behind hunk headers, in order, each with the path named last, the count of hunks of its file, and the line its hunk begins with moved on by the lines of the new file in between |
| DiffScan.OneReading | scripts/fix-changelogs.ts:440-495 | a diff can be read in one way only |
| ChangelogPromote.ParseItems | scripts/fix-changelogs.ts:223-253 | items run from one list line to the next |
| ChangelogPromote.RemovalIsExact | scripts/fix-changelogs.ts:382-385 | removing the line numbers of the promotable items removes exactly those items |
| ChangelogPromote.ItemsConserve | scripts/fix-changelogs.ts:382-385 | every solid line either stays or belongs to a promoted item, none lost or doubled |
| ChangelogItems.ItemsAre | scripts/fix-changelogs.ts:223-253 | the parsed items are the blocks that the item lines open, without the blank lines around them |
| ChangelogItems.AppendItem | scripts/fix-changelogs.ts:207-221 | appending an item adds exactly one item, whatever separates it from the others |
| ChangelogMoves.SubsectionHasItem | scripts/fix-changelogs.ts:265-272 | true exactly when the item is empty or equals one of the subsection's items, apart from blank lines around it |
| ChangelogMoves.AddItems | scripts/fix-changelogs.ts:387-395 | promoted items extend their category in order, each added exactly if it was neither there nor added before; afterwards each stands in it in one piece |
| FixChangelog.PromoteSection | scripts/fix-changelogs.ts:381-396 | one released section gives up exactly its promotable items, and the Unreleased section, created on first need, receives them |
| FixChangelog.PromoteAll | scripts/fix-changelogs.ts:375-397 | over all sections, although a section may be put in front while the loop runs and the current one is then visited again |
| FixChangelog.FixChangelogContent | scripts/fix-changelogs.ts:371-423 | content is returned unchanged when there is nothing to do, else it reads back as the promoted sections normalised; nothing is left to normalise, the counters are exact, and every solid line is conserved from the content given to the content returned: prefix, headings, leading lines, every category of every release together with what was promoted out of it, and the Unreleased categories with what was added |
| FixChangelog.UntouchedIff | scripts/fix-changelogs.ts:371-423 | a content is left alone exactly if it has nothing to normalise and no released section has an item to promote |
| FixChangelog.FixTwice | scripts/fix-changelogs.ts:371-423 | fixed a second time, for whatever lines, a content stays the same exactly if no released section of it has an item to promote; as many items are promoted as there are |
| FixChangelog.FixAgain | scripts/fix-changelogs.ts:371-423 | the same as a lemma about any two fixes of any content |
| FixChangelog.PrintedConserves | scripts/fix-changelogs.ts:342-423 | under every release and category of the output stand exactly the solid lines that were there after promotion, in order |
| FixChangelog.ReleasedConserves | scripts/fix-changelogs.ts:381-385 | a released section loses exactly the lines of its promoted items |
| FixChangelog.AllLeft | scripts/fix-changelogs.ts:375-397 | the lines of all promoted items of a category are exactly those that left it in the released sections, in order |
| FixChangelog.AddedOrDropped | scripts/fix-changelogs.ts:390-394 | every promoted line was added to its category or belongs to an item that was there already |
| FixChangelog.PromotionConserves | scripts/fix-changelogs.ts:371-423 | conservation per release and category, from the parsed input to the output read back, in both branches |
| DiffItems.Pair | scripts/fix-changelogs.ts:499-516 | additions and removals of the same text in the same file are paired by rank: one has a partner exactly when the other side has more of its kind than came before it |
| DiffItems.CollectPromotableAddedItemLines | scripts/fix-changelogs.ts:433-545 | of the list lines that the diff adds and removes, each with its path, hunk and line in the new file, a line is listed exactly when it begins an added item without a partner of which its hunk has more than removals without one |
| DiffItems.PairingIsOneToOne | scripts/fix-changelogs.ts:509-516 | for every text in every file as many additions as removals are paired, and as many as can be |
| DiffItems.MovedIsNotPromoted | scripts/fix-changelogs.ts:509-532 | a text that a file loses at least as often as it gains is never promoted |
| DiffItems.SurplusIsPromoted | scripts/fix-changelogs.ts:518-541 | of each hunk exactly the surplus of unpaired additions over unpaired removals is promoted |
| RunFixer.RunChangelogFixer | scripts/fix-changelogs.ts:577-605 | every changelog becomes its fix for what the diff adds to it, nothing else is touched, a dry run touches nothing, and the report lists exactly the changelogs that change |
| RunFixer.RunTwice | scripts/fix-changelogs.ts:577-605 | run again with whatever diff there is by then, a changelog changes exactly if that diff promotes an item out of it as the first run left it; with no new diff none changes |
| Intervals.AddInterval | scripts/session-stats/read_optimizer.py:261-278 | the list stays sorted with gaps and covers exactly one interval more; an interval without lines can come to stand in it only if one was added |
| Intervals.IsCovered | scripts/session-stats/read_optimizer.py:251-258 | the early-stopping search answers whether every line of the target is covered |
| ReadReplay.DeliversAll | scripts/session-stats/read_optimizer.py:221-248 | a call gets all it asked for exactly when it asks from line 1 or later and the cap leaves room for the request behind its leading context |
| ReadReplay.RequestedIs | scripts/session-stats/read_optimizer.py:221-229 | what each kind of call asks for, line by line |
| ReadReplay.DeliveredIs | scripts/session-stats/read_optimizer.py:231-248 | a call gets its leading context but no line before the first, what it asked for, and trailing context behind an explicit range, all up to the cap |
| ReadReplay.CostIs | scripts/session-stats/read_optimizer.py:341-385 | a paid call costs its arguments and its recorded result, or the estimate for as many lines as it gets |
| ReadReplay.FromZeroPays | scripts/session-stats/read_optimizer.py:251-258 | a call from line 0 on is paid for however often it comes |
| ReadReplay.DeliveriesAre | scripts/session-stats/read_optimizer.py:357-396 | a line counts as delivered exactly if a paid call got it |
| ReadReplay.Replay | scripts/session-stats/read_optimizer.py:341-407 | a read is skipped exactly when every line it asks for was delivered by earlier paid reads; calls and skips add up to the reads, and tokens to the paid costs |
| ReadReplay.ReplayAll | scripts/session-stats/read_optimizer.py:316-407 | over all groups calls and skips add up to the reads, and tokens to the paid costs |
| ReadReplay.Pareto | scripts/session-stats/read_optimizer.py:446-457 | the frontier is within both limits, strictly trades tokens for calls, matches every admissible result and is beaten by none |
| Intervals.Merge | scripts/session-stats/optimize_read_config.py:146-157 | merging gives a sorted list with gaps that covers the same lines |
| Intervals.Subtract | scripts/session-stats/optimize_read_config.py:167-182 | subtraction leaves, in order and at least a line apart, exactly the lines of the target outside the union |
| Intervals.ChunkRange | scripts/session-stats/optimize_read_config.py:357-368 | chunks follow one another over exactly the range, none longer than allowed and all but the last as long as allowed; none for an empty range |
| PairReplay.Reaches | scripts/session-stats/optimize_read_config.py:315-343 | a call returns its first line in any case, and every later line that is asked for, in the file, within the line cap and within what the byte cap allows |
| PairReplay.MostIs | scripts/session-stats/optimize_read_config.py:357-363 | a call may return exactly as many lines as both caps allow |
| PairReplay.ObservedIff | scripts/session-stats/optimize_read_config.py:388-391 | what is known to have come back is observed exactly if it has a line |
| PairReplay.ReturnedAre | scripts/session-stats/optimize_read_config.py:386-401 | a line is covered after some calls exactly if one of them returns it |
| PairReplay.FetchedAre | scripts/session-stats/optimize_read_config.py:386-401 | phase 1 pays, in order, for exactly those calls of which some line was returned by no call before |
| PairReplay.ChargesAdd | scripts/session-stats/optimize_read_config.py:396-414 | charges add up, each being what its lines cost and a round trip |
| PairReplay.Simulate | scripts/session-stats/optimize_read_config.py:386-401 | phase 1 covers what the configuration returns for every observed call, and pays exactly for the ranges of which some line was not returned before |
| PairReplay.FillGap | scripts/session-stats/optimize_read_config.py:407-414 | a gap is fetched in its chunks, paid for each, and added to what is covered |
| PairReplay.ReplayPair | scripts/session-stats/optimize_read_config.py:371-415 | the total is what phase 1 pays and what the chunks of the shortfall cost, and in the end exactly what phase 1 returned and what the agent was seen to receive is covered |
| PairReplay.ChunksAreShortfall | scripts/session-stats/optimize_read_config.py:402-414 | phase 2 pays for disjoint chunks, none longer than one call allows, holding exactly the observed lines that phase 1 did not return |
| PairReplay.ShortfallUnique | scripts/session-stats/optimize_read_config.py:402-406 | the gaps are determined by the history and the configuration |
| EditBoundary.ParseEditBoundary | scripts/session-stats/harmony_backtest.py:447-571 | the prefix ends at the first line that the grammar of its section does not admit where it stands, or a line before if an insert lacks its payload; there is one section for each header, with the numbers of its operations, payload lines and deleted lines, and the reason is exact |
| EditBoundary.StepKnows | scripts/session-stats/harmony_backtest.py:467-560 | for both grammars and every kind of line, the state machine stops exactly where the lines before it do not admit the line |
| EditBoundary.PrefixGrows | scripts/session-stats/harmony_backtest.py:467-560 | the boundary never moves back as more lines are read |
| EditBoundary.AfterSound | scripts/session-stats/harmony_backtest.py:467-560 | where a line extends the prefix nothing is owed; only an unfinished legacy insert leaves the prefix one line behind |
| EditBoundary.Reparse | scripts/session-stats/harmony_backtest.py:447-571 | parsing the input cut at the boundary consumes all of it with the reason ok and the same sections, less an unfinished legacy insert |
| SyncTables.ParseFile | scripts/session-stats/sync.py:678-721 | reading on from any stored offset yields exactly the records of the lines from there on, the last of which may be unfinished |
| SyncTables.LinesAre | scripts/session-stats/sync.py:684-693 | the lines follow one another, together are the file, and each ends with its first newline or with the file |
| SyncTables.LinesConcat | scripts/session-stats/sync.py:684-693 | a file read in two parts has the same lines if the first part ends at a line end or is empty; otherwise one line is read as two |
| SyncTables.CallsAndResultsCommute | scripts/session-stats/sync.py:960-983 | calls and results upserted into one row can arrive in either order and in different batches |
| SyncTables.TwoBatches | scripts/session-stats/sync.py:878-983 | writing lines in two batches leaves the tables of one batch, wherever they are divided |
| SyncTables.WrittenIs | scripts/session-stats/sync.py:878-983 | after one batch, a key is in the tables exactly if some line has a row for it, with the last such row and the number of its line; an edit exactly if some line has a call or a result for it, with number, timestamp and length of the last call and the outcome of the last result |
| Sync.Database.SyncFile | scripts/session-stats/sync.py:1048-1073 | one sync of a file, whatever became of it since the last: nothing is done, or it is read anew, as always after an older parser or when it has shrunk, or read on from where it ended; afterwards the tables hold, for every key, exactly the last of what the lines read since the last rebuild say of it |
| Sync.SyncMany | scripts/session-stats/sync.py:1048-1073 | any number of syncs of a growing file, at any sizes, with any modification times, forced or not, end as one full rebuild exactly if no sync since the last rebuild read on from the middle of a line and the first line never said what it does not say now; then the tables hold the last of what the lines of the file say |
| Sync.LineEndsSuffice | scripts/session-stats/sync.py:1048-1073 | a file seen at line ends only ends as one full rebuild |
| Sync.SeenUnfinished | scripts/session-stats/sync.py:684-703 | any file seen once in the middle of a line and then as a whole has a line read as two, unless the second sync is forced |
| Repeats.FindLongestRepeat | scripts/session-stats/sync.py:502-521 | nothing exactly when every worthy repeat in the block is missed; otherwise the longest of those that are worthy at their greatest extent, and the earliest of that length |
| Repeats.EnoughIs | scripts/session-stats/sync.py:517-519 | enough meaning is at least two meaningful lines and at least half of them |
| Repeats.MissedIff | scripts/session-stats/sync.py:509-520 | a worthy repeat is missed at its two places exactly when the lines behind it, as far as the agreement goes on, have less meaning than it can make up for |
| Repeats.NoneFoundIff | scripts/session-stats/sync.py:502-521 | no pair of places is worthy at its greatest extent exactly when behind every worthy repeat the agreement goes on over more lines without meaning than it makes up for |
| Repeats.NoneMissed | scripts/session-stats/sync.py:502-504 | where every line is meaningful no worthy repeat is missed |
| Repeats.SomeMissed | scripts/session-stats/sync.py:502-504 | a family of blocks with a worthy repeat where nothing is found |
| MapPool.InvAlways | scripts/session-stats/audit.ts:620-630 | in every state of every interleaving each claimed index is settled with its own result or with exactly one worker |
| MapPool.ClaimedOnce | scripts/session-stats/audit.ts:624-625 | every index is claimed exactly once, in increasing order |
| MapPool.ConcurrencyBounded | scripts/session-stats/audit.ts:623 | never more calls in flight than the limit or the number of items |
| MapPool.CompletedIsMap | scripts/session-stats/audit.ts:620-630 | when all workers have finished, each item has the result of its own call in its own place |
| MapPool.NoDeadlock | scripts/session-stats/audit.ts:623-628 | while a worker is active some step can be taken |
| MapPool.ScheduleBounded | scripts/session-stats/audit.ts:623-628 | no interleaving is longer than four steps per item |
| Residency.Accumulate | scripts/session-stats/audit.ts:506-511 | the accumulated residency is the sum over all requests of the tokens in their context |
| Residency.WeightedIsPaid | scripts/session-stats/audit.ts:506-511 | weighting each result by the requests after it is summing every request's context |

## Left out

- OutputSinks.OutputSink.CreateFileSink: the failure path also awaits the end of a half-open sink; chunks pushed while that await is pending are not modelled, nor are writes that throw halfway.
- OutputSinks.OutputSink.Push: chunk sanitising, sixel passthrough and the throttled preview callback, which do not touch the captured state.
- OutputSinks.OutputSink.Dump: after a dump the sink is closed; later calls on it are not modelled. The wording of markers and notices is a parameter.
- OutputSinks.OutputSink.Capture: byte chunks are taken as decoded; a multi-byte sequence split between chunks is the decoder's business.
- InlineCap.EnforceInlineByteCap: 60% and 25% of the budget are taken exactly, where the source rounds a floating-point product.
- Truncation.TruncateHead: byte-array contents and the numeric formatting of notices; `truncateLine` and the notice formatters would only add easy members.
- Summary.Summarize: language detection, parsing, kind tables and the result for sources that do not parse.
- Unfold.SelectFolded: the spans come in no particular order, and how often a span that two nodes share is listed is not stated; the sum over the folded set is taken over the roots, which have the same members.
- Edits.ApplyEdits: positions inside a multi-byte character, on which the source's string splice panics; texts are compared as bytes.
- AstEdit.Replace: cancellation and the conversion of positions to lines and columns; globbing and language inference.
- AstEdit.Flush: a write either succeeds as a whole or fails as a whole.
- FixChangelog.FixChangelogContent: line-ending normalisation and the final newline; a document is its list of lines.
- RunFixer.RunChangelogFixer: finding the repository, the tag and the changelogs, and running Git; the diff is a list of recognised lines, with the text of an item already trimmed.
- ChangelogFix.NormalizeSection: sections and subsections are values that are replaced, where the source mutates shared objects; aliasing is not captured.
- FixChangelog.PromoteSection: the new Unreleased section is put in front when the current section is done, not in the middle of it; the loop over sections sees the same list either way.
- ReadReplay.ReplayAll: per-kind subtotals, truncation counts and byte limits are sums of the same shape. Token costs are naturals given by a parameter.
- PairReplay.ReplayPair: costs are naturals given by a parameter; lines per call under the byte cap are a number, not a floating-point quotient.
- EditBoundary.ParseEditBoundary: the loose diff fallback for inputs without any section; the regular expressions themselves.
- Sync.Database.SyncFile: SQLite, row ids, the extraction of rows from JSON and token counts; what a line yields is a parameter. A file does not grow while it is being read.
- SyncTables.ParseFile: `parse_hashline_input`, which computes row contents, is not part of this model.
- Repeats.FindLongestRepeat: what makes a line meaningful is a parameter.
- MapPool.InvAlways: a rejected call stops its worker; how the rejection reaches the caller is not modelled.
- Residency.Accumulate: how results are attributed to tools and paths.
- Release scripts, evaluations, terminal and process plumbing, plotting, reports and command-line parsing.
