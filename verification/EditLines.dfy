/** A tool input as lines of edit sections: what each line is, by the lines before it. */
module EditLines {
  import opened Options

  datatype Format = New | LegacyHashline | Codex

  /** What the regular expressions make of a line; `length` includes its line end, and `sign` is any sign that opens a legacy line. */
  datatype Line = Line(
    length: nat, blank: bool, beginPatch: bool, endPatch: bool, header: Option<(Format, string)>,
    pilcrow: bool, newInsert: Option<bool>, newRange: Option<NewRange>,
    sign: bool, legacyInsert: bool, legacyReplace: Option<nat>)

  /** A range operation: replacing takes payload, deleting does not. */
  datatype NewRange = NewRange(takesPayload: bool, lines: nat, hasInline: bool)

  datatype EditSection = EditSection(target: string, opCount: nat, payloadLines: nat, deletedLines: nat)

  predicate IsNewOp(l: Line) {
    l.newInsert.Some? || l.newRange.Some?
  }

  /** Begins with a legacy sign, as every legacy operation does. */
  predicate Opens(l: Line) {
    l.sign || l.legacyInsert || l.legacyReplace.Some?
  }

  // ----- kinds of lines ---------------------------------------------------------------------

  /** Nothing but blank lines so far. */
  predicate Leading(ls: seq<Line>, i: nat) {
    i < |ls| && forall k :: 0 <= k <= i ==> ls[k].blank
  }

  predicate Envelope(ls: seq<Line>, i: nat) {
    i < |ls| && !Leading(ls, i) && (ls[i].beginPatch || ls[i].endPatch)
  }

  predicate Head(ls: seq<Line>, i: nat)
    ensures Head(ls, i) ==> i < |ls| && ls[i].header.Some?
  {
    i < |ls| && !Leading(ls, i) && !Envelope(ls, i) && ls[i].header.Some?
  }

  /** Any other line. */
  predicate Body(ls: seq<Line>, i: nat) {
    i < |ls| && !Leading(ls, i) && !Envelope(ls, i) && !Head(ls, i)
  }

  /** Line `n` is in the section with the header `h`. */
  predicate InSection(ls: seq<Line>, h: nat, n: nat)
    ensures InSection(ls, h, n) ==> h < n <= |ls| && ls[h].header.Some?
  {
    h < n <= |ls| && Head(ls, h) && forall k :: h < k < n ==> !Head(ls, k)
  }

  predicate IsNew(ls: seq<Line>, h: nat) {
    h < |ls| && ls[h].header.Some? && ls[h].header.value.0 == New
  }

  // ----- the two grammars -------------------------------------------------------------------

  /** An operation of the section's grammar. */
  predicate IsOp(ls: seq<Line>, h: nat, i: nat)
    ensures IsOp(ls, h, i) ==> i < |ls|
  {
    Body(ls, i) && !ls[i].blank && if IsNew(ls, h) then IsNewOp(ls[i]) else ls[i].legacyInsert || ls[i].legacyReplace.Some?
  }

  /** All take payload but the deletes of the new grammar. */
  predicate TakesPayload(ls: seq<Line>, h: nat, i: nat) {
    IsOp(ls, h, i) && (IsNew(ls, h) ==> ls[i].newInsert.Some? || ls[i].newRange.value.takesPayload)
  }

  /** A free line: it does not begin like a header or an operation. */
  predicate Free(ls: seq<Line>, h: nat, i: nat) {
    Body(ls, i) && if IsNew(ls, h) then !ls[i].pilcrow && !IsNewOp(ls[i]) else !Opens(ls[i])
  }

  /** Behind an operation that takes payload there have been only free lines. */
  ghost predicate AfterOp(ls: seq<Line>, h: nat, n: nat) {
    exists m: nat :: OpenedAt(ls, h, n, m)
  }

  predicate OpenedAt(ls: seq<Line>, h: nat, n: nat, m: nat) {
    h < m < n <= |ls| && TakesPayload(ls, h, m) && forall k :: m < k < n ==> Free(ls, h, k)
  }

  ghost predicate IsPayload(ls: seq<Line>, h: nat, i: nat)
    ensures IsPayload(ls, h, i) ==> i < |ls|
  {
    Free(ls, h, i) && AfterOp(ls, h, i)
  }

  /** The line before is a legacy insert, which still lacks its payload. */
  predicate Lacking(ls: seq<Line>, h: nat, n: nat) {
    h + 1 < n <= |ls| && !IsNew(ls, h) && IsOp(ls, h, n - 1) && ls[n - 1].legacyInsert
  }

  /**
   Line `i`, in the section of `h`, ends the prefix: a header or an envelope line only where an insert lacks its
   payload; any other line unless it is payload, or an operation or blank where no insert lacks its payload.
   */
  ghost predicate Breaks(ls: seq<Line>, h: nat, i: nat) {
    if Envelope(ls, i) || Head(ls, i) then Lacking(ls, h, i)
    else Body(ls, i) && !IsPayload(ls, h, i) && (Lacking(ls, h, i) || !(ls[i].blank || IsOp(ls, h, i)))
  }

  /** Line `i` ends the prefix; before the first header any line does that is neither blank, envelope nor header. */
  ghost predicate Stops(ls: seq<Line>, i: nat) {
    i < |ls| && ((Body(ls, i) && forall h: nat :: !InSection(ls, h, i)) || exists h: nat :: InSection(ls, h, i) && Breaks(ls, h, i))
  }

  /** The first `k` lines are read, and no more. */
  ghost predicate ReadsTo(ls: seq<Line>, k: nat) {
    k <= |ls| && (forall i: nat :: i < k ==> !Stops(ls, i)) && (k < |ls| ==> Stops(ls, k))
  }

  // ----- what a section holds -----------------------------------------------------------------

  function CountOps(ls: seq<Line>, h: nat, n: nat): nat
    requires h < n <= |ls|
  {
    if n == h + 1 then 0 else CountOps(ls, h, n - 1) + if IsOp(ls, h, n - 1) then 1 else 0
  }

  /** Payload in the line of the operation itself. */
  predicate HasInline(ls: seq<Line>, h: nat, i: nat) {
    IsOp(ls, h, i) && IsNew(ls, h)
    && if ls[i].newInsert.Some? then ls[i].newInsert.value else ls[i].newRange.value.takesPayload && ls[i].newRange.value.hasInline
  }

  ghost function CountPayload(ls: seq<Line>, h: nat, n: nat): nat
    requires h < n <= |ls|
  {
    if n == h + 1 then 0 else CountPayload(ls, h, n - 1) + if IsPayload(ls, h, n - 1) || HasInline(ls, h, n - 1) then 1 else 0
  }

  /** The lines that an operation takes away. */
  function Deletes(ls: seq<Line>, h: nat, i: nat): nat {
    if !IsOp(ls, h, i) then 0
    else if IsNew(ls, h) then if ls[i].newInsert.Some? then 0 else ls[i].newRange.value.lines
    else if ls[i].legacyInsert then 0 else ls[i].legacyReplace.value
  }

  function CountDeleted(ls: seq<Line>, h: nat, n: nat): nat
    requires h < n <= |ls|
  {
    if n == h + 1 then 0 else CountDeleted(ls, h, n - 1) + Deletes(ls, h, n - 1)
  }

  /** What the lines from the header `h` up to line `n` make of a section. */
  ghost function SectionOf(ls: seq<Line>, h: nat, n: nat): EditSection
    requires h < n <= |ls| && ls[h].header.Some?
  {
    EditSection(ls[h].header.value.1, CountOps(ls, h, n), CountPayload(ls, h, n), CountDeleted(ls, h, n))
  }

  function EndOf(heads: seq<nat>, a: nat, n: nat): nat {
    if a + 1 < |heads| then heads[a + 1] else n
  }

  /** The sections of the first `n` lines: one for each header, with what stands between it and the next one. */
  ghost predicate SectionsAre(ls: seq<Line>, n: nat, sections: seq<EditSection>, heads: seq<nat>) {
    && |heads| == |sections| && n <= |ls| && (forall a, b :: 0 <= a < b < |heads| ==> heads[a] < heads[b])
    && (forall a :: 0 <= a < |heads| ==> heads[a] < n && Head(ls, heads[a])) && (forall i: nat :: i < n && Head(ls, i) ==> i in heads)
    && forall a :: 0 <= a < |sections| ==> sections[a] == SectionOf(ls, heads[a], EndOf(heads, a, n))
  }
}
