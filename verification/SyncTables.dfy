/** Reading the lines of a session file, and the tables that their records go to. */
module SyncTables {
  import opened Options
  import opened Sequences
  import opened Utf
  import opened Latest

  /** A row goes to the table and key it is unique for; inserting replaces. */
  datatype Key = Key(table: nat, id: string, index: nat)
  datatype Row = Row(key: Key, seqNo: nat, payload: string)

  datatype EditCall = EditCall(callId: string, seqNo: nat, timestamp: nat, inputLength: nat)
  datatype EditResult = EditResult(callId: string, success: bool, warnings: string)

  /** What a line of the file is recognised as; blank and malformed lines carry nothing. */
  datatype Entry = Entry(key: Key, payload: string)
  datatype Call = Call(callId: string, timestamp: nat, inputLength: nat)
  datatype Header = Header(startedAt: Option<nat>, title: Option<string>, cwd: Option<string>, uuid: Option<string>, version: Option<string>)
  datatype Content = Content(header: Option<Header>, rows: seq<Entry>, calls: seq<Call>, results: seq<EditResult>)
  datatype Line = Line(length: nat, content: Content)

  type Reader = seq<Byte> -> Content

  const NO_HEADER := Header(None, None, None, None, None)

  datatype Records = Records(header: Header, rows: seq<Row>, calls: seq<EditCall>, results: seq<EditResult>, offset: nat, lines: nat)

  // ----- lines ----------------------------------------------------------------------------

  const NEWLINE: Byte := 10

  /** Just behind the first newline from `i` on, or at the end. */
  function LineEnd(file: seq<Byte>, i: nat): (e: nat)
    requires i <= |file|
    ensures i <= e <= |file| && (i < |file| ==> i < e)
    decreases |file| - i
  {
    if i == |file| then i else if file[i] == NEWLINE then i + 1 else LineEnd(file, i + 1)
  }

  /** The lines of a file, each with its newline; the last one may lack it. */
  function LinesOf(file: seq<Byte>, read: Reader): seq<Line> {
    if file == [] then [] else
      var e := LineEnd(file, 0);
      [Line(e, read(file[..e]))] + LinesOf(file[e..], read)
  }

  /** Nothing, or something that ends with a newline. */
  predicate Whole(file: seq<Byte>) {
    file != [] ==> Last(file) == NEWLINE
  }

  lemma {:induction false} EndInFirst(a: seq<Byte>, b: seq<Byte>, i: nat)
    requires i <= |a|
    ensures LineEnd(a, i) == i || a[LineEnd(a, i) - 1] == NEWLINE || LineEnd(a, i) == |a|
    ensures LineEnd(a, i) > i && a[LineEnd(a, i) - 1] == NEWLINE ==> LineEnd(a + b, i) == LineEnd(a, i)
    ensures !(LineEnd(a, i) > i && a[LineEnd(a, i) - 1] == NEWLINE) ==> LineEnd(a, i) == |a| && LineEnd(a + b, i) == |a| + LineEnd(b, 0)
    decreases |a| - i
  {
    if i < |a| {
      assert (a + b)[i] == a[i];
      if a[i] != NEWLINE { EndInFirst(a, b, i + 1); }
    } else {
      EndInSecond(a, b, 0);
    }
  }

  lemma {:induction false} EndInSecond(a: seq<Byte>, b: seq<Byte>, i: nat)
    requires i <= |b|
    ensures LineEnd(a + b, |a| + i) == |a| + LineEnd(b, i)
    decreases |b| - i
  {
    if i < |b| {
      assert (a + b)[|a| + i] == b[i];
      if b[i] != NEWLINE { EndInSecond(a, b, i + 1); }
    }
  }

  /** A file read in two parts has the same lines exactly if the first part is whole; else a line is read as two. */
  lemma {:induction false} LinesConcat(a: seq<Byte>, b: seq<Byte>, read: Reader)
    ensures Whole(a) ==> LinesOf(a + b, read) == LinesOf(a, read) + LinesOf(b, read)
    ensures !Whole(a) && b != [] ==> |LinesOf(a, read)| + |LinesOf(b, read)| == |LinesOf(a + b, read)| + 1
    decreases |a|
  {
    if a == [] {
      AddNothing(b);
      AddNothing(LinesOf(b, read));
    } else {
      var e := LineEnd(a, 0);
      EndInFirst(a, b, 0);
      if a[e - 1] == NEWLINE {
        assert (a + b)[..e] == a[..e] && (a + b)[e..] == a[e..] + b;
        LinesConcat(a[e..], b, read);
        Assoc([Line(e, read(a[..e]))], LinesOf(a[e..], read), LinesOf(b, read));
      } else if b != [] {
        assert (a + b)[LineEnd(a + b, 0)..] == b[LineEnd(b, 0)..] && a[e..] == [];
      }
    }
  }

  // ----- parsing -------------------------------------------------------------------------

  function RowsOf(es: seq<Entry>, seqNo: nat): (r: seq<Row>)
    ensures |r| == |es| && forall i :: 0 <= i < |r| ==> r[i] == Row(es[i].key, seqNo, es[i].payload)
  {
    seq(|es|, i requires 0 <= i < |es| => Row(es[i].key, seqNo, es[i].payload))
  }

  function CallsOf(cs: seq<Call>, seqNo: nat): (r: seq<EditCall>)
    ensures |r| == |cs| && forall i :: 0 <= i < |r| ==> r[i] == EditCall(cs[i].callId, seqNo, cs[i].timestamp, cs[i].inputLength)
  {
    seq(|cs|, i requires 0 <= i < |cs| => EditCall(cs[i].callId, seqNo, cs[i].timestamp, cs[i].inputLength))
  }

  function Offset(ls: seq<Line>): nat {
    if ls == [] then 0 else Offset(ls[..|ls| - 1]) + Last(ls).length
  }

  /** What the lines yield, counted from line `m` and offset `at` on; a header counts only on the first line of the file. */
  function Parsed(ls: seq<Line>, m: nat, at: nat): Records {
    if ls == [] then Records(NO_HEADER, [], [], [], at, m) else
      ParsedOn(Parsed(ls[..|ls| - 1], m, at), Last(ls))
  }

  function ParsedOn(r: Records, l: Line): Records {
    Records(if l.content.header.Some? && r.lines == 0 then l.content.header.value else r.header,
            r.rows + RowsOf(l.content.rows, r.lines), r.calls + CallsOf(l.content.calls, r.lines), r.results + l.content.results,
            r.offset + l.length, r.lines + 1)
  }

  lemma ParsedSnoc(ls: seq<Line>, l: Line, m: nat, at: nat)
    ensures Parsed(ls + [l], m, at) == ParsedOn(Parsed(ls, m, at), l)
  {
    assert (ls + [l])[..|ls|] == ls;
  }

  /** `parse_file`: reads on from a stored offset, counting lines from a stored number. */
  method ParseFile(file: seq<Byte>, read: Reader, startingOffset: nat, startingLine: nat) returns (rec: Records)
    requires startingOffset <= |file|
    ensures rec == Parsed(LinesOf(file[startingOffset..], read), startingLine, startingOffset)
  {
    hide Parsed, LinesOf, RowsOf, CallsOf, LineEnd;
    var seqNo: nat, offset: nat := startingLine, startingOffset;
    var header, rows, calls, results := NO_HEADER, [], [], [];
    ghost var all, done := LinesOf(file[startingOffset..], read), [];
    ParsedNothing(startingLine, startingOffset);
    AddNothing(all);
    while offset < |file|
      invariant startingOffset <= offset <= |file| && done + LinesOf(file[offset..], read) == all
      invariant Records(header, rows, calls, results, offset, seqNo) == Parsed(done, startingLine, startingOffset)
      decreases |file| - offset
    {
      var e := EndOfLine(file, offset);
      var raw := file[offset..e];
      var l := read(raw);
      ghost var line := Line(|raw|, l);
      NextLine(file, read, offset, e);
      ParsedSnoc(done, line, startingLine, startingOffset);
      Assoc(done, [line], LinesOf(file[e..], read));
      done := done + [line];
      if l.header.Some? && seqNo == 0 { header := l.header.value; }
      rows, calls, results := rows + RowsOf(l.rows, seqNo), calls + CallsOf(l.calls, seqNo), results + l.results;
      offset := offset + |raw|;
      seqNo := seqNo + 1;
    }
    NoLines(file, read);
    AddNothing(done);
    rec := Records(header, rows, calls, results, offset, seqNo);
  }

  lemma NoLines(file: seq<Byte>, read: Reader)
    ensures LinesOf(file[|file|..], read) == []
  {
  }

  method EndOfLine(file: seq<Byte>, i: nat) returns (e: nat)
    requires i < |file|
    ensures e == LineEnd(file, i)
  {
    e := i;
    while e < |file| && file[e] != NEWLINE
      invariant i <= e <= |file| && LineEnd(file, e) == LineEnd(file, i)
    {
      e := e + 1;
    }
    if e < |file| { e := e + 1; }
  }

  lemma NextLine(file: seq<Byte>, read: Reader, i: nat, e: nat)
    requires i < |file| && e == LineEnd(file, i)
    ensures i < e <= |file| && LinesOf(file[i..], read) == [Line(e - i, read(file[i..e]))] + LinesOf(file[e..], read)
  {
    hide LineEnd;
    EndFrom(file, i);
    FirstLine(file[i..], read);
    assert file[i..][..e - i] == file[i..e];
    assert file[i..][e - i..] == file[e..];
  }

  lemma EndFrom(file: seq<Byte>, i: nat)
    requires i <= |file|
    ensures LineEnd(file, i) == i + LineEnd(file[i..], 0)
  {
    hide LineEnd;
    assert file[..i] + file[i..] == file;
    EndInSecond(file[..i], file[i..], 0);
  }

  lemma FirstLine(file: seq<Byte>, read: Reader)
    requires file != []
    ensures var e := LineEnd(file, 0); LinesOf(file, read) == [Line(e, read(file[..e]))] + LinesOf(file[e..], read)
  {
  }

  lemma ParsedNothing(m: nat, at: nat)
    ensures Parsed([], m, at) == Records(NO_HEADER, [], [], [], at, m)
  {
  }

  // ----- the tables ------------------------------------------------------------------------

  /** A call and its result share a row; either may come first. */
  datatype EditRow = EditRow(seqNo: nat, timestamp: nat, inputLength: nat, outcome: Option<(bool, string)>)

  datatype Tables = Tables(rows: map<Key, Row>, edits: map<string, EditRow>)

  const EMPTY := Tables(map[], map[])

  function PutRows(t: map<Key, Row>, rows: seq<Row>, n: nat): map<Key, Row>
    requires n <= |rows|
  {
    if n == 0 then t else PutRows(t, rows, n - 1)[rows[n - 1].key := rows[n - 1]]
  }

  /** Upsert of a call: whatever outcome is known already stays. */
  function PutCall(t: map<string, EditRow>, c: EditCall): map<string, EditRow> {
    t[c.callId := EditRow(c.seqNo, c.timestamp, c.inputLength, if c.callId in t then t[c.callId].outcome else None)]
  }

  /** Upsert of a result: whatever is known of the call stays. */
  function PutResult(t: map<string, EditRow>, r: EditResult): map<string, EditRow> {
    t[r.callId := (if r.callId in t then t[r.callId] else EditRow(0, 0, 0, None)).(outcome := Some((r.success, r.warnings)))]
  }

  function PutCalls(t: map<string, EditRow>, cs: seq<EditCall>, n: nat): map<string, EditRow>
    requires n <= |cs|
  {
    if n == 0 then t else PutCall(PutCalls(t, cs, n - 1), cs[n - 1])
  }

  function PutResults(t: map<string, EditRow>, rs: seq<EditResult>, n: nat): map<string, EditRow>
    requires n <= |rs|
  {
    if n == 0 then t else PutResult(PutResults(t, rs, n - 1), rs[n - 1])
  }

  /** One batch: all rows, then all calls, then all results. */
  function Written(t: Tables, rec: Records): Tables {
    Tables(PutRows(t.rows, rec.rows, |rec.rows|), PutResults(PutCalls(t.edits, rec.calls, |rec.calls|), rec.results, |rec.results|))
  }

  lemma CallAndResultCommute(t: map<string, EditRow>, c: EditCall, r: EditResult)
    ensures PutCall(PutResult(t, r), c) == PutResult(PutCall(t, c), r)
  {
  }

  lemma {:induction false} CallAndResultsCommute(t: map<string, EditRow>, c: EditCall, rs: seq<EditResult>, n: nat)
    requires n <= |rs|
    ensures PutCall(PutResults(t, rs, n), c) == PutResults(PutCall(t, c), rs, n)
  {
    hide PutCall, PutResult;
    if n > 0 {
      CallAndResultsCommute(t, c, rs, n - 1);
      CallAndResultCommute(PutResults(t, rs, n - 1), c, rs[n - 1]);
    }
  }

  /** Results of an earlier batch and calls of a later one can be written in either order. */
  lemma {:induction false} CallsAndResultsCommute(t: map<string, EditRow>, cs: seq<EditCall>, m: nat, rs: seq<EditResult>)
    requires m <= |cs|
    ensures PutCalls(PutResults(t, rs, |rs|), cs, m) == PutResults(PutCalls(t, cs, m), rs, |rs|)
  {
    hide PutCall, PutResults;
    if m > 0 {
      CallsAndResultsCommute(t, cs, m - 1, rs);
      CallAndResultsCommute(PutCalls(t, cs, m - 1), cs[m - 1], rs, |rs|);
    }
  }

  lemma {:induction false} PutRowsConcat(t: map<Key, Row>, a: seq<Row>, b: seq<Row>, n: nat)
    requires n <= |b|
    ensures PutRows(t, a + b, |a| + n) == PutRows(PutRows(t, a, |a|), b, n)
  {
    if n == 0 { PutRowsPrefix(t, a, a + b, |a|); } else { PutRowsConcat(t, a, b, n - 1); }
  }

  lemma {:induction false} PutRowsPrefix(t: map<Key, Row>, a: seq<Row>, b: seq<Row>, n: nat)
    requires n <= |a| && n <= |b| && forall i :: 0 <= i < n ==> a[i] == b[i]
    ensures PutRows(t, a, n) == PutRows(t, b, n)
  {
    if n > 0 { PutRowsPrefix(t, a, b, n - 1); }
  }

  lemma {:induction false} PutCallsConcat(t: map<string, EditRow>, a: seq<EditCall>, b: seq<EditCall>, n: nat)
    requires n <= |b|
    ensures PutCalls(t, a + b, |a| + n) == PutCalls(PutCalls(t, a, |a|), b, n)
  {
    hide PutCall;
    if n == 0 { PutCallsPrefix(t, a, a + b, |a|); } else { PutCallsConcat(t, a, b, n - 1); }
  }

  lemma {:induction false} PutCallsPrefix(t: map<string, EditRow>, a: seq<EditCall>, b: seq<EditCall>, n: nat)
    requires n <= |a| && n <= |b| && forall i :: 0 <= i < n ==> a[i] == b[i]
    ensures PutCalls(t, a, n) == PutCalls(t, b, n)
  {
    hide PutCall;
    if n > 0 { PutCallsPrefix(t, a, b, n - 1); }
  }

  lemma {:induction false} PutResultsConcat(t: map<string, EditRow>, a: seq<EditResult>, b: seq<EditResult>, n: nat)
    requires n <= |b|
    ensures PutResults(t, a + b, |a| + n) == PutResults(PutResults(t, a, |a|), b, n)
  {
    hide PutResult;
    if n == 0 { PutResultsPrefix(t, a, a + b, |a|); } else { PutResultsConcat(t, a, b, n - 1); }
  }

  lemma {:induction false} PutResultsPrefix(t: map<string, EditRow>, a: seq<EditResult>, b: seq<EditResult>, n: nat)
    requires n <= |a| && n <= |b| && forall i :: 0 <= i < n ==> a[i] == b[i]
    ensures PutResults(t, a, n) == PutResults(t, b, n)
  {
    hide PutResult;
    if n > 0 { PutResultsPrefix(t, a, b, n - 1); }
  }

  /** Reading on is reading all, with the header where it was. */
  lemma {:induction false} ParsedConcat(a: seq<Line>, b: seq<Line>)
    ensures var x, y, z := Parsed(a, 0, 0), Parsed(b, |a|, Offset(a)), Parsed(a + b, 0, 0);
            && z.rows == x.rows + y.rows && z.calls == x.calls + y.calls && z.results == x.results + y.results
            && z.offset == y.offset == Offset(a + b) && z.lines == y.lines == |a + b|
            && z.header == (if a == [] then y.header else x.header)
            && (a != [] ==> y.header == NO_HEADER)
  {
    hide Parsed, Offset, RowsOf, CallsOf;
    if b == [] {
      AddNothing(a);
      ParsedEnds(a);
      ParsedNothing(|a|, Offset(a));
      ParsedNothing(0, 0);
    } else {
      var front, l := b[..|b| - 1], Last(b);
      ParsedConcat(a, front);
      OneMoreLine(Parsed(a, 0, 0), Parsed(front, |a|, Offset(a)), l);
      assert a + b == (a + front) + [l] && b == front + [l];
      ParsedSnoc(a + front, l, 0, 0);
      ParsedSnoc(front, l, |a|, Offset(a));
      OffsetSnoc(a + front, l);
    }
  }

  lemma OneMoreLine(x: Records, y: Records, l: Line)
    ensures x.rows + (y.rows + RowsOf(l.content.rows, y.lines)) == (x.rows + y.rows) + RowsOf(l.content.rows, y.lines)
    ensures x.calls + (y.calls + CallsOf(l.content.calls, y.lines)) == (x.calls + y.calls) + CallsOf(l.content.calls, y.lines)
    ensures x.results + (y.results + l.content.results) == (x.results + y.results) + l.content.results
  {
  }

  lemma OffsetSnoc(ls: seq<Line>, l: Line)
    ensures Offset(ls + [l]) == Offset(ls) + l.length
  {
    assert (ls + [l])[..|ls|] == ls;
  }

  lemma {:induction false} ParsedEnds(ls: seq<Line>)
    ensures Parsed(ls, 0, 0).lines == |ls| && Parsed(ls, 0, 0).offset == Offset(ls)
  {
    if ls != [] { ParsedEnds(ls[..|ls| - 1]); }
  }

  /** Two batches are one: whatever the point at which the file was first read, and whichever of a call and its result came first. */
  lemma TwoBatches(a: seq<Line>, b: seq<Line>)
    ensures Written(Written(EMPTY, Parsed(a, 0, 0)), Parsed(b, |a|, Offset(a))) == Written(EMPTY, Parsed(a + b, 0, 0))
  {
    hide Parsed, PutRows, PutCalls, PutResults;
    ParsedConcat(a, b);
    var x, y := Parsed(a, 0, 0), Parsed(b, |a|, Offset(a));
    PutRowsConcat(map[], x.rows, y.rows, |y.rows|);
    var calls := PutCalls(map[], x.calls, |x.calls|);
    PutCallsConcat(map[], x.calls, y.calls, |y.calls|);
    CallsAndResultsCommute(calls, y.calls, |y.calls|, x.results);
    PutResultsConcat(PutCalls(calls, y.calls, |y.calls|), x.results, y.results, |y.results|);
  }

  // ----- what the tables hold -----------------------------------------------------------

  function EntryKey(e: Entry): Key { e.key }
  function CallKey(c: Call): string { c.callId }
  function ResultKey(r: EditResult): string { r.callId }

  function Entries(ls: seq<Line>): (xs: seq<seq<Entry>>)
    ensures |xs| == |ls| && forall i :: 0 <= i < |ls| ==> xs[i] == ls[i].content.rows
  {
    seq(|ls|, i requires 0 <= i < |ls| => ls[i].content.rows)
  }

  function Calls(ls: seq<Line>): (xs: seq<seq<Call>>)
    ensures |xs| == |ls| && forall i :: 0 <= i < |ls| ==> xs[i] == ls[i].content.calls
  {
    seq(|ls|, i requires 0 <= i < |ls| => ls[i].content.calls)
  }

  function Results(ls: seq<Line>): (xs: seq<seq<EditResult>>)
    ensures |xs| == |ls| && forall i :: 0 <= i < |ls| ==> xs[i] == ls[i].content.results
  {
    seq(|ls|, i requires 0 <= i < |ls| => ls[i].content.results)
  }

  /** Each key has the row of the last entry with that key, numbered by its line. */
  ghost predicate HoldsRows(t: map<Key, Row>, xs: seq<seq<Entry>>) {
    forall k ::
      && (k in t <==> Occurs(xs, EntryKey, k))
      && forall i: nat, j: nat :: IsLast(xs, EntryKey, k, i, j) ==> k in t && t[k] == Row(k, i, xs[i][j].payload)
  }

  /** Each id has what its last call says, or nothing of a call. */
  ghost predicate HoldsCalls(t: map<string, EditRow>, calls: seq<seq<Call>>) {
    forall id ::
      && (id in t && !Occurs(calls, CallKey, id) ==> t[id].seqNo == t[id].timestamp == t[id].inputLength == 0)
      && forall i: nat, j: nat :: IsLast(calls, CallKey, id, i, j) ==>
           id in t && t[id].seqNo == i && t[id].timestamp == calls[i][j].timestamp && t[id].inputLength == calls[i][j].inputLength
  }

  /** And the outcome of its last result, or none. */
  ghost predicate HoldsResults(t: map<string, EditRow>, results: seq<seq<EditResult>>) {
    forall id ::
      && (id in t && !Occurs(results, ResultKey, id) ==> t[id].outcome == None)
      && forall i: nat, j: nat :: IsLast(results, ResultKey, id, i, j) ==>
           id in t && t[id].outcome == Some((results[i][j].success, results[i][j].warnings))
  }

  ghost predicate HoldsIds(t: map<string, EditRow>, calls: seq<seq<Call>>, results: seq<seq<EditResult>>) {
    forall id :: id in t <==> Occurs(calls, CallKey, id) || Occurs(results, ResultKey, id)
  }

  /** What the tables hold of these lines. */
  ghost predicate Stored(t: Tables, ls: seq<Line>) {
    && HoldsRows(t.rows, Entries(ls)) && HoldsIds(t.edits, Calls(ls), Results(ls))
    && HoldsCalls(t.edits, Calls(ls)) && HoldsResults(t.edits, Results(ls))
  }

  ghost predicate HoldsEdits(t: map<string, EditRow>, calls: seq<seq<Call>>, results: seq<seq<EditResult>>) {
    HoldsIds(t, calls, results) && HoldsCalls(t, calls) && HoldsResults(t, results)
  }

  lemma RowPut(t: map<Key, Row>, xs: seq<seq<Entry>>, e: Entry)
    requires xs != [] && HoldsRows(t, xs)
    ensures HoldsRows(t[e.key := Row(e.key, |xs| - 1, e.payload)], Extended(xs, e))
  {
    hide IsLast, Occurs;
    forall k { AfterExtending(xs, EntryKey, e, k); }
  }

  lemma CallPut(t: map<string, EditRow>, calls: seq<seq<Call>>, results: seq<seq<EditResult>>, c: Call)
    requires calls != [] && HoldsEdits(t, calls, results)
    ensures HoldsEdits(PutCall(t, EditCall(c.callId, |calls| - 1, c.timestamp, c.inputLength)), Extended(calls, c), results)
  {
    hide IsLast, Occurs;
    forall id { AfterExtending(calls, CallKey, c, id); }
  }

  lemma ResultPut(t: map<string, EditRow>, calls: seq<seq<Call>>, results: seq<seq<EditResult>>, r: EditResult)
    requires results != [] && HoldsEdits(t, calls, results)
    ensures HoldsEdits(PutResult(t, r), calls, Extended(results, r))
  {
    hide IsLast, Occurs;
    forall id { AfterExtending(results, ResultKey, r, id); }
  }

  lemma {:induction false} LineOfRows(t: map<Key, Row>, xs: seq<seq<Entry>>, es: seq<Entry>, n: nat)
    requires n <= |es| && HoldsRows(t, xs)
    ensures HoldsRows(PutRows(t, RowsOf(es, |xs|), n), xs + [es[..n]])
  {
    hide HoldsRows;
    if n == 0 {
      RowsOpened(t, xs);
      assert es[..0] == [];
    } else {
      LineOfRows(t, xs, es, n - 1);
      RowPut(PutRows(t, RowsOf(es, |xs|), n - 1), xs + [es[..n - 1]], es[n - 1]);
      ExtendedBy(xs, es, n);
    }
  }

  lemma RowsOpened(t: map<Key, Row>, xs: seq<seq<Entry>>)
    requires HoldsRows(t, xs)
    ensures HoldsRows(t, xs + [[]])
  {
    hide IsLast, Occurs;
    forall k { AfterOpening(xs, EntryKey, k); }
  }

  lemma {:induction false} LineOfCalls(t: map<string, EditRow>, calls: seq<seq<Call>>, results: seq<seq<EditResult>>, cs: seq<Call>, n: nat)
    requires n <= |cs| && HoldsEdits(t, calls, results)
    ensures HoldsEdits(PutCalls(t, CallsOf(cs, |calls|), n), calls + [cs[..n]], results)
  {
    hide HoldsEdits, PutCall;
    if n == 0 {
      CallsOpened(t, calls, results);
      assert cs[..0] == [];
    } else {
      LineOfCalls(t, calls, results, cs, n - 1);
      CallPut(PutCalls(t, CallsOf(cs, |calls|), n - 1), calls + [cs[..n - 1]], results, cs[n - 1]);
      ExtendedBy(calls, cs, n);
    }
  }

  lemma CallsOpened(t: map<string, EditRow>, calls: seq<seq<Call>>, results: seq<seq<EditResult>>)
    requires HoldsEdits(t, calls, results)
    ensures HoldsEdits(t, calls + [[]], results)
  {
    hide IsLast, Occurs;
    forall id { AfterOpening(calls, CallKey, id); }
  }

  lemma {:induction false} LineOfResults(t: map<string, EditRow>, calls: seq<seq<Call>>, results: seq<seq<EditResult>>, rs: seq<EditResult>, n: nat)
    requires n <= |rs| && HoldsEdits(t, calls, results)
    ensures HoldsEdits(PutResults(t, rs, n), calls, results + [rs[..n]])
  {
    hide HoldsEdits, PutResult;
    if n == 0 {
      ResultsOpened(t, calls, results);
      assert rs[..0] == [];
    } else {
      LineOfResults(t, calls, results, rs, n - 1);
      ResultPut(PutResults(t, rs, n - 1), calls, results + [rs[..n - 1]], rs[n - 1]);
      ExtendedBy(results, rs, n);
    }
  }

  lemma ResultsOpened(t: map<string, EditRow>, calls: seq<seq<Call>>, results: seq<seq<EditResult>>)
    requires HoldsEdits(t, calls, results)
    ensures HoldsEdits(t, calls, results + [[]])
  {
    hide IsLast, Occurs;
    forall id { AfterOpening(results, ResultKey, id); }
  }

  lemma {:induction false} RowsStored(ls: seq<Line>)
    ensures var rec := Parsed(ls, 0, 0); HoldsRows(PutRows(map[], rec.rows, |rec.rows|), Entries(ls))
  {
    hide Parsed, HoldsRows;
    if ls == [] {
      ParsedNothing(0, 0);
      NothingHeld();
    } else {
      var front, l := ls[..|ls| - 1], Last(ls);
      var r, more := Parsed(front, 0, 0), RowsOf(l.content.rows, |front|);
      RowsStored(front);
      ParsedEnds(front);
      ParsedSnoc(front, l, 0, 0);
      assert ls == front + [l];
      PutRowsConcat(map[], r.rows, more, |more|);
      LineOfRows(PutRows(map[], r.rows, |r.rows|), Entries(front), l.content.rows, |more|);
      assert l.content.rows[..|more|] == l.content.rows;
      assert Entries(ls) == Entries(front) + [l.content.rows];
    }
  }

  lemma {:induction false} CallsStored(ls: seq<Line>)
    ensures var rec := Parsed(ls, 0, 0); HoldsEdits(PutCalls(map[], rec.calls, |rec.calls|), Calls(ls), [])
  {
    hide Parsed, HoldsEdits;
    if ls == [] {
      ParsedNothing(0, 0);
      NothingHeld();
    } else {
      var front, l := ls[..|ls| - 1], Last(ls);
      var r, more := Parsed(front, 0, 0), CallsOf(l.content.calls, |front|);
      CallsStored(front);
      ParsedEnds(front);
      ParsedSnoc(front, l, 0, 0);
      assert ls == front + [l];
      PutCallsConcat(map[], r.calls, more, |more|);
      LineOfCalls(PutCalls(map[], r.calls, |r.calls|), Calls(front), [], l.content.calls, |more|);
      assert l.content.calls[..|more|] == l.content.calls;
      assert Calls(ls) == Calls(front) + [l.content.calls];
    }
  }

  lemma {:induction false} ResultsStored(ls: seq<Line>, t: map<string, EditRow>, calls: seq<seq<Call>>)
    requires HoldsEdits(t, calls, [])
    ensures var rec := Parsed(ls, 0, 0); HoldsEdits(PutResults(t, rec.results, |rec.results|), calls, Results(ls))
  {
    hide Parsed, HoldsEdits;
    if ls == [] {
      ParsedNothing(0, 0);
      NothingHeld();
    } else {
      var front, l := ls[..|ls| - 1], Last(ls);
      var r, more := Parsed(front, 0, 0), l.content.results;
      ResultsStored(front, t, calls);
      ParsedSnoc(front, l, 0, 0);
      assert ls == front + [l];
      PutResultsConcat(t, r.results, more, |more|);
      LineOfResults(PutResults(t, r.results, |r.results|), calls, Results(front), more, |more|);
      assert more[..|more|] == more;
      assert Results(ls) == Results(front) + [more];
    }
  }

  lemma NothingHeld()
    ensures Entries([]) == [] && Calls([]) == [] && Results([]) == []
    ensures HoldsRows(map[], []) && HoldsEdits(map[], [], [])
  {
  }

  /** One batch of lines leaves exactly the last of what they say for each key. */
  lemma WrittenIs(ls: seq<Line>)
    ensures Stored(Written(EMPTY, Parsed(ls, 0, 0)), ls)
  {
    hide Parsed, PutRows, PutCalls, PutResults, HoldsRows, HoldsIds, HoldsCalls, HoldsResults;
    RowsStored(ls);
    CallsStored(ls);
    var rec := Parsed(ls, 0, 0);
    ResultsStored(ls, PutCalls(map[], rec.calls, |rec.calls|), Calls(ls));
  }

  /** What the first of the lines says of the session, if it is the first of the file. */
  function HeaderIn(ls: seq<Line>, m: nat): Header {
    if m == 0 && ls != [] && ls[0].content.header.Some? then ls[0].content.header.value else NO_HEADER
  }

  lemma {:induction false} HeaderIs(ls: seq<Line>, m: nat, at: nat)
    ensures Parsed(ls, m, at).header == HeaderIn(ls, m) && Parsed(ls, m, at).lines == m + |ls|
  {
    if ls != [] { HeaderIs(ls[..|ls| - 1], m, at); }
  }

  /** The line that begins at `at`: up to the next newline, or to the end. */
  predicate IsLine(file: seq<Byte>, read: Reader, at: nat, l: Line) {
    && 0 < l.length <= |file| - at && l.content == read(file[at..at + l.length])
    && (forall i :: at <= i < at + l.length - 1 ==> file[i] != NEWLINE)
    && (at + l.length < |file| ==> file[at + l.length - 1] == NEWLINE)
  }

  lemma {:induction false} LineEndIs(file: seq<Byte>, i: nat)
    requires i < |file|
    ensures var e := LineEnd(file, i); (forall k :: i <= k < e - 1 ==> file[k] != NEWLINE) && (e < |file| ==> file[e - 1] == NEWLINE)
    decreases |file| - i
  {
    if file[i] != NEWLINE && i + 1 < |file| { LineEndIs(file, i + 1); }
  }

  lemma FirstIsLine(file: seq<Byte>, read: Reader)
    requires file != []
    ensures var e := LineEnd(file, 0); IsLine(file, read, 0, Line(e, read(file[..e])))
  {
    LineEndIs(file, 0);
    hide LineEnd;
    assert file[0..LineEnd(file, 0)] == file[..LineEnd(file, 0)];
  }

  /** The lines follow one another, and together are the file. */
  lemma {:induction false} LinesAre(file: seq<Byte>, read: Reader)
    ensures var ls := LinesOf(file, read); Offset(ls) == |file| && forall n :: 0 <= n < |ls| ==> IsLine(file, read, Offset(ls[..n]), ls[n])
    decreases |file|
  {
    hide Offset, IsLine, LineEnd;
    NoOffset();
    if file != [] {
      var e := LineEnd(file, 0);
      var rest, first := file[e..], Line(e, read(file[..e]));
      var more, ls := LinesOf(rest, read), LinesOf(file, read);
      LinesAre(rest, read);
      FirstIsLine(file, read);
      OffsetSnoc([], first);
      OffsetConcat([first], more);
      assert [] + [first] == [first];
      forall n | 0 <= n < |ls| ensures IsLine(file, read, Offset(ls[..n]), ls[n]) {
        if n == 0 {
          assert ls[..0] == [];
        } else {
          assert ls[..n] == [first] + more[..n - 1];
          OffsetConcat([first], more[..n - 1]);
          LineFrom(file, read, e, Offset(more[..n - 1]), ls[n]);
        }
      }
    }
  }

  lemma LineFrom(file: seq<Byte>, read: Reader, e: nat, at: nat, l: Line)
    requires e <= |file| && IsLine(file[e..], read, at, l)
    ensures IsLine(file, read, e + at, l)
  {
    var rest := file[e..];
    assert rest[at..at + l.length] == file[e + at..e + at + l.length];
    forall i | e + at <= i < e + at + l.length - 1 ensures file[i] != NEWLINE { assert rest[i - e] == file[i]; }
    if e + at + l.length < |file| { assert rest[at + l.length - 1] == file[e + at + l.length - 1]; }
  }

  lemma NoOffset()
    ensures Offset([]) == 0
  {
  }

  lemma {:induction false} OffsetConcat(a: seq<Line>, b: seq<Line>)
    ensures Offset(a + b) == Offset(a) + Offset(b)
  {
    if b == [] {
      AddNothing(a);
    } else {
      OffsetConcat(a, b[..|b| - 1]);
      assert (a + b)[..|a + b| - 1] == a + b[..|b| - 1];
    }
  }
}
