/** Incremental ingestion of a growing session file, against one full rebuild. */
module Sync {
  import opened Options
  import opened Sequences
  import opened Utf
  import opened SyncTables

  // ----- the database ------------------------------------------------------------------------

  datatype SessionRow = SessionRow(header: Header, mtime: nat, size: nat, offset: nat, lines: nat, parserVersion: nat)
  datatype Decision = Skip | Ingest(rebuild: bool, offset: nat, line: nat)

  const EDIT_PARSER_VERSION: nat := 6

  function Coalesce<T>(a: Option<T>, b: Option<T>): Option<T> {
    if a.Some? then a else b
  }

  function CoalesceHeader(a: Header, b: Header): Header {
    Header(Coalesce(a.startedAt, b.startedAt), Coalesce(a.title, b.title), Coalesce(a.cwd, b.cwd), Coalesce(a.uuid, b.uuid),
           Coalesce(a.version, b.version))
  }

  function DecideAction(prev: Option<SessionRow>, size: nat, mtime: nat, full: bool): Decision {
    if full || prev == None then Ingest(true, 0, 0)
    else if prev.value.parserVersion < EDIT_PARSER_VERSION then Ingest(true, 0, 0)
    else if size == prev.value.size && mtime <= prev.value.mtime then Skip
    else if size < prev.value.offset then Ingest(true, 0, 0)
    else if size == prev.value.offset && mtime > prev.value.mtime then Ingest(true, 0, 0)
    else Ingest(false, prev.value.offset, prev.value.lines)
  }

  function HeaderOf(session: Option<SessionRow>): Header {
    if session.Some? then session.value.header else NO_HEADER
  }

  /** One sync: nothing is done, or the file is read anew, or read on from where it ended before. */
  ghost predicate Synced(was: Option<SessionRow>, ls: seq<Line>, file: seq<Byte>, read: Reader, mtime: nat, full: bool,
                         now: Option<SessionRow>, ls': seq<Line>) {
    && now.Some? && now.value.size == now.value.offset == |file| && now.value.parserVersion == EDIT_PARSER_VERSION
    && match DecideAction(was, |file|, mtime, full) {
         case Skip => now == was && ls' == ls
         case Ingest(rebuild, offset, line) =>
           var more := if offset <= |file| then LinesOf(file[offset..], read) else [];
           && now.value.mtime == mtime && ls' == (if rebuild then [] else ls) + more
           && now.value.header == CoalesceHeader(HeaderIn(more, line), HeaderOf(was))
       }
  }

  /** The part of the database that belongs to one session file. */
  class Database {
    var tables: Tables
    var session: Option<SessionRow>
    /** The lines as they were read since the last rebuild. */
    ghost var lines: seq<Line>

    constructor ()
      ensures Valid() && session == None
    {
      tables, session, lines := EMPTY, None, [];
    }

    /** The tables are those of one batch of all the lines that were read, unless an older parser read them. */
    ghost predicate Valid()
      reads this
    {
      session.Some? && session.value.parserVersion >= EDIT_PARSER_VERSION ==> HoldsLines(lines)
    }

    ghost predicate HoldsLines(ls: seq<Line>)
      reads this
    {
      && tables == Written(EMPTY, Parsed(ls, 0, 0)) && session.Some? && session.value.lines == |ls|
      && session.value.offset == session.value.size == Offset(ls) && session.value.parserVersion == EDIT_PARSER_VERSION
    }

    /** The database is what one full rebuild from these lines leaves in an empty one, row for row. */
    ghost predicate Mirrors(ls: seq<Line>)
      reads this
    {
      HoldsLines(ls) && session.value.header == HeaderIn(ls, 0)
    }

    method WriteRecords(rec: Records, rebuild: bool, size: nat, mtime: nat)
      modifies this
      ensures tables == Written(if rebuild then EMPTY else old(tables), rec) && lines == old(lines)
      ensures session == Some(SessionRow(CoalesceHeader(rec.header, HeaderOf(old(session))), mtime, size, rec.offset, rec.lines, EDIT_PARSER_VERSION))
    {
      var t := if rebuild then EMPTY else tables;
      tables := Written(t, rec);
      session := Some(SessionRow(CoalesceHeader(rec.header, HeaderOf(session)), mtime, size, rec.offset, rec.lines, EDIT_PARSER_VERSION));
    }

    /** One sync of the file as it is now, whatever became of it since the last one. */
    method SyncFile(file: seq<Byte>, read: Reader, mtime: nat, full: bool)
      requires Valid()
      modifies this
      ensures Valid() && Synced(old(session), old(lines), file, read, mtime, full, session, lines)
      ensures Stored(tables, lines)
      ensures full || old(session) == None || old(session).value.parserVersion < EDIT_PARSER_VERSION || |file| < old(session).value.offset ==>
                lines == LinesOf(file, read)
    {
      hide Parsed, Written, CoalesceHeader, LinesOf, Offset, Stored, HeaderIn, IsLine;
      match DecideAction(session, |file|, mtime, full) {
        case Skip =>
        case Ingest(rebuild, offset, line) =>
          var rec := ParseFile(file, read, offset, line);
          ghost var more := LinesOf(file[offset..], read);
          ghost var before := if rebuild then [] else lines;
          assert before == [] ==> Offset(before) == 0 by { NoOffset(); }
          LinesAre(file[offset..], read);
          HeaderIs(more, line, offset);
          OffsetConcat(before, more);
          ParsedConcat(before, more);
          TwoBatches(before, more);
          NothingWritten();
          WriteRecords(rec, rebuild, |file|, mtime);
          lines := before + more;
      }
      WrittenIs(lines);
    }
  }

  lemma NothingWritten()
    ensures Written(EMPTY, Parsed([], 0, 0)) == EMPTY
  {
  }

  // ----- a growing file, seen at any sizes ------------------------------------------------------

  datatype Observation = Observation(size: nat, mtime: nat, full: bool)

  /** An append-only file. */
  predicate Growing(obs: seq<Observation>, size: nat) {
    forall i, j :: 0 <= i <= j < |obs| ==> obs[i].size <= obs[j].size <= size
  }

  /** The modification time on record after the first `n` syncs. */
  function StoredTime(obs: seq<Observation>, n: nat): nat
    requires 0 < n <= |obs|
    decreases n, 0
  {
    if n > 1 && Skips(obs, n - 1) then StoredTime(obs, n - 1) else obs[n - 1].mtime
  }

  predicate Skips(obs: seq<Observation>, i: nat)
    requires 0 < i < |obs|
    decreases i, 1
  {
    !obs[i].full && obs[i].size == obs[i - 1].size && obs[i].mtime <= StoredTime(obs, i)
  }

  /** The sync reads the whole file anew. */
  predicate Rebuilds(obs: seq<Observation>, i: nat)
    requires i < |obs|
  {
    i == 0 || obs[i].full || (obs[i].size == obs[i - 1].size && obs[i].mtime > StoredTime(obs, i))
  }

  predicate FromStart(obs: seq<Observation>, i: nat)
    requires i < |obs|
  {
    Rebuilds(obs, i) || obs[i - 1].size == 0
  }

  /** Since the last rebuild a sync has read on from the middle of a line. */
  predicate Broken(file: seq<Byte>, obs: seq<Observation>, n: nat)
    requires n <= |obs| && Growing(obs, |file|)
  {
    && n > 1 && !Rebuilds(obs, n - 1)
    && (Broken(file, obs, n - 1) || (obs[n - 2].size < obs[n - 1].size && !Whole(file[..obs[n - 2].size])))
  }

  /** What the first line says of the session, as far as it has been written when the file is seen. */
  function Told(file: seq<Byte>, read: Reader, obs: seq<Observation>, i: nat): Header
    requires i < |obs| && Growing(obs, |file|)
  {
    HeaderIn(LinesOf(file[..obs[i].size], read), 0)
  }

  function ToldSoFar(file: seq<Byte>, read: Reader, obs: seq<Observation>, n: nat): Header
    requires n <= |obs| && Growing(obs, |file|)
  {
    if n == 0 then NO_HEADER
    else if FromStart(obs, n - 1) then CoalesceHeader(Told(file, read, obs, n - 1), ToldSoFar(file, read, obs, n - 1))
    else ToldSoFar(file, read, obs, n - 1)
  }

  /** `b` says nothing that `a` leaves open. */
  predicate NoMore(a: Header, b: Header) {
    CoalesceHeader(a, b) == a
  }

  /** The first line, when it was read unfinished, said nothing that it does not say now. */
  ghost predicate FirstLineKept(file: seq<Byte>, read: Reader, obs: seq<Observation>, n: nat)
    requires 0 < n <= |obs| && Growing(obs, |file|)
  {
    forall i :: 0 <= i < n && FromStart(obs, i) ==> NoMore(Told(file, read, obs, n - 1), Told(file, read, obs, i))
  }

  lemma {:induction false} ToldIff(file: seq<Byte>, read: Reader, obs: seq<Observation>, n: nat, h: Header)
    requires n <= |obs| && Growing(obs, |file|)
    ensures NoMore(h, ToldSoFar(file, read, obs, n)) <==> forall i :: 0 <= i < n && FromStart(obs, i) ==> NoMore(h, Told(file, read, obs, i))
  {
    hide Told, FromStart;
    if n > 0 { ToldIff(file, read, obs, n - 1, h); }
  }

  /** Seen when it was whole and not empty, a file goes on telling the same. */
  lemma ToldStays(file: seq<Byte>, read: Reader, obs: seq<Observation>, i: nat, j: nat)
    requires i <= j < |obs| && Growing(obs, |file|)
    requires obs[i].size == obs[j].size || Whole(file[..obs[i].size])
    ensures obs[i].size == 0 ==> Told(file, read, obs, i) == NO_HEADER
    ensures obs[i].size > 0 ==> Told(file, read, obs, j) == Told(file, read, obs, i)
  {
    hide Parsed;
    ParsedNothing(0, 0);
    var p, s := obs[i].size, obs[j].size;
    if p < s {
      assert file[..p] + file[p..s] == file[..s];
      LinesConcat(file[..p], file[p..s], read);
      ParsedConcat(LinesOf(file[..p], read), LinesOf(file[p..s], read));
    }
  }

  /** Where no line was broken, what the first line says now is on record. */
  lemma {:induction false} ToldOnTop(file: seq<Byte>, read: Reader, obs: seq<Observation>, n: nat)
    requires 0 < n <= |obs| && Growing(obs, |file|) && !Broken(file, obs, n)
    ensures ToldSoFar(file, read, obs, n) == CoalesceHeader(Told(file, read, obs, n - 1), ToldSoFar(file, read, obs, n))
  {
    hide Told, Whole;
    if !FromStart(obs, n - 1) {
      ToldOnTop(file, read, obs, n - 1);
      ToldStays(file, read, obs, n - 2, n - 1);
    }
  }

  /** The lines that were read are those of the file, or else too many. */
  ghost predicate ReadAs(ls: seq<Line>, file: seq<Byte>, read: Reader, obs: seq<Observation>, n: nat)
    requires 0 < n <= |obs| && Growing(obs, |file|)
  {
    var all := LinesOf(file[..obs[n - 1].size], read);
    if Broken(file, obs, n) then |ls| > |all| else ls == all
  }

  /** One sync more. */
  lemma ReadOn(ls: seq<Line>, file: seq<Byte>, read: Reader, obs: seq<Observation>, n: nat)
    requires 0 < n < |obs| && Growing(obs, |file|) && ReadAs(ls, file, read, obs, n) && !Rebuilds(obs, n)
    ensures ReadAs(ls + LinesOf(file[..obs[n].size][obs[n - 1].size..], read), file, read, obs, n + 1)
    ensures Skips(obs, n) ==> ReadAs(ls, file, read, obs, n + 1)
  {
    hide Whole, LinesOf, StoredTime, Rebuilds;
    var p, s := obs[n - 1].size, obs[n].size;
    assert p <= s;
    var more := file[..s][p..];
    assert file[..s] == file[..p] + more;
    LinesConcat(file[..p], more, read);
    SomeLines(more, read);
    AddNothing(ls);
  }

  /** What is on record after the first `n` syncs. */
  ghost predicate Recorded(session: Option<SessionRow>, file: seq<Byte>, read: Reader, obs: seq<Observation>, n: nat)
    requires 0 < n <= |obs| && Growing(obs, |file|)
  {
    && session.Some? && session.value.size == session.value.offset == obs[n - 1].size && session.value.mtime == StoredTime(obs, n)
    && session.value.parserVersion == EDIT_PARSER_VERSION && session.value.header == ToldSoFar(file, read, obs, n)
  }

  lemma SyncedFirst(was: Option<SessionRow>, ls: seq<Line>, now: Option<SessionRow>, ls': seq<Line>, file: seq<Byte>, read: Reader, obs: seq<Observation>)
    requires obs != [] && Growing(obs, |file|) && was == None
    requires Synced(was, ls, file[..obs[0].size], read, obs[0].mtime, obs[0].full, now, ls')
    ensures now.Some? && now.value.parserVersion == EDIT_PARSER_VERSION && Recorded(now, file, read, obs, 1) && ReadAs(ls', file, read, obs, 1)
  {
    hide LinesOf, Parsed;
    var seen := file[..obs[0].size];
    assert seen[0..] == seen;
    AddNothing(LinesOf(seen, read));
    assert ToldSoFar(file, read, obs, 0) == NO_HEADER;
  }

  lemma SyncedNext(was: Option<SessionRow>, ls: seq<Line>, now: Option<SessionRow>, ls': seq<Line>, file: seq<Byte>, read: Reader, obs: seq<Observation>, i: nat)
    requires 0 < i < |obs| && Growing(obs, |file|) && Recorded(was, file, read, obs, i) && ReadAs(ls, file, read, obs, i) && was.value.lines == |ls|
    requires Synced(was, ls, file[..obs[i].size], read, obs[i].mtime, obs[i].full, now, ls')
    ensures now.Some? && now.value.parserVersion == EDIT_PARSER_VERSION && Recorded(now, file, read, obs, i + 1) && ReadAs(ls', file, read, obs, i + 1)
  {
    hide LinesOf, Parsed, CoalesceHeader;
    var seen, p := file[..obs[i].size], obs[i - 1].size;
    assert p <= |seen|;
    assert seen[0..] == seen;
    AddNothing(LinesOf(seen, read));
    LinesRead(ls, file, read, obs, i);
    NothingTold(was.value.header);
    SomeLines(seen, read);
    ParsedNothing(0, 0);
    if !Rebuilds(obs, i) { ReadOn(ls, file, read, obs, i); }
    assert now.value.mtime == StoredTime(obs, i + 1);
    if Rebuilds(obs, i) || p == 0 {
      assert now.value.header == ToldSoFar(file, read, obs, i + 1);
    } else {
      assert ToldSoFar(file, read, obs, i + 1) == ToldSoFar(file, read, obs, i);
    }
  }

  lemma NothingTold(h: Header)
    ensures CoalesceHeader(NO_HEADER, h) == h
  {
  }

  lemma {:induction false} BrokenNotEmpty(file: seq<Byte>, obs: seq<Observation>, n: nat)
    requires 0 < n <= |obs| && Growing(obs, |file|)
    ensures obs[n - 1].size == 0 ==> !Broken(file, obs, n)
  {
    if n > 1 { BrokenNotEmpty(file, obs, n - 1); }
  }

  lemma SomeLines(file: seq<Byte>, read: Reader)
    ensures LinesOf(file, read) == [] <==> file == []
  {
  }

  /** Lines have been read exactly if there was anything to read. */
  lemma LinesRead(ls: seq<Line>, file: seq<Byte>, read: Reader, obs: seq<Observation>, n: nat)
    requires 0 < n <= |obs| && Growing(obs, |file|) && ReadAs(ls, file, read, obs, n)
    ensures ls == [] <==> obs[n - 1].size == 0
  {
    hide LinesOf, Broken;
    SomeLines(file[..obs[n - 1].size], read);
    BrokenNotEmpty(file, obs, n);
  }

  /** The lines and the header on record are those of the file exactly if no line was broken and the first one kept. */
  lemma MatchesIff(ls: seq<Line>, header: Header, file: seq<Byte>, read: Reader, obs: seq<Observation>)
    requires obs != [] && Growing(obs, |file|) && ReadAs(ls, file, read, obs, |obs|) && header == ToldSoFar(file, read, obs, |obs|)
    ensures var all := LinesOf(file[..Last(obs).size], read);
            && (|ls| == |all| ==> ls == all)
            && (ls == all && header == HeaderIn(all, 0) <==> !Broken(file, obs, |obs|) && FirstLineKept(file, read, obs, |obs|))
  {
    hide LinesOf, Parsed, Broken, ToldSoFar, CoalesceHeader, FromStart;
    var n := |obs|;
    var now := Told(file, read, obs, n - 1);
    ToldIff(file, read, obs, n, now);
    CoalesceSame(now);
    if !Broken(file, obs, n) { ToldOnTop(file, read, obs, n); }
  }

  lemma OnRecord(session: Option<SessionRow>, file: seq<Byte>, read: Reader, obs: seq<Observation>)
    requires obs != [] && Growing(obs, |file|) && Recorded(session, file, read, obs, |obs|)
    ensures session.Some? && session.value.header == ToldSoFar(file, read, obs, |obs|)
  {
  }

  lemma CoalesceSame(h: Header)
    ensures CoalesceHeader(h, h) == h
  {
  }

  /**
   Any number of syncs, at any sizes the file grew through, with any modification times, forced or not.  The
   database ends as one full rebuild of what was seen last would leave it, exactly if no sync since the last
   rebuild read on from the middle of a line, and the first line never said what it does not say now.
   */
  method SyncMany(file: seq<Byte>, read: Reader, obs: seq<Observation>) returns (db: Database)
    requires obs != [] && Growing(obs, |file|)
    ensures fresh(db) && db.Valid()
    ensures var seen := LinesOf(file[..Last(obs).size], read);
            && (db.Mirrors(seen) <==> !Broken(file, obs, |obs|) && FirstLineKept(file, read, obs, |obs|))
            && (db.Mirrors(seen) ==> Stored(db.tables, seen)) && Stored(db.tables, db.lines)
  {
    hide LinesOf, Parsed, Written, Recorded, Synced, ReadAs, Broken, FirstLineKept, Stored;
    db := new Database();
    for i := 0 to |obs|
      invariant fresh(db) && db.Valid()
      invariant if i == 0 then db.session == None else db.session.Some? && db.session.value.parserVersion == EDIT_PARSER_VERSION
                                                       && Recorded(db.session, file, read, obs, i) && ReadAs(db.lines, file, read, obs, i)
    {
      assert i > 0 ==> db.HoldsLines(db.lines);
      ghost var session, ls := db.session, db.lines;
      db.SyncFile(file[..obs[i].size], read, obs[i].mtime, obs[i].full);
      if i == 0 {
        SyncedFirst(session, ls, db.session, db.lines, file, read, obs);
      } else {
        SyncedNext(session, ls, db.session, db.lines, file, read, obs, i);
      }
    }
    WrittenIs(db.lines);
    WrittenIs(LinesOf(file[..Last(obs).size], read));
    OnRecord(db.session, file, read, obs);
    MatchesIff(db.lines, db.session.value.header, file, read, obs);
  }

  /** Seen at line ends only, a file is mirrored. */
  lemma LineEndsSuffice(file: seq<Byte>, read: Reader, obs: seq<Observation>)
    requires obs != [] && Growing(obs, |file|) && forall i :: 0 <= i < |obs| ==> Whole(file[..obs[i].size])
    ensures !Broken(file, obs, |obs|) && FirstLineKept(file, read, obs, |obs|)
  {
    hide Whole, Told, Broken;
    NeverBroken(file, obs, |obs|);
    forall i | 0 <= i < |obs| && FromStart(obs, i) ensures NoMore(Told(file, read, obs, |obs| - 1), Told(file, read, obs, i)) {
      ToldStays(file, read, obs, i, |obs| - 1);
    }
  }

  lemma {:induction false} NeverBroken(file: seq<Byte>, obs: seq<Observation>, n: nat)
    requires n <= |obs| && Growing(obs, |file|) && forall i :: 0 <= i < |obs| ==> Whole(file[..obs[i].size])
    ensures !Broken(file, obs, n)
  {
    hide Whole;
    if n > 0 { NeverBroken(file, obs, n - 1); }
  }

  /** Any file seen once in the middle of a line, and then as a whole, is not mirrored, unless it is read anew. */
  lemma SeenUnfinished(file: seq<Byte>, k: nat, mtime: nat, mtime': nat, full: bool)
    requires k < |file| && !Whole(file[..k])
    ensures Broken(file, [Observation(k, mtime, false), Observation(|file|, mtime', full)], 2) <==> !full
  {
  }
}
