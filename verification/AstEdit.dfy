/**
 Editing many files at once: matches are found and staged file by file, and nothing is written before
 the whole pass has succeeded.
 */
module AstEdit {
  import opened Utf
  import opened Sorting
  import opened Edits
  import opened Chained

  datatype Candidate = Candidate(path: string, display: string)
  datatype Change = Change(display: string, edit: Edit)
  datatype Write = Write(path: string, output: seq<Byte>)

  type Files = map<string, seq<Byte>>

  datatype Report = Report(fileCounts: map<string, nat>, filesTouched: nat, filesSearched: nat, applied: bool, limitReached: bool,
                           issues: nat, changes: seq<Change>)

  /** `Failed` is any error before the first write; `WriteFailed(n)` is one after `n` writes. */
  datatype Outcome = Done(report: Report) | Failed | WriteFailed(written: nat)

  /** The parser and the matcher, and what can be written. */
  datatype Oracle = Oracle(parses: seq<Byte> -> bool, findAll: (seq<Byte>, nat) -> seq<Edit>, writable: string -> bool)

  class Disk {
    var files: Files

    constructor (files: Files)
      ensures this.files == files
    {
      this.files := files;
    }
  }

  // ----- what there is to change -------------------------------------------------------

  /** The matches of the rules that compiled, rule by rule. */
  function FileMatches(o: Oracle, rules: seq<bool>, source: seq<Byte>, n: nat): seq<Edit>
    requires n <= |rules|
  {
    if n == 0 then [] else FileMatches(o, rules, source, n - 1) + if rules[n - 1] then o.findAll(source, n - 1) else []
  }

  /** What each rule finds; one that did not compile finds nothing. */
  function Found(o: Oracle, rules: seq<bool>, source: seq<Byte>): (xss: seq<seq<Edit>>)
    ensures |xss| == |rules| && forall k :: 0 <= k < |rules| ==> xss[k] == if rules[k] then o.findAll(source, k) else []
  {
    seq(|rules|, k requires 0 <= k < |rules| => if rules[k] then o.findAll(source, k) else [])
  }

  /** The matches of a file are exactly what the rules find, in the order of the rules and of each rule's matches. */
  lemma {:induction false} MatchesAre(o: Oracle, rules: seq<bool>, source: seq<Byte>, n: nat) returns (at: seq<Place>)
    requires n <= |rules|
    ensures IsChain(Found(o, rules, source), n, FileMatches(o, rules, source, n), at)
  {
    hide IsChain;
    var xss := Found(o, rules, source);
    if n == 0 {
      at := [];
      ChainStarts(xss);
    } else {
      at := MatchesAre(o, rules, source, n - 1);
      ChainOn(xss, n - 1, FileMatches(o, rules, source, n - 1), at);
      at := at + PlacesIn(n - 1, xss[n - 1]);
    }
  }

  /** A file that can be read and parsed. */
  predicate Usable(o: Oracle, files: Files, c: Candidate) {
    c.path in files && ValidUtf8(files[c.path]) && o.parses(files[c.path])
  }

  function Matches(o: Oracle, rules: seq<bool>, files: Files, c: Candidate): seq<Edit> {
    if Usable(o, files, c) then FileMatches(o, rules, files[c.path], |rules|) else []
  }

  function Tagged(display: string, edits: seq<Edit>): (cs: seq<Change>)
    ensures |cs| == |edits| && forall i :: 0 <= i < |cs| ==> cs[i] == Change(display, edits[i])
  {
    seq(|edits|, i requires 0 <= i < |edits| => Change(display, edits[i]))
  }

  /** Every change there is to make in the first `n` candidates. */
  function AllChanges(o: Oracle, rules: seq<bool>, files: Files, cs: seq<Candidate>, n: nat): seq<Change>
    requires n <= |cs|
  {
    if n == 0 then [] else AllChanges(o, rules, files, cs, n - 1) + Tagged(cs[n - 1].display, Matches(o, rules, files, cs[n - 1]))
  }

  function Offered(o: Oracle, rules: seq<bool>, files: Files, cs: seq<Candidate>): (xss: seq<seq<Change>>)
    ensures |xss| == |cs| && forall i :: 0 <= i < |cs| ==> xss[i] == Tagged(cs[i].display, Matches(o, rules, files, cs[i]))
  {
    seq(|cs|, i requires 0 <= i < |cs| => Tagged(cs[i].display, Matches(o, rules, files, cs[i])))
  }

  /** The changes there are to make are those that the candidates offer, in their order. */
  lemma {:induction false} ChangesAre(o: Oracle, rules: seq<bool>, files: Files, cs: seq<Candidate>, n: nat) returns (at: seq<Place>)
    requires n <= |cs|
    ensures IsChain(Offered(o, rules, files, cs), n, AllChanges(o, rules, files, cs, n), at)
  {
    hide IsChain, Matches;
    var xss := Offered(o, rules, files, cs);
    if n == 0 {
      at := [];
      ChainStarts(xss);
    } else {
      at := ChangesAre(o, rules, files, cs, n - 1);
      ChainOn(xss, n - 1, AllChanges(o, rules, files, cs, n - 1), at);
      at := at + PlacesIn(n - 1, xss[n - 1]);
    }
  }

  lemma {:induction false} AllChangesGrow(o: Oracle, rules: seq<bool>, files: Files, cs: seq<Candidate>, m: nat, n: nat)
    requires m <= n <= |cs|
    ensures AllChanges(o, rules, files, cs, m) <= AllChanges(o, rules, files, cs, n)
  {
    if m < n { AllChangesGrow(o, rules, files, cs, m, n - 1); }
  }

  /** The matches of one file, as far as `room` goes; `reached` if there is one too many. */
  method TakeMatches(o: Oracle, rules: seq<bool>, source: seq<Byte>, room: nat) returns (valid: bool, taken: seq<Edit>, reached: bool)
    ensures valid ==> taken <= FileMatches(o, rules, source, |rules|) && |taken| <= room
    ensures valid ==> (reached <==> |FileMatches(o, rules, source, |rules|)| > room)
    ensures valid && !reached ==> taken == FileMatches(o, rules, source, |rules|)
    ensures valid && reached ==> |taken| == room
    ensures valid ==> forall e :: e in taken ==> ValidUtf8(e.inserted)
    ensures !valid ==> exists e :: e in FileMatches(o, rules, source, |rules|) && !ValidUtf8(e.inserted)
  {
    hide ValidUtf8;
    valid, taken, reached := true, [], false;
    for r := 0 to |rules|
      invariant valid && !reached && taken == FileMatches(o, rules, source, r) && |taken| <= room
      invariant forall e :: e in taken ==> ValidUtf8(e.inserted)
    {
      MatchesGrow(o, rules, source, r + 1, |rules|);
      if rules[r] {
        var found := o.findAll(source, r);
        ghost var all := FileMatches(o, rules, source, |rules|);
        var before := taken;
        for m := 0 to |found|
          invariant taken == before + found[..m] && |taken| <= room
          invariant forall e :: e in taken ==> ValidUtf8(e.inserted)
        {
          assert before + found == FileMatches(o, rules, source, r + 1) && all[|before| + m] == found[m];
          if |taken| >= room {
            reached := true;
            return;
          }
          if !ValidUtf8(found[m].inserted) {
            valid := false;
            return;
          }
          taken := taken + [found[m]];
        }
      }
    }
  }

  lemma {:induction false} MatchesGrow(o: Oracle, rules: seq<bool>, source: seq<Byte>, m: nat, n: nat)
    requires m <= n <= |rules|
    ensures FileMatches(o, rules, source, m) <= FileMatches(o, rules, source, n)
  {
    if m < n { MatchesGrow(o, rules, source, m, n - 1); }
  }

  // ----- the writes ------------------------------------------------------------------

  function Flushed(files: Files, ws: seq<Write>, n: nat): Files
    requires n <= |ws|
  {
    if n == 0 then files else Flushed(files, ws, n - 1)[ws[n - 1].path := ws[n - 1].output]
  }

  method Flush(disk: Disk, o: Oracle, ws: seq<Write>) returns (written: nat)
    modifies disk
    ensures written <= |ws| && disk.files == Flushed(old(disk.files), ws, written)
    ensures written < |ws| ==> !o.writable(ws[written].path)
    ensures forall i :: 0 <= i < written ==> o.writable(ws[i].path)
  {
    written := 0;
    while written < |ws|
      invariant written <= |ws| && disk.files == Flushed(old(disk.files), ws, written)
      invariant forall i :: 0 <= i < written ==> o.writable(ws[i].path)
    {
      if !o.writable(ws[written].path) {
        return;
      }
      disk.files := disk.files[ws[written].path := ws[written].output];
      written := written + 1;
    }
  }

  // ----- the pass --------------------------------------------------------------------

  /** `output` is `source` with the edits made. */
  ghost predicate IsEdited(source: seq<Byte>, edits: seq<Edit>, output: seq<Byte>) {
    var es := Sort(edits, PositionKey);
    InTurn(es) && Fit(es, source) && output == Weave(source, es, 0, 0)
  }

  ghost predicate Distinct(cs: seq<Candidate>) {
    forall i, j :: 0 <= i < j < |cs| ==> cs[i].path != cs[j].path && cs[i].display != cs[j].display
  }

  /** The changes taken from each of the first `n` candidates, one after the other. */
  function TakenChanges(cs: seq<Candidate>, taken: seq<seq<Edit>>, n: nat): seq<Change>
    requires n <= |cs| && n <= |taken|
  {
    if n == 0 then [] else TakenChanges(cs, taken, n - 1) + Tagged(cs[n - 1].display, taken[n - 1])
  }

  lemma {:induction false} TakenPrefix(cs: seq<Candidate>, a: seq<seq<Edit>>, b: seq<seq<Edit>>, n: nat)
    requires n <= |cs| && n <= |a| && n <= |b| && a[..n] == b[..n]
    ensures TakenChanges(cs, a, n) == TakenChanges(cs, b, n)
  {
    if n > 0 {
      assert a[..n - 1] == a[..n][..n - 1] && b[..n - 1] == b[..n][..n - 1] && a[..n][n - 1] == b[..n][n - 1];
      TakenPrefix(cs, a, b, n - 1);
    }
  }

  /** How many files were touched, and how many changes they have between them. */
  function CountTouched(taken: seq<seq<Edit>>, n: nat): nat
    requires n <= |taken|
  {
    if n == 0 then 0 else CountTouched(taken, n - 1) + if taken[n - 1] == [] then 0 else 1
  }

  predicate Touched(cs: seq<Candidate>, taken: seq<seq<Edit>>, i: int) {
    0 <= i < |taken| && i < |cs| && taken[i] != []
  }

  ghost predicate DisplayTouched(cs: seq<Candidate>, taken: seq<seq<Edit>>, d: string) {
    exists i :: Touched(cs, taken, i) && cs[i].display == d
  }

  ghost predicate PathTouched(cs: seq<Candidate>, taken: seq<seq<Edit>>, p: string) {
    exists i :: Touched(cs, taken, i) && cs[i].path == p
  }

  /** The per-file counts: one entry for every file touched, holding the number of its changes. */
  ghost predicate Counts(cs: seq<Candidate>, taken: seq<seq<Edit>>, counts: map<string, nat>) {
    && (forall d :: d in counts <==> DisplayTouched(cs, taken, d))
    && (forall i :: Touched(cs, taken, i) ==> cs[i].display in counts && counts[cs[i].display] == |taken[i]|)
  }

  /** What the pending writes would leave on disk: the touched files edited, all others as they were. */
  ghost predicate Staged(files: Files, cs: seq<Candidate>, taken: seq<seq<Edit>>, after: Files) {
    && (forall p :: p in after <==> p in files)
    && (forall p :: p in files && !PathTouched(cs, taken, p) ==> after[p] == files[p])
    && (forall i :: Touched(cs, taken, i) ==> cs[i].path in files && IsEdited(files[cs[i].path], taken[i], after[cs[i].path]))
  }

  lemma {:induction false} TouchedPrefix(a: seq<seq<Edit>>, b: seq<seq<Edit>>, n: nat)
    requires n <= |a| && n <= |b| && forall i :: 0 <= i < n ==> a[i] == b[i]
    ensures CountTouched(a, n) == CountTouched(b, n)
  {
    if n > 0 { TouchedPrefix(a, b, n - 1); }
  }

  /** One more candidate, and what it adds. */
  lemma TakeNext(cs: seq<Candidate>, taken: seq<seq<Edit>>, edits: seq<Edit>)
    requires |taken| < |cs|
    ensures var taken', n, c := taken + [edits], |taken| + 1, cs[|taken|];
            && TakenChanges(cs, taken', n) == TakenChanges(cs, taken, n - 1) + Tagged(c.display, edits)
            && CountTouched(taken', n) == CountTouched(taken, n - 1) + (if edits == [] then 0 else 1)
            && (forall i :: Touched(cs, taken', i) <==> Touched(cs, taken, i) || (i == n - 1 && edits != []))
  {
    var taken', n := taken + [edits], |taken| + 1;
    TakenPrefix(cs, taken, taken', n - 1);
    TouchedPrefix(taken, taken', n - 1);
    assert taken'[n - 1] == edits;
  }

  lemma TouchedNext(cs: seq<Candidate>, taken: seq<seq<Edit>>, edits: seq<Edit>)
    requires |taken| < |cs| && edits != []
    ensures forall d :: DisplayTouched(cs, taken + [edits], d) <==> DisplayTouched(cs, taken, d) || d == cs[|taken|].display
    ensures forall p :: PathTouched(cs, taken + [edits], p) <==> PathTouched(cs, taken, p) || p == cs[|taken|].path
  {
    TakeNext(cs, taken, edits);
    hide TakenChanges, CountTouched, Touched;
    assert Touched(cs, taken + [edits], |taken|);
  }

  lemma CountsNone(cs: seq<Candidate>, taken: seq<seq<Edit>>, counts: map<string, nat>)
    requires |taken| < |cs| && Counts(cs, taken, counts)
    ensures Counts(cs, taken + [[]], counts)
  {
    TakeNext(cs, taken, []);
    hide TakenChanges, CountTouched;
  }

  lemma StagedNone(files: Files, cs: seq<Candidate>, taken: seq<seq<Edit>>, after: Files)
    requires |taken| < |cs| && Staged(files, cs, taken, after)
    ensures Staged(files, cs, taken + [[]], after)
  {
    hide IsEdited;
    TakeNext(cs, taken, []);
    hide TakenChanges, CountTouched;
  }

  lemma CountsSome(cs: seq<Candidate>, taken: seq<seq<Edit>>, counts: map<string, nat>, edits: seq<Edit>)
    requires |taken| < |cs| && edits != [] && Counts(cs, taken, counts)
    requires forall i :: 0 <= i < |taken| ==> cs[i].display != cs[|taken|].display
    ensures Counts(cs, taken + [edits], counts[cs[|taken|].display := |edits|])
  {
    TakeNext(cs, taken, edits);
    TouchedNext(cs, taken, edits);
    hide TakenChanges, CountTouched, DisplayTouched;
  }

  lemma StagedSome(files: Files, cs: seq<Candidate>, taken: seq<seq<Edit>>, after: Files, edits: seq<Edit>, output: seq<Byte>)
    requires |taken| < |cs| && edits != [] && Staged(files, cs, taken, after)
    requires forall i :: 0 <= i < |taken| ==> cs[i].path != cs[|taken|].path
    requires cs[|taken|].path in files && IsEdited(files[cs[|taken|].path], edits, output)
    ensures after[cs[|taken|].path] == files[cs[|taken|].path]
    ensures Staged(files, cs, taken + [edits], after[cs[|taken|].path := output])
  {
    hide IsEdited;
    TakeNext(cs, taken, edits);
    TouchedNext(cs, taken, edits);
    hide TakenChanges, CountTouched, DisplayTouched;
    assert !PathTouched(cs, taken, cs[|taken|].path);
    hide PathTouched;
  }

  /** What a pass has found: the changes taken so far, and what is pending for the disk. */
  datatype Progress = Progress(changes: seq<Change>, counts: map<string, nat>, touched: nat, writes: seq<Write>, limit: bool, issues: nat)

  /** The invariant of the pass, over the candidates that `taken` has an entry for. */
  ghost predicate Going(p: Progress, files: Files, cs: seq<Candidate>, taken: seq<seq<Edit>>, dryRun: bool) {
    && |taken| <= |cs| && p.changes == TakenChanges(cs, taken, |taken|) && p.touched == CountTouched(taken, |taken|)
    && (Distinct(cs) ==> Counts(cs, taken, p.counts))
    && (dryRun ==> p.writes == [])
    && (Distinct(cs) && !dryRun ==> Staged(files, cs, taken, Flushed(files, p.writes, |p.writes|)))
  }

  lemma GoingNone(p: Progress, files: Files, cs: seq<Candidate>, taken: seq<seq<Edit>>, dryRun: bool)
    requires Going(p, files, cs, taken, dryRun) && |taken| < |cs|
    ensures Going(p, files, cs, taken + [[]], dryRun)
  {
    hide Counts, Staged, Flushed, TakenChanges, CountTouched;
    TakeNext(cs, taken, []);
    assert forall d, c :: c + Tagged(d, []) == c;
    if Distinct(cs) {
      CountsNone(cs, taken, p.counts);
      if !dryRun { StagedNone(files, cs, taken, Flushed(files, p.writes, |p.writes|)); }
    }
  }

  /** Some edits taken from the next candidate; `output` is what has to be written, if anything. */
  function Advance(p: Progress, c: Candidate, edits: seq<Edit>, write: bool, output: seq<Byte>): Progress {
    p.(changes := p.changes + Tagged(c.display, edits), counts := p.counts[c.display := |edits|], touched := p.touched + 1,
       writes := if write then p.writes + [Write(c.path, output)] else p.writes)
  }

  lemma GoingSome(p: Progress, files: Files, cs: seq<Candidate>, taken: seq<seq<Edit>>, dryRun: bool, edits: seq<Edit>, output: seq<Byte>)
    requires Going(p, files, cs, taken, dryRun) && |taken| < |cs| && edits != [] && cs[|taken|].path in files
    requires !dryRun ==> IsEdited(files[cs[|taken|].path], edits, output)
    ensures var c := cs[|taken|]; Going(Advance(p, c, edits, !dryRun && output != files[c.path], output), files, cs, taken + [edits], dryRun)
  {
    hide Counts, Staged, TakenChanges, CountTouched, IsEdited;
    var c, after := cs[|taken|], Flushed(files, p.writes, |p.writes|);
    TakeNext(cs, taken, edits);
    FlushedSnoc(files, p.writes, Write(c.path, output));
    if Distinct(cs) {
      CountsSome(cs, taken, p.counts, edits);
      if !dryRun {
        StagedSome(files, cs, taken, after, edits, output);
        assert Staged(files, cs, taken + [edits], after[c.path := output]);
        StagedKeys(files, cs, taken, after);
        if output == files[c.path] { assert after[c.path := output] == after; }
      }
    }
  }

  lemma StagedKeys(files: Files, cs: seq<Candidate>, taken: seq<seq<Edit>>, after: Files)
    requires Staged(files, cs, taken, after)
    ensures forall p :: p in after <==> p in files
  {
  }

  lemma {:induction false} FlushedPrefix(files: Files, a: seq<Write>, b: seq<Write>, n: nat)
    requires n <= |a| && n <= |b| && forall i :: 0 <= i < n ==> a[i] == b[i]
    ensures Flushed(files, a, n) == Flushed(files, b, n)
  {
    if n > 0 { FlushedPrefix(files, a, b, n - 1); }
  }

  lemma FlushedSnoc(files: Files, ws: seq<Write>, w: Write)
    ensures Flushed(files, ws + [w], |ws| + 1) == Flushed(files, ws, |ws|)[w.path := w.output]
  {
    FlushedPrefix(files, ws, ws + [w], |ws|);
  }

  /** The changes are the first ones there are; `limit` says whether there are more. */
  ghost predicate FirstOf(changes: seq<Change>, all: seq<Change>, limit: bool) {
    changes <= all && (limit <==> |changes| < |all|)
  }

  lemma Stopped(o: Oracle, rules: seq<bool>, files: Files, cs: seq<Candidate>, i: nat, edits: seq<Edit>)
    requires i < |cs| && edits <= Matches(o, rules, files, cs[i]) && |edits| < |Matches(o, rules, files, cs[i])|
    ensures FirstOf(AllChanges(o, rules, files, cs, i) + Tagged(cs[i].display, edits), AllChanges(o, rules, files, cs, |cs|), true)
  {
    hide Matches;
    AllChangesGrow(o, rules, files, cs, i + 1, |cs|);
    assert Tagged(cs[i].display, edits) <= Tagged(cs[i].display, Matches(o, rules, files, cs[i]));
  }

  // ----- when it fails, and what it reports ----------------------------------------------

  /** Something is wrong with what there is to do in a file: bad text, or edits that cannot be made together. */
  ghost predicate BadEdits(edits: seq<Edit>, source: seq<Byte>, dryRun: bool) {
    || (exists e :: e in edits && !ValidUtf8(e.inserted))
    || (!dryRun && !(AllCompatible(edits) && Fit(edits, source)))
  }

  /** A reason to refuse candidate `c`. */
  ghost predicate Refusable(o: Oracle, rules: seq<bool>, files: Files, c: Candidate, dryRun: bool, failOnParseError: bool) {
    if Usable(o, files, c) then BadEdits(Matches(o, rules, files, c), files[c.path], dryRun) else failOnParseError
  }

  /** What can be made of all edits can be made of the first of them. */
  lemma BadPrefix(edits: seq<Edit>, all: seq<Edit>, source: seq<Byte>, dryRun: bool)
    requires edits <= all && BadEdits(edits, source, dryRun)
    ensures BadEdits(all, source, dryRun)
  {
    hide ValidUtf8, Compatible;
    if e :| e in edits && !ValidUtf8(e.inserted) { assert e in all; }
    if AllCompatible(all) {
      assert forall i :: 0 <= i < |edits| ==> edits[i] == all[i];
    }
    if Fit(all, source) {
      assert forall i :: 0 <= i < |edits| ==> edits[i] == all[i];
    }
  }

  /** The candidates among the first `n` that could not be read or parsed. */
  function Unusable(o: Oracle, files: Files, cs: seq<Candidate>, n: nat): nat
    requires n <= |cs|
  {
    if n == 0 then 0 else Unusable(o, files, cs, n - 1) + if Usable(o, files, cs[n - 1]) then 0 else 1
  }

  function BadRules(rules: seq<bool>, n: nat): nat
    requires n <= |rules|
  {
    if n == 0 then 0 else BadRules(rules, n - 1) + if rules[n - 1] then 0 else 1
  }

  /** The first `n` candidates have been looked at, and what was wrong with them was counted or tolerated. */
  ghost predicate Visited(o: Oracle, files: Files, cs: seq<Candidate>, n: nat, failOnParseError: bool, before: nat, issues: nat) {
    && n <= |cs| && issues == before + Unusable(o, files, cs, n)
    && (failOnParseError ==> forall i :: 0 <= i < n ==> Usable(o, files, cs[i]))
  }

  /** A pending write holds the edited text of a touched file. */
  ghost predicate WriteOk(files: Files, cs: seq<Candidate>, taken: seq<seq<Edit>>, w: Write) {
    exists i :: Touched(cs, taken, i) && cs[i].path == w.path && w.path in files && IsEdited(files[w.path], taken[i], w.output)
  }

  ghost predicate WritesOk(files: Files, cs: seq<Candidate>, taken: seq<seq<Edit>>, ws: seq<Write>) {
    forall w :: w in ws ==> WriteOk(files, cs, taken, w)
  }

  lemma WriteStaysOk(files: Files, cs: seq<Candidate>, taken: seq<seq<Edit>>, edits: seq<Edit>, w: Write)
    requires WriteOk(files, cs, taken, w)
    ensures WriteOk(files, cs, taken + [edits], w)
  {
    hide IsEdited;
    var i :| Touched(cs, taken, i) && cs[i].path == w.path && IsEdited(files[w.path], taken[i], w.output);
    assert Touched(cs, taken + [edits], i) && (taken + [edits])[i] == taken[i];
  }

  lemma WritesStayOk(files: Files, cs: seq<Candidate>, taken: seq<seq<Edit>>, edits: seq<Edit>, ws: seq<Write>)
    requires WritesOk(files, cs, taken, ws)
    ensures WritesOk(files, cs, taken + [edits], ws)
  {
    hide WriteOk;
    forall w | w in ws ensures WriteOk(files, cs, taken + [edits], w) { WriteStaysOk(files, cs, taken, edits, w); }
  }

  lemma NewWriteOk(files: Files, cs: seq<Candidate>, taken: seq<seq<Edit>>, edits: seq<Edit>, output: seq<Byte>)
    requires |taken| < |cs| && edits != [] && cs[|taken|].path in files && IsEdited(files[cs[|taken|].path], edits, output)
    ensures WriteOk(files, cs, taken + [edits], Write(cs[|taken|].path, output))
  {
    hide IsEdited;
    assert Touched(cs, taken + [edits], |taken|) && (taken + [edits])[|taken|] == edits;
  }

  /** Whenever the writing stops, each file is either as it was or edited. */
  ghost predicate PartlyStaged(files: Files, cs: seq<Candidate>, taken: seq<seq<Edit>>, after: Files) {
    && (forall p :: p in after <==> p in files)
    && forall p :: p in files && after[p] != files[p] ==> WriteOk(files, cs, taken, Write(p, after[p]))
  }

  lemma {:induction false} FlushedPartly(files: Files, cs: seq<Candidate>, taken: seq<seq<Edit>>, ws: seq<Write>, n: nat)
    requires n <= |ws| && WritesOk(files, cs, taken, ws)
    ensures PartlyStaged(files, cs, taken, Flushed(files, ws, n))
  {
    hide WriteOk;
    if n > 0 {
      FlushedPartly(files, cs, taken, ws, n - 1);
      var w := ws[n - 1];
      assert w in ws;
      assert w.path in files by { WrittenExists(files, cs, taken, w); }
    }
  }

  lemma WrittenExists(files: Files, cs: seq<Candidate>, taken: seq<seq<Edit>>, w: Write)
    requires WriteOk(files, cs, taken, w)
    ensures w.path in files
  {
  }

  /** One candidate.  `stop` ends the pass. */
  method PassFile(files: Files, o: Oracle, rules: seq<bool>, cs: seq<Candidate>, i: nat, maxReplacements: nat, maxFiles: nat,
                  dryRun: bool, failOnParseError: bool, p: Progress, ghost taken: seq<seq<Edit>>)
    returns (ok: bool, stop: bool, p': Progress, ghost taken': seq<seq<Edit>>)
    requires i < |cs| && |taken| == i && Going(p, files, cs, taken, dryRun) && !p.limit && WritesOk(files, cs, taken, p.writes)
    requires |p.changes| <= maxReplacements && p.touched <= maxFiles && p.changes == AllChanges(o, rules, files, cs, i)
    ensures ok ==> Going(p', files, cs, taken', dryRun) && |p'.changes| <= maxReplacements && p'.touched <= maxFiles
    ensures ok ==> |taken'| == i + 1 && WritesOk(files, cs, taken', p'.writes)
    ensures ok ==> p'.issues == p.issues + (if Usable(o, files, cs[i]) then 0 else 1) && (failOnParseError ==> Usable(o, files, cs[i]))
    ensures ok && !stop ==> !p'.limit && p'.changes == AllChanges(o, rules, files, cs, i + 1)
    ensures ok && stop ==> FirstOf(p'.changes, AllChanges(o, rules, files, cs, |cs|), true) && p'.limit
    ensures ok && stop ==> |p'.changes| == maxReplacements || p'.touched == maxFiles
    ensures !ok ==> Refusable(o, rules, files, cs[i], dryRun, failOnParseError)
  {
    hide Going, ValidUtf8, FirstOf, WritesOk, AllCompatible;
    var c := cs[i];
    ok, stop, p', taken' := true, false, p, taken + [[]];
    GoingNone(p, files, cs, taken, dryRun);
    WritesStayOk(files, cs, taken, [], p.writes);
    assert Tagged(c.display, []) == [] && p.changes + [] == p.changes;
    if c.path !in files || !ValidUtf8(files[c.path]) || !o.parses(files[c.path]) {
      ok := !failOnParseError;
      p' := p.(issues := p.issues + 1);
      GoingIssues(p, files, cs, taken', dryRun, p.limit, p.issues + 1);
      return;
    }
    var source := files[c.path];
    var valid, edits, reached := TakeMatches(o, rules, source, maxReplacements - |p.changes|);
    if !valid {
      ok := false;
      return;
    }
    GoingIssues(p, files, cs, taken', dryRun, true, p.issues);
    if edits == [] {
      if reached {
        Stopped(o, rules, files, cs, i, edits);
        stop, p' := true, p.(limit := true);
      }
      return;
    }
    if p.touched >= maxFiles {
      Stopped(o, rules, files, cs, i, []);
      stop, p' := true, p.(limit := true);
      return;
    }
    var output := source;
    if !dryRun {
      var r := ApplyEdits(source, edits);
      if !r.Applied? {
        BadPrefix(edits, Matches(o, rules, files, c), source, dryRun);
        ok := false;
        return;
      }
      output := r.output;
      assert IsEdited(source, edits, output) by { hide Sort, Weave; }
    }
    var write := !dryRun && output != source;
    GoingSome(p, files, cs, taken, dryRun, edits, output);
    AdvanceWrites(p, files, cs, taken, c, edits, write, output);
    p', taken' := Advance(p, c, edits, write, output), taken + [edits];
    if reached {
      Stopped(o, rules, files, cs, i, edits);
      GoingIssues(p', files, cs, taken', dryRun, true, p'.issues);
      stop, p' := true, p'.(limit := true);
    }
  }

  lemma AdvanceWrites(p: Progress, files: Files, cs: seq<Candidate>, taken: seq<seq<Edit>>, c: Candidate, edits: seq<Edit>, write: bool, output: seq<Byte>)
    requires |taken| < |cs| && c == cs[|taken|] && edits != [] && c.path in files && WritesOk(files, cs, taken, p.writes)
    requires write ==> IsEdited(files[c.path], edits, output)
    ensures WritesOk(files, cs, taken + [edits], Advance(p, c, edits, write, output).writes)
  {
    hide WriteOk, IsEdited;
    WritesStayOk(files, cs, taken, edits, p.writes);
    if write { NewWriteOk(files, cs, taken, edits, output); }
  }

  lemma GoingIssues(p: Progress, files: Files, cs: seq<Candidate>, taken: seq<seq<Edit>>, dryRun: bool, limit: bool, issues: nat)
    requires Going(p, files, cs, taken, dryRun)
    ensures Going(p.(limit := limit, issues := issues), files, cs, taken, dryRun)
  {
  }

  /** All candidates, in memory. */
  method Pass(files: Files, o: Oracle, rules: seq<bool>, cs: seq<Candidate>, maxReplacements: nat, maxFiles: nat,
              dryRun: bool, failOnParseError: bool, issues: nat) returns (ok: bool, p: Progress, ghost taken: seq<seq<Edit>>)
    ensures ok ==> Going(p, files, cs, taken, dryRun) && |p.changes| <= maxReplacements && p.touched <= maxFiles
    ensures ok ==> FirstOf(p.changes, AllChanges(o, rules, files, cs, |cs|), p.limit) && WritesOk(files, cs, taken, p.writes)
    ensures ok ==> Visited(o, files, cs, |taken|, failOnParseError, issues, p.issues)
    ensures ok ==> if p.limit then |p.changes| == maxReplacements || p.touched == maxFiles else |taken| == |cs|
    ensures !ok ==> exists i :: 0 <= i < |cs| && Refusable(o, rules, files, cs[i], dryRun, failOnParseError)
  {
    hide *;
    ok, p, taken := true, Progress([], map[], 0, [], false, issues), [];
    PassStarts(files, o, rules, cs, dryRun, failOnParseError, issues);
    var i := 0;
    while i < |cs|
      invariant ok && 0 <= i <= |cs| && |taken| == i && Going(p, files, cs, taken, dryRun) && !p.limit && WritesOk(files, cs, taken, p.writes)
      invariant |p.changes| <= maxReplacements && p.touched <= maxFiles && p.changes == AllChanges(o, rules, files, cs, i)
      invariant Visited(o, files, cs, i, failOnParseError, issues, p.issues)
    {
      var stop;
      ghost var before := p.issues;
      ok, stop, p, taken := PassFile(files, o, rules, cs, i, maxReplacements, maxFiles, dryRun, failOnParseError, p, taken);
      if ok { VisitedNext(o, files, cs, i, failOnParseError, issues, before, p.issues); }
      if !ok || stop {
        return;
      }
      i := i + 1;
    }
    FirstOfAll(p.changes);
  }

  lemma PassStarts(files: Files, o: Oracle, rules: seq<bool>, cs: seq<Candidate>, dryRun: bool, failOnParseError: bool, issues: nat)
    ensures Going(Progress([], map[], 0, [], false, issues), files, cs, [], dryRun) && WritesOk(files, cs, [], [])
    ensures AllChanges(o, rules, files, cs, 0) == [] && Visited(o, files, cs, 0, failOnParseError, issues, issues)
  {
  }

  lemma VisitedNext(o: Oracle, files: Files, cs: seq<Candidate>, n: nat, failOnParseError: bool, start: nat, before: nat, after: nat)
    requires n < |cs| && Visited(o, files, cs, n, failOnParseError, start, before)
    requires after == before + (if Usable(o, files, cs[n]) then 0 else 1) && (failOnParseError ==> Usable(o, files, cs[n]))
    ensures Visited(o, files, cs, n + 1, failOnParseError, start, after)
  {
    hide Usable;
  }

  lemma FirstOfAll(changes: seq<Change>)
    ensures FirstOf(changes, changes, false)
  {
  }

  /** Counts the rules that do not compile, or fails on the first of them. */
  method Compile(rules: seq<bool>, failOnParseError: bool) returns (ok: bool, issues: nat)
    ensures ok <==> failOnParseError ==> forall k :: 0 <= k < |rules| ==> rules[k]
    ensures ok ==> issues == BadRules(rules, |rules|)
  {
    ok, issues := true, 0;
    for k := 0 to |rules|
      invariant ok && issues == BadRules(rules, k)
      invariant failOnParseError ==> forall j :: 0 <= j < k ==> rules[j]
    {
      if !rules[k] {
        if failOnParseError {
          ok := false;
          return;
        }
        issues := issues + 1;
      }
    }
  }

  /** Without a rule that compiles nothing is even read. */
  lemma NothingToDo(o: Oracle, rules: seq<bool>, files: Files, cs: seq<Candidate>, dryRun: bool, failOnParseError: bool, issues: nat)
    requires forall k :: 0 <= k < |rules| ==> !rules[k]
    ensures FirstOf([], AllChanges(o, rules, files, cs, |cs|), false) && TakenChanges(cs, [], 0) == [] && CountTouched([], 0) == 0
    ensures Counts(cs, [], map[]) && SumValues(map[]) == 0 && Staged(files, cs, [], files) && Visited(o, files, cs, 0, failOnParseError, issues, issues)
  {
    hide Usable;
    NoChanges(o, rules, files, cs, |cs|);
  }

  lemma GoingMeans(p: Progress, files: Files, cs: seq<Candidate>, taken: seq<seq<Edit>>, dryRun: bool)
    requires Going(p, files, cs, taken, dryRun)
    ensures |taken| <= |cs| && p.changes == TakenChanges(cs, taken, |taken|) && p.touched == CountTouched(taken, |taken|)
    ensures Distinct(cs) ==> Counts(cs, taken, p.counts)
    ensures Distinct(cs) && !dryRun ==> Staged(files, cs, taken, Flushed(files, p.writes, |p.writes|))
  {
    hide Counts, Staged, Flushed, TakenChanges, CountTouched, Distinct;
  }

  /**
   The whole operation.  It fails only for a reason, and then, or on a dry run, the disk is as it was.
   Otherwise the changes are the first ones that there are, within both limits; the limit is reported exactly
   when there are more, and only when one of the limits is used up; and the disk holds the edited files and
   nothing else is different.  If a write fails, every file is either as it was or edited.
   */
  method Replace(disk: Disk, o: Oracle, rules: seq<bool>, cs: seq<Candidate>, maxReplacements: nat, maxFiles: nat,
                 dryRun: bool, failOnParseError: bool) returns (r: Outcome, ghost taken: seq<seq<Edit>>)
    modifies disk
    ensures r.Failed? || dryRun ==> disk.files == old(disk.files)
    ensures r.Failed? ==>
              || (failOnParseError && exists k :: 0 <= k < |rules| && !rules[k])
              || exists i :: 0 <= i < |cs| && Refusable(o, rules, old(disk.files), cs[i], dryRun, failOnParseError)
    ensures !r.Failed? && failOnParseError ==> forall k :: 0 <= k < |rules| ==> rules[k]
    ensures r.WriteFailed? ==> !dryRun && PartlyStaged(old(disk.files), cs, taken, disk.files) && exists p :: !o.writable(p)
    ensures r.Done? ==>
              && FirstOf(r.report.changes, AllChanges(o, rules, old(disk.files), cs, |cs|), r.report.limitReached)
              && |r.report.changes| <= maxReplacements && r.report.filesTouched <= maxFiles
              && (r.report.limitReached ==> |r.report.changes| == maxReplacements || r.report.filesTouched == maxFiles)
              && |taken| <= |cs| && r.report.changes == TakenChanges(cs, taken, |taken|)
              && r.report.filesTouched == CountTouched(taken, |taken|)
              && (Distinct(cs) ==> Counts(cs, taken, r.report.fileCounts) && SumValues(r.report.fileCounts) == |r.report.changes|)
              && (Distinct(cs) && !dryRun ==> Staged(old(disk.files), cs, taken, disk.files))
    ensures r.Done? ==>
              && Visited(o, old(disk.files), cs, |taken|, failOnParseError, BadRules(rules, |rules|), r.report.issues)
              && (!r.report.limitReached ==> taken == [] || |taken| == |cs|)
              && r.report.filesSearched == |cs| && r.report.applied == !dryRun
  {
    hide *;
    taken := [];
    var compiled, issues := Compile(rules, failOnParseError);
    if !compiled {
      return Failed, [];
    }
    if forall k :: 0 <= k < |rules| ==> !rules[k] {
      NothingToDo(o, rules, disk.files, cs, dryRun, failOnParseError, issues);
      r := Done(Report(map[], 0, |cs|, !dryRun, false, issues, []));
      return;
    }
    var ok, p;
    ok, p, taken := Pass(disk.files, o, rules, cs, maxReplacements, maxFiles, dryRun, failOnParseError, issues);
    if !ok {
      return Failed, [];
    }
    GoingMeans(p, disk.files, cs, taken, dryRun);
    if Distinct(cs) { CountsAddUp(cs, taken, p.counts); }
    if !dryRun {
      var written := Flush(disk, o, p.writes);
      if written < |p.writes| {
        FlushedPartly(old(disk.files), cs, taken, p.writes, written);
        return WriteFailed(written), taken;
      }
    }
    r := Done(Report(p.counts, p.touched, |cs|, !dryRun, p.limit, p.issues, p.changes));
  }

  lemma {:induction false} NoMatches(o: Oracle, rules: seq<bool>, source: seq<Byte>, n: nat)
    requires n <= |rules| && forall k :: 0 <= k < |rules| ==> !rules[k]
    ensures FileMatches(o, rules, source, n) == []
  {
    if n > 0 { NoMatches(o, rules, source, n - 1); }
  }

  lemma {:induction false} NoChanges(o: Oracle, rules: seq<bool>, files: Files, cs: seq<Candidate>, n: nat)
    requires n <= |cs| && forall k :: 0 <= k < |rules| ==> !rules[k]
    ensures AllChanges(o, rules, files, cs, n) == []
  {
    hide Matches;
    if n > 0 {
      NoChanges(o, rules, files, cs, n - 1);
      NoneIn(o, rules, files, cs[n - 1]);
    }
  }

  lemma NoneIn(o: Oracle, rules: seq<bool>, files: Files, c: Candidate)
    requires forall k :: 0 <= k < |rules| ==> !rules[k]
    ensures Matches(o, rules, files, c) == []
  {
    if Usable(o, files, c) { NoMatches(o, rules, files[c.path], |rules|); }
  }

  function SumTaken(taken: seq<seq<Edit>>, n: nat): nat
    requires n <= |taken|
  {
    if n == 0 then 0 else SumTaken(taken, n - 1) + |taken[n - 1]|
  }

  lemma {:induction false} TakenLength(cs: seq<Candidate>, taken: seq<seq<Edit>>, n: nat)
    requires n <= |cs| && n <= |taken|
    ensures |TakenChanges(cs, taken, n)| == SumTaken(taken, n)
  {
    if n > 0 { TakenLength(cs, taken, n - 1); }
  }

  ghost function SumValues(counts: map<string, nat>): nat {
    if counts == map[] then 0 else
      var d :| d in counts;
      counts[d] + SumValues(counts - {d})
  }

  /** It does not matter in which order the values are added. */
  lemma {:induction false} SumWithout(counts: map<string, nat>, d: string)
    requires d in counts
    ensures SumValues(counts) == counts[d] + SumValues(counts - {d})
    decreases |counts|
  {
    var x :| x in counts && SumValues(counts) == counts[x] + SumValues(counts - {x});
    if x != d {
      SumWithout(counts - {x}, d);
      SumWithout(counts - {d}, x);
      assert counts - {x} - {d} == counts - {d} - {x};
    }
  }

  /** The counts of the first `n` candidates. */
  function CountsTo(cs: seq<Candidate>, taken: seq<seq<Edit>>, n: nat): map<string, nat>
    requires n <= |cs| && n <= |taken|
  {
    if n == 0 then map[] else
      var before := CountsTo(cs, taken, n - 1);
      if taken[n - 1] == [] then before else before[cs[n - 1].display := |taken[n - 1]|]
  }

  /** One of the first `n` candidates is shown as `d`, and has this many changes. */
  ghost predicate CountedAs(cs: seq<Candidate>, taken: seq<seq<Edit>>, n: nat, d: string, count: nat) {
    exists i :: i < n && Touched(cs, taken, i) && cs[i].display == d && count == |taken[i]|
  }

  ghost predicate AllCounted(cs: seq<Candidate>, taken: seq<seq<Edit>>, n: nat, counts: map<string, nat>) {
    forall d :: d in counts ==> CountedAs(cs, taken, n, d, counts[d])
  }

  lemma {:induction false} CountsToKeys(cs: seq<Candidate>, taken: seq<seq<Edit>>, n: nat)
    requires n <= |cs| && n <= |taken|
    ensures AllCounted(cs, taken, n, CountsTo(cs, taken, n))
  {
    if n > 0 {
      CountsToKeys(cs, taken, n - 1);
      var before, counts := CountsTo(cs, taken, n - 1), CountsTo(cs, taken, n);
      forall d | d in counts ensures CountedAs(cs, taken, n, d, counts[d]) {
        if taken[n - 1] != [] && d == cs[n - 1].display {
          assert Touched(cs, taken, n - 1);
        } else {
          assert d in before && counts[d] == before[d];
          assert CountedAs(cs, taken, n - 1, d, before[d]);
          var i :| i < n - 1 && Touched(cs, taken, i) && cs[i].display == d && counts[d] == |taken[i]|;
          assert i < n;
        }
      }
    }
  }

  lemma CountsToNew(cs: seq<Candidate>, taken: seq<seq<Edit>>, n: nat)
    requires n < |cs| && n < |taken| && Distinct(cs)
    ensures cs[n].display !in CountsTo(cs, taken, n)
  {
    hide CountsTo;
    CountsToKeys(cs, taken, n);
  }

  lemma {:induction false} CountsToSum(cs: seq<Candidate>, taken: seq<seq<Edit>>, n: nat)
    requires n <= |cs| && n <= |taken| && Distinct(cs)
    ensures SumValues(CountsTo(cs, taken, n)) == SumTaken(taken, n)
  {
    hide Distinct;
    if n > 0 {
      CountsToSum(cs, taken, n - 1);
      CountsToNew(cs, taken, n - 1);
      if taken[n - 1] != [] {
        var counts, d := CountsTo(cs, taken, n), cs[n - 1].display;
        SumWithout(counts, d);
        assert counts - {d} == CountsTo(cs, taken, n - 1);
      }
    }
  }

  lemma {:induction false} CountsToHas(cs: seq<Candidate>, taken: seq<seq<Edit>>, n: nat, i: nat)
    requires n <= |cs| && n <= |taken| && Distinct(cs) && i < n && Touched(cs, taken, i)
    ensures cs[i].display in CountsTo(cs, taken, n) && CountsTo(cs, taken, n)[cs[i].display] == |taken[i]|
  {
    if i < n - 1 {
      CountsToHas(cs, taken, n - 1, i);
      assert cs[i].display != cs[n - 1].display;
    }
  }

  /** The reported counts of the files add up to the number of reported changes. */
  lemma CountsAddUp(cs: seq<Candidate>, taken: seq<seq<Edit>>, counts: map<string, nat>)
    requires |taken| <= |cs| && Distinct(cs) && Counts(cs, taken, counts)
    ensures SumValues(counts) == |TakenChanges(cs, taken, |taken|)|
  {
    hide SumValues, SumTaken, TakenChanges, CountsTo, Distinct;
    var n := |taken|;
    TakenLength(cs, taken, n);
    CountsToKeys(cs, taken, n);
    CountsToSum(cs, taken, n);
    var built := CountsTo(cs, taken, n);
    forall d | d in counts ensures d in built && counts[d] == built[d] {
      var i :| Touched(cs, taken, i) && cs[i].display == d;
      CountsToHas(cs, taken, n, i);
    }
    forall d | d in built ensures d in counts {
      var i :| i < n && Touched(cs, taken, i) && cs[i].display == d && built[d] == |taken[i]|;
    }
    assert counts == built;
  }
}
