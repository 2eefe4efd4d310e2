/** The fixer on a whole repository: from a diff since the last release to the changelogs as they should be. */
module RunFixer {
  import opened Changelog
  import opened ChangelogMoves
  import opened FixChangelog
  import opened DiffScan
  import DiffItems

  type Files = map<string, seq<Line>>

  datatype Summary = Summary(path: string, promotedItems: nat, mergedDuplicateHeadings: nat, removedEmptyHeadings: nat)

  /** The lines where the diff adds an item to a file for good. */
  ghost predicate StartsOf(diff: seq<DiffLine>, path: string, starts: set<nat>) {
    exists added, removed :: Changes(diff, added, removed) && DiffItems.PicksOut(added, removed, path, starts)
  }

  /** `r` is the fix of a content for some lines that begin promotable items; nothing in it is lost or doubled. */
  ghost predicate FixedWith(content: seq<Line>, starts: set<nat>, r: FixResult) {
    exists after, moves, at, shift :: FixBy(content, starts, r, after, moves, at, shift)
  }

  ghost predicate FixBy(content: seq<Line>, starts: set<nat>, r: FixResult, after: seq<Section>, moves: seq<Move>, at: nat, shift: nat) {
    IsFix(content, starts, r, after, moves, at, shift)
    && Conserved(Parse(WithNumbers(content)), starts, Parse(WithNumbers(r.content)), moves, at, shift)
  }

  /** `r` is the fix that the diff calls for in a file. */
  ghost predicate FixedFor(diff: seq<DiffLine>, path: string, content: seq<Line>, r: FixResult) {
    exists starts :: StartsOf(diff, path, starts) && FixedWith(content, starts, r)
  }

  predicate NoneTwice(paths: seq<string>) {
    forall i, j :: 0 <= i < j < |paths| ==> paths[i] != paths[j]
  }

  /** The changed ones among the first `n` files, with what was done to each. */
  function Changed(paths: seq<string>, files: Files, results: seq<FixResult>, n: nat): seq<Summary>
    requires n <= |paths| && n <= |results| && forall i :: 0 <= i < |paths| ==> paths[i] in files
  {
    if n == 0 then [] else
      var p, r := paths[n - 1], results[n - 1];
      Changed(paths, files, results, n - 1)
      + if r.content == files[p] then [] else [Summary(p, r.promotedItems, r.mergedDuplicateHeadings, r.removedEmptyHeadings)]
  }

  lemma {:induction false} ChangedPrefix(paths: seq<string>, files: Files, a: seq<FixResult>, b: seq<FixResult>, n: nat)
    requires n <= |paths| && n <= |a| && n <= |b| && forall i :: 0 <= i < |paths| ==> paths[i] in files
    requires forall i :: 0 <= i < n ==> a[i] == b[i]
    ensures Changed(paths, files, a, n) == Changed(paths, files, b, n)
  {
    if n > 0 { ChangedPrefix(paths, files, a, b, n - 1); }
  }

  lemma IsReading(diff: seq<DiffLine>, added: seq<Item>, removed: seq<Item>, at: seq<nat>, gone: seq<nat>)
    requires AreItems(diff, true, |diff|, added, at) && AreItems(diff, false, |diff|, removed, gone)
    ensures Changes(diff, added, removed)
  {
  }

  /** Fixes one file for the diff. */
  method FixFile(lines: map<string, set<nat>>, path: string, content: seq<Line>, ghost diff: seq<DiffLine>,
                 ghost added: seq<Item>, ghost removed: seq<Item>) returns (r: FixResult)
    requires Changes(diff, added, removed)
    requires forall p, n :: DiffItems.Listed(lines, p, n) <==> DiffItems.PromotedAt(added, removed, |added|, p, n)
    ensures FixedFor(diff, path, content, r)
  {
    hide IsFix, Conserved, Changes, DiffItems.PromotedAt;
    var starts := if path in lines then lines[path] else {};
    ghost var after, moves, at, shift;
    r, after, moves, at, shift := FixChangelogContent(content, starts);
    assert FixBy(content, starts, r, after, moves, at, shift);
    forall n ensures n in starts <==> DiffItems.PromotedAt(added, removed, |added|, path, n) {
      assert n in starts <==> DiffItems.Listed(lines, path, n);
    }
    assert DiffItems.PicksOut(added, removed, path, starts);
    assert StartsOf(diff, path, starts);
  }

  /**
   `runChangelogFixer`: every changelog becomes its fix for the diff, nothing else is touched, a dry run
   touches nothing, and the report lists exactly the changelogs that change.
   */
  method RunChangelogFixer(diff: seq<DiffLine>, paths: seq<string>, files: Files, write: bool)
    returns (files': Files, changed: seq<Summary>, ghost results: seq<FixResult>)
    requires NoneTwice(paths) && forall i :: 0 <= i < |paths| ==> paths[i] in files
    ensures |results| == |paths| && forall i :: 0 <= i < |paths| ==> FixedFor(diff, paths[i], files[paths[i]], results[i])
    ensures changed == Changed(paths, files, results, |paths|)
    ensures (forall p :: p in files' <==> p in files) && forall p :: p in files && p !in paths ==> files'[p] == files[p]
    ensures if write then forall i :: 0 <= i < |paths| ==> files'[paths[i]] == results[i].content else files' == files
  {
    hide *;
    var lines;
    ghost var added, removed, at, gone;
    lines, added, removed, at, gone := DiffItems.CollectPromotableAddedItemLines(diff);
    IsReading(diff, added, removed, at, gone);
    files', changed, results := files, [], [];
    NothingWritten(files, paths);
    for k := 0 to |paths|
      invariant |results| == k && forall i :: 0 <= i < k ==> FixedFor(diff, paths[i], files[paths[i]], results[i])
      invariant changed == Changed(paths, files, results, k) && files' == if write then Written(files, paths, results, k) else files
    {
      var path := paths[k];
      NotYetWritten(files, paths, results, k);
      var result := FixFile(lines, path, files'[path], diff, added, removed);
      OneMore(files, paths, results, result, k);
      if result.content != files'[path] {
        changed := changed + [Summary(path, result.promotedItems, result.mergedDuplicateHeadings, result.removedEmptyHeadings)];
        if write { files' := files'[path := result.content]; }
      }
      results := results + [result];
    }
    WrittenAt(files, paths, results);
  }

  /** The files once the first `n` have been written. */
  function Written(files: Files, paths: seq<string>, results: seq<FixResult>, n: nat): Files
    requires n <= |paths| && n <= |results|
  {
    if n == 0 then files else Written(files, paths, results, n - 1)[paths[n - 1] := results[n - 1].content]
  }

  lemma NothingWritten(files: Files, paths: seq<string>)
    requires forall i :: 0 <= i < |paths| ==> paths[i] in files
    ensures Written(files, paths, [], 0) == files && Changed(paths, files, [], 0) == []
  {
  }

  lemma {:induction false} WrittenPrefix(files: Files, paths: seq<string>, a: seq<FixResult>, b: seq<FixResult>, n: nat)
    requires n <= |paths| && n <= |a| && n <= |b| && forall i :: 0 <= i < n ==> a[i] == b[i]
    ensures Written(files, paths, a, n) == Written(files, paths, b, n)
  {
    if n > 0 { WrittenPrefix(files, paths, a, b, n - 1); }
  }

  lemma {:induction false} OthersKept(files: Files, paths: seq<string>, results: seq<FixResult>, n: nat, p: string)
    requires n <= |paths| && n <= |results| && (forall i :: 0 <= i < |paths| ==> paths[i] in files)
    requires forall i :: 0 <= i < n ==> paths[i] != p
    ensures p in Written(files, paths, results, n) <==> p in files
    ensures p in files ==> Written(files, paths, results, n)[p] == files[p]
  {
    if n > 0 { OthersKept(files, paths, results, n - 1, p); }
  }

  lemma {:induction false} WrittenLast(files: Files, paths: seq<string>, results: seq<FixResult>, n: nat, i: nat)
    requires NoneTwice(paths) && i < n <= |paths| && n <= |results|
    ensures paths[i] in Written(files, paths, results, n) && Written(files, paths, results, n)[paths[i]] == results[i].content
  {
    if i < n - 1 { WrittenLast(files, paths, results, n - 1, i); }
  }

  /** What each file holds: those written what they were written, all others what they did. */
  lemma WrittenAt(files: Files, paths: seq<string>, results: seq<FixResult>)
    requires NoneTwice(paths) && |paths| == |results| && forall i :: 0 <= i < |paths| ==> paths[i] in files
    ensures var r := Written(files, paths, results, |paths|);
            && (forall p :: p in r <==> p in files)
            && (forall p :: p in files && p !in paths ==> r[p] == files[p])
            && (forall i :: 0 <= i < |paths| ==> r[paths[i]] == results[i].content)
  {
    hide Written, NoneTwice;
    var r := Written(files, paths, results, |paths|);
    forall i | 0 <= i < |paths| ensures paths[i] in r && r[paths[i]] == results[i].content { WrittenLast(files, paths, results, |paths|, i); }
    forall p ensures p in r <==> p in files {
      if p !in paths { OthersKept(files, paths, results, |paths|, p); }
    }
    forall p | p in files && p !in paths ensures r[p] == files[p] { OthersKept(files, paths, results, |paths|, p); }
  }

  lemma NotYetWritten(files: Files, paths: seq<string>, results: seq<FixResult>, k: nat)
    requires NoneTwice(paths) && k < |paths| && k <= |results| && forall i :: 0 <= i < |paths| ==> paths[i] in files
    ensures paths[k] in Written(files, paths, results, k) && Written(files, paths, results, k)[paths[k]] == files[paths[k]]
  {
    hide Written;
    OthersKept(files, paths, results, k, paths[k]);
  }

  /** One result more, written if it is a change. */
  lemma OneMore(files: Files, paths: seq<string>, results: seq<FixResult>, r: FixResult, k: nat)
    requires NoneTwice(paths) && k < |paths| && k == |results| && forall i :: 0 <= i < |paths| ==> paths[i] in files
    ensures var p, before := paths[k], Written(files, paths, results, k);
            && Written(files, paths, results + [r], k + 1) == (if r.content == files[p] then before else before[p := r.content])
            && Changed(paths, files, results + [r], k + 1) == Changed(paths, files, results, k)
                 + if r.content == files[p] then [] else [Summary(p, r.promotedItems, r.mergedDuplicateHeadings, r.removedEmptyHeadings)]
  {
    NotYetWritten(files, paths, results, k);
    WrittenPrefix(files, paths, results, results + [r], k);
    ChangedPrefix(paths, files, results, results + [r], k);
  }

  lemma NoDiff(path: string, starts: set<nat>)
    requires StartsOf([], path, starts)
    ensures starts == {}
  {
    hide AreItems;
    var added, removed :| Changes([], added, removed) && DiffItems.PicksOut(added, removed, path, starts);
    var at, gone :| AreItems([], true, 0, added, at) && AreItems([], false, 0, removed, gone);
    NoItems([]);
    OneReading([], true, 0, added, at, [], []);
  }

  /** The diff promotes nothing out of a file. */
  ghost predicate NothingNew(diff: seq<DiffLine>, path: string, content: seq<Line>) {
    forall starts :: StartsOf(diff, path, starts) ==> ToPromote(content, starts) == []
  }

  lemma EmptyDiffIsNothingNew(path: string, content: seq<Line>)
    ensures NothingNew([], path, content)
  {
    hide StartsOf, Parse;
    forall starts | StartsOf([], path, starts) ensures ToPromote(content, starts) == [] {
      NoDiff(path, starts);
      var ss := Parse(WithNumbers(content)).sections;
      NothingToMove(ss, |ss|);
    }
  }

  lemma OneStarts(diff: seq<DiffLine>, path: string, a: set<nat>, b: set<nat>)
    requires StartsOf(diff, path, a) && StartsOf(diff, path, b)
    ensures a == b
  {
    hide DiffItems.PromotedAt, Changes;
    var added, removed :| Changes(diff, added, removed) && DiffItems.PicksOut(added, removed, path, a);
    var added', removed' :| Changes(diff, added', removed') && DiffItems.PicksOut(added', removed', path, b);
    ReadsOne(diff, added, removed, added', removed');
    forall n ensures n in a <==> n in b {}
  }

  lemma FixedAgain(diff: seq<DiffLine>, again: seq<DiffLine>, path: string, content: seq<Line>, r: FixResult, r': FixResult)
    requires FixedFor(diff, path, content, r) && FixedFor(again, path, r.content, r')
    ensures r'.content == r.content <==> NothingNew(again, path, r.content)
  {
    hide IsFix, Conserved, StartsOf, ToPromote;
    var starts :| StartsOf(diff, path, starts) && FixedWith(content, starts, r);
    var starts' :| StartsOf(again, path, starts') && FixedWith(r.content, starts', r');
    forall s | StartsOf(again, path, s) ensures s == starts' { OneStarts(again, path, s, starts'); }
    var after, moves, at, shift :| FixBy(content, starts, r, after, moves, at, shift);
    var after', moves', at', shift' :| FixBy(r.content, starts', r', after', moves', at', shift');
    FixAgain(content, starts, r, after, moves, at, shift, starts', r', after', moves', at', shift');
  }

  lemma {:induction false} NoneChanged(paths: seq<string>, files: Files, results: seq<FixResult>, n: nat)
    requires n <= |paths| == |results| && forall i :: 0 <= i < |paths| ==> paths[i] in files
    ensures Changed(paths, files, results, n) == [] <==> forall i :: 0 <= i < n ==> results[i].content == files[paths[i]]
  {
    if n > 0 { NoneChanged(paths, files, results, n - 1); }
  }

  /**
   Run twice, the second time with whatever diff there is by then: a changelog changes again exactly if that
   diff promotes an item out of it as the first run left it.  With no new diff none does.
   */
  method RunTwice(diff: seq<DiffLine>, again: seq<DiffLine>, paths: seq<string>, files: Files)
    returns (once: Files, twice: Files, changed: seq<Summary>)
    requires NoneTwice(paths) && forall i :: 0 <= i < |paths| ==> paths[i] in files
    ensures forall i :: 0 <= i < |paths| ==> paths[i] in once && paths[i] in twice
    ensures forall i :: 0 <= i < |paths| ==> (twice[paths[i]] == once[paths[i]] <==> NothingNew(again, paths[i], once[paths[i]]))
    ensures changed == [] <==> forall i :: 0 <= i < |paths| ==> NothingNew(again, paths[i], once[paths[i]])
    ensures changed == [] <==> twice == once
    ensures again == [] ==> changed == []
  {
    hide FixedFor, NothingNew, Changed;
    var first;
    ghost var results, results';
    once, first, results := RunChangelogFixer(diff, paths, files, true);
    twice, changed, results' := RunChangelogFixer(again, paths, once, true);
    forall i | 0 <= i < |paths| ensures results'[i].content == once[paths[i]] <==> NothingNew(again, paths[i], once[paths[i]]) {
      FixedAgain(diff, again, paths[i], files[paths[i]], results[i], results'[i]);
    }
    if again == [] {
      forall i | 0 <= i < |paths| ensures NothingNew(again, paths[i], once[paths[i]]) { EmptyDiffIsNothingNew(paths[i], once[paths[i]]); }
    }
    NoneChanged(paths, once, results', |paths|);
    if changed == [] {
      forall p | p in once ensures twice[p] == once[p] {
        if p in paths {
          var i :| 0 <= i < |paths| && paths[i] == p;
        }
      }
      assert twice == once;
    }
  }
}
