/** Reading a diff: which list items it adds and takes away, and where. */
module DiffScan {
  import opened Sequences

  /** A diff line as the source recognises it; `text` is trimmed, `item` says whether it is a list item. */
  datatype DiffLine =
    | NewPath(path: string)         // `+++ b/path`
    | FileStart                     // `diff --git`
    | HunkHeader(start: nat)        // where the hunk begins in the new file
    | Added(text: string, item: bool)
    | Removed(text: string, item: bool)
    | Context
    | Other

  datatype Hunk = Hunk(path: string, index: int)
  datatype Item = Item(hunk: Hunk, text: string, line: nat)

  // ----- reading the diff ------------------------------------------------------------------

  /** `hunks` is how many hunks of the file have begun. */
  datatype Scan = Scan(path: string, hunks: nat, line: nat, added: seq<Item>, removed: seq<Item>)

  const START := Scan("", 0, 0, [], [])

  /** A changed line, where the diff has named a file and opened a hunk. */
  function Change(s: Scan, l: DiffLine): Scan
    requires s.hunks > 0
  {
    var hunk := Hunk(s.path, s.hunks - 1);
    match l
    case Added(text, item) => s.(line := s.line + 1, added := if item then s.added + [Item(hunk, text, s.line)] else s.added)
    case Removed(text, item) => s.(removed := if item then s.removed + [Item(hunk, text, s.line)] else s.removed)
    case Context => s.(line := s.line + 1)
    case _ => s
  }

  function Step(s: Scan, l: DiffLine): Scan {
    match l
    case NewPath(path) => s.(path := path)
    case FileStart => s.(path := "", hunks := 0)
    case HunkHeader(start) => s.(line := start, hunks := s.hunks + 1)
    case _ => if s.path == "" || s.hunks == 0 then s else Change(s, l)
  }

  function Scanned(ls: seq<DiffLine>, n: nat): Scan
    requires n <= |ls|
  {
    if n == 0 then START else Step(Scanned(ls, n - 1), ls[n - 1])
  }

  method ReadDiff(ls: seq<DiffLine>) returns (added: seq<Item>, removed: seq<Item>)
    ensures added == Scanned(ls, |ls|).added && removed == Scanned(ls, |ls|).removed
  {
    added, removed := [], [];
    var path, newLine, hunkIndex: int := "", 0, -1;
    for i := 0 to |ls|
      invariant hunkIndex >= -1 && Scanned(ls, i) == Scan(path, hunkIndex + 1, newLine, added, removed)
    {
      match ls[i] {
        case NewPath(p) => path := p;
        case FileStart => path, hunkIndex := "", -1;
        case HunkHeader(start) => newLine, hunkIndex := start, hunkIndex + 1;
        case Added(text, item) =>
          if path != "" && hunkIndex >= 0 {
            if item { added := added + [Item(Hunk(path, hunkIndex), text, newLine)]; }
            newLine := newLine + 1;
          }
        case Removed(text, item) =>
          if path != "" && hunkIndex >= 0 && item { removed := removed + [Item(Hunk(path, hunkIndex), text, newLine)]; }
        case Context => if path != "" && hunkIndex >= 0 { newLine := newLine + 1; }
        case Other =>
      }
    }
  }

  // ----- what is read, in terms of the diff alone -------------------------------------------

  /** Line `p` names the file that line `n` is about. */
  predicate Names(ls: seq<DiffLine>, n: nat, p: nat)
    ensures Names(ls, n, p) ==> p < n <= |ls| && ls[p].NewPath?
  {
    p < n <= |ls| && ls[p].NewPath? && ls[p].path != "" && forall k :: p < k < n ==> !ls[k].NewPath? && !ls[k].FileStart?
  }

  /** Line `h` is the header of the hunk that line `n` is in. */
  predicate Opens(ls: seq<DiffLine>, n: nat, h: nat)
    ensures Opens(ls, n, h) ==> h < n <= |ls| && ls[h].HunkHeader?
  {
    h < n <= |ls| && ls[h].HunkHeader? && forall k :: h < k < n ==> !ls[k].HunkHeader? && !ls[k].FileStart?
  }

  /** The file that line `n` is about begins at line `f`. */
  predicate Begins(ls: seq<DiffLine>, n: nat, f: nat)
    ensures Begins(ls, n, f) ==> f <= n <= |ls|
  {
    f <= n <= |ls| && (f > 0 ==> ls[f - 1].FileStart?) && forall k :: f <= k < n ==> !ls[k].FileStart?
  }

  function CountHeaders(ls: seq<DiffLine>, f: nat, n: nat): nat
    requires f <= n <= |ls|
  {
    if n == f then 0 else CountHeaders(ls, f, n - 1) + if ls[n - 1].HunkHeader? then 1 else 0
  }

  ghost predicate Named(ls: seq<DiffLine>, n: nat) {
    exists p: nat :: Names(ls, n, p)
  }

  ghost predicate Opened(ls: seq<DiffLine>, n: nat) {
    exists h: nat :: Opens(ls, n, h)
  }

  /** The lines from `m` on that the new file has: those added and those around them, of a file with a name. */
  ghost function CountNew(ls: seq<DiffLine>, m: nat, n: nat): nat
    requires m <= n <= |ls|
  {
    if n == m then 0 else CountNew(ls, m, n - 1) + if (ls[n - 1].Added? || ls[n - 1].Context?) && Named(ls, n - 1) then 1 else 0
  }

  /** A line that adds a list item, or takes one away, in a file with a name and behind a hunk header. */
  ghost predicate IsItem(ls: seq<DiffLine>, added: bool, i: nat) {
    i < |ls| && (if added then ls[i].Added? && ls[i].item else ls[i].Removed? && ls[i].item) && Named(ls, i) && Opened(ls, i)
  }

  /**
   What an item line says: its text, the path named last, which hunk of the file it is in, and the line that the
   hunk begins with moved on by the lines of the new file in between.
   */
  ghost predicate Says(ls: seq<DiffLine>, i: nat, x: Item) {
    && i < |ls| && (ls[i].Added? || ls[i].Removed?) && x.text == ls[i].text
    && (forall p: nat :: Names(ls, i, p) ==> x.hunk.path == ls[p].path)
    && (forall f: nat :: Begins(ls, i, f) ==> x.hunk.index == CountHeaders(ls, f, i) - 1)
    && (forall h: nat :: Opens(ls, i, h) ==> x.line == ls[h].start + CountNew(ls, h + 1, i))
  }

  /** The items of the first `n` lines, and where they are: in order, each as its line says, and all of them. */
  ghost predicate AreItems(ls: seq<DiffLine>, added: bool, n: nat, xs: seq<Item>, at: seq<nat>) {
    && |at| == |xs| && n <= |ls| && (forall a, b :: 0 <= a < b < |at| ==> at[a] < at[b])
    && (forall a :: 0 <= a < |xs| ==> at[a] < n && IsItem(ls, added, at[a]) && Says(ls, at[a], xs[a]))
    && (forall i: nat :: i < n && IsItem(ls, added, i) ==> i in at)
  }

  /** Path, hunk and line at line `n`. */
  ghost predicate StandsAt(ls: seq<DiffLine>, n: nat, s: Scan)
    requires n <= |ls|
  {
    && (s.path == "" <==> !Named(ls, n)) && (forall p: nat :: Names(ls, n, p) ==> s.path == ls[p].path)
    && (s.hunks == 0 <==> !Opened(ls, n)) && (forall h: nat :: Opens(ls, n, h) ==> s.line == ls[h].start + CountNew(ls, h + 1, n))
    && (exists f: nat :: Begins(ls, n, f)) && (forall f: nat :: Begins(ls, n, f) ==> s.hunks == CountHeaders(ls, f, n))
  }

  lemma NamesNext(ls: seq<DiffLine>, n: nat, m: nat, p: nat)
    requires n < |ls| && m == n + 1
    ensures Names(ls, m, p) <==> (p == n && ls[n].NewPath? && ls[n].path != "") || (Names(ls, n, p) && !ls[n].NewPath? && !ls[n].FileStart?)
  {
  }

  lemma OpensNext(ls: seq<DiffLine>, n: nat, m: nat, h: nat)
    requires n < |ls| && m == n + 1
    ensures Opens(ls, m, h) <==> (h == n && ls[n].HunkHeader?) || (Opens(ls, n, h) && !ls[n].HunkHeader? && !ls[n].FileStart?)
  {
  }

  lemma BeginsNext(ls: seq<DiffLine>, n: nat, m: nat, f: nat)
    requires n < |ls| && m == n + 1
    ensures Begins(ls, m, f) <==> (f == m && ls[n].FileStart?) || (Begins(ls, n, f) && !ls[n].FileStart?)
  {
  }

  lemma NamedNext(ls: seq<DiffLine>, n: nat, m: nat)
    requires n < |ls| && m == n + 1
    ensures Named(ls, m) <==> if ls[n].NewPath? then ls[n].path != "" else !ls[n].FileStart? && Named(ls, n)
    ensures forall p: nat :: Names(ls, m, p) ==> !ls[n].FileStart? && if ls[n].NewPath? then p == n else Names(ls, n, p)
  {
    NamesNext(ls, n, m, n);
    forall p: nat ensures Names(ls, m, p) <==> (p == n && ls[n].NewPath? && ls[n].path != "") || (Names(ls, n, p) && !ls[n].NewPath? && !ls[n].FileStart?) {
      NamesNext(ls, n, m, p);
    }
    hide Names;
    if p: nat :| Names(ls, n, p) { assert Names(ls, m, p) <==> !ls[n].NewPath? && !ls[n].FileStart?; }
  }

  lemma OpenedNext(ls: seq<DiffLine>, n: nat, m: nat)
    requires n < |ls| && m == n + 1
    ensures Opened(ls, m) <==> ls[n].HunkHeader? || (!ls[n].FileStart? && Opened(ls, n))
    ensures forall h: nat :: Opens(ls, m, h) ==> !ls[n].FileStart? && if ls[n].HunkHeader? then h == n else Opens(ls, n, h)
  {
    OpensNext(ls, n, m, n);
    forall h: nat ensures Opens(ls, m, h) <==> (h == n && ls[n].HunkHeader?) || (Opens(ls, n, h) && !ls[n].HunkHeader? && !ls[n].FileStart?) {
      OpensNext(ls, n, m, h);
    }
    if h: nat :| Opens(ls, n, h) { assert Opens(ls, m, h) <==> !ls[n].HunkHeader? && !ls[n].FileStart?; }
  }

  lemma BegunNext(ls: seq<DiffLine>, n: nat, m: nat)
    requires n < |ls| && m == n + 1 && exists f: nat :: Begins(ls, n, f)
    ensures exists f: nat :: Begins(ls, m, f)
    ensures forall f: nat :: Begins(ls, m, f) ==> if ls[n].FileStart? then f == m else Begins(ls, n, f)
  {
    BeginsNext(ls, n, m, n + 1);
    forall f: nat ensures Begins(ls, m, f) <==> (f == m && ls[n].FileStart?) || (Begins(ls, n, f) && !ls[n].FileStart?) { BeginsNext(ls, n, m, f); }
    var f: nat :| Begins(ls, n, f);
    assert Begins(ls, m, f) <==> !ls[n].FileStart?;
  }

  lemma StandsNext(ls: seq<DiffLine>, n: nat, m: nat, s: Scan)
    requires n < |ls| && m == n + 1 && StandsAt(ls, n, s)
    ensures StandsAt(ls, m, Step(s, ls[n]))
  {
    hide Names, Opens, Begins;
    NamedNext(ls, n, m);
    OpenedNext(ls, n, m);
    BegunNext(ls, n, m);
  }

  lemma ItemsNext(ls: seq<DiffLine>, added: bool, n: nat, xs: seq<Item>, at: seq<nat>, x: Item)
    requires n < |ls| && AreItems(ls, added, n, xs, at) && IsItem(ls, added, n) && Says(ls, n, x)
    ensures AreItems(ls, added, n + 1, xs + [x], at + [n])
  {
    hide IsItem, Says;
  }

  lemma ItemsStay(ls: seq<DiffLine>, added: bool, n: nat, xs: seq<Item>, at: seq<nat>)
    requires n < |ls| && AreItems(ls, added, n, xs, at) && !IsItem(ls, added, n)
    ensures AreItems(ls, added, n + 1, xs, at)
  {
    hide IsItem, Says;
  }

  lemma StandsFirst(ls: seq<DiffLine>)
    ensures StandsAt(ls, 0, START)
  {
    assert Begins(ls, 0, 0);
  }

  function ItemAt(s: Scan, l: DiffLine): Item
    requires l.Added? || l.Removed?
  {
    Item(Hunk(s.path, s.hunks - 1), l.text, s.line)
  }

  /** The scan takes up an item just when the line has one, with what it says. */
  lemma TakesUp(ls: seq<DiffLine>, n: nat, s: Scan)
    requires n < |ls| && StandsAt(ls, n, s)
    ensures IsItem(ls, true, n) || IsItem(ls, false, n) ==> s.hunks > 0 && Says(ls, n, ItemAt(s, ls[n]))
    ensures Step(s, ls[n]).added == if IsItem(ls, true, n) then s.added + [ItemAt(s, ls[n])] else s.added
    ensures Step(s, ls[n]).removed == if IsItem(ls, false, n) then s.removed + [ItemAt(s, ls[n])] else s.removed
  {
    hide Names, Opens, Begins, CountNew, Named, Opened;
  }

  /** What has been read after `n` lines, and where its items stood. */
  lemma {:induction false} ScannedIs(ls: seq<DiffLine>, n: nat) returns (at: seq<nat>, gone: seq<nat>)
    requires n <= |ls|
    ensures var s := Scanned(ls, n); StandsAt(ls, n, s) && AreItems(ls, true, n, s.added, at) && AreItems(ls, false, n, s.removed, gone)
  {
    hide StandsAt, Says, IsItem, AreItems, Step;
    if n == 0 {
      at, gone := [], [];
      StandsFirst(ls);
      NoItems(ls);
    } else {
      at, gone := ScannedIs(ls, n - 1);
      var s := Scanned(ls, n - 1);
      StandsNext(ls, n - 1, n, s);
      TakesUp(ls, n - 1, s);
      if IsItem(ls, true, n - 1) || IsItem(ls, false, n - 1) { IsChange(ls, n - 1); }
      if IsItem(ls, true, n - 1) {
        ItemsNext(ls, true, n - 1, s.added, at, ItemAt(s, ls[n - 1]));
        at := at + [n - 1];
      } else {
        ItemsStay(ls, true, n - 1, s.added, at);
      }
      if IsItem(ls, false, n - 1) {
        ItemsNext(ls, false, n - 1, s.removed, gone, ItemAt(s, ls[n - 1]));
        gone := gone + [n - 1];
      } else {
        ItemsStay(ls, false, n - 1, s.removed, gone);
      }
    }
  }

  lemma IsChange(ls: seq<DiffLine>, i: nat)
    requires IsItem(ls, true, i) || IsItem(ls, false, i)
    ensures i < |ls| && (ls[i].Added? || ls[i].Removed?)
  {
  }

  lemma NoItems(ls: seq<DiffLine>)
    ensures AreItems(ls, true, 0, [], []) && AreItems(ls, false, 0, [], [])
  {
  }

  // ----- the reading is determined ----------------------------------------------------------

  lemma SaysOne(ls: seq<DiffLine>, added: bool, i: nat, x: Item, y: Item)
    requires IsItem(ls, added, i) && Says(ls, i, x) && Says(ls, i, y)
    ensures x == y
  {
    hide Names, Opens, Begins;
    var p: nat :| Names(ls, i, p);
    var h: nat :| Opens(ls, i, h);
    var f := FileBegin(ls, i);
  }

  lemma {:induction false} FileBegin(ls: seq<DiffLine>, n: nat) returns (f: nat)
    requires n <= |ls|
    ensures Begins(ls, n, f)
  {
    if n == 0 || ls[n - 1].FileStart? { f := n; } else { f := FileBegin(ls, n - 1); }
  }

  lemma LastBelow(at: seq<nat>, n: nat)
    requires n > 0 && (forall a, b :: 0 <= a < b < |at| ==> at[a] < at[b]) && (forall a :: 0 <= a < |at| ==> at[a] < n) && n - 1 in at
    ensures at != [] && Last(at) == n - 1 && forall a :: 0 <= a < |at| - 1 ==> at[a] < n - 1
    ensures forall i :: i in at && i < n - 1 ==> i in at[..|at| - 1]
  {
    var a :| 0 <= a < |at| && at[a] == n - 1;
    forall i | i in at && i < n - 1 ensures i in at[..|at| - 1] {
      var b :| 0 <= b < |at| && at[b] == i;
      assert at[..|at| - 1][b] == i;
    }
  }

  /** The items of one line fewer. */
  lemma OneLineLess(ls: seq<DiffLine>, added: bool, n: nat, xs: seq<Item>, at: seq<nat>)
    requires 0 < n <= |ls| && AreItems(ls, added, n, xs, at)
    ensures if IsItem(ls, added, n - 1)
            then at != [] && xs != [] && Last(at) == n - 1 && Says(ls, n - 1, Last(xs)) && AreItems(ls, added, n - 1, xs[..|xs| - 1], at[..|at| - 1])
            else AreItems(ls, added, n - 1, xs, at)
  {
    hide IsItem, Says;
    if IsItem(ls, added, n - 1) {
      LastBelow(at, n);
      var front := at[..|at| - 1];
      forall i: nat | i < n - 1 && IsItem(ls, added, i) ensures i in front { assert i in at; }
    }
  }

  lemma NoneBelow(at: seq<nat>, n: nat)
    requires forall a :: 0 <= a < |at| ==> at[a] < n
    ensures n == 0 ==> at == []
  {
    if at != [] { assert at[0] < n; }
  }

  lemma NothingRead(ls: seq<DiffLine>, added: bool, xs: seq<Item>, at: seq<nat>)
    requires AreItems(ls, added, 0, xs, at)
    ensures xs == [] && at == []
  {
    hide IsItem, Says;
    NoneBelow(at, 0);
  }

  lemma SameEnds<T>(a: seq<T>, b: seq<T>)
    requires a != [] && b != [] && a[..|a| - 1] == b[..|b| - 1] && Last(a) == Last(b)
    ensures a == b
  {
    assert a == a[..|a| - 1] + [Last(a)] && b == b[..|b| - 1] + [Last(b)];
  }

  /** There is only one way to read a diff. */
  lemma {:induction false} OneReading(ls: seq<DiffLine>, added: bool, n: nat, xs: seq<Item>, at: seq<nat>, ys: seq<Item>, bt: seq<nat>)
    requires n <= |ls| && AreItems(ls, added, n, xs, at) && AreItems(ls, added, n, ys, bt)
    ensures xs == ys && at == bt
  {
    hide AreItems, IsItem, Says;
    if n == 0 {
      NothingRead(ls, added, xs, at);
      NothingRead(ls, added, ys, bt);
    } else {
      OneLineLess(ls, added, n, xs, at);
      OneLineLess(ls, added, n, ys, bt);
      if IsItem(ls, added, n - 1) {
        OneReading(ls, added, n - 1, xs[..|xs| - 1], at[..|at| - 1], ys[..|ys| - 1], bt[..|bt| - 1]);
        SaysOne(ls, added, n - 1, Last(xs), Last(ys));
        SameEnds(xs, ys);
        SameEnds(at, bt);
      } else {
        OneReading(ls, added, n - 1, xs, at, ys, bt);
      }
    }
  }

  /** These are the items that the diff adds, and those that it takes away. */
  ghost predicate Changes(ls: seq<DiffLine>, added: seq<Item>, removed: seq<Item>) {
    exists at, gone :: AreItems(ls, true, |ls|, added, at) && AreItems(ls, false, |ls|, removed, gone)
  }

  lemma ReadsOne(ls: seq<DiffLine>, added: seq<Item>, removed: seq<Item>, added': seq<Item>, removed': seq<Item>)
    requires Changes(ls, added, removed) && Changes(ls, added', removed')
    ensures added == added' && removed == removed'
  {
    hide AreItems;
    var at, gone :| AreItems(ls, true, |ls|, added, at) && AreItems(ls, false, |ls|, removed, gone);
    var at', gone' :| AreItems(ls, true, |ls|, added', at') && AreItems(ls, false, |ls|, removed', gone');
    OneReading(ls, true, |ls|, added, at, added', at');
    OneReading(ls, false, |ls|, removed, gone, removed', gone');
  }
}
