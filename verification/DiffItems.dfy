/**
 Which list lines a diff adds for good: not those that were only moved, and not those that stand where
 another line of the same hunk went away.
 */
module DiffItems {
  import opened Sequences
  import opened DiffScan

  datatype Key = Key(path: string, text: string)

  function KeyOf(x: Item): Key {
    Key(x.hunk.path, x.text)
  }

  // ----- pairing ---------------------------------------------------------------------------

  /** How many of the first `n` items have this text in this file. */
  function CountKey(xs: seq<Item>, k: Key, n: nat): (c: nat)
    requires n <= |xs|
  {
    if n == 0 then 0 else CountKey(xs, k, n - 1) + if xs[n - 1].hunk.path == k.path && xs[n - 1].text == k.text then 1 else 0
  }

  /** An item of `xs` has a partner in `ys`: there are more with its key there than came before it here. */
  predicate Paired(xs: seq<Item>, ys: seq<Item>, i: nat)
    requires i < |xs|
  {
    CountKey(xs, KeyOf(xs[i]), i) < CountKey(ys, KeyOf(xs[i]), |ys|)
  }

  lemma {:induction false} CountGrows(xs: seq<Item>, k: Key, m: nat, n: nat)
    requires m <= n <= |xs|
    ensures CountKey(xs, k, m) <= CountKey(xs, k, n)
    ensures m < n && KeyOf(xs[m]) == k ==> CountKey(xs, k, m) < CountKey(xs, k, n)
  {
    if m < n { CountGrows(xs, k, m, n - 1); }
  }

  /** For each key, where its items are, in order. */
  ghost predicate Indexed(byItem: map<Key, seq<nat>>, xs: seq<Item>, n: nat)
    requires n <= |xs|
  {
    && (forall k :: |Places(byItem, k)| == CountKey(xs, k, n))
    && (forall k, c :: 0 <= c < |Places(byItem, k)| ==> PlaceOk(xs, k, c, Places(byItem, k)[c], n))
  }

  function Places(byItem: map<Key, seq<nat>>, k: Key): seq<nat> {
    if k in byItem then byItem[k] else []
  }

  predicate PlaceOk(xs: seq<Item>, k: Key, c: nat, j: nat, n: nat) {
    j < n && j < |xs| && KeyOf(xs[j]) == k && CountKey(xs, k, j) == c
  }

  method Index(xs: seq<Item>) returns (byItem: map<Key, seq<nat>>)
    ensures Indexed(byItem, xs, |xs|)
  {
    hide *;
    byItem := map[];
    NothingIndexed(xs);
    for j := 0 to |xs|
      invariant Indexed(byItem, xs, j)
    {
      var k := KeyOf(xs[j]);
      IndexNext(byItem, xs, j);
      byItem := byItem[k := Places(byItem, k) + [j]];
    }
  }

  lemma NothingIndexed(xs: seq<Item>)
    ensures Indexed(map[], xs, 0)
  {
  }

  lemma IndexNext(byItem: map<Key, seq<nat>>, xs: seq<Item>, j: nat)
    requires j < |xs| && Indexed(byItem, xs, j)
    ensures var k := KeyOf(xs[j]); Indexed(byItem[k := Places(byItem, k) + [j]], xs, j + 1)
  {
    var k := KeyOf(xs[j]);
    var after := byItem[k := Places(byItem, k) + [j]];
    forall k' ensures CountKey(xs, k', j + 1) == CountKey(xs, k', j) + if k' == k then 1 else 0 {}
    hide CountKey;
    forall k' ensures Places(after, k') == if k' == k then Places(byItem, k) + [j] else Places(byItem, k') {}
    forall k', c | 0 <= c < |Places(after, k')| ensures PlaceOk(xs, k', c, Places(after, k')[c], j + 1) {
      if c < |Places(byItem, k')| { assert PlaceOk(xs, k', c, Places(byItem, k')[c], j); }
    }
  }

  /** The removals that have a partner among the first `n` additions. */
  ghost predicate PairedTo(removed: seq<Item>, added: seq<Item>, n: nat, flags: seq<bool>)
    requires n <= |added|
  {
    |flags| == |removed| && forall j :: 0 <= j < |removed| ==>
      (flags[j] <==> CountKey(removed, KeyOf(removed[j]), j) < CountKey(added, KeyOf(removed[j]), n))
  }

  method FirstFree(places: seq<nat>, flags: seq<bool>) returns (c: nat)
    requires forall x :: 0 <= x < |places| ==> places[x] < |flags|
    ensures c <= |places| && (c < |places| ==> !flags[places[c]]) && forall x :: 0 <= x < c ==> flags[places[x]]
  {
    c := 0;
    while c < |places| && flags[places[c]]
      invariant c <= |places| && forall x :: 0 <= x < c ==> flags[places[x]]
    {
      c := c + 1;
    }
  }

  /** Where the removals with the key `k` are. */
  ghost predicate PlacesOf(places: seq<nat>, removed: seq<Item>, k: Key) {
    && |places| == CountKey(removed, k, |removed|)
    && (forall x :: 0 <= x < |places| ==> places[x] < |removed|)
    && (forall x :: 0 <= x < |places| ==> PlaceOk(removed, k, x, places[x], |removed|))
  }

  lemma IndexedAt(byItem: map<Key, seq<nat>>, removed: seq<Item>, k: Key)
    requires Indexed(byItem, removed, |removed|)
    ensures PlacesOf(Places(byItem, k), removed, k)
  {
    hide CountKey;
    forall x | 0 <= x < |Places(byItem, k)|
      ensures Places(byItem, k)[x] < |removed| && PlaceOk(removed, k, x, Places(byItem, k)[x], |removed|) {}
  }

  /** The next addition takes the first removal of its key that is still free, which is the one at its own rank. */
  lemma TakesItsRank(removed: seq<Item>, added: seq<Item>, n: nat, flags: seq<bool>, places: seq<nat>, c: nat)
    requires n < |added| && PairedTo(removed, added, n, flags) && c <= |places|
    requires PlacesOf(places, removed, KeyOf(added[n]))
    requires (c < |places| ==> !flags[places[c]]) && forall x :: 0 <= x < c ==> flags[places[x]]
    ensures c < |places| <==> Paired(added, removed, n)
    ensures PairedTo(removed, added, n + 1, if c < |places| then flags[places[c] := true] else flags)
  {
    var k, rank := KeyOf(added[n]), CountKey(added, KeyOf(added[n]), n);
    if c > 0 { assert PlaceOk(removed, k, c - 1, places[c - 1], |removed|); }
    if c < |places| { assert PlaceOk(removed, k, c, places[c], |removed|); }
    assert c < |places| ==> c == rank;
    forall j | 0 <= j < |removed| && KeyOf(removed[j]) == k && CountKey(removed, k, j) == rank ensures c < |places| && places[c] == j {
      CountGrows(removed, k, j, |removed|);
      var p := places[c];
      if p < j { CountGrows(removed, k, p, j); }
      if j < p { CountGrows(removed, k, j, p); }
    }
  }

  /** One addition looks for a removal. */
  method Match(added: seq<Item>, removed: seq<Item>, i: nat, places: seq<nat>, flags: seq<bool>) returns (paired: bool, flags': seq<bool>)
    requires i < |added| && PairedTo(removed, added, i, flags) && PlacesOf(places, removed, KeyOf(added[i]))
    ensures paired == Paired(added, removed, i) && PairedTo(removed, added, i + 1, flags')
  {
    hide Paired, PlaceOk, CountKey;
    var c := FirstFree(places, flags);
    TakesItsRank(removed, added, i, flags, places, c);
    paired, flags' := c < |places|, if c < |places| then flags[places[c] := true] else flags;
  }

  /** The pairing of additions and removals, by flags that are set one after the other. */
  method Pair(added: seq<Item>, removed: seq<Item>) returns (addedPaired: seq<bool>, removedPaired: seq<bool>)
    ensures |addedPaired| == |added| && forall i :: 0 <= i < |added| ==> (addedPaired[i] <==> Paired(added, removed, i))
    ensures |removedPaired| == |removed| && forall j :: 0 <= j < |removed| ==> (removedPaired[j] <==> Paired(removed, added, j))
  {
    hide *;
    var byItem := Index(removed);
    addedPaired, removedPaired := [], seq(|removed|, _ => false);
    NonePaired(removed, added, removedPaired);
    for i := 0 to |added|
      invariant PairedTo(removed, added, i, removedPaired)
      invariant |addedPaired| == i && forall x :: 0 <= x < i ==> (addedPaired[x] <==> Paired(added, removed, x))
    {
      IndexedAt(byItem, removed, KeyOf(added[i]));
      var paired;
      paired, removedPaired := Match(added, removed, i, Places(byItem, KeyOf(added[i])), removedPaired);
      addedPaired := addedPaired + [paired];
    }
    AllMatched(removed, added, removedPaired);
  }

  lemma NonePaired(removed: seq<Item>, added: seq<Item>, flags: seq<bool>)
    requires |flags| == |removed| && forall j :: 0 <= j < |flags| ==> !flags[j]
    ensures PairedTo(removed, added, 0, flags)
  {
  }

  lemma AllMatched(removed: seq<Item>, added: seq<Item>, flags: seq<bool>)
    requires PairedTo(removed, added, |added|, flags)
    ensures |flags| == |removed| && forall j :: 0 <= j < |removed| ==> (flags[j] <==> Paired(removed, added, j))
  {
  }

  // ----- settling each hunk ---------------------------------------------------------------

  /** The unpaired ones among the first `n` items of `xs` that are in hunk `h`. */
  function CountFree(xs: seq<Item>, ys: seq<Item>, h: Hunk, n: nat): nat
    requires n <= |xs|
  {
    if n == 0 then 0 else CountFree(xs, ys, h, n - 1) + if xs[n - 1].hunk == h && !Paired(xs, ys, n - 1) then 1 else 0
  }

  /** An addition without a partner, of which its hunk has more than removals without one. */
  predicate Promotable(added: seq<Item>, removed: seq<Item>, i: nat)
    requires i < |added|
  {
    !Paired(added, removed, i) && CountFree(added, removed, added[i].hunk, i) >= CountFree(removed, added, added[i].hunk, |removed|)
  }

  function Get(counts: map<Hunk, nat>, h: Hunk): nat {
    if h in counts then counts[h] else 0
  }

  /** Some promotable item among the first `n` has this path and line. */
  ghost predicate PromotedAt(added: seq<Item>, removed: seq<Item>, n: nat, path: string, line: nat)
    requires n <= |added|
  {
    exists i :: 0 <= i < n && Promotable(added, removed, i) && added[i].hunk.path == path && added[i].line == line
  }

  /** The lines of the promotable items of a file. */
  ghost predicate PicksOut(added: seq<Item>, removed: seq<Item>, path: string, starts: set<nat>) {
    forall n :: n in starts <==> PromotedAt(added, removed, |added|, path, n)
  }

  predicate Listed(lines: map<string, set<nat>>, path: string, line: nat) {
    path in lines && line in lines[path]
  }

  /** Counts the removals that are left in each hunk. */
  method CountRemovals(added: seq<Item>, removed: seq<Item>, removedPaired: seq<bool>) returns (counts: map<Hunk, nat>)
    requires |removedPaired| == |removed| && forall j :: 0 <= j < |removed| ==> (removedPaired[j] <==> Paired(removed, added, j))
    ensures forall h :: Get(counts, h) == CountFree(removed, added, h, |removed|)
  {
    hide Paired;
    counts := map[];
    for j := 0 to |removed|
      invariant forall h :: Get(counts, h) == CountFree(removed, added, h, j)
    {
      if !removedPaired[j] {
        var h := removed[j].hunk;
        counts := counts[h := Get(counts, h) + 1];
      }
    }
  }

  method Settle(added: seq<Item>, removed: seq<Item>, addedPaired: seq<bool>, left: map<Hunk, nat>) returns (lines: map<string, set<nat>>)
    requires |addedPaired| == |added| && forall i :: 0 <= i < |added| ==> (addedPaired[i] <==> Paired(added, removed, i))
    requires forall h :: Get(left, h) == CountFree(removed, added, h, |removed|)
    ensures forall path, line :: Listed(lines, path, line) <==> PromotedAt(added, removed, |added|, path, line)
    ensures forall path :: path in lines ==> lines[path] != {}
  {
    hide Paired;
    var counts := left;
    lines := map[];
    for i := 0 to |added|
      invariant forall h :: Get(counts, h) == Minus(CountFree(removed, added, h, |removed|), CountFree(added, removed, h, i))
      invariant forall path, line :: Listed(lines, path, line) <==> PromotedAt(added, removed, i, path, line)
      invariant forall path :: path in lines ==> lines[path] != {}
    {
      var x := added[i];
      forall path, line ensures PromotedAt(added, removed, i + 1, path, line) <==>
          PromotedAt(added, removed, i, path, line) || (Promotable(added, removed, i) && x.hunk.path == path && x.line == line) {}
      if addedPaired[i] { continue; }
      var count := Get(counts, x.hunk);
      if count > 0 {
        counts := counts[x.hunk := count - 1];
        continue;
      }
      var path := x.hunk.path;
      ghost var before := lines;
      lines := lines[path := (if path in lines then lines[path] else {}) + {x.line}];
      forall p, line ensures Listed(lines, p, line) <==> Listed(before, p, line) || (p == path && line == x.line) {}
    }
  }

  /**
   The whole of it, from the diff to the lines of each file.  The items added and removed are those of the diff's
   own lines, each with its path, hunk and line, and what is listed are the lines of the promotable ones.
   */
  method CollectPromotableAddedItemLines(ls: seq<DiffLine>)
    returns (lines: map<string, set<nat>>, ghost added: seq<Item>, ghost removed: seq<Item>, ghost at: seq<nat>, ghost gone: seq<nat>)
    ensures AreItems(ls, true, |ls|, added, at) && AreItems(ls, false, |ls|, removed, gone)
    ensures forall path, line :: Listed(lines, path, line) <==> PromotedAt(added, removed, |added|, path, line)
    ensures forall path :: path in lines ==> lines[path] != {}
  {
    hide AreItems, Scanned;
    var candidates, removals := ReadDiff(ls);
    at, gone := ScannedIs(ls, |ls|);
    added, removed := candidates, removals;
    var addedPaired, removedPaired := Pair(candidates, removals);
    var left := CountRemovals(candidates, removals, removedPaired);
    lines := Settle(candidates, removals, addedPaired, left);
  }

  // ----- what this means -------------------------------------------------------------------

  function CountPaired(xs: seq<Item>, ys: seq<Item>, k: Key, n: nat): nat
    requires n <= |xs|
  {
    if n == 0 then 0 else CountPaired(xs, ys, k, n - 1) + if KeyOf(xs[n - 1]) == k && Paired(xs, ys, n - 1) then 1 else 0
  }

  lemma {:induction false} PairedAreFirst(xs: seq<Item>, ys: seq<Item>, k: Key, n: nat)
    requires n <= |xs|
    ensures var a, b := CountKey(xs, k, n), CountKey(ys, k, |ys|); CountPaired(xs, ys, k, n) == if a < b then a else b
  {
    if n > 0 { PairedAreFirst(xs, ys, k, n - 1); }
  }

  /** For every text in every file as many additions as removals are paired, and as many as can be. */
  lemma PairingIsOneToOne(added: seq<Item>, removed: seq<Item>, k: Key)
    ensures CountPaired(added, removed, k, |added|) == CountPaired(removed, added, k, |removed|)
    ensures var a, b := CountKey(added, k, |added|), CountKey(removed, k, |removed|);
            CountPaired(added, removed, k, |added|) == if a < b then a else b
  {
    PairedAreFirst(added, removed, k, |added|);
    PairedAreFirst(removed, added, k, |removed|);
  }

  /** A text that the file loses at least as often as it gains is never promoted: it was only moved. */
  lemma MovedIsNotPromoted(added: seq<Item>, removed: seq<Item>, i: nat)
    requires i < |added|
    requires var k := KeyOf(added[i]); CountKey(added, k, |added|) <= CountKey(removed, k, |removed|)
    ensures !Promotable(added, removed, i)
  {
    CountGrows(added, KeyOf(added[i]), i, |added|);
  }

  function CountPromotable(added: seq<Item>, removed: seq<Item>, h: Hunk, n: nat): nat
    requires n <= |added|
  {
    if n == 0 then 0 else CountPromotable(added, removed, h, n - 1) + if added[n - 1].hunk == h && Promotable(added, removed, n - 1) then 1 else 0
  }

  /** Of each hunk exactly the surplus of unpaired additions over unpaired removals is promoted. */
  lemma {:induction false} SurplusIsPromoted(added: seq<Item>, removed: seq<Item>, h: Hunk, n: nat)
    requires n <= |added|
    ensures CountPromotable(added, removed, h, n) == Minus(CountFree(added, removed, h, n), CountFree(removed, added, h, |removed|))
  {
    hide Paired;
    if n > 0 { SurplusIsPromoted(added, removed, h, n - 1); }
  }
}
