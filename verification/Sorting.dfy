/** A stable sort by a key of two numbers, compared lexicographically. */
module Sorting {
  type Key = (int, int)

  predicate Leq(a: Key, b: Key) {
    a.0 < b.0 || (a.0 == b.0 && a.1 <= b.1)
  }

  predicate Sorted<T>(s: seq<T>, key: T -> Key) {
    forall i, j :: 0 <= i < j < |s| ==> Leq(key(s[i]), key(s[j]))
  }

  function Insert<T>(x: T, s: seq<T>, key: T -> Key): seq<T> {
    if s == [] || Leq(key(x), key(s[0])) then [x] + s else [s[0]] + Insert(x, s[1..], key)
  }

  /** An item goes in front of all later ones that are not smaller, so equal keys keep their order. */
  function Sort<T>(s: seq<T>, key: T -> Key): seq<T> {
    if s == [] then [] else Insert(s[0], Sort(s[1..], key), key)
  }

  /** The items with key `k`, in order. */
  function WithKey<T>(s: seq<T>, key: T -> Key, k: Key): seq<T> {
    if s == [] then [] else (if key(s[0]) == k then [s[0]] else []) + WithKey(s[1..], key, k)
  }

  lemma {:induction false} InsertKeeps<T>(x: T, s: seq<T>, key: T -> Key)
    ensures multiset(Insert(x, s, key)) == multiset{x} + multiset(s)
  {
    if s == [] || Leq(key(x), key(s[0])) {
    } else {
      InsertKeeps(x, s[1..], key);
      assert s == [s[0]] + s[1..];
    }
  }

  lemma {:induction false} InsertSorts<T>(x: T, s: seq<T>, key: T -> Key)
    requires Sorted(s, key)
    ensures Sorted(Insert(x, s, key), key)
  {
    if s == [] || Leq(key(x), key(s[0])) {
    } else {
      var rest := Insert(x, s[1..], key);
      InsertSorts(x, s[1..], key);
      InsertKeeps(x, s[1..], key);
      forall j | 0 <= j < |rest| ensures Leq(key(s[0]), key(rest[j])) {
        assert rest[j] in multiset(rest);
      }
    }
  }

  lemma {:induction false} InsertStable<T>(x: T, s: seq<T>, key: T -> Key, k: Key)
    ensures WithKey(Insert(x, s, key), key, k) == (if key(x) == k then [x] else []) + WithKey(s, key, k)
  {
    var r := Insert(x, s, key);
    if s == [] || Leq(key(x), key(s[0])) {
      assert r[1..] == s;
    } else {
      InsertStable(x, s[1..], key, k);
      assert r[1..] == Insert(x, s[1..], key);
    }
  }

  /** The sort orders its input, loses and invents nothing, and keeps equal keys in their order. */
  lemma {:induction false} SortIs<T>(s: seq<T>, key: T -> Key, k: Key)
    ensures Sorted(Sort(s, key), key) && multiset(Sort(s, key)) == multiset(s)
    ensures WithKey(Sort(s, key), key, k) == WithKey(s, key, k)
  {
    if s != [] {
      SortIs(s[1..], key, k);
      var rest := Sort(s[1..], key);
      InsertSorts(s[0], rest, key);
      InsertKeeps(s[0], rest, key);
      InsertStable(s[0], rest, key, k);
      assert s == [s[0]] + s[1..];
    }
  }

  lemma SortMembers<T>(s: seq<T>, key: T -> Key)
    ensures Sorted(Sort(s, key), key) && |Sort(s, key)| == |s|
    ensures forall x :: x in Sort(s, key) <==> x in s
  {
    SortIs(s, key, (0, 0));
    assert |multiset(s)| == |s|;
    forall x ensures x in Sort(s, key) <==> x in s {
      assert x in multiset(s) <==> x in multiset(Sort(s, key));
    }
  }
}
