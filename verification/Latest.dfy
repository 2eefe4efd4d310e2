/** The last of the items with a key, in a list of lists. */
module Latest {
  /** The item at `(i, j)` has the key `k`. */
  ghost predicate HasKey<T, K>(xs: seq<seq<T>>, key: T -> K, k: K, i: nat, j: nat) {
    i < |xs| && j < |xs[i]| && key(xs[i][j]) == k
  }

  ghost predicate Occurs<T, K>(xs: seq<seq<T>>, key: T -> K, k: K) {
    exists i: nat, j: nat :: HasKey(xs, key, k, i, j)
  }

  /** It stands at `(i, j)`, and nowhere behind that. */
  ghost predicate IsLast<T, K>(xs: seq<seq<T>>, key: T -> K, k: K, i: nat, j: nat)
    ensures IsLast(xs, key, k, i, j) ==> i < |xs| && j < |xs[i]| && key(xs[i][j]) == k
  {
    HasKey(xs, key, k, i, j) && forall i': nat, j': nat :: HasKey(xs, key, k, i', j') ==> i' < i || (i' == i && j' <= j)
  }

  /** The last list continued by one item. */
  function Extended<T>(xs: seq<seq<T>>, x: T): seq<seq<T>>
    requires xs != []
  {
    xs[|xs| - 1 := xs[|xs| - 1] + [x]]
  }

  lemma AfterExtending<T, K>(xs: seq<seq<T>>, key: T -> K, x: T, k: K)
    requires xs != []
    ensures Occurs(Extended(xs, x), key, k) <==> Occurs(xs, key, k) || key(x) == k
    ensures forall i: nat, j: nat :: IsLast(Extended(xs, x), key, k, i, j) <==>
              if key(x) == k then i == |xs| - 1 && j == |xs[i]| else IsLast(xs, key, k, i, j)
  {
    var ys, at := Extended(xs, x), |xs[|xs| - 1]|;
    forall i: nat, j: nat ensures HasKey(ys, key, k, i, j) <==> HasKey(xs, key, k, i, j) || (key(x) == k && i == |xs| - 1 && j == at) {}
    if key(x) == k { assert HasKey(ys, key, k, |xs| - 1, at); }
  }

  lemma AfterOpening<T, K>(xs: seq<seq<T>>, key: T -> K, k: K)
    ensures Occurs(xs + [[]], key, k) <==> Occurs(xs, key, k)
    ensures forall i: nat, j: nat :: IsLast(xs + [[]], key, k, i, j) <==> IsLast(xs, key, k, i, j)
  {
    forall i: nat, j: nat ensures HasKey(xs + [[]], key, k, i, j) <==> HasKey(xs, key, k, i, j) {}
  }

  lemma ExtendedBy<T>(xs: seq<seq<T>>, es: seq<T>, n: nat)
    requires 0 < n <= |es|
    ensures Extended(xs + [es[..n - 1]], es[n - 1]) == xs + [es[..n]]
  {
    assert es[..n - 1] + [es[n - 1]] == es[..n];
    assert (xs + [es[..n - 1]])[|xs|] == es[..n - 1];
  }
}
