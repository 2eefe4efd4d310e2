/** A list of lists, one after the other. */
module Chained {
  datatype Place = Place(list: nat, item: nat)

  /** Place `a` comes before place `b`. */
  predicate Earlier(a: Place, b: Place) {
    a.list < b.list || (a.list == b.list && a.item < b.item)
  }

  predicate IsPlace<T>(xss: seq<seq<T>>, n: nat, at: Place) {
    at.list < n && at.list < |xss| && at.item < |xss[at.list]|
  }

  /** `xs` are the items of the first `n` lists, in their order and none left out; `at` says where each of them is. */
  ghost predicate IsChain<T>(xss: seq<seq<T>>, n: nat, xs: seq<T>, at: seq<Place>) {
    && |at| == |xs| && (forall a :: 0 <= a < |at| ==> IsPlace(xss, n, at[a]) && xs[a] == xss[at[a].list][at[a].item])
    && (forall a, b :: 0 <= a < b < |at| ==> Earlier(at[a], at[b]))
    && forall p :: IsPlace(xss, n, p) ==> p in at
  }

  function PlacesIn<T>(n: nat, xs: seq<T>): (at: seq<Place>)
    ensures |at| == |xs| && forall j :: 0 <= j < |at| ==> at[j] == Place(n, j)
  {
    seq(|xs|, j requires 0 <= j < |xs| => Place(n, j))
  }

  lemma ChainOn<T>(xss: seq<seq<T>>, n: nat, xs: seq<T>, at: seq<Place>)
    requires n < |xss| && IsChain(xss, n, xs, at)
    ensures IsChain(xss, n + 1, xs + xss[n], at + PlacesIn(n, xss[n]))
  {
    var more := at + PlacesIn(n, xss[n]);
    forall p | IsPlace(xss, n + 1, p) ensures p in more {
      if p.list < n { assert IsPlace(xss, n, p); } else { assert PlacesIn(n, xss[n])[p.item] == p; }
    }
  }

  lemma ChainStarts<T>(xss: seq<seq<T>>)
    ensures IsChain(xss, 0, [], [])
  {
  }
}
