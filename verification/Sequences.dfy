/** Facts about sequences and numbers that several modules need. */
module Sequences {
  function Last<T>(s: seq<T>): T
    requires s != []
  {
    s[|s| - 1]
  }

  lemma AddNothing<T>(a: seq<T>)
    ensures a + [] == a && [] + a == a
  {
  }

  lemma Assoc<T>(a: seq<T>, b: seq<T>, c: seq<T>)
    ensures a + (b + c) == (a + b) + c
  {
  }

  lemma CutInThree<T>(s: seq<T>, i: nat, m: nat, e: nat)
    requires i <= m <= e <= |s|
    ensures s[i..] == s[i..m] + s[m..e] + s[e..] == s[i..m] + (s[m..e] + s[e..])
  {
  }

  /** Subtraction that stops at zero. */
  function Minus(a: nat, b: nat): nat {
    if a < b then 0 else a - b
  }

  function NonNegative(n: int): nat {
    if n < 0 then 0 else n
  }
}
