/** Splitting text on newlines, joining it back, and searching for a newline. */
module Lines {
  import opened Utf

  const NL: char := '\n'

  /** The newlines among the first `n` scalars. */
  function CountTo(t: Text, n: nat): nat
    requires n <= |t|
  {
    if n == 0 then 0 else CountTo(t, n - 1) + if t[n - 1] == NL then 1 else 0
  }

  function CountNewlines(t: Text): nat {
    CountTo(t, |t|)
  }

  /** The last line continued by `s`. */
  function Extend(ls: seq<Text>, s: Text): seq<Text>
    requires ls != []
  {
    ls[|ls| - 1 := ls[|ls| - 1] + s]
  }

  /** The first `n` scalars of `t` arriving after the lines `ls`: they extend the last one and may open more. */
  function Feed(ls: seq<Text>, t: Text, n: nat): (r: seq<Text>)
    requires ls != [] && n <= |t|
    ensures |r| == |ls| + CountTo(t, n)
  {
    if n == 0 then ls else if t[n - 1] == NL then Feed(ls, t, n - 1) + [[]] else Extend(Feed(ls, t, n - 1), [t[n - 1]])
  }

  function LinesOf(t: Text): (ls: seq<Text>)
    ensures |ls| == CountNewlines(t) + 1
  {
    Feed([[]], t, |t|)
  }

  function JoinTo(ls: seq<Text>, n: nat): Text
    requires n <= |ls|
  {
    if n == 0 then [] else if n == 1 then ls[0] else JoinTo(ls, n - 1) + [NL] + ls[n - 1]
  }

  function Join(ls: seq<Text>): Text {
    JoinTo(ls, |ls|)
  }

  // ----- newlines ----------------------------------------------------------------

  lemma {:induction false} CountToPrefix(t: Text, u: Text, n: nat)
    requires n <= |t| && n <= |u| && forall i :: 0 <= i < n ==> t[i] == u[i]
    ensures CountTo(t, n) == CountTo(u, n)
  {
    if n > 0 { CountToPrefix(t, u, n - 1); }
  }

  lemma {:induction false} CountToConcat(a: Text, b: Text, n: nat)
    requires n <= |b|
    ensures CountTo(a + b, |a| + n) == CountNewlines(a) + CountTo(b, n)
  {
    if n == 0 { CountToPrefix(a + b, a, |a|); } else { CountToConcat(a, b, n - 1); }
  }

  lemma {:induction false} CountNoneTo(t: Text, n: nat)
    requires n <= |t| && NL !in t
    ensures CountTo(t, n) == 0
  {
    if n > 0 { CountNoneTo(t, n - 1); }
  }

  lemma CountNone(t: Text)
    requires NL !in t
    ensures CountNewlines(t) == 0
  {
    CountNoneTo(t, |t|);
  }

  lemma CountConcat(a: Text, b: Text)
    ensures CountNewlines(a + b) == CountNewlines(a) + CountNewlines(b)
  {
    CountToConcat(a, b, |b|);
  }

  // ----- splitting ---------------------------------------------------------------

  lemma {:induction false} FeedPrefix(ls: seq<Text>, t: Text, u: Text, n: nat)
    requires ls != [] && n <= |t| && n <= |u| && forall i :: 0 <= i < n ==> t[i] == u[i]
    ensures Feed(ls, t, n) == Feed(ls, u, n)
  {
    if n > 0 { FeedPrefix(ls, t, u, n - 1); }
  }

  lemma ExtendTwice(ls: seq<Text>, s: Text, t: Text)
    requires ls != []
    ensures Extend(Extend(ls, s), t) == Extend(ls, s + t)
  {
    var x := ls[|ls| - 1];
    assert (x + s) + t == x + (s + t);
  }

  lemma ExtendEmpty(ls: seq<Text>)
    requires ls != []
    ensures Extend(ls, []) == ls
  {
    assert ls[|ls| - 1] + [] == ls[|ls| - 1];
  }

  /** A stretch without a newline only extends the last line. */
  lemma {:induction false} FeedSegment(ls: seq<Text>, t: Text, m: nat, n: nat)
    requires ls != [] && m <= n <= |t| && NL !in t[m..n]
    ensures Feed(ls, t, n) == Extend(Feed(ls, t, m), t[m..n])
  {
    if m < n {
      assert t[m..n] == t[m..n - 1] + [t[n - 1]];
      FeedSegment(ls, t, m, n - 1);
      ExtendTwice(Feed(ls, t, m), t[m..n - 1], [t[n - 1]]);
    } else {
      ExtendEmpty(Feed(ls, t, m));
      assert t[m..n] == [];
    }
  }

  lemma {:induction false} FeedOn(a: Text, b: Text, n: nat)
    requires n <= |b|
    ensures Feed(LinesOf(a), b, n) == Feed([[]], a + b, |a| + n)
  {
    if n == 0 { FeedPrefix([[]], a + b, a, |a|); } else { FeedOn(a, b, n - 1); }
  }

  lemma FeedNewline(ls: seq<Text>, t: Text, n: nat)
    requires ls != [] && n < |t| && t[n] == NL
    ensures Feed(ls, t, n + 1) == Feed(ls, t, n) + [[]]
  {
  }

  lemma LinesExtend(a: Text, s: Text)
    requires NL !in s
    ensures LinesOf(a + s) == Extend(LinesOf(a), s)
  {
    assert (a + s)[|a|..|a + s|] == s;
    FeedSegment([[]], a + s, |a|, |a + s|);
    FeedPrefix([[]], a + s, a, |a|);
  }

  lemma NoNewline(s: Text)
    requires NL !in s
    ensures LinesOf(s) == [s]
  {
    LinesExtend([], s);
    var empty: seq<Text> := [[]];
    assert LinesOf([]) == empty && [] + s == s && empty[0] + s == s;
  }

  lemma {:induction false} FeedConcat(a: Text, b: Text, n: nat)
    requires n <= |b|
    ensures Feed([[]], a + [NL] + b, |a| + 1 + n) == LinesOf(a) + Feed([[]], b, n)
  {
    if n == 0 { FeedPrefix([[]], a + [NL] + b, a, |a|); } else { FeedConcat(a, b, n - 1); }
  }

  lemma LinesConcat(a: Text, b: Text)
    ensures LinesOf(a + [NL] + b) == LinesOf(a) + LinesOf(b)
  {
    FeedConcat(a, b, |b|);
  }

  lemma {:induction false} FeedHasNoNewline(t: Text, n: nat, i: nat)
    requires n <= |t| && i < |Feed([[]], t, n)|
    ensures NL !in Feed([[]], t, n)[i]
  {
    if n > 0 && i < |Feed([[]], t, n - 1)| { FeedHasNoNewline(t, n - 1, i); }
  }

  lemma LinesHaveNoNewline(t: Text, i: nat)
    requires i < |LinesOf(t)|
    ensures NL !in LinesOf(t)[i]
  {
    FeedHasNoNewline(t, |t|, i);
  }

  // ----- joining -----------------------------------------------------------------

  lemma {:induction false} JoinToPrefix(a: seq<Text>, b: seq<Text>, n: nat)
    requires n <= |a| && n <= |b| && forall i :: 0 <= i < n ==> a[i] == b[i]
    ensures JoinTo(a, n) == JoinTo(b, n)
  {
    if n > 1 { JoinToPrefix(a, b, n - 1); }
  }

  lemma {:induction false} JoinToConcat(a: seq<Text>, b: seq<Text>, n: nat)
    requires a != [] && 0 < n <= |b|
    ensures JoinTo(a + b, |a| + n) == Join(a) + [NL] + JoinTo(b, n)
  {
    if n == 1 {
      JoinToPrefix(a + b, a, |a|);
    } else {
      JoinToConcat(a, b, n - 1);
      assert Join(a) + [NL] + JoinTo(b, n - 1) + [NL] + b[n - 1] == Join(a) + [NL] + (JoinTo(b, n - 1) + [NL] + b[n - 1]);
    }
  }

  lemma JoinConcat(a: seq<Text>, b: seq<Text>)
    requires a != [] && b != []
    ensures Join(a + b) == Join(a) + [NL] + Join(b)
  {
    JoinToConcat(a, b, |b|);
  }

  lemma JoinExtend(ls: seq<Text>, s: Text)
    requires ls != []
    ensures Join(Extend(ls, s)) == Join(ls) + s && Bytes(Join(Extend(ls, s))) == Bytes(Join(ls)) + Bytes(s)
  {
    JoinToPrefix(ls, Extend(ls, s), |ls| - 1);
    if |ls| > 1 {
      assert JoinTo(ls, |ls| - 1) + [NL] + (ls[|ls| - 1] + s) == Join(ls) + s;
    }
    BytesConcat(Join(ls), s);
  }

  lemma JoinNewline(ls: seq<Text>)
    requires ls != []
    ensures Join(ls + [[]]) == Join(ls) + [NL] && Bytes(Join(ls + [[]])) == Bytes(Join(ls)) + 1
  {
    JoinConcat(ls, [[]]);
    assert Join([[]]) == [];
    BytesSnoc(Join(ls), NL);
  }

  lemma {:induction false} JoinFeed(ls: seq<Text>, t: Text, n: nat)
    requires ls != [] && n <= |t|
    ensures Join(Feed(ls, t, n)) == Join(ls) + t[..n]
  {
    if n > 0 {
      JoinFeed(ls, t, n - 1);
      if t[n - 1] == NL { JoinNewline(Feed(ls, t, n - 1)); } else { JoinExtend(Feed(ls, t, n - 1), [t[n - 1]]); }
      assert Join(ls) + t[..n - 1] + [t[n - 1]] == Join(ls) + t[..n];
    }
  }

  lemma JoinLines(t: Text)
    ensures Join(LinesOf(t)) == t
  {
    JoinFeed([[]], t, |t|);
    assert Join([[]]) == [] && [] + t[..|t|] == t;
  }

  lemma {:induction false} LinesJoinTo(ls: seq<Text>, n: nat)
    requires 0 < n <= |ls| && forall i :: 0 <= i < |ls| ==> NL !in ls[i]
    ensures LinesOf(JoinTo(ls, n)) == ls[..n]
  {
    NoNewline(ls[n - 1]);
    if n > 1 {
      LinesJoinTo(ls, n - 1);
      LinesConcat(JoinTo(ls, n - 1), ls[n - 1]);
    }
    assert ls[..n] == ls[..n - 1] + [ls[n - 1]];
  }

  lemma LinesJoin(ls: seq<Text>)
    requires ls != [] && forall i :: 0 <= i < |ls| ==> NL !in ls[i]
    ensures LinesOf(Join(ls)) == ls
  {
    LinesJoinTo(ls, |ls|);
    assert ls[..|ls|] == ls;
  }

  lemma JoinSnoc(ls: seq<Text>, x: Text)
    ensures Join(ls + [x]) == (if ls == [] then x else Join(ls) + [NL] + x)
    ensures Bytes(Join(ls + [x])) == Bytes(Join(ls)) + (if ls == [] then 0 else 1) + Bytes(x)
  {
    JoinToPrefix(ls, ls + [x], |ls|);
    BytesConcat(Join(ls) + [NL], x);
    BytesSnoc(Join(ls), NL);
  }

  lemma BytesJoinConcat(a: seq<Text>, b: seq<Text>)
    requires a != [] && b != []
    ensures Bytes(Join(a + b)) == Bytes(Join(a)) + 1 + Bytes(Join(b))
  {
    JoinConcat(a, b);
    BytesConcat(Join(a) + [NL], Join(b));
    BytesSnoc(Join(a), NL);
  }

  lemma BytesJoinCons(x: Text, ls: seq<Text>)
    ensures Bytes(Join([x] + ls)) == Bytes(x) + (if ls == [] then 0 else 1) + Bytes(Join(ls))
  {
    assert Join([x]) == x;
    if ls == [] { assert [x] + ls == [x]; } else { BytesJoinConcat([x], ls); }
  }

  /** `indexOf("\n", from)`. */
  function IndexOf(t: Text, from: nat): (r: int)
    ensures -1 <= r < |t|
    decreases |t| - from
  {
    if from >= |t| then -1 else if t[from] == NL then from else IndexOf(t, from + 1)
  }

  /** `lastIndexOf("\n", from)`: a negative start is read as index 0, one past the end as the last index. */
  function LastIndexOf(t: Text, from: int): (r: int)
    ensures -1 <= r < |t|
    decreases if from < 0 then 0 else from
  {
    if t == [] then -1
    else if from <= 0 then if t[0] == NL then 0 else -1
    else if from < |t| && t[from] == NL then from
    else LastIndexOf(t, from - 1)
  }

  lemma {:induction false} LastIndexOfIs(t: Text, from: int)
    requires from < |t|
    ensures var r := LastIndexOf(t, from);
            && (r >= 0 ==> t[r] == NL && (r <= from || r == 0)) && (r < 0 ==> t == [] || t[0] != NL)
            && forall i :: 0 <= i <= from && r < i ==> t[i] != NL
    decreases if from < 0 then 0 else from
  {
    if from > 0 && t[from] != NL { LastIndexOfIs(t, from - 1); }
  }

  lemma {:induction false} IndexOfIs(t: Text, from: nat)
    requires from <= |t|
    ensures var r := IndexOf(t, from);
            if r == -1 then NL !in t[from..|t|] else from <= r < |t| && t[r] == NL && NL !in t[from..r]
    decreases |t| - from
  {
    if from < |t| && t[from] != NL { IndexOfIs(t, from + 1); }
  }

  /** The first newline at or after `from`, if the text from there up to `stop` has none. */
  lemma {:induction false} FirstNewline(t: Text, from: nat, stop: nat)
    requires from <= stop <= |t| && (stop < |t| ==> t[stop] == NL)
    requires forall i :: from <= i < stop ==> t[i] != NL
    ensures IndexOf(t, from) == if stop == |t| then -1 else stop
    decreases stop - from
  {
    if from < stop { FirstNewline(t, from + 1, stop); }
  }

  /** The last newline before `stop`, if the text from `from` up to there has none. */
  lemma {:induction false} LastNewline(t: Text, from: nat, stop: nat)
    requires from <= stop <= |t| && (from > 0 ==> t[from - 1] == NL) && (stop == 0 ==> t == [])
    requires forall i :: from <= i < stop ==> t[i] != NL
    ensures LastIndexOf(t, stop - 1) == from - 1
    decreases stop - from
  {
    if from < stop && stop > 1 { LastNewline(t, from, stop - 1); }
  }

  // ----- where the lines of a text lie ------------------------------------------

  /** The length of the first `n` lines, newlines between them included. */
  function End(ls: seq<Text>, n: nat): nat
    requires n <= |ls|
  {
    if n == 0 then 0 else End(ls, n - 1) + (if n == 1 then 0 else 1) + |ls[n - 1]|
  }

  /** The position where line `n` starts. */
  function Start(ls: seq<Text>, n: nat): nat
    requires n <= |ls|
  {
    if n == 0 then 0 else End(ls, n) + 1
  }

  lemma {:induction false} EndIs(ls: seq<Text>, n: nat)
    requires n <= |ls|
    ensures End(ls, n) == |Join(ls[..n])|
    ensures n > 0 ==> Join(ls[..n])[Start(ls, n - 1)..] == ls[n - 1]
    ensures n > 1 ==> Join(ls[..n])[End(ls, n - 1)] == NL
  {
    if n > 0 {
      assert ls[..n] == ls[..n - 1] + [ls[n - 1]];
      EndIs(ls, n - 1);
      if n > 1 { JoinConcat(ls[..n - 1], [ls[n - 1]]); }
    }
  }

  lemma Halves(t: Text, a: Text, b: Text)
    requires t == a + [NL] + b
    ensures t[..|a|] == a && t[|a|] == NL && t[|a| + 1..] == b
  {
  }

  lemma InnerSplit(t: Text, ls: seq<Text>, n: nat)
    requires t == Join(ls) && 0 < n < |ls|
    ensures End(ls, n) < |t| && t[..End(ls, n)] == Join(ls[..n]) && t[End(ls, n)] == NL && t[End(ls, n) + 1..] == Join(ls[n..])
  {
    EndIs(ls, n);
    assert ls == ls[..n] + ls[n..];
    JoinConcat(ls[..n], ls[n..]);
    Halves(t, Join(ls[..n]), Join(ls[n..]));
  }

  /** The first `n` lines are a prefix of the text, and the others start one newline later. */
  lemma LinesBefore(t: Text, ls: seq<Text>, n: nat)
    requires t == Join(ls) && n <= |ls|
    ensures End(ls, n) <= |t| && t[..End(ls, n)] == Join(ls[..n])
    ensures n < |ls| ==> Start(ls, n) <= |t| && t[Start(ls, n)..] == Join(ls[n..])
    ensures 0 < n < |ls| ==> End(ls, n) < |t| && t[End(ls, n)] == NL
    ensures n == |ls| ==> End(ls, n) == |t|
  {
    if 0 < n < |ls| {
      InnerSplit(t, ls, n);
    } else if n == 0 {
      assert ls[0..] == ls && t[0..] == t;
    } else {
      EndIs(ls, n);
      assert ls[..n] == ls && t[..|t|] == t;
    }
  }

  /** Line `n` lies between its start and its end, and a newline precedes it unless it is the first. */
  ghost predicate LineIs(t: Text, ls: seq<Text>, n: nat)
    requires n < |ls|
  {
    && Start(ls, n) <= End(ls, n + 1) <= |t|
    && t[Start(ls, n)..End(ls, n + 1)] == ls[n]
    && (n > 0 ==> t[End(ls, n)] == NL)
    && NL !in ls[n]
  }

  /** The lines of a text, by position. */
  ghost predicate Lined(t: Text, ls: seq<Text>) {
    ls != [] && End(ls, |ls|) == |t| && forall n :: 0 <= n < |ls| ==> LineIs(t, ls, n)
  }

  lemma LineIsAt(t: Text, ls: seq<Text>, n: nat)
    requires ls == LinesOf(t) && n < |ls|
    ensures LineIs(t, ls, n)
  {
    JoinLines(t);
    LinesBefore(t, ls, n);
    LinesBefore(t, ls, n + 1);
    EndIs(ls, n + 1);
    LinesHaveNoNewline(t, n);
    var h := t[..End(ls, n + 1)];
    assert h[Start(ls, n)..] == ls[n];
    assert t[Start(ls, n)..End(ls, n + 1)] == h[Start(ls, n)..];
  }

  lemma LinesAreLined(t: Text)
    ensures Lined(t, LinesOf(t))
  {
    var ls := LinesOf(t);
    forall n | 0 <= n < |ls| ensures LineIs(t, ls, n) { LineIsAt(t, ls, n); }
    JoinLines(t);
    LinesBefore(t, ls, |ls|);
  }

  /** Looking forward from the start of a line finds the newline that ends it. */
  lemma FindForward(t: Text, ls: seq<Text>, n: nat)
    requires Lined(t, ls) && n < |ls|
    ensures Start(ls, n) <= |t| && IndexOf(t, Start(ls, n)) == if n + 1 == |ls| then -1 else End(ls, n + 1)
  {
    assert LineIs(t, ls, n);
    assert n + 1 < |ls| ==> LineIs(t, ls, n + 1);
    NoNewlineWithin(t, Start(ls, n), End(ls, n + 1), ls[n]);
    FirstNewline(t, Start(ls, n), End(ls, n + 1));
  }

  /** Looking back from the end of a line finds the newline before it; only at the very start can it not. */
  lemma FindBackward(t: Text, ls: seq<Text>, n: nat)
    requires Lined(t, ls) && n < |ls| && (End(ls, n + 1) > 0 || t == [])
    ensures LastIndexOf(t, End(ls, n + 1) - 1) + 1 == Start(ls, n) <= End(ls, n + 1) <= |t|
  {
    assert LineIs(t, ls, n);
    NoNewlineWithin(t, Start(ls, n), End(ls, n + 1), ls[n]);
    LastNewline(t, Start(ls, n), End(ls, n + 1));
  }

  lemma NoNewlineWithin(t: Text, start: nat, end: nat, line: Text)
    requires start <= end <= |t| && t[start..end] == line && NL !in line
    ensures forall i :: start <= i < end ==> t[i] != NL
  {
    forall i | start <= i < end ensures t[i] != NL { assert t[i] == line[i - start]; }
  }
}
