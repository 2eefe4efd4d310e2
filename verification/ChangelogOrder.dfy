/** In which order the categories of a normalised section stand. */
module ChangelogOrder {
  import opened Sorting
  import opened Changelog
  import opened ChangelogFix

  /** A category with a line that is not blank. */
  predicate Filled(sub: Subsection) {
    exists i :: 0 <= i < |sub.lines| && !sub.lines[i].line.Blank?
  }

  /** The first filled category with this title. */
  predicate IsFirst(subs: seq<Subsection>, title: string, m: nat) {
    m < |subs| && subs[m].title == title && Filled(subs[m]) && forall k :: 0 <= k < m ==> subs[k].title != title || !Filled(subs[k])
  }

  const STANDARD := ["Breaking Changes", "Added", "Changed", "Fixed", "Removed"]

  /** `a` is one of the five titles, and `b` is not one of those up to it. */
  predicate Precedes(a: string, b: string) {
    exists x :: 0 <= x < |STANDARD| && STANDARD[x] == a && forall y :: 0 <= y <= x ==> STANDARD[y] != b
  }

  /** Where each category of `acc` first was; every filled one of the first `n` is in it. */
  ghost predicate Firsts(acc: seq<Subsection>, subs: seq<Subsection>, n: nat, at: seq<nat>) {
    && |at| == |acc| && n <= |subs| && (forall i :: 0 <= i < |at| ==> at[i] < n && IsFirst(subs, acc[i].title, at[i]))
    && (forall i, j :: 0 <= i < j < |at| ==> at[i] < at[j])
    && forall k :: 0 <= k < n && Filled(subs[k]) ==> exists i :: 0 <= i < |acc| && acc[i].title == subs[k].title
  }

  lemma FilledIff(sub: Subsection)
    ensures Filled(sub) <==> Trim(Texts(sub.lines)) != []
  {
    var ls := Texts(sub.lines);
    var a, c := TrimParts(ls);
    hide Trim;
    if Trim(ls) != [] {
      assert ls[|a|] == Trim(ls)[0];
      assert !sub.lines[|a|].line.Blank?;
    } else {
      assert ls == a + c;
      forall i | 0 <= i < |sub.lines| ensures sub.lines[i].line.Blank? { assert ls[i] == sub.lines[i].line && ls[i] in ls; }
    }
  }

  /** What one more category does to the titles. */
  lemma AddTitles(acc: seq<Subsection>, sub: Subsection)
    ensures var now := Add(acc, sub);
            if Filled(sub) && forall i :: 0 <= i < |acc| ==> acc[i].title != sub.title
            then |now| == |acc| + 1 && now == acc + [now[|acc|]] && now[|acc|].title == sub.title
            else |now| == |acc| && forall i :: 0 <= i < |acc| ==> now[i].title == acc[i].title
  {
    FilledIff(sub);
    hide Trim, AppendLines, Synthetic, Filled;
  }

  lemma {:induction false} MergedFirsts(subs: seq<Subsection>, n: nat) returns (at: seq<nat>)
    requires n <= |subs|
    ensures Firsts(Merged(subs, n), subs, n, at)
  {
    hide Filled, Add, IsFirst;
    if n == 0 {
      at := [];
    } else {
      at := MergedFirsts(subs, n - 1);
      var acc, sub := Merged(subs, n - 1), subs[n - 1];
      var now := Add(acc, sub);
      AddTitles(acc, sub);
      hide Firsts, Merged;
      if Filled(sub) && forall i :: 0 <= i < |acc| ==> acc[i].title != sub.title {
        FirstsGrow(acc, now[|acc|], subs, n, at);
        at := at + [n - 1];
      } else {
        FirstsStay(acc, now, subs, n, at);
      }
    }
  }

  /** A category that is not new, or not filled, changes no place. */
  lemma FirstsStay(acc: seq<Subsection>, now: seq<Subsection>, subs: seq<Subsection>, n: nat, at: seq<nat>)
    requires 0 < n <= |subs| && Firsts(acc, subs, n - 1, at) && |now| == |acc| && forall i :: 0 <= i < |acc| ==> now[i].title == acc[i].title
    requires Filled(subs[n - 1]) ==> exists i :: 0 <= i < |acc| && acc[i].title == subs[n - 1].title
    ensures Firsts(now, subs, n, at)
  {
    hide IsFirst, Filled;
    forall k | 0 <= k < n && Filled(subs[k]) ensures exists i :: 0 <= i < |now| && now[i].title == subs[k].title {
      var i :| 0 <= i < |acc| && acc[i].title == subs[k].title;
      assert now[i].title == subs[k].title;
    }
  }

  /** A new one comes last. */
  lemma FirstsGrow(acc: seq<Subsection>, x: Subsection, subs: seq<Subsection>, n: nat, at: seq<nat>)
    requires 0 < n <= |subs| && Firsts(acc, subs, n - 1, at) && Filled(subs[n - 1]) && x.title == subs[n - 1].title
    requires forall i :: 0 <= i < |acc| ==> acc[i].title != x.title
    ensures Firsts(acc + [x], subs, n, at + [n - 1])
  {
    hide Filled;
    var now := acc + [x];
    forall k | 0 <= k < n - 1 ensures subs[k].title != x.title || !Filled(subs[k]) {
      if Filled(subs[k]) { var i :| 0 <= i < |acc| && acc[i].title == subs[k].title; }
    }
    forall k | 0 <= k < n && Filled(subs[k]) ensures exists i :: 0 <= i < |now| && now[i].title == subs[k].title {
      if k < n - 1 {
        var i :| 0 <= i < |acc| && acc[i].title == subs[k].title;
        assert now[i].title == subs[k].title;
      } else {
        assert now[|acc|].title == subs[k].title;
      }
    }
  }

  // ----- the sort, by positions -----------------------------------------------------------

  lemma {:induction false} InsertsAt<T>(x: T, s: seq<T>, key: T -> Key) returns (q: nat)
    ensures q <= |s| && Insert(x, s, key) == s[..q] + [x] + s[q..] && forall k :: 0 <= k < q ==> !Leq(key(x), key(s[k]))
  {
    if s == [] || Leq(key(x), key(s[0])) {
      q := 0;
    } else {
      var r := InsertsAt(x, s[1..], key);
      q := r + 1;
      assert s[..q] == [s[0]] + s[1..][..r] && s[q..] == s[1..][r..];
    }
  }

  /** Where the items of a sorted list were, those with equal keys in their order. */
  ghost predicate Stable<T>(s: seq<T>, key: T -> Key, sorted: seq<T>, p: seq<nat>) {
    && |p| == |sorted| == |s| && (forall i :: 0 <= i < |p| ==> p[i] < |s| && sorted[i] == s[p[i]])
    && forall i, j :: 0 <= i < j < |p| ==> p[i] != p[j] && (key(sorted[i]) == key(sorted[j]) ==> p[i] < p[j])
  }

  lemma {:induction false} SortStable<T>(s: seq<T>, key: T -> Key) returns (p: seq<nat>)
    ensures Stable(s, key, Sort(s, key), p)
  {
    if s == [] {
      p := [];
    } else {
      var r := SortStable(s[1..], key);
      var rest := Sort(s[1..], key);
      var q := InsertsAt(s[0], rest, key);
      var moved := seq(|r|, i requires 0 <= i < |r| => r[i] + 1);
      p := moved[..q] + [0] + moved[q..];
      SortIs(s[1..], key, key(s[0]));
      InsertStays(s, key, rest, r, q, p, moved);
    }
  }

  lemma InsertStays<T>(s: seq<T>, key: T -> Key, rest: seq<T>, r: seq<nat>, q: nat, p: seq<nat>, moved: seq<nat>)
    requires s != [] && Stable(s[1..], key, rest, r) && q <= |rest| && |moved| == |r| && forall i :: 0 <= i < |r| ==> moved[i] == r[i] + 1
    requires p == moved[..q] + [0] + moved[q..] && forall k :: 0 <= k < q ==> !Leq(key(s[0]), key(rest[k]))
    ensures Stable(s, key, rest[..q] + [s[0]] + rest[q..], p)
  {
    var sorted := rest[..q] + [s[0]] + rest[q..];
    forall i | 0 <= i < |p| ensures p[i] < |s| && sorted[i] == s[p[i]] {
      if i < q { assert sorted[i] == rest[i]; } else if i > q { assert sorted[i] == rest[i - 1]; }
    }
  }

  // ----- a normalised section -----------------------------------------------------------------

  lemma TitleOrderIs(a: Subsection, b: Subsection)
    ensures TitleKey(a) == TitleKey(b) <==> a.title == b.title || (a.title !in STANDARD && b.title !in STANDARD)
    ensures Leq(TitleKey(a), TitleKey(b)) && TitleKey(a) != TitleKey(b) ==> Precedes(a.title, b.title)
  {
    assert STANDARD[0] == "Breaking Changes" && STANDARD[1] == "Added" && STANDARD[2] == "Changed" && STANDARD[3] == "Fixed" && STANDARD[4] == "Removed";
    if x :| 0 <= x < |STANDARD| && STANDARD[x] == a.title {
      assert TitleOrder(a.title) == x;
      assert TitleOrder(b.title) > x ==> forall y :: 0 <= y <= x ==> STANDARD[y] != b.title;
    }
  }

  /** How the categories of a section follow each other; `at` is where each of them was first filled. */
  ghost predicate InTheirOrder(s: Section, now: seq<Subsection>, at: seq<nat>) {
    && |at| == |now| && (forall i :: 0 <= i < |at| ==> IsFirst(s.subsections, now[i].title, at[i]))
    && (forall k :: 0 <= k < |s.subsections| && Filled(s.subsections[k]) ==> exists i :: 0 <= i < |now| && now[i].title == s.subsections[k].title)
    && forall i, j :: 0 <= i < j < |now| ==>
         if s.title == UNRELEASED && (now[i].title in STANDARD || now[j].title in STANDARD) then Precedes(now[i].title, now[j].title)
         else at[i] < at[j]
  }

  /**
   A normalised section has every category that was filled.  In the Unreleased section the five standard ones
   come first, in the standard order; all the others stand in the order in which they were first filled.
   */
  lemma CategoryOrder(s: Section) returns (at: seq<nat>)
    ensures InTheirOrder(s, Normal(s).subsections, at)
  {
    hide IsFirst, Filled, Merged, Sort, Precedes;
    var subs := s.subsections;
    var merged := Merged(subs, |subs|);
    var firsts := MergedFirsts(subs, |subs|);
    if s.title != UNRELEASED {
      at := firsts;
    } else {
      MergedFiles(subs, "", |subs|);
      var p := SortStable(merged, TitleKey);
      at := seq(|p|, i requires 0 <= i < |p| => firsts[p[i]]);
      SortMembers(merged, TitleKey);
      SortDistinct(merged);
      var now := Sort(merged, TitleKey);
      forall i, j | 0 <= i < j < |now|
        ensures if now[i].title in STANDARD || now[j].title in STANDARD then Precedes(now[i].title, now[j].title) else at[i] < at[j]
      {
        TitleOrderIs(now[i], now[j]);
      }
      forall k | 0 <= k < |subs| && Filled(subs[k]) ensures exists i :: 0 <= i < |now| && now[i].title == subs[k].title {
        var x :| 0 <= x < |merged| && merged[x].title == subs[k].title;
        assert merged[x] in now;
      }
    }
  }
}
