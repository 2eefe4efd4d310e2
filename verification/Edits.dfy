/** Applying a set of edits to a text: reverse in-place splicing. */
module Edits {
  import opened Utf
  import opened Sorting

  datatype Edit = Edit(position: nat, deletedLength: nat, inserted: seq<Byte>) {
    function End(): nat {
      position + deletedLength
    }
  }

  datatype Outcome = Applied(output: seq<Byte>) | Overlapping | OutOfBounds | NotUtf8

  /** `String::from_utf8` accepts exactly the encodings of texts. */
  predicate ValidUtf8(b: seq<Byte>) {
    Encode(Decode(b)) == b
  }

  function PositionKey(e: Edit): Key {
    (e.position, 0)
  }

  /** No edit begins before an earlier one has ended. */
  predicate InTurn(es: seq<Edit>) {
    forall i, j :: 0 <= i < j < |es| ==> es[i].End() <= es[j].position
  }

  /** Of two edits, `a` listed first, the one that begins first ends before the other begins; at the same position `a` goes first. */
  predicate Compatible(a: Edit, b: Edit) {
    if a.position <= b.position then a.End() <= b.position else b.End() <= a.position
  }

  predicate AllCompatible(edits: seq<Edit>) {
    forall i, j :: 0 <= i < j < |edits| ==> Compatible(edits[i], edits[j])
  }

  predicate FirstCompatible(x: Edit, s: seq<Edit>) {
    forall y :: y in s ==> Compatible(x, y)
  }

  predicate EndsBefore(x: Edit, s: seq<Edit>) {
    forall y :: y in s ==> x.End() <= y.position
  }

  lemma InTurnCons(x: Edit, s: seq<Edit>)
    ensures InTurn([x] + s) <==> InTurn(s) && EndsBefore(x, s)
  {
    var r := [x] + s;
    if InTurn(r) {
      forall i, j | 0 <= i < j < |s| ensures s[i].End() <= s[j].position { assert r[i + 1].End() <= r[j + 1].position; }
      forall y | y in s ensures x.End() <= y.position {
        var i :| 0 <= i < |s| && s[i] == y;
        assert r[0].End() <= r[i + 1].position;
      }
    }
  }

  lemma CompatibleCons(x: Edit, s: seq<Edit>)
    ensures AllCompatible([x] + s) <==> AllCompatible(s) && FirstCompatible(x, s)
  {
    hide Compatible;
    var r := [x] + s;
    if AllCompatible(r) {
      forall i, j | 0 <= i < j < |s| ensures Compatible(s[i], s[j]) { assert Compatible(r[i + 1], r[j + 1]); }
      forall y | y in s ensures Compatible(x, y) {
        var i :| 0 <= i < |s| && s[i] == y;
        assert Compatible(r[0], r[i + 1]);
      }
    }
  }

  lemma {:induction false} InsertInTurn(x: Edit, s: seq<Edit>)
    requires Sorted(s, PositionKey)
    ensures InTurn(Insert(x, s, PositionKey)) <==> InTurn(s) && FirstCompatible(x, s)
  {
    hide InTurn;
    if s == [] || Leq(PositionKey(x), PositionKey(s[0])) {
      InTurnCons(x, s);
      forall y | y in s ensures x.position <= y.position {
        var i :| 0 <= i < |s| && s[i] == y;
        assert i > 0 ==> Leq(PositionKey(s[0]), PositionKey(s[i]));
      }
    } else {
      var first, rest := s[0], s[1..];
      InsertInTurn(x, rest);
      InTurnCons(first, Insert(x, rest, PositionKey));
      InTurnCons(first, rest);
      assert s == [first] + rest;
      InsertMembers(x, rest);
      InsertBehind(x, first, rest);
    }
  }

  lemma InsertMembers(x: Edit, s: seq<Edit>)
    ensures forall y :: y in Insert(x, s, PositionKey) <==> y == x || y in s
  {
    InsertKeeps(x, s, PositionKey);
    forall y ensures y in Insert(x, s, PositionKey) <==> y == x || y in s {
      assert y in multiset(Insert(x, s, PositionKey)) <==> y in multiset{x} + multiset(s);
    }
  }

  lemma InsertBehind(x: Edit, first: Edit, rest: seq<Edit>)
    requires x.position > first.position
    requires forall y :: y in Insert(x, rest, PositionKey) <==> y == x || y in rest
    ensures EndsBefore(first, Insert(x, rest, PositionKey)) <==> EndsBefore(first, rest) && Compatible(x, first)
    ensures FirstCompatible(x, [first] + rest) <==> FirstCompatible(x, rest) && Compatible(x, first)
  {
    hide Insert;
    if EndsBefore(first, Insert(x, rest, PositionKey)) { assert x in Insert(x, rest, PositionKey); }
    assert first in [first] + rest;
  }

  /** The sorted edits follow each other exactly when any two of them are compatible as listed. */
  lemma {:induction false} SortedInTurn(edits: seq<Edit>)
    ensures InTurn(Sort(edits, PositionKey)) <==> AllCompatible(edits)
  {
    hide Compatible, Insert;
    if edits != [] {
      var x, rest := edits[0], edits[1..];
      SortedInTurn(rest);
      SortMembers(rest, PositionKey);
      InsertInTurn(x, Sort(rest, PositionKey));
      CompatibleCons(x, rest);
      assert edits == [x] + rest;
    }
  }

  predicate Fit(es: seq<Edit>, content: seq<Byte>) {
    forall i :: 0 <= i < |es| ==> es[i].End() <= |content|
  }

  /** Left to right: the gap up to the next edit, its insertion, and so on, and what follows the last one. */
  function Weave(content: seq<Byte>, es: seq<Edit>, i: nat, at: nat): seq<Byte>
    requires i <= |es| && at <= |content| && InTurn(es) && (i < |es| ==> at <= es[i].position)
    requires Fit(es, content)
    decreases |es| - i
  {
    if i == |es| then content[at..]
    else content[at..es[i].position] + es[i].inserted + Weave(content, es, i + 1, es[i].End())
  }

  function Deleted(es: seq<Edit>, n: nat): nat
    requires n <= |es|
  {
    if n == 0 then 0 else Deleted(es, n - 1) + es[n - 1].deletedLength
  }

  function Inserted(es: seq<Edit>, n: nat): nat
    requires n <= |es|
  {
    if n == 0 then 0 else Inserted(es, n - 1) + |es[n - 1].inserted|
  }

  /** The exact length: every deleted byte goes, every inserted byte comes. */
  lemma {:induction false} WeaveLength(content: seq<Byte>, es: seq<Edit>, i: nat, at: nat)
    requires i <= |es| && at <= |content| && InTurn(es) && (i < |es| ==> at <= es[i].position)
    requires Fit(es, content)
    ensures |Weave(content, es, i, at)| + (Deleted(es, |es|) - Deleted(es, i)) == |content| - at + (Inserted(es, |es|) - Inserted(es, i))
    decreases |es| - i
  {
    hide Weave;
    WeaveStep(content, es, i, at);
    if i < |es| { WeaveLength(content, es, i + 1, es[i].End()); }
  }

  /** How far the bytes before edit `j` move the ones behind them, counted from edit `i` on. */
  function Shift(es: seq<Edit>, i: nat, j: nat): int
    requires i <= j <= |es|
  {
    (Inserted(es, j) - Inserted(es, i)) - (Deleted(es, j) - Deleted(es, i))
  }

  /** Where the bytes between edit `j` and the one before it lie, and those of edit `j`. */
  function From(es: seq<Edit>, i: nat, at: nat, j: nat): nat
    requires i <= j <= |es|
  {
    if j == i then at else es[j - 1].End()
  }

  function Upto(content: seq<Byte>, es: seq<Edit>, j: nat): nat
    requires j <= |es|
  {
    if j == |es| then |content| else es[j].position
  }

  /** In `w` stands the byte `x` of the content, moved by the edits before it. */
  predicate KeptAt(content: seq<Byte>, es: seq<Edit>, i: nat, at: nat, w: seq<Byte>, j: nat, x: nat)
    requires i <= j <= |es| && x < |content|
  {
    0 <= x - at + Shift(es, i, j) < |w| && w[x - at + Shift(es, i, j)] == content[x]
  }

  /** And the byte `k` that edit `j` inserts. */
  predicate InsertedAt(es: seq<Edit>, i: nat, at: nat, w: seq<Byte>, j: nat, k: nat)
    requires i <= j < |es| && k < |es[j].inserted|
  {
    0 <= es[j].position - at + Shift(es, i, j) + k < |w| && w[es[j].position - at + Shift(es, i, j) + k] == es[j].inserted[k]
  }

  /** Byte for byte: what no edit takes away is kept, and what each edit inserts stands where it applied, both moved by the edits before. */
  ghost predicate Woven(content: seq<Byte>, es: seq<Edit>, i: nat, at: nat, w: seq<Byte>)
    requires i <= |es|
  {
    && (forall j: nat, x: nat :: i <= j <= |es| && From(es, i, at, j) <= x < Upto(content, es, j) && x < |content| ==> KeptAt(content, es, i, at, w, j, x))
    && (forall j: nat, k: nat :: i <= j < |es| && k < |es[j].inserted| ==> InsertedAt(es, i, at, w, j, k))
  }

  lemma {:induction false} WeavePlaces(content: seq<Byte>, es: seq<Edit>, i: nat, at: nat)
    requires i <= |es| && at <= |content| && InTurn(es) && (i < |es| ==> at <= es[i].position)
    requires Fit(es, content)
    ensures Woven(content, es, i, at, Weave(content, es, i, at))
    decreases |es| - i
  {
    hide Weave, InTurn, Fit;
    WeaveStep(content, es, i, at);
    if i < |es| {
      WeavePlaces(content, es, i + 1, es[i].End());
      WovenOn(content, es, i, at, Weave(content, es, i + 1, es[i].End()));
    }
  }

  /** One edit more in front. */
  lemma WovenOn(content: seq<Byte>, es: seq<Edit>, i: nat, at: nat, rest: seq<Byte>)
    requires i < |es| && at <= es[i].position && es[i].End() <= |content| && Woven(content, es, i + 1, es[i].End(), rest)
    ensures Woven(content, es, i, at, content[at..es[i].position] + es[i].inserted + rest)
  {
    hide Inserted, Deleted;
    var gap, e := content[at..es[i].position], es[i];
    var w := gap + e.inserted + rest;
    ShiftOne(es, i);
    forall j: nat, x: nat | i <= j <= |es| && From(es, i, at, j) <= x < Upto(content, es, j) && x < |content| ensures KeptAt(content, es, i, at, w, j, x) {
      if j > i {
        assert KeptAt(content, es, i + 1, e.End(), rest, j, x);
        ShiftOn(es, i, j);
      }
    }
    forall j: nat, k: nat | i <= j < |es| && k < |es[j].inserted| ensures InsertedAt(es, i, at, w, j, k) {
      if j > i {
        assert InsertedAt(es, i + 1, e.End(), rest, j, k);
        ShiftOn(es, i, j);
      }
    }
  }

  lemma ShiftOne(es: seq<Edit>, i: nat)
    requires i < |es|
    ensures Shift(es, i, i) == 0
  {
  }

  lemma ShiftOn(es: seq<Edit>, i: nat, j: nat)
    requires i < j <= |es|
    ensures Shift(es, i, j) == Shift(es, i + 1, j) + |es[i].inserted| - es[i].deletedLength
  {
  }

  lemma WeaveStep(content: seq<Byte>, es: seq<Edit>, i: nat, at: nat)
    requires i <= |es| && at <= |content| && InTurn(es) && (i < |es| ==> at <= es[i].position)
    requires Fit(es, content)
    ensures i == |es| ==> Weave(content, es, i, at) == content[at..]
    ensures i < |es| ==>
              && es[i].End() <= |content| && (i + 1 < |es| ==> es[i].End() <= es[i + 1].position)
              && Weave(content, es, i, at) == content[at..es[i].position] + es[i].inserted + Weave(content, es, i + 1, es[i].End())
  {
  }

  lemma FitSame(a: seq<Edit>, b: seq<Edit>, content: seq<Byte>)
    requires forall x :: x in a <==> x in b
    ensures Fit(a, content) <==> Fit(b, content)
  {
    assert forall x :: x in a ==> x in b;
    assert Fit(a, content) <==> forall x :: x in a ==> x.End() <= |content|;
    assert Fit(b, content) <==> forall x :: x in b ==> x.End() <= |content|;
  }

  /** Where the first `i` edits end. */
  function EndOf(es: seq<Edit>, i: nat): (end: nat)
    requires i <= |es|
  {
    if i == 0 then 0 else es[i - 1].End()
  }

  method ApplyEdits(content: seq<Byte>, edits: seq<Edit>) returns (r: Outcome)
    ensures r.Overlapping? <==> !AllCompatible(edits)
    ensures r.OutOfBounds? <==> AllCompatible(edits) && !Fit(edits, content)
    ensures r.Applied? <==> AllCompatible(edits) && Fit(edits, content) && forall e :: e in edits ==> ValidUtf8(e.inserted)
    ensures r.Applied? ==>
              var es := Sort(edits, PositionKey);
              && InTurn(es) && Fit(es, content)
              && r.output == Weave(content, es, 0, 0) && Woven(content, es, 0, 0, r.output)
              && |r.output| + Deleted(es, |es|) == |content| + Inserted(es, |es|)
  {
    hide Sort, Encode, Decode, Compatible, Woven;
    var es := Sort(edits, PositionKey);
    SortMembers(edits, PositionKey);
    SortedInTurn(edits);
    var prevEnd: nat := 0;
    for i := 0 to |es|
      invariant prevEnd == EndOf(es, i) && InTurn(es[..i])
    {
      if es[i].position < prevEnd {
        return Overlapping;
      }
      forall j | 0 <= j < i ensures es[j].End() <= es[i].position {
        assert j < i - 1 ==> es[..i][j].End() <= es[..i][i - 1].position;
      }
      prevEnd := es[i].End();
    }
    assert es[..|es|] == es;
    FitSame(edits, es, content);
    r := Splice(content, es);
    if r.Applied? {
      WeaveLength(content, es, 0, 0);
      WeavePlaces(content, es, 0, 0);
    }
  }

  lemma LastFits(content: seq<Byte>, es: seq<Edit>)
    requires InTurn(es) && es != [] && es[|es| - 1].End() <= |content|
    ensures Fit(es, content)
  {
    forall i | 0 <= i < |es| - 1 ensures es[i].End() <= |content| { assert es[i].End() <= es[|es| - 1].position; }
  }

  /** The text after the edits from `i` on have been applied. */
  predicate SplicedFrom(content: seq<Byte>, es: seq<Edit>, i: nat, output: seq<Byte>)
    requires InTurn(es) && i <= |es|
  {
    if i == |es| then output == content
    else 0 <= EndOf(es, i) && Fit(es, content) && EndOf(es, i) <= es[i].position && output == content[..EndOf(es, i)] + Weave(content, es, i, EndOf(es, i))
  }

  lemma SpliceOne(content: seq<Byte>, es: seq<Edit>, i: nat, output: seq<Byte>)
    requires InTurn(es) && i < |es| && Fit(es, content) && SplicedFrom(content, es, i + 1, output)
    ensures es[i].End() <= |output|
    ensures SplicedFrom(content, es, i, output[..es[i].position] + es[i].inserted + output[es[i].End()..])
  {
    hide Weave;
    var e, at := es[i], EndOf(es, i);
    WeaveStep(content, es, i, at);
    WeaveStep(content, es, i + 1, e.End());
    var tail := Weave(content, es, i + 1, e.End());
    if i + 1 == |es| { assert content == content[..e.End()] + content[e.End()..]; }
    assert output == content[..e.End()] + tail;
    InPlace(content, output, at, e.position, e.End(), e.inserted, tail);
  }

  /** Replacing a stretch of a text whose beginning is the original's. */
  lemma InPlace(content: seq<Byte>, output: seq<Byte>, at: nat, start: nat, end: nat, inserted: seq<Byte>, tail: seq<Byte>)
    requires at <= start <= end <= |content| && output == content[..end] + tail
    ensures end <= |output|
    ensures output[..start] + inserted + output[end..] == content[..at] + (content[at..start] + inserted + tail)
  {
    assert output[..start] == content[..at] + content[at..start];
    assert output[end..] == tail;
  }

  /** The edits from the last to the first, each in place. */
  method Splice(content: seq<Byte>, es: seq<Edit>) returns (r: Outcome)
    requires InTurn(es)
    ensures !r.Overlapping? && (r.OutOfBounds? <==> !Fit(es, content))
    ensures r.Applied? <==> Fit(es, content) && forall e :: e in es ==> ValidUtf8(e.inserted)
    ensures r.Applied? ==> r.output == Weave(content, es, 0, 0)
  {
    hide Encode, Decode, Weave;
    var output := content;
    var i: nat := |es|;
    while i > 0
      invariant i <= |es| && SplicedFrom(content, es, i, output)
      invariant forall k :: i <= k < |es| ==> ValidUtf8(es[k].inserted)
    {
      i := i - 1;
      var start, end := es[i].position, es[i].End();
      if end > |output| || start > end {
        if i + 1 < |es| { SpliceOne(content, es, i, output); }
        return OutOfBounds;
      }
      if i + 1 == |es| { LastFits(content, es); }
      if !ValidUtf8(es[i].inserted) {
        return NotUtf8;
      }
      SpliceOne(content, es, i, output);
      output := output[..start] + es[i].inserted + output[end..];
    }
    r := Applied(output);
    if es == [] { WeaveNothing(content); } else { assert content[..0] + Weave(content, es, 0, 0) == Weave(content, es, 0, 0); }
  }

  lemma WeaveNothing(content: seq<Byte>)
    ensures Weave(content, [], 0, 0) == content
  {
  }
}
