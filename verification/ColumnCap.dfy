/**
 The per-line byte cap, as a relation between the lines that came in and the lines that went out.

 `rs` are the raw lines so far and `os` the capped ones, the last of each still open.
 */
module ColumnCap {
  import opened Sequences
  import opened Utf
  import opened Lines

  const ELLIPSIS: char := '\U{2026}'
  const ELLIPSIS_BYTES: nat := 3

  /** How much of a line is sure to be kept when it is cut. */
  function Room(max: nat): nat {
    if max < ELLIPSIS_BYTES then 0 else max - ELLIPSIS_BYTES
  }

  predicate IsPrefix(p: Text, t: Text) {
    |p| <= |t| && t[..|p|] == p
  }

  /** A line that fits passes; any other becomes a prefix of itself and one ellipsis. */
  predicate LineCapped(r: Text, o: Text, max: nat) {
    if Bytes(r) <= max then o == r
    else
      && o != [] && o[|o| - 1] == ELLIPSIS
      && var p := o[..|o| - 1]; IsPrefix(p, r) && Bytes(p) <= max && IsPrefix(LongestPrefix(r, Room(max)), p)
  }

  function CountLong(ls: seq<Text>, n: nat, max: nat): nat
    requires n <= |ls|
  {
    if n == 0 then 0 else CountLong(ls, n - 1, max) + if Bytes(ls[n - 1]) > max then 1 else 0
  }

  lemma {:induction false} CountLongPrefix(p: seq<Text>, q: seq<Text>, n: nat, max: nat)
    requires n <= |p| && n <= |q| && forall i :: 0 <= i < n ==> p[i] == q[i]
    ensures CountLong(p, n, max) == CountLong(q, n, max)
  {
    if n > 0 { CountLongPrefix(p, q, n - 1, max); }
  }

  /** Line `i` came out as it should. */
  ghost predicate LineOk(rs: seq<Text>, os: seq<Text>, i: nat, max: nat)
    requires i < |rs| == |os|
  {
    LineCapped(rs[i], os[i], max) && NL !in rs[i] && NL !in os[i]
  }

  /** What the streaming state says about the lines seen so far. */
  ghost predicate Capped(rs: seq<Text>, os: seq<Text>, max: nat, lineBytes: nat, ellipsisAdded: bool, dropped: nat, lines: nat) {
    && rs != [] && |rs| == |os|
    && (forall i :: 0 <= i < |rs| ==> LineOk(rs, os, i, max))
    && ellipsisAdded == (Bytes(Last(rs)) > max) && lineBytes == Bytes(Last(os))
    && lines == CountLong(rs, |rs|, max)
    && Bytes(Join(rs)) + ELLIPSIS_BYTES * lines == Bytes(Join(os)) + dropped
  }

  ghost predicate AreLines(ls: seq<Text>, t: Text) {
    ls == LinesOf(t)
  }

  /** The same about the streams themselves, whatever their lines are. */
  ghost predicate StreamCapped(raw: Text, out: Text, max: nat, lineBytes: nat, ellipsisAdded: bool, dropped: nat, lines: nat) {
    forall rs, os :: AreLines(rs, raw) && AreLines(os, out) ==> Capped(rs, os, max, lineBytes, ellipsisAdded, dropped, lines)
  }

  lemma StreamCappedIf(raw: Text, out: Text, rs: seq<Text>, os: seq<Text>,
                       max: nat, lineBytes: nat, ellipsisAdded: bool, dropped: nat, lines: nat)
    requires Capped(rs, os, max, lineBytes, ellipsisAdded, dropped, lines) && raw == Join(rs) && out == Join(os)
    ensures StreamCapped(raw, out, max, lineBytes, ellipsisAdded, dropped, lines)
  {
    forall i | 0 <= i < |rs| ensures NL !in rs[i] && NL !in os[i] { assert LineOk(rs, os, i, max); }
    LinesJoin(rs);
    LinesJoin(os);
  }

  lemma StreamCappedLines(raw: Text, out: Text, max: nat, lineBytes: nat, ellipsisAdded: bool, dropped: nat, lines: nat)
    requires StreamCapped(raw, out, max, lineBytes, ellipsisAdded, dropped, lines)
    ensures Capped(LinesOf(raw), LinesOf(out), max, lineBytes, ellipsisAdded, dropped, lines)
    ensures Join(LinesOf(raw)) == raw && Join(LinesOf(out)) == out
    ensures Bytes(raw) + ELLIPSIS_BYTES * lines == Bytes(out) + dropped
  {
    assert AreLines(LinesOf(raw), raw) && AreLines(LinesOf(out), out);
    JoinLines(raw);
    JoinLines(out);
  }

  /** Changing only the last line leaves the others as they were. */
  lemma ReplaceLast(rs: seq<Text>, os: seq<Text>, rs': seq<Text>, os': seq<Text>, max: nat)
    requires rs != [] && |rs| == |os| == |rs'| == |os'|
    requires forall i :: 0 <= i < |rs| ==> LineOk(rs, os, i, max)
    requires forall i :: 0 <= i < |rs| - 1 ==> rs'[i] == rs[i] && os'[i] == os[i]
    requires LineCapped(Last(rs'), Last(os'), max) && NL !in Last(rs') && NL !in Last(os')
    ensures forall i :: 0 <= i < |rs'| ==> LineOk(rs', os', i, max)
    ensures CountLong(rs', |rs'| - 1, max) == CountLong(rs, |rs| - 1, max)
  {
    forall i | 0 <= i < |rs'| ensures LineOk(rs', os', i, max) { assert LineOk(rs, os, i, max); }
    CountLongPrefix(rs, rs', |rs| - 1, max);
  }

  lemma StartsCapped(max: nat)
    ensures StreamCapped([], [], max, 0, false, 0, 0)
  {
    var empty: seq<Text> := [[]];
    assert CountLong(empty, 0, max) == 0 && Join(empty) == [];
    forall i | 0 <= i < 1 ensures LineOk(empty, empty, i, max) { assert Bytes([]) == 0; }
    StreamCappedIf([], [], empty, empty, max, 0, false, 0, 0);
  }

  /** A segment that still fits is passed on. */
  lemma CapKeep(rs: seq<Text>, os: seq<Text>, max: nat, lineBytes: nat, dropped: nat, lines: nat, s: Text)
    requires Capped(rs, os, max, lineBytes, false, dropped, lines) && NL !in s && lineBytes + Bytes(s) <= max
    ensures Capped(Extend(rs, s), Extend(os, s), max, lineBytes + Bytes(s), false, dropped, lines)
  {
    assert LineOk(rs, os, |rs| - 1, max);
    BytesConcat(Last(rs), s);
    JoinExtend(rs, s);
    JoinExtend(os, s);
    ReplaceLast(rs, os, Extend(rs, s), Extend(os, s), max);
  }

  /** A segment of a line that is already cut is dropped. */
  lemma CapDrop(rs: seq<Text>, os: seq<Text>, max: nat, lineBytes: nat, dropped: nat, lines: nat, s: Text)
    requires Capped(rs, os, max, lineBytes, true, dropped, lines) && NL !in s
    ensures Capped(Extend(rs, s), os, max, lineBytes, true, dropped + Bytes(s), lines)
  {
    var r, o := Last(rs), Last(os);
    assert LineOk(rs, os, |rs| - 1, max);
    BytesConcat(r, s);
    PrefixDominates(r, s, Room(max));
    assert LineCapped(r + s, o, max);
    JoinExtend(rs, s);
    ReplaceLast(rs, os, Extend(rs, s), os, max);
  }

  /** What is left for a segment once its ellipsis is accounted for. */
  function HeadRoom(max: nat, lineBytes: nat): nat {
    if max < lineBytes + ELLIPSIS_BYTES then 0 else max - lineBytes - ELLIPSIS_BYTES
  }

  /** The first segment that does not fit is cut, and the ellipsis goes out. */
  lemma CapCut(rs: seq<Text>, os: seq<Text>, max: nat, lineBytes: nat, dropped: nat, lines: nat, s: Text, kept: Text)
    requires Capped(rs, os, max, lineBytes, false, dropped, lines) && NL !in s && lineBytes + Bytes(s) > max
    requires kept == LongestPrefix(s, HeadRoom(max, lineBytes))
    ensures Bytes(kept) <= Bytes(s)
    ensures Capped(Extend(rs, s), Extend(os, kept + [ELLIPSIS]), max, lineBytes + Bytes(kept) + ELLIPSIS_BYTES, true,
                   dropped + (Bytes(s) - Bytes(kept)), lines + 1)
  {
    assert LineOk(rs, os, |rs| - 1, max);
    CutLine(Last(rs), s, max, kept);
    JoinExtend(rs, s);
    JoinExtend(os, kept + [ELLIPSIS]);
    ReplaceLast(rs, os, Extend(rs, s), Extend(os, kept + [ELLIPSIS]), max);
  }

  lemma CutLine(r: Text, s: Text, max: nat, kept: Text)
    requires Bytes(r) <= max < Bytes(r) + Bytes(s) && NL !in r && NL !in s
    requires kept == LongestPrefix(s, HeadRoom(max, Bytes(r)))
    ensures LineCapped(r + s, r + (kept + [ELLIPSIS]), max) && NL !in kept
    ensures Bytes(r + s) == Bytes(r) + Bytes(s) && Bytes(kept) <= Bytes(s)
    ensures Bytes(r + (kept + [ELLIPSIS])) == Bytes(r) + Bytes(kept) + ELLIPSIS_BYTES == Bytes(r) + Bytes(kept + [ELLIPSIS])
  {
    var rest := PrefixCut(s, HeadRoom(max, Bytes(r)));
    BytesConcat(r, s);
    BytesConcat(r, kept);
    CutKeepsRoom(r, s, max, kept);
    var o := r + (kept + [ELLIPSIS]);
    assert o[..|o| - 1] == r + kept;
    BytesSnoc(kept, ELLIPSIS);
    BytesConcat(r, kept + [ELLIPSIS]);
  }

  /** Whatever the chunks were, a cut line keeps at least what fits beside the ellipsis. */
  lemma CutKeepsRoom(r: Text, s: Text, max: nat, kept: Text)
    requires Bytes(r) <= max
    requires kept == LongestPrefix(s, HeadRoom(max, Bytes(r)))
    ensures IsPrefix(LongestPrefix(r + s, Room(max)), r + kept) && IsPrefix(r + kept, r + s)
  {
    var rest := PrefixCut(s, HeadRoom(max, Bytes(r)));
    assert r + s == (r + kept) + rest;
    if Bytes(r) <= Room(max) {
      PrefixStreams(r, s, Room(max));
    } else {
      PrefixDominates(r, s, Room(max));
      var after := PrefixCut(r, Room(max));
      assert r + kept == LongestPrefix(r, Room(max)) + (after + kept);
    }
  }

  /** A newline closes the line and opens an empty one. */
  lemma CapNewline(rs: seq<Text>, os: seq<Text>, max: nat, lineBytes: nat, ellipsisAdded: bool, dropped: nat, lines: nat)
    requires Capped(rs, os, max, lineBytes, ellipsisAdded, dropped, lines)
    ensures Capped(rs + [[]], os + [[]], max, 0, false, dropped, lines)
  {
    JoinNewline(rs);
    JoinNewline(os);
    var rs', os' := rs + [[]], os + [[]];
    forall i | 0 <= i < |rs'| ensures LineOk(rs', os', i, max) { assert i < |rs| ==> LineOk(rs, os, i, max); }
    CountLongPrefix(rs, rs', |rs|, max);
  }

  /** A capped line is never longer than the cap and an ellipsis. */
  lemma LineCappedFits(r: Text, o: Text, max: nat)
    requires LineCapped(r, o, max)
    ensures Bytes(o) <= max + ELLIPSIS_BYTES
  {
    if Bytes(r) > max {
      var p := o[..|o| - 1];
      assert o == p + [ELLIPSIS];
      BytesSnoc(p, ELLIPSIS);
    }
  }

  /**
   The meaning of the relation, for every chunking: the lines of the two streams correspond one to one,
   each outgoing line is the raw line or a bounded cut of it, the counter is the number of raw lines
   that are too long, and the bytes balance.
   */
  lemma CappedMeans(raw: Text, out: Text, max: nat, lineBytes: nat, ellipsisAdded: bool, dropped: nat, lines: nat)
    requires StreamCapped(raw, out, max, lineBytes, ellipsisAdded, dropped, lines)
    ensures var rs, os := LinesOf(raw), LinesOf(out);
            && |rs| == |os| && lines == CountLong(rs, |rs|, max)
            && (forall i :: 0 <= i < |rs| ==> LineCapped(rs[i], os[i], max) && Bytes(os[i]) <= max + ELLIPSIS_BYTES)
    ensures Bytes(out) == Bytes(raw) - dropped + ELLIPSIS_BYTES * lines
  {
    StreamCappedLines(raw, out, max, lineBytes, ellipsisAdded, dropped, lines);
    var rs, os := LinesOf(raw), LinesOf(out);
    forall i | 0 <= i < |rs| ensures LineCapped(rs[i], os[i], max) && Bytes(os[i]) <= max + ELLIPSIS_BYTES {
      assert LineOk(rs, os, i, max);
      LineCappedFits(rs[i], os[i], max);
    }
  }

  /** Nothing comes of nothing. */
  lemma NothingCapped(raw: Text, out: Text, max: nat, lineBytes: nat, ellipsisAdded: bool, dropped: nat, lines: nat)
    requires StreamCapped(raw, out, max, lineBytes, ellipsisAdded, dropped, lines)
    ensures raw == [] ==> out == []
  {
    if raw == [] {
      StreamCappedLines(raw, out, max, lineBytes, ellipsisAdded, dropped, lines);
      NoNewline([]);
      var rs, os := LinesOf(raw), LinesOf(out);
      assert Bytes([]) == 0 && LineOk(rs, os, 0, max);
      assert Join(os) == os[0];
    }
  }

  /** A stream without a long line passes as it is. */
  lemma NoneCut(raw: Text, out: Text, max: nat, lineBytes: nat, ellipsisAdded: bool, dropped: nat)
    requires StreamCapped(raw, out, max, lineBytes, ellipsisAdded, dropped, 0)
    ensures raw == out
  {
    StreamCappedLines(raw, out, max, lineBytes, ellipsisAdded, dropped, 0);
    var rs, os := LinesOf(raw), LinesOf(out);
    forall i | 0 <= i < |rs| ensures os[i] == rs[i] {
      assert LineOk(rs, os, i, max);
      if Bytes(rs[i]) > max { CountLongHas(rs, |rs|, max, i); }
    }
    assert rs == os;
  }

  lemma {:induction false} CountLongHas(ls: seq<Text>, n: nat, max: nat, i: nat)
    requires i < n <= |ls| && Bytes(ls[i]) > max
    ensures CountLong(ls, n, max) > 0
  {
    if i < n - 1 { CountLongHas(ls, n - 1, max, i); }
  }

  /** A lone wide scalar under a cap of one byte becomes the ellipsis. */
  lemma WideCut(w: char, o: Text)
    requires Width(w) >= 2 && LineCapped([w], o, 1)
    ensures o == [ELLIPSIS]
  {
    BytesOne(w);
    var p := o[..|o| - 1];
    assert |p| == 1 ==> p == [w];
    assert o == p + [ELLIPSIS];
  }

  lemma WideThenNarrow(w: char, x: char, out: Text, lineBytes: nat, ellipsisAdded: bool, dropped: nat, lines: nat)
    requires Width(w) >= 2 && Width(x) == 1 && x != NL
    requires StreamCapped([w, NL, x], out, 1, lineBytes, ellipsisAdded, dropped, lines)
    ensures out == [ELLIPSIS, NL, x] && lines == 1
  {
    StreamCappedLines([w, NL, x], out, 1, lineBytes, ellipsisAdded, dropped, lines);
    var rs, os := LinesOf([w, NL, x]), LinesOf(out);
    TwoLines([w], [x]);
    assert [w] + [NL] + [x] == [w, NL, x];
    BytesOne(w);
    BytesOne(x);
    assert LineOk(rs, os, 0, 1) && LineOk(rs, os, 1, 1);
    WideCut(w, os[0]);
    assert CountLong(rs, 0, 1) == 0 && CountLong(rs, 1, 1) == 1;
    assert |os| == 2 && JoinTo(os, 1) == os[0] && Join(os) == os[0] + [NL] + os[1];
  }

  lemma TwoLines(a: Text, b: Text)
    requires NL !in a && NL !in b
    ensures LinesOf(a + [NL] + b) == [a, b]
  {
    NoNewline(a);
    NoNewline(b);
    LinesConcat(a, b);
  }
}
