/** The capped artifact file: a head that is written as it comes, and a ring holding the end of what did not fit. */
module ArtifactCap {
  import opened Utf

  /**
   Everything emitted is the head on disk followed by the overflow; the ring is the end of the overflow,
   and once anything has overflowed nothing more may enter the head.
   */
  ghost predicate Split(emitted: Text, file: Text, overflow: Text, headBudget: nat, tailBudget: nat,
                        written: nat, closed: bool, ring: Text, ringBytes: nat, incoming: nat) {
    && Joined(file, overflow, emitted)
    && written == Bytes(file) <= headBudget
    && ring == LongestSuffix(overflow, tailBudget) && ringBytes == Bytes(ring) && incoming == Bytes(overflow)
    && (overflow != [] ==> closed || written == headBudget)
    && (closed ==> overflow != [])
  }

  lemma SplitStarts(headBudget: nat, tailBudget: nat)
    ensures Split([], [], [], headBudget, tailBudget, 0, false, [], 0, 0)
  {
    LongestSuffixAll([], tailBudget);
  }

  /** A chunk that fits the head goes to the file. */
  lemma SplitHead(emitted: Text, file: Text, overflow: Text, headBudget: nat, tailBudget: nat,
                  written: nat, closed: bool, ring: Text, ringBytes: nat, incoming: nat, c: Text)
    requires Split(emitted, file, overflow, headBudget, tailBudget, written, closed, ring, ringBytes, incoming)
    requires c != [] && !closed && Bytes(c) <= headBudget - written
    ensures Split(emitted + c, file + c, overflow, headBudget, tailBudget, written + Bytes(c), closed, ring, ringBytes, incoming)
  {
    BytesAtLeastLength(c);
    BytesConcat(file, c);
    assert overflow == [] && emitted == file;
  }

  /** A chunk that does not fit is cut: its first part to the file, the rest to the overflow. */
  lemma SplitOver(emitted: Text, file: Text, overflow: Text, headBudget: nat, tailBudget: nat,
                  written: nat, closed: bool, ring: Text, ringBytes: nat, incoming: nat,
                  h: Text, t: Text, closed': bool, ring': Text)
    requires Split(emitted, file, overflow, headBudget, tailBudget, written, closed, ring, ringBytes, incoming)
    requires t != [] && Bytes(h) <= headBudget - written && (h != [] ==> !closed)
    requires closed' || written + Bytes(h) == headBudget
    requires ring' == LongestSuffix(ring + t, tailBudget)
    ensures Split(emitted + (h + t), file + h, overflow + t, headBudget, tailBudget, written + Bytes(h), closed',
                  ring', Bytes(ring'), incoming + Bytes(t))
  {
    BytesConcat(file, h);
    BytesConcat(overflow, t);
    SuffixStreams(overflow, t, tailBudget);
    if h != [] { BytesAtLeastLength(h); }
    Regroup(emitted, file, overflow, h, t);
  }

  lemma Regroup(emitted: Text, file: Text, overflow: Text, h: Text, t: Text)
    requires Joined(file, overflow, emitted) && (h == [] || overflow == [])
    ensures Joined(file + h, overflow + t, emitted + (h + t))
  {
    JoinedIs(file, overflow, emitted);
    JoinedIs(file + h, overflow + t, emitted + (h + t));
    assert emitted + (h + t) == (file + h) + (overflow + t) by {
      if h == [] {
        assert h + t == t && file + h == file;
      } else {
        assert overflow + t == t;
      }
    }
  }

  /**
   Closing the file: whatever the ring no longer holds was dropped, in one piece, from between the head
   and the ring; when nothing was dropped, head and ring together are the stream.
   */
  lemma SplitCloses(emitted: Text, file: Text, overflow: Text, headBudget: nat, tailBudget: nat,
                    written: nat, closed: bool, ring: Text, ringBytes: nat, incoming: nat) returns (gone: Text)
    requires Split(emitted, file, overflow, headBudget, tailBudget, written, closed, ring, ringBytes, incoming)
    ensures emitted == file + gone + ring && Bytes(gone) == incoming - ringBytes
    ensures Bytes(file) <= headBudget && Bytes(ring) <= tailBudget
    ensures incoming == ringBytes ==> emitted == file + ring
    ensures incoming == ringBytes <==> Bytes(emitted) <= Bytes(file) + tailBudget
  {
    gone := SuffixCut(overflow, tailBudget);
    JoinedIs(file, overflow, emitted);
    assert emitted == file + gone + ring;
    BytesConcat(file, overflow);
    LongestSuffixAll(overflow, tailBudget);
    if Bytes(gone) == 0 {
      BytesAtLeastLength(gone);
      assert file + gone + ring == file + ring && gone + ring == ring;
    }
  }
}
