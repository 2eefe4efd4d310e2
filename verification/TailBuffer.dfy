/** The rolling tail of a stream, kept as a short list of pieces that is joined and trimmed lazily. */
module TailBuffers {
  import opened Utf
  import opened ByteCut

  const MAX_PENDING: nat := 10

  function ConcatTo(pieces: seq<Text>, n: nat): Text
    requires n <= |pieces|
  {
    if n == 0 then [] else ConcatTo(pieces, n - 1) + pieces[n - 1]
  }

  function Concat(pieces: seq<Text>): Text {
    ConcatTo(pieces, |pieces|)
  }

  lemma {:induction false} ConcatToPrefix(p: seq<Text>, q: seq<Text>, n: nat)
    requires n <= |p| && n <= |q| && forall i :: 0 <= i < n ==> p[i] == q[i]
    ensures ConcatTo(p, n) == ConcatTo(q, n)
  {
    if n > 0 { ConcatToPrefix(p, q, n - 1); }
  }

  lemma ConcatStep(start: Text, pieces: seq<Text>, n: nat)
    requires n < |pieces|
    ensures start + ConcatTo(pieces, n + 1) == start + ConcatTo(pieces, n) + pieces[n]
  {
    assert start + (ConcatTo(pieces, n) + pieces[n]) == start + ConcatTo(pieces, n) + pieces[n];
  }

  lemma ConcatNone(start: Text, pieces: seq<Text>)
    ensures start + ConcatTo(pieces, 0) == start
  {
  }

  lemma ConcatSnoc(pieces: seq<Text>, t: Text)
    ensures Concat(pieces + [t]) == Concat(pieces) + t
  {
    ConcatToPrefix(pieces, pieces + [t], |pieces|);
  }

  lemma ConcatOne(t: Text)
    ensures Concat([t]) == t
  {
    assert ConcatTo([t], 0) == [] && [] + t == t;
  }

  /** What is held is enough to answer for the whole stream: both have the same cut. */
  ghost predicate StandsFor(held: Text, stream: Text, max: nat) {
    LongestSuffix(held, max) == LongestSuffix(stream, max)
  }

  lemma StandsForAppended(held: Text, stream: Text, max: nat, t: Text)
    requires StandsFor(held, stream, max)
    ensures StandsFor(held + t, stream + t, max) && Bytes(held + t) == Bytes(held) + Bytes(t)
  {
    SuffixStreams(held, t, max);
    SuffixStreams(stream, t, max);
    BytesConcat(held, t);
  }

  lemma StandsForTrimmed(held: Text, stream: Text, max: nat)
    requires StandsFor(held, stream, max)
    ensures StandsFor(LongestSuffix(held, max), stream, max) && Bytes(LongestSuffix(held, max)) <= max
  {
    SuffixStreams(held, [], max);
    assert LongestSuffix(held, max) + [] == LongestSuffix(held, max) && held + [] == held;
    var p := SuffixCut(held, max);
  }

  lemma StandsForDominating(stream: Text, t: Text, max: nat)
    requires Bytes(t) >= max
    ensures StandsFor(LongestSuffix(t, max), stream + t, max) && Bytes(LongestSuffix(t, max)) <= max
  {
    SuffixDominates(stream, t, max);
    StandsForTrimmed(t, stream + t, max);
  }

  class TailBuffer {
    var pending: seq<Text>
    var pos: nat
    const maxBytes: nat
    ghost var stream: Text

    /** The text held: at most twice the budget, in at most ten pieces, and enough to answer for the stream. */
    ghost predicate Valid()
      reads this
    {
      && StandsFor(Concat(pending), stream, maxBytes)
      && pos == Bytes(Concat(pending)) <= 2 * maxBytes
      && |pending| <= MAX_PENDING
    }

    constructor (maxBytes: nat)
      ensures Valid() && stream == [] && this.maxBytes == maxBytes
    {
      pending, pos, stream := [], 0, [];
      this.maxBytes := maxBytes;
    }

    method Append(text: Text)
      requires Valid()
      modifies this
      ensures Valid() && stream == old(stream) + text
      ensures Bytes(Concat(pending)) <= 2 * maxBytes && |pending| <= MAX_PENDING
    {
      ghost var held, before := Concat(pending), stream;
      stream := stream + text;
      if text == [] {
        assert stream == before;
        return;
      }
      var max := maxBytes;
      if max == 0 {
        pending, pos := [], 0;
        StandsForDominating(before, text, 0);
        NothingFits(text);
        return;
      }
      var n := Bytes(text);
      if n >= max {
        var t, bytes := TruncateTailBytes(text, max);
        pending, pos := [t], bytes;
        ConcatOne(t);
        StandsForDominating(before, text, max);
        return;
      }
      StandsForAppended(held, before, max, text);
      ConcatSnoc(pending, text);
      pos := pos + n;
      if pending == [] {
        assert pending + [text] == [text];
        pending := [text];
      } else {
        pending := pending + [text];
        if |pending| > MAX_PENDING { Compact(); }
      }
      if pos > max * 2 {
        StandsForTrimmed(held + text, stream, max);
        TrimTo(max);
      }
    }

    method GetText() returns (text: Text)
      requires Valid()
      modifies this
      ensures Valid() && stream == old(stream)
      ensures text == LongestSuffix(stream, maxBytes)
    {
      StandsForTrimmed(Concat(pending), stream, maxBytes);
      TrimTo(maxBytes);
      text := Flush();
    }

    method GetBytes() returns (bytes: nat)
      requires Valid()
      modifies this
      ensures Valid() && stream == old(stream)
      ensures bytes == Bytes(LongestSuffix(stream, maxBytes))
    {
      StandsForTrimmed(Concat(pending), stream, maxBytes);
      TrimTo(maxBytes);
      bytes := pos;
    }

    method Compact()
      modifies this`pending
      ensures |pending| == 1 && pending[0] == Concat(pending) == old(Concat(pending))
    {
      var joined := Concat(pending);
      ConcatOne(joined);
      pending := [joined];
    }

    method Flush() returns (text: Text)
      modifies this`pending
      ensures text == old(Concat(pending)) == Concat(pending) && |pending| <= |old(pending)|
    {
      if pending == [] { return []; }
      if |pending| > 1 {
        Compact();
      } else {
        assert pending == [pending[0]];
        ConcatOne(pending[0]);
      }
      text := pending[0];
    }

    /** Trims what is held to its longest suffix within `max`; nothing happens when it already fits. */
    method TrimTo(max: nat)
      requires pos == Bytes(Concat(pending))
      modifies this`pending, this`pos
      ensures Concat(pending) == LongestSuffix(old(Concat(pending)), max) && pos == Bytes(Concat(pending))
      ensures |pending| <= (if |old(pending)| == 0 then 1 else |old(pending)|)
    {
      if max == 0 {
        NothingFits(Concat(pending));
        pending, pos := [], 0;
        return;
      }
      if pos <= max {
        LongestSuffixAll(Concat(pending), max);
        return;
      }
      var joined := Flush();
      var text, bytes := TruncateTailBytes(joined, max);
      ConcatOne(text);
      pos, pending := bytes, [text];
    }
  }
}
