/** Replaying the reads of one file in one session, and filling in what the replay left short. */
module PairReplay {
  import opened Options
  import opened Spans
  import opened Intervals
  import opened Chained
  import opened Sequences

  datatype Intent = Bare | Range(start: nat, end: Option<nat>) | Raw | Other

  /** A recorded read: what was asked for, and the lines that came back, if that is known. */
  datatype ReadCall = ReadCall(intent: Intent, actual: Option<LineSpan>)

  /** `byteLines` is how many lines the byte cap allows per call, if lines have a known size. */
  datatype Config = Config(defaultPage: nat, lineCap: nat, size: nat, byteLines: Option<nat>)

  predicate GoodConfig(cfg: Config) {
    cfg.lineCap >= 1 && (cfg.byteLines.Some? ==> cfg.byteLines.value >= 1)
  }

  function MaxPerCall(cfg: Config): (n: nat)
    requires GoodConfig(cfg)
    ensures 1 <= n <= cfg.lineCap
  {
    if cfg.byteLines.Some? && cfg.byteLines.value < cfg.lineCap then cfg.byteLines.value else cfg.lineCap
  }

  function Least(a: int, b: int): int {
    if a < b then a else b
  }

  /** The last line a call asks for. */
  function Wanted(intent: Intent, cfg: Config, start: nat, size: nat): int {
    match intent
    case Bare => cfg.defaultPage
    case Range(_, end) => if end.Some? then end.value else start + cfg.defaultPage - 1
    case _ => size
  }

  /** The range a call would return; never empty, never longer than one call allows. */
  function EffectiveReturned(rc: ReadCall, cfg: Config): (r: Option<LineSpan>)
    requires GoodConfig(cfg)
    ensures r == None <==> rc.intent.Other?
    ensures r.Some? ==> 1 <= r.value.start <= r.value.end && r.value.Lines() <= MaxPerCall(cfg)
  {
    var size := if cfg.size < 1 then 1 else cfg.size;
    if rc.intent.Other? then None else
      var start := if rc.intent.Range? && rc.intent.start != 0 then rc.intent.start else 1;
      var wanted := Wanted(rc.intent, cfg, start, size);
      var capped := Least(Least(wanted, size), start + cfg.lineCap - 1);
      var end := if cfg.byteLines.Some? then Least(capped, start + cfg.byteLines.value - 1) else capped;
      Some(LineSpan(start, if end < start then start else end))
  }

  /** What the agent was seen to receive. */
  function Observed(rc: ReadCall): (r: Option<LineSpan>)
    ensures r.Some? ==> r.value.start <= r.value.end
  {
    if rc.actual.Some? && rc.actual.value.end >= rc.actual.value.start then rc.actual else None
  }

  /** The last line that the agent asked for, if it set one. */
  function AskedFor(rc: ReadCall, cfg: Config, start: nat): Option<int> {
    match rc.intent
    case Bare => Some(cfg.defaultPage)
    case Range(_, Some(end)) => Some(end)
    case Range(_, None) => Some(start + cfg.defaultPage - 1)
    case _ => None
  }

  /** A later line that is asked for, is in the file, and is within both the line cap and what the byte cap allows. */
  predicate WithinReach(rc: ReadCall, cfg: Config, start: nat, line: nat) {
    && start < line <= cfg.size && (AskedFor(rc, cfg, start).Some? ==> line <= AskedFor(rc, cfg, start).value)
    && line < start + cfg.lineCap && (cfg.byteLines.Some? ==> line < start + cfg.byteLines.value)
  }

  /** How far a call reaches: its first line in any case, and then every line within its reach. */
  lemma Reaches(rc: ReadCall, cfg: Config, line: nat)
    requires GoodConfig(cfg) && !rc.intent.Other?
    ensures var r := EffectiveReturned(rc, cfg).value;
            && r.start == (if rc.intent.Range? && rc.intent.start > 0 then rc.intent.start else 1)
            && (r.Has(line) <==> line == r.start || WithinReach(rc, cfg, r.start, line))
  {
  }

  /** What is known of the lines that came back is observed exactly if there were any. */
  lemma ObservedIff(rc: ReadCall, span: LineSpan)
    ensures Observed(rc) == Some(span) <==> rc.actual == Some(span) && span.start <= span.end
    ensures Observed(rc) == None <==> forall s :: rc.actual == Some(s) ==> s.end < s.start
  {
  }

  function AllObserved(history: seq<ReadCall>, n: nat): (r: seq<LineSpan>)
    requires n <= |history|
    ensures Proper(r)
  {
    if n == 0 then [] else
      var o := Observed(history[n - 1]);
      if o.Some? then AllObserved(history, n - 1) + [o.value] else AllObserved(history, n - 1)
  }

  function AllReturned(history: seq<ReadCall>, cfg: Config, n: nat): seq<LineSpan>
    requires n <= |history| && GoodConfig(cfg)
  {
    if n == 0 then [] else
      var r := EffectiveReturned(history[n - 1], cfg);
      if r.Some? then AllReturned(history, cfg, n - 1) + [r.value] else AllReturned(history, cfg, n - 1)
  }

  /** What was charged for: a range returned for some kind of call. */
  datatype Charge = Charge(span: LineSpan, intent: Intent)

  function Charges(cs: seq<Charge>, cost: (LineSpan, Intent) -> nat, roundtrip: nat, n: nat): nat
    requires n <= |cs|
  {
    if n == 0 then 0 else Charges(cs, cost, roundtrip, n - 1) + cost(cs[n - 1].span, cs[n - 1].intent) + roundtrip
  }

  lemma {:induction false} ChargesConcat(a: seq<Charge>, b: seq<Charge>, cost: (LineSpan, Intent) -> nat, roundtrip: nat, n: nat)
    requires n <= |b|
    ensures Charges(a + b, cost, roundtrip, |a| + n) == Charges(a, cost, roundtrip, |a|) + Charges(b, cost, roundtrip, n)
  {
    if n == 0 { ChargesPrefix(a, a + b, cost, roundtrip, |a|); } else { ChargesConcat(a, b, cost, roundtrip, n - 1); }
  }

  lemma {:induction false} ChargesPrefix(a: seq<Charge>, b: seq<Charge>, cost: (LineSpan, Intent) -> nat, roundtrip: nat, n: nat)
    requires n <= |a| && n <= |b| && forall i :: 0 <= i < n ==> a[i] == b[i]
    ensures Charges(a, cost, roundtrip, n) == Charges(b, cost, roundtrip, n)
  {
    if n > 0 { ChargesPrefix(a, b, cost, roundtrip, n - 1); }
  }

  lemma ChargesNone(cost: (LineSpan, Intent) -> nat, roundtrip: nat)
    ensures Charges(ByRange([]), cost, roundtrip, 0) == 0
  {
  }

  const BY_RANGE := Range(0, None)

  function ByRange(cs: seq<LineSpan>): (r: seq<Charge>)
    ensures |r| == |cs| && forall i :: 0 <= i < |r| ==> r[i] == Charge(cs[i], BY_RANGE) && r[i].intent.Range?
  {
    seq(|cs|, i requires 0 <= i < |cs| => Charge(cs[i], BY_RANGE))
  }

  ghost predicate SameUnion(a: seq<LineSpan>, b: seq<LineSpan>) {
    forall line: nat :: Covered(a, line) <==> Covered(b, line)
  }

  ghost predicate Held(ivs: seq<LineSpan>, target: LineSpan) {
    forall line: nat :: target.Has(line) ==> Covered(ivs, line)
  }

  /** What phase 1 pays for: each range of which some line was not returned before. */
  ghost function Fetched(history: seq<ReadCall>, cfg: Config, n: nat): seq<Charge>
    requires n <= |history| && GoodConfig(cfg)
  {
    if n == 0 then [] else
      var r := EffectiveReturned(history[n - 1], cfg);
      if r == None || Held(AllReturned(history, cfg, n - 1), r.value) then Fetched(history, cfg, n - 1)
      else Fetched(history, cfg, n - 1) + [Charge(r.value, history[n - 1].intent)]
  }

  // ----- what these are ------------------------------------------------------------------

  /** A call returns at most as many lines as both caps allow. */
  lemma MostIs(cfg: Config, n: nat)
    requires GoodConfig(cfg)
    ensures n <= MaxPerCall(cfg) <==> n <= cfg.lineCap && (cfg.byteLines.Some? ==> n <= cfg.byteLines.value)
  {
  }

  function Only<T>(x: Option<T>): seq<T> {
    if x.Some? then [x.value] else []
  }

  function Observations(history: seq<ReadCall>): (xss: seq<seq<LineSpan>>)
    ensures |xss| == |history| && forall i :: 0 <= i < |xss| ==> xss[i] == Only(Observed(history[i]))
  {
    seq(|history|, i requires 0 <= i < |history| => Only(Observed(history[i])))
  }

  /** Some line of what the call returns was returned by no call before it. */
  ghost predicate BringsMore(history: seq<ReadCall>, cfg: Config, i: nat)
    requires i < |history| && GoodConfig(cfg)
  {
    var r := EffectiveReturned(history[i], cfg);
    r.Some? && exists line: nat :: r.value.Has(line) && !ReturnedBefore(history, cfg, i, line)
  }

  ghost predicate ReturnedBefore(history: seq<ReadCall>, cfg: Config, i: nat, line: nat)
    requires i <= |history| && GoodConfig(cfg)
  {
    exists j :: 0 <= j < i && EffectiveReturned(history[j], cfg).Some? && EffectiveReturned(history[j], cfg).value.Has(line)
  }

  ghost function Payments(history: seq<ReadCall>, cfg: Config): (xss: seq<seq<Charge>>)
    requires GoodConfig(cfg)
    ensures |xss| == |history|
    ensures forall i :: 0 <= i < |xss| ==>
              xss[i] == if BringsMore(history, cfg, i) then [Charge(EffectiveReturned(history[i], cfg).value, history[i].intent)] else []
  {
    seq(|history|, i requires 0 <= i < |history| =>
      if BringsMore(history, cfg, i) then [Charge(EffectiveReturned(history[i], cfg).value, history[i].intent)] else [])
  }

  lemma {:induction false} ObservedAre(history: seq<ReadCall>, n: nat) returns (at: seq<Place>)
    requires n <= |history|
    ensures IsChain(Observations(history), n, AllObserved(history, n), at)
  {
    hide IsChain, Observed;
    var xss := Observations(history);
    if n == 0 {
      at := [];
      ChainStarts(xss);
    } else {
      at := ObservedAre(history, n - 1);
      ChainOn(xss, n - 1, AllObserved(history, n - 1), at);
      at := at + PlacesIn(n - 1, xss[n - 1]);
      AddNothing(AllObserved(history, n - 1));
    }
  }

  lemma {:induction false} ReturnedAre(history: seq<ReadCall>, cfg: Config, n: nat)
    requires n <= |history| && GoodConfig(cfg)
    ensures forall line: nat :: Covered(AllReturned(history, cfg, n), line) <==> ReturnedBefore(history, cfg, n, line)
  {
    hide EffectiveReturned;
    if n == 0 {
      CoveredNothing();
    } else {
      ReturnedAre(history, cfg, n - 1);
      var r := EffectiveReturned(history[n - 1], cfg);
      if r.Some? { CoveredSnoc(AllReturned(history, cfg, n - 1), r.value); }
      hide Covered;
      forall line: nat ensures ReturnedBefore(history, cfg, n, line) <==> ReturnedBefore(history, cfg, n - 1, line) || (r.Some? && r.value.Has(line)) {}
    }
  }

  /** Phase 1 pays, call by call, for what brings more. */
  lemma {:induction false} FetchedAre(history: seq<ReadCall>, cfg: Config, n: nat) returns (at: seq<Place>)
    requires n <= |history| && GoodConfig(cfg)
    ensures IsChain(Payments(history, cfg), n, Fetched(history, cfg, n), at)
  {
    hide IsChain, EffectiveReturned, BringsMore, Held, AllReturned;
    var xss := Payments(history, cfg);
    if n == 0 {
      at := [];
      ChainStarts(xss);
    } else {
      at := FetchedAre(history, cfg, n - 1);
      HeldIff(history, cfg, n - 1);
      ChainOn(xss, n - 1, Fetched(history, cfg, n - 1), at);
      at := at + PlacesIn(n - 1, xss[n - 1]);
      AddNothing(Fetched(history, cfg, n - 1));
    }
  }

  lemma HeldIff(history: seq<ReadCall>, cfg: Config, i: nat)
    requires i < |history| && GoodConfig(cfg)
    ensures var r := EffectiveReturned(history[i], cfg);
            BringsMore(history, cfg, i) <==> r.Some? && !Held(AllReturned(history, cfg, i), r.value)
  {
    hide EffectiveReturned, Covered, ReturnedBefore;
    ReturnedAre(history, cfg, i);
  }

  /** A charge is what its lines cost and a round trip; charges add up. */
  lemma ChargesAdd(a: seq<Charge>, c: Charge, cost: (LineSpan, Intent) -> nat, roundtrip: nat)
    ensures Charges(a + [c], cost, roundtrip, |a| + 1) == Charges(a, cost, roundtrip, |a|) + cost(c.span, c.intent) + roundtrip
    ensures Charges([], cost, roundtrip, 0) == 0
  {
    ChargesPrefix(a, a + [c], cost, roundtrip, |a|);
  }

  /** Phase 1: every observed call under the new configuration, unless its range is already held. */
  method Simulate(history: seq<ReadCall>, cfg: Config, cost: (LineSpan, Intent) -> nat, roundtrip: nat)
    returns (total: nat, kept: nat, covered: seq<LineSpan>, needed: seq<LineSpan>)
    requires GoodConfig(cfg)
    ensures Gapped(covered) && SameUnion(covered, AllReturned(history, cfg, |history|))
    ensures needed == AllObserved(history, |history|)
    ensures var paid := Fetched(history, cfg, |history|); kept == |paid| && total == Charges(paid, cost, roundtrip, |paid|)
  {
    hide Covered, EffectiveReturned, Observed, MaxPerCall;
    total, kept, covered, needed := 0, 0, [], [];
    for i := 0 to |history|
      invariant Gapped(covered) && SameUnion(covered, AllReturned(history, cfg, i)) && needed == AllObserved(history, i)
      invariant var paid := Fetched(history, cfg, i); kept == |paid| && total == Charges(paid, cost, roundtrip, |paid|)
    {
      var o := Observed(history[i]);
      if o.Some? { needed := needed + [o.value]; }
      var ret := EffectiveReturned(history[i], cfg);
      if ret == None {
        continue;
      }
      CoveredSnoc(AllReturned(history, cfg, i), ret.value);
      var known := Contained(ret.value, covered);
      HeldByOne(covered, ret.value);
      if known {
        continue;
      }
      total, kept := total + cost(ret.value, history[i].intent) + roundtrip, kept + 1;
      ghost var paid := Fetched(history, cfg, i);
      ChargesPrefix(paid, paid + [Charge(ret.value, history[i].intent)], cost, roundtrip, |paid|);
      CoveredSnoc(covered, ret.value);
      GappedProper(covered, ret.value);
      covered := Merge(covered + [ret.value]);
    }
  }

  /** In a gapped list a range is held as a whole exactly when one member contains it. */
  lemma HeldByOne(covered: seq<LineSpan>, s: LineSpan)
    requires Gapped(covered) && s.start <= s.end
    ensures Held(covered, s) <==> exists i :: 0 <= i < |covered| && covered[i].start <= s.start && covered[i].end >= s.end
  {
    if i :| 0 <= i < |covered| && covered[i].start <= s.start && covered[i].end >= s.end {
      forall line: nat | s.Has(line) ensures Covered(covered, line) { CoveredAt(covered, i, line); }
    }
    if Held(covered, s) {
      assert s.Has(s.start);
      var t :| t in covered && t.Has(s.start);
      var i :| 0 <= i < |covered| && covered[i] == t;
      forall u | u in covered ensures !u.Has(t.end + 1) {
        var j :| 0 <= j < |covered| && covered[j] == u;
      }
      assert !Covered(covered, t.end + 1);
      assert !s.Has(t.end + 1);
    }
  }

  lemma GappedProper(a: seq<LineSpan>, s: LineSpan)
    requires Gapped(a) && s.start <= s.end
    ensures Proper(a + [s])
  {
  }

  /** The observed lines that the simulation did not deliver, in canonical form. */
  method FindGaps(needed: seq<LineSpan>, covered: seq<LineSpan>) returns (gaps: seq<LineSpan>)
    requires Gapped(needed) && Gapped(covered)
    ensures Gapped(gaps)
    ensures forall line: nat :: Covered(gaps, line) <==> Covered(needed, line) && !Covered(covered, line)
  {
    hide Covered;
    gaps := [];
    CoveredNothing();
    for i := 0 to |needed|
      invariant Gapped(gaps) && forall j :: i <= j < |needed| ==> Before(gaps, needed[j].start)
      invariant forall line: nat :: Covered(gaps, line) <==> Covered(needed[..i], line) && !Covered(covered, line)
    {
      GappedIsProper(covered);
      var more := Subtract(needed[i], covered);
      CoveredConcat(gaps, more);
      CoveredPrefix(needed, i);
      GapsConcat(gaps, more, needed[i]);
      gaps := gaps + more;
    }
    assert needed[..|needed|] == needed;
  }

  lemma GappedIsProper(a: seq<LineSpan>)
    requires Gapped(a)
    ensures Proper(a)
  {
  }

  /** What phase 2 pays for: every gap in chunks, in order. */
  function AllChunks(gaps: seq<LineSpan>, most: nat, n: nat): seq<LineSpan>
    requires n <= |gaps| && most >= 1
  {
    if n == 0 then [] else AllChunks(gaps, most, n - 1) + ChunksOf(gaps[n - 1].start, gaps[n - 1].end, most)
  }

  /** Phase 2: the gaps, fetched in chunks. */
  method FillGaps(gaps: seq<LineSpan>, cfg: Config, cost: (LineSpan, Intent) -> nat, roundtrip: nat, start: seq<LineSpan>)
    returns (total: nat, calls: nat, covered: seq<LineSpan>)
    requires GoodConfig(cfg) && Gapped(gaps) && Gapped(start)
    ensures var cs := AllChunks(gaps, MaxPerCall(cfg), |gaps|); calls == |cs| && total == Charges(ByRange(cs), cost, roundtrip, |cs|)
    ensures Gapped(covered) && forall line: nat :: Covered(covered, line) <==> Covered(start, line) || Covered(gaps, line)
  {
    hide Covered, MaxPerCall, Charges, ChunksOf;
    ChargesNone(cost, roundtrip);
    total, calls, covered := 0, 0, start;
    CoveredNothing();
    var most := MaxPerCall(cfg);
    for i := 0 to |gaps|
      invariant var cs := AllChunks(gaps, most, i); calls == |cs| && total == Charges(ByRange(cs), cost, roundtrip, |cs|)
      invariant Gapped(covered) && forall line: nat :: Covered(covered, line) <==> Covered(start, line) || Covered(gaps[..i], line)
    {
      var t, n;
      t, n, covered := FillGap(gaps[i], most, cost, roundtrip, covered);
      CoveredPrefix(gaps, i);
      ghost var before, cs := AllChunks(gaps, most, i), ChunksOf(gaps[i].start, gaps[i].end, most);
      ChargesConcat(ByRange(before), ByRange(cs), cost, roundtrip, |cs|);
      assert ByRange(before + cs) == ByRange(before) + ByRange(cs);
      total, calls := total + t, calls + n;
    }
    assert gaps[..|gaps|] == gaps;
  }

  /** One gap: cut into chunks, charged, and added to what is covered. */
  method FillGap(gap: LineSpan, most: nat, cost: (LineSpan, Intent) -> nat, roundtrip: nat, before: seq<LineSpan>)
    returns (total: nat, calls: nat, covered: seq<LineSpan>)
    requires most >= 1 && gap.start <= gap.end && Gapped(before)
    ensures var cs := ChunksOf(gap.start, gap.end, most); calls == |cs| && total == Charges(ByRange(cs), cost, roundtrip, |cs|)
    ensures Gapped(covered) && forall line: nat :: Covered(covered, line) <==> Covered(before, line) || gap.Has(line)
  {
    hide Covered, ChunksOf;
    var chunks := ChunkRange(gap, most);
    ChunksInGap(gap, most);
    total := ChargeAll(chunks, cost, roundtrip);
    CoveredConcat(before, chunks);
    GappedIsProper(before);
    covered := Merge(before + chunks);
    calls := |chunks|;
  }

  lemma ChunksInGap(gap: LineSpan, most: nat)
    requires most >= 1 && gap.start <= gap.end
    ensures var cs := ChunksOf(gap.start, gap.end, most);
            PiecesOf(cs, gap) && (forall c :: c in cs ==> c.Lines() <= most) && forall line: nat :: Covered(cs, line) <==> gap.Has(line)
  {
    hide Covered, ChunksOf;
    var cs := ChunksOf(gap.start, gap.end, most);
    ChunksFollow(gap.start, gap.end, most);
    ChunksCover(cs, gap, most, |cs|);
    assert cs[..|cs|] == cs;
  }

  method ChargeAll(cs: seq<LineSpan>, cost: (LineSpan, Intent) -> nat, roundtrip: nat) returns (total: nat)
    ensures total == Charges(ByRange(cs), cost, roundtrip, |cs|)
  {
    total := 0;
    for i := 0 to |cs|
      invariant total == Charges(ByRange(cs), cost, roundtrip, i)
    {
      total := total + cost(cs[i], BY_RANGE) + roundtrip;
    }
  }

  /** The chunks are disjoint, none longer than one call allows, and hold exactly the lines of the gaps. */
  lemma {:induction false} ChunksFillGaps(gaps: seq<LineSpan>, most: nat, n: nat)
    requires most >= 1 && Gapped(gaps) && n <= |gaps|
    ensures var cs := AllChunks(gaps, most, n);
            && Proper(cs) && PairwiseApart(cs) && (forall c :: c in cs ==> c.Lines() <= most)
            && (forall k, j :: 0 <= k < |cs| && n <= j < |gaps| ==> cs[k].end < gaps[j].start)
            && forall line: nat :: Covered(cs, line) <==> Covered(gaps[..n], line)
  {
    hide Covered, ChunksOf, Proper, PairwiseApart, PiecesOf, LineSpan.Lines;
    if n == 0 {
      NothingApart();
      CoveredNothing();
    } else {
      ChunksFillGaps(gaps, most, n - 1);
      var before, gap := AllChunks(gaps, most, n - 1), gaps[n - 1];
      var cs := ChunksOf(gap.start, gap.end, most);
      ChunksInGap(gap, most);
      CoveredConcat(before, cs);
      CoveredPrefix(gaps, n - 1);
      ChunksApart(before, cs, gap);
      assert forall c :: c in before + cs ==> c in before || c in cs;
    }
  }

  lemma NothingApart()
    ensures Proper([]) && PairwiseApart([])
  {
  }

  lemma ChunksApart(a: seq<LineSpan>, b: seq<LineSpan>, target: LineSpan)
    requires Proper(a) && PairwiseApart(a) && PiecesOf(b, target) && forall k :: 0 <= k < |a| ==> a[k].end < target.start
    requires target.start <= target.end
    ensures Proper(a + b) && PairwiseApart(a + b) && forall k :: 0 <= k < |a + b| ==> (a + b)[k].end <= target.end
  {
    var c := a + b;
    forall i, j | 0 <= i < j < |c| ensures Apart(c[i], c[j]) {
      if i >= |a| { assert Apart(b[i - |a|], b[j - |a|]); }
    }
  }

  // ----- the replay ----------------------------------------------------------------------

  /** The lines the agent was seen to receive and phase 1 did not return, in canonical form. */
  ghost predicate Shortfall(gaps: seq<LineSpan>, history: seq<ReadCall>, cfg: Config)
    requires GoodConfig(cfg)
  {
    && Gapped(gaps)
    && forall line: nat :: Covered(gaps, line) <==>
         Covered(AllObserved(history, |history|), line) && !Covered(AllReturned(history, cfg, |history|), line)
  }

  lemma ShortfallUnique(a: seq<LineSpan>, b: seq<LineSpan>, history: seq<ReadCall>, cfg: Config)
    requires GoodConfig(cfg) && Shortfall(a, history, cfg) && Shortfall(b, history, cfg)
    ensures a == b
  {
    hide Covered;
    GappedUnique(a, b);
  }

  /** Phase 2 charges disjoint chunks holding exactly the lines of the shortfall. */
  lemma ChunksAreShortfall(gaps: seq<LineSpan>, history: seq<ReadCall>, cfg: Config)
    requires GoodConfig(cfg) && Shortfall(gaps, history, cfg)
    ensures var cs := AllChunks(gaps, MaxPerCall(cfg), |gaps|);
            && PairwiseApart(cs) && (forall c :: c in cs ==> c.Lines() <= MaxPerCall(cfg))
            && forall line: nat :: Covered(cs, line) <==>
                 Covered(AllObserved(history, |history|), line) && !Covered(AllReturned(history, cfg, |history|), line)
  {
    hide Covered, AllReturned, AllObserved, MaxPerCall;
    ChunksFillGaps(gaps, MaxPerCall(cfg), |gaps|);
    assert gaps[..|gaps|] == gaps;
  }

  /**
   The two-phase replay: it pays for the ranges phase 1 fetched and for the chunks of the shortfall, and
   in the end holds what phase 1 returned and every line the agent was seen to receive.
   */
  method ReplayPair(history: seq<ReadCall>, cfg: Config, cost: (LineSpan, Intent) -> nat, roundtrip: nat)
    returns (total: nat, kept: nat, covered: seq<LineSpan>)
    requires GoodConfig(cfg)
    ensures exists gaps :: Shortfall(gaps, history, cfg) &&
              var paid, chunks := Fetched(history, cfg, |history|), AllChunks(gaps, MaxPerCall(cfg), |gaps|);
              && kept == |paid| + |chunks|
              && total == Charges(paid, cost, roundtrip, |paid|) + Charges(ByRange(chunks), cost, roundtrip, |chunks|)
    ensures forall line: nat :: Covered(covered, line) <==>
              Covered(AllReturned(history, cfg, |history|), line) || Covered(AllObserved(history, |history|), line)
  {
    hide Covered, AllReturned, AllObserved, Fetched, Charges, AllChunks, MaxPerCall;
    var needed, gaps, t, c;
    total, kept, covered, needed := Simulate(history, cfg, cost, roundtrip);
    needed := Merge(needed);
    gaps := FindGaps(needed, covered);
    assert Shortfall(gaps, history, cfg);
    t, c, covered := FillGaps(gaps, cfg, cost, roundtrip, covered);
    total, kept := total + t, kept + c;
  }
}
