/** Replaying recorded file reads under another configuration of the read tool. */
module ReadReplay {
  import opened Options
  import opened Sorting
  import opened Spans
  import opened Intervals

  /** What a call asked for; an explicit range is not empty.  Lines count from 1, but a call may ask for line 0. */
  datatype Kind = Explicit(start: nat, end: nat) | Open(start: nat) | Default | Unbounded
  datatype ReadCall = ReadCall(kind: Kind, argTokens: nat, resultTokens: nat)
  datatype Config = Config(page: nat, maxLines: nat, leading: nat, trailing: nat)

  predicate GoodCall(c: ReadCall) {
    match c.kind
    case Explicit(s, e) => s <= e
    case _ => true
  }

  predicate GoodConfig(cfg: Config) {
    cfg.page >= 1
  }

  function Requested(c: ReadCall, cfg: Config): (r: Option<LineSpan>)
    requires GoodCall(c) && GoodConfig(cfg)
    ensures r.Some? ==> r.value.start <= r.value.end
  {
    match c.kind
    case Explicit(s, e) => Some(LineSpan(s, e))
    case Open(s) => Some(LineSpan(s, s + cfg.page - 1))
    case Default => Some(LineSpan(1, cfg.page))
    case Unbounded => None
  }

  /** The leading context moves the start back, but not before line 1. */
  function StartOf(s: nat, cfg: Config): nat {
    if s > 1 then if s <= cfg.leading then 1 else if s - cfg.leading < 1 then 1 else s - cfg.leading else 1
  }

  function Smaller(a: nat, b: nat): nat {
    if a < b then a else b
  }

  /** The lines of an interval that may have none. */
  function Length(s: LineSpan): nat
    requires s.start <= s.end + 1
  {
    s.end + 1 - s.start
  }

  /** Asked for lines from 0 on, the tool counts one line less than asked for, and so may deliver none at all. */
  function Delivered(c: ReadCall, cfg: Config): (r: Option<LineSpan>)
    requires GoodCall(c) && GoodConfig(cfg)
    ensures r.Some? <==> Requested(c, cfg).Some?
    ensures r.Some? ==> 1 <= r.value.start <= r.value.end + 1 && Length(r.value) <= cfg.maxLines
  {
    match c.kind
    case Explicit(s, e) =>
      var start := StartOf(s, cfg);
      Some(LineSpan(start, start + Smaller(e - s + 1 + (s - start) + cfg.trailing, cfg.maxLines) - 1))
    case Open(s) =>
      var start := StartOf(s, cfg);
      Some(LineSpan(start, start + Smaller(cfg.page + (s - start), cfg.maxLines) - 1))
    case Default => Some(LineSpan(1, Smaller(cfg.page, cfg.maxLines)))
    case Unbounded => None
  }

  /**
   A call gets all it asked for exactly when it asks from line 1 or later, and the cap leaves room for the
   request behind its leading context.
   */
  lemma DeliversAll(c: ReadCall, cfg: Config)
    requires GoodCall(c) && GoodConfig(cfg) && Requested(c, cfg).Some?
    ensures var req, got := Requested(c, cfg).value, Delivered(c, cfg).value;
            (forall line: nat :: req.Has(line) ==> got.Has(line)) <==> req.start >= 1 && req.end - got.start + 1 <= cfg.maxLines
  {
    var req, got := Requested(c, cfg).value, Delivered(c, cfg).value;
    assert req.Has(req.start) && req.Has(req.end);
  }

  /** What a call gets, line by line: its leading context, what it asked for, trailing context behind an explicit range, all up to the cap. */
  lemma DeliveredIs(c: ReadCall, cfg: Config, line: nat)
    requires GoodCall(c) && GoodConfig(cfg) && Requested(c, cfg).Some?
    ensures var req, got := Requested(c, cfg).value, Delivered(c, cfg).value;
            && got.start == (if c.kind.Default? || req.start <= cfg.leading + 1 then 1 else req.start - cfg.leading)
            && (got.Has(line) <==> got.start <= line <= req.end + (if c.kind.Explicit? then cfg.trailing else 0) && line < got.start + cfg.maxLines)
  {
  }

  /** What a call asks for: its range, a page from its first line, or the first page. */
  lemma RequestedIs(c: ReadCall, cfg: Config, line: nat)
    requires GoodCall(c) && GoodConfig(cfg)
    ensures Requested(c, cfg) == None <==> c.kind.Unbounded?
    ensures Requested(c, cfg).Some? ==>
              (Requested(c, cfg).value.Has(line) <==>
                 match c.kind
                 case Explicit(s, e) => s <= line <= e
                 case Open(s) => s <= line < s + cfg.page
                 case _ => 1 <= line <= cfg.page)
  {
  }

  /** What a paid call costs: its arguments, and its recorded result or the estimate for as many lines as it gets. */
  lemma CostIs(c: ReadCall, cfg: Config, lineCost: (ReadCall, nat) -> nat)
    requires GoodCall(c) && GoodConfig(cfg)
    ensures c.kind.Unbounded? ==> CostOf(c, cfg, lineCost) == c.argTokens + c.resultTokens
    ensures !c.kind.Unbounded? ==>
              exists n: nat :: CostOf(c, cfg, lineCost) == c.argTokens + lineCost(c, n) && IsCount(Delivered(c, cfg).value, n)
  {
    if !c.kind.Unbounded? { assert IsCount(Delivered(c, cfg).value, Length(Delivered(c, cfg).value)); }
  }

  /** The interval has `n` lines. */
  predicate IsCount(span: LineSpan, n: nat) {
    (n == 0 <==> span.end < span.start) && (n > 0 ==> span.end == span.start + n - 1)
  }

  // ----- replaying one group ----------------------------------------------------------------

  /** The intervals delivered by those of the first `n` calls that are paid for. */
  ghost function Deliveries(group: seq<ReadCall>, cfg: Config, n: nat): seq<LineSpan>
    requires n <= |group| && GoodConfig(cfg) && forall i :: 0 <= i < |group| ==> GoodCall(group[i])
    decreases n, 0
  {
    if n == 0 then [] else
      var c := group[n - 1];
      if Delivered(c, cfg).Some? && Pays(group, cfg, n - 1) then Deliveries(group, cfg, n - 1) + [Delivered(c, cfg).value]
      else Deliveries(group, cfg, n - 1)
  }

  /** A call is paid for unless it is a later one and every line it asks for has been delivered. */
  ghost predicate Pays(group: seq<ReadCall>, cfg: Config, i: nat)
    requires i < |group| && GoodConfig(cfg) && forall k :: 0 <= k < |group| ==> GoodCall(group[k])
    decreases i, 1
  {
    var req := Requested(group[i], cfg);
    req == None || i == 0 || !(forall line: nat :: req.value.Has(line) ==> Covered(Deliveries(group, cfg, i), line))
  }

  /** A line has been delivered exactly if a paid call gets it. */
  lemma {:induction false} DeliveriesAre(group: seq<ReadCall>, cfg: Config, n: nat)
    requires n <= |group| && GoodConfig(cfg) && forall k :: 0 <= k < |group| ==> GoodCall(group[k])
    ensures forall line: nat :: Covered(Deliveries(group, cfg, n), line) <==> DeliveredBefore(group, cfg, n, line)
  {
    hide Delivered, Pays;
    if n == 0 {
      CoveredNothing();
    } else {
      DeliveriesAre(group, cfg, n - 1);
      if Delivered(group[n - 1], cfg).Some? { CoveredSnoc(Deliveries(group, cfg, n - 1), Delivered(group[n - 1], cfg).value); }
      hide Covered;
      forall line: nat ensures DeliveredBefore(group, cfg, n, line) <==> DeliveredBefore(group, cfg, n - 1, line) || Brings(group, cfg, n - 1, line) {}
    }
  }

  ghost predicate Brings(group: seq<ReadCall>, cfg: Config, i: nat, line: nat)
    requires i < |group| && GoodConfig(cfg) && forall k :: 0 <= k < |group| ==> GoodCall(group[k])
  {
    Pays(group, cfg, i) && Delivered(group[i], cfg).Some? && Delivered(group[i], cfg).value.Has(line)
  }

  ghost predicate DeliveredBefore(group: seq<ReadCall>, cfg: Config, n: nat, line: nat)
    requires n <= |group| && GoodConfig(cfg) && forall k :: 0 <= k < |group| ==> GoodCall(group[k])
  {
    exists i :: 0 <= i < n && Brings(group, cfg, i, line)
  }

  lemma {:induction false} DeliveredFromOne(group: seq<ReadCall>, cfg: Config, n: nat)
    requires n <= |group| && GoodConfig(cfg) && forall k :: 0 <= k < |group| ==> GoodCall(group[k])
    ensures !Covered(Deliveries(group, cfg, n), 0)
  {
    if n > 0 { DeliveredFromOne(group, cfg, n - 1); }
  }

  /** A call from line 0 on is paid for however often it comes: no call delivers that line. */
  lemma FromZeroPays(group: seq<ReadCall>, cfg: Config, i: nat)
    requires i < |group| && GoodConfig(cfg) && forall k :: 0 <= k < |group| ==> GoodCall(group[k])
    requires Requested(group[i], cfg).Some? && Requested(group[i], cfg).value.start == 0
    ensures Pays(group, cfg, i)
  {
    DeliveredFromOne(group, cfg, i);
    assert Requested(group[i], cfg).value.Has(0);
  }

  ghost function CountPaid(group: seq<ReadCall>, cfg: Config, n: nat): nat
    requires n <= |group| && GoodConfig(cfg) && forall k :: 0 <= k < |group| ==> GoodCall(group[k])
  {
    if n == 0 then 0 else CountPaid(group, cfg, n - 1) + if Pays(group, cfg, n - 1) then 1 else 0
  }

  /** What a paid call costs: its observed result if it has no line bounds, else an estimate for the lines delivered. */
  function CostOf(c: ReadCall, cfg: Config, lineCost: (ReadCall, nat) -> nat): nat
    requires GoodCall(c) && GoodConfig(cfg)
  {
    c.argTokens + if Delivered(c, cfg) == None then c.resultTokens else lineCost(c, Length(Delivered(c, cfg).value))
  }

  ghost function SumPaid(group: seq<ReadCall>, cfg: Config, lineCost: (ReadCall, nat) -> nat, n: nat): nat
    requires n <= |group| && GoodConfig(cfg) && forall k :: 0 <= k < |group| ==> GoodCall(group[k])
  {
    if n == 0 then 0 else SumPaid(group, cfg, lineCost, n - 1) + if Pays(group, cfg, n - 1) then CostOf(group[n - 1], cfg, lineCost) else 0
  }

  /** The replay of one group: a read is skipped exactly when every line it asks for was delivered before. */
  method Replay(group: seq<ReadCall>, cfg: Config, lineCost: (ReadCall, nat) -> nat) returns (tokens: nat, calls: nat, skipped: nat, coverage: seq<LineSpan>)
    requires GoodConfig(cfg) && forall k :: 0 <= k < |group| ==> GoodCall(group[k])
    ensures calls == CountPaid(group, cfg, |group|) && calls + skipped == |group|
    ensures tokens == SumPaid(group, cfg, lineCost, |group|)
    ensures Spaced(coverage) && forall line: nat :: Covered(coverage, line) <==> Covered(Deliveries(group, cfg, |group|), line)
  {
    hide Covered, Delivered, Requested;
    tokens, calls, skipped, coverage := 0, 0, 0, [];
    for i := 0 to |group|
      invariant calls == CountPaid(group, cfg, i) && calls + skipped == i && tokens == SumPaid(group, cfg, lineCost, i)
      invariant Spaced(coverage) && forall line: nat :: Covered(coverage, line) <==> Covered(Deliveries(group, cfg, i), line)
    {
      var c := group[i];
      var req, delivered := Requested(c, cfg), Delivered(c, cfg);
      if req == None || delivered == None {
        tokens, calls := tokens + CostOf(c, cfg, lineCost), calls + 1;
        continue;
      }
      var known := false;
      if i > 0 { known := IsCovered(coverage, req.value); }
      if known {
        skipped := skipped + 1;
        continue;
      }
      tokens, calls := tokens + CostOf(c, cfg, lineCost), calls + 1;
      coverage := AddInterval(coverage, delivered.value);
      CoveredSnoc(Deliveries(group, cfg, i), delivered.value);
    }
  }

  /** The reads of the first `n` groups, those that are paid for, and what they cost. */
  function CountReads(groups: seq<seq<ReadCall>>, n: nat): nat
    requires n <= |groups|
  {
    if n == 0 then 0 else CountReads(groups, n - 1) + |groups[n - 1]|
  }

  ghost predicate GoodGroups(groups: seq<seq<ReadCall>>, cfg: Config) {
    GoodConfig(cfg) && forall i, k :: 0 <= i < |groups| && 0 <= k < |groups[i]| ==> GoodCall(groups[i][k])
  }

  ghost function CountAllPaid(groups: seq<seq<ReadCall>>, cfg: Config, n: nat): nat
    requires n <= |groups| && GoodGroups(groups, cfg)
  {
    if n == 0 then 0 else CountAllPaid(groups, cfg, n - 1) + CountPaid(groups[n - 1], cfg, |groups[n - 1]|)
  }

  ghost function SumAllPaid(groups: seq<seq<ReadCall>>, cfg: Config, lineCost: (ReadCall, nat) -> nat, n: nat): nat
    requires n <= |groups| && GoodGroups(groups, cfg)
  {
    if n == 0 then 0 else SumAllPaid(groups, cfg, lineCost, n - 1) + SumPaid(groups[n - 1], cfg, lineCost, |groups[n - 1]|)
  }

  /** All groups: coverage starts afresh with each, and every read is either paid for or skipped. */
  method ReplayAll(groups: seq<seq<ReadCall>>, cfg: Config, lineCost: (ReadCall, nat) -> nat) returns (tokens: nat, calls: nat, skipped: nat)
    requires GoodGroups(groups, cfg)
    ensures calls == CountAllPaid(groups, cfg, |groups|) && calls + skipped == CountReads(groups, |groups|)
    ensures tokens == SumAllPaid(groups, cfg, lineCost, |groups|)
  {
    hide CountPaid, SumPaid;
    tokens, calls, skipped := 0, 0, 0;
    for i := 0 to |groups|
      invariant calls == CountAllPaid(groups, cfg, i) && calls + skipped == CountReads(groups, i)
      invariant tokens == SumAllPaid(groups, cfg, lineCost, i)
    {
      var t, c, s, _ := Replay(groups[i], cfg, lineCost);
      tokens, calls, skipped := tokens + t, calls + c, skipped + s;
    }
  }

  // ----- the frontier ------------------------------------------------------------------------

  datatype Outcome = Outcome(tokens: nat, calls: nat, truncations: nat)

  function OutcomeKey(r: Outcome): Key {
    (r.tokens, r.calls)
  }

  /** `a` is at least as good as `b` on both counts. */
  predicate Covers(a: Outcome, b: Outcome) {
    a.tokens <= b.tokens && a.calls <= b.calls
  }

  predicate Ascending(f: seq<Outcome>) {
    forall i, j :: 0 <= i < j < |f| ==> f[i].tokens < f[j].tokens && f[i].calls > f[j].calls
  }

  /** Within both limits; the one on tokens may be infinite. */
  predicate Admissible(r: Outcome, maxTruncations: nat, maxRegretTokens: Option<nat>) {
    r.truncations <= maxTruncations && (maxRegretTokens.Some? ==> r.tokens <= maxRegretTokens.value)
  }

  method Clean(results: seq<Outcome>, maxTruncations: nat, maxRegretTokens: Option<nat>) returns (clean: seq<Outcome>)
    ensures forall r :: r in clean <==> r in results && Admissible(r, maxTruncations, maxRegretTokens)
  {
    clean := [];
    for i := 0 to |results|
      invariant forall r :: r in clean <==> r in results[..i] && Admissible(r, maxTruncations, maxRegretTokens)
    {
      if Admissible(results[i], maxTruncations, maxRegretTokens) { clean := clean + [results[i]]; }
    }
  }

  ghost predicate Matched(frontier: seq<Outcome>, r: Outcome) {
    exists f :: f in frontier && Covers(f, r)
  }

  lemma MatchedGrows(frontier: seq<Outcome>, x: Outcome, r: Outcome)
    ensures Matched(frontier, r) || Covers(x, r) ==> Matched(frontier + [x], r)
  {
    if f :| f in frontier && Covers(f, r) { assert f in frontier + [x]; }
    assert x in frontier + [x];
  }

  /** What the loop knows after the first `i` results in order. */
  ghost predicate FrontierOf(frontier: seq<Outcome>, sorted: seq<Outcome>, i: nat)
    requires i <= |sorted|
  {
    && Ascending(frontier) && (frontier == [] <==> i == 0)
    && (forall f :: f in frontier ==> f in sorted[..i])
    && (forall k :: 0 <= k < i ==> Matched(frontier, sorted[k]))
  }

  lemma FrontierGrows(frontier: seq<Outcome>, sorted: seq<Outcome>, i: nat)
    requires i < |sorted| && Sorted(sorted, OutcomeKey) && FrontierOf(frontier, sorted, i)
    requires frontier == [] || sorted[i].calls < frontier[|frontier| - 1].calls
    ensures FrontierOf(frontier + [sorted[i]], sorted, i + 1)
  {
    hide Matched;
    var r, after := sorted[i], frontier + [sorted[i]];
    assert sorted[..i + 1] == sorted[..i] + [r];
    forall j | 0 <= j < |frontier| ensures frontier[j].tokens < r.tokens && frontier[j].calls > r.calls {
      assert frontier[j] in sorted[..i];
      var k :| 0 <= k < i && sorted[k] == frontier[j];
      assert Leq(OutcomeKey(sorted[k]), OutcomeKey(sorted[i]));
      assert j < |frontier| - 1 ==> frontier[j].calls > frontier[|frontier| - 1].calls;
    }
    forall k | 0 <= k < i + 1 ensures Matched(after, sorted[k]) { MatchedGrows(frontier, r, sorted[k]); }
  }

  lemma FrontierStays(frontier: seq<Outcome>, sorted: seq<Outcome>, i: nat)
    requires i < |sorted| && Sorted(sorted, OutcomeKey) && FrontierOf(frontier, sorted, i)
    requires frontier != [] && sorted[i].calls >= frontier[|frontier| - 1].calls
    ensures FrontierOf(frontier, sorted, i + 1)
  {
    hide Matched, Ascending;
    var last := frontier[|frontier| - 1];
    assert sorted[..i + 1] == sorted[..i] + [sorted[i]];
    assert last in sorted[..i];
    var k :| 0 <= k < i && sorted[k] == last;
    assert Leq(OutcomeKey(sorted[k]), OutcomeKey(sorted[i]));
    IsMatched(frontier, last, sorted[i]);
  }

  lemma IsMatched(frontier: seq<Outcome>, f: Outcome, r: Outcome)
    requires f in frontier && Covers(f, r)
    ensures Matched(frontier, r)
  {
  }

  /** On an ascending frontier nothing is matched by anything but itself. */
  lemma NoneBeaten(frontier: seq<Outcome>, f: Outcome, r: Outcome)
    requires Ascending(frontier) && f in frontier && Matched(frontier, r) && Covers(r, f)
    ensures OutcomeKey(r) == OutcomeKey(f)
  {
    var g :| g in frontier && Covers(g, r);
    var i, j :| 0 <= i < |frontier| && 0 <= j < |frontier| && frontier[i] == f && frontier[j] == g;
  }

  /**
   The Pareto frontier: only admissible results, each trading tokens for calls against the next, every
   admissible result matched by one on the frontier, and none on the frontier beaten by an admissible one.
   */
  method Pareto(results: seq<Outcome>, maxTruncations: nat, maxRegretTokens: Option<nat>) returns (frontier: seq<Outcome>)
    ensures Ascending(frontier)
    ensures forall f :: f in frontier ==> f in results && Admissible(f, maxTruncations, maxRegretTokens)
    ensures forall r :: r in results && Admissible(r, maxTruncations, maxRegretTokens) ==> Matched(frontier, r)
    ensures forall f, r :: f in frontier && r in results && Admissible(r, maxTruncations, maxRegretTokens) && Covers(r, f) ==> OutcomeKey(r) == OutcomeKey(f)
  {
    hide Sort, Matched;
    var clean := Clean(results, maxTruncations, maxRegretTokens);
    var sorted := Sort(clean, OutcomeKey);
    SortMembers(clean, OutcomeKey);
    frontier := [];
    for i := 0 to |sorted|
      invariant FrontierOf(frontier, sorted, i)
    {
      if frontier == [] || sorted[i].calls < frontier[|frontier| - 1].calls {
        FrontierGrows(frontier, sorted, i);
        frontier := frontier + [sorted[i]];
      } else {
        FrontierStays(frontier, sorted, i);
      }
    }
    forall r | r in clean ensures Matched(frontier, r) { assert r in sorted; }
    forall f, r | f in frontier && r in clean && Covers(r, f) ensures OutcomeKey(r) == OutcomeKey(f) { NoneBeaten(frontier, f, r); }
  }
}
