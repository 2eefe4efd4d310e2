/**
 The worker pool as a protocol: workers share one counter and one result array, and every await is a
 point where any other worker may run.
 */
module MapPool {
  import opened Options

  datatype Worker = Idle | Busy(index: nat) | Finished | Rejected(index: nat)

  datatype Pool<R> = Pool(next: nat, out: seq<Option<R>>, workers: seq<Worker>)

  /** What `fn` does with each item: a result, or a rejection. */
  type Fn<R> = nat -> Option<R>

  function Initial<R>(n: nat, limit: int): Pool<R> {
    var count := if limit < 0 then 0 else if limit < n then limit else n;
    Pool(0, seq(n, _ => None), seq(count, _ => Idle))
  }

  // ----- steps ---------------------------------------------------------------------------

  datatype Action = Claim | Settle | Leave

  predicate Enabled<R>(s: Pool<R>, w: nat, a: Action) {
    && w < |s.workers|
    && match a
       case Claim => s.workers[w].Idle? && s.next < |s.out|
       case Settle => s.workers[w].Busy? && s.workers[w].index < |s.out|
       case Leave => s.workers[w].Idle? && s.next >= |s.out|
  }

  function Do<R>(fn: Fn<R>, s: Pool<R>, w: nat, a: Action): Pool<R>
    requires Enabled(s, w, a)
  {
    match a
    case Claim => s.(next := s.next + 1, workers := s.workers[w := Busy(s.next)])
    case Settle =>
      var i := s.workers[w].index;
      if fn(i).Some? then s.(out := s.out[i := fn(i)], workers := s.workers[w := Idle]) else s.(workers := s.workers[w := Rejected(i)])
    case Leave => s.(workers := s.workers[w := Finished])
  }

  datatype Event = Event(worker: nat, action: Action)

  /** The state after the first `k` events of a schedule, if they can all happen. */
  function Run<R>(fn: Fn<R>, n: nat, limit: int, schedule: seq<Event>, k: nat): Option<Pool<R>>
    requires k <= |schedule|
  {
    if k == 0 then Some(Initial(n, limit)) else
      var before, e := Run(fn, n, limit, schedule, k - 1), schedule[k - 1];
      if before.Some? && Enabled(before.value, e.worker, e.action) then Some(Do(fn, before.value, e.worker, e.action)) else None
  }

  /** The indices claimed by the first `k` events, in order. */
  function Claimed<R>(fn: Fn<R>, n: nat, limit: int, schedule: seq<Event>, k: nat): seq<nat>
    requires k <= |schedule| && Run(fn, n, limit, schedule, k).Some?
  {
    if k == 0 then [] else
      var before := Run(fn, n, limit, schedule, k - 1).value;
      Claimed(fn, n, limit, schedule, k - 1) + if schedule[k - 1].action == Claim then [before.next] else []
  }

  // ----- the invariant ---------------------------------------------------------------------

  predicate Holds(w: Worker, i: int) {
    (w.Busy? || w.Rejected?) && w.index == i
  }

  /** Index `i` is with worker `w`. */
  predicate HeldBy<R>(s: Pool<R>, i: int, w: int) {
    0 <= w < |s.workers| && Holds(s.workers[w], i)
  }

  /**
   Every index below the counter has been claimed, and is either settled or with exactly one worker; no
   index from the counter on is with any worker or has a result.
   */
  ghost predicate Inv<R>(fn: Fn<R>, n: nat, limit: int, s: Pool<R>) {
    && |s.out| == n && s.next <= n && |s.workers| == |Initial<R>(n, limit).workers|
    && (forall i, w :: HeldBy(s, i, w) ==> i < s.next && s.out[i] == None)
    && (forall i, w, v :: HeldBy(s, i, w) && HeldBy(s, i, v) ==> w == v)
    && (forall i :: 0 <= i < n && s.out[i].Some? ==> i < s.next && s.out[i] == fn(i))
    && (forall i :: 0 <= i < s.next && s.out[i] == None ==> exists w :: HeldBy(s, i, w))
    && (forall w :: 0 <= w < |s.workers| && s.workers[w].Rejected? ==> fn(s.workers[w].index) == None)
    && (forall w :: 0 <= w < |s.workers| && s.workers[w].Finished? ==> s.next == n)
  }

  lemma InvInitial<R>(fn: Fn<R>, n: nat, limit: int)
    ensures Inv(fn, n, limit, Initial(n, limit))
  {
  }

  lemma ClaimKeeps<R>(fn: Fn<R>, n: nat, limit: int, s: Pool<R>, w: nat)
    requires Inv(fn, n, limit, s) && Enabled(s, w, Claim)
    ensures Inv(fn, n, limit, Do(fn, s, w, Claim))
  {
    var t := Do(fn, s, w, Claim);
    forall i, v ensures HeldBy(t, i, v) <==> HeldBy(s, i, v) || (i == s.next && v == w) {}
    forall i | 0 <= i < t.next && t.out[i] == None ensures exists v :: HeldBy(t, i, v) {
      if i == s.next {
        assert HeldBy(t, i, w);
      } else {
        var v :| HeldBy(s, i, v);
        assert HeldBy(t, i, v);
      }
    }
  }

  lemma SettleKeeps<R>(fn: Fn<R>, n: nat, limit: int, s: Pool<R>, w: nat)
    requires Inv(fn, n, limit, s) && Enabled(s, w, Settle)
    ensures Inv(fn, n, limit, Do(fn, s, w, Settle))
  {
    var t, done := Do(fn, s, w, Settle), s.workers[w].index;
    assert HeldBy(s, done, w);
    forall i, v ensures HeldBy(t, i, v) <==> HeldBy(s, i, v) && (v == w ==> fn(done) == None) {}
    forall i | 0 <= i < t.next && t.out[i] == None ensures exists v :: HeldBy(t, i, v) {
      var v :| HeldBy(s, i, v);
      assert HeldBy(t, i, v);
    }
  }

  lemma LeaveKeeps<R>(fn: Fn<R>, n: nat, limit: int, s: Pool<R>, w: nat)
    requires Inv(fn, n, limit, s) && Enabled(s, w, Leave)
    ensures Inv(fn, n, limit, Do(fn, s, w, Leave))
  {
    var t := Do(fn, s, w, Leave);
    forall i, v ensures HeldBy(t, i, v) <==> HeldBy(s, i, v) {}
    forall i | 0 <= i < t.next && t.out[i] == None ensures exists v :: HeldBy(t, i, v) {
      var v :| HeldBy(s, i, v);
      assert HeldBy(t, i, v);
    }
  }

  /** The invariant holds in every state of every schedule. */
  lemma {:induction false} InvAlways<R>(fn: Fn<R>, n: nat, limit: int, schedule: seq<Event>, k: nat, s: Pool<R>)
    requires k <= |schedule| && Run(fn, n, limit, schedule, k) == Some(s)
    ensures Inv(fn, n, limit, s)
  {
    if k == 0 {
      InvInitial(fn, n, limit);
    } else {
      var e := schedule[k - 1];
      var before := Run(fn, n, limit, schedule, k - 1).value;
      InvAlways(fn, n, limit, schedule, k - 1, before);
      match e.action {
        case Claim => ClaimKeeps(fn, n, limit, before, e.worker);
        case Settle => SettleKeeps(fn, n, limit, before, e.worker);
        case Leave => LeaveKeeps(fn, n, limit, before, e.worker);
      }
    }
  }

  // ----- what follows ----------------------------------------------------------------------

  /** In every schedule the indices are claimed once each, in increasing order from 0. */
  lemma {:induction false} ClaimedOnce<R>(fn: Fn<R>, n: nat, limit: int, schedule: seq<Event>, k: nat)
    requires k <= |schedule| && Run(fn, n, limit, schedule, k).Some?
    ensures var claimed := Claimed(fn, n, limit, schedule, k);
            |claimed| == Run(fn, n, limit, schedule, k).value.next && forall i :: 0 <= i < |claimed| ==> claimed[i] == i
  {
    if k > 0 { ClaimedOnce(fn, n, limit, schedule, k - 1); }
  }

  /** How many calls of `fn` are in flight. */
  function InFlight(ws: seq<Worker>, n: nat): nat
    requires n <= |ws|
  {
    if n == 0 then 0 else InFlight(ws, n - 1) + if ws[n - 1].Busy? then 1 else 0
  }

  lemma {:induction false} InFlightBounded(ws: seq<Worker>, n: nat)
    requires n <= |ws|
    ensures InFlight(ws, n) <= n
  {
    if n > 0 { InFlightBounded(ws, n - 1); }
  }

  /** Never more calls in flight than the limit, or than there are items. */
  lemma ConcurrencyBounded<R>(fn: Fn<R>, n: nat, limit: int, schedule: seq<Event>, k: nat, s: Pool<R>)
    requires k <= |schedule| && Run(fn, n, limit, schedule, k) == Some(s)
    ensures InFlight(s.workers, |s.workers|) <= n && (limit >= 0 ==> InFlight(s.workers, |s.workers|) <= limit)
  {
    InvAlways(fn, n, limit, schedule, k, s);
    InFlightBounded(s.workers, |s.workers|);
  }

  predicate Completed<R>(s: Pool<R>) {
    forall w :: 0 <= w < |s.workers| ==> s.workers[w].Finished?
  }

  /** Once every worker has finished, each item has the result of its own call, in its own place. */
  lemma CompletedIsMap<R>(fn: Fn<R>, n: nat, limit: int, schedule: seq<Event>, k: nat, s: Pool<R>)
    requires k <= |schedule| && Run(fn, n, limit, schedule, k) == Some(s) && Completed(s) && limit >= 1
    ensures |s.out| == n && forall i :: 0 <= i < n ==> s.out[i].Some? && s.out[i] == fn(i)
  {
    InvAlways(fn, n, limit, schedule, k, s);
    if n > 0 {
      assert s.workers[0].Finished?;
      forall i | 0 <= i < n ensures s.out[i].Some? {
        assert forall w :: !HeldBy(s, i, w);
      }
    }
  }

  /** While some worker is neither finished nor rejected, some step can be taken. */
  lemma NoDeadlock<R>(fn: Fn<R>, n: nat, limit: int, s: Pool<R>, w: nat)
    requires Inv(fn, n, limit, s) && w < |s.workers| && !s.workers[w].Finished? && !s.workers[w].Rejected?
    ensures exists a :: Enabled(s, w, a)
  {
    if s.workers[w].Busy? {
      assert HeldBy(s, s.workers[w].index, w);
      assert Enabled(s, w, Settle);
    } else if s.next < n {
      assert Enabled(s, w, Claim);
    } else {
      assert Enabled(s, w, Leave);
    }
  }

  function Weight(w: Worker): nat {
    if w.Busy? then 2 else if w.Idle? then 1 else 0
  }

  function Weights(ws: seq<Worker>, n: nat): nat
    requires n <= |ws|
  {
    if n == 0 then 0 else Weights(ws, n - 1) + Weight(ws[n - 1])
  }

  lemma {:induction false} WeightsUpdate(ws: seq<Worker>, w: nat, x: Worker, n: nat)
    requires w < |ws| && n <= |ws|
    ensures Weights(ws[w := x], n) == Weights(ws, n) + if w < n then Weight(x) - Weight(ws[w]) else 0
  {
    if n > 0 { WeightsUpdate(ws, w, x, n - 1); }
  }

  /** What is left to do: it shrinks with every step, so every schedule ends. */
  function Left<R>(s: Pool<R>): int {
    3 * (|s.out| - s.next) + Weights(s.workers, |s.workers|)
  }

  lemma StepShrinks<R>(fn: Fn<R>, s: Pool<R>, w: nat, a: Action)
    requires Enabled(s, w, a)
    ensures Left(Do(fn, s, w, a)) < Left(s)
  {
    var t := Do(fn, s, w, a);
    WeightsUpdate(s.workers, w, t.workers[w], |s.workers|);
    assert t.workers == s.workers[w := t.workers[w]];
  }

  lemma {:induction false} InitialWeights<R>(n: nat, limit: int, k: nat)
    requires k <= |Initial<R>(n, limit).workers|
    ensures Weights(Initial<R>(n, limit).workers, k) == k
  {
    if k > 0 { InitialWeights<R>(n, limit, k - 1); }
  }

  /** No schedule is longer than four steps per item. */
  lemma {:induction false} ScheduleBounded<R>(fn: Fn<R>, n: nat, limit: int, schedule: seq<Event>, k: nat, s: Pool<R>)
    requires k <= |schedule| && Run(fn, n, limit, schedule, k) == Some(s)
    ensures k + Left(s) <= 4 * n && 0 <= Left(s)
  {
    InvAlways(fn, n, limit, schedule, k, s);
    if k == 0 {
      InitialWeights<R>(n, limit, |s.workers|);
    } else {
      var e := schedule[k - 1];
      var before := Run(fn, n, limit, schedule, k - 1).value;
      ScheduleBounded(fn, n, limit, schedule, k - 1, before);
      StepShrinks(fn, before, e.worker, e.action);
    }
  }
}

/** How often the tokens of a tool result are paid for again by later requests. */
module Residency {
  datatype Logged = Logged(toks: nat, requestIndex: nat)

  function Later(requestCount: nat, r: Logged): nat {
    if requestCount < r.requestIndex then 0 else requestCount - r.requestIndex
  }

  /** The weighted sum, as it is accumulated. */
  function Weighted(log: seq<Logged>, requestCount: nat, n: nat): nat
    requires n <= |log|
  {
    if n == 0 then 0 else Weighted(log, requestCount, n - 1) + log[n - 1].toks * Later(requestCount, log[n - 1])
  }

  method Accumulate(log: seq<Logged>, requestCount: nat) returns (residency: nat)
    ensures residency == Paid(log, requestCount)
  {
    residency := 0;
    for i := 0 to |log|
      invariant residency == Weighted(log, requestCount, i)
    {
      residency := residency + log[i].toks * Later(requestCount, log[i]);
    }
    WeightedIsPaid(log, requestCount);
  }

  /** The tokens that are in the context of request `q`: those of all results that came before it. */
  function InContext(log: seq<Logged>, q: nat, n: nat): nat
    requires n <= |log|
  {
    if n == 0 then 0 else InContext(log, q, n - 1) + if log[n - 1].requestIndex < q then log[n - 1].toks else 0
  }

  /** The sum over all requests of what is in their context. */
  function Paid(log: seq<Logged>, requestCount: nat): nat {
    if requestCount == 0 then 0 else Paid(log, requestCount - 1) + InContext(log, requestCount, |log|)
  }

  lemma {:induction false} OneMoreRequest(log: seq<Logged>, requestCount: nat, n: nat)
    requires n <= |log|
    ensures Weighted(log, requestCount + 1, n) == Weighted(log, requestCount, n) + InContext(log, requestCount + 1, n)
  {
    if n > 0 {
      OneMoreRequest(log, requestCount, n - 1);
      var r := log[n - 1];
      if r.requestIndex < requestCount + 1 {
        assert Later(requestCount + 1, r) == Later(requestCount, r) + 1;
        assert r.toks * (Later(requestCount, r) + 1) == r.toks * Later(requestCount, r) + r.toks;
      }
    }
  }

  /** Weighting each result by the requests after it is summing every request's context. */
  lemma {:induction false} WeightedIsPaid(log: seq<Logged>, requestCount: nat)
    ensures Weighted(log, requestCount, |log|) == Paid(log, requestCount)
  {
    if requestCount == 0 {
      NothingLater(log, |log|);
    } else {
      WeightedIsPaid(log, requestCount - 1);
      OneMoreRequest(log, requestCount - 1, |log|);
    }
  }

  lemma {:induction false} NothingLater(log: seq<Logged>, n: nat)
    requires n <= |log|
    ensures Weighted(log, 0, n) == 0
  {
    if n > 0 { NothingLater(log, n - 1); }
  }
}
