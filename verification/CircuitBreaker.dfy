/** CircuitBreaker.ts: a process-local failure counter and a Redis key that says OPEN until it
    expires.  Times are milliseconds. */
module CircuitBreaker {
  import opened Wrappers
  import Arithmetic

  datatype CbState = CLOSED | OPEN | HALF_OPEN

  /** The Redis key: a state, and when Redis drops it. */
  datatype Entry = Entry(state: CbState, until: Option<int>)

  /** What one execute call did with fn. */
  datatype Outcome = Rejected | Returned | Threw

  datatype Breaker = Breaker(failureCount: int, key: Option<Entry>)

  function StateAt(key: Option<Entry>, now: int): CbState {
    if key.None? || (key.value.until.Some? && now >= key.value.until.value) then CLOSED else key.value.state
  }

  class Instance {
    const threshold: int
    const timeout: int
    var failureCount: int
    var key: Option<Entry>

    constructor (threshold: int, timeout: int)
      ensures this.threshold == threshold && this.timeout == timeout && State() == Breaker(0, None)
    {
      this.threshold, this.timeout := threshold, timeout;
      failureCount, key := 0, None;
    }

    function State(): Breaker
      reads this
    {
      Breaker(failureCount, key)
    }

    /** execute: fn, when it is called at all, runs from start to end and succeeds or throws. */
    method Execute(start: int, succeeds: bool, end: int) returns (r: Outcome)
      modifies this
      ensures r == OutcomeOf(old(State()), start, succeeds)
      ensures r.Rejected? <==> StateAt(old(key), start) == OPEN
      ensures r.Threw? ==>
        && !succeeds && failureCount == old(failureCount) + 1
        && key == if failureCount >= threshold then Some(Entry(OPEN, Some(end + timeout))) else old(key)
      ensures r.Returned? ==> succeeds && State() == if StateAt(old(key), start) == HALF_OPEN then Breaker(0, None) else old(State())
      ensures r.Rejected? ==> State() == old(State())
      ensures State() == After(threshold, timeout, old(State()), start, succeeds, end)
    {
      var state := StateAt(key, start);
      if state == OPEN { return Rejected; }
      if succeeds {
        if state == HALF_OPEN { key, failureCount := None, 0; }
        return Returned;
      }
      failureCount := failureCount + 1;
      if failureCount >= threshold { key := Some(Entry(OPEN, Some(end + timeout))); }
      return Threw;
    }
  }

  function OutcomeOf(b: Breaker, start: int, succeeds: bool): Outcome {
    if StateAt(b.key, start).OPEN? then Rejected else if succeeds then Returned else Threw
  }

  function After(threshold: int, timeout: int, b: Breaker, start: int, succeeds: bool, end: int): Breaker {
    match OutcomeOf(b, start, succeeds)
    case Rejected => b
    case Returned => if StateAt(b.key, start).HALF_OPEN? then Breaker(0, None) else b
    case Threw =>
      Breaker(b.failureCount + 1,
              if b.failureCount + 1 >= threshold then Some(Entry(OPEN, Some(end + timeout))) else b.key)
  }

  // ---------------------------------------------------------------- runs

  datatype Call = Call(start: int, succeeds: bool, end: int)

  /** The breaker after a run, and when fn threw. */
  datatype Trace = Trace(b: Breaker, failures: seq<int>)

  function Extend(threshold: int, timeout: int, tr: Trace, c: Call): Trace {
    var o := OutcomeOf(tr.b, c.start, c.succeeds);
    Trace(After(threshold, timeout, tr.b, c.start, c.succeeds, c.end),
          if o.Threw? then tr.failures + [c.end] else tr.failures)
  }

  function Run(threshold: int, timeout: int, calls: seq<Call>): Trace {
    if calls == [] then Trace(Breaker(0, None), [])
    else Extend(threshold, timeout, Run(threshold, timeout, calls[..|calls| - 1]), calls[|calls| - 1])
  }

  /** One call at a time, on a clock that never goes back. */
  ghost predicate Sequential(calls: seq<Call>) {
    && (forall i :: 0 <= i < |calls| ==> calls[i].start <= calls[i].end)
    && forall i, j :: 0 <= i < j < |calls| ==> calls[i].end <= calls[j].start
  }

  /** The counter never forgets: it is the number of failures, whatever succeeded between.
      From the threshold-th failure on, the key says OPEN for timeout after the last one, and
      failures are at least timeout apart. */
  ghost predicate Cumulative(threshold: int, timeout: int, tr: Trace, now: int) {
    var n := |tr.failures|;
    && threshold >= 1 && tr.b.failureCount == n
    && (tr.b.key == if n < threshold then None else Some(Entry(OPEN, Some(tr.failures[n - 1] + timeout))))
    && (forall i :: 0 <= i < n ==> tr.failures[i] <= now)
    && (forall i :: threshold <= i < n ==> tr.failures[i - 1] + timeout <= tr.failures[i])
  }

  lemma ExtendCumulative(threshold: int, timeout: int, tr: Trace, c: Call, now: int)
    requires threshold >= 1 && timeout >= 0 && Cumulative(threshold, timeout, tr, now) && now <= c.start <= c.end
    ensures Cumulative(threshold, timeout, Extend(threshold, timeout, tr, c), c.end)
  {}

  lemma {:induction false} RunCumulative(threshold: int, timeout: int, calls: seq<Call>, now: int)
    requires threshold >= 1 && timeout >= 0 && Sequential(calls) && forall c :: c in calls ==> c.end <= now
    ensures Cumulative(threshold, timeout, Run(threshold, timeout, calls), now)
  {
    if calls != [] {
      var n := |calls| - 1;
      var c, before := calls[n], calls[..n];
      assert c in calls;
      forall x | x in before ensures x.end <= c.start {
        var i :| 0 <= i < n && calls[i] == x;
      }
      RunCumulative(threshold, timeout, before, c.start);
      ExtendCumulative(threshold, timeout, Run(threshold, timeout, before), c, c.start);
    }
  }

  /** No code writes HALF_OPEN, so no call ever sees it: the OPEN state is left by expiry
      straight to CLOSED, and a success never resets the counter. */
  lemma NeverHalfOpen(threshold: int, timeout: int, calls: seq<Call>, t: int)
    requires threshold >= 1 && timeout >= 0 && Sequential(calls)
    ensures !StateAt(Run(threshold, timeout, calls).b.key, t).HALF_OPEN?
    ensures Run(threshold, timeout, calls).b.failureCount == |Run(threshold, timeout, calls).failures|
  {
    var now := RunEnd(threshold, timeout, calls);
  }

  /** The time at which a run ends. */
  lemma RunEnd(threshold: int, timeout: int, calls: seq<Call>) returns (now: int)
    requires threshold >= 1 && timeout >= 0 && Sequential(calls)
    ensures Cumulative(threshold, timeout, Run(threshold, timeout, calls), now)
  {
    now := if calls == [] then 0 else calls[|calls| - 1].end;
    forall c | c in calls ensures c.end <= now {
      var i :| 0 <= i < |calls| && calls[i] == c;
      assert calls[i].start <= calls[i].end;
    }
    RunCumulative(threshold, timeout, calls, now);
  }

  /** Once the threshold has been reached, every later failure opens the breaker again by
      itself, and fn is not started for the whole timeout after it. */
  lemma OneFailureReopens(threshold: int, timeout: int, calls: seq<Call>, c: Call)
    requires threshold >= 1 && timeout >= 0 && Sequential(calls + [c])
    requires |Run(threshold, timeout, calls).failures| >= threshold
    ensures var tr := Run(threshold, timeout, calls);
      OutcomeOf(tr.b, c.start, c.succeeds).Rejected? <==> c.start < tr.failures[|tr.failures| - 1] + timeout
  {
    assert forall i :: 0 <= i < |calls| ==> (calls + [c])[i] == calls[i];
    assert (calls + [c])[|calls|] == c;
    forall x | x in calls ensures x.end <= c.start {
      var i :| 0 <= i < |calls| && calls[i] == x;
    }
    RunCumulative(threshold, timeout, calls, c.start);
  }

  function CountUpTo(ts: seq<int>, t: int): nat {
    if ts == [] then 0 else CountUpTo(ts[..|ts| - 1], t) + if ts[|ts| - 1] <= t then 1 else 0
  }

  /** The failure at index i comes at least (i - threshold + 1) timeouts after t0. */
  lemma {:induction false} Spaced(threshold: int, timeout: int, tr: Trace, now: int, i: int)
    requires threshold >= 1 && Cumulative(threshold, timeout, tr, now) && threshold - 1 <= i < |tr.failures|
    ensures tr.failures[threshold - 1] + (i - threshold + 1) * timeout <= tr.failures[i]
    decreases i
  {
    if i >= threshold {
      Spaced(threshold, timeout, tr, now, i - 1);
      assert (i - threshold) * timeout + timeout == (i - threshold + 1) * timeout;
    }
  }

  lemma {:induction false} CountBound(threshold: int, timeout: int, tr: Trace, now: int, t: int, n: nat)
    requires threshold >= 1 && timeout >= 1 && Cumulative(threshold, timeout, tr, now)
    requires n <= |tr.failures| && |tr.failures| >= threshold
    ensures var c := CountUpTo(tr.failures[..n], t);
      c <= n && (c > threshold ==> (c - threshold) * timeout <= t - tr.failures[threshold - 1])
  {
    if n > 0 {
      assert tr.failures[..n][..n - 1] == tr.failures[..n - 1];
      CountBound(threshold, timeout, tr, now, t, n - 1);
      var c := CountUpTo(tr.failures[..n], t);
      if c > threshold && tr.failures[n - 1] <= t {
        hide Cumulative;
        Spaced(threshold, timeout, tr, now, n - 1);
        Arithmetic.MulMono(c - threshold, n - threshold, timeout);
      }
    }
  }

  lemma QuotientBound(c: int, threshold: int, timeout: int, x: int)
    requires timeout >= 1 && x >= 0 && (c > threshold ==> (c - threshold) * timeout <= x)
    ensures c <= threshold + x / timeout
  {
    Arithmetic.AtMostQuotient(if c > threshold then c - threshold else 0, timeout, x);
  }

  /** Up to any time t at or after the threshold-th failure, at t0, fn has failed at most
      threshold + floor((t - t0) / timeout) times. */
  lemma FailureBound(threshold: int, timeout: int, calls: seq<Call>, t: int)
    requires threshold >= 1 && timeout >= 1 && Sequential(calls)
    ensures var fs := Run(threshold, timeout, calls).failures;
      |fs| >= threshold && fs[threshold - 1] <= t ==>
      CountUpTo(fs, t) <= threshold + (t - fs[threshold - 1]) / timeout
  {
    var tr := Run(threshold, timeout, calls);
    var now := RunEnd(threshold, timeout, calls);
    hide Run, Cumulative, CountUpTo;
    assert tr.failures[..|tr.failures|] == tr.failures;
    if |tr.failures| >= threshold && tr.failures[threshold - 1] <= t {
      CountBound(threshold, timeout, tr, now, t, |tr.failures|);
      QuotientBound(CountUpTo(tr.failures, t), threshold, timeout, t - tr.failures[threshold - 1]);
    }
  }

  /** When the i-th failing probe is made: the first threshold at once, then one per timeout. */
  function ProbeTime(threshold: nat, timeout: nat, i: int): int {
    if i < threshold then 0 else (i + 1 - threshold) * timeout
  }

  lemma ProbeGap(threshold: nat, timeout: nat, i: int)
    requires i >= threshold >= 1
    ensures ProbeTime(threshold, timeout, i) == ProbeTime(threshold, timeout, i - 1) + timeout
  {
    assert (i + 1 - threshold) * timeout == (i - threshold) * timeout + timeout;
  }

  function Probes(threshold: nat, timeout: nat, n: nat): (cs: seq<Call>)
    ensures |cs| == n
  {
    if n == 0 then []
    else
      var t := ProbeTime(threshold, timeout, n - 1);
      Probes(threshold, timeout, n - 1) + [Call(t, false, t)]
  }

  /** n probes have run and failed, each at its time, and the last has left the key it should. */
  ghost predicate Probed(threshold: nat, timeout: nat, tr: Trace, n: nat) {
    && |tr.failures| == n && (forall i :: 0 <= i < n ==> tr.failures[i] == ProbeTime(threshold, timeout, i))
    && tr.b == Breaker(n, if n < threshold || n == 0 then None
                          else Some(Entry(OPEN, Some(ProbeTime(threshold, timeout, n - 1) + timeout))))
  }

  lemma ProbeStep(threshold: nat, timeout: nat, tr: Trace, n: nat)
    requires threshold >= 1 && Probed(threshold, timeout, tr, n)
    ensures var t := ProbeTime(threshold, timeout, n);
      Probed(threshold, timeout, Extend(threshold, timeout, tr, Call(t, false, t)), n + 1)
  {
    if n >= threshold { ProbeGap(threshold, timeout, n); }
    hide ProbeTime;
  }

  /** The bound is reached: every probe runs and fails, the one at index threshold - 1 + k
      exactly k timeouts after t0 = 0. */
  lemma {:induction false} FailureBoundReached(threshold: nat, timeout: nat, n: nat)
    requires threshold >= 1
    ensures Probed(threshold, timeout, Run(threshold, timeout, Probes(threshold, timeout, n)), n)
  {
    if n > 0 {
      var t := ProbeTime(threshold, timeout, n - 1);
      var before := Probes(threshold, timeout, n - 1);
      assert Probes(threshold, timeout, n)[..n - 1] == before;
      assert Run(threshold, timeout, Probes(threshold, timeout, n)) ==
             Extend(threshold, timeout, Run(threshold, timeout, before), Call(t, false, t));
      hide Run, Probes, Extend;
      FailureBoundReached(threshold, timeout, n - 1);
      ProbeStep(threshold, timeout, Run(threshold, timeout, before), n - 1);
    }
  }

  // ---------------------------------------------------------------- if something writes HALF_OPEN

  /** A call, or somebody else's write of the Redis key, or its loss. */
  datatype Op = Invoke(call: Call) | WriteHalfOpen(until: Option<int>) | KeyLost

  /** The state a call saw, and what became of it. */
  datatype Seen = Seen(state: CbState, outcome: Outcome)

  datatype Record = Record(b: Breaker, seen: seq<Seen>)

  function Apply(threshold: int, timeout: int, r: Record, op: Op): Record {
    match op
    case Invoke(c) =>
      Record(After(threshold, timeout, r.b, c.start, c.succeeds, c.end),
             r.seen + [Seen(StateAt(r.b.key, c.start), OutcomeOf(r.b, c.start, c.succeeds))])
    case WriteHalfOpen(until) => r.(b := r.b.(key := Some(Entry(HALF_OPEN, until))))
    case KeyLost => r.(b := r.b.(key := None))
  }

  function RunOps(threshold: int, timeout: int, from: Record, ops: seq<Op>): Record {
    if ops == [] then from
    else Apply(threshold, timeout, RunOps(threshold, timeout, from, ops[..|ops| - 1]), ops[|ops| - 1])
  }

  const Fresh := Record(Breaker(0, None), [])

  /** The failures since the last successful probe, that is, call that saw HALF_OPEN. */
  function SinceProbe(seen: seq<Seen>): nat {
    if seen == [] then 0
    else
      var last := seen[|seen| - 1];
      if last == Seen(HALF_OPEN, Returned) then 0
      else SinceProbe(seen[..|seen| - 1]) + if last.outcome.Threw? then 1 else 0
  }

  ghost predicate Counted(threshold: int, r: Record) {
    && r.b.failureCount == SinceProbe(r.seen)
    && (r.b.key.Some? && r.b.key.value.state.OPEN? ==> SinceProbe(r.seen) >= threshold)
  }

  lemma ApplyCounted(threshold: int, timeout: int, r: Record, op: Op)
    requires Counted(threshold, r)
    ensures Counted(threshold, Apply(threshold, timeout, r, op))
  {
    if op.Invoke? {
      var seen := Apply(threshold, timeout, r, op).seen;
      assert seen[..|seen| - 1] == r.seen;
    }
  }

  lemma {:induction false} RunCounted(threshold: int, timeout: int, from: Record, ops: seq<Op>)
    requires Counted(threshold, from)
    ensures Counted(threshold, RunOps(threshold, timeout, from, ops))
  {
    if ops != [] {
      var before := ops[..|ops| - 1];
      RunCounted(threshold, timeout, from, before);
      ApplyCounted(threshold, timeout, RunOps(threshold, timeout, from, before), ops[|ops| - 1]);
    }
  }

  /** Whoever writes HALF_OPEN, whenever, and in every run: a call is turned away only if fn has
      failed threshold times since the last successful probe; and a failure, of a probe or not,
      leaves the breaker open for the timeout exactly when it has. */
  lemma HalfOpenProbe(threshold: int, timeout: int, ops: seq<Op>, c: Call, now: int)
    requires timeout >= 1 && c.end <= now < c.end + timeout
    ensures var r := RunOps(threshold, timeout, Fresh, ops);
      var r' := RunOps(threshold, timeout, Fresh, ops + [Invoke(c)]);
      && |r'.seen| == |r.seen| + 1
      && (r'.seen[|r.seen|].outcome.Rejected? ==> SinceProbe(r.seen) >= threshold)
      && (r'.seen[|r.seen|].outcome.Threw? ==>
            (StateAt(r'.b.key, now).OPEN? <==> SinceProbe(r'.seen) >= threshold))
  {
    assert (ops + [Invoke(c)])[..|ops|] == ops;
    var r := RunOps(threshold, timeout, Fresh, ops);
    RunCounted(threshold, timeout, Fresh, ops);
    ApplyCounted(threshold, timeout, r, Invoke(c));
    hide SinceProbe;
  }

  /** The calls among ops whose fn would fail. */
  function Failing(ops: seq<Op>): nat {
    if ops == [] then 0
    else
      var last := ops[|ops| - 1];
      Failing(ops[..|ops| - 1]) + if last.Invoke? && !last.call.succeeds then 1 else 0
  }

  lemma {:induction false} LetsThrough(threshold: int, timeout: int, from: Record, later: seq<Op>)
    requires Counted(threshold, from) && SinceProbe(from.seen) == 0 && Failing(later) < threshold
    ensures var r := RunOps(threshold, timeout, from, later);
      && from.seen <= r.seen && SinceProbe(r.seen) <= Failing(later)
      && forall i :: |from.seen| <= i < |r.seen| ==> !r.seen[i].outcome.Rejected?
  {
    if later != [] {
      var before, op := later[..|later| - 1], later[|later| - 1];
      var r := RunOps(threshold, timeout, from, before);
      var r' := Apply(threshold, timeout, r, op);
      LetsThrough(threshold, timeout, from, before);
      RunCounted(threshold, timeout, from, before);
      if op.Invoke? { assert r'.seen[..|r'.seen| - 1] == r.seen; }
    }
  }

  /** From a successful probe on, no call is turned away before fn has failed threshold times:
      threshold - 1 failures, wherever they fall, leave the breaker letting every call through. */
  lemma ProbeRecovers(threshold: int, timeout: int, ops: seq<Op>, probe: Call, later: seq<Op>)
    requires probe.succeeds && StateAt(RunOps(threshold, timeout, Fresh, ops).b.key, probe.start).HALF_OPEN?
    requires Failing(later) < threshold
    ensures var before := RunOps(threshold, timeout, Fresh, ops + [Invoke(probe)]);
      var r := RunOps(threshold, timeout, before, later);
      && (forall t :: StateAt(before.b.key, t) == CLOSED)
      && before.seen <= r.seen && r.b.failureCount <= Failing(later)
      && forall i :: |before.seen| <= i < |r.seen| ==> !r.seen[i].outcome.Rejected?
  {
    assert (ops + [Invoke(probe)])[..|ops|] == ops;
    var before := RunOps(threshold, timeout, Fresh, ops + [Invoke(probe)]);
    RunCounted(threshold, timeout, Fresh, ops + [Invoke(probe)]);
    LetsThrough(threshold, timeout, before, later);
    RunCounted(threshold, timeout, before, later);
  }
}
