/** The same limiter with its Redis commands interleaved: other requests may run between one
    request's prune, its count and its add.  Key expiry may strike at any point. */
module RateLimiterRaces {
  import opened Ordering
  import opened SortedSets
  import opened Wrappers
  import Decimal
  import RateLimiter

  /** Where a request in flight stands. */
  datatype Stage = HasPruned(now: int, member: string) | HasCounted(now: int, member: string)

  datatype State = State(entries: ZSet, flight: map<nat, Stage>)

  datatype Event =
    | Prune(req: nat, now: int, member: string)
    | Count(req: nat)
    | Add(req: nat)
    | Crash(req: nat)
    | KeyLost

  /** One atomic Redis command; None when the event is not enabled. */
  function Step(max: int, s: State, e: Event): Option<State> {
    match e
    case Prune(q, now, member) =>
      if q in s.flight then None
      else Some(State(ZRemThrough(s.entries, now - RateLimiter.WINDOW_MS), s.flight[q := HasPruned(now, member)]))
    case Count(q) =>
      if !(q in s.flight && s.flight[q].HasPruned?) then None
      else if |s.entries| >= max then Some(s.(flight := s.flight - {q}))
      else Some(s.(flight := s.flight[q := HasCounted(s.flight[q].now, s.flight[q].member)]))
    case Add(q) =>
      if !(q in s.flight && s.flight[q].HasCounted?) then None
      else Some(State(ZAdd(s.entries, s.flight[q].now, s.flight[q].member), s.flight - {q}))
    case Crash(q) => if q in s.flight then Some(s.(flight := s.flight - {q})) else None
    case KeyLost => Some(s.(entries := []))
  }

  /** A run that never has more than n requests in flight. */
  function Exec(max: int, n: nat, s: State, es: seq<Event>): Option<State>
    decreases |es|
  {
    if |s.flight| > n then None
    else if es == [] then Some(s)
    else
      match Step(max, s, es[0])
      case None => None
      case Some(s') => Exec(max, n, s', es[1..])
  }

  const Idle := State([], map[])

  /** Requests that have counted room and not yet added themselves. */
  function Committed(s: State): set<nat> {
    set q | q in s.flight && s.flight[q].HasCounted?
  }

  ghost predicate Bounded(max: nat, n: nat, s: State) {
    |s.entries| + |Committed(s)| <= max + n - 1
  }

  lemma SubsetSize<T>(a: set<T>, b: set<T>)
    requires a <= b
    ensures |a| <= |b|
  {
    assert b == a + (b - a);
  }

  lemma CountBounded(max: nat, n: nat, s: State, q: nat)
    requires max >= 1 && n >= 1 && Bounded(max, n, s) && Step(max, s, Count(q)).Some?
    requires |Step(max, s, Count(q)).value.flight| <= n
    ensures Bounded(max, n, Step(max, s, Count(q)).value)
  {
    var s' := Step(max, s, Count(q)).value;
    SubsetSize(Committed(s'), s'.flight.Keys);
    if |s.entries| >= max { assert Committed(s') == Committed(s); }
  }

  lemma AddBounded(max: nat, n: nat, s: State, q: nat)
    requires Bounded(max, n, s) && Step(max, s, Add(q)).Some?
    ensures Bounded(max, n, Step(max, s, Add(q)).value)
  {
    var s' := Step(max, s, Add(q)).value;
    assert q in Committed(s) && Committed(s') == Committed(s) - {q};
  }

  lemma StepBounded(max: nat, n: nat, s: State, e: Event)
    requires max >= 1 && n >= 1 && Bounded(max, n, s) && Step(max, s, e).Some? && |Step(max, s, e).value.flight| <= n
    ensures Bounded(max, n, Step(max, s, e).value)
  {
    var s' := Step(max, s, e).value;
    match e
    case Prune(q, now, member) =>
      assert Committed(s') == Committed(s);
      PruneShrinks(s.entries, now - RateLimiter.WINDOW_MS);
    case Count(q) => CountBounded(max, n, s, q);
    case Add(q) => AddBounded(max, n, s, q);
    case Crash(q) => SubsetSize(Committed(s'), Committed(s));
    case KeyLost => assert Committed(s') == Committed(s);
  }

  lemma {:induction false} PruneShrinks(z: ZSet, lo: int)
    ensures |ZRemThrough(z, lo)| <= |z|
  {
    if z != [] && z[0].t <= lo { PruneShrinks(z[1..], lo); }
  }

  /** With at most n requests in flight, no run ever leaves more than max + n - 1 entries. */
  lemma {:induction false} RaceBound(max: nat, n: nat, s: State, es: seq<Event>)
    requires max >= 1 && n >= 1 && Bounded(max, n, s) && Exec(max, n, s, es).Some?
    ensures |Exec(max, n, s, es).value.entries| <= max + n - 1
    decreases |es|
  {
    if es != [] {
      StepBounded(max, n, s, es[0]);
      RaceBound(max, n, Step(max, s, es[0]).value, es[1..]);
    }
  }

  lemma RaceBoundFromIdle(max: nat, n: nat, es: seq<Event>)
    requires max >= 1 && n >= 1 && Exec(max, n, Idle, es).Some?
    ensures |Exec(max, n, Idle, es).value.entries| <= max + n - 1
  {
    assert Committed(Idle) == {};
    RaceBound(max, n, Idle, es);
  }

  // ---------------------------------------------------------------- the bound is reached

  lemma {:induction false} ExecAppend(max: int, n: nat, s: State, es: seq<Event>, fs: seq<Event>)
    requires Exec(max, n, s, es).Some?
    ensures Exec(max, n, s, es + fs) == Exec(max, n, Exec(max, n, s, es).value, fs)
    decreases |es|
  {
    if es == [] {
      assert [] + fs == fs;
    } else {
      ExecAppend(max, n, Step(max, s, es[0]).value, es[1..], fs);
      assert (es + fs)[1..] == es[1..] + fs;
    }
  }

  /** Requests k .. k + j - 1, all about to add themselves. */
  function Waiting(k: nat, j: nat): (m: map<nat, Stage>)
    ensures |m| == j && forall q: nat :: q in m <==> k <= q < k + j
  {
    if j == 0 then map[] else Waiting(k, j - 1)[k + j - 1 := HasCounted(0, Decimal.Nat(k + j - 1))]
  }

  /** size entries of time 0, none of them by a request below top, and j requests waiting. */
  ghost predicate Loaded(s: State, size: nat, k: nat, j: nat, top: nat) {
    && |s.entries| == size && (forall x :: x in s.entries ==> x.t == 0)
    && (forall i: nat :: i < top ==> !HasMember(s.entries, Decimal.Nat(i)))
    && s.flight == Waiting(k, j)
  }

  /** One more request finds room. */
  lemma CommitOne(max: nat, n: nat, s: State, size: nat, k: nat, j: nat, top: nat)
    requires Loaded(s, size, k, j, top) && size < max && j < n
    ensures Loaded(s.(flight := Waiting(k, j + 1)), size, k, j + 1, top)
    ensures Exec(max, n, s, [Prune(k + j, 0, Decimal.Nat(k + j)), Count(k + j)]) == Some(s.(flight := Waiting(k, j + 1)))
  {
    var q, m := k + j, Decimal.Nat(k + j);
    var s1 := State(s.entries, s.flight[q := HasPruned(0, m)]);
    assert Step(max, s, Prune(q, 0, m)) == Some(s1) by {
      SortedUnique(Asc, ZRemThrough(s.entries, -RateLimiter.WINDOW_MS), s.entries);
    }
    var s2 := s.(flight := Waiting(k, j + 1));
    assert Step(max, s1, Count(q)) == Some(s2) by {
      assert s1.flight[q := HasCounted(0, m)] == s.flight[q := HasCounted(0, m)];
    }
    TwoSteps(max, n, s, Prune(q, 0, m), s1, Count(q), s2);
  }

  lemma TwoSteps(max: int, n: nat, s: State, e: Event, s1: State, f: Event, s2: State)
    requires Step(max, s, e) == Some(s1) && Step(max, s1, f) == Some(s2)
    requires |s.flight| <= n && |s1.flight| <= n && |s2.flight| <= n
    ensures Exec(max, n, s, [e, f]) == Some(s2)
  {
    assert [e, f][1..] == [f] && [f][1..] == [];
    assert Exec(max, n, s2, []) == Some(s2);
    assert Exec(max, n, s1, [f]) == Some(s2);
  }

  /** The last waiting request adds itself, whatever the set already holds. */
  lemma AddOne(max: int, n: nat, s: State, size: nat, k: nat, j: nat, top: nat) returns (s': State)
    requires Loaded(s, size, k, j, top) && 0 < j <= n && k + j <= top
    ensures Loaded(s', size + 1, k, j - 1, k + j - 1)
    ensures Exec(max, n, s, [Add(k + j - 1)]) == Some(s')
  {
    var q, m := k + j - 1, Decimal.Nat(k + j - 1);
    s' := State(ZAdd(s.entries, 0, m), Waiting(k, j - 1));
    assert Step(max, s, Add(q)) == Some(s') by { assert s.flight - {q} == Waiting(k, j - 1); }
    forall i: nat | i < q ensures !HasMember(s'.entries, Decimal.Nat(i)) {
      if Decimal.Nat(i) == m { Decimal.NatInjective(i, q); }
      assert !HasMember(s.entries, Decimal.Nat(i));
    }
    assert !HasMember(s.entries, m);
    assert [Add(q)][1..] == [] && Exec(max, n, s', []) == Some(s');
  }

  /** r requests, one after the other. */
  lemma {:induction false} Fill(max: nat, n: nat, s: State, size: nat, r: nat, top: nat) returns (es: seq<Event>, s': State)
    requires Loaded(s, size, 0, 0, top + r) && size + r <= max && n >= 1
    ensures Exec(max, n, s, es) == Some(s') && Loaded(s', size + r, 0, 0, top)
    decreases r
  {
    if r == 0 {
      es, s' := [], s;
    } else {
      var q := top + r - 1;
      assert Waiting(q, 0) == Waiting(0, 0);
      CommitOne(max, n, s, size, q, 0, top + r);
      var s2 := AddOne(max, n, s.(flight := Waiting(q, 1)), size, q, 1, top + r);
      var es1, tail := [Prune(q + 0, 0, Decimal.Nat(q + 0)), Count(q + 0)], [];
      tail, s' := Fill(max, n, s2, size + 1, r - 1, top);
      ExecAppend(max, n, s, es1, [Add(q + 1 - 1)]);
      ExecAppend(max, n, s, es1 + [Add(q + 1 - 1)], tail);
      es := es1 + [Add(q + 1 - 1)] + tail;
    }
  }

  /** r more requests all find room before any of them adds itself. */
  lemma {:induction false} CommitAll(max: nat, n: nat, s: State, size: nat, j: nat, r: nat, top: nat) returns (es: seq<Event>, s': State)
    requires Loaded(s, size, 0, j, top) && size < max && j + r <= n
    ensures Exec(max, n, s, es) == Some(s') && Loaded(s', size, 0, j + r, top)
    decreases r
  {
    if r == 0 {
      es, s' := [], s;
    } else {
      CommitOne(max, n, s, size, 0, j, top);
      var es1, tail := [Prune(0 + j, 0, Decimal.Nat(0 + j)), Count(0 + j)], [];
      tail, s' := CommitAll(max, n, s.(flight := Waiting(0, j + 1)), size, j + 1, r - 1, top);
      ExecAppend(max, n, s, es1, tail);
      es := es1 + tail;
    }
  }

  lemma {:induction false} AddAll(max: nat, n: nat, s: State, size: nat, j: nat, top: nat) returns (es: seq<Event>, s': State)
    requires Loaded(s, size, 0, j, top) && j <= n && j <= top
    ensures Exec(max, n, s, es) == Some(s') && |s'.entries| == size + j
    decreases j
  {
    if j == 0 {
      es, s' := [], s;
    } else {
      var s1 := AddOne(max, n, s, size, 0, j, top);
      var tail;
      tail, s' := AddAll(max, n, s1, size + 1, j - 1, 0 + j - 1);
      ExecAppend(max, n, s, [Add(0 + j - 1)], tail);
      es := [Add(0 + j - 1)] + tail;
    }
  }

  /** The bound is exact: for every max and n some run records max + n - 1 requests, all in
      the same millisecond — n - 1 more than the limiter admits when requests are atomic. */
  lemma RaceBoundReached(max: nat, n: nat) returns (es: seq<Event>)
    requires max >= 1 && n >= 1
    ensures Exec(max, n, Idle, es).Some? && |Exec(max, n, Idle, es).value.entries| == max + n - 1
  {
    var es1, s1 := Fill(max, n, Idle, 0, max - 1, n);
    var es2, s2 := CommitAll(max, n, s1, max - 1, 0, n, n);
    var es3, s3 := AddAll(max, n, s2, max - 1, n, n);
    ExecAppend(max, n, Idle, es1, es2);
    ExecAppend(max, n, Idle, es1 + es2, es3);
    es := es1 + es2 + es3;
  }
}
