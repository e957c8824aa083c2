/** The sliding-window rate limiter of rateLimiter.ts, one client address at a time.
    Requests are atomic here; RateLimiterRaces takes the Redis commands apart. */
module RateLimiter {
  import opened Ordering
  import opened SortedSets
  import opened Wrappers

  const WINDOW_MS := 60_000

  /** The address's sorted set, and when Redis drops the whole key. */
  datatype Bucket = Bucket(z: ZSet, expiresAt: Option<int>)

  /** Redis has dropped the key by now. */
  predicate Expired(expiresAt: Option<int>, now: int) {
    expiresAt.Some? && now >= expiresAt.value
  }

  class Limiter {
    const max: int
    var entries: ZSet
    var expiresAt: Option<int>

    constructor (max: int)
      ensures this.max == max && State() == Bucket([], None)
    {
      this.max := max;
      entries := [];
      expiresAt := None;
    }

    function State(): Bucket
      reads this
    {
      Bucket(entries, expiresAt)
    }

    /** One request: prune, count, then reject or record and renew the expiry. */
    method Handle(now: int, member: string) returns (allowed: bool)
      modifies this
      ensures allowed == Allows(old(State()), max, now)
      ensures State() == Next(old(State()), max, now, member)
      ensures forall k :: k in entries <==>
        (allowed && k == Key(now, member))
        || (k in old(entries) && !Expired(old(expiresAt), now) && k.t > now - WINDOW_MS && (allowed ==> k.id != member))
      ensures allowed ==> expiresAt == Some(now + WINDOW_MS)
    {
      if Expired(expiresAt, now) { entries, expiresAt := [], None; }
      entries := ZRemThrough(entries, now - WINDOW_MS);
      if |entries| == 0 { expiresAt := None; }
      if |entries| >= max { return false; }
      entries := ZAdd(entries, now, member);
      expiresAt := Some(now + WINDOW_MS);
      return true;
    }
  }

  /** The entries counted for a request at time now. */
  function Pruned(b: Bucket, now: int): ZSet {
    ZRemThrough(if Expired(b.expiresAt, now) then [] else b.z, now - WINDOW_MS)
  }

  predicate Allows(b: Bucket, max: int, now: int) {
    |Pruned(b, now)| < max
  }

  function Next(b: Bucket, max: int, now: int, member: string): Bucket {
    var z := Pruned(b, now);
    if Allows(b, max, now) then Bucket(ZAdd(z, now, member), Some(now + WINDOW_MS))
    else Bucket(z, if z == [] then None else b.expiresAt)
  }

  // ---------------------------------------------------------------- runs

  /** A request: its arrival time and its (random, hence distinct) member. */
  datatype Log = Log(bucket: Bucket, accepted: seq<Key>)

  /** Serve the requests in order, remembering which were accepted. */
  function Run(max: int, reqs: seq<Key>): Log {
    if reqs == [] then Log(Bucket([], None), [])
    else
      Serve(max, Run(max, reqs[..|reqs| - 1]), reqs[|reqs| - 1])
  }

  /** A clock that never goes back, and distinct members. */
  ghost predicate Clocked(reqs: seq<Key>) {
    && (forall i, j :: 0 <= i < j < |reqs| ==> reqs[i].t <= reqs[j].t)
    && UniqueIds(reqs)
  }

  /** How many of these arrived in the half-open window (lo, hi]. */
  function CountIn(ks: seq<Key>, lo: int, hi: int): nat {
    if ks == [] then 0
    else CountIn(ks[..|ks| - 1], lo, hi) + if lo < ks[|ks| - 1].t <= hi then 1 else 0
  }

  lemma {:induction false} CountSnoc(ks: seq<Key>, k: Key, lo: int, hi: int)
    ensures CountIn(ks + [k], lo, hi) == CountIn(ks, lo, hi) + if lo < k.t <= hi then 1 else 0
  {
    assert (ks + [k])[..|ks|] == ks;
  }

  lemma {:induction false} CountMono(ks: seq<Key>, lo: int, hi: int, lo': int, hi': int)
    requires lo <= lo' && hi' <= hi
    ensures CountIn(ks, lo', hi') <= CountIn(ks, lo, hi)
  {
    if ks != [] { CountMono(ks[..|ks| - 1], lo, hi, lo', hi'); }
  }

  /** Nothing recorded is later than now. */
  lemma {:induction false} CountOpenEnd(ks: seq<Key>, lo: int, hi: int, hi': int)
    requires hi <= hi' && forall k :: k in ks ==> k.t <= hi
    ensures CountIn(ks, lo, hi) == CountIn(ks, lo, hi')
  {
    if ks != [] {
      assert ks[|ks| - 1] in ks;
      CountOpenEnd(ks[..|ks| - 1], lo, hi, hi');
    }
  }

  lemma PruneTwice(z: ZSet, lo: int, lo': int)
    requires lo <= lo'
    ensures ZRemThrough(ZRemThrough(z, lo), lo') == ZRemThrough(z, lo')
  {
    SortedUnique(Asc, ZRemThrough(ZRemThrough(z, lo), lo'), ZRemThrough(z, lo'));
  }

  lemma PruneAdd(z: ZSet, k: Key, lo: int)
    requires !HasMember(z, k.id)
    ensures |ZRemThrough(ZAdd(z, k.t, k.id), lo)| == |ZRemThrough(z, lo)| + if lo < k.t then 1 else 0
  {
    var a, b := ZRemThrough(ZAdd(z, k.t, k.id), lo), ZRemThrough(z, lo);
    assert !HasMember(b, k.id);
    if lo < k.t { SortedUnique(Asc, a, ZAdd(b, k.t, k.id)); } else { SortedUnique(Asc, a, b); }
  }

  /** From time now on, pruned sizes count accepted requests. */
  ghost predicate Counts(z: ZSet, accepted: seq<Key>, now: int) {
    forall lo {:trigger ZRemThrough(z, lo)} :: lo >= now - WINDOW_MS ==> |ZRemThrough(z, lo)| == CountIn(accepted, lo, now)
  }

  /** Entries are accepted requests, none is later than now, and the key outlives them all. */
  ghost predicate Recent(s: Log, now: int) {
    && (forall k :: k in s.accepted ==> k.t <= now)
    && (forall k :: k in s.bucket.z ==> k in s.accepted)
    && (s.bucket.expiresAt.Some? ==> forall k :: k in s.bucket.z ==> k.t <= s.bucket.expiresAt.value - WINDOW_MS)
  }

  ghost predicate Tracks(s: Log, now: int) {
    Counts(s.bucket.z, s.accepted, now) && Recent(s, now)
  }

  /** Dropping the whole key removes only what the next prune would remove. */
  lemma ExpiryIsPrune(s: Log, now: int, t: int)
    requires Recent(s, now)
    ensures Pruned(s.bucket, t) == ZRemThrough(s.bucket.z, t - WINDOW_MS)
  {
    if Expired(s.bucket.expiresAt, t) {
      SortedUnique(Asc, ZRemThrough([], t - WINDOW_MS), ZRemThrough(s.bucket.z, t - WINDOW_MS));
    }
  }

  /** Moving the clock forward keeps the tracking. */
  lemma TracksLater(s: Log, now: int, t: int)
    requires Tracks(s, now) && now <= t
    ensures Tracks(s, t)
  {
    forall lo | lo >= t - WINDOW_MS ensures |ZRemThrough(s.bucket.z, lo)| == CountIn(s.accepted, lo, t) {
      CountOpenEnd(s.accepted, lo, now, t);
    }
  }

  /** Serve one more request. */
  function Serve(max: int, s: Log, r: Key): Log {
    Log(Next(s.bucket, max, r.t, r.id), if Allows(s.bucket, max, r.t) then s.accepted + [r] else s.accepted)
  }

  lemma CountsPrune(z: ZSet, accepted: seq<Key>, now: int)
    requires Counts(z, accepted, now)
    ensures Counts(ZRemThrough(z, now - WINDOW_MS), accepted, now)
  {
    forall lo | lo >= now - WINDOW_MS
      ensures |ZRemThrough(ZRemThrough(z, now - WINDOW_MS), lo)| == CountIn(accepted, lo, now)
    {
      PruneTwice(z, now - WINDOW_MS, lo);
    }
  }

  lemma CountsAdd(z: ZSet, accepted: seq<Key>, r: Key)
    requires Counts(z, accepted, r.t) && !HasMember(z, r.id)
    ensures Counts(ZAdd(z, r.t, r.id), accepted + [r], r.t)
  {
    forall lo | lo >= r.t - WINDOW_MS
      ensures |ZRemThrough(ZAdd(z, r.t, r.id), lo)| == CountIn(accepted + [r], lo, r.t)
    {
      PruneAdd(z, r, lo);
      CountSnoc(accepted, r, lo, r.t);
    }
  }

  lemma TracksStep(max: int, s: Log, r: Key)
    requires Tracks(s, r.t) && forall k :: k in s.accepted ==> k.id != r.id
    ensures Tracks(Serve(max, s, r), r.t)
  {
    hide Counts, CountIn, ZRemThrough;
    ExpiryIsPrune(s, r.t, r.t);
    CountsPrune(s.bucket.z, s.accepted, r.t);
    var z := Pruned(s.bucket, r.t);
    assert !HasMember(z, r.id);
    CountsAdd(z, s.accepted, r);
  }

  lemma {:induction false} RunTracks(max: int, reqs: seq<Key>, now: int)
    requires Clocked(reqs) && forall r :: r in reqs ==> r.t <= now
    ensures Tracks(Run(max, reqs), now)
    ensures forall k :: k in Run(max, reqs).accepted ==> k in reqs
  {
    if reqs == [] {
      forall lo ensures ZRemThrough([], lo) == [] {}
    } else {
      var n := |reqs| - 1;
      var r, before := reqs[n], reqs[..n];
      assert r in reqs && before + [r] == reqs;
      var s := Run(max, before);
      assert Run(max, reqs) == Serve(max, s, r);
      PrefixClocked(before, r);
      hide Run, Tracks, Counts, Recent, Next, Allows;
      RunTracks(max, before, r.t);
      TracksStep(max, s, r);
      TracksLater(Serve(max, s, r), r.t, now);
    }
  }

  /** A request is let through if and only if fewer than max requests were accepted in the
      60 000 ms before it. */
  lemma DecisionExact(max: int, reqs: seq<Key>, r: Key)
    requires Clocked(reqs + [r])
    ensures Allows(Run(max, reqs).bucket, max, r.t) <==>
      CountIn(Run(max, reqs).accepted, r.t - WINDOW_MS, r.t) < max
  {
    hide CountIn, Run, ZRemThrough;
    PrefixClocked(reqs, r);
    RunTracks(max, reqs, r.t);
    ExpiryIsPrune(Run(max, reqs), r.t, r.t);
  }

  lemma PrefixClocked(reqs: seq<Key>, r: Key)
    requires Clocked(reqs + [r])
    ensures Clocked(reqs) && forall k :: k in reqs ==> k.t <= r.t && k.id != r.id
  {
    assert forall i :: 0 <= i < |reqs| ==> (reqs + [r])[i] == reqs[i];
    assert (reqs + [r])[|reqs|] == r;
  }

  /** Accepting one more request keeps the bound. */
  lemma OneMoreFits(max: nat, s: Log, r: Key, hi: int)
    requires forall k :: k in s.accepted ==> k.t <= r.t
    requires Allows(s.bucket, max, r.t) <==> CountIn(s.accepted, r.t - WINDOW_MS, r.t) < max
    requires CountIn(s.accepted, hi - WINDOW_MS, hi) <= max
    ensures CountIn(Serve(max, s, r).accepted, hi - WINDOW_MS, hi) <= max
  {
    hide CountIn, Allows;
    CountSnoc(s.accepted, r, hi - WINDOW_MS, hi);
    if r.t <= hi {
      CountOpenEnd(s.accepted, hi - WINDOW_MS, r.t, hi);
      CountMono(s.accepted, r.t - WINDOW_MS, r.t, hi - WINDOW_MS, r.t);
    }
  }

  /** Every half-open window of 60 000 ms, wherever it starts, holds at most max accepted
      requests. */
  lemma {:induction false} WindowBound(max: nat, reqs: seq<Key>, hi: int)
    requires Clocked(reqs)
    ensures CountIn(Run(max, reqs).accepted, hi - WINDOW_MS, hi) <= max
  {
    if reqs != [] {
      var n := |reqs| - 1;
      var r, before := reqs[n], reqs[..n];
      assert before + [r] == reqs;
      var s := Run(max, before);
      assert Run(max, reqs) == Serve(max, s, r);
      hide Run, CountIn, Serve;
      PrefixClocked(before, r);
      WindowBound(max, before, hi);
      DecisionExact(max, before, r);
      assert forall k :: k in s.accepted ==> k.t <= r.t by { RunTracks(max, before, r.t); }
      OneMoreFits(max, s, r, hi);
    }
  }

  /** A limiter whose key never expires. */
  function ServeForever(max: int, z: ZSet, accepted: seq<Key>, r: Key): (ZSet, seq<Key>) {
    var kept := ZRemThrough(z, r.t - WINDOW_MS);
    if |kept| < max then (ZAdd(kept, r.t, r.id), accepted + [r]) else (kept, accepted)
  }

  function RunForever(max: int, reqs: seq<Key>): (ZSet, seq<Key>) {
    if reqs == [] then ([], [])
    else
      var (z, accepted) := RunForever(max, reqs[..|reqs| - 1]);
      ServeForever(max, z, accepted, reqs[|reqs| - 1])
  }

  /** Whole-key expiry never changes a decision: the same requests are accepted, and the
      entries kept are the same. */
  lemma {:induction false} ExpiryInvisible(max: int, reqs: seq<Key>)
    requires Clocked(reqs)
    ensures RunForever(max, reqs) == (Run(max, reqs).bucket.z, Run(max, reqs).accepted)
  {
    if reqs != [] {
      var n := |reqs| - 1;
      var r, before := reqs[n], reqs[..n];
      var s := Run(max, before);
      assert before + [r] == reqs;
      ExpiryInvisible(max, before);
      assert Run(max, reqs) == Serve(max, s, r);
      assert RunForever(max, reqs) == ServeForever(max, s.bucket.z, s.accepted, r);
      hide Run, RunForever;
      PrefixClocked(before, r);
      RunTracks(max, before, r.t);
      SameService(max, s, r);
    }
  }

  lemma SameService(max: int, s: Log, r: Key)
    requires Recent(s, r.t)
    ensures ServeForever(max, s.bucket.z, s.accepted, r) == (Serve(max, s, r).bucket.z, Serve(max, s, r).accepted)
  {
    ExpiryIsPrune(s, r.t, r.t);
  }
}
