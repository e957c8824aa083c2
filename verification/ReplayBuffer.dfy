/** The WebSocket replay buffer: events of one project in a sorted set scored by arrival time,
    trimmed on every append to the last 30 seconds and to 100 members. */
module ReplayBuffer {
  import opened Ordering
  import opened SortedSets

  const WINDOW_MS := 30_000
  const MAX_ITEMS := 100

  class Room {
    var buffer: ZSet

    constructor ()
      ensures buffer == []
    {
      buffer := [];
    }

    /** appendToReplayBuffer */
    method Append(now: int, event: string)
      modifies this
      ensures buffer == Appended(old(buffer), now, event)
    {
      buffer := ZAdd(buffer, now, event);
      var cutoff := now - WINDOW_MS;
      buffer := ZRemThrough(buffer, cutoff);
      buffer := ZKeepLast(buffer, MAX_ITEMS);
    }

    /** replayEvents: the events a reconnecting client is sent, in order. */
    method Replay(since: int) returns (sent: seq<string>)
      ensures sent == Replayed(buffer, since)
      ensures exists first :: SendsFrom(buffer, since, first, sent)
    {
      ReplayedMeans(buffer, since);
      var events := ZFrom(buffer, since + 1);
      sent := [];
      for i := 0 to |events|
        invariant sent == Payloads(events[..i])
      {
        sent := sent + [events[i].id];
        assert events[..i + 1] == events[..i] + [events[i]];
      }
      assert events[..|events|] == events;
    }
  }

  function Payloads(ks: seq<Key>): seq<string> {
    seq(|ks|, i requires 0 <= i < |ks| => ks[i].id)
  }

  function Replayed(z: ZSet, since: int): seq<string> {
    Payloads(ZFrom(z, since + 1))
  }

  /** sent are the payloads of exactly the entries later than since, which are those from
      position first on, in (score, member) order. */
  ghost predicate SendsFrom(z: seq<Key>, since: int, first: nat, sent: seq<string>) {
    && first <= |z| && (forall i :: 0 <= i < |z| ==> (z[i].t > since <==> i >= first))
    && |sent| == |z| - first && forall i :: 0 <= i < |sent| ==> sent[i] == z[first + i].id
  }

  lemma ReplayedMeans(z: ZSet, since: int)
    ensures exists first :: SendsFrom(z, since, first, Replayed(z, since))
  {
    var first := Stale(z, since);
    TrimIsSuffix(z, since);
    forall i | first <= i < |z| ensures z[i].t > since { assert first < i ==> Before(Asc, z[first], z[i]); }
    assert ZFrom(z, since + 1) == z[first..];
    assert SendsFrom(z, since, first, Replayed(z, since));
  }

  function Appended(z: ZSet, now: int, event: string): ZSet {
    Trimmed(ZAdd(z, now, event), now)
  }

  /** The last 30 seconds, at most 100 members. */
  function Trimmed(z: ZSet, now: int): ZSet {
    ZKeepLast(ZRemThrough(z, now - WINDOW_MS), MAX_ITEMS)
  }

  /** The buffer after a run of appends. */
  function Buffer(log: seq<Key>): ZSet {
    if log == [] then [] else Appended(Buffer(log[..|log| - 1]), log[|log| - 1].t, log[|log| - 1].id)
  }

  /** Everything ever appended, never trimmed. */
  function Everything(log: seq<Key>): ZSet {
    if log == [] then [] else ZAdd(Everything(log[..|log| - 1]), log[|log| - 1].t, log[|log| - 1].id)
  }

  /** A clock that never goes back, and distinct events. */
  ghost predicate Clocked(log: seq<Key>) {
    (forall i, j :: 0 <= i < j < |log| ==> log[i].t <= log[j].t) && UniqueIds(log)
  }

  // ---------------------------------------------------------------- trimming early is harmless

  /** How many leading members the time trim removes. */
  function Stale(z: seq<Key>, max: int): (j: nat)
    ensures j <= |z| && (forall i :: 0 <= i < j ==> z[i].t <= max) && (j < |z| ==> z[j].t > max)
  {
    if z != [] && z[0].t <= max then 1 + Stale(z[1..], max) else 0
  }

  lemma {:induction false} TrimIsSuffix(z: ZSet, max: int)
    ensures ZRemThrough(z, max) == z[Stale(z, max)..]
  {
    if z != [] && z[0].t <= max { TrimIsSuffix(z[1..], max); }
  }

  lemma StaleIs(z: seq<Key>, max: int, i: nat)
    requires i <= |z| && (forall l :: 0 <= l < i ==> z[l].t <= max) && (i < |z| ==> z[i].t > max)
    ensures Stale(z, max) == i
  {}

  lemma StaleOfSuffix(z: ZSet, k: nat, max: int)
    requires k <= |z|
    ensures Stale(z[k..], max) == if Stale(z, max) <= k then 0 else Stale(z, max) - k
  {
    var j := Stale(z, max);
    assert j < k < |z| ==> Before(Asc, z[j], z[k]);
    StaleIs(z[k..], max, if j <= k then 0 else j - k);
  }

  /** Both trims leave a suffix; applied together they leave the shorter one. */
  lemma CapIsSuffix(z: ZSet, j: nat, n: nat)
    requires j <= |z|
    ensures ZKeepLast(z[j..], n) == z[if |z| - j > n then |z| - n else j..]
  {
    if |z| - j > n { assert z[j..][|z| - j - n..] == z[|z| - n..]; }
  }

  lemma TrimOfSuffix(z: ZSet, k: nat, max: int)
    requires k <= |z|
    ensures ZRemThrough(z[k..], max) == z[if Stale(z, max) <= k then k else Stale(z, max)..]
  {
    TrimIsSuffix(z[k..], max);
    StaleOfSuffix(z, k, max);
    if Stale(z, max) > k { assert z[k..][Stale(z, max) - k..] == z[Stale(z, max)..]; }
  }

  /** The time trim and the rank cap commute. */
  lemma TrimCapCommute(z: ZSet, max: int, n: nat)
    ensures ZRemThrough(ZKeepLast(z, n), max) == ZKeepLast(ZRemThrough(z, max), n)
  {
    hide ZRemThrough, Stale;
    var j := Stale(z, max);
    TrimIsSuffix(z, max);
    CapIsSuffix(z, j, n);
    assert z[0..] == z;
    CapIsSuffix(z, 0, n);
    TrimOfSuffix(z, if |z| > n then |z| - n else 0, max);
  }

  /** A fresh member lands either below a suffix or inside it. */
  lemma {:induction false} InsertSplit(low: seq<Key>, high: seq<Key>, k: Key)
    requires high != [] && Sorted(Asc, low + high)
    ensures Before(Asc, k, high[0]) ==> Insert(Asc, low + high, k) == Insert(Asc, low, k) + high
    ensures !Before(Asc, k, high[0]) ==> Insert(Asc, low + high, k) == low + Insert(Asc, high, k)
  {
    if low == [] {
      assert low + high == high;
    } else {
      assert (low + high)[1..] == low[1..] + high && (low + high)[0] == low[0];
      InsertSplit(low[1..], high, k);
      if Before(Asc, k, low[0]) {
        assert (low + high)[|low|] == high[0];
        BeforeOrder(Asc, k, low[0], high[0]);
        assert [k] + (low + high) == ([k] + low) + high;
      }
    }
  }

  lemma FreshAdd(z: ZSet, now: int, event: string)
    requires !HasMember(z, event)
    ensures ZAdd(z, now, event) == Insert(Asc, z, Key(now, event))
  {
    SortedUnique(Asc, ZRem(z, event), z);
  }

  /** Capping before an append loses nothing that capping after it would keep. */
  lemma CapEarly(z: ZSet, now: int, event: string, n: nat)
    requires !HasMember(z, event) && n >= 1
    ensures ZKeepLast(ZAdd(ZKeepLast(z, n), now, event), n) == ZKeepLast(ZAdd(z, now, event), n)
  {
    hide Before, Insert, ZAdd;
    if |z| > n {
      var k, low, high := Key(now, event), z[..|z| - n], z[|z| - n..];
      assert z == low + high;
      assert ZKeepLast(z, n) == high && !HasMember(high, event);
      FreshAdd(z, now, event);
      FreshAdd(high, now, event);
      LastOfInsert(low, high, k);
    }
  }

  lemma LastOfInsert(low: seq<Key>, high: seq<Key>, k: Key)
    requires high != [] && Sorted(Asc, low + high)
    ensures var a, b := Insert(Asc, high, k), Insert(Asc, low + high, k);
      a[|a| - |high|..] == b[|b| - |high|..]
  {
    InsertSplit(low, high, k);
    if Before(Asc, k, high[0]) { assert ([k] + high)[1..] == high; }
  }

  /** Trimming before an append loses nothing that trimming after it would keep. */
  lemma TrimEarly(z: ZSet, now: int, event: string, cut: int)
    requires cut < now
    ensures ZRemThrough(ZAdd(z, now, event), cut) == ZAdd(ZRemThrough(z, cut), now, event)
  {
    SortedUnique(Asc, ZRemThrough(ZAdd(z, now, event), cut), ZAdd(ZRemThrough(z, cut), now, event));
  }

  lemma TrimTwice(z: ZSet, cut: int, cut': int)
    requires cut <= cut'
    ensures ZRemThrough(ZRemThrough(z, cut), cut') == ZRemThrough(z, cut')
  {
    SortedUnique(Asc, ZRemThrough(ZRemThrough(z, cut), cut'), ZRemThrough(z, cut'));
  }

  lemma AppendedIsTrimmed(all: ZSet, last: int, now: int, event: string)
    requires last <= now && !HasMember(all, event)
    ensures Appended(Trimmed(all, last), now, event) == Trimmed(ZAdd(all, now, event), now)
  {
    var b := Trimmed(all, last);
    var cut := now - WINDOW_MS;
    TrimEarly(b, now, event, cut);
    TrimEarly(all, now, event, cut);
    TrimCapCommute(ZRemThrough(all, last - WINDOW_MS), cut, MAX_ITEMS);
    TrimTwice(all, last - WINDOW_MS, cut);
    CapEarly(ZRemThrough(all, cut), now, event, MAX_ITEMS);
  }

  lemma {:induction false} EverythingIs(log: seq<Key>)
    requires UniqueIds(log)
    ensures forall k :: k in Everything(log) <==> k in log
  {
    if log != [] {
      var before := log[..|log| - 1];
      EverythingIs(before);
      assert log == before + [log[|log| - 1]];
    }
  }

  /** The incrementally trimmed buffer is exactly the last 30 seconds, capped at the 100
      highest, of everything ever appended. */
  lemma {:induction false} BufferIsTrimmedLog(log: seq<Key>)
    requires Clocked(log) && log != []
    ensures Buffer(log) == Trimmed(Everything(log), log[|log| - 1].t)
    ensures |Buffer(log)| <= MAX_ITEMS
  {
    var n := |log| - 1;
    var before, e := log[..n], log[n];
    assert log == before + [e];
    EverythingIs(before);
    if n == 0 {
      AppendedIsTrimmed([], e.t, e.t, e.id);
      assert Buffer(before) == [] == Trimmed([], e.t);
    } else {
      BufferIsTrimmedLog(before);
      AppendedIsTrimmed(Everything(before), before[n - 1].t, e.t, e.id);
    }
  }

  // ---------------------------------------------------------------- what a client receives

  /** A reconnecting client receives every event after since, each once and in order, if and
      only if there are at most 100 of them and none had already left the 30-second window
      when the last event was appended. */
  lemma ReplayExact(log: seq<Key>, since: int)
    requires Clocked(log) && log != []
    ensures var later := ZFrom(Everything(log), since + 1);
      ZFrom(Buffer(log), since + 1) == later <==>
      |later| <= MAX_ITEMS && forall k :: k in later ==> k.t > log[|log| - 1].t - WINDOW_MS
  {
    var all, cut := Everything(log), log[|log| - 1].t - WINDOW_MS;
    BufferIsTrimmedLog(log);
    TrimCapCommute(ZRemThrough(all, cut), since, MAX_ITEMS);
    var later := ZRemThrough(all, since);
    var recent := ZRemThrough(ZRemThrough(all, cut), since);
    assert ZFrom(Buffer(log), since + 1) == ZKeepLast(recent, MAX_ITEMS);
    if forall k :: k in later ==> k.t > cut {
      SortedUnique(Asc, recent, later);
    } else {
      var k :| k in later && k.t <= cut;
      assert k !in recent;
      assert forall x :: x in ZKeepLast(recent, MAX_ITEMS) ==> x in recent;
    }
  }

  /** sent has the payload of every later event of the log and of no other. */
  ghost predicate SendsLater(log: seq<Key>, since: int, sent: seq<string>) {
    forall id :: id in sent <==> exists k :: k in log && k.t > since && k.id == id
  }

  /** No payload comes twice, and that of the smaller (score, member) comes first. */
  ghost predicate InLogOrder(log: seq<Key>, sent: seq<string>) {
    forall a, b, j, k | 0 <= a < b < |sent| && j in log && k in log && j.id == sent[a] && k.id == sent[b] ::
      j.t < k.t || (j.t == k.t && j.id != k.id && StrLt(j.id, k.id))
  }

  /** In particular when since is within 30 seconds of the last append: exactly the later events
      are sent, none twice, in score order. */
  lemma ReplayMissesNothing(log: seq<Key>, since: int)
    requires Clocked(log) && log != [] && since >= log[|log| - 1].t - WINDOW_MS
    requires |ZFrom(Everything(log), since + 1)| <= MAX_ITEMS
    ensures var sent := Replayed(Buffer(log), since);
      SendsLater(log, since, sent) && InLogOrder(log, sent)
  {
    hide SendsLater, InLogOrder;
    ReplayIsLater(log, since);
    hide Buffer, Everything, ZFrom;
    PayloadsLater(log, since, ZFrom(Buffer(log), since + 1));
    PayloadsOrdered(log, since, ZFrom(Buffer(log), since + 1));
  }

  lemma ReplayIsLater(log: seq<Key>, since: int)
    requires Clocked(log) && log != [] && since >= log[|log| - 1].t - WINDOW_MS
    requires |ZFrom(Everything(log), since + 1)| <= MAX_ITEMS
    ensures forall k :: k in ZFrom(Buffer(log), since + 1) <==> k in log && k.t > since
  {
    ReplayExact(log, since);
    EverythingIs(log);
    hide Buffer, Everything;
  }

  lemma PayloadsLater(log: seq<Key>, since: int, later: ZSet)
    requires forall k :: k in later <==> k in log && k.t > since
    ensures SendsLater(log, since, Payloads(later))
  {
    var sent := Payloads(later);
    forall id ensures id in sent <==> exists k :: k in log && k.t > since && k.id == id {
      if id in sent {
        var a :| 0 <= a < |sent| && sent[a] == id;
        assert later[a] in later;
      }
      if k :| k in log && k.t > since && k.id == id {
        var a :| 0 <= a < |later| && later[a] == k;
        assert sent[a] == id;
      }
    }
  }

  lemma PayloadsOrdered(log: seq<Key>, since: int, later: ZSet)
    requires UniqueIds(log) && forall k :: k in later <==> k in log && k.t > since
    ensures InLogOrder(log, Payloads(later))
  {
    var sent := Payloads(later);
    hide StrLt;
    forall a, b, j, k | 0 <= a < b < |sent| && j in log && k in log && j.id == sent[a] && k.id == sent[b]
      ensures j.t < k.t || (j.t == k.t && j.id != k.id && StrLt(j.id, k.id))
    {
      assert later[a] in later && later[b] in later;
      OneOfId(log, j, later[a]);
      OneOfId(log, k, later[b]);
      assert Before(Asc, later[a], later[b]) && later[a].id != later[b].id;
    }
  }

  lemma OneOfId(log: seq<Key>, j: Key, k: Key)
    requires UniqueIds(log) && j in log && k in log && j.id == k.id
    ensures j == k
  {}
}
