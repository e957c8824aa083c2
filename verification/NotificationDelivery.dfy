/** Delivery of notifications: NotificationService.deliver saves or falls back to SQS, and
    SqsConsumer.poll receives, saves and only then deletes.  Breaker verdicts, database and
    SQS failures, crashes and visibility timeouts are events of the environment. */
module NotificationDelivery {
  import opened Wrappers

  /** maxReceiveCount of the queue's redrive policy. */
  const MAX_RECEIVES := 3

  /** One SQS message and how often it has been received. */
  datatype Place = Queued(receives: nat) | InFlight(receives: nat) | Dead(receives: nat)

  /** A deliver call before and after its breaker-protected save has thrown. */
  datatype Stage = Saving | Falling

  /** One consumer callback at work on a received job. */
  datatype Worker = Worker(job: nat, saved: bool)

  datatype State = State(
    table: multiset<nat>,
    messages: map<nat, Place>,
    delivering: map<nat, Stage>,
    workers: map<nat, Worker>,
    returned: set<nat>,
    dropped: set<nat>,
    deleted: set<nat>,
    known: set<nat>)

  datatype Event =
    | Start(id: nat)
    | SaveOk(id: nat)
    | SaveThrows(id: nat, committed: bool)
    | Enqueue(id: nat)
    | EnqueueThrows(id: nat, arrived: bool)
    | DeliverCrash(id: nat)
    | Receive(w: nat, id: nat)
    | VisibilityTimeout(id: nat)
    | Redrive(id: nat)
    | SkipOpen(w: nat)
    | ConsumerSave(w: nat)
    | ConsumerSaveThrows(w: nat, committed: bool)
    | Delete(w: nat)
    | DeleteThrows(w: nat, removed: bool)
    | WorkerCrash(w: nat)

  const Initial := State(multiset{}, map[], map[], map[], {}, {}, {}, {})

  /** A live message disappears from the queue; a dead-lettered one does not. */
  function Remove(messages: map<nat, Place>, id: nat): map<nat, Place> {
    if id in messages && !messages[id].Dead? then messages - {id} else messages
  }

  /** One event; None when it is not enabled.  configured: SQS_NOTIFICATION_QUEUE_URL is set. */
  function Step(configured: bool, s: State, e: Event): Option<State> {
    match e
    case Start(id) =>
      if id in s.known then None
      else Some(s.(delivering := s.delivering[id := Saving], known := s.known + {id}))
    case SaveOk(id) =>
      if !(id in s.delivering && s.delivering[id].Saving?) then None
      else Some(s.(table := s.table + multiset{id}, delivering := s.delivering - {id}, returned := s.returned + {id}))
    case SaveThrows(id, committed) =>
      if !(id in s.delivering && s.delivering[id].Saving?) then None
      else Some(s.(table := if committed then s.table + multiset{id} else s.table,
                   delivering := s.delivering[id := Falling]))
    case Enqueue(id) =>
      if !(id in s.delivering && s.delivering[id].Falling?) then None
      else
        var s' := s.(delivering := s.delivering - {id}, returned := s.returned + {id});
        Some(if configured then s'.(messages := s.messages[id := Queued(0)]) else s'.(dropped := s.dropped + {id}))
    case EnqueueThrows(id, arrived) =>
      if !(configured && id in s.delivering && s.delivering[id].Falling?) then None
      else Some(s.(delivering := s.delivering - {id}, returned := s.returned + {id}, dropped := s.dropped + {id},
                   messages := if arrived then s.messages[id := Queued(0)] else s.messages))
    case DeliverCrash(id) =>
      if id !in s.delivering then None else Some(s.(delivering := s.delivering - {id}))
    case Receive(w, id) =>
      if !(id in s.messages && s.messages[id].Queued? && s.messages[id].receives < MAX_RECEIVES && w !in s.workers) then None
      else Some(s.(messages := s.messages[id := InFlight(s.messages[id].receives + 1)],
                   workers := s.workers[w := Worker(id, false)]))
    case VisibilityTimeout(id) =>
      if !(id in s.messages && s.messages[id].InFlight?) then None
      else Some(s.(messages := s.messages[id := Queued(s.messages[id].receives)]))
    case Redrive(id) =>
      if !(id in s.messages && s.messages[id].Queued? && s.messages[id].receives >= MAX_RECEIVES) then None
      else Some(s.(messages := s.messages[id := Dead(s.messages[id].receives)]))
    case SkipOpen(w) =>
      if !(w in s.workers && !s.workers[w].saved) then None else Some(s.(workers := s.workers - {w}))
    case ConsumerSave(w) =>
      if !(w in s.workers && !s.workers[w].saved) then None
      else Some(s.(table := s.table + multiset{s.workers[w].job},
                   workers := s.workers[w := Worker(s.workers[w].job, true)]))
    case ConsumerSaveThrows(w, committed) =>
      if !(w in s.workers && !s.workers[w].saved) then None
      else Some(s.(table := if committed then s.table + multiset{s.workers[w].job} else s.table,
                   workers := s.workers - {w}))
    case Delete(w) =>
      if !(w in s.workers && s.workers[w].saved) then None
      else Some(s.(messages := Remove(s.messages, s.workers[w].job), deleted := s.deleted + {s.workers[w].job},
                   workers := s.workers - {w}))
    case DeleteThrows(w, removed) =>
      if !(w in s.workers && s.workers[w].saved) then None
      else Some(s.(messages := if removed then Remove(s.messages, s.workers[w].job) else s.messages,
                   workers := s.workers - {w}))
    case WorkerCrash(w) =>
      if w !in s.workers then None else Some(s.(workers := s.workers - {w}))
  }

  function Exec(configured: bool, s: State, es: seq<Event>): Option<State>
    decreases |es|
  {
    if es == [] then Some(s)
    else
      match Step(configured, s, es[0])
      case None => None
      case Some(s') => Exec(configured, s', es[1..])
  }

  // ---------------------------------------------------------------- nothing is lost

  /** A notification is somewhere: a row, or a message (queued, in flight or dead-lettered). */
  predicate Kept(s: State, id: nat) {
    id in s.table || id in s.messages
  }

  /** A returned deliver is accounted for, and only saved jobs leave the queue. */
  ghost predicate Accounted(s: State) {
    && (forall id :: id in s.returned ==> Kept(s, id) || id in s.dropped)
    && (forall id :: id in s.deleted ==> id in s.table)
    && (forall w :: w in s.workers && s.workers[w].saved ==> s.workers[w].job in s.table)
  }

  /** Messages come from deliver calls that have finished, one message each. */
  ghost predicate Finished(s: State) {
    && (forall id :: id in s.messages ==> id in s.known && id !in s.delivering)
    && (forall id :: id in s.delivering ==> id in s.known)
  }

  ghost predicate ReceivesBounded(s: State) {
    forall id :: id in s.messages ==>
      if s.messages[id].Dead? then s.messages[id].receives == MAX_RECEIVES else s.messages[id].receives <= MAX_RECEIVES
  }

  ghost predicate Inv(s: State) {
    Accounted(s) && Finished(s) && ReceivesBounded(s)
  }

  /** Rows stay, and a message goes only if its job is in the table. */
  lemma StepKeeps(configured: bool, s: State, e: Event, id: nat)
    requires Step(configured, s, e).Some?
    requires forall w :: w in s.workers && s.workers[w].saved ==> s.workers[w].job in s.table
    ensures id in s.table ==> id in Step(configured, s, e).value.table
    ensures Kept(s, id) ==> Kept(Step(configured, s, e).value, id)
    ensures id in s.dropped ==> id in Step(configured, s, e).value.dropped
  {}

  /** A deliver returns only saved, queued, or dropped. */
  lemma StepReturns(configured: bool, s: State, e: Event, id: nat)
    requires Step(configured, s, e).Some? && id !in s.returned
    ensures var s' := Step(configured, s, e).value; id in s'.returned ==> Kept(s', id) || id in s'.dropped
  {}

  lemma StepSavedFirst(configured: bool, s: State, e: Event)
    requires Step(configured, s, e).Some?
    requires forall w :: w in s.workers && s.workers[w].saved ==> s.workers[w].job in s.table
    ensures var s' := Step(configured, s, e).value;
      && (forall w :: w in s'.workers && s'.workers[w].saved ==> s'.workers[w].job in s'.table)
      && (forall id :: id in s'.deleted ==> id in s.deleted || id in s.table)
  {}

  lemma StepAccounted(configured: bool, s: State, e: Event)
    requires Accounted(s) && Step(configured, s, e).Some?
    ensures Accounted(Step(configured, s, e).value)
  {
    var s' := Step(configured, s, e).value;
    StepSavedFirst(configured, s, e);
    forall id ensures id in s.table ==> id in s'.table { StepKeeps(configured, s, e, id); }
    forall id | id in s'.returned ensures Kept(s', id) || id in s'.dropped {
      StepKeeps(configured, s, e, id);
      if id !in s.returned { StepReturns(configured, s, e, id); }
    }
    hide Step;
  }

  lemma StepFinished(configured: bool, s: State, e: Event)
    requires Finished(s) && Step(configured, s, e).Some?
    ensures Finished(Step(configured, s, e).value)
  {}

  lemma StepReceives(configured: bool, s: State, e: Event)
    requires ReceivesBounded(s) && Step(configured, s, e).Some?
    ensures ReceivesBounded(Step(configured, s, e).value)
  {}

  lemma StepInv(configured: bool, s: State, e: Event)
    requires Inv(s) && Step(configured, s, e).Some?
    ensures Inv(Step(configured, s, e).value)
  {
    hide Accounted, Finished, ReceivesBounded;
    StepAccounted(configured, s, e);
    StepFinished(configured, s, e);
    StepReceives(configured, s, e);
  }

  lemma {:induction false} ExecInv(configured: bool, s: State, es: seq<Event>)
    requires Inv(s) && Exec(configured, s, es).Some?
    ensures Inv(Exec(configured, s, es).value)
    decreases |es|
  {
    if es != [] {
      StepInv(configured, s, es[0]);
      ExecInv(configured, Step(configured, s, es[0]).value, es[1..]);
    }
  }

  /** In every reachable state, each deliver call that has returned left its notification in
      the table, the queue, in flight or the dead-letter queue, unless its enqueue failed (or
      no queue is configured); and a message is deleted only after its job was saved. */
  lemma NothingLost(configured: bool, es: seq<Event>, id: nat)
    requires Exec(configured, Initial, es).Some?
    ensures var s := Exec(configured, Initial, es).value;
      && (id in s.returned && id !in s.dropped ==> Kept(s, id))
      && (id in s.deleted ==> id in s.table)
      && (id in s.messages && s.messages[id].Dead? ==> s.messages[id].receives == MAX_RECEIVES)
  {
    ExecInv(configured, Initial, es);
  }

  /** With a configured queue, dropped means that this very enqueue threw. */
  lemma {:induction false} DroppedMeans(s: State, es: seq<Event>, id: nat)
    requires Exec(true, s, es).Some? && id !in s.dropped
    ensures id in Exec(true, s, es).value.dropped <==> EnqueueThrows(id, true) in es || EnqueueThrows(id, false) in es
    decreases |es|
  {
    if es != [] {
      var s' := Step(true, s, es[0]).value;
      assert es == [es[0]] + es[1..];
      if id in s'.dropped {
        DroppedStays(true, s', es[1..], id);
      } else {
        DroppedMeans(s', es[1..], id);
      }
    }
  }

  lemma {:induction false} DroppedStays(configured: bool, s: State, es: seq<Event>, id: nat)
    requires Exec(configured, s, es).Some? && id in s.dropped
    ensures id in Exec(configured, s, es).value.dropped
    decreases |es|
  {
    if es != [] { DroppedStays(configured, Step(configured, s, es[0]).value, es[1..], id); }
  }

  /** Without a queue URL no message and no consumer callback ever exists. */
  ghost predicate NoQueue(s: State) {
    s.messages == map[] && s.workers == map[]
  }

  lemma StepUnconfigured(s: State, e: Event, id: nat)
    requires NoQueue(s) && Step(false, s, e).Some?
    ensures NoQueue(Step(false, s, e).value)
    ensures id in Step(false, s, e).value.table <==> id in s.table || e == SaveOk(id) || e == SaveThrows(id, true)
  {}

  lemma {:induction false} UnconfiguredFrom(s: State, es: seq<Event>, id: nat)
    requires NoQueue(s) && Exec(false, s, es).Some?
    ensures NoQueue(Exec(false, s, es).value)
    ensures id in Exec(false, s, es).value.table <==> id in s.table || SaveOk(id) in es || SaveThrows(id, true) in es
    decreases |es|
  {
    if es != [] {
      StepUnconfigured(s, es[0], id);
      UnconfiguredFrom(Step(false, s, es[0]).value, es[1..], id);
      assert es == [es[0]] + es[1..];
      hide Step;
    }
  }

  /** Without a queue URL, and in every run, exactly those notifications exist whose own save
      reached the table: every other one that was delivered is lost. */
  lemma UnconfiguredKeeps(es: seq<Event>, id: nat)
    requires Exec(false, Initial, es).Some?
    ensures Kept(Exec(false, Initial, es).value, id) <==> SaveOk(id) in es || SaveThrows(id, true) in es
  {
    UnconfiguredFrom(Initial, es, id);
  }

  /** And any new notification can be such a one, though its deliver returns. */
  lemma UnconfiguredLoses(s: State, id: nat)
    requires id !in s.known && !Kept(s, id)
    ensures var r := Exec(false, s, [Start(id), SaveThrows(id, false), Enqueue(id)]);
      r.Some? && id in r.value.returned && !Kept(r.value, id)
  {
    var s1 := Step(false, s, Start(id)).value;
    var s2 := Step(false, s1, SaveThrows(id, false)).value;
    var s3 := Step(false, s2, Enqueue(id)).value;
    Unroll(false, s, [Start(id), SaveThrows(id, false), Enqueue(id)], [s, s1, s2, s3]);
  }

  lemma {:induction false} Unroll(configured: bool, s: State, es: seq<Event>, ss: seq<State>)
    requires |ss| == |es| + 1 && ss[0] == s
    requires forall i :: 0 <= i < |es| ==> Step(configured, ss[i], es[i]) == Some(ss[i + 1])
    ensures Exec(configured, s, es) == Some(ss[|es|])
    decreases |es|
  {
    if es != [] {
      forall i | 0 <= i < |es[1..]| ensures Step(configured, ss[1..][i], es[1..][i]) == Some(ss[1..][i + 1]) {
        assert Step(configured, ss[i + 1], es[i + 1]) == Some(ss[i + 2]);
      }
      Unroll(configured, ss[1], es[1..], ss[1..]);
    }
  }

  lemma {:induction false} ExecAppend(configured: bool, s: State, es: seq<Event>, fs: seq<Event>)
    requires Exec(configured, s, es).Some?
    ensures Exec(configured, s, es + fs) == Exec(configured, Exec(configured, s, es).value, fs)
    decreases |es|
  {
    if es == [] {
      assert [] + fs == fs;
    } else {
      ExecAppend(configured, Step(configured, s, es[0]).value, es[1..], fs);
      assert (es + fs)[1..] == es[1..] + fs;
    }
  }

  /** id waits in the queue after n receptions, and w is a free consumer slot. */
  predicate Waits(s: State, id: nat, w: nat, n: nat) {
    id in s.messages && s.messages[id] == Queued(n) && w !in s.workers
  }

  function SavedTwiceRound(w: nat, id: nat): seq<Event> {
    [Receive(w, id), ConsumerSave(w), WorkerCrash(w), VisibilityTimeout(id)]
  }

  lemma SavedThenCrashed(s: State, id: nat, w: nat, n: nat)
    requires Waits(s, id, w, n) && n < MAX_RECEIVES
    ensures Exec(true, s, SavedTwiceRound(w, id)) ==
      Some(s.(table := s.table + multiset{id}, messages := s.messages[id := Queued(n + 1)]))
  {
    var s1 := Step(true, s, Receive(w, id)).value;
    var s2 := Step(true, s1, ConsumerSave(w)).value;
    var s3 := Step(true, s2, WorkerCrash(w)).value;
    var s4 := Step(true, s3, VisibilityTimeout(id)).value;
    assert s3.workers == s.workers;
    assert s4.messages == s.messages[id := Queued(n + 1)];
    Unroll(true, s, SavedTwiceRound(w, id), [s, s1, s2, s3, s4]);
  }

  /** Delivery is at least once, not exactly once: crashes between save and delete store a
      queued notification MAX_RECEIVES times over. */
  lemma MayDuplicate(s: State, id: nat, w: nat) returns (es: seq<Event>)
    requires Waits(s, id, w, 0)
    ensures Exec(true, s, es).Some? && Exec(true, s, es).value.table[id] == s.table[id] + MAX_RECEIVES
  {
    var round := SavedTwiceRound(w, id);
    SavedThenCrashed(s, id, w, 0);
    var s1 := Exec(true, s, round).value;
    SavedThenCrashed(s1, id, w, 1);
    var s2 := Exec(true, s1, round).value;
    SavedThenCrashed(s2, id, w, 2);
    ExecAppend(true, s, round, round);
    ExecAppend(true, s, round + round, round);
    es := round + round + round;
  }

  // ---------------------------------------------------------------- how often at most

  /** The callbacks that hold this job and have yet to save it. */
  function Unsaved(s: State, id: nat): set<nat> {
    set w | w in s.workers && s.workers[w] == Worker(id, false)
  }

  /** How many rows the notification may have by now: one from deliver's own save, and one for
      each reception. */
  function Allowance(s: State, id: nat): nat {
    if id in s.messages then 1 + s.messages[id].receives
    else if id !in s.known || (id in s.delivering && s.delivering[id].Saving?) then 0
    else if id in s.delivering then 1
    else 1 + MAX_RECEIVES
  }

  ghost predicate Rationed(s: State, id: nat) {
    s.table[id] + |Unsaved(s, id)| <= Allowance(s, id)
  }

  /** An event changes the unsaved callbacks by at most the one it names. */
  lemma StepUnsaved(configured: bool, s: State, e: Event, id: nat)
    requires Step(configured, s, e).Some?
    ensures var u := Unsaved(Step(configured, s, e).value, id);
      match e
      case Receive(w, i) => u == if i == id then Unsaved(s, id) + {w} else Unsaved(s, id)
      case SkipOpen(w) => u == Unsaved(s, id) - {w}
      case ConsumerSave(w) => u == Unsaved(s, id) - {w}
      case ConsumerSaveThrows(w, _) => u == Unsaved(s, id) - {w}
      case WorkerCrash(w) => u == Unsaved(s, id) - {w}
      case _ => u == Unsaved(s, id)
  {}

  /** A callback's event: saving takes the callback off the unsaved ones. */
  lemma CallbackRationed(configured: bool, s: State, e: Event, id: nat)
    requires ReceivesBounded(s) && Finished(s) && Rationed(s, id) && Step(configured, s, e).Some?
    requires e.SkipOpen? || e.ConsumerSave? || e.ConsumerSaveThrows? || e.WorkerCrash? || e.Delete? || e.DeleteThrows?
    ensures Rationed(Step(configured, s, e).value, id)
  {
    StepUnsaved(configured, s, e, id);
    assert (e.ConsumerSave? || e.ConsumerSaveThrows?) && s.workers[e.w].job == id ==> e.w in Unsaved(s, id);
    hide Unsaved;
    var s' := Step(configured, s, e).value;
    assert Allowance(s', id) >= Allowance(s, id) by { hide Rationed; }
    assert |Unsaved(s', id)| <= |Unsaved(s, id)|;
  }

  lemma DeliverRationed(configured: bool, s: State, e: Event, id: nat)
    requires Finished(s) && Rationed(s, id) && Step(configured, s, e).Some?
    requires e.Start? || e.SaveOk? || e.SaveThrows? || e.Enqueue? || e.EnqueueThrows? || e.DeliverCrash?
    ensures Rationed(Step(configured, s, e).value, id)
  {
    StepUnsaved(configured, s, e, id);
    hide Unsaved;
  }

  lemma QueueRationed(configured: bool, s: State, e: Event, id: nat)
    requires Rationed(s, id) && Step(configured, s, e).Some?
    requires e.Receive? || e.VisibilityTimeout? || e.Redrive?
    ensures Rationed(Step(configured, s, e).value, id)
  {
    StepUnsaved(configured, s, e, id);
    hide Unsaved;
  }

  lemma StepRationed(configured: bool, s: State, e: Event, id: nat)
    requires Finished(s) && ReceivesBounded(s) && Rationed(s, id) && Step(configured, s, e).Some?
    ensures Rationed(Step(configured, s, e).value, id)
  {
    hide Step, Rationed, Finished, ReceivesBounded;
    if e.Receive? || e.VisibilityTimeout? || e.Redrive? {
      QueueRationed(configured, s, e, id);
    } else if e.SkipOpen? || e.ConsumerSave? || e.ConsumerSaveThrows? || e.WorkerCrash? || e.Delete? || e.DeleteThrows? {
      CallbackRationed(configured, s, e, id);
    } else {
      DeliverRationed(configured, s, e, id);
    }
  }

  lemma {:induction false} ExecRationed(configured: bool, s: State, es: seq<Event>, id: nat)
    requires Inv(s) && Rationed(s, id) && Exec(configured, s, es).Some?
    ensures Inv(Exec(configured, s, es).value) && Rationed(Exec(configured, s, es).value, id)
    decreases |es|
  {
    if es != [] {
      StepInv(configured, s, es[0]);
      StepRationed(configured, s, es[0], id);
      hide Step, Rationed, Inv;
      ExecRationed(configured, Step(configured, s, es[0]).value, es[1..], id);
    }
  }

  /** No run stores a notification more often than once by deliver and once per reception. */
  lemma DuplicatesBounded(configured: bool, es: seq<Event>, id: nat)
    requires Exec(configured, Initial, es).Some?
    ensures Exec(configured, Initial, es).value.table[id] <= 1 + MAX_RECEIVES
  {
    assert Unsaved(Initial, id) == {};
    ExecRationed(configured, Initial, es, id);
  }

  /** The bound is reached, for every notification. */
  lemma DuplicatesReached(id: nat, w: nat) returns (es: seq<Event>)
    ensures Exec(true, Initial, es).Some? && Exec(true, Initial, es).value.table[id] == 1 + MAX_RECEIVES
  {
    var s1 := Step(true, Initial, Start(id)).value;
    var s2 := Step(true, s1, SaveThrows(id, true)).value;
    var s3 := Step(true, s2, Enqueue(id)).value;
    var first := [Start(id), SaveThrows(id, true), Enqueue(id)];
    Unroll(true, Initial, first, [Initial, s1, s2, s3]);
    var rest := MayDuplicate(s3, id, w);
    ExecAppend(true, Initial, first, rest);
    es := first + rest;
  }

  function SkippedRound(w: nat, id: nat): seq<Event> {
    [Receive(w, id), SkipOpen(w), VisibilityTimeout(id)]
  }

  lemma SkippedReception(s: State, id: nat, w: nat, n: nat)
    requires Waits(s, id, w, n) && n < MAX_RECEIVES
    ensures Exec(true, s, SkippedRound(w, id)) == Some(s.(messages := s.messages[id := Queued(n + 1)]))
  {
    var s1 := Step(true, s, Receive(w, id)).value;
    var s2 := Step(true, s1, SkipOpen(w)).value;
    var s3 := Step(true, s2, VisibilityTimeout(id)).value;
    assert s2.workers == s.workers;
    assert s3.messages == s.messages[id := Queued(n + 1)];
    Unroll(true, s, SkippedRound(w, id), [s, s1, s2, s3]);
  }

  /** Three receptions while the breaker is OPEN park any queued job in the dead-letter queue
      without a single attempt to save it. */
  lemma ParkedUntried(s: State, id: nat, w: nat) returns (es: seq<Event>)
    requires Waits(s, id, w, 0)
    ensures forall e :: e in es ==> !e.ConsumerSave? && !e.ConsumerSaveThrows?
    ensures Exec(true, s, es) == Some(s.(messages := s.messages[id := Dead(MAX_RECEIVES)]))
  {
    var round := SkippedRound(w, id);
    SkippedReception(s, id, w, 0);
    var s1 := Exec(true, s, round).value;
    SkippedReception(s1, id, w, 1);
    var s2 := Exec(true, s1, round).value;
    SkippedReception(s2, id, w, 2);
    var s3 := Exec(true, s2, round).value;
    var s4 := Step(true, s3, Redrive(id)).value;
    Unroll(true, s3, [Redrive(id)], [s3, s4]);
    ExecAppend(true, s, round, round);
    ExecAppend(true, s, round + round, round);
    ExecAppend(true, s, round + round + round, [Redrive(id)]);
    es := round + round + round + [Redrive(id)];
    assert s4.messages == s.messages[id := Dead(MAX_RECEIVES)];
    assert forall e :: e in es <==> e in round || e == Redrive(id);
  }

  /** Dead-lettered, and no consumer callback still holds it. */
  ghost predicate Parked(s: State, id: nat) {
    && id in s.messages && s.messages[id].Dead? && id in s.known && id !in s.delivering
    && forall w :: w in s.workers ==> s.workers[w].job != id
  }

  lemma StepParked(configured: bool, s: State, e: Event, id: nat)
    requires Parked(s, id) && Step(configured, s, e).Some?
    ensures Parked(Step(configured, s, e).value, id)
    ensures Step(configured, s, e).value.table[id] == s.table[id]
  {}

  /** Nothing redrives the dead-letter queue: from then on the notification is never stored,
      whatever happens. */
  lemma {:induction false} ParkedForever(configured: bool, s: State, es: seq<Event>, id: nat)
    requires Parked(s, id) && Exec(configured, s, es).Some?
    ensures Parked(Exec(configured, s, es).value, id)
    ensures Exec(configured, s, es).value.table[id] == s.table[id]
    decreases |es|
  {
    if es != [] {
      StepParked(configured, s, es[0], id);
      hide Step, Parked;
      ParkedForever(configured, Step(configured, s, es[0]).value, es[1..], id);
    }
  }

  // ---------------------------------------------------------------- deleted is gone

  /** A delete takes exactly the callback's own message off the queue, unless that message has
      been dead-lettered meanwhile; so does one that throws after SQS has carried it out. */
  lemma DeleteRemoves(configured: bool, s: State, e: Event, id: nat)
    requires (e.Delete? || (e.DeleteThrows? && e.removed)) && Step(configured, s, e).Some?
    ensures var s' := Step(configured, s, e).value; var job := s.workers[e.w].job;
      && (id in s'.messages <==> id in s.messages && (id == job ==> s.messages[id].Dead?))
      && (id in s'.messages ==> s'.messages[id] == s.messages[id])
  {}

  /** Delivered, and no message of it exists. */
  predicate OffQueue(s: State, id: nat) {
    id in s.known && id !in s.delivering && id !in s.messages
  }

  lemma StepOffQueue(configured: bool, s: State, e: Event, id: nat)
    requires OffQueue(s, id) && Step(configured, s, e).Some?
    ensures OffQueue(Step(configured, s, e).value, id) && !(e.Receive? && e.id == id)
  {}

  /** A job that is off the queue stays off it, and is never received again, in any run. */
  lemma {:induction false} NeverAgain(configured: bool, s: State, es: seq<Event>, id: nat)
    requires OffQueue(s, id) && Exec(configured, s, es).Some?
    ensures OffQueue(Exec(configured, s, es).value, id)
    ensures forall w :: Receive(w, id) !in es
    decreases |es|
  {
    if es != [] {
      StepOffQueue(configured, s, es[0], id);
      hide Step, OffQueue;
      NeverAgain(configured, Step(configured, s, es[0]).value, es[1..], id);
      assert es == [es[0]] + es[1..];
    }
  }

  /** The callbacks that hold this job. */
  function Holders(s: State, id: nat): set<nat> {
    set w | w in s.workers && s.workers[w].job == id
  }

  /** An event that cannot make a duplicate: no save that commits and throws, no crash or lost
      delete after a save, and no visibility timeout while a callback is still at work.  The
      breaker may still skip, and saves may fail. */
  predicate Clean(s: State, e: Event) {
    match e
    case SaveThrows(_, committed) => !committed
    case ConsumerSaveThrows(_, committed) => !committed
    case DeleteThrows(_, removed) => removed
    case WorkerCrash(w) => w in s.workers ==> !s.workers[w].saved
    case VisibilityTimeout(id) => Holders(s, id) == {}
    case _ => true
  }

  ghost predicate CleanRun(configured: bool, s: State, es: seq<Event>)
    decreases |es|
  {
    es != [] ==> Clean(s, es[0]) && (Step(configured, s, es[0]).Some? ==> CleanRun(configured, Step(configured, s, es[0]).value, es[1..]))
  }

  /** One row for a job that was saved, none before; only a job in flight has a callback. */
  ghost predicate Once(s: State, id: nat) {
    && (forall w, v :: w in Holders(s, id) && v in Holders(s, id) ==> w == v)
    && (Holders(s, id) != {} ==> id in s.messages && s.messages[id].InFlight?)
    && (id !in s.known || id in s.delivering ==> s.table[id] == 0)
    && (id in s.messages ==> s.table[id] == if exists w :: w in Holders(s, id) && s.workers[w].saved then 1 else 0)
    && s.table[id] <= 1
    && (OffQueue(s, id) && id in s.returned && id !in s.dropped ==> s.table[id] == 1)
    && (id in s.returned || id in s.dropped ==> id in s.known && id !in s.delivering)
  }

  lemma StepHolders(configured: bool, s: State, e: Event, id: nat)
    requires Step(configured, s, e).Some?
    ensures var h := Holders(Step(configured, s, e).value, id);
      match e
      case Receive(w, i) => h == if i == id then Holders(s, id) + {w} else Holders(s, id)
      case SkipOpen(w) => h == Holders(s, id) - {w}
      case ConsumerSaveThrows(w, _) => h == Holders(s, id) - {w}
      case Delete(w) => h == Holders(s, id) - {w}
      case DeleteThrows(w, _) => h == Holders(s, id) - {w}
      case WorkerCrash(w) => h == Holders(s, id) - {w}
      case _ => h == Holders(s, id)
  {}

  lemma StepOnceDeliver(configured: bool, s: State, e: Event, id: nat)
    requires Finished(s) && Once(s, id) && Clean(s, e) && Step(configured, s, e).Some?
    requires e.Start? || e.SaveOk? || e.SaveThrows? || e.Enqueue? || e.EnqueueThrows? || e.DeliverCrash?
    ensures Once(Step(configured, s, e).value, id)
  {
    StepHolders(configured, s, e, id);
    hide Holders;
  }

  lemma StepOnceQueue(configured: bool, s: State, e: Event, id: nat)
    requires Finished(s) && Once(s, id) && Clean(s, e) && Step(configured, s, e).Some?
    requires e.Receive? || e.VisibilityTimeout? || e.Redrive?
    ensures Once(Step(configured, s, e).value, id)
  {
    StepHolders(configured, s, e, id);
    hide Holders;
  }

  lemma StepOnceOther(configured: bool, s: State, e: Event, id: nat)
    requires Once(s, id) && Step(configured, s, e).Some?
    requires e.SkipOpen? || e.ConsumerSave? || e.ConsumerSaveThrows? || e.WorkerCrash? || e.Delete? || e.DeleteThrows?
    requires s.workers[e.w].job != id
    ensures Once(Step(configured, s, e).value, id)
  {
    StepHolders(configured, s, e, id);
    var s' := Step(configured, s, e).value;
    assert e.w !in Holders(s, id) && forall w :: w in Holders(s, id) ==> w in s'.workers && s'.workers[w] == s.workers[w];
    hide Holders;
    assert s'.table[id] == s.table[id] && (id in s'.messages <==> id in s.messages) && (id in s.messages ==> s'.messages[id] == s.messages[id]);
    assert s'.known == s.known && s'.delivering == s.delivering && s'.returned == s.returned && s'.dropped == s.dropped;
    hide Step;
  }

  lemma StepOnceCallback(configured: bool, s: State, e: Event, id: nat)
    requires Finished(s) && Once(s, id) && Clean(s, e) && Step(configured, s, e).Some?
    requires e.SkipOpen? || e.ConsumerSave? || e.ConsumerSaveThrows? || e.WorkerCrash? || e.Delete? || e.DeleteThrows?
    requires s.workers[e.w].job == id
    ensures Once(Step(configured, s, e).value, id)
  {
    StepHolders(configured, s, e, id);
    var s' := Step(configured, s, e).value;
    assert e.w in Holders(s, id) && forall w :: w in Holders(s, id) ==> w == e.w;
    assert s.table[id] == if s.workers[e.w].saved then 1 else 0;
    assert e.ConsumerSave? ==> Holders(s', id) == {e.w} && s'.workers[e.w].saved;
    assert !e.ConsumerSave? ==> Holders(s', id) == {};
    hide Holders;
  }

  lemma CallbackEnabled(configured: bool, s: State, e: Event)
    requires Step(configured, s, e).Some?
    requires e.SkipOpen? || e.ConsumerSave? || e.ConsumerSaveThrows? || e.WorkerCrash? || e.Delete? || e.DeleteThrows?
    ensures e.w in s.workers
  {}

  lemma StepOnce(configured: bool, s: State, e: Event, id: nat)
    requires Finished(s) && Once(s, id) && Clean(s, e) && Step(configured, s, e).Some?
    ensures Once(Step(configured, s, e).value, id)
  {
    hide Step, Once, Clean, Finished;
    if e.Receive? || e.VisibilityTimeout? || e.Redrive? {
      StepOnceQueue(configured, s, e, id);
    } else if e.SkipOpen? || e.ConsumerSave? || e.ConsumerSaveThrows? || e.WorkerCrash? || e.Delete? || e.DeleteThrows? {
      assert e.w in s.workers by { CallbackEnabled(configured, s, e); }
      if s.workers[e.w].job == id { StepOnceCallback(configured, s, e, id); } else { StepOnceOther(configured, s, e, id); }
    } else {
      StepOnceDeliver(configured, s, e, id);
    }
  }

  lemma {:induction false} ExecOnce(configured: bool, s: State, es: seq<Event>, id: nat)
    requires Finished(s) && Once(s, id) && CleanRun(configured, s, es) && Exec(configured, s, es).Some?
    ensures Once(Exec(configured, s, es).value, id)
    decreases |es|
  {
    if es != [] {
      StepFinished(configured, s, es[0]);
      StepOnce(configured, s, es[0], id);
      hide Step, Once, Clean, Finished;
      ExecOnce(configured, Step(configured, s, es[0]).value, es[1..], id);
    }
  }

  /** In every run without such events each notification has at most one row; one whose deliver
      has returned and was not dropped has exactly one as soon as it is off the queue, and while
      it is on the queue it has one exactly when a callback has saved it and not yet deleted it. */
  lemma ExactlyOnceWhenClean(configured: bool, es: seq<Event>, id: nat)
    requires Exec(configured, Initial, es).Some? && CleanRun(configured, Initial, es)
    ensures var s := Exec(configured, Initial, es).value;
      && s.table[id] <= 1
      && (id in s.returned && id !in s.dropped && id !in s.messages ==> s.table[id] == 1)
      && (id in s.messages ==>
            (s.table[id] == 1 <==> exists w :: w in s.workers && s.workers[w] == Worker(id, true)))
  {
    assert Holders(Initial, id) == {};
    ExecOnce(configured, Initial, es, id);
    var s := Exec(configured, Initial, es).value;
    assert forall w :: w in s.workers && s.workers[w] == Worker(id, true) ==> w in Holders(s, id);
    hide Exec;
  }

  // ---------------------------------------------------------------- the code's own order

  /** What one consumer callback meets: the breaker's verdict, then the save, then the delete. */
  datatype Luck = BreakerOpen | SaveFails(committed: bool) | DeleteFails(removed: bool) | AllWell

  /** The events of one callback, in the order poll makes them. */
  function CallbackEvents(w: nat, luck: Luck): seq<Event> {
    match luck
    case BreakerOpen => [SkipOpen(w)]
    case SaveFails(committed) => [ConsumerSaveThrows(w, committed)]
    case DeleteFails(removed) => [ConsumerSave(w), DeleteThrows(w, removed)]
    case AllWell => [ConsumerSave(w), Delete(w)]
  }

  function BatchEvents(batch: seq<(nat, Luck)>): seq<Event> {
    if batch == [] then [] else CallbackEvents(batch[0].0, batch[0].1) + BatchEvents(batch[1..])
  }

  lemma {:induction false} BatchSnoc(batch: seq<(nat, Luck)>, m: (nat, Luck))
    ensures BatchEvents(batch + [m]) == BatchEvents(batch) + CallbackEvents(m.0, m.1)
  {
    if batch == [] {
      assert [m][1..] == [];
    } else {
      BatchSnoc(batch[1..], m);
      assert (batch + [m])[1..] == batch[1..] + [m];
    }
  }

  /** The stores the service and the consumer share. */
  class Stores {
    const configured: bool
    var state: State

    constructor (configured: bool)
      ensures this.configured == configured && state == Initial
    {
      this.configured, state := configured, Initial;
    }

    method Do(e: Event)
      requires Step(configured, state, e).Some?
      modifies this
      ensures Some(state) == Step(configured, old(state), e)
    {
      state := Step(configured, state, e).value;
    }

    /** deliver: save behind the breaker; if that throws, enqueue, and swallow an SQS error. */
    method Deliver(id: nat, saves: bool, committed: bool, enqueues: bool, arrived: bool)
      requires id !in state.known
      modifies this
      ensures Exec(configured, old(state),
        if saves then [Start(id), SaveOk(id)]
        else [Start(id), SaveThrows(id, committed), if enqueues || !configured then Enqueue(id) else EnqueueThrows(id, arrived)])
        == Some(state)
      ensures id in state.returned && id !in state.delivering
      ensures saves ==> state.table == old(state.table) + multiset{id} && state.messages == old(state.messages)
      ensures !saves ==> state.table == if committed then old(state.table) + multiset{id} else old(state.table)
      ensures !saves && configured && enqueues ==> state.messages == old(state.messages)[id := Queued(0)]
      ensures !saves && !(configured && enqueues) ==> id in state.dropped
    {
      ghost var s0 := state;
      Do(Start(id));
      ghost var s1 := state;
      if saves {
        Do(SaveOk(id));
        Unroll(configured, s0, [Start(id), SaveOk(id)], [s0, s1, state]);
        return;
      }
      Do(SaveThrows(id, committed));
      ghost var s2 := state;
      var last := if enqueues || !configured then Enqueue(id) else EnqueueThrows(id, arrived);
      Do(last);
      Unroll(configured, s0, [Start(id), SaveThrows(id, committed), last], [s0, s1, s2, state]);
    }

    /** One callback of poll: skip while OPEN, else save, then delete; errors are swallowed. */
    method Callback(w: nat, luck: Luck)
      requires w in state.workers && !state.workers[w].saved
      modifies this
      ensures Exec(configured, old(state), CallbackEvents(w, luck)) == Some(state)
      ensures state.workers == old(state.workers) - {w}
      ensures luck.BreakerOpen? ==> state.table == old(state.table) && state.messages == old(state.messages)
      ensures luck.AllWell? || luck.DeleteFails? ==> state.table == old(state.table) + multiset{old(state.workers[w].job)}
      ensures luck.SaveFails? ==>
        && state.messages == old(state.messages)
        && state.table == old(state.table) + if luck.committed then multiset{old(state.workers[w].job)} else multiset{}
      ensures luck.DeleteFails? && !luck.removed ==> state.messages == old(state.messages)
      ensures luck.AllWell? || (luck.DeleteFails? && luck.removed) ==> forall id ::
        && (id in state.messages <==> id in old(state.messages) && (id == old(state.workers[w].job) ==> old(state.messages)[id].Dead?))
        && (id in state.messages ==> state.messages[id] == old(state.messages)[id])
    {
      ghost var before := state;
      if luck.BreakerOpen? {
        Do(SkipOpen(w));
        Unroll(configured, before, [SkipOpen(w)], [before, state]);
      } else if luck.SaveFails? {
        Do(ConsumerSaveThrows(w, luck.committed));
        Unroll(configured, before, [ConsumerSaveThrows(w, luck.committed)], [before, state]);
      } else {
        Do(ConsumerSave(w));
        ghost var middle := state;
        var last := if luck.AllWell? then Delete(w) else DeleteThrows(w, luck.removed);
        Do(last);
        Unroll(configured, before, [ConsumerSave(w), last], [before, middle, state]);
      }
    }

    /** One poll: every received message runs its callback, and an error in one callback does
        not stop the others. */
    method Poll(batch: seq<(nat, Luck)>)
      requires forall i :: 0 <= i < |batch| ==> batch[i].0 in state.workers && !state.workers[batch[i].0].saved
      requires forall i, j :: 0 <= i < j < |batch| ==> batch[i].0 != batch[j].0
      modifies this
      ensures Exec(configured, old(state), BatchEvents(batch)) == Some(state)
    {
      ghost var s0 := state;
      for n := 0 to |batch|
        invariant Exec(configured, s0, BatchEvents(batch[..n])) == Some(state)
        invariant forall i :: n <= i < |batch| ==> batch[i].0 in state.workers && !state.workers[batch[i].0].saved
      {
        Callback(batch[n].0, batch[n].1);
        BatchSnoc(batch[..n], batch[n]);
        assert batch[..n + 1] == batch[..n] + [batch[n]];
        ExecAppend(configured, s0, BatchEvents(batch[..n]), CallbackEvents(batch[n].0, batch[n].1));
      }
      assert batch[..|batch|] == batch;
    }
  }
}
