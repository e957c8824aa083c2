/** SprintService: create, start and complete as atomic steps, with the carry-over loop. */
module Sprints {
  import opened Wrappers

  datatype Status = PLANNING | ACTIVE | COMPLETED

  datatype Sprint = Sprint(projectId: string, status: Status, velocity: Option<int>)

  datatype Issue = Issue(id: string, statusId: string, sprintId: Option<string>, points: Option<int>, deleted: bool)

  datatype Category = TODO | IN_PROGRESS | DONE

  datatype Error = NotFound | Conflict | Unprocessable

  /** The sprint and issue tables; the category of each workflow status. */
  datatype Db = Db(sprints: map<string, Sprint>, issues: seq<Issue>, category: map<string, Category>)

  ghost predicate ValidDb(db: Db) {
    forall i, j :: 0 <= i < j < |db.issues| ==> db.issues[i].id != db.issues[j].id
  }

  /** A live issue of the sprint whose (joined) status is, or is not, DONE. */
  predicate InSprint(db: Db, i: Issue, sprintId: string, done: bool) {
    i.sprintId == Some(sprintId) && !i.deleted && i.statusId in db.category && (db.category[i.statusId] == DONE) == done
  }

  /** COALESCE(SUM(story_points), 0) over the sprint's DONE issues */
  function Velocity(db: Db, issues: seq<Issue>, sprintId: string): int {
    if issues == [] then 0
    else
      var i := issues[|issues| - 1];
      Velocity(db, issues[..|issues| - 1], sprintId)
        + if InSprint(db, i, sprintId, true) && i.points.Some? then i.points.value else 0
  }

  /** What one issue contributes: its points if it is live, in the sprint and DONE. */
  predicate EarnsPoints(db: Db, i: Issue, sprintId: string) {
    && i.sprintId == Some(sprintId) && !i.deleted && i.points.Some?
    && i.statusId in db.category && db.category[i.statusId] == DONE
  }

  /** f measures issue lists by their DONE points: nothing for the empty list, the points of a
      single issue that earns them, and the sum over two parts. */
  ghost predicate SumsDonePoints(db: Db, sprintId: string, f: seq<Issue> -> int) {
    && f([]) == 0
    && (forall i: Issue :: f([i]) == if EarnsPoints(db, i, sprintId) then i.points.value else 0)
    && forall a, b :: f(a + b) == f(a) + f(b)
  }

  /** total is what every such measure gives. */
  ghost predicate IsDonePoints(db: Db, issues: seq<Issue>, sprintId: string, total: int) {
    forall f | SumsDonePoints(db, sprintId, f) :: f(issues) == total
  }

  lemma {:induction false} VelocityAdds(db: Db, a: seq<Issue>, b: seq<Issue>, sprintId: string)
    ensures Velocity(db, a + b, sprintId) == Velocity(db, a, sprintId) + Velocity(db, b, sprintId)
  {
    if b == [] {
      assert a + b == a;
    } else {
      var n := |b| - 1;
      VelocityAdds(db, a, b[..n], sprintId);
      assert (a + b)[..|a + b| - 1] == a + b[..n];
    }
  }

  lemma VelocityOfOne(db: Db, i: Issue, sprintId: string)
    ensures Velocity(db, [i], sprintId) == if EarnsPoints(db, i, sprintId) then i.points.value else 0
  {
    assert [i][..0] == [] && Velocity(db, [], sprintId) == 0;
    assert Velocity(db, [i], sprintId) ==
      Velocity(db, [i][..0], sprintId) + if InSprint(db, i, sprintId, true) && i.points.Some? then i.points.value else 0;
  }

  /** Velocity is such a measure, so there is one, and it is the only one. */
  lemma VelocityIsDonePoints(db: Db, issues: seq<Issue>, sprintId: string)
    ensures SumsDonePoints(db, sprintId, (x: seq<Issue>) => Velocity(db, x, sprintId))
    ensures forall total :: IsDonePoints(db, issues, sprintId, total) <==> total == Velocity(db, issues, sprintId)
  {
    var f := (x: seq<Issue>) => Velocity(db, x, sprintId);
    forall a, b ensures f(a + b) == f(a) + f(b) { VelocityAdds(db, a, b, sprintId); }
    forall i: Issue ensures f([i]) == if EarnsPoints(db, i, sprintId) then i.points.value else 0 {
      VelocityOfOne(db, i, sprintId);
    }
    assert SumsDonePoints(db, sprintId, f);
    forall g | SumsDonePoints(db, sprintId, g) ensures g(issues) == Velocity(db, issues, sprintId) {
      OnlyVelocity(db, issues, sprintId, g);
    }
    hide Velocity;
  }

  lemma {:induction false} OnlyVelocity(db: Db, issues: seq<Issue>, sprintId: string, g: seq<Issue> -> int)
    requires SumsDonePoints(db, sprintId, g)
    ensures g(issues) == Velocity(db, issues, sprintId)
  {
    if issues != [] {
      var n := |issues| - 1;
      OnlyVelocity(db, issues[..n], sprintId, g);
      assert issues == issues[..n] + [issues[n]];
    }
  }

  function Incomplete(db: Db, issues: seq<Issue>, sprintId: string): (ids: seq<string>)
    ensures forall id :: id in ids <==> exists i :: i in issues && i.id == id && InSprint(db, i, sprintId, false)
  {
    if issues == [] then []
    else
      var n := |issues| - 1;
      assert issues == issues[..n] + [issues[n]];
      Incomplete(db, issues[..n], sprintId) + if InSprint(db, issues[n], sprintId, false) then [issues[n].id] else []
  }

  /** Exactly the live issues of the sprint whose status exists and is not DONE. */
  lemma IncompleteMeans(db: Db, issues: seq<Issue>, sprintId: string, id: string)
    ensures id in Incomplete(db, issues, sprintId) <==> exists i ::
      i in issues && i.id == id && i.sprintId == Some(sprintId) && !i.deleted && i.statusId in db.category && db.category[i.statusId] != DONE
  {
    assert forall i :: InSprint(db, i, sprintId, false) <==>
      i.sprintId == Some(sprintId) && !i.deleted && i.statusId in db.category && db.category[i.statusId] != DONE;
    hide InSprint;
  }

  /** UPDATE issues SET sprint_id = target WHERE id = id */
  function UpdateSprint(issues: seq<Issue>, id: string, target: Option<string>): (r: seq<Issue>)
    ensures |r| == |issues|
    ensures forall k :: 0 <= k < |r| ==>
      r[k] == if issues[k].id == id then issues[k].(sprintId := target) else issues[k]
  {
    seq(|issues|, k requires 0 <= k < |issues| =>
      if issues[k].id == id then issues[k].(sprintId := target) else issues[k])
  }

  /** Where completion leaves an issue. */
  function Destination(db: Db, i: Issue, sprintId: string, carry: seq<string>, next: Option<string>): Option<string> {
    if !InSprint(db, i, sprintId, false) then i.sprintId
    else if i.id in carry then next
    else None
  }

  class Service {
    var db: Db

    constructor (db: Db)
      ensures this.db == db
    {
      this.db := db;
    }

    method Create(id: string, projectId: string)
      requires id !in db.sprints
      modifies this
      ensures db == Created(old(db), id, projectId)
      ensures db.sprints == old(db).sprints[id := Sprint(projectId, PLANNING, None)] && db.issues == old(db).issues
    {
      db := db.(sprints := db.sprints[id := Sprint(projectId, PLANNING, None)]);
    }

    method Start(sprintId: string) returns (r: Result<Sprint, Error>)
      modifies this
      ensures r.Ok? <==> CanStart(old(db), sprintId)
      ensures r.Err? ==> db == old(db) && r.error == if sprintId in db.sprints then Conflict else NotFound
      ensures r.Ok? ==> db == Started(old(db), sprintId) && r.value == db.sprints[sprintId]
      ensures r.Ok? ==>
        && old(db).sprints[sprintId].status == PLANNING && db.issues == old(db).issues
        && db.sprints == old(db).sprints[sprintId := old(db).sprints[sprintId].(status := ACTIVE)]
    {
      if sprintId !in db.sprints { return Err(NotFound); }
      var found := db.sprints[sprintId];
      if found.status != PLANNING { return Err(Conflict); }
      if exists s | s in db.sprints :: db.sprints[s].projectId == found.projectId && db.sprints[s].status == ACTIVE {
        return Err(Conflict);
      }
      var updated := found.(status := ACTIVE);
      db := db.(sprints := db.sprints[sprintId := updated]);
      return Ok(updated);
    }

    /** The velocity is stored before the carry-over loop runs. */
    method Complete(sprintId: string, carry: seq<string>, next: Option<string>) returns (r: Result<(Sprint, nat), Error>)
      requires ValidDb(db)
      modifies this
      ensures r.Ok? <==> sprintId in old(db).sprints && old(db).sprints[sprintId].status == ACTIVE
      ensures r.Err? ==> db == old(db) && r.error == if sprintId in db.sprints then Unprocessable else NotFound
      ensures r.Ok? ==>
        && db == Completed(old(db), sprintId, carry, next)
        && r.value.0 == db.sprints[sprintId]
        && r.value.1 == |Incomplete(old(db), old(db).issues, sprintId)|
      ensures r.Ok? ==>
        && r.value.0.velocity.Some? && IsDonePoints(old(db), old(db).issues, sprintId, r.value.0.velocity.value)
        && db.sprints == old(db).sprints[sprintId := old(db).sprints[sprintId].(status := COMPLETED, velocity := r.value.0.velocity)]
        && |db.issues| == |old(db).issues|
        && forall k :: 0 <= k < |db.issues| ==>
             var i := old(db).issues[k];
             db.issues[k] ==
               if i.sprintId == Some(sprintId) && !i.deleted && i.statusId in old(db).category && old(db).category[i.statusId] != DONE
               then i.(sprintId := if i.id in carry then next else None) else i
    {
      if sprintId !in db.sprints { return Err(NotFound); }
      var sprint := db.sprints[sprintId];
      if sprint.status != ACTIVE { return Err(Unprocessable); }
      var velocity := Velocity(db, db.issues, sprintId);
      var completed := sprint.(status := COMPLETED, velocity := Some(velocity));
      db := db.(sprints := db.sprints[sprintId := completed]);
      IncompleteFrame(old(db), db, db.issues, sprintId);
      var incomplete := Incomplete(db, db.issues, sprintId);
      ghost var before := db;
      for n := 0 to |incomplete|
        invariant db == before.(issues := db.issues)
        invariant Relocated(before, db.issues, incomplete[..n], carry, next)
      {
        var id := incomplete[n];
        RelocateOne(before, db.issues, incomplete[..n], id, carry, next);
        assert incomplete[..n + 1] == incomplete[..n] + [id];
        db := db.(issues := UpdateSprint(db.issues, id, if id in carry then next else None));
      }
      assert incomplete[..|incomplete|] == incomplete;
      AllRelocated(old(db), before, db.issues, sprintId, carry, next);
      VelocityIsDonePoints(old(db), old(db).issues, sprintId);
      return Ok((completed, |incomplete|));
    }
  }

  function Created(db: Db, id: string, projectId: string): Db {
    db.(sprints := db.sprints[id := Sprint(projectId, PLANNING, None)])
  }

  ghost predicate CanStart(db: Db, sprintId: string) {
    && sprintId in db.sprints && db.sprints[sprintId].status == PLANNING
    && forall s :: s in db.sprints && db.sprints[s].projectId == db.sprints[sprintId].projectId ==> db.sprints[s].status != ACTIVE
  }

  function Started(db: Db, sprintId: string): Db
    requires sprintId in db.sprints
  {
    db.(sprints := db.sprints[sprintId := db.sprints[sprintId].(status := ACTIVE)])
  }

  /** Every issue at its destination, and the sprint closed with its velocity. */
  function Completed(db: Db, sprintId: string, carry: seq<string>, next: Option<string>): (r: Db)
    requires sprintId in db.sprints
    ensures |r.issues| == |db.issues| && r.category == db.category
    ensures forall k :: 0 <= k < |r.issues| ==>
      r.issues[k] == db.issues[k].(sprintId := Destination(db, db.issues[k], sprintId, carry, next))
  {
    Db(db.sprints[sprintId := db.sprints[sprintId].(status := COMPLETED, velocity := Some(Velocity(db, db.issues, sprintId)))],
       seq(|db.issues|, k requires 0 <= k < |db.issues| =>
         db.issues[k].(sprintId := Destination(db, db.issues[k], sprintId, carry, next))),
       db.category)
  }

  // ---------------------------------------------------------------- the loop

  /** The listed issues have moved and no others. */
  ghost predicate Relocated(before: Db, now: seq<Issue>, ids: seq<string>, carry: seq<string>, next: Option<string>) {
    && |now| == |before.issues|
    && forall k :: 0 <= k < |now| ==>
         now[k] == if before.issues[k].id in ids
                   then before.issues[k].(sprintId := if before.issues[k].id in carry then next else None)
                   else before.issues[k]
  }

  lemma RelocateOne(before: Db, now: seq<Issue>, ids: seq<string>, id: string, carry: seq<string>, next: Option<string>)
    requires Relocated(before, now, ids, carry, next)
    ensures Relocated(before, UpdateSprint(now, id, if id in carry then next else None), ids + [id], carry, next)
  {}

  lemma {:induction false} IncompleteFrame(a: Db, b: Db, issues: seq<Issue>, sprintId: string)
    requires a.category == b.category
    ensures Incomplete(a, issues, sprintId) == Incomplete(b, issues, sprintId)
    ensures Velocity(a, issues, sprintId) == Velocity(b, issues, sprintId)
  {
    if issues != [] { IncompleteFrame(a, b, issues[..|issues| - 1], sprintId); }
  }

  lemma AllRelocated(db: Db, before: Db, now: seq<Issue>, sprintId: string, carry: seq<string>, next: Option<string>)
    requires ValidDb(db) && sprintId in db.sprints && before.issues == db.issues && before.category == db.category
    requires Relocated(before, now, Incomplete(before, before.issues, sprintId), carry, next)
    ensures now == Completed(db, sprintId, carry, next).issues
  {
    forall k | 0 <= k < |now| ensures now[k] == db.issues[k].(sprintId := Destination(db, db.issues[k], sprintId, carry, next)) {
      var i := db.issues[k];
      if i.id in Incomplete(before, before.issues, sprintId) {
        var x :| x in before.issues && x.id == i.id && InSprint(before, x, sprintId, false);
        var j :| 0 <= j < |before.issues| && before.issues[j] == x;
        assert j == k;
      }
    }
  }

  // ---------------------------------------------------------------- conservation

  lemma {:induction false} VelocityKept(db: Db, a: seq<Issue>, b: seq<Issue>, sprintId: string, carry: seq<string>, next: Option<string>)
    requires |a| == |b|
    requires forall k :: 0 <= k < |a| ==> b[k] == a[k].(sprintId := Destination(db, a[k], sprintId, carry, next))
    ensures Velocity(db, b, sprintId) == Velocity(db, a, sprintId)
  {
    if a != [] { VelocityKept(db, a[..|a| - 1], b[..|b| - 1], sprintId, carry, next); }
  }

  /** Completion loses no issue and touches only sprint_id of the sprint's unfinished ones:
      a listed one ends in the next sprint (the backlog if none is given), an unlisted one in
      the backlog; and the stored velocity is the DONE points both before and after. */
  lemma CompletionConserves(db: Db, sprintId: string, carry: seq<string>, next: Option<string>)
    requires ValidDb(db) && sprintId in db.sprints
    ensures var r := Completed(db, sprintId, carry, next);
      && ValidDb(r)
      && (forall k :: 0 <= k < |db.issues| ==>
            && r.issues[k] == db.issues[k].(sprintId := r.issues[k].sprintId)
            && (InSprint(db, db.issues[k], sprintId, false) ==>
                  r.issues[k].sprintId == if db.issues[k].id in carry then next else None)
            && (!InSprint(db, db.issues[k], sprintId, false) ==> r.issues[k] == db.issues[k]))
      && r.sprints[sprintId].velocity.Some?
      && IsDonePoints(db, db.issues, sprintId, r.sprints[sprintId].velocity.value)
      && IsDonePoints(r, r.issues, sprintId, r.sprints[sprintId].velocity.value)
  {
    var r := Completed(db, sprintId, carry, next);
    VelocityIsDonePoints(db, db.issues, sprintId);
    VelocityIsDonePoints(r, r.issues, sprintId);
    VelocityKept(db, db.issues, r.issues, sprintId, carry, next);
    IncompleteFrame(db, r, r.issues, sprintId);
  }

  /** How many rows differ between two states of the table. */
  function Changed(a: seq<Issue>, b: seq<Issue>): nat
    requires |a| == |b|
  {
    if a == [] then 0
    else Changed(a[..|a| - 1], b[..|b| - 1]) + if a[|a| - 1] != b[|b| - 1] then 1 else 0
  }

  /** The caller asks for unfinished issues of the sprint to be carried into itself. */
  ghost predicate CarriesIntoItself(db: Db, issues: seq<Issue>, sprintId: string, carry: seq<string>, next: Option<string>) {
    next == Some(sprintId) && exists i :: i in issues && InSprint(db, i, sprintId, false) && i.id in carry
  }

  lemma {:induction false} CountMoved(db: Db, a: seq<Issue>, b: seq<Issue>, sprintId: string, carry: seq<string>, next: Option<string>)
    requires |a| == |b|
    requires forall k :: 0 <= k < |a| ==> b[k] == a[k].(sprintId := Destination(db, a[k], sprintId, carry, next))
    ensures Changed(a, b) <= |Incomplete(db, a, sprintId)|
    ensures Changed(a, b) == |Incomplete(db, a, sprintId)| <==> !CarriesIntoItself(db, a, sprintId, carry, next)
  {
    if a != [] {
      var n := |a| - 1;
      CountMoved(db, a[..n], b[..n], sprintId, carry, next);
      assert a == a[..n] + [a[n]];
      assert CarriesIntoItself(db, a, sprintId, carry, next) <==>
        CarriesIntoItself(db, a[..n], sprintId, carry, next)
        || (next == Some(sprintId) && InSprint(db, a[n], sprintId, false) && a[n].id in carry);
    }
  }

  /** incompleteCount is the number of issues that moved, and the completed sprint keeps no
      unfinished issue, if and only if no unfinished issue is carried into the sprint itself. */
  lemma CountExact(db: Db, sprintId: string, carry: seq<string>, next: Option<string>)
    requires ValidDb(db) && sprintId in db.sprints
    ensures var r := Completed(db, sprintId, carry, next);
      && (|Incomplete(db, db.issues, sprintId)| == Changed(db.issues, r.issues) <==>
            !CarriesIntoItself(db, db.issues, sprintId, carry, next))
      && (Incomplete(r, r.issues, sprintId) == [] <==> !CarriesIntoItself(db, db.issues, sprintId, carry, next))
  {
    var r := Completed(db, sprintId, carry, next);
    CountMoved(db, db.issues, r.issues, sprintId, carry, next);
    if Incomplete(r, r.issues, sprintId) != [] {
      LeftBehind(db, sprintId, carry, next);
    }
    if CarriesIntoItself(db, db.issues, sprintId, carry, next) {
      StaysIn(db, sprintId, carry, next);
    }
  }

  lemma LeftBehind(db: Db, sprintId: string, carry: seq<string>, next: Option<string>)
    requires sprintId in db.sprints
    requires var r := Completed(db, sprintId, carry, next); Incomplete(r, r.issues, sprintId) != []
    ensures CarriesIntoItself(db, db.issues, sprintId, carry, next)
  {
    hide Velocity, Completed;
    var r := Completed(db, sprintId, carry, next);
    var left := Incomplete(r, r.issues, sprintId);
    assert left[0] in left;
    var x :| x in r.issues && x.id == left[0] && InSprint(r, x, sprintId, false);
    var k :| 0 <= k < |r.issues| && r.issues[k] == x;
    assert db.issues[k] in db.issues;
  }

  lemma StaysIn(db: Db, sprintId: string, carry: seq<string>, next: Option<string>)
    requires sprintId in db.sprints && CarriesIntoItself(db, db.issues, sprintId, carry, next)
    ensures var r := Completed(db, sprintId, carry, next); Incomplete(r, r.issues, sprintId) != []
  {
    var r := Completed(db, sprintId, carry, next);
    var i :| i in db.issues && InSprint(db, i, sprintId, false) && i.id in carry;
    var k :| 0 <= k < |db.issues| && db.issues[k] == i;
    assert r.issues[k] in r.issues && InSprint(r, r.issues[k], sprintId, false);
    assert r.issues[k].id in Incomplete(r, r.issues, sprintId);
  }

  // ---------------------------------------------------------------- runs

  datatype Op = OpCreate(id: string, projectId: string) | OpStart(id: string)
              | OpComplete(id: string, carry: seq<string>, next: Option<string>)

  /** A refused operation changes nothing. */
  ghost function Apply(db: Db, op: Op): Db {
    match op
    case OpCreate(id, p) => if id in db.sprints then db else Created(db, id, p)
    case OpStart(id) => if CanStart(db, id) then Started(db, id) else db
    case OpComplete(id, carry, next) =>
      if id in db.sprints && db.sprints[id].status == ACTIVE then Completed(db, id, carry, next) else db
  }

  ghost function Run(db: Db, ops: seq<Op>): Db {
    if ops == [] then db else Apply(Run(db, ops[..|ops| - 1]), ops[|ops| - 1])
  }

  ghost predicate OneActive(db: Db) {
    forall a, b | a in db.sprints && b in db.sprints && db.sprints[a].status == ACTIVE == db.sprints[b].status
      && db.sprints[a].projectId == db.sprints[b].projectId :: a == b
  }

  ghost predicate VelocityOnlyWhenCompleted(db: Db) {
    forall s :: s in db.sprints ==> (db.sprints[s].velocity.Some? <==> db.sprints[s].status == COMPLETED)
  }

  /** A project never has two active sprints, and a sprint has a velocity exactly from its
      completion on, over every run of create, start and complete. */
  lemma {:induction false} AtMostOneActive(db: Db, ops: seq<Op>)
    requires OneActive(db) && VelocityOnlyWhenCompleted(db)
    ensures OneActive(Run(db, ops)) && VelocityOnlyWhenCompleted(Run(db, ops))
  {
    if ops != [] { AtMostOneActive(db, ops[..|ops| - 1]); }
  }

  /** A completed sprint is never changed again: its status, its velocity stay. */
  lemma {:induction false} CompletedIsFinal(db: Db, ops: seq<Op>, s: string)
    requires s in db.sprints && db.sprints[s].status == COMPLETED
    ensures s in Run(db, ops).sprints && Run(db, ops).sprints[s] == db.sprints[s]
  {
    if ops != [] { CompletedIsFinal(db, ops[..|ops| - 1], s); }
  }
}
