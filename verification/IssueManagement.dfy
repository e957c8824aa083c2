/** IssueManager over its stores, statement by statement, proved against the calls of
    IssueWorld. */
module IssueManagement {
  import opened Ordering
  import opened SortedSets
  import opened Wrappers
  import opened RedisKeys
  import opened IssueWorld

  /** One SCAN reply: the next cursor (0 ends the iteration) and a batch of keys. */
  datatype ScanReply = ScanReply(next: nat, keys: seq<string>)

  /** What Redis guarantees of a full iteration: it ends with cursor 0, every key returned
      matches, and every matching key present throughout is returned, perhaps repeatedly. */
  ghost predicate FullScan(keys: set<string>, pattern: string, replies: seq<ScanReply>) {
    && replies != []
    && (forall n :: 0 <= n < |replies| ==> (replies[n].next == 0 <==> n == |replies| - 1))
    && (forall n, k :: 0 <= n < |replies| && k in replies[n].keys ==> Glob(pattern, k))
    && forall k :: k in keys && Glob(pattern, k) ==> exists n :: 0 <= n < |replies| && k in replies[n].keys
  }

  class Redis {
    var boards: map<string, Board>
    var entities: map<string, Issue>
    var zsets: map<string, ZSet>

    constructor ()
      ensures boards == map[] && entities == map[] && zsets == map[]
    {
      boards, entities, zsets := map[], map[], map[];
    }

    /** RedisCache.invalidatePattern */
    method InvalidatePattern(pattern: string, replies: seq<ScanReply>)
      requires FullScan(boards.Keys, pattern, replies)
      modifies this`boards
      ensures boards == map k | k in old(boards) && !Glob(pattern, k) :: old(boards)[k]
    {
      var n := 0;
      while true
        invariant 0 <= n < |replies|
        invariant forall k :: k in boards <==> k in old(boards) && forall j :: 0 <= j < n ==> k !in replies[j].keys
        invariant forall k :: k in boards ==> boards[k] == old(boards)[k]
        decreases |replies| - n
      {
        var reply := replies[n];
        if |reply.keys| > 0 { boards := boards - (set k | k in reply.keys); }
        n := n + 1;
        if reply.next == 0 { break; }
      }
    }

    /** IssueIndexCache.addIssue */
    method AddIssue(i: Issue)
      modifies this`zsets
      ensures zsets == IndexAdd(old(zsets), i)
    {
      var score := Score(i);
      zsets := ZAddAt(zsets, SprintIndexKey(i.projectId, i.sprintId), score, i.id);
      zsets := ZAddAt(zsets, StatusIndexKey(i.projectId, i.statusId), score, i.id);
    }

    /** IssueIndexCache.removeIssue */
    method RemoveIssue(i: Issue)
      modifies this`zsets
      ensures zsets == IndexRemove(old(zsets), i)
    {
      zsets := ZRemAt(zsets, SprintIndexKey(i.projectId, i.sprintId), i.id);
      zsets := ZRemAt(zsets, StatusIndexKey(i.projectId, i.statusId), i.id);
    }

    /** IssueIndexCache.updateIssueStatus */
    method UpdateIssueStatus(projectId: string, issueId: string, from: string, to: string, score: int)
      modifies this`zsets
      ensures zsets == ZAddAt(ZRemAt(old(zsets), StatusIndexKey(projectId, from), issueId), StatusIndexKey(projectId, to), score, issueId)
    {
      zsets := ZRemAt(zsets, StatusIndexKey(projectId, from), issueId);
      zsets := ZAddAt(zsets, StatusIndexKey(projectId, to), score, issueId);
    }

    /** IssueIndexCache.populateFromIssues */
    method PopulateFromIssues(projectId: string, sprintId: Option<string>, rows: seq<Issue>)
      modifies this`zsets
      ensures zsets == Populate(old(zsets), projectId, sprintId, rows)
    {
      assert Populate(zsets, projectId, sprintId, []) == zsets;
      if |rows| == 0 { return; }
      hide Populate, SprintIndexKey, StatusIndexKey, ZAddAt, Score;
      var sprintKey := SprintIndexKey(projectId, sprintId);
      for n := 0 to |rows|
        invariant zsets == Populate(old(zsets), projectId, sprintId, rows[..n])
      {
        PopulateSnoc(old(zsets), projectId, sprintId, rows, n);
        zsets := ZAddAt(zsets, sprintKey, Score(rows[n]), rows[n].id);
        zsets := ZAddAt(zsets, StatusIndexKey(projectId, rows[n].statusId), Score(rows[n]), rows[n].id);
      }
      assert rows[..|rows|] == rows;
    }
  }

  lemma PopulateSnoc(zsets: map<string, ZSet>, projectId: string, sprintId: Option<string>, rows: seq<Issue>, n: nat)
    requires n < |rows|
    ensures Populate(zsets, projectId, sprintId, rows[..n + 1]) ==
      ZAddAt(ZAddAt(Populate(zsets, projectId, sprintId, rows[..n]), SprintIndexKey(projectId, sprintId), Score(rows[n]), rows[n].id),
             StatusIndexKey(projectId, rows[n].statusId), Score(rows[n]), rows[n].id)
  {
    assert rows[..n + 1][..n] == rows[..n];
  }

  lemma InvalidatedBy(boards: map<string, Board>, projectId: string)
    ensures (map k | k in boards && !Glob(BoardPattern(projectId), k) :: boards[k]) == InvalidateBoards(boards, projectId)
  {}

  /** addIssue puts the issue into both its indexes. */
  lemma IndexAddHas(zsets: map<string, ZSet>, i: Issue)
    ensures var k := Key(Score(i), i.id);
      && k in ZGet(IndexAdd(zsets, i), SprintIndexKey(i.projectId, i.sprintId))
      && k in ZGet(IndexAdd(zsets, i), StatusIndexKey(i.projectId, i.statusId))
  {
    var k, sprint, status := Key(Score(i), i.id), SprintIndexKey(i.projectId, i.sprintId), StatusIndexKey(i.projectId, i.statusId);
    AddAtMembers(zsets, sprint, Score(i), i.id, sprint, k);
    AddAtMembers(ZAddAt(zsets, sprint, Score(i), i.id), status, Score(i), i.id, sprint, k);
    AddAtMembers(ZAddAt(zsets, sprint, Score(i), i.id), status, Score(i), i.id, status, k);
    hide ZAddAt, ZGet, SprintIndexKey, StatusIndexKey;
  }

  /** updateIssueStatus takes it from the old status's index to the new one's. */
  lemma IndexMoveHas(zsets: map<string, ZSet>, i: Issue, from: string)
    ensures var z := IndexMove(zsets, i, from, i.statusId);
      && Key(Score(i), i.id) in ZGet(z, StatusIndexKey(i.projectId, i.statusId))
      && (from != i.statusId ==> !HasMember(ZGet(z, StatusIndexKey(i.projectId, from)), i.id))
  {
    var was, now := StatusIndexKey(i.projectId, from), StatusIndexKey(i.projectId, i.statusId);
    assert was == now ==> from == i.statusId by { PrefixCancels("idx:status:" + i.projectId + ":", from, i.statusId); }
    hide StatusIndexKey;
    var z := ZRemAt(zsets, was, i.id);
    AddAtMembers(z, now, Score(i), i.id, now, Key(Score(i), i.id));
    forall k ensures from != i.statusId && k in ZGet(ZAddAt(z, now, Score(i), i.id), was) ==> k.id != i.id {
      RemAtMembers(zsets, was, i.id, was, k);
      AddAtMembers(z, now, Score(i), i.id, was, k);
    }
    hide ZAddAt, ZRemAt, ZGet;
  }

  /** removeIssue takes it from both its indexes. */
  lemma IndexRemoveHas(zsets: map<string, ZSet>, i: Issue)
    ensures !HasMember(ZGet(IndexRemove(zsets, i), SprintIndexKey(i.projectId, i.sprintId)), i.id)
    ensures !HasMember(ZGet(IndexRemove(zsets, i), StatusIndexKey(i.projectId, i.statusId)), i.id)
  {
    var sprint, status := SprintIndexKey(i.projectId, i.sprintId), StatusIndexKey(i.projectId, i.statusId);
    forall k
      ensures k in ZGet(IndexRemove(zsets, i), sprint) ==> k.id != i.id
      ensures k in ZGet(IndexRemove(zsets, i), status) ==> k.id != i.id
    {
      RemAtMembers(zsets, sprint, i.id, sprint, k);
      RemAtMembers(ZRemAt(zsets, sprint, i.id), status, i.id, sprint, k);
      RemAtMembers(ZRemAt(zsets, sprint, i.id), status, i.id, status, k);
    }
    hide ZRemAt, ZGet, SprintIndexKey, StatusIndexKey, IndexRemove;
  }

  /** What a board request does: a cached board is served as it is; otherwise the board of the
      database is served and cached.  No table changes. */
  ghost predicate GetBoardEffect(cfg: Config, w: World, c: Call, board: Board, w': World)
    requires c.ReadBoard?
  {
    var key := BoardKey(c.projectId, c.sprintId);
    && w'.issues == w.issues && w'.log == w.log && w'.entities == w.entities
    && if key in w.boards then board == w.boards[key] && w' == w
       else IsBoardOf(cfg, w.issues, c.projectId, c.sprintId, board) && w'.boards == w.boards[key := board]
  }

  lemma GetBoardMeans(cfg: Config, w: World, c: Call)
    requires c.ReadBoard? && c.projectId in cfg.columns && Fetches(w.issues, c.projectId, c.sprintId, c.fetched)
    ensures GetBoardEffect(cfg, w, c, Served(cfg, w, c.projectId, c.sprintId), Apply(cfg, w, c))
  {
    BuildIsBoard(cfg, w.issues, c.projectId, c.sprintId);
    ReadBoardIs(cfg, w, c);
    hide Build, BoardKey, Apply, Populate, IsBoardOf, Fetches;
  }

  /** What a create does: it needs a known project, a fresh id and a status, given or TODO. */
  ghost predicate CreateEffect(cfg: Config, w: World, c: Call, ok: bool, w': World)
    requires c.Create?
  {
    var given := c.statusId.Some? && c.statusId.value != "";
    && (ok <==> (c.projectId in cfg.columns && c.id !in w.issues
                 && (given || exists col :: col in cfg.columns[c.projectId] && col.category == TODO)))
    && (!ok ==> w' == w)
    && (ok ==> c.id in w'.issues && var status := w'.issues[c.id].statusId;
          && (if given then status == c.statusId.value else IsFirstTodo(cfg.columns[c.projectId], status))
          && w'.issues == w.issues[c.id := Issue(c.id, c.projectId, status, c.sprintId, c.createdAt, c.data, false)]
          && w'.log == w.log + [Created(c.id)] && w'.entities == w.entities
          && Key(c.createdAt / 1000, c.id) in ZGet(w'.zsets, SprintIndexKey(c.projectId, c.sprintId))
          && Key(c.createdAt / 1000, c.id) in ZGet(w'.zsets, StatusIndexKey(c.projectId, status)))
  }

  lemma CreateMeans(cfg: Config, w: World, c: Call)
    requires c.Create?
    ensures CreateEffect(cfg, w, c, Do(cfg, w, c).Ok?, Apply(cfg, w, c))
  {
    hide InvalidateBoards, IndexAdd, FirstTodo, IsFirstTodo, ZGet, SprintIndexKey, StatusIndexKey, Apply;
    StatusForMeans(cfg, c.projectId, c.statusId);
    assert Apply(cfg, w, c) == if Do(cfg, w, c).Ok? then Do(cfg, w, c).value else w by { ApplyIs(cfg, w, c); }
    if Do(cfg, w, c).Ok? {
      var i := Do(cfg, w, c).value.issues[c.id];
      IndexAddHas(w.zsets, i);
      assert i == Issue(c.id, c.projectId, i.statusId, c.sprintId, c.createdAt, c.data, false);
    }
    hide StatusFor;
  }

  lemma ApplyIs(cfg: Config, w: World, c: Call)
    ensures Apply(cfg, w, c) == if Do(cfg, w, c).Ok? then Do(cfg, w, c).value else w
  {}

  /** What an update does to a live issue: its columns and, if one is given, its sprint. */
  ghost predicate UpdateEffect(w: World, c: Call, ok: bool, w': World)
    requires c.Update?
  {
    && (ok <==> c.id in w.issues && !w.issues[c.id].deleted)
    && (!ok ==> w' == w)
    && (ok ==> var was := w.issues[c.id];
          && w'.issues == w.issues[c.id := was.(data := c.data, sprintId := if c.sprint.Some? then c.sprint.value else was.sprintId)]
          && w'.log == w.log + [Updated(c.id)] && w'.entities == w.entities - {c.id}
          && w'.zsets == if c.sprint.Some? then w.zsets - {SprintIndexKey(was.projectId, c.sprint.value)} else w.zsets)
  }

  lemma UpdateMeans(cfg: Config, w: World, c: Call)
    requires c.Update?
    ensures UpdateEffect(w, c, Do(cfg, w, c).Ok?, Apply(cfg, w, c))
  {
    hide InvalidateBoards, SprintIndexKey;
  }

  /** What a transition does: a live issue goes along a configured edge if the hooks pass. */
  ghost predicate TransitionEffect(cfg: Config, w: World, c: Call, ok: bool, w': World)
    requires c.Transition?
  {
    && (ok <==> c.id in w.issues && !w.issues[c.id].deleted && (w.issues[c.id].statusId, c.to) in cfg.edges && c.hooksPass)
    && (!ok ==> w' == w)
    && (ok ==> var was := w.issues[c.id];
          && w'.issues == w.issues[c.id := was.(statusId := c.to, data := c.data)]
          && w'.log == w.log + [StatusChanged(c.id, was.statusId, c.to)] && w'.entities == w.entities - {c.id}
          && (was.id == c.id ==>
                && Key(was.createdAt / 1000, c.id) in ZGet(w'.zsets, StatusIndexKey(was.projectId, c.to))
                && (c.to != was.statusId ==> !HasMember(ZGet(w'.zsets, StatusIndexKey(was.projectId, was.statusId)), c.id))))
  }

  lemma TransitionMeans(cfg: Config, w: World, c: Call)
    requires c.Transition?
    ensures TransitionEffect(cfg, w, c, Do(cfg, w, c).Ok?, Apply(cfg, w, c))
  {
    if Do(cfg, w, c).Ok? { IndexMoveHas(w.zsets, Apply(cfg, w, c).issues[c.id], w.issues[c.id].statusId); }
    hide InvalidateBoards, IndexMove, ZGet, StatusIndexKey, HasMember;
  }

  /** What a delete does: a live issue stays as a deleted row, and leaves its indexes. */
  ghost predicate DeleteEffect(w: World, c: Call, ok: bool, w': World)
    requires c.Delete?
  {
    && (ok <==> c.id in w.issues && !w.issues[c.id].deleted)
    && (!ok ==> w' == w)
    && (ok ==> var was := w.issues[c.id];
          && w'.issues == w.issues[c.id := was.(deleted := true)]
          && w'.log == w.log && w'.entities == w.entities - {c.id}
          && (was.id == c.id ==>
                && !HasMember(ZGet(w'.zsets, SprintIndexKey(was.projectId, was.sprintId)), c.id)
                && !HasMember(ZGet(w'.zsets, StatusIndexKey(was.projectId, was.statusId)), c.id)))
  }

  lemma DeleteMeans(cfg: Config, w: World, c: Call)
    requires c.Delete?
    ensures DeleteEffect(w, c, Do(cfg, w, c).Ok?, Apply(cfg, w, c))
  {
    if Do(cfg, w, c).Ok? { IndexRemoveHas(w.zsets, w.issues[c.id]); }
    hide InvalidateBoards, IndexRemove, ZGet, SprintIndexKey, StatusIndexKey, HasMember;
  }

  /** One column per status, in order, with a card for each live issue of the project, sprint
      (or backlog) and status, carrying its columns. */
  ghost predicate IsBoardOf(cfg: Config, issues: map<string, Issue>, p: string, s: Option<string>, b: Board) {
    && b.projectId == p && b.sprintId == s && |b.columns| == |ColumnsOf(cfg, p)|
    && forall n :: 0 <= n < |b.columns| ==>
         && b.columns[n].0 == ColumnsOf(cfg, p)[n]
         && forall card :: card in b.columns[n].1 <==>
              && card.id in issues && card.data == issues[card.id].data
              && issues[card.id].projectId == p && !issues[card.id].deleted
              && issues[card.id].statusId == b.columns[n].0.statusId
              && issues[card.id].sprintId == if s == Some("") then None else s
  }

  lemma BuildIsBoard(cfg: Config, issues: map<string, Issue>, p: string, s: Option<string>)
    ensures IsBoardOf(cfg, issues, p, s, Build(cfg, issues, p, s))
  {
    var cols := ColumnsOf(cfg, p);
    forall n, card | 0 <= n < |cols|
      ensures card in Cards(issues, p, s, cols[n].statusId) <==>
        && card.id in issues && card.data == issues[card.id].data
        && issues[card.id].projectId == p && !issues[card.id].deleted
        && issues[card.id].statusId == cols[n].statusId
        && issues[card.id].sprintId == if s == Some("") then None else s
    {
      CardMeans(issues, p, s, cols[n].statusId, card);
    }
    hide Cards;
  }

  lemma CardMeans(issues: map<string, Issue>, p: string, s: Option<string>, statusId: string, card: Card)
    ensures card in Cards(issues, p, s, statusId) <==>
      && card.id in issues && card.data == issues[card.id].data
      && issues[card.id].projectId == p && !issues[card.id].deleted
      && issues[card.id].statusId == statusId
      && issues[card.id].sprintId == if s == Some("") then None else s
  {
    if card.id in issues { assert OnBoard(issues[card.id], p, s) <==>
      issues[card.id].projectId == p && !issues[card.id].deleted && issues[card.id].sprintId == if s == Some("") then None else s; }
    hide OnBoard;
    assert card == Card(card.id, card.data);
  }

  class IssueManager {
    const cfg: Config
    const redis: Redis
    var issues: map<string, Issue>
    var log: seq<Entry>

    constructor (cfg: Config)
      ensures this.cfg == cfg && fresh(redis) && World() == Empty
    {
      this.cfg := cfg;
      redis := new Redis();
      issues, log := map[], [];
    }

    function World(): World
      reads this, redis
    {
      IssueWorld.World(issues, log, redis.boards, redis.entities, redis.zsets)
    }

    method Create(c: Call, replies: seq<ScanReply>) returns (r: Result<Issue, Error>)
      requires c.Create? && FullScan(redis.boards.Keys, BoardPattern(c.projectId), replies)
      modifies this, redis
      ensures r.Ok? <==> Do(cfg, old(World()), c).Ok?
      ensures World() == Apply(cfg, old(World()), c)
      ensures CreateEffect(cfg, old(World()), c, r.Ok?, World())
      ensures r.Ok? ==> c.id in issues && r.value == issues[c.id]
    {
      hide InvalidateBoards, IndexAdd, StatusFor, BoardPattern, FullScan, Glob, Live, Score, CreateEffect;
      CreateMeans(cfg, World(), c);
      InvalidatedBy(redis.boards, c.projectId);
      if c.projectId !in cfg.columns { return Err(NotFound); }
      var status := StatusFor(cfg, c.projectId, c.statusId);
      if status.None? { return Err(NotFound); }
      if c.id in issues { return Err(DuplicateId); }
      var issue := Issue(c.id, c.projectId, status.value, c.sprintId, c.createdAt, c.data, false);
      issues := issues[c.id := issue];
      log := log + [Created(c.id)];
      redis.InvalidatePattern(BoardPattern(c.projectId), replies);
      redis.AddIssue(issue);
      return Ok(issue);
    }

    method Update(c: Call, replies: seq<ScanReply>) returns (r: Result<Issue, Error>)
      requires c.Update?
      requires c.id in issues ==> FullScan(redis.boards.Keys, BoardPattern(issues[c.id].projectId), replies)
      modifies this, redis
      ensures r.Ok? <==> Do(cfg, old(World()), c).Ok?
      ensures World() == Apply(cfg, old(World()), c)
      ensures UpdateEffect(old(World()), c, r.Ok?, World())
      ensures r.Ok? ==> c.id in issues && r.value == issues[c.id]
    {
      hide InvalidateBoards, BoardPattern, SprintIndexKey, FullScan, Glob, Score, UpdateEffect;
      UpdateMeans(cfg, World(), c);
      if Live(issues, c.id) { InvalidatedBy(redis.boards, issues[c.id].projectId); }
      if !Live(issues, c.id) { return Err(NotFound); }
      var issue := issues[c.id].(data := c.data);
      if c.sprint.Some? { issue := issue.(sprintId := c.sprint.value); }
      issues := issues[c.id := issue];
      log := log + [Updated(c.id)];
      redis.InvalidatePattern(BoardPattern(issue.projectId), replies);
      redis.entities := redis.entities - {c.id};
      if c.sprint.Some? {
        redis.zsets := redis.zsets - {SprintIndexKey(issue.projectId, issue.sprintId)};
      }
      return Ok(issue);
    }

    method Transition(c: Call, replies: seq<ScanReply>) returns (r: Result<Issue, Error>)
      requires c.Transition?
      requires c.id in issues ==> FullScan(redis.boards.Keys, BoardPattern(issues[c.id].projectId), replies)
      requires ValidIssues(cfg, issues)
      modifies this, redis
      ensures r.Ok? <==> Do(cfg, old(World()), c).Ok?
      ensures r.Err? ==> Do(cfg, old(World()), c) == Err(r.error)
      ensures World() == Apply(cfg, old(World()), c)
      ensures TransitionEffect(cfg, old(World()), c, r.Ok?, World())
      ensures r.Ok? ==> c.id in issues && r.value == issues[c.id]
    {
      hide InvalidateBoards, BoardPattern, SprintIndexKey, FullScan, Glob, Score, TransitionEffect;
      TransitionMeans(cfg, World(), c);
      if Live(issues, c.id) { InvalidatedBy(redis.boards, issues[c.id].projectId); }
      if !Live(issues, c.id) { return Err(NotFound); }
      var from := issues[c.id].statusId;
      if (from, c.to) !in cfg.edges { return Err(NotAllowed); }
      if !c.hooksPass { return Err(Blocked); }
      var updated := issues[c.id].(statusId := c.to, data := c.data);
      issues := issues[c.id := updated];
      log := log + [StatusChanged(c.id, from, c.to)];
      redis.InvalidatePattern(BoardPattern(updated.projectId), replies);
      redis.entities := redis.entities - {c.id};
      redis.UpdateIssueStatus(updated.projectId, c.id, from, c.to, Score(updated));
      return Ok(updated);
    }

    method Delete(c: Call, replies: seq<ScanReply>) returns (r: Result<(), Error>)
      requires c.Delete?
      requires c.id in issues ==> FullScan(redis.boards.Keys, BoardPattern(issues[c.id].projectId), replies)
      requires ValidIssues(cfg, issues)
      modifies this, redis
      ensures r.Ok? <==> Do(cfg, old(World()), c).Ok?
      ensures World() == Apply(cfg, old(World()), c)
      ensures DeleteEffect(old(World()), c, r.Ok?, World())
    {
      hide InvalidateBoards, BoardPattern, SprintIndexKey, FullScan, Glob, Score, DeleteEffect;
      DeleteMeans(cfg, World(), c);
      if Live(issues, c.id) { InvalidatedBy(redis.boards, issues[c.id].projectId); }
      if !Live(issues, c.id) { return Err(NotFound); }
      var issue := issues[c.id];
      issues := issues[c.id := issue.(deleted := true)];
      redis.InvalidatePattern(BoardPattern(issue.projectId), replies);
      redis.entities := redis.entities - {c.id};
      redis.RemoveIssue(issue);
      return Ok(());
    }

    /** getBoardView for a known project; c.fetched is the order in which the query returns the
        board's issues. */
    method GetBoard(c: Call) returns (board: Board)
      requires ValidIssues(cfg, issues)
      requires c.ReadBoard? && c.projectId in cfg.columns && Fetches(issues, c.projectId, c.sprintId, c.fetched)
      modifies redis
      ensures board == Served(cfg, old(World()), c.projectId, c.sprintId)
      ensures World() == Apply(cfg, old(World()), c)
      ensures GetBoardEffect(cfg, old(World()), c, board, World())
    {
      hide Populate, Build, Cards, Pick, Fetches, OnBoard, AllOnBoard, BoardKey, PlainId, GetBoardEffect, IsBoardOf;
      GetBoardMeans(cfg, World(), c);
      ReadBoardIs(cfg, World(), c);
      var key := BoardKey(c.projectId, c.sprintId);
      if key in redis.boards { return redis.boards[key]; }
      var rows := FetchedRows(issues, c);
      redis.PopulateFromIssues(c.projectId, c.sprintId, rows);
      var statuses := ColumnsOf(cfg, c.projectId);
      var columns: seq<(Column, set<Card>)> := [];
      for n := 0 to |statuses|
        invariant |columns| == n && unchanged(this) && redis.boards == old(redis.boards) && redis.entities == old(redis.entities)
        invariant redis.zsets == Populate(old(redis.zsets), c.projectId, c.sprintId, rows)
        invariant forall j :: 0 <= j < n ==>
          columns[j] == (statuses[j], Cards(issues, c.projectId, c.sprintId, statuses[j].statusId))
      {
        var cards := set r | r in rows && r.statusId == statuses[n].statusId :: Card(r.id, r.data);
        GroupIsCards(cfg, issues, c, statuses[n].statusId, rows, cards);
        columns := columns + [(statuses[n], cards)];
      }
      BuildIs(cfg, issues, c, columns);
      board := Board(c.projectId, c.sprintId, columns);
      redis.boards := redis.boards[key := board];
    }

    /** getById */
    method GetById(id: string) returns (r: Result<Issue, Error>)
      modifies redis
      ensures World() == Apply(cfg, old(World()), ReadIssue(id))
      ensures r.Ok? <==> id in old(redis.entities) || Live(issues, id)
      ensures r.Ok? ==> r.value == if id in old(redis.entities) then old(redis.entities)[id] else issues[id]
      ensures redis.entities == if r.Ok? then old(redis.entities)[id := r.value] else old(redis.entities)
    {
      if id in redis.entities { return Ok(redis.entities[id]); }
      if !Live(issues, id) { return Err(NotFound); }
      redis.entities := redis.entities[id := issues[id]];
      return Ok(issues[id]);
    }
  }

  /** The rows of the board query. */
  function FetchedRows(issues: map<string, Issue>, c: Call): seq<Issue>
    requires c.ReadBoard? && Fetches(issues, c.projectId, c.sprintId, c.fetched)
  {
    Pick(issues, c.fetched)
  }

  lemma ReadBoardIs(cfg: Config, w: World, c: Call)
    requires c.ReadBoard? && c.projectId in cfg.columns && Fetches(w.issues, c.projectId, c.sprintId, c.fetched)
    ensures var key := BoardKey(c.projectId, c.sprintId);
      Apply(cfg, w, c) ==
        if key in w.boards then w
        else w.(boards := w.boards[key := Build(cfg, w.issues, c.projectId, c.sprintId)],
                zsets := Populate(w.zsets, c.projectId, c.sprintId, FetchedRows(w.issues, c)))
  {
    assert AllOnBoard(w.issues, c.projectId, c.sprintId, c.fetched);
    hide Populate, Build, BoardKey;
  }

  lemma BuildIs(cfg: Config, issues: map<string, Issue>, c: Call, columns: seq<(Column, set<Card>)>)
    requires c.ReadBoard? && |columns| == |ColumnsOf(cfg, c.projectId)|
    requires forall j :: 0 <= j < |columns| ==>
      var s := ColumnsOf(cfg, c.projectId)[j]; columns[j] == (s, Cards(issues, c.projectId, c.sprintId, s.statusId))
    ensures Board(c.projectId, c.sprintId, columns) == Build(cfg, issues, c.projectId, c.sprintId)
  {
    hide Cards;
  }

  /** groupBy(fetched rows, statusId)[statusId], as cards, is the column's cards. */
  lemma GroupIsCards(cfg: Config, issues: map<string, Issue>, c: Call, statusId: string, rows: seq<Issue>, cards: set<Card>)
    requires c.ReadBoard? && Fetches(issues, c.projectId, c.sprintId, c.fetched) && rows == FetchedRows(issues, c)
    requires forall id :: id in issues ==> issues[id].id == id
    requires cards == set r | r in rows && r.statusId == statusId :: Card(r.id, r.data)
    ensures cards == Cards(issues, c.projectId, c.sprintId, statusId)
  {
    forall card | card in Cards(issues, c.projectId, c.sprintId, statusId) ensures card in cards {
      var id :| id in issues && OnBoard(issues[id], c.projectId, c.sprintId) && issues[id].statusId == statusId && card == Card(id, issues[id].data);
      assert id in c.fetched;
      var n :| 0 <= n < |c.fetched| && c.fetched[n] == id;
      assert rows[n] in rows;
    }
    forall card | card in cards ensures card in Cards(issues, c.projectId, c.sprintId, statusId) {
      var r :| r in rows && r.statusId == statusId && card == Card(r.id, r.data);
      var n :| 0 <= n < |rows| && rows[n] == r;
      assert c.fetched[n] in c.fetched;
      assert r == issues[c.fetched[n]];
    }
  }
}
