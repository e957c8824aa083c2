/** The issue tables and the Redis state that IssueManager and IssueQueryService maintain, and
    what each of their calls does to them.  One call is one atomic step; losing keys to expiry
    or eviction is a step of its own. */
module IssueWorld {
  import opened Ordering
  import opened SortedSets
  import opened Wrappers
  import opened RedisKeys

  /** data stands for the columns that are only copied: title, priority, points, labels,
      version, assignee and the like.  createdAt is in microseconds. */
  datatype Issue = Issue(id: string, projectId: string, statusId: string, sprintId: Option<string>,
                         createdAt: int, data: string, deleted: bool)

  datatype Category = TODO | IN_PROGRESS | DONE

  /** A workflow status: a board column. */
  datatype Column = Column(statusId: string, title: string, category: Category)

  /** Configuration that the modelled calls only read. */
  datatype Config = Config(columns: map<string, seq<Column>>, edges: set<(string, string)>)

  datatype Card = Card(id: string, data: string)

  /** A board, without cachedAt and without the order of the cards (the query has none). */
  datatype Board = Board(projectId: string, sprintId: Option<string>, columns: seq<(Column, set<Card>)>)

  /** What the event subscriber writes to the activity log. */
  datatype Entry = Created(issueId: string) | Updated(issueId: string)
                 | StatusChanged(issueId: string, from: string, to: string)

  datatype World = World(
    issues: map<string, Issue>,
    log: seq<Entry>,
    boards: map<string, Board>,
    entities: map<string, Issue>,
    zsets: map<string, ZSet>)

  datatype Error = NotFound | NotAllowed | Blocked | DuplicateId

  predicate Live(issues: map<string, Issue>, id: string) {
    id in issues && !issues[id].deleted
  }

  /** new Date(createdAt).getTime() */
  function Score(i: Issue): int { i.createdAt / 1000 }

  // ---------------------------------------------------------------- Redis pieces

  function ZGet(zsets: map<string, ZSet>, key: string): ZSet {
    if key in zsets then zsets[key] else []
  }

  /** A sorted set with no member left is a missing key. */
  function ZPut(zsets: map<string, ZSet>, key: string, z: ZSet): map<string, ZSet> {
    if z == [] then zsets - {key} else zsets[key := z]
  }

  function ZAddAt(zsets: map<string, ZSet>, key: string, score: int, id: string): map<string, ZSet> {
    ZPut(zsets, key, ZAdd(ZGet(zsets, key), score, id))
  }

  function ZRemAt(zsets: map<string, ZSet>, key: string, id: string): map<string, ZSet> {
    ZPut(zsets, key, ZRem(ZGet(zsets, key), id))
  }

  lemma AddAtMembers(zsets: map<string, ZSet>, key: string, score: int, id: string, q: string, k: Key)
    ensures k in ZGet(ZAddAt(zsets, key, score, id), q) <==>
      if q == key then k == Key(score, id) || (k in ZGet(zsets, q) && k.id != id) else k in ZGet(zsets, q)
  {}

  lemma RemAtMembers(zsets: map<string, ZSet>, key: string, id: string, q: string, k: Key)
    ensures k in ZGet(ZRemAt(zsets, key, id), q) <==> k in ZGet(zsets, q) && (q == key ==> k.id != id)
  {}

  function InvalidateBoards(boards: map<string, Board>, projectId: string): map<string, Board> {
    map k | k in boards && !Glob(BoardPattern(projectId), k) :: boards[k]
  }

  /** addIssue */
  function IndexAdd(zsets: map<string, ZSet>, i: Issue): map<string, ZSet> {
    ZAddAt(ZAddAt(zsets, SprintIndexKey(i.projectId, i.sprintId), Score(i), i.id),
           StatusIndexKey(i.projectId, i.statusId), Score(i), i.id)
  }

  /** removeIssue */
  function IndexRemove(zsets: map<string, ZSet>, i: Issue): map<string, ZSet> {
    ZRemAt(ZRemAt(zsets, SprintIndexKey(i.projectId, i.sprintId), i.id), StatusIndexKey(i.projectId, i.statusId), i.id)
  }

  /** updateIssueStatus */
  function IndexMove(zsets: map<string, ZSet>, i: Issue, from: string, to: string): map<string, ZSet> {
    ZAddAt(ZRemAt(zsets, StatusIndexKey(i.projectId, from), i.id), StatusIndexKey(i.projectId, to), Score(i), i.id)
  }

  /** populateFromIssues: both indexes of every given issue, under the given sprint's key. */
  function Populate(zsets: map<string, ZSet>, projectId: string, sprintId: Option<string>, rows: seq<Issue>): map<string, ZSet> {
    if rows == [] then zsets
    else
      var i := rows[|rows| - 1];
      ZAddAt(ZAddAt(Populate(zsets, projectId, sprintId, rows[..|rows| - 1]), SprintIndexKey(projectId, sprintId), Score(i), i.id),
             StatusIndexKey(projectId, i.statusId), Score(i), i.id)
  }

  // ---------------------------------------------------------------- board query

  /** A sprint id of null or "" asks for the backlog. */
  predicate OnBoard(i: Issue, projectId: string, sprintId: Option<string>) {
    && i.projectId == projectId && !i.deleted
    && if sprintId.Some? && sprintId.value != "" then i.sprintId == sprintId else i.sprintId.None?
  }

  function Cards(issues: map<string, Issue>, projectId: string, sprintId: Option<string>, statusId: string): set<Card> {
    set id | id in issues && OnBoard(issues[id], projectId, sprintId) && issues[id].statusId == statusId
      :: Card(id, issues[id].data)
  }

  function ColumnsOf(cfg: Config, projectId: string): seq<Column> {
    if projectId in cfg.columns then cfg.columns[projectId] else []
  }

  /** The board as built from the database: one column per status, holding its issues. */
  function Build(cfg: Config, issues: map<string, Issue>, projectId: string, sprintId: Option<string>): Board {
    var cols := ColumnsOf(cfg, projectId);
    Board(projectId, sprintId, seq(|cols|, n requires 0 <= n < |cols| =>
      (cols[n], Cards(issues, projectId, sprintId, cols[n].statusId))))
  }

  // ---------------------------------------------------------------- calls

  datatype Call =
    | Create(id: string, projectId: string, statusId: Option<string>, sprintId: Option<string>, createdAt: int, data: string)
    | Update(id: string, sprint: Option<Option<string>>, data: string)
    | Transition(id: string, to: string, data: string, hooksPass: bool)
    | Delete(id: string)
    | ReadBoard(projectId: string, sprintId: Option<string>, fetched: seq<string>)
    | ReadIssue(id: string)
    | ListPage(projectId: string, sprintId: Option<string>, page: seq<string>)
    | CompleteSprint(closing: string, carry: set<string>, next: Option<string>, touched: map<string, string>)
    | LoseKeys(boardKeys: set<string>, entityIds: set<string>, zsetKeys: set<string>)

  /** The status a new issue gets; None when the project has no TODO status. */
  function StatusFor(cfg: Config, projectId: string, given: Option<string>): Option<string> {
    if given.Some? && given.value != "" then given else FirstTodo(ColumnsOf(cfg, projectId))
  }

  function FirstTodo(cols: seq<Column>): Option<string> {
    if cols == [] then None
    else if cols[0].category == TODO then Some(cols[0].statusId)
    else FirstTodo(cols[1..])
  }

  /** The first of the project's statuses in the TODO category. */
  predicate IsFirstTodo(cols: seq<Column>, statusId: string) {
    exists n | 0 <= n < |cols| ::
      cols[n].statusId == statusId && cols[n].category == TODO && forall m | 0 <= m < n :: cols[m].category != TODO
  }

  /** A given non-empty status wins; otherwise the first TODO status, if there is one. */
  lemma StatusForMeans(cfg: Config, projectId: string, given: Option<string>)
    ensures var r, cols := StatusFor(cfg, projectId, given), ColumnsOf(cfg, projectId);
      if given.Some? && given.value != "" then r == given
      else (r.Some? ==> IsFirstTodo(cols, r.value)) && (r.None? <==> forall col :: col in cols ==> col.category != TODO)
  {
    FirstTodoMeans(ColumnsOf(cfg, projectId));
  }

  lemma {:induction false} FirstTodoMeans(cols: seq<Column>)
    ensures var r := FirstTodo(cols);
      (r.Some? ==> IsFirstTodo(cols, r.value)) && (r.None? <==> forall col :: col in cols ==> col.category != TODO)
  {
    if cols != [] {
      FirstTodoMeans(cols[1..]);
      assert forall col :: col in cols <==> col == cols[0] || col in cols[1..];
      var r := FirstTodo(cols);
      if r.Some? && cols[0].category != TODO {
        var n :| 0 <= n < |cols[1..]| && cols[1..][n].statusId == r.value && cols[1..][n].category == TODO
          && forall m | 0 <= m < n :: cols[1..][m].category != TODO;
        assert cols[n + 1].statusId == r.value && cols[n + 1].category == TODO;
        assert forall m | 0 <= m < n + 1 :: m == 0 || cols[m] == cols[1..][m - 1];
      }
    }
  }

  function Pick(issues: map<string, Issue>, ids: seq<string>): seq<Issue>
    requires forall id :: id in ids ==> id in issues
  {
    seq(|ids|, n requires 0 <= n < |ids| => assert ids[n] in ids; issues[ids[n]])
  }

  /** The issues completion takes out of a sprint. */
  predicate Unfinished(cfg: Config, i: Issue, sprintId: string) {
    && i.sprintId == Some(sprintId) && !i.deleted
    && exists p | p in cfg.columns :: exists c | c in cfg.columns[p] :: c.statusId == i.statusId && c.category != DONE
  }

  /** The issue after a completion; touched gives the copied columns (version, update time) of
      the issues whose row is written. */
  function AfterCompletion(cfg: Config, i: Issue, sprintId: string, carry: set<string>, next: Option<string>,
                           touched: map<string, string>): Issue {
    if Unfinished(cfg, i, sprintId)
    then i.(sprintId := if i.id in carry then next else None, data := if i.id in touched then touched[i.id] else i.data)
    else i
  }

  lemma PickRows(issues: map<string, Issue>, ids: seq<string>)
    requires forall id :: id in ids ==> id in issues
    requires forall id :: id in issues ==> issues[id].id == id
    ensures forall i :: i in Pick(issues, ids) <==> i.id in ids && i.id in issues && i == issues[i.id]
  {
    var rows := Pick(issues, ids);
    forall i: Issue | i.id in ids && i == issues[i.id] ensures i in rows {
      var n :| 0 <= n < |ids| && ids[n] == i.id;
      assert rows[n] == i;
    }
    forall i: Issue | i in rows ensures i.id in ids && i == issues[i.id] {
      var n :| 0 <= n < |rows| && rows[n] == i;
      assert ids[n] in ids;
    }
  }

  function DoCreate(cfg: Config, w: World, c: Call): Result<World, Error>
    requires c.Create?
  {
    var status := StatusFor(cfg, c.projectId, c.statusId);
    if c.projectId !in cfg.columns || status.None? then Err(NotFound)
    else if c.id in w.issues then Err(DuplicateId)
    else
      var i := Issue(c.id, c.projectId, status.value, c.sprintId, c.createdAt, c.data, false);
      Ok(World(w.issues[c.id := i], w.log + [Created(c.id)], InvalidateBoards(w.boards, i.projectId),
               w.entities, IndexAdd(w.zsets, i)))
  }

  function DoUpdate(w: World, c: Call): Result<World, Error>
    requires c.Update?
  {
    if !Live(w.issues, c.id) then Err(NotFound)
    else
      var was := w.issues[c.id];
      var i := was.(sprintId := if c.sprint.Some? then c.sprint.value else was.sprintId, data := c.data);
      Ok(World(w.issues[c.id := i], w.log + [Updated(c.id)], InvalidateBoards(w.boards, i.projectId), w.entities - {c.id},
               if c.sprint.Some? then w.zsets - {SprintIndexKey(i.projectId, i.sprintId)} else w.zsets))
  }

  function DoTransition(cfg: Config, w: World, c: Call): Result<World, Error>
    requires c.Transition?
  {
    if !Live(w.issues, c.id) then Err(NotFound)
    else
      var was := w.issues[c.id];
      if (was.statusId, c.to) !in cfg.edges then Err(NotAllowed)
      else if !c.hooksPass then Err(Blocked)
      else
        var i := was.(statusId := c.to, data := c.data);
        Ok(World(w.issues[c.id := i], w.log + [StatusChanged(c.id, was.statusId, c.to)],
                 InvalidateBoards(w.boards, i.projectId), w.entities - {c.id}, IndexMove(w.zsets, i, was.statusId, c.to)))
  }

  function DoDelete(w: World, c: Call): Result<World, Error>
    requires c.Delete?
  {
    if !Live(w.issues, c.id) then Err(NotFound)
    else
      var was := w.issues[c.id];
      Ok(World(w.issues[c.id := was.(deleted := true)], w.log, InvalidateBoards(w.boards, was.projectId),
               w.entities - {c.id}, IndexRemove(w.zsets, was)))
  }

  /** fetched lists exactly the issues of the board, in whatever order the query returned. */
  ghost predicate Fetches(issues: map<string, Issue>, projectId: string, sprintId: Option<string>, fetched: seq<string>) {
    forall id :: id in fetched <==> id in issues && OnBoard(issues[id], projectId, sprintId)
  }

  predicate AllOnBoard(issues: map<string, Issue>, projectId: string, sprintId: Option<string>, ids: seq<string>) {
    forall id | id in ids :: id in issues && OnBoard(issues[id], projectId, sprintId)
  }

  function DoReadBoard(cfg: Config, w: World, c: Call): Result<World, Error>
    requires c.ReadBoard?
  {
    var key := BoardKey(c.projectId, c.sprintId);
    if c.projectId !in cfg.columns || !AllOnBoard(w.issues, c.projectId, c.sprintId, c.fetched) then Err(NotFound)
    else if key in w.boards then Ok(w)
    else Ok(w.(boards := w.boards[key := Build(cfg, w.issues, c.projectId, c.sprintId)],
               zsets := Populate(w.zsets, c.projectId, c.sprintId, Pick(w.issues, c.fetched))))
  }

  /** The board a ReadBoard call returns. */
  function Served(cfg: Config, w: World, projectId: string, sprintId: Option<string>): Board {
    var key := BoardKey(projectId, sprintId);
    if key in w.boards then w.boards[key] else Build(cfg, w.issues, projectId, sprintId)
  }

  function DoReadIssue(w: World, c: Call): Result<World, Error>
    requires c.ReadIssue?
  {
    if c.id in w.entities then Ok(w)
    else if !Live(w.issues, c.id) then Err(NotFound)
    else Ok(w.(entities := w.entities[c.id := w.issues[c.id]]))
  }

  function DoListPage(cfg: Config, w: World, c: Call): Result<World, Error>
    requires c.ListPage?
  {
    if c.projectId !in cfg.columns || !AllOnBoard(w.issues, c.projectId, c.sprintId, c.page) then Err(NotFound)
    else Ok(w.(zsets := Populate(w.zsets, c.projectId, c.sprintId, Pick(w.issues, c.page))))
  }

  /** One call; Err leaves everything as it was. */
  function Do(cfg: Config, w: World, c: Call): Result<World, Error> {
    match c
    case Create(_, _, _, _, _, _) => DoCreate(cfg, w, c)
    case Update(_, _, _) => DoUpdate(w, c)
    case Transition(_, _, _, _) => DoTransition(cfg, w, c)
    case Delete(_) => DoDelete(w, c)
    case ReadBoard(_, _, _) => DoReadBoard(cfg, w, c)
    case ReadIssue(_) => DoReadIssue(w, c)
    case ListPage(_, _, _) => DoListPage(cfg, w, c)
    case CompleteSprint(s, carry, next, touched) =>
      Ok(w.(issues := map id | id in w.issues :: AfterCompletion(cfg, w.issues[id], s, carry, next, touched)))
    case LoseKeys(bs, es, zs) =>
      Ok(w.(boards := w.boards - bs, entities := w.entities - es, zsets := w.zsets - zs))
  }

  function Apply(cfg: Config, w: World, c: Call): World {
    var r := Do(cfg, w, c);
    if r.Ok? then r.value else w
  }

  /** What a completion does: each live issue of the sprint whose status is a column of some
      project and not DONE goes to the next sprint if it is carried, and else to the backlog;
      no other row changes, and no cache does. */
  lemma CompletionMeans(cfg: Config, w: World, c: Call, id: string)
    requires c.CompleteSprint? && id in w.issues && w.issues[id].id == id
    ensures var w' := Apply(cfg, w, c); var i := w.issues[id];
      && w'.boards == w.boards && w'.entities == w.entities && w'.zsets == w.zsets && w'.log == w.log
      && id in w'.issues
      && if i.sprintId == Some(c.closing) && !i.deleted
            && exists p, col :: p in cfg.columns && col in cfg.columns[p] && col.statusId == i.statusId && col.category != DONE
         then w'.issues[id] == i.(sprintId := if id in c.carry then c.next else None, data := w'.issues[id].data)
         else w'.issues[id] == i
  {}

  const Empty := World(map[], [], map[], map[], map[])

  /** The world after a run of calls. */
  function Run(cfg: Config, calls: seq<Call>): World {
    if calls == [] then Empty else Apply(cfg, Run(cfg, calls[..|calls| - 1]), calls[|calls| - 1])
  }

  ghost predicate ValidConfig(cfg: Config) {
    forall p :: p in cfg.columns ==> PlainId(p)
  }

  /** Rows sit under their own ids, in known projects. */
  ghost predicate ValidIssues(cfg: Config, issues: map<string, Issue>) {
    forall id :: id in issues ==> issues[id].id == id && issues[id].projectId in cfg.columns
  }

  lemma ApplyValid(cfg: Config, w: World, c: Call)
    requires ValidIssues(cfg, w.issues)
    ensures ValidIssues(cfg, Apply(cfg, w, c).issues)
  {
    hide IndexAdd, IndexMove, IndexRemove, Populate, InvalidateBoards, Build, AllOnBoard, Pick, SprintIndexKey, BoardKey, Unfinished;
  }

  lemma {:induction false} RunValid(cfg: Config, calls: seq<Call>)
    ensures ValidIssues(cfg, Run(cfg, calls).issues)
  {
    if calls != [] {
      RunValid(cfg, calls[..|calls| - 1]);
      ApplyValid(cfg, Run(cfg, calls[..|calls| - 1]), calls[|calls| - 1]);
    }
  }
}
