/** The board cache against the board built fresh from the database, over every run. */
module BoardCache {
  import opened Wrappers
  import opened RedisKeys
  import opened IssueWorld

  /** Boards the claim speaks of: every sprint but one called "backlog", whose cache slot is the
      backlog's own; and the backlog itself, unless such a sprint may have been asked for. */
  predicate Covered(clash: bool, sprintId: Option<string>) {
    sprintId != Some("backlog") && (clash ==> sprintId.Some?)
  }

  ghost predicate Fresh(cfg: Config, w: World, clash: bool) {
    forall p, s | PlainId(p) && Covered(clash, s) && BoardKey(p, s) in w.boards ::
      w.boards[BoardKey(p, s)] == Build(cfg, w.issues, p, s)
  }

  /** The backlog-named sprint is asked for only if clash. */
  predicate InScope(clash: bool, c: Call) {
    c.ReadBoard? && c.sprintId == Some("backlog") ==> clash
  }

  /** The two tables agree on the issues of a project. */
  ghost predicate SameProject(a: map<string, Issue>, b: map<string, Issue>, projectId: string) {
    forall id | (id in a && a[id].projectId == projectId) || (id in b && b[id].projectId == projectId) ::
      id in a && id in b && a[id] == b[id]
  }

  lemma BuildFrame(cfg: Config, a: map<string, Issue>, b: map<string, Issue>, p: string, s: Option<string>)
    requires SameProject(a, b, p)
    ensures Build(cfg, a, p, s) == Build(cfg, b, p, s)
  {
    forall st ensures Cards(a, p, s, st) == Cards(b, p, s, st) {
      forall c ensures c in Cards(a, p, s, st) <==> c in Cards(b, p, s, st) {
        if c in Cards(a, p, s, st) { CardFrame(a, b, p, s, st, c); }
        if c in Cards(b, p, s, st) { CardFrame(b, a, p, s, st, c); }
      }
    }
  }

  lemma CardFrame(a: map<string, Issue>, b: map<string, Issue>, p: string, s: Option<string>, st: string, c: Card)
    requires SameProject(a, b, p) && c in Cards(a, p, s, st)
    ensures c in Cards(b, p, s, st)
  {
    var id :| id in a && OnBoard(a[id], p, s) && a[id].statusId == st && c == Card(id, a[id].data);
    assert id in b && a[id] == b[id];
  }

  /** A command that touches only project q and invalidates q's boards keeps all boards fresh. */
  lemma CommandFresh(cfg: Config, w: World, issues: map<string, Issue>, q: string, clash: bool, p: string, s: Option<string>)
    requires Fresh(cfg, w, clash) && PlainId(p) && PlainId(q) && Covered(clash, s)
    requires p != q ==> SameProject(w.issues, issues, p)
    requires BoardKey(p, s) in InvalidateBoards(w.boards, q)
    ensures InvalidateBoards(w.boards, q)[BoardKey(p, s)] == Build(cfg, issues, p, s)
  {
    PatternIsolates(q, p, s);
    assert p != q;
    BuildFrame(cfg, w.issues, issues, p, s);
  }

  lemma ReadFresh(cfg: Config, w: World, c: Call, clash: bool, p: string, s: Option<string>)
    requires c.ReadBoard? && InScope(clash, c) && ValidConfig(cfg) && Fresh(cfg, w, clash) && Do(cfg, w, c).Ok?
    requires PlainId(p) && Covered(clash, s) && BoardKey(p, s) in Do(cfg, w, c).value.boards
    ensures Do(cfg, w, c).value.boards[BoardKey(p, s)] == Build(cfg, Do(cfg, w, c).value.issues, p, s)
  {
    hide Populate, Build, Pick, BoardKey;
    BoardKeyClash(p, s, c.projectId, c.sprintId);
  }

  /** Create, update, transition and delete touch one project and invalidate its boards. */
  lemma CommandShape(cfg: Config, w: World, c: Call) returns (q: string)
    requires ValidConfig(cfg) && ValidIssues(cfg, w.issues) && Do(cfg, w, c).Ok?
    requires c.Create? || c.Update? || c.Transition? || c.Delete?
    ensures var w' := Do(cfg, w, c).value;
      PlainId(q) && w'.boards == InvalidateBoards(w.boards, q) && forall p :: p != q ==> SameProject(w.issues, w'.issues, p)
  {
    hide IndexAdd, IndexMove, IndexRemove, InvalidateBoards, PlainId, SprintIndexKey, StatusFor;
    q := if c.Create? then c.projectId else w.issues[c.id].projectId;
  }

  lemma StepFresh(cfg: Config, w: World, c: Call, clash: bool)
    requires ValidConfig(cfg) && ValidIssues(cfg, w.issues) && Fresh(cfg, w, clash) && InScope(clash, c) && !c.CompleteSprint?
    ensures Fresh(cfg, Apply(cfg, w, c), clash)
  {
    hide Do, Build, BoardKey, PlainId, InvalidateBoards;
    if Do(cfg, w, c).Ok? {
      var w' := Do(cfg, w, c).value;
      if c.Create? || c.Update? || c.Transition? || c.Delete? {
        var q := CommandShape(cfg, w, c);
        forall p, s | PlainId(p) && Covered(clash, s) && BoardKey(p, s) in w'.boards
          ensures w'.boards[BoardKey(p, s)] == Build(cfg, w'.issues, p, s)
        {
          CommandFresh(cfg, w, w'.issues, q, clash, p, s);
        }
      } else if c.ReadBoard? {
        forall p, s | PlainId(p) && Covered(clash, s) && BoardKey(p, s) in w'.boards
          ensures w'.boards[BoardKey(p, s)] == Build(cfg, w'.issues, p, s)
        {
          ReadFresh(cfg, w, c, clash, p, s);
        }
      } else {
        OtherStep(cfg, w, c, clash);
      }
    }
  }

  lemma OtherStep(cfg: Config, w: World, c: Call, clash: bool)
    requires c.ReadIssue? || c.ListPage? || c.LoseKeys?
    requires Fresh(cfg, w, clash) && Do(cfg, w, c).Ok?
    ensures Fresh(cfg, Do(cfg, w, c).value, clash)
  {
    hide Populate, Build, BoardKey, PlainId, Pick, AllOnBoard;
  }

  // ---------------------------------------------------------------- completions

  ghost predicate InColumn(cfg: Config, p: string, statusId: string) {
    exists c :: c in ColumnsOf(cfg, p) && c.statusId == statusId
  }

  /** The issue's card on this board is the same before and after. */
  predicate SameCard(i: Issue, j: Issue, p: string, s: Option<string>) {
    (OnBoard(i, p, s) <==> OnBoard(j, p, s)) && (OnBoard(i, p, s) ==> i.data == j.data)
  }

  /** A completion that puts this unfinished issue on the board, takes it off, or rewrites its
      card there. */
  ghost predicate Crosses(cfg: Config, w: World, c: Call, p: string, s: Option<string>, id: string)
    requires c.CompleteSprint?
  {
    && id in w.issues && Unfinished(cfg, w.issues[id], c.closing) && InColumn(cfg, p, w.issues[id].statusId)
    && !SameCard(w.issues[id], AfterCompletion(cfg, w.issues[id], c.closing, c.carry, c.next, c.touched), p, s)
  }

  /** Two tables with the same issues in the same statuses give the same board exactly when
      every issue in a column has the same card. */
  lemma SameBoardIff(cfg: Config, a: map<string, Issue>, b: map<string, Issue>, p: string, s: Option<string>)
    requires a.Keys == b.Keys && forall id :: id in a ==> a[id].statusId == b[id].statusId
    ensures Build(cfg, a, p, s) == Build(cfg, b, p, s) <==>
      forall id :: id in a && InColumn(cfg, p, a[id].statusId) ==> SameCard(a[id], b[id], p, s)
  {
    var cols, x, y := ColumnsOf(cfg, p), Build(cfg, a, p, s), Build(cfg, b, p, s);
    if x == y {
      forall id | id in a && InColumn(cfg, p, a[id].statusId) ensures SameCard(a[id], b[id], p, s) {
        var c :| c in cols && c.statusId == a[id].statusId;
        var n :| 0 <= n < |cols| && cols[n] == c;
        assert x.columns[n] == y.columns[n];
        SameColumn(a, b, p, s, id);
      }
    }
    if forall id :: id in a && InColumn(cfg, p, a[id].statusId) ==> SameCard(a[id], b[id], p, s) {
      forall n | 0 <= n < |cols| ensures Cards(a, p, s, cols[n].statusId) == Cards(b, p, s, cols[n].statusId) {
        assert cols[n] in cols && InColumn(cfg, p, cols[n].statusId);
        ColumnFrame(a, b, p, s, cols[n].statusId);
      }
    }
  }

  lemma SameColumn(a: map<string, Issue>, b: map<string, Issue>, p: string, s: Option<string>, id: string)
    requires id in a && id in b && a[id].statusId == b[id].statusId
    requires Cards(a, p, s, a[id].statusId) == Cards(b, p, s, a[id].statusId)
    ensures SameCard(a[id], b[id], p, s)
  {
    hide OnBoard;
    var st := a[id].statusId;
    assert OnBoard(a[id], p, s) <==> Card(id, a[id].data) in Cards(a, p, s, st);
    assert OnBoard(b[id], p, s) <==> Card(id, b[id].data) in Cards(b, p, s, st);
  }

  lemma ColumnFrame(a: map<string, Issue>, b: map<string, Issue>, p: string, s: Option<string>, st: string)
    requires a.Keys == b.Keys && forall id :: id in a ==> a[id].statusId == b[id].statusId
    requires forall id :: id in a && a[id].statusId == st ==> SameCard(a[id], b[id], p, s)
    ensures Cards(a, p, s, st) == Cards(b, p, s, st)
  {
    hide OnBoard;
    forall id | id in a && a[id].statusId == st
      ensures OnBoard(a[id], p, s) <==> OnBoard(b[id], p, s)
      ensures OnBoard(a[id], p, s) ==> a[id].data == b[id].data
    {
      assert SameCard(a[id], b[id], p, s);
    }
  }

  /** The board a completion leaves in the database is the one before it iff it crosses no
      issue of it. */
  lemma CompletionSameBoard(cfg: Config, w: World, c: Call, p: string, s: Option<string>)
    requires c.CompleteSprint?
    ensures Build(cfg, Apply(cfg, w, c).issues, p, s) == Build(cfg, w.issues, p, s) <==>
      !exists id :: Crosses(cfg, w, c, p, s, id)
  {
    hide Unfinished, OnBoard, Build, InColumn;
    var after := Apply(cfg, w, c).issues;
    SameBoardIff(cfg, w.issues, after, p, s);
    forall id | id in w.issues && InColumn(cfg, p, w.issues[id].statusId)
      ensures SameCard(w.issues[id], after[id], p, s) <==> !Crosses(cfg, w, c, p, s, id)
    {}
  }

  /** No covered cached board is crossed. */
  ghost predicate CrossesNone(cfg: Config, w: World, c: Call, clash: bool)
    requires c.CompleteSprint?
  {
    forall p, s | PlainId(p) && Covered(clash, s) && BoardKey(p, s) in w.boards :: !exists id :: Crosses(cfg, w, c, p, s, id)
  }

  /** A completion invalidates no board.  It keeps the cached boards fresh, those of the
      completed sprint, of its successor, of the backlog and all others, if and only if none of
      them gains, loses or rewrites a card. */
  lemma CompletionFreshIff(cfg: Config, w: World, c: Call, clash: bool)
    requires c.CompleteSprint? && Fresh(cfg, w, clash)
    ensures Fresh(cfg, Apply(cfg, w, c), clash) <==> CrossesNone(cfg, w, c, clash)
  {
    var w' := Apply(cfg, w, c);
    assert w'.boards == w.boards;
    forall p, s | PlainId(p) && Covered(clash, s) && BoardKey(p, s) in w.boards
      ensures w'.boards[BoardKey(p, s)] == Build(cfg, w'.issues, p, s) <==> !exists id :: Crosses(cfg, w, c, p, s, id)
    {
      CompletionSameBoard(cfg, w, c, p, s);
    }
    hide Apply, Build, BoardKey, PlainId, Covered, Crosses;
  }

  // ---------------------------------------------------------------- runs

  /** A call after which fresh boards are still fresh. */
  ghost predicate Allowed(cfg: Config, w: World, c: Call, clash: bool) {
    InScope(clash, c) && (c.CompleteSprint? ==> CrossesNone(cfg, w, c, clash))
  }

  ghost predicate AllAllowed(cfg: Config, calls: seq<Call>, clash: bool) {
    forall n :: 0 <= n < |calls| ==> Allowed(cfg, Run(cfg, calls[..n]), calls[n], clash)
  }

  lemma AllowedFresh(cfg: Config, w: World, c: Call, clash: bool)
    requires ValidConfig(cfg) && ValidIssues(cfg, w.issues) && Fresh(cfg, w, clash) && Allowed(cfg, w, c, clash)
    ensures Fresh(cfg, Apply(cfg, w, c), clash)
  {
    hide Fresh, Apply, CrossesNone;
    if c.CompleteSprint? { CompletionFreshIff(cfg, w, c, clash); } else { StepFresh(cfg, w, c, clash); }
  }

  /** In every run of issue commands, reads, key losses and completions that cross no cached
      board, any cached board equals the board built fresh from the database. */
  lemma {:induction false} CacheRefinesRebuild(cfg: Config, calls: seq<Call>, clash: bool)
    requires ValidConfig(cfg) && AllAllowed(cfg, calls, clash)
    ensures Fresh(cfg, Run(cfg, calls), clash)
  {
    if calls != [] {
      var before, c := calls[..|calls| - 1], calls[|calls| - 1];
      assert forall n :: 0 <= n < |before| ==> before[n] == calls[n] && before[..n] == calls[..n];
      hide Fresh, Allowed, Apply;
      CacheRefinesRebuild(cfg, before, clash);
      RunValid(cfg, before);
      AllowedFresh(cfg, Run(cfg, before), c, clash);
    }
  }

  /** So every covered board served after such a run is the fresh one. */
  lemma ServedIsFresh(cfg: Config, calls: seq<Call>, clash: bool, p: string, s: Option<string>)
    requires ValidConfig(cfg) && AllAllowed(cfg, calls, clash) && PlainId(p) && Covered(clash, s)
    ensures Served(cfg, Run(cfg, calls), p, s) == Build(cfg, Run(cfg, calls).issues, p, s)
  {
    CacheRefinesRebuild(cfg, calls, clash);
    hide AllAllowed, Run, Build, PlainId, BoardKey;
  }

  /** Why "backlog" is excluded: asking a cold cache for a sprint of that name makes the next
      request for the backlog serve that sprint's board, without the backlog's issues. */
  lemma BacklogSlotShared(cfg: Config, w: World, c: Call, id: string)
    requires c.ReadBoard? && c.sprintId == Some("backlog") && c.projectId in cfg.columns && AllOnBoard(w.issues, c.projectId, c.sprintId, c.fetched)
    requires BoardKey(c.projectId, None) !in w.boards
    requires Live(w.issues, id) && OnBoard(w.issues[id], c.projectId, None)
    requires exists n :: 0 <= n < |ColumnsOf(cfg, c.projectId)| && ColumnsOf(cfg, c.projectId)[n].statusId == w.issues[id].statusId
    ensures var w' := Apply(cfg, w, c);
      && Served(cfg, w', c.projectId, None) == Build(cfg, w'.issues, c.projectId, Some("backlog"))
      && Shows(Build(cfg, w'.issues, c.projectId, None), id)
      && !Shows(Served(cfg, w', c.projectId, None), id)
  {
    hide Populate;
    var w' := Apply(cfg, w, c);
    assert w'.issues == w.issues;
    BuildShows(cfg, w.issues, c.projectId, None, id);
    BuildShows(cfg, w.issues, c.projectId, Some("backlog"), id);
  }

  /** The board has a card of this issue. */
  ghost predicate Shows(b: Board, id: string) {
    exists n, c :: 0 <= n < |b.columns| && c in b.columns[n].1 && c.id == id
  }

  /** A fresh board shows exactly the issues of its sprint that sit in one of its columns. */
  lemma BuildShows(cfg: Config, issues: map<string, Issue>, p: string, s: Option<string>, id: string)
    ensures Shows(Build(cfg, issues, p, s), id) <==>
      id in issues && OnBoard(issues[id], p, s) && exists c :: c in ColumnsOf(cfg, p) && c.statusId == issues[id].statusId
  {
    var b, cols := Build(cfg, issues, p, s), ColumnsOf(cfg, p);
    if Shows(b, id) {
      var n, c :| 0 <= n < |b.columns| && c in b.columns[n].1 && c.id == id;
      assert cols[n] in cols;
    }
    if id in issues && OnBoard(issues[id], p, s) && exists c :: c in cols && c.statusId == issues[id].statusId {
      var c :| c in cols && c.statusId == issues[id].statusId;
      var n :| 0 <= n < |cols| && cols[n] == c;
      assert Card(id, issues[id].data) in b.columns[n].1;
    }
  }

  /** What a crossed board shows: completing a sprint leaves a board on which an unfinished
      issue of it is still shown in the cache, no longer equal to the fresh one. */
  lemma CompletionLeavesStaleBoard(cfg: Config, w: World, c: Call, p: string, id: string)
    requires c.CompleteSprint? && c.closing != "" && c.next != Some(c.closing)
    requires id in w.issues && w.issues[id].id == id && Unfinished(cfg, w.issues[id], c.closing)
    requires var key := BoardKey(p, Some(c.closing));
      key in w.boards && w.boards[key] == Build(cfg, w.issues, p, Some(c.closing)) && Shows(w.boards[key], id)
    ensures var w' := Apply(cfg, w, c); var key := BoardKey(p, Some(c.closing));
      && key in w'.boards && Shows(w'.boards[key], id)
      && !Shows(Build(cfg, w'.issues, p, Some(c.closing)), id)
  {
    hide Unfinished, Shows;
    var w' := Apply(cfg, w, c);
    BuildShows(cfg, w.issues, p, Some(c.closing), id);
    BuildShows(cfg, w'.issues, p, Some(c.closing), id);
  }
}
