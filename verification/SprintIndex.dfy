/** The sprint index: which calls keep it exact, and which do not. */
module SprintIndex {
  import opened Ordering
  import opened SortedSets
  import opened Wrappers
  import opened RedisKeys
  import opened IssueWorld

  /** k is the index entry of a live issue of the sprint. */
  ghost predicate Belongs(issues: map<string, Issue>, p: string, s: Option<string>, k: Key) {
    && Live(issues, k.id) && issues[k.id].projectId == p && issues[k.id].sprintId == s && k.t == Score(issues[k.id])
  }

  ghost predicate Sound(w: World, p: string, s: Option<string>) {
    forall k :: k in ZGet(w.zsets, SprintIndexKey(p, s)) ==> Belongs(w.issues, p, s, k)
  }

  /** The index holds exactly the sprint's live issues, each scored by its creation time. */
  ghost predicate Exact(w: World, p: string, s: Option<string>) {
    forall k :: k in ZGet(w.zsets, SprintIndexKey(p, s)) <==> Belongs(w.issues, p, s, k)
  }

  /** Sprint ids are UUIDs: no issue sits in a sprint called "backlog". */
  ghost predicate NoBacklogSprint(issues: map<string, Issue>) {
    forall id :: id in issues ==> issues[id].sprintId != Some("backlog")
  }

  /** Issue commands that do not change a sprint, and reads. */
  predicate KeepsSprints(c: Call) {
    match c
    case Create(_, _, _, s, _, _) => s != Some("backlog")
    case Update(_, sprint, _) => sprint.None?
    case ReadBoard(_, s, _) => s.None? || (s.value != "" && s.value != "backlog")
    case ListPage(_, s, _) => s.None? || (s.value != "" && s.value != "backlog")
    case CompleteSprint(_, _, _, _) => false
    case LoseKeys(_, _, zs) => zs == {}
    case _ => true
  }

  /** Keys of real sprints and of the backlog never clash. */
  lemma RealKeyClash(p: string, s: Option<string>, q: string, t: Option<string>)
    requires PlainId(p) && PlainId(q) && s != Some("backlog") && t != Some("backlog")
    ensures SprintIndexKey(p, s) == SprintIndexKey(q, t) <==> p == q && s == t
  {
    SprintKeyClash(p, s, q, t);
  }

  /** One issue of a populate: its entry joins the index of the given sprint. */
  lemma PopulateOne(zsets: map<string, ZSet>, q: string, t: Option<string>, i: Issue, p: string, s: Option<string>, k: Key)
    requires PlainId(p) && PlainId(q) && s != Some("backlog") && t != Some("backlog")
    ensures var first := ZAddAt(zsets, SprintIndexKey(q, t), Score(i), i.id);
      k in ZGet(ZAddAt(first, StatusIndexKey(q, i.statusId), Score(i), i.id), SprintIndexKey(p, s)) <==>
        if p == q && s == t then k == Key(Score(i), i.id) || (k in ZGet(zsets, SprintIndexKey(p, s)) && k.id != i.id)
        else k in ZGet(zsets, SprintIndexKey(p, s))
  {
    var key := SprintIndexKey(p, s);
    AddAtMembers(zsets, SprintIndexKey(q, t), Score(i), i.id, key, k);
    AddAtMembers(ZAddAt(zsets, SprintIndexKey(q, t), Score(i), i.id), StatusIndexKey(q, i.statusId), Score(i), i.id, key, k);
    FamiliesDisjoint(q, i.statusId, p, s);
    RealKeyClash(p, s, q, t);
    hide SprintIndexKey, StatusIndexKey, ZAddAt, ZGet;
  }

  ghost predicate Names(rows: seq<Issue>, id: string) { exists i :: i in rows && i.id == id }

  ghost predicate Lists(rows: seq<Issue>, k: Key) { exists i :: i in rows && k == Key(Score(i), i.id) }

  lemma NamesSnoc(rows: seq<Issue>, k: Key)
    requires rows != []
    ensures var i, first := rows[|rows| - 1], rows[..|rows| - 1];
      && (Names(rows, k.id) <==> Names(first, k.id) || i.id == k.id)
      && (Lists(rows, k) <==> Lists(first, k) || k == Key(Score(i), i.id))
  {
    assert rows == rows[..|rows| - 1] + [rows[|rows| - 1]];
  }

  lemma {:induction false} PopulateMembers(zsets: map<string, ZSet>, q: string, t: Option<string>, rows: seq<Issue>,
                                           p: string, s: Option<string>, k: Key)
    requires PlainId(p) && PlainId(q) && s != Some("backlog") && t != Some("backlog")
    requires forall i, j :: i in rows && j in rows && i.id == j.id ==> i == j
    ensures k in ZGet(Populate(zsets, q, t, rows), SprintIndexKey(p, s)) <==>
      if p == q && s == t && Names(rows, k.id) then Lists(rows, k) else k in ZGet(zsets, SprintIndexKey(p, s))
  {
    if rows != [] {
      var i, first := rows[|rows| - 1], rows[..|rows| - 1];
      assert forall x :: x in first ==> x in rows;
      PopulateMembers(zsets, q, t, first, p, s, k);
      PopulateOne(Populate(zsets, q, t, first), q, t, i, p, s, k);
      NamesSnoc(rows, k);
      assert Lists(first, k) && k.id == i.id ==> k == Key(Score(i), i.id);
      hide SprintIndexKey, StatusIndexKey, ZAddAt, ZGet, Names, Lists;
    }
  }

  /** What a board or list read does to an index: the rows it fetched, all of the right sprint,
      join the index of that sprint; other sprints' indexes stay. */
  lemma ReadMembers(w: World, q: string, t: Option<string>, ids: seq<string>, p: string, s: Option<string>, k: Key)
    requires PlainId(p) && PlainId(q) && s != Some("backlog") && t != Some("backlog") && t != Some("")
    requires AllOnBoard(w.issues, q, t, ids) && forall id :: id in w.issues ==> w.issues[id].id == id
    ensures k in ZGet(Populate(w.zsets, q, t, Pick(w.issues, ids)), SprintIndexKey(p, s)) <==>
      if p == q && s == t && k.id in ids then Belongs(w.issues, p, s, k) else k in ZGet(w.zsets, SprintIndexKey(p, s))
  {
    var rows := Pick(w.issues, ids);
    PickRows(w.issues, ids);
    PopulateMembers(w.zsets, q, t, rows, p, s, k);
    if k.id in ids { assert w.issues[k.id] in rows; }
    hide Populate, SprintIndexKey, ZGet;
  }

  lemma CreateExact(w: World, i: Issue, p: string, s: Option<string>, k: Key)
    requires PlainId(p) && PlainId(i.projectId) && s != Some("backlog") && i.sprintId != Some("backlog")
    requires i.id !in w.issues && !i.deleted && Exact(w, p, s)
    ensures k in ZGet(IndexAdd(w.zsets, i), SprintIndexKey(p, s)) <==> Belongs(w.issues[i.id := i], p, s, k)
  {
    hide SprintIndexKey, StatusIndexKey, ZAddAt, ZGet, PlainId;
    PopulateOne(w.zsets, i.projectId, i.sprintId, i, p, s, k);
  }

  lemma DeleteExact(w: World, i: Issue, p: string, s: Option<string>, k: Key)
    requires PlainId(p) && PlainId(i.projectId) && s != Some("backlog") && i.sprintId != Some("backlog")
    requires Live(w.issues, i.id) && w.issues[i.id] == i && Exact(w, p, s)
    ensures k in ZGet(IndexRemove(w.zsets, i), SprintIndexKey(p, s)) <==> Belongs(w.issues[i.id := i.(deleted := true)], p, s, k)
  {
    var key, sprint := SprintIndexKey(p, s), SprintIndexKey(i.projectId, i.sprintId);
    RemAtMembers(w.zsets, sprint, i.id, key, k);
    RemAtMembers(ZRemAt(w.zsets, sprint, i.id), StatusIndexKey(i.projectId, i.statusId), i.id, key, k);
    FamiliesDisjoint(i.projectId, i.statusId, p, s);
    RealKeyClash(p, s, i.projectId, i.sprintId);
    hide SprintIndexKey, StatusIndexKey, ZRemAt, ZGet, PlainId;
  }

  lemma TransitionExact(w: World, i: Issue, from: string, p: string, s: Option<string>, k: Key)
    requires Live(w.issues, i.id) && !i.deleted && Exact(w, p, s)
    requires w.issues[i.id].projectId == i.projectId && w.issues[i.id].sprintId == i.sprintId && Score(w.issues[i.id]) == Score(i)
    ensures k in ZGet(IndexMove(w.zsets, i, from, i.statusId), SprintIndexKey(p, s)) <==> Belongs(w.issues[i.id := i], p, s, k)
  {
    var key := SprintIndexKey(p, s);
    RemAtMembers(w.zsets, StatusIndexKey(i.projectId, from), i.id, key, k);
    AddAtMembers(ZRemAt(w.zsets, StatusIndexKey(i.projectId, from), i.id), StatusIndexKey(i.projectId, i.statusId), Score(i), i.id, key, k);
    FamiliesDisjoint(i.projectId, from, p, s);
    FamiliesDisjoint(i.projectId, i.statusId, p, s);
    hide SprintIndexKey, StatusIndexKey, ZRemAt, ZAddAt, ZGet;
  }

  /** What is in an index after one successful call. */
  ghost predicate MemberExact(w: World, p: string, s: Option<string>, k: Key) {
    k in ZGet(w.zsets, SprintIndexKey(p, s)) <==> Belongs(w.issues, p, s, k)
  }

  lemma CommandMember(cfg: Config, w: World, c: Call, p: string, s: Option<string>, k: Key)
    requires ValidConfig(cfg) && ValidIssues(cfg, w.issues) && NoBacklogSprint(w.issues)
    requires PlainId(p) && s != Some("backlog") && Exact(w, p, s) && KeepsSprints(c) && Do(cfg, w, c).Ok?
    requires c.Create? || c.Transition? || c.Delete?
    ensures MemberExact(Do(cfg, w, c).value, p, s, k)
  {
    hide Exact, Belongs, IndexAdd, IndexMove, IndexRemove, SprintIndexKey, ZGet, InvalidateBoards, PlainId, StatusFor;
    var w' := Do(cfg, w, c).value;
    match c
    case Create(_, _, _, _, _, _) => CreateExact(w, w'.issues[c.id], p, s, k);
    case Transition(_, _, _, _) => TransitionExact(w, w'.issues[c.id], w.issues[c.id].statusId, p, s, k);
    case Delete(_) => DeleteExact(w, w.issues[c.id], p, s, k);
  }

  lemma ReadMember(cfg: Config, w: World, c: Call, p: string, s: Option<string>, k: Key)
    requires ValidConfig(cfg) && ValidIssues(cfg, w.issues)
    requires PlainId(p) && s != Some("backlog") && Exact(w, p, s) && KeepsSprints(c) && Do(cfg, w, c).Ok?
    requires c.ReadBoard? || c.ListPage?
    ensures MemberExact(Do(cfg, w, c).value, p, s, k)
  {
    hide Belongs, Populate, SprintIndexKey, ZGet, Build, BoardKey, PlainId, AllOnBoard, Pick;
    if c.ListPage? {
      ReadMembers(w, c.projectId, c.sprintId, c.page, p, s, k);
    } else if BoardKey(c.projectId, c.sprintId) !in w.boards {
      ReadMembers(w, c.projectId, c.sprintId, c.fetched, p, s, k);
    }
  }

  lemma OtherMember(cfg: Config, w: World, c: Call, p: string, s: Option<string>, k: Key)
    requires Exact(w, p, s) && KeepsSprints(c) && Do(cfg, w, c).Ok?
    requires c.Update? || c.ReadIssue? || c.LoseKeys?
    ensures MemberExact(Do(cfg, w, c).value, p, s, k)
  {
    hide SprintIndexKey, ZGet, InvalidateBoards;
    var w' := Do(cfg, w, c).value;
    if c.LoseKeys? { assert w.zsets - {} == w.zsets; }
    assert w'.zsets == w.zsets;
  }

  lemma StepNoBacklog(cfg: Config, w: World, c: Call)
    requires NoBacklogSprint(w.issues) && KeepsSprints(c)
    ensures NoBacklogSprint(Apply(cfg, w, c).issues)
  {
    hide IndexAdd, IndexMove, IndexRemove, Populate, InvalidateBoards, Build, AllOnBoard, Pick, SprintIndexKey, BoardKey, StatusFor;
  }

  lemma StepExact(cfg: Config, w: World, c: Call, p: string, s: Option<string>)
    requires ValidConfig(cfg) && ValidIssues(cfg, w.issues) && NoBacklogSprint(w.issues)
    requires PlainId(p) && s != Some("backlog") && Exact(w, p, s) && KeepsSprints(c)
    ensures Exact(Apply(cfg, w, c), p, s) && NoBacklogSprint(Apply(cfg, w, c).issues)
  {
    StepNoBacklog(cfg, w, c);
    hide Do, Belongs, SprintIndexKey, ZGet, NoBacklogSprint, PlainId, ValidConfig, ValidIssues;
    if Do(cfg, w, c).Ok? {
      var w' := Do(cfg, w, c).value;
      forall k ensures k in ZGet(w'.zsets, SprintIndexKey(p, s)) <==> Belongs(w'.issues, p, s, k) {
        if c.Create? || c.Transition? || c.Delete? {
          CommandMember(cfg, w, c, p, s, k);
        } else if c.ReadBoard? || c.ListPage? {
          ReadMember(cfg, w, c, p, s, k);
        } else {
          OtherMember(cfg, w, c, p, s, k);
        }
        assert MemberExact(w', p, s, k);
      }
    }
  }

  /** A completion that moves this unfinished issue of p into sprint s or out of it. */
  ghost predicate Crosses(cfg: Config, issues: map<string, Issue>, c: Call, p: string, s: Option<string>, id: string)
    requires c.CompleteSprint?
  {
    && Live(issues, id) && issues[id].projectId == p && Unfinished(cfg, issues[id], c.closing)
    && (s == Some(c.closing)) != (s == if id in c.carry then c.next else None)
  }

  /** A sprint completion invalidates no index.  Any index, of the completed sprint, of its
      successor, of the backlog or of another sprint, stays exact if and only if no unfinished
      issue of the project enters or leaves that sprint. */
  lemma CompletionKeepsIndexIff(cfg: Config, w: World, c: Call, p: string, s: Option<string>)
    requires c.CompleteSprint? && forall id :: id in w.issues ==> w.issues[id].id == id
    requires Exact(w, p, s)
    ensures Exact(Apply(cfg, w, c), p, s) <==> !exists id :: Crosses(cfg, w.issues, c, p, s, id)
  {
    var w' := Apply(cfg, w, c);
    hide SprintIndexKey;
    forall id | id in w.issues
      ensures id in w'.issues && w'.issues[id] == AfterCompletion(cfg, w.issues[id], c.closing, c.carry, c.next, c.touched)
      ensures Unfinished(cfg, w.issues[id], c.closing) ==> w.issues[id].sprintId == Some(c.closing) && Live(w.issues, id)
    {}
    hide Unfinished;
    if id :| Crosses(cfg, w.issues, c, p, s, id) {
      var k := Key(Score(w.issues[id]), id);
      assert Belongs(w.issues, p, s, k) <==> !Belongs(w'.issues, p, s, k);
      assert k in ZGet(w'.zsets, SprintIndexKey(p, s)) <==> Belongs(w.issues, p, s, k);
    } else {
      forall k ensures Belongs(w'.issues, p, s, k) <==> Belongs(w.issues, p, s, k) {
        assert !Crosses(cfg, w.issues, c, p, s, k.id);
      }
    }
  }

  function ApplyAll(cfg: Config, w: World, calls: seq<Call>): World {
    if calls == [] then w else Apply(cfg, ApplyAll(cfg, w, calls[..|calls| - 1]), calls[|calls| - 1])
  }

  /** A call that moves no issue into or out of the sprint. */
  ghost predicate Spares(cfg: Config, w: World, c: Call, p: string, s: Option<string>) {
    if c.CompleteSprint? then c.next != Some("backlog") && !exists id :: Crosses(cfg, w.issues, c, p, s, id)
    else KeepsSprints(c)
  }

  lemma SparesMeans(cfg: Config, w: World, c: Call, p: string, s: Option<string>)
    requires Spares(cfg, w, c, p, s) && !c.CompleteSprint?
    ensures KeepsSprints(c)
  {}

  lemma CompletionStep(cfg: Config, w: World, c: Call, p: string, s: Option<string>)
    requires c.CompleteSprint? && ValidIssues(cfg, w.issues) && NoBacklogSprint(w.issues) && Exact(w, p, s) && Spares(cfg, w, c, p, s)
    ensures Exact(Apply(cfg, w, c), p, s) && NoBacklogSprint(Apply(cfg, w, c).issues)
  {
    CompletionKeepsIndexIff(cfg, w, c, p, s);
    hide Exact, Unfinished, Crosses;
  }

  /** Once exact, the index of a sprint stays exact through every run of creates, transitions,
      deletes, updates without a sprint, board and list reads, and completions that move no
      issue into or out of the sprint. */
  lemma {:induction false} StaysExact(cfg: Config, w: World, calls: seq<Call>, p: string, s: Option<string>)
    requires ValidConfig(cfg) && ValidIssues(cfg, w.issues) && NoBacklogSprint(w.issues)
    requires PlainId(p) && s != Some("backlog") && Exact(w, p, s)
    requires forall n :: 0 <= n < |calls| ==> Spares(cfg, ApplyAll(cfg, w, calls[..n]), calls[n], p, s)
    ensures var w' := ApplyAll(cfg, w, calls); Exact(w', p, s) && NoBacklogSprint(w'.issues) && ValidIssues(cfg, w'.issues)
  {
    if calls != [] {
      var before, c := calls[..|calls| - 1], calls[|calls| - 1];
      var w1 := ApplyAll(cfg, w, before);
      hide Exact, Spares, Apply, ValidIssues, NoBacklogSprint, PlainId, ValidConfig;
      assert forall n :: 0 <= n < |before| ==> before[n] == calls[n] && before[..n] == calls[..n];
      StaysExact(cfg, w, before, p, s);
      assert Spares(cfg, w1, c, p, s);
      if c.CompleteSprint? {
        CompletionStep(cfg, w1, c, p, s);
      } else {
        assert KeepsSprints(c) by { SparesMeans(cfg, w1, c, p, s); }
        StepExact(cfg, w1, c, p, s);
      }
      ApplyValid(cfg, w1, c);
    }
  }

  /** A board read that misses the board cache makes a sound index exact. */
  lemma BoardReadCompletes(cfg: Config, w: World, c: Call)
    requires ValidConfig(cfg) && ValidIssues(cfg, w.issues) && c.ReadBoard? && KeepsSprints(c) && c.projectId in cfg.columns
    requires BoardKey(c.projectId, c.sprintId) !in w.boards && Fetches(w.issues, c.projectId, c.sprintId, c.fetched)
    requires Sound(w, c.projectId, c.sprintId)
    ensures Exact(Apply(cfg, w, c), c.projectId, c.sprintId)
  {
    var w' := Apply(cfg, w, c);
    assert AllOnBoard(w.issues, c.projectId, c.sprintId, c.fetched);
    assert w' == DoReadBoard(cfg, w, c).value;
    forall k
      ensures k in ZGet(w'.zsets, SprintIndexKey(c.projectId, c.sprintId)) <==> Belongs(w'.issues, c.projectId, c.sprintId, k)
    {
      hide Populate, SprintIndexKey, ZGet, Build, PlainId, BoardKey;
      ReadMembers(w, c.projectId, c.sprintId, c.fetched, c.projectId, c.sprintId, k);
    }
  }

  /** Moving an issue invalidates only the new sprint's index: the old sprint's index, exact
      before, lists the moved issue from then on — unless both share one key. */
  lemma MoveBreaksOldIndex(cfg: Config, w: World, c: Call)
    requires ValidConfig(cfg) && ValidIssues(cfg, w.issues)
    requires c.Update? && c.sprint.Some? && Live(w.issues, c.id) && c.sprint.value != w.issues[c.id].sprintId
    requires Exact(w, w.issues[c.id].projectId, w.issues[c.id].sprintId)
    ensures var p, s := w.issues[c.id].projectId, w.issues[c.id].sprintId; var w' := Apply(cfg, w, c);
      && (Sound(w', p, s) <==> OrBacklog(c.sprint.value) == OrBacklog(s))
      && (OrBacklog(c.sprint.value) != OrBacklog(s) ==> HasMember(ZGet(w'.zsets, SprintIndexKey(p, s)), c.id))
      && ZGet(w'.zsets, SprintIndexKey(p, c.sprint.value)) == []
  {
    var p, s, t := w.issues[c.id].projectId, w.issues[c.id].sprintId, c.sprint.value;
    SprintKeyClash(p, s, p, t);
    var w' := Apply(cfg, w, c);
    var k := Key(Score(w.issues[c.id]), c.id);
    assert Belongs(w.issues, p, s, k);
    hide SprintIndexKey, InvalidateBoards;
    if SprintIndexKey(p, s) != SprintIndexKey(p, t) {
      assert ZGet(w'.zsets, SprintIndexKey(p, s)) == ZGet(w.zsets, SprintIndexKey(p, s));
      assert !Belongs(w'.issues, p, s, k);
    }
  }
}
