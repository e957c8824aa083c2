/** Soundness of the status sorted-set index over every run. */
module StatusIndex {
  import opened Ordering
  import opened SortedSets
  import opened Wrappers
  import opened RedisKeys
  import opened IssueWorld

  /** k belongs in the index of (projectId, statusId): a live issue there, scored by creation. */
  ghost predicate Belongs(issues: map<string, Issue>, projectId: string, statusId: string, k: Key) {
    && Live(issues, k.id) && issues[k.id].projectId == projectId && issues[k.id].statusId == statusId
    && k.t == Score(issues[k.id])
  }

  ghost predicate Sound(w: World) {
    forall p, s, k | PlainId(p) && k in ZGet(w.zsets, StatusIndexKey(p, s)) :: Belongs(w.issues, p, s, k)
  }

  /** Adding an issue to a sprint's and its status's index, seen from one status index. */
  lemma AddedMembers(zsets: map<string, ZSet>, q: string, sprintId: Option<string>, i: Issue, p: string, s: string, k: Key)
    requires PlainId(p) && PlainId(q)
    ensures var first := ZAddAt(zsets, SprintIndexKey(q, sprintId), Score(i), i.id);
      k in ZGet(ZAddAt(first, StatusIndexKey(q, i.statusId), Score(i), i.id), StatusIndexKey(p, s)) <==>
        if p == q && s == i.statusId then k == Key(Score(i), i.id) || (k in ZGet(zsets, StatusIndexKey(p, s)) && k.id != i.id)
        else k in ZGet(zsets, StatusIndexKey(p, s))
  {
    var key := StatusIndexKey(p, s);
    AddAtMembers(zsets, SprintIndexKey(q, sprintId), Score(i), i.id, key, k);
    AddAtMembers(ZAddAt(zsets, SprintIndexKey(q, sprintId), Score(i), i.id), StatusIndexKey(q, i.statusId), Score(i), i.id, key, k);
    FamiliesDisjoint(p, s, q, sprintId);
    StatusKeyClash(p, s, q, i.statusId);
    hide SprintIndexKey, StatusIndexKey, ZAddAt, ZGet;
  }

  lemma {:induction false} PopulateMembers(zsets: map<string, ZSet>, q: string, sprintId: Option<string>, rows: seq<Issue>,
                                           p: string, s: string, k: Key)
    requires PlainId(p) && PlainId(q)
    requires k in ZGet(Populate(zsets, q, sprintId, rows), StatusIndexKey(p, s))
    ensures k in ZGet(zsets, StatusIndexKey(p, s)) ||
      exists i :: i in rows && p == q && s == i.statusId && k == Key(Score(i), i.id)
  {
    if rows != [] {
      var i, first := rows[|rows| - 1], rows[..|rows| - 1];
      assert i in rows && forall x :: x in first ==> x in rows;
      AddedMembers(Populate(zsets, q, sprintId, first), q, sprintId, i, p, s, k);
      hide SprintIndexKey, StatusIndexKey, ZAddAt, ZGet, PlainId;
      if k in ZGet(Populate(zsets, q, sprintId, first), StatusIndexKey(p, s)) {
        PopulateMembers(zsets, q, sprintId, first, p, s, k);
      }
    }
  }

  lemma PopulateSound(w: World, q: string, sprintId: Option<string>, ids: seq<string>, p: string, s: string, k: Key)
    requires Sound(w) && PlainId(p) && PlainId(q) && AllOnBoard(w.issues, q, sprintId, ids)
    requires forall id :: id in w.issues ==> w.issues[id].id == id
    requires k in ZGet(Populate(w.zsets, q, sprintId, Pick(w.issues, ids)), StatusIndexKey(p, s))
    ensures Belongs(w.issues, p, s, k)
  {
    hide Populate, StatusIndexKey, ZGet;
    var rows := Pick(w.issues, ids);
    PopulateMembers(w.zsets, q, sprintId, rows, p, s, k);
    if k !in ZGet(w.zsets, StatusIndexKey(p, s)) {
      var i :| i in rows && p == q && s == i.statusId && k == Key(Score(i), i.id);
      var n :| 0 <= n < |rows| && rows[n] == i;
      assert ids[n] in ids;
    }
  }

  lemma AddSound(w: World, i: Issue, p: string, s: string, k: Key)
    requires Sound(w) && PlainId(p) && PlainId(i.projectId) && i.id !in w.issues && !i.deleted
    requires k in ZGet(IndexAdd(w.zsets, i), StatusIndexKey(p, s))
    ensures Belongs(w.issues[i.id := i], p, s, k)
  {
    hide StatusIndexKey, SprintIndexKey, ZAddAt, ZGet, PlainId;
    AddedMembers(w.zsets, i.projectId, i.sprintId, i, p, s, k);
    if k in ZGet(w.zsets, StatusIndexKey(p, s)) { assert Belongs(w.issues, p, s, k); }
  }

  lemma MoveSound(w: World, i: Issue, from: string, p: string, s: string, k: Key)
    requires Sound(w) && PlainId(p) && PlainId(i.projectId) && Live(w.issues, i.id) && !i.deleted
    requires w.issues[i.id].projectId == i.projectId && w.issues[i.id].statusId == from && Score(w.issues[i.id]) == Score(i)
    requires k in ZGet(IndexMove(w.zsets, i, from, i.statusId), StatusIndexKey(p, s))
    ensures Belongs(w.issues[i.id := i], p, s, k)
  {
    var key := StatusIndexKey(p, s);
    RemAtMembers(w.zsets, StatusIndexKey(i.projectId, from), i.id, key, k);
    AddAtMembers(ZRemAt(w.zsets, StatusIndexKey(i.projectId, from), i.id), StatusIndexKey(i.projectId, i.statusId), Score(i), i.id, key, k);
    StatusKeyClash(p, s, i.projectId, from);
    StatusKeyClash(p, s, i.projectId, i.statusId);
    hide StatusIndexKey, SprintIndexKey, ZAddAt, ZRemAt, ZGet, PlainId;
    if k in ZGet(w.zsets, key) { assert Belongs(w.issues, p, s, k); }
  }

  lemma RemoveSound(w: World, i: Issue, p: string, s: string, k: Key)
    requires Sound(w) && PlainId(p) && PlainId(i.projectId) && Live(w.issues, i.id) && w.issues[i.id] == i
    requires k in ZGet(IndexRemove(w.zsets, i), StatusIndexKey(p, s))
    ensures Belongs(w.issues[i.id := i.(deleted := true)], p, s, k)
  {
    var key, sprint := StatusIndexKey(p, s), SprintIndexKey(i.projectId, i.sprintId);
    RemAtMembers(w.zsets, sprint, i.id, key, k);
    RemAtMembers(ZRemAt(w.zsets, sprint, i.id), StatusIndexKey(i.projectId, i.statusId), i.id, key, k);
    StatusKeyClash(p, s, i.projectId, i.statusId);
    assert Belongs(w.issues, p, s, k);
  }

  lemma UpdateSound(w: World, c: Call, p: string, s: string, k: Key)
    requires c.Update? && Sound(w) && PlainId(p) && DoUpdate(w, c).Ok?
    requires k in ZGet(DoUpdate(w, c).value.zsets, StatusIndexKey(p, s))
    ensures Belongs(DoUpdate(w, c).value.issues, p, s, k)
  {
    assert Belongs(w.issues, p, s, k);
  }

  lemma OthersSound(cfg: Config, w: World, c: Call, p: string, s: string, k: Key)
    requires c.CompleteSprint? || c.LoseKeys? || c.ReadIssue?
    requires Sound(w) && PlainId(p) && Do(cfg, w, c).Ok?
    requires k in ZGet(Do(cfg, w, c).value.zsets, StatusIndexKey(p, s))
    ensures Belongs(Do(cfg, w, c).value.issues, p, s, k)
  {
    hide Unfinished, StatusIndexKey;
    assert Belongs(w.issues, p, s, k);
  }

  lemma StepSound(cfg: Config, w: World, c: Call)
    requires ValidConfig(cfg) && ValidIssues(cfg, w.issues) && Sound(w)
    ensures Sound(Apply(cfg, w, c))
  {
    var r := Do(cfg, w, c);
    if r.Ok? {
      var w' := r.value;
      forall p, s, k | PlainId(p) && k in ZGet(w'.zsets, StatusIndexKey(p, s)) ensures Belongs(w'.issues, p, s, k) {
        hide Populate, IndexAdd, IndexMove, IndexRemove, StatusIndexKey, Belongs, ZGet, Build, InvalidateBoards, Unfinished;
        match c
        case Create(_, _, _, _, _, _) => AddSound(w, w'.issues[c.id], p, s, k);
        case Update(_, _, _) => UpdateSound(w, c, p, s, k);
        case Transition(_, _, _, _) => MoveSound(w, w'.issues[c.id], w.issues[c.id].statusId, p, s, k);
        case Delete(_) => RemoveSound(w, w.issues[c.id], p, s, k);
        case ReadBoard(_, _, _) =>
          if w' != w { PopulateSound(w, c.projectId, c.sprintId, c.fetched, p, s, k); }
        case ListPage(_, _, _) => PopulateSound(w, c.projectId, c.sprintId, c.page, p, s, k);
        case _ => OthersSound(cfg, w, c, p, s, k);
      }
    }
  }

  /** In every run — issue commands, lazy population by board and list reads, sprint
      completions and any loss of keys — each member of a status index is a live issue of that
      project in that status, scored by its creation time. */
  lemma {:induction false} StatusIndexSound(cfg: Config, calls: seq<Call>)
    requires ValidConfig(cfg)
    ensures Sound(Run(cfg, calls))
  {
    if calls != [] {
      var before := calls[..|calls| - 1];
      StatusIndexSound(cfg, before);
      RunValid(cfg, before);
      StepSound(cfg, Run(cfg, before), calls[|calls| - 1]);
    }
  }

  /** So no issue is ever in two status sets. */
  lemma AtMostOneStatusSet(cfg: Config, calls: seq<Call>, p: string, s: string, q: string, t: string, j: Key, k: Key)
    requires ValidConfig(cfg) && PlainId(p) && PlainId(q) && j.id == k.id
    requires j in ZGet(Run(cfg, calls).zsets, StatusIndexKey(p, s))
    requires k in ZGet(Run(cfg, calls).zsets, StatusIndexKey(q, t))
    ensures p == q && s == t && j == k
  {
    StatusIndexSound(cfg, calls);
    assert Belongs(Run(cfg, calls).issues, p, s, j);
    assert Belongs(Run(cfg, calls).issues, q, t, k);
  }

  // ---------------------------------------------------------------- completeness

  /** The set holds every live issue of its project and status. */
  ghost predicate Complete(w: World, p: string, s: string) {
    forall k :: Belongs(w.issues, p, s, k) ==> k in ZGet(w.zsets, StatusIndexKey(p, s))
  }

  ghost predicate Exact(w: World, p: string, s: string) {
    forall k :: k in ZGet(w.zsets, StatusIndexKey(p, s)) <==> Belongs(w.issues, p, s, k)
  }

  /** This key is not lost. */
  predicate KeepsKey(c: Call, p: string, s: string) {
    c.LoseKeys? ==> StatusIndexKey(p, s) !in c.zsetKeys
  }

  lemma AddComplete(w: World, i: Issue, p: string, s: string, k: Key)
    requires PlainId(p) && PlainId(i.projectId) && Complete(w, p, s) && Belongs(w.issues[i.id := i], p, s, k)
    ensures k in ZGet(IndexAdd(w.zsets, i), StatusIndexKey(p, s))
  {
    hide StatusIndexKey, SprintIndexKey, ZAddAt, ZGet, PlainId;
    AddedMembers(w.zsets, i.projectId, i.sprintId, i, p, s, k);
    if k.id != i.id { assert Belongs(w.issues, p, s, k); }
  }

  lemma MoveComplete(w: World, i: Issue, from: string, p: string, s: string, k: Key)
    requires Complete(w, p, s) && Belongs(w.issues[i.id := i], p, s, k)
    ensures k in ZGet(IndexMove(w.zsets, i, from, i.statusId), StatusIndexKey(p, s))
  {
    var key := StatusIndexKey(p, s);
    RemAtMembers(w.zsets, StatusIndexKey(i.projectId, from), i.id, key, k);
    AddAtMembers(ZRemAt(w.zsets, StatusIndexKey(i.projectId, from), i.id), StatusIndexKey(i.projectId, i.statusId), Score(i), i.id, key, k);
    hide StatusIndexKey, ZAddAt, ZRemAt, ZGet;
    if k.id != i.id { assert Belongs(w.issues, p, s, k); }
  }

  lemma RemoveComplete(w: World, i: Issue, p: string, s: string, k: Key)
    requires Complete(w, p, s) && Belongs(w.issues[i.id := i.(deleted := true)], p, s, k)
    ensures k in ZGet(IndexRemove(w.zsets, i), StatusIndexKey(p, s))
  {
    var key, sprint := StatusIndexKey(p, s), SprintIndexKey(i.projectId, i.sprintId);
    RemAtMembers(w.zsets, sprint, i.id, key, k);
    RemAtMembers(ZRemAt(w.zsets, sprint, i.id), StatusIndexKey(i.projectId, i.statusId), i.id, key, k);
    hide StatusIndexKey, SprintIndexKey, ZRemAt, ZGet;
    assert Belongs(w.issues, p, s, k);
  }

  /** Populating with current rows never displaces a member that belongs. */
  lemma {:induction false} PopulateKeeps(zsets: map<string, ZSet>, q: string, sprintId: Option<string>, rows: seq<Issue>,
                                         p: string, s: string, k: Key)
    requires PlainId(p) && PlainId(q) && k in ZGet(zsets, StatusIndexKey(p, s))
    requires forall i :: i in rows && i.id == k.id ==> Score(i) == k.t
    ensures k in ZGet(Populate(zsets, q, sprintId, rows), StatusIndexKey(p, s))
  {
    hide SprintIndexKey, StatusIndexKey, ZAddAt, ZGet, PlainId;
    if rows != [] {
      var i, first := rows[|rows| - 1], rows[..|rows| - 1];
      assert i in rows && forall x :: x in first ==> x in rows;
      PopulateKeeps(zsets, q, sprintId, first, p, s, k);
      AddedMembers(Populate(zsets, q, sprintId, first), q, sprintId, i, p, s, k);
    }
  }

  lemma PopulateComplete(w: World, q: string, sprintId: Option<string>, ids: seq<string>, p: string, s: string, k: Key)
    requires Complete(w, p, s) && PlainId(p) && PlainId(q) && AllOnBoard(w.issues, q, sprintId, ids)
    requires (forall id :: id in w.issues ==> w.issues[id].id == id) && Belongs(w.issues, p, s, k)
    ensures k in ZGet(Populate(w.zsets, q, sprintId, Pick(w.issues, ids)), StatusIndexKey(p, s))
  {
    PickRows(w.issues, ids);
    hide Populate, StatusIndexKey, ZGet, PlainId;
    PopulateKeeps(w.zsets, q, sprintId, Pick(w.issues, ids), p, s, k);
  }

  lemma OthersComplete(cfg: Config, w: World, c: Call, p: string, s: string, k: Key)
    requires c.Update? || c.CompleteSprint? || c.LoseKeys? || c.ReadIssue?
    requires Complete(w, p, s) && KeepsKey(c, p, s) && Do(cfg, w, c).Ok? && Belongs(Do(cfg, w, c).value.issues, p, s, k)
    ensures k in ZGet(Do(cfg, w, c).value.zsets, StatusIndexKey(p, s))
  {
    if c.Update? && Live(w.issues, c.id) {
      FamiliesDisjoint(p, s, w.issues[c.id].projectId, if c.sprint.Some? then c.sprint.value else None);
    }
    hide Unfinished, StatusIndexKey, SprintIndexKey, InvalidateBoards;
    assert Belongs(w.issues, p, s, k);
  }

  lemma StepComplete(cfg: Config, w: World, c: Call, p: string, s: string)
    requires ValidConfig(cfg) && ValidIssues(cfg, w.issues) && PlainId(p) && Complete(w, p, s) && KeepsKey(c, p, s)
    ensures Complete(Apply(cfg, w, c), p, s)
  {
    var r := Do(cfg, w, c);
    if r.Ok? {
      var w' := r.value;
      forall k | Belongs(w'.issues, p, s, k) ensures k in ZGet(w'.zsets, StatusIndexKey(p, s)) {
        hide Populate, IndexAdd, IndexMove, IndexRemove, StatusIndexKey, Belongs, Complete, ZGet, Build, InvalidateBoards, Unfinished;
        match c
        case Create(_, _, _, _, _, _) => AddComplete(w, w'.issues[c.id], p, s, k);
        case Transition(_, _, _, _) => MoveComplete(w, w'.issues[c.id], w.issues[c.id].statusId, p, s, k);
        case Delete(_) => RemoveComplete(w, w.issues[c.id], p, s, k);
        case ReadBoard(_, _, _) =>
          if w' != w { PopulateComplete(w, c.projectId, c.sprintId, c.fetched, p, s, k); } else { assert k in ZGet(w.zsets, StatusIndexKey(p, s)) by { Member(w, p, s, k); } }
        case ListPage(_, _, _) => PopulateComplete(w, c.projectId, c.sprintId, c.page, p, s, k);
        case _ => OthersComplete(cfg, w, c, p, s, k);
      }
    }
  }

  lemma Member(w: World, p: string, s: string, k: Key)
    requires Complete(w, p, s) && Belongs(w.issues, p, s, k)
    ensures k in ZGet(w.zsets, StatusIndexKey(p, s))
  {}

  lemma {:induction false} RunComplete(cfg: Config, calls: seq<Call>, p: string, s: string)
    requires ValidConfig(cfg) && PlainId(p) && forall c :: c in calls ==> KeepsKey(c, p, s)
    ensures Complete(Run(cfg, calls), p, s)
  {
    if calls != [] {
      var before, c := calls[..|calls| - 1], calls[|calls| - 1];
      assert c in calls && forall x :: x in before ==> x in calls;
      RunComplete(cfg, before, p, s);
      RunValid(cfg, before);
      StepComplete(cfg, Run(cfg, before), c, p, s);
    }
  }

  /** In every run in which this key is not lost — updates, moves, completions, and partial
      board and list reads included — a status set holds exactly the live issues of its
      project and status, each scored by its creation time. */
  lemma ExactUnlessLost(cfg: Config, calls: seq<Call>, p: string, s: string)
    requires ValidConfig(cfg) && PlainId(p) && forall c :: c in calls ==> KeepsKey(c, p, s)
    ensures Exact(Run(cfg, calls), p, s)
  {
    StatusIndexSound(cfg, calls);
    RunComplete(cfg, calls, p, s);
    hide Belongs, StatusIndexKey, ZGet, Run, PlainId;
  }

  /** Losing the key keeps the set exact if and only if the column has no live issue. */
  lemma LossKeepsExactIff(cfg: Config, w: World, c: Call, p: string, s: string)
    requires c.LoseKeys? && StatusIndexKey(p, s) in c.zsetKeys && Exact(w, p, s)
    ensures Exact(Apply(cfg, w, c), p, s) <==>
      forall id :: Live(w.issues, id) ==> w.issues[id].projectId != p || w.issues[id].statusId != s
  {
    var w' := Apply(cfg, w, c);
    hide StatusIndexKey;
    assert ZGet(w'.zsets, StatusIndexKey(p, s)) == [];
    if id :| Live(w.issues, id) && w.issues[id].projectId == p && w.issues[id].statusId == s {
      assert Belongs(w.issues, p, s, Key(Score(w.issues[id]), id));
    }
  }

  lemma {:induction false} PopulateHas(zsets: map<string, ZSet>, q: string, sprintId: Option<string>, rows: seq<Issue>, x: Issue)
    requires PlainId(q) && x in rows && forall i, j :: i in rows && j in rows && i.id == j.id ==> i == j
    ensures Key(Score(x), x.id) in ZGet(Populate(zsets, q, sprintId, rows), StatusIndexKey(q, x.statusId))
  {
    hide SprintIndexKey, StatusIndexKey, ZAddAt, ZGet, PlainId;
    var i, first := rows[|rows| - 1], rows[..|rows| - 1];
    assert (x in first || x == i) && (forall y :: y in first ==> y in rows) by { assert rows == first + [i]; }
    AddedMembers(Populate(zsets, q, sprintId, first), q, sprintId, i, q, x.statusId, Key(Score(x), x.id));
    if x != i {
      assert i in rows;
      PopulateHas(zsets, q, sprintId, first, x);
    }
  }

  /** A board read that misses the board cache puts every issue of that board into its status
      set, in every column — and, by StatusIndexSound, nothing that does not belong there. */
  lemma BoardReadFills(cfg: Config, w: World, c: Call, id: string)
    requires ValidConfig(cfg) && ValidIssues(cfg, w.issues) && c.ReadBoard? && c.projectId in cfg.columns
    requires BoardKey(c.projectId, c.sprintId) !in w.boards && Fetches(w.issues, c.projectId, c.sprintId, c.fetched)
    requires id in w.issues && OnBoard(w.issues[id], c.projectId, c.sprintId)
    ensures var i := w.issues[id];
      Key(Score(i), id) in ZGet(Apply(cfg, w, c).zsets, StatusIndexKey(i.projectId, i.statusId))
  {
    hide Populate, StatusIndexKey, ZGet, Build, BoardKey, PlainId, Pick, OnBoard;
    assert AllOnBoard(w.issues, c.projectId, c.sprintId, c.fetched) && id in c.fetched;
    ReadStep(cfg, w, c);
    PickRows(w.issues, c.fetched);
    hide Apply, AllOnBoard, Fetches;
    assert w.issues[id].projectId == c.projectId by { InProject(w.issues[id], c.projectId, c.sprintId); }
    PopulateHas(w.zsets, c.projectId, c.sprintId, Pick(w.issues, c.fetched), w.issues[id]);
  }

  lemma InProject(i: Issue, p: string, s: Option<string>)
    requires OnBoard(i, p, s)
    ensures i.projectId == p
  {}

  lemma ReadStep(cfg: Config, w: World, c: Call)
    requires c.ReadBoard? && c.projectId in cfg.columns && AllOnBoard(w.issues, c.projectId, c.sprintId, c.fetched)
    requires BoardKey(c.projectId, c.sprintId) !in w.boards
    ensures Apply(cfg, w, c).zsets == Populate(w.zsets, c.projectId, c.sprintId, Pick(w.issues, c.fetched))
  {
    hide Populate, Build, BoardKey, Pick;
  }

  /** getStatusIssueIds promises all issues of a column on a warm index.  After a loss of the
      key it can break that:
      from any state, an eviction followed by one create leaves the index holding only the
      new issue, whatever else is live in that column. */
  lemma WarmButPartial(cfg: Config, w: World, c: Call, k: Key)
    requires ValidConfig(cfg) && c.Create? && c.projectId in cfg.columns && c.statusId.Some? && c.statusId.value != ""
    requires c.id !in w.issues
    ensures var key := StatusIndexKey(c.projectId, c.statusId.value);
      var w' := Apply(cfg, Apply(cfg, w, LoseKeys({}, {}, {key})), c);
      && (forall id :: Live(w.issues, id) ==> Live(w'.issues, id) && w'.issues[id] == w.issues[id])
      && (k in ZGet(w'.zsets, key) <==> k == Key(c.createdAt / 1000, c.id))
  {
    var key := StatusIndexKey(c.projectId, c.statusId.value);
    var zs := w.zsets - {key};
    var sprint := SprintIndexKey(c.projectId, c.sprintId);
    FamiliesDisjoint(c.projectId, c.statusId.value, c.projectId, c.sprintId);
    AddAtMembers(zs, sprint, c.createdAt / 1000, c.id, key, k);
    AddAtMembers(ZAddAt(zs, sprint, c.createdAt / 1000, c.id), key, c.createdAt / 1000, c.id, key, k);
    assert ZGet(zs, key) == [];
    hide StatusIndexKey, SprintIndexKey, InvalidateBoards, ZAddAt, ZGet;
  }
}
