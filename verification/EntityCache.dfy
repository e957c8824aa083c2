/** The entity cache against the issue table over every run. */
module EntityCache {
  import opened Wrappers
  import opened RedisKeys
  import opened IssueWorld

  ghost predicate Exact(w: World) {
    forall id :: id in w.entities ==> Live(w.issues, id) && w.entities[id] == w.issues[id]
  }

  /** A cached entity is right about everything but the sprint and the copied columns. */
  ghost predicate RightIssue(w: World) {
    forall id :: id in w.entities ==>
      Live(w.issues, id) && w.entities[id] == w.issues[id].(sprintId := w.entities[id].sprintId, data := w.entities[id].data)
  }

  lemma StepExact(cfg: Config, w: World, c: Call)
    requires Exact(w) && !c.CompleteSprint?
    ensures Exact(Apply(cfg, w, c))
  {
    hide Populate, IndexAdd, IndexMove, IndexRemove, Build, InvalidateBoards, BoardKey, AllOnBoard, SprintIndexKey, Pick, StatusFor;
  }

  lemma StepRightIssue(cfg: Config, w: World, c: Call)
    requires RightIssue(w)
    ensures RightIssue(Apply(cfg, w, c))
  {
    hide Populate, IndexAdd, IndexMove, IndexRemove, Build, InvalidateBoards, BoardKey, AllOnBoard, SprintIndexKey, Pick, StatusFor, Unfinished;
  }

  /** A completion that rewrites a cached issue: any but one that is carried into this very
      sprint with its copied columns as they were. */
  ghost predicate Rewrites(cfg: Config, w: World, c: Call, id: string)
    requires c.CompleteSprint?
  {
    && id in w.entities && Live(w.issues, id) && Unfinished(cfg, w.issues[id], c.closing)
    && !(id in c.carry && c.next == Some(c.closing) && (id in c.touched ==> c.touched[id] == w.issues[id].data))
  }

  /** A completion keeps the cache exact if and only if it rewrites no cached issue. */
  lemma CompletionExactIff(cfg: Config, w: World, c: Call)
    requires c.CompleteSprint? && Exact(w) && forall id :: id in w.issues ==> w.issues[id].id == id
    ensures Exact(Apply(cfg, w, c)) <==> !exists id :: Rewrites(cfg, w, c, id)
  {
    var w' := Apply(cfg, w, c);
    forall id | id in w.entities
      ensures w'.issues[id] == w.issues[id] <==> !Rewrites(cfg, w, c, id)
      ensures Live(w'.issues, id)
    {
      hide Unfinished;
      UnfinishedInSprint(cfg, w.issues[id], c.closing);
    }
    hide Unfinished;
  }

  /** In every run whose completions rewrite no cached issue, every cached entity is the live
      row. */
  lemma {:induction false} CacheExact(cfg: Config, calls: seq<Call>)
    requires forall n, id :: 0 <= n < |calls| && calls[n].CompleteSprint? ==> !Rewrites(cfg, Run(cfg, calls[..n]), calls[n], id)
    ensures Exact(Run(cfg, calls))
  {
    if calls != [] {
      var before, c := calls[..|calls| - 1], calls[|calls| - 1];
      assert forall n :: 0 <= n < |before| ==> before[n] == calls[n] && before[..n] == calls[..n];
      hide Exact, Rewrites, Apply, ValidIssues;
      CacheExact(cfg, before);
      if c.CompleteSprint? {
        RunConsistent(cfg, before);
        CompletionExactIff(cfg, Run(cfg, before), c);
      } else {
        StepExact(cfg, Run(cfg, before), c);
      }
    }
  }

  lemma RunConsistent(cfg: Config, calls: seq<Call>)
    ensures forall id :: id in Run(cfg, calls).issues ==> Run(cfg, calls).issues[id].id == id
  {
    RunValid(cfg, calls);
  }

  /** In every run at all, a cached entity is still a live issue with its right project,
      status and creation time; only its sprint and copied columns may lag. */
  lemma {:induction false} CacheNeverWrongIssue(cfg: Config, calls: seq<Call>)
    ensures RightIssue(Run(cfg, calls))
  {
    if calls != [] {
      var before := calls[..|calls| - 1];
      CacheNeverWrongIssue(cfg, before);
      StepRightIssue(cfg, Run(cfg, before), calls[|calls| - 1]);
    }
  }

  lemma UnfinishedInSprint(cfg: Config, i: Issue, s: string)
    ensures Unfinished(cfg, i, s) ==> i.sprintId == Some(s)
  {}
}
