/** The activity log against the issue table: replaying an issue's status changes rebuilds its
    status. */
module StatusHistory {
  import opened Wrappers
  import opened RedisKeys
  import opened IssueWorld

  /** The issue's STATUS_CHANGED entries, oldest first. */
  function StatusEntries(log: seq<Entry>, id: string): seq<Entry> {
    if log == [] then []
    else
      var e := log[|log| - 1];
      StatusEntries(log[..|log| - 1], id) + if e.StatusChanged? && e.issueId == id then [e] else []
  }

  function ReplayFrom(start: string, entries: seq<Entry>): string
    requires forall e :: e in entries ==> e.StatusChanged?
  {
    if entries == [] then start else entries[|entries| - 1].to
  }

  /** Each entry starts where the one before it ended, and is a configured edge. */
  ghost predicate Chained(cfg: Config, start: string, entries: seq<Entry>) {
    entries == [] ||
    var n := |entries| - 1;
    && Chained(cfg, start, entries[..n])
    && entries[n].StatusChanged? && (entries[n].from, entries[n].to) in cfg.edges
    && entries[n].from == (if n == 0 then start else if entries[n - 1].StatusChanged? then entries[n - 1].to else "")
  }

  /** The status an issue was created with. */
  function BornAs(cfg: Config, calls: seq<Call>, id: string): Option<string> {
    if calls == [] then None
    else
      var before, c := calls[..|calls| - 1], calls[|calls| - 1];
      if id in Run(cfg, before).issues then BornAs(cfg, before, id)
      else if c.Create? && c.id == id then StatusFor(cfg, c.projectId, c.statusId)
      else None
  }

  lemma {:induction false} EntriesAreChanges(log: seq<Entry>, id: string)
    ensures forall e :: e in StatusEntries(log, id) ==> e.StatusChanged?
  {
    if log != [] { EntriesAreChanges(log[..|log| - 1], id); }
  }

  lemma EntriesSnoc(log: seq<Entry>, e: Entry, id: string)
    ensures StatusEntries(log + [e], id) == StatusEntries(log, id) + if e.StatusChanged? && e.issueId == id then [e] else []
  {
    assert (log + [e])[..|log|] == log;
  }

  /** What the log says about the issue, given its status at birth. */
  ghost predicate Replays(cfg: Config, w: World, id: string, start: string) {
    && Chained(cfg, start, StatusEntries(w.log, id))
    && id in w.issues
    && w.issues[id].statusId == (var es := StatusEntries(w.log, id); if es == [] then start else if es[|es| - 1].StatusChanged? then es[|es| - 1].to else "")
  }

  /** One call writes at most one entry; only a status change of this issue changes its status. */
  lemma StepLog(cfg: Config, w: World, c: Call, id: string)
    requires id in w.issues
    ensures var w' := Apply(cfg, w, c);
      && id in w'.issues
      && (w'.log == w.log || w'.log == w.log + [w'.log[|w'.log| - 1]])
      && (w'.log != w.log && w'.log[|w'.log| - 1].StatusChanged? && w'.log[|w'.log| - 1].issueId == id ==>
            w'.log[|w'.log| - 1] == StatusChanged(id, w.issues[id].statusId, w'.issues[id].statusId)
            && (w.issues[id].statusId, w'.issues[id].statusId) in cfg.edges)
      && (w'.log == w.log || !w'.log[|w'.log| - 1].StatusChanged? || w'.log[|w'.log| - 1].issueId != id ==>
            w'.issues[id].statusId == w.issues[id].statusId)
  {
    hide Populate, IndexAdd, IndexMove, IndexRemove, Build, InvalidateBoards, Unfinished, AllOnBoard, Pick, StatusFor, BoardKey, SprintIndexKey;
  }

  /** How one call changes an issue's status and its entries. */
  lemma StepReplays(cfg: Config, w: World, c: Call, id: string, start: string)
    requires Replays(cfg, w, id, start)
    ensures Replays(cfg, Apply(cfg, w, c), id, start)
  {
    hide Apply;
    StepLog(cfg, w, c, id);
    var w' := Apply(cfg, w, c);
    if w'.log != w.log {
      var e, es := w'.log[|w'.log| - 1], StatusEntries(w.log, id);
      EntriesSnoc(w.log, e, id);
      if e.StatusChanged? && e.issueId == id {
        assert (es + [e])[..|es|] == es;
        assert Chained(cfg, start, es + [e]);
      } else {
        assert StatusEntries(w'.log, id) == es + [] == es;
      }
    }
  }

  lemma StepBirth(cfg: Config, w: World, c: Call, id: string)
    requires id !in w.issues && StatusEntries(w.log, id) == []
    ensures var w' := Apply(cfg, w, c);
      && StatusEntries(w'.log, id) == []
      && (id in w'.issues ==> c.Create? && c.id == id && StatusFor(cfg, c.projectId, c.statusId) == Some(w'.issues[id].statusId))
  {
    hide Populate, IndexAdd, IndexMove, IndexRemove, Build, InvalidateBoards, Unfinished, AllOnBoard, Pick, StatusFor;
    var w' := Apply(cfg, w, c);
    if w'.log != w.log { EntriesSnoc(w.log, w'.log[|w.log|], id); }
  }

  lemma {:induction false} RunReplays(cfg: Config, calls: seq<Call>, id: string)
    ensures var w := Run(cfg, calls); var born := BornAs(cfg, calls, id);
      && (id !in w.issues ==> StatusEntries(w.log, id) == [])
      && (id in w.issues ==> born.Some? && Replays(cfg, w, id, born.value))
  {
    if calls != [] {
      var before, c := calls[..|calls| - 1], calls[|calls| - 1];
      var w := Run(cfg, before);
      RunReplays(cfg, before, id);
      if id in w.issues {
        StepReplays(cfg, w, c, id, BornAs(cfg, before, id).value);
      } else {
        StepBirth(cfg, w, c, id);
      }
    }
  }

  /** In every run, folding an issue's status changes over its status at creation gives its
      current status — also after it is deleted, moved or its sprint completed — and the
      changes form a path of configured transitions. */
  lemma StatusHistoryReplays(cfg: Config, calls: seq<Call>, id: string)
    requires id in Run(cfg, calls).issues
    ensures var w := Run(cfg, calls); var entries := StatusEntries(w.log, id);
      && BornAs(cfg, calls, id).Some?
      && (forall e :: e in entries ==> e.StatusChanged?)
      && Chained(cfg, BornAs(cfg, calls, id).value, entries)
      && ReplayFrom(BornAs(cfg, calls, id).value, entries) == w.issues[id].statusId
  {
    RunReplays(cfg, calls, id);
    EntriesAreChanges(Run(cfg, calls).log, id);
    hide Run, BornAs, Chained, StatusEntries;
  }
}
