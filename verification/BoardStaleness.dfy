/** How old a served board can be when anything at all may change the database — sprint
    completions, workflow edits, other services — and a board read is several steps: query the
    workflow statuses and the issues, in either order, then store the board with a 300-second
    expiry. */
module BoardStaleness {
  import opened Wrappers
  import opened RedisKeys
  import opened IssueWorld
  import BoardCache

  const BOARD_TTL_MS := 300_000

  /** The database, workflow columns included. */
  datatype Db = Db(cfg: Config, issues: map<string, Issue>)

  /** A database state and the time from which it was current. */
  datatype Version = Version(since: int, db: Db)

  /** What a query returned, from which version of the database, and when. */
  datatype Answer<T> = Answer(value: T, version: nat, at: int)

  /** A board request that missed the cache, and the answers it has so far. */
  datatype Reader = Reader(projectId: string, sprintId: Option<string>,
                           statuses: Option<Answer<Config>>, rows: Option<Answer<map<string, Issue>>>)

  /** A cached board with the answers it was built from. */
  datatype Cached = Cached(projectId: string, sprintId: Option<string>, board: Board,
                           statuses: Answer<Config>, rows: Answer<map<string, Issue>>, expiresAt: int)

  datatype State = State(
    now: int,
    history: seq<Version>,
    cache: map<string, Cached>,
    reading: map<nat, Reader>)

  datatype Event =
    | Tick(ms: nat)
    | Write(db: Db)
    | DropKeys(keys: set<string>)
    | Begin(reader: nat, projectId: string, sprintId: Option<string>)
    | QueryStatuses(reader: nat)
    | QueryIssues(reader: nat)
    | Store(reader: nat)
    | ReaderGone(reader: nat)

  function Current(s: State): Db
    requires s.history != []
  {
    s.history[|s.history| - 1].db
  }

  /** Both queries of a reader have been answered, at most delay ms ago. */
  predicate CanStore(delay: nat, s: State, r: nat) {
    && r in s.reading && s.reading[r].statuses.Some? && s.reading[r].rows.Some?
    && s.now <= s.reading[r].statuses.value.at + delay && s.now <= s.reading[r].rows.value.at + delay
  }

  /** The board a reader makes of its answers. */
  function Assembled(x: Reader, expiresAt: int): Cached
    requires x.statuses.Some? && x.rows.Some?
  {
    Cached(x.projectId, x.sprintId, Build(x.statuses.value.value, x.rows.value.value, x.projectId, x.sprintId),
           x.statuses.value, x.rows.value, expiresAt)
  }

  /** One step; None when it is not enabled. */
  function Step(delay: nat, s: State, e: Event): (r: Option<State>)
    requires s.history != []
    ensures r.Some? ==> r.value.history != []
  {
    var last := |s.history| - 1;
    match e
    case Tick(ms) => Some(s.(now := s.now + ms))
    case Write(db) => Some(s.(history := s.history + [Version(s.now, db)]))
    case DropKeys(keys) => Some(s.(cache := s.cache - keys))
    case Begin(r, p, sp) =>
      if r in s.reading || !PlainId(p) then None else Some(s.(reading := s.reading[r := Reader(p, sp, None, None)]))
    case QueryStatuses(r) =>
      if r !in s.reading || s.reading[r].statuses.Some? then None
      else Some(s.(reading := s.reading[r := s.reading[r].(statuses := Some(Answer(s.history[last].db.cfg, last, s.now)))]))
    case QueryIssues(r) =>
      if r !in s.reading || s.reading[r].rows.Some? then None
      else Some(s.(reading := s.reading[r := s.reading[r].(rows := Some(Answer(s.history[last].db.issues, last, s.now)))]))
    case Store(r) =>
      if !CanStore(delay, s, r) then None
      else
        var x := s.reading[r];
        Some(s.(reading := s.reading - {r},
                cache := s.cache[BoardKey(x.projectId, x.sprintId) := Assembled(x, s.now + BOARD_TTL_MS)]))
    case ReaderGone(r) => Some(s.(reading := s.reading - {r}))
  }

  function Exec(delay: nat, s: State, es: seq<Event>): (r: Option<State>)
    requires s.history != []
    ensures r.Some? ==> r.value.history != []
    decreases |es|
  {
    if es == [] then Some(s)
    else
      match Step(delay, s, es[0])
      case None => None
      case Some(s') => Exec(delay, s', es[1..])
  }

  /** Version v was the database at time t. */
  predicate CurrentAt(s: State, v: nat, t: int) {
    v < |s.history| && s.history[v].since <= t && (v + 1 < |s.history| ==> t <= s.history[v + 1].since)
  }

  // ---------------------------------------------------------------- every answer is honest

  ghost predicate HonestStatuses(s: State, a: Answer<Config>) {
    CurrentAt(s, a.version, a.at) && a.at <= s.now && a.value == s.history[a.version].db.cfg
  }

  ghost predicate HonestRows(s: State, a: Answer<map<string, Issue>>) {
    CurrentAt(s, a.version, a.at) && a.at <= s.now && a.value == s.history[a.version].db.issues
  }

  ghost predicate HonestReader(s: State, x: Reader) {
    && PlainId(x.projectId)
    && (x.statuses.Some? ==> HonestStatuses(s, x.statuses.value))
    && (x.rows.Some? ==> HonestRows(s, x.rows.value))
  }

  ghost predicate HonestBoard(delay: nat, s: State, key: string, b: Cached) {
    && PlainId(b.projectId) && key == BoardKey(b.projectId, b.sprintId)
    && HonestStatuses(s, b.statuses) && HonestRows(s, b.rows)
    && b.board == Build(b.statuses.value, b.rows.value, b.projectId, b.sprintId)
    && b.expiresAt <= b.statuses.at + delay + BOARD_TTL_MS && b.expiresAt <= b.rows.at + delay + BOARD_TTL_MS
  }

  ghost predicate Clocked(s: State) {
    s.history != [] && s.history[|s.history| - 1].since <= s.now
  }

  ghost predicate Inv(delay: nat, s: State) {
    && Clocked(s)
    && (forall r :: r in s.reading ==> HonestReader(s, s.reading[r]))
    && (forall k :: k in s.cache ==> HonestBoard(delay, s, k, s.cache[k]))
  }

  /** Time has passed, and perhaps one write. */
  ghost predicate Later(s: State, s': State) {
    && Clocked(s) && s.now <= s'.now
    && (s'.history == s.history || exists db :: s'.history == s.history + [Version(s.now, db)])
  }

  lemma HonestLater(delay: nat, s: State, s': State)
    requires Later(s, s')
    ensures Clocked(s')
    ensures forall a :: HonestStatuses(s, a) ==> HonestStatuses(s', a)
    ensures forall a :: HonestRows(s, a) ==> HonestRows(s', a)
    ensures forall x :: HonestReader(s, x) ==> HonestReader(s', x)
    ensures forall k, b :: HonestBoard(delay, s, k, b) ==> HonestBoard(delay, s', k, b)
  {
    hide Build, BoardKey, PlainId;
    if s'.history != s.history { assert s'.history[|s.history|].since == s.now; }
    forall v: nat, t | CurrentAt(s, v, t) && t <= s.now ensures CurrentAt(s', v, t) && s'.history[v] == s.history[v] {}
  }

  lemma StepLater(delay: nat, s: State, e: Event)
    requires Clocked(s) && Step(delay, s, e).Some?
    ensures Later(s, Step(delay, s, e).value)
  {
    hide BoardKey, Build, PlainId;
    if e.Write? { assert Step(delay, s, e).value.history == s.history + [Version(s.now, e.db)]; }
  }

  lemma StepInv(delay: nat, s: State, e: Event)
    requires Inv(delay, s) && Step(delay, s, e).Some?
    ensures Inv(delay, Step(delay, s, e).value)
  {
    var s' := Step(delay, s, e).value;
    StepLater(delay, s, e);
    HonestLater(delay, s, s');
    hide BoardKey, Build, PlainId, Later;
    forall r | r in s'.reading ensures HonestReader(s', s'.reading[r]) {
      assert r in s.reading ==> HonestReader(s', s.reading[r]);
    }
    forall k | k in s'.cache ensures HonestBoard(delay, s', k, s'.cache[k]) {
      assert k in s.cache ==> HonestBoard(delay, s', k, s.cache[k]);
      if e.Store? { assert HonestReader(s', s.reading[e.reader]); }
    }
  }

  /** Requests for a sprint named "backlog" occur only if clash. */
  predicate InScope(clash: bool, e: Event) {
    e.Begin? && e.sprintId == Some("backlog") ==> clash
  }

  ghost predicate Asked(clash: bool, s: State) {
    && (forall r :: r in s.reading && s.reading[r].sprintId == Some("backlog") ==> clash)
    && (forall k :: k in s.cache && s.cache[k].sprintId == Some("backlog") ==> clash)
  }

  lemma StepAsked(delay: nat, s: State, e: Event, clash: bool)
    requires s.history != [] && Step(delay, s, e).Some? && Asked(clash, s) && InScope(clash, e)
    ensures Asked(clash, Step(delay, s, e).value)
  {
    hide BoardKey, Build, PlainId;
  }

  lemma {:induction false} ExecInv(delay: nat, s: State, es: seq<Event>, clash: bool)
    requires Inv(delay, s) && Asked(clash, s) && Exec(delay, s, es).Some? && forall e :: e in es ==> InScope(clash, e)
    ensures Inv(delay, Exec(delay, s, es).value) && Asked(clash, Exec(delay, s, es).value)
    decreases |es|
  {
    if es != [] {
      assert es[0] in es && forall e :: e in es[1..] ==> e in es;
      StepInv(delay, s, es[0]);
      StepAsked(delay, s, es[0], clash);
      hide Step, Asked, InScope, HonestReader, HonestBoard;
      ExecInv(delay, Step(delay, s, es[0]).value, es[1..], clash);
    }
  }

  /** No event has been handled yet. */
  ghost predicate Start(s: State) {
    Clocked(s) && s.cache == map[] && s.reading == map[]
  }

  /** A board of one set of issues is the same under two configurations iff these give the
      project the same columns. */
  lemma SameColumnsIff(a: Config, b: Config, issues: map<string, Issue>, p: string, s: Option<string>)
    ensures Build(a, issues, p, s) == Build(b, issues, p, s) <==> ColumnsOf(a, p) == ColumnsOf(b, p)
  {
    OtherColumns(a, issues, b, issues, p, s);
    hide Cards;
  }

  /** t lies in the last 300 seconds, plus the longest delay from query to store. */
  predicate Recent(delay: nat, s: State, t: int) {
    s.now - BOARD_TTL_MS - delay < t <= s.now
  }

  /** The board has the columns of version v, current at t, and the cards of version u, current
      at x; and it is all of version u if and only if the columns are. */
  ghost predicate StoodAt(s: State, board: Board, p: string, sp: Option<string>, v: nat, t: int, u: nat, x: int) {
    && CurrentAt(s, v, t) && CurrentAt(s, u, x)
    && var was, db := s.history[v].db, s.history[u].db;
    && board == Build(was.cfg, db.issues, p, sp)
    && (board == Build(db.cfg, db.issues, p, sp) <==> ColumnsOf(was.cfg, p) == ColumnsOf(db.cfg, p))
  }

  lemma BoardStood(delay: nat, s: State, key: string, b: Cached)
    requires HonestBoard(delay, s, key, b) && s.now < b.expiresAt
    ensures StoodAt(s, b.board, b.projectId, b.sprintId, b.statuses.version, b.statuses.at, b.rows.version, b.rows.at)
    ensures Recent(delay, s, b.statuses.at) && Recent(delay, s, b.rows.at)
  {
    SameColumnsIff(b.statuses.value, s.history[b.rows.version].db.cfg, b.rows.value, b.projectId, b.sprintId);
    hide Build, BoardKey, PlainId, ColumnsOf;
  }

  /** Whatever changes the database, a cached board served at time now has the columns of the
      database at one instant and the cards of the database at another, both within the last 300
      seconds plus the query-to-store delay.  It is the board of the latter instant if and only
      if the project's columns were the same at both. */
  lemma StalenessBound(delay: nat, start: State, es: seq<Event>, clash: bool, p: string, sp: Option<string>)
    requires Start(start) && Exec(delay, start, es).Some? && forall e :: e in es ==> InScope(clash, e)
    requires PlainId(p) && BoardCache.Covered(clash, sp)
    ensures var s := Exec(delay, start, es).value; var key := BoardKey(p, sp);
      key in s.cache && s.now < s.cache[key].expiresAt ==>
      exists v: nat, t: int, u: nat, x: int ::
        StoodAt(s, s.cache[key].board, p, sp, v, t, u, x) && Recent(delay, s, t) && Recent(delay, s, x)
  {
    ExecInv(delay, start, es, clash);
    var s := Exec(delay, start, es).value;
    var key := BoardKey(p, sp);
    if key in s.cache && s.now < s.cache[key].expiresAt {
      var b := s.cache[key];
      assert HonestBoard(delay, s, key, b);
      assert b.projectId == p && b.sprintId == sp by { BoardKeyClash(p, sp, b.projectId, b.sprintId); }
      BoardStood(delay, s, key, b);
    }
    hide *;
  }

  // ---------------------------------------------------------------- what the gaps between the steps allow

  lemma {:induction false} Unroll(delay: nat, s: State, es: seq<Event>, ss: seq<State>)
    requires |ss| == |es| + 1 && ss[0] == s && forall i :: 0 <= i < |ss| ==> ss[i].history != []
    requires forall i :: 0 <= i < |es| ==> Step(delay, ss[i], es[i]) == Some(ss[i + 1])
    ensures Exec(delay, s, es) == Some(ss[|es|])
    decreases |es|
  {
    if es != [] {
      forall i | 0 <= i < |es[1..]| ensures Step(delay, ss[1..][i], es[1..][i]) == Some(ss[1..][i + 1]) {
        assert Step(delay, ss[i + 1], es[i + 1]) == Some(ss[i + 2]);
      }
      hide Step;
      Unroll(delay, ss[1], es[1..], ss[1..]);
    }
  }

  /** A read during which the given versions are written after its statuses query, and others
      after its issue query. */
  lemma SlowRead(delay: nat, s: State, r: nat, p: string, sp: Option<string>, mid: seq<Event>, s3: State, last: seq<Event>, s5: State)
    requires s.history != [] && r !in s.reading && PlainId(p)
    requires var x := Reader(p, sp, Some(Answer(Current(s).cfg, |s.history| - 1, s.now)), None);
      && s3.history != [] && s3.now == s.now && r in s3.reading && s3.reading[r] == x
      && Exec(delay, s.(reading := s.reading[r := x]), mid) == Some(s3)
    requires var y := s3.reading[r].(rows := Some(Answer(Current(s3).issues, |s3.history| - 1, s3.now)));
      && s5.history != [] && s5.now == s3.now && r in s5.reading && s5.reading[r] == y
      && Exec(delay, s3.(reading := s3.reading[r := y]), last) == Some(s5)
    ensures var e := Exec(delay, s, [Begin(r, p, sp), QueryStatuses(r)] + mid + [QueryIssues(r)] + last + [Store(r)]);
      && e.Some? && BoardKey(p, sp) in e.value.cache && e.value.now == s.now && e.value.history == s5.history
      && e.value.cache[BoardKey(p, sp)].board == Build(Current(s).cfg, Current(s3).issues, p, sp)
      && e.value.cache[BoardKey(p, sp)].expiresAt == s.now + BOARD_TTL_MS
  {
    hide BoardKey, Build, PlainId, Exec, Step;
    var x := Reader(p, sp, Some(Answer(Current(s).cfg, |s.history| - 1, s.now)), None);
    Opening(delay, s, r, p, sp);
    Finishing(delay, s3, r, s5);
    var a := [Begin(r, p, sp), QueryStatuses(r)];
    ExecAppend(delay, s, a, mid);
    ExecAppend(delay, s, a + mid, [QueryIssues(r)]);
    ExecAppend(delay, s, a + mid + [QueryIssues(r)], last);
    ExecAppend(delay, s, a + mid + [QueryIssues(r)] + last, [Store(r)]);
  }

  lemma Opening(delay: nat, s: State, r: nat, p: string, sp: Option<string>)
    requires s.history != [] && r !in s.reading && PlainId(p)
    ensures Exec(delay, s, [Begin(r, p, sp), QueryStatuses(r)]) ==
      Some(s.(reading := s.reading[r := Reader(p, sp, Some(Answer(Current(s).cfg, |s.history| - 1, s.now)), None)]))
  {
    hide BoardKey, Build, PlainId;
    var s1 := Step(delay, s, Begin(r, p, sp)).value;
    var s2 := Step(delay, s1, QueryStatuses(r)).value;
    assert s2.reading == s.reading[r := s2.reading[r]];
    Unroll(delay, s, [Begin(r, p, sp), QueryStatuses(r)], [s, s1, s2]);
  }

  lemma Finishing(delay: nat, s3: State, r: nat, s5: State)
    requires s3.history != [] && r in s3.reading && s3.reading[r].rows.None?
    requires s5.history != [] && CanStore(delay, s5, r)
    ensures Exec(delay, s3, [QueryIssues(r)]) ==
      Some(s3.(reading := s3.reading[r := s3.reading[r].(rows := Some(Answer(Current(s3).issues, |s3.history| - 1, s3.now)))]))
    ensures var e := Exec(delay, s5, [Store(r)]);
      && e.Some? && e.value.now == s5.now && e.value.history == s5.history
      && var key := BoardKey(s5.reading[r].projectId, s5.reading[r].sprintId);
      && key in e.value.cache && e.value.cache[key] == Assembled(s5.reading[r], s5.now + BOARD_TTL_MS)
  {
    hide BoardKey, Build, PlainId;
    Unroll(delay, s3, [QueryIssues(r)], [s3, Step(delay, s3, QueryIssues(r)).value]);
    Unroll(delay, s5, [Store(r)], [s5, Step(delay, s5, Store(r)).value]);
  }

  lemma {:induction false} ExecAppend(delay: nat, s: State, es: seq<Event>, fs: seq<Event>)
    requires s.history != [] && Exec(delay, s, es).Some?
    ensures Exec(delay, s, es + fs) == Exec(delay, Exec(delay, s, es).value, fs)
    decreases |es|
  {
    hide Step;
    if es == [] {
      assert [] + fs == fs;
    } else {
      ExecAppend(delay, Step(delay, s, es[0]).value, es[1..], fs);
      assert (es + fs)[1..] == es[1..] + fs;
    }
  }

  /** A write whose invalidation runs between a reader's queries and its store leaves the old
      board cached, and it is served until just before it expires. */
  lemma RaceServesOldBoard(delay: nat, s: State, r: nat, p: string, sp: Option<string>, db: Db, keys: set<string>, wait: nat)
    requires s.history != [] && r !in s.reading && PlainId(p) && wait < BOARD_TTL_MS
    ensures var e := Exec(delay, s, [Begin(r, p, sp), QueryStatuses(r)] + [] + [QueryIssues(r)] + [Write(db), DropKeys(keys)] + [Store(r)] + [Tick(wait)]);
      var key := BoardKey(p, sp);
      && e.Some? && key in e.value.cache && e.value.now < e.value.cache[key].expiresAt
      && Current(e.value) == db
      && e.value.cache[key].board == Build(Current(s).cfg, Current(s).issues, p, sp)
  {
    hide BoardKey, Build, PlainId;
    var es := [Begin(r, p, sp), QueryStatuses(r)] + [] + [QueryIssues(r)] + [Write(db), DropKeys(keys)] + [Store(r)];
    var x := Reader(p, sp, Some(Answer(Current(s).cfg, |s.history| - 1, s.now)), None);
    var s3 := s.(reading := s.reading[r := x]);
    var y := x.(rows := Some(Answer(Current(s).issues, |s.history| - 1, s.now)));
    var s4 := s3.(reading := s3.reading[r := y]);
    var s5 := s4.(history := s.history + [Version(s.now, db)]);
    var s6 := s5.(cache := s5.cache - keys);
    Unroll(delay, s4, [Write(db), DropKeys(keys)], [s4, s5, s6]);
    SlowRead(delay, s, r, p, sp, [], s3, [Write(db), DropKeys(keys)], s6);
    var e := Exec(delay, s, es).value;
    Unroll(delay, e, [Tick(wait)], [e, e.(now := e.now + wait)]);
    ExecAppend(delay, s, es, [Tick(wait)]);
  }

  /** Two writes between the two queries can leave a board that the database never had: a
      status is renamed, then an issue edited, and the board shows the old column with the new
      card. */
  lemma TornBoard(delay: nat, s: State, r: nat, p: string, sp: Option<string>, d1: Db, d2: Db)
    requires s.history != [] && r !in s.reading && PlainId(p)
    requires ColumnsOf(d1.cfg, p) != ColumnsOf(Current(s).cfg, p) && ColumnsOf(d2.cfg, p) != ColumnsOf(Current(s).cfg, p)
    requires Build(Current(s).cfg, d2.issues, p, sp) != Build(Current(s).cfg, Current(s).issues, p, sp)
    ensures var e := Exec(delay, s, [Begin(r, p, sp), QueryStatuses(r)] + [Write(d1), Write(d2)] + [QueryIssues(r)] + [] + [Store(r)]);
      var key := BoardKey(p, sp);
      && e.Some? && key in e.value.cache
      && forall v :: |s.history| - 1 <= v < |e.value.history| ==>
           e.value.cache[key].board != Build(e.value.history[v].db.cfg, e.value.history[v].db.issues, p, sp)
  {
    hide BoardKey, Build, PlainId, ColumnsOf, Exec;
    TornRun(delay, s, r, p, sp, d1, d2);
    OtherColumns(Current(s).cfg, d2.issues, d1.cfg, d1.issues, p, sp);
    OtherColumns(Current(s).cfg, d2.issues, d2.cfg, d2.issues, p, sp);
  }

  lemma TornRun(delay: nat, s: State, r: nat, p: string, sp: Option<string>, d1: Db, d2: Db)
    requires s.history != [] && r !in s.reading && PlainId(p)
    ensures var e := Exec(delay, s, [Begin(r, p, sp), QueryStatuses(r)] + [Write(d1), Write(d2)] + [QueryIssues(r)] + [] + [Store(r)]);
      && e.Some? && BoardKey(p, sp) in e.value.cache
      && e.value.history == s.history + [Version(s.now, d1), Version(s.now, d2)]
      && e.value.cache[BoardKey(p, sp)].board == Build(Current(s).cfg, d2.issues, p, sp)
  {
    hide BoardKey, Build, PlainId;
    var x := Reader(p, sp, Some(Answer(Current(s).cfg, |s.history| - 1, s.now)), None);
    var s2 := s.(reading := s.reading[r := x]);
    var s3 := s2.(history := s.history + [Version(s.now, d1)]);
    var s4 := s3.(history := s3.history + [Version(s.now, d2)]);
    Unroll(delay, s2, [Write(d1), Write(d2)], [s2, s3, s4]);
    var y := x.(rows := Some(Answer(d2.issues, |s4.history| - 1, s.now)));
    var s5 := s4.(reading := s4.reading[r := y]);
    assert Exec(delay, s5, []) == Some(s5);
    hide Exec, Step;
    SlowRead(delay, s, r, p, sp, [Write(d1), Write(d2)], s4, [], s5);
  }

  /** Boards with different columns differ. */
  lemma OtherColumns(a: Config, x: map<string, Issue>, b: Config, y: map<string, Issue>, p: string, s: Option<string>)
    ensures ColumnsOf(a, p) != ColumnsOf(b, p) ==> Build(a, x, p, s) != Build(b, y, p, s)
  {
    var m, n := ColumnsOf(a, p), ColumnsOf(b, p);
    if Build(a, x, p, s) == Build(b, y, p, s) {
      assert |Build(a, x, p, s).columns| == |m| && |Build(b, y, p, s).columns| == |n|;
      forall i | 0 <= i < |m| ensures m[i] == n[i] {
        assert Build(a, x, p, s).columns[i].0 == m[i] && Build(b, y, p, s).columns[i].0 == n[i];
      }
    }
  }
}
