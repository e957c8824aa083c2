/** The three cursor-paginated endpoints over SQL tables: issues, activity feed, comments. */
module Listings {
  import opened Ordering
  import opened Wrappers
  import opened KeysetPaging
  import CursorCodec
  import IsoDates

  /** A table row: its sort key, and its other columns (a missing column is NULL). */
  datatype Row = Row(key: Key, cols: map<string, string>)

  /** An equality filter; None stands for IS NULL. */
  type Where = map<string, Option<string>>

  predicate Holds(w: Where, r: Row) {
    forall c | c in w :: ColumnIs(w[c], c, r)
  }

  /** Primary keys are unique, and as UUIDs they contain no underscore; creation times lie in
      the years 1970 to 9999. */
  ghost predicate ValidTable(table: seq<Row>) {
    && (forall i, j :: 0 <= i < j < |table| ==> table[i].key.id != table[j].key.id)
    && forall r :: r in table ==> CanBeCursor(r.key)
  }

  ghost predicate CanBeCursor(k: Key) {
    CursorCodec.CleanId(k.id) && Dated(k.t / 1000)
  }

  /** toISOString gives the date its plain four-digit-year form. */
  predicate Dated(ms: int) {
    0 <= ms < IsoDates.END_MS
  }

  function Matching(table: seq<Row>, w: Where, m: Mode, c: Option<Cursor>): (ks: seq<Key>)
    ensures forall k :: k in ks <==> exists r :: r in table && r.key == k && Holds(w, r) && After(m, c, k)
  {
    if table == [] then []
    else
      var rest := Matching(table[1..], w, m, c);
      assert forall r :: r in table <==> r == table[0] || r in table[1..];
      if Holds(w, table[0]) && After(m, c, table[0].key) then [table[0].key] + rest else rest
  }

  /** Every matching row, in listing order. */
  function Listing(m: Mode, table: seq<Row>, w: Where): seq<Key> {
    OrderBy(Dir(m), Matching(table, w, m, None))
  }

  /** LIMIT n */
  function Limit(rows: seq<Key>, n: nat): seq<Key> {
    if |rows| <= n then rows else rows[..n]
  }

  /** SELECT … WHERE … AND <cursor condition> ORDER BY … LIMIT n */
  function Query(m: Mode, table: seq<Row>, w: Where, c: Option<Cursor>, n: nat): seq<Key> {
    Limit(OrderBy(Dir(m), Matching(table, w, m, c)), n)
  }

  lemma {:induction false} MatchingUnique(table: seq<Row>, w: Where, m: Mode, c: Option<Cursor>)
    requires ValidTable(table)
    ensures UniqueIds(Matching(table, w, m, c))
  {
    if table != [] {
      MatchingUnique(table[1..], w, m, c);
      var rest := Matching(table[1..], w, m, c);
      forall j | 0 <= j < |rest| ensures rest[j].id != table[0].key.id {
        assert rest[j] in rest;
        var r :| r in table[1..] && r.key == rest[j];
      }
    }
  }

  lemma ListingSorted(m: Mode, table: seq<Row>, w: Where)
    requires ValidTable(table)
    ensures Sorted(Dir(m), Listing(m, table, w))
    ensures forall k :: k in Listing(m, table, w) <==> exists r :: r in table && r.key == k && Holds(w, r)
  {
    MatchingUnique(table, w, m, None);
    OrderBySorts(Dir(m), Matching(table, w, m, None));
  }

  /** A row of the table is listed iff it matches. */
  lemma ListedIff(m: Mode, table: seq<Row>, w: Where)
    requires ValidTable(table)
    ensures forall row :: row in table ==> (row.key in Listing(m, table, w) <==> Holds(w, row))
  {
    ListingSorted(m, table, w);
    forall row | row in table && row.key in Listing(m, table, w) ensures Holds(w, row) {
      var r :| r in table && r.key == row.key && Holds(w, r);
      var a :| 0 <= a < |table| && table[a] == r;
      var b :| 0 <= b < |table| && table[b] == row;
      assert r != row ==> a != b;
    }
  }

  /** The database's filter-then-sort is the rest of the listing after the cursor. */
  lemma QueryIsSuffix(m: Mode, table: seq<Row>, w: Where, c: Option<Cursor>)
    requires ValidTable(table)
    ensures OrderBy(Dir(m), Matching(table, w, m, c)) == Listing(m, table, w)[Skip(m, c, Listing(m, table, w))..]
  {
    var xs := Listing(m, table, w);
    var b := Skip(m, c, xs);
    var ks := Matching(table, w, m, c);
    ListingSorted(m, table, w);
    MatchingUnique(table, w, m, c);
    OrderBySorts(Dir(m), ks);
    SkipSplits(m, c, xs);
    SuffixMembers(m, c, xs, b);
    SortedUnique(Dir(m), OrderBy(Dir(m), ks), xs[b..]);
  }

  // ---------------------------------------------------------------- endpoints

  datatype Error = BadCursor

  datatype Reply = Reply(items: seq<Key>, nextCursor: Option<string>, hasMore: bool)

  predicate Truthy(s: Option<string>) { s.Some? && s.value != "" }

  /** encodeCursor(`${createdAt.toISOString()}__${id}`) */
  function Render(c: Cursor): string
    requires Dated(c.ms)
  {
    CursorCodec.EncodeCursor(IsoDates.Iso(c.ms) + "__" + c.id)
  }

  /** The database takes the texts toISOString writes for the instants they name.  What it makes
      of any other date text a client may send is left open. */
  ghost predicate ReadsIso(f: string -> Option<int>) {
    forall ms :: Dated(ms) ==> f(IsoDates.Iso(ms)) == Some(ms)
  }

  lemma ParseIsoReads()
    ensures ReadsIso(IsoDates.ParseIso)
  {
    forall ms | Dated(ms) ensures IsoDates.ParseIso(IsoDates.Iso(ms)) == Some(ms) { IsoDates.IsoRoundTrip(ms); }
  }

  type DateReader = f: string -> Option<int> | ReadsIso(f) witness (ParseIsoReads(); IsoDates.ParseIso)

  /** None: the database takes the decoded text for no date, and rejects the query. */
  function Parse(dates: DateReader, s: string): Option<Cursor> {
    var (date, id) := CursorCodec.SplitCursor(CursorCodec.DecodeCursor(s));
    var ms := dates(date);
    if ms.None? then None else Some(Cursor(ms.value, id))
  }

  predicate Refused(dates: DateReader, cursor: Option<string>) {
    Truthy(cursor) && Parse(dates, cursor.value).None?
  }

  /** Where a request with this cursor starts. */
  function From(dates: DateReader, cursor: Option<string>): Option<Cursor> {
    if Truthy(cursor) then Parse(dates, cursor.value) else None
  }

  /** Every cursor a database listing hands out reads back as itself. */
  lemma RenderParse(dates: DateReader, c: Cursor)
    requires CursorCodec.CleanId(c.id) && Dated(c.ms)
    ensures Parse(dates, Render(c)) == Some(c)
  {
    CursorCodec.EncodedSplitRoundTrip(IsoDates.Iso(c.ms), c.id);
  }

  /** A cursor text is never empty. */
  lemma RenderTruthy(c: Cursor)
    requires CursorCodec.CleanId(c.id) && Dated(c.ms)
    ensures Render(c) != ""
  {
    CursorCodec.EncodedSplitRoundTrip(IsoDates.Iso(c.ms), c.id);
    assert CursorCodec.SplitCursor(CursorCodec.DecodeCursor("")) == ("", "");
    hide CursorCodec.SplitCursor, CursorCodec.DecodeCursor, CursorCodec.EncodeCursor, IsoDates.Iso;
  }

  /** A page whose cursor can be rendered and read back. */
  ghost predicate Renders(p: Page) {
    p.next.Some? ==> CursorCodec.CleanId(p.next.value.id) && Dated(p.next.value.ms)
  }

  function ReplyOf(p: Page): Reply
    requires Renders(p)
  {
    Reply(p.items, if p.next.Some? then Some(Render(p.next.value)) else None, p.hasMore)
  }

  /** The reply carries exactly this page, its cursor as text. */
  ghost predicate Carries(r: Reply, p: Page) {
    Renders(p) && r == ReplyOf(p)
  }

  /** Following the reply's cursor text is following the page's cursor. */
  lemma CarriedCursor(dates: DateReader, r: Reply, p: Page)
    requires Carries(r, p)
    ensures From(dates, r.nextCursor) == p.next && !Refused(dates, r.nextCursor)
    ensures r.nextCursor.Some? <==> p.next.Some?
  {
    if p.next.Some? {
      RenderParse(dates, p.next.value);
      RenderTruthy(p.next.value);
    }
    hide Parse, Render;
  }

  /** The part the three endpoints share: decode the cursor, fetch limit + 1 rows, trim. */
  method FetchPage(dates: DateReader, m: Mode, table: seq<Row>, w: Where, cursor: Option<string>, limit: nat)
      returns (r: Result<Reply, Error>)
    requires ValidTable(table) && !m.ByIndex?
    ensures r.Err? <==> Refused(dates, cursor)
    ensures r.Ok? ==> Carries(r.value, PageOf(m, Listing(m, table, w), From(dates, cursor), limit))
  {
    var c: Option<Cursor> := None;
    if Truthy(cursor) {
      c := Parse(dates, cursor.value);
      if c.None? { return Err(BadCursor); }
    }
    var rows := Query(m, table, w, c, limit + 1);
    var hasMore := |rows| > limit;
    var items := if hasMore then rows[..|rows| - 1] else rows;
    var next: Option<string> := None;
    QueryRows(m, table, w, c, limit + 1);
    assert items != [] ==> items[|items| - 1] == rows[|items| - 1] && CanBeCursor(items[|items| - 1]);
    if hasMore && items != [] {
      next := Some(Render(CursorOf(m, items[|items| - 1])));
    }
    TrimIsPage(m, table, w, c, limit, rows, items, next);
    return Ok(Reply(items, next, hasMore));
  }

  lemma QueryRows(m: Mode, table: seq<Row>, w: Where, c: Option<Cursor>, n: nat)
    requires ValidTable(table)
    ensures forall k :: k in Query(m, table, w, c, n) ==> CanBeCursor(k)
  {
    var ks := Matching(table, w, m, c);
    MatchingUnique(table, w, m, c);
    OrderBySorts(Dir(m), ks);
    forall k | k in ks ensures CanBeCursor(k) {}
    assert forall k :: k in Query(m, table, w, c, n) ==> k in OrderBy(Dir(m), ks);
  }

  lemma TrimIsPage(m: Mode, table: seq<Row>, w: Where, c: Option<Cursor>, limit: nat,
                   rows: seq<Key>, items: seq<Key>, next: Option<string>)
    requires ValidTable(table) && rows == Query(m, table, w, c, limit + 1) && !m.ByIndex?
    requires items == if |rows| > limit then rows[..|rows| - 1] else rows
    requires items != [] ==> CanBeCursor(items[|items| - 1])
    requires next == if |rows| > limit && items != [] then Some(Render(CursorOf(m, items[|items| - 1]))) else None
    ensures Carries(Reply(items, next, |rows| > limit), PageOf(m, Listing(m, table, w), c, limit))
  {
    hide Render, Skip, Matching, OrderBy, Listing, ValidTable, CursorCodec.CleanId;
    var xs := Listing(m, table, w);
    var b := Skip(m, c, xs);
    assert rows == Limit(xs[b..], limit + 1) by { QueryIsSuffix(m, table, w, c); }
    TrimRows(m, xs, b, limit);
  }

  lemma TrimRows(m: Mode, xs: seq<Key>, b: nat, limit: nat)
    requires b <= |xs|
    ensures var rows := Limit(xs[b..], limit + 1);
      var items := if |rows| > limit then rows[..|rows| - 1] else rows;
      && items == PageAt(m, xs, b, limit).items && (|rows| > limit <==> b + limit < |xs|)
      && (b + limit < |xs| && limit > 0 ==> items != [] && items[|items| - 1] == xs[b + limit - 1])
      && (b + limit < |xs| && limit == 0 ==> items == [])
  {
    if b + limit < |xs| {
      assert xs[b..][..limit + 1] == xs[b..b + limit + 1];
      assert xs[b..b + limit + 1][..limit] == xs[b..b + limit];
    }
  }

  predicate ColumnIs(v: Option<string>, col: string, r: Row) {
    if v.None? then col !in r.cols else col in r.cols && r.cols[col] == v.value
  }

  /** One more andWhere. */
  function AndWhere(w: Where, col: string, v: Option<string>): (w': Where)
    requires col !in w
    ensures w'.Keys == w.Keys + {col}
    ensures forall r :: Holds(w', r) <==> Holds(w, r) && ColumnIs(v, col, r)
  {
    var w' := w[col := v];
    assert forall r :: Holds(w', r) <==> Holds(w, r) && ColumnIs(v, col, r) by {
      forall r ensures Holds(w', r) <==> Holds(w, r) && ColumnIs(v, col, r) {
        assert forall c :: c in w ==> c in w' && w'[c] == w[c];
        assert col in w' && w'[col] == v;
      }
    }
    w'
  }

  /** if (f) qb.andWhere(col = f) */
  function OptionalWhere(w: Where, col: string, f: Option<string>): (w': Where)
    requires col !in w
    ensures w'.Keys <= w.Keys + {col}
    ensures forall r :: Holds(w', r) <==> Holds(w, r) && Optional(f, col, r)
  {
    if Truthy(f) then AndWhere(w, col, f) else w
  }

  datatype IssueFilters = IssueFilters(
    statusId: Option<string>, assigneeId: Option<string>, kind: Option<string>,
    sprintId: Option<Option<string>>)

  /** One optional equality filter: absent and empty values do not filter. */
  predicate Optional(f: Option<string>, col: string, r: Row) {
    Truthy(f) ==> col in r.cols && r.cols[col] == f.value
  }

  /** A given sprint filter of null or "" asks for the backlog. */
  predicate SprintFilter(f: Option<Option<string>>, r: Row) {
    f.Some? ==> ColumnIs(if Truthy(f.value) then f.value else None, "sprintId", r)
  }

  predicate IssueMatches(projectId: string, f: IssueFilters, r: Row) {
    && ColumnIs(Some(projectId), "projectId", r) && ColumnIs(None, "deletedAt", r)
    && Optional(f.statusId, "statusId", r) && Optional(f.assigneeId, "assigneeId", r)
    && Optional(f.kind, "type", r) && SprintFilter(f.sprintId, r)
  }

  /** listFromDb */
  method ListIssues(dates: DateReader, table: seq<Row>, projectId: string, f: IssueFilters, cursor: Option<string>, limit: nat)
      returns (r: Result<Reply, Error>, ghost w: Where)
    requires ValidTable(table)
    ensures forall row :: Holds(w, row) <==> IssueMatches(projectId, f, row)
    ensures forall row :: row in table ==> (row.key in Listing(ByDbDesc, table, w) <==>
      && "projectId" in row.cols && row.cols["projectId"] == projectId && "deletedAt" !in row.cols
      && Optional(f.statusId, "statusId", row) && Optional(f.assigneeId, "assigneeId", row) && Optional(f.kind, "type", row)
      && SprintFilter(f.sprintId, row))
    ensures r.Err? <==> Refused(dates, cursor)
    ensures r.Ok? ==> Carries(r.value, PageOf(ByDbDesc, Listing(ByDbDesc, table, w), From(dates, cursor), limit))
  {
    var where: Where := map[];
    assert forall row :: Holds(where, row);
    hide Holds, Carries, PageOf, Refused, From, Listing, Optional, SprintFilter;
    where := AndWhere(where, "projectId", Some(projectId));
    where := AndWhere(where, "deletedAt", None);
    where := OptionalWhere(where, "statusId", f.statusId);
    where := OptionalWhere(where, "assigneeId", f.assigneeId);
    where := OptionalWhere(where, "type", f.kind);
    if f.sprintId.Some? {
      where := AndWhere(where, "sprintId", if Truthy(f.sprintId.value) then f.sprintId.value else None);
    }
    w := where;
    assert forall row :: row in table ==> (row.key in Listing(ByDbDesc, table, w) <==> Holds(w, row)) by { ListedIff(ByDbDesc, table, w); }
    r := FetchPage(dates, ByDbDesc, table, where, cursor, limit);
  }

  datatype ActivityFilters = ActivityFilters(entityType: Option<string>, entityId: Option<string>, actorId: Option<string>)

  predicate ActivityMatches(projectId: string, f: ActivityFilters, r: Row) {
    && ColumnIs(Some(projectId), "projectId", r)
    && Optional(f.entityType, "entityType", r) && Optional(f.entityId, "entityId", r) && Optional(f.actorId, "actorId", r)
  }

  /** ActivityRepository.listByProject */
  method ListActivity(dates: DateReader, table: seq<Row>, projectId: string, f: ActivityFilters, cursor: Option<string>, limit: nat)
      returns (r: Result<Reply, Error>, ghost w: Where)
    requires ValidTable(table)
    ensures forall row :: Holds(w, row) <==> ActivityMatches(projectId, f, row)
    ensures forall row :: row in table ==> (row.key in Listing(ByDbDesc, table, w) <==>
      && "projectId" in row.cols && row.cols["projectId"] == projectId
      && Optional(f.entityType, "entityType", row) && Optional(f.entityId, "entityId", row) && Optional(f.actorId, "actorId", row))
    ensures r.Err? <==> Refused(dates, cursor)
    ensures r.Ok? ==> Carries(r.value, PageOf(ByDbDesc, Listing(ByDbDesc, table, w), From(dates, cursor), limit))
  {
    var where: Where := map[];
    assert forall row :: Holds(where, row);
    hide Holds, Carries, PageOf, Refused, From, Listing, Optional, SprintFilter;
    where := AndWhere(where, "projectId", Some(projectId));
    where := OptionalWhere(where, "entityType", f.entityType);
    where := OptionalWhere(where, "entityId", f.entityId);
    where := OptionalWhere(where, "actorId", f.actorId);
    w := where;
    assert forall row :: row in table ==> (row.key in Listing(ByDbDesc, table, w) <==> Holds(w, row)) by { ListedIff(ByDbDesc, table, w); }
    r := FetchPage(dates, ByDbDesc, table, where, cursor, limit);
  }

  predicate TopLevelComment(issueId: string, r: Row) {
    ColumnIs(Some(issueId), "issueId", r) && ColumnIs(None, "parentId", r) && ColumnIs(None, "deletedAt", r)
  }

  /** CommentRepository.listByIssue */
  method ListComments(dates: DateReader, table: seq<Row>, issueId: string, cursor: Option<string>, limit: nat)
      returns (r: Result<Reply, Error>, ghost w: Where)
    requires ValidTable(table)
    ensures forall row :: Holds(w, row) <==> TopLevelComment(issueId, row)
    ensures forall row :: row in table ==> (row.key in Listing(ByDbAsc, table, w) <==>
      && "issueId" in row.cols && row.cols["issueId"] == issueId && "parentId" !in row.cols && "deletedAt" !in row.cols)
    ensures r.Err? <==> Refused(dates, cursor)
    ensures r.Ok? ==> Carries(r.value, PageOf(ByDbAsc, Listing(ByDbAsc, table, w), From(dates, cursor), limit))
  {
    var where: Where := map[];
    assert forall row :: Holds(where, row);
    hide Holds, Carries, PageOf, Refused, From, Listing;
    where := AndWhere(where, "issueId", Some(issueId));
    where := AndWhere(where, "parentId", None);
    where := AndWhere(where, "deletedAt", None);
    w := where;
    assert forall row :: row in table ==> (row.key in Listing(ByDbAsc, table, w) <==> Holds(w, row)) by { ListedIff(ByDbAsc, table, w); }
    r := FetchPage(dates, ByDbAsc, table, where, cursor, limit);
  }

  // ---------------------------------------------------------------- following nextCursor

  /** The items of all replies, one after the other. */
  function Items(rs: seq<Reply>): seq<Key> {
    if rs == [] then [] else rs[0].items + Items(rs[1..])
  }

  lemma PageRenders(m: Mode, table: seq<Row>, w: Where, c: Option<Cursor>, limit: nat)
    requires ValidTable(table) && !m.ByIndex?
    ensures Renders(PageOf(m, Listing(m, table, w), c, limit))
  {
    var xs := Listing(m, table, w);
    ListingSorted(m, table, w);
    var b := Skip(m, c, xs);
    if limit > 0 && b + limit < |xs| { assert xs[b + limit - 1] in xs; }
  }

  /** The reply to a request that starts at c. */
  function ReplyAt(m: Mode, table: seq<Row>, w: Where, c: Option<Cursor>, limit: nat): Reply
    requires ValidTable(table) && !m.ByIndex?
  {
    PageRenders(m, table, w, c, limit);
    ReplyOf(PageOf(m, Listing(m, table, w), c, limit))
  }

  /** The client's loop over an unchanging table: send each reply's nextCursor text back until
      there is none, at most fuel times. */
  function Follow(dates: DateReader, m: Mode, table: seq<Row>, w: Where, cursor: Option<string>, limit: nat, fuel: nat): seq<Reply>
    requires ValidTable(table) && !m.ByIndex?
    decreases fuel
  {
    if fuel == 0 || Refused(dates, cursor) then []
    else
      var r := ReplyAt(m, table, w, From(dates, cursor), limit);
      [r] + if r.nextCursor.Some? then Follow(dates, m, table, w, r.nextCursor, limit, fuel - 1) else []
  }

  ghost predicate Matches(rs: seq<Reply>, ps: seq<Page>) {
    |rs| == |ps| && (forall i :: 0 <= i < |rs| ==> Carries(rs[i], ps[i])) && Items(rs) == Concat(ps)
  }

  lemma MatchesCons(r: Reply, p: Page, rs: seq<Reply>, ps: seq<Page>)
    requires Carries(r, p) && Matches(rs, ps)
    ensures Matches([r] + rs, [p] + ps)
  {
    CarriesMeans(r, p);
    hide Carries;
    assert ([r] + rs)[1..] == rs && ([p] + ps)[1..] == ps;
  }

  /** Reply by reply the loop is the traversal of the listing. */
  lemma {:induction false} FollowIsTraverse(dates: DateReader, m: Mode, table: seq<Row>, w: Where, cursor: Option<string>, limit: nat, fuel: nat)
    requires ValidTable(table) && !m.ByIndex? && !Refused(dates, cursor)
    ensures Matches(Follow(dates, m, table, w, cursor, limit, fuel), Traverse(m, Listing(m, table, w), From(dates, cursor), limit, fuel))
    decreases fuel
  {
    hide Follow, Traverse, PageOf, Listing, From, Refused, ReplyAt, Carries, Matches, ValidTable;
    if fuel > 0 {
      var c := From(dates, cursor);
      var p, r := PageOf(m, Listing(m, table, w), c, limit), ReplyAt(m, table, w, c, limit);
      NextRequest(dates, m, table, w, c, limit);
      UnfoldFollow(dates, m, table, w, cursor, limit, fuel);
      var rs, ps: seq<Page> := [], [];
      if r.nextCursor.Some? {
        FollowIsTraverse(dates, m, table, w, r.nextCursor, limit, fuel - 1);
        rs, ps := Follow(dates, m, table, w, r.nextCursor, limit, fuel - 1), Traverse(m, Listing(m, table, w), p.next, limit, fuel - 1);
      } else {
        NothingMatches();
      }
      MatchesCons(r, p, rs, ps);
    } else {
      NothingMatches();
      NoFuel(dates, m, table, w, cursor, limit);
    }
  }

  lemma NoFuel(dates: DateReader, m: Mode, table: seq<Row>, w: Where, cursor: Option<string>, limit: nat)
    requires ValidTable(table) && !m.ByIndex?
    ensures Follow(dates, m, table, w, cursor, limit, 0) == [] && Traverse(m, Listing(m, table, w), From(dates, cursor), limit, 0) == []
  {
    hide Listing, From, PageOf;
  }

  /** The reply carries its page, and its cursor text leads where the page's cursor does. */
  lemma NextRequest(dates: DateReader, m: Mode, table: seq<Row>, w: Where, c: Option<Cursor>, limit: nat)
    requires ValidTable(table) && !m.ByIndex?
    ensures var p, r := PageOf(m, Listing(m, table, w), c, limit), ReplyAt(m, table, w, c, limit);
      && Carries(r, p) && From(dates, r.nextCursor) == p.next && !Refused(dates, r.nextCursor)
      && (r.nextCursor.Some? <==> p.next.Some?)
  {
    hide PageOf, Listing, From, Refused;
    PageRenders(m, table, w, c, limit);
    CarriedCursor(dates, ReplyAt(m, table, w, c, limit), PageOf(m, Listing(m, table, w), c, limit));
  }

  lemma UnfoldFollow(dates: DateReader, m: Mode, table: seq<Row>, w: Where, cursor: Option<string>, limit: nat, fuel: nat)
    requires ValidTable(table) && !m.ByIndex? && !Refused(dates, cursor) && fuel > 0
    ensures var r := ReplyAt(m, table, w, From(dates, cursor), limit);
      Follow(dates, m, table, w, cursor, limit, fuel) ==
        [r] + if r.nextCursor.Some? then Follow(dates, m, table, w, r.nextCursor, limit, fuel - 1) else []
    ensures var p := PageOf(m, Listing(m, table, w), From(dates, cursor), limit);
      Traverse(m, Listing(m, table, w), From(dates, cursor), limit, fuel) ==
        [p] + if p.next.Some? then Traverse(m, Listing(m, table, w), p.next, limit, fuel - 1) else []
  {
    hide PageOf, Listing, From, Refused, ReplyAt, ValidTable;
  }

  lemma NothingMatches()
    ensures Matches([], [])
  {}

  predicate Ended(rs: seq<Reply>) {
    rs != [] && !rs[|rs| - 1].hasMore
  }

  /** Over an unchanging table with whole-millisecond times the replies are the whole listing,
      in order: max(1, ceil(n / limit)) of them, each but the last of exactly limit rows. */
  lemma UnchangingTable(dates: DateReader, m: Mode, table: seq<Row>, w: Where, limit: nat, fuel: nat)
    requires ValidTable(table) && !m.ByIndex? && limit >= 1 && fuel > |Listing(m, table, w)|
    requires forall r :: r in table && Holds(w, r) ==> r.key.t % 1000 == 0
    ensures var xs := Listing(m, table, w); var rs := Follow(dates, m, table, w, None, limit, fuel);
      && Ended(rs) && Items(rs) == xs && |rs| == PagesNeeded(|xs|, limit)
      && forall i :: 0 <= i < |rs| - 1 ==> |rs[i].items| == limit
  {
    hide Follow, Traverse, Listing, CleanFrom, Holds, Carries, Refused, From, ValidTable;
    WholeIsClean(m, table, w, limit);
    StaticPaging(m, Listing(m, table, w), limit, fuel);
    assert !Refused(dates, None) && From(dates, None) == None by { StartIsFirst(dates); }
    FollowIsTraverse(dates, m, table, w, None, limit, fuel);
    var rs, ps := Follow(dates, m, table, w, None, limit, fuel), Traverse(m, Listing(m, table, w), None, limit, fuel);
    forall i | 0 <= i < |rs| ensures rs[i].items == ps[i].items && rs[i].hasMore == ps[i].hasMore { CarriesMeans(rs[i], ps[i]); }
  }

  lemma StartIsFirst(dates: DateReader)
    ensures !Refused(dates, None) && From(dates, None) == None
  {}

  lemma CarriesMeans(r: Reply, p: Page)
    requires Carries(r, p)
    ensures r.items == p.items && r.hasMore == p.hasMore && (r.nextCursor.Some? <==> p.next.Some?)
  {}

  lemma WholeIsClean(m: Mode, table: seq<Row>, w: Where, limit: nat)
    requires ValidTable(table) && !m.ByIndex? && limit >= 1
    requires forall r :: r in table && Holds(w, r) ==> r.key.t % 1000 == 0
    ensures Sorted(Dir(m), Listing(m, table, w)) && CleanFrom(m, Listing(m, table, w), limit, 0)
  {
    var xs := Listing(m, table, w);
    ListingSorted(m, table, w);
    forall e | 0 < e < |xs| ensures CleanAt(m, xs, e) {
      assert xs[e - 1] in xs;
      CleanMeans(m, xs, e);
      assert Before(Dir(m), xs[e - 1], xs[e]);
      assert xs[e - 1].t - xs[e - 1].t % 1000 == xs[e - 1].t;
    }
    CleanEverywhere(m, xs, limit, 0);
  }

  // ---------------------------------------------------------------- changing tables

  /** The cursor text of request i: the one reply i - 1 handed out. */
  function TextAt(rs: seq<Reply>, i: nat): Option<string>
    requires i < |rs|
  {
    if i == 0 then None else rs[i - 1].nextCursor
  }

  /** Reply i comes from the table as it stands then, asked with the text of reply i - 1. */
  ghost predicate Answers(dates: DateReader, m: Mode, tables: seq<seq<Row>>, w: Where, limit: nat, rs: seq<Reply>, i: nat)
    requires i < |rs| == |tables|
  {
    && ValidTable(tables[i])
    && Carries(rs[i], PageOf(m, Listing(m, tables[i], w), From(dates, TextAt(rs, i)), limit))
    && (i < |rs| - 1 ==> rs[i].hasMore && rs[i].nextCursor.Some?)
  }

  /** A client follows nextCursor from the first page until hasMore is false, while the table
      changes between its requests. */
  ghost predicate Traversal(dates: DateReader, m: Mode, tables: seq<seq<Row>>, w: Where, limit: nat, rs: seq<Reply>) {
    && |rs| == |tables| && Ended(rs)
    && forall i :: 0 <= i < |rs| ==> Answers(dates, m, tables, w, limit, rs, i)
  }

  ghost predicate Throughout(tables: seq<seq<Row>>, w: Where, r: Row) {
    Holds(w, r) && forall i :: 0 <= i < |tables| ==> r in tables[i]
  }

  /** k lies between the last row of some reply and the point its cursor text resumes from. */
  ghost predicate Skipped(dates: DateReader, m: Mode, rs: seq<Reply>, k: Key) {
    exists i :: 0 <= i < |rs| - 1 && rs[i].items != []
      && Before(Dir(m), rs[i].items[|rs[i].items| - 1], k) && !After(m, From(dates, rs[i].nextCursor), k)
  }

  function Snapshots(m: Mode, tables: seq<seq<Row>>, w: Where): (snaps: seq<seq<Key>>)
    ensures |snaps| == |tables| && forall i :: 0 <= i < |tables| ==> snaps[i] == Listing(m, tables[i], w)
  {
    seq(|tables|, i requires 0 <= i < |tables| => Listing(m, tables[i], w))
  }

  /** The pages behind a client's replies. */
  ghost function PagesOf(dates: DateReader, m: Mode, tables: seq<seq<Row>>, w: Where, limit: nat, rs: seq<Reply>): (pages: seq<Page>)
    requires |rs| == |tables|
    ensures |pages| == |rs|
    ensures forall i :: 0 <= i < |rs| ==> pages[i] == PageOf(m, Listing(m, tables[i], w), From(dates, TextAt(rs, i)), limit)
  {
    seq(|rs|, i requires 0 <= i < |rs| => PageOf(m, Listing(m, tables[i], w), From(dates, TextAt(rs, i)), limit))
  }

  lemma MirrorsPages(dates: DateReader, m: Mode, tables: seq<seq<Row>>, w: Where, limit: nat, rs: seq<Reply>)
    requires Traversal(dates, m, tables, w, limit, rs)
    ensures Mirrors(dates, rs, PagesOf(dates, m, tables, w, limit, rs))
  {
    hide PageOf, Listing, From, Mirror, Carries, ValidTable;
    forall i | 0 <= i < |rs| ensures Mirror(dates, rs[i], PagesOf(dates, m, tables, w, limit, rs)[i]) {
      assert Answers(dates, m, tables, w, limit, rs, i);
      AnswerFacts(dates, m, tables[i], w, rs[i], From(dates, TextAt(rs, i)), limit);
    }
  }

  /** The pages behind a client's replies form a chain with the same items and the same gaps. */
  lemma TraversalChain(dates: DateReader, m: Mode, tables: seq<seq<Row>>, w: Where, limit: nat, rs: seq<Reply>) returns (pages: seq<Page>)
    requires Traversal(dates, m, tables, w, limit, rs)
    ensures Chain(m, Snapshots(m, tables, w), limit, pages) && Finished(pages) && Items(rs) == Concat(pages)
    ensures forall k :: Skipped(dates, m, rs, k) <==> InGap(m, pages, k)
  {
    hide Traversal, Skipped, InGap, Chain, PagesOf, PageOf, Listing, From, Mirror;
    TraversalMeans(dates, m, tables, w, limit, rs, 0);
    pages := PagesOf(dates, m, tables, w, limit, rs);
    MirrorsPages(dates, m, tables, w, limit, rs);
    ChainOf(dates, m, tables, w, limit, rs, pages);
    SameReplies(dates, rs, pages);
    GapsMatch(dates, m, rs, pages);
  }

  lemma SameReplies(dates: DateReader, rs: seq<Reply>, pages: seq<Page>)
    requires Mirrors(dates, rs, pages)
    ensures Items(rs) == Concat(pages) && (Ended(rs) <==> Finished(pages))
  {
    hide From;
    forall i | 0 <= i < |rs| ensures rs[i].items == pages[i].items && rs[i].hasMore == pages[i].hasMore {
      assert Mirror(dates, rs[i], pages[i]);
    }
    SameItems(rs, pages);
  }

  lemma {:induction false} SameItems(rs: seq<Reply>, ps: seq<Page>)
    requires |rs| == |ps| && forall i :: 0 <= i < |rs| ==> rs[i].items == ps[i].items
    ensures Items(rs) == Concat(ps)
  {
    if rs != [] { SameItems(rs[1..], ps[1..]); }
  }

  /** The reply and the page behind it. */
  ghost predicate Mirror(dates: DateReader, r: Reply, p: Page) {
    && r.items == p.items && r.hasMore == p.hasMore
    && (r.nextCursor.Some? <==> p.next.Some?) && From(dates, r.nextCursor) == p.next
  }

  ghost predicate Mirrors(dates: DateReader, rs: seq<Reply>, ps: seq<Page>) {
    |rs| == |ps| && forall i :: 0 <= i < |rs| ==> Mirror(dates, rs[i], ps[i])
  }

  lemma TraversalMeans(dates: DateReader, m: Mode, tables: seq<seq<Row>>, w: Where, limit: nat, rs: seq<Reply>, i: nat)
    requires Traversal(dates, m, tables, w, limit, rs)
    ensures |rs| == |tables| && Ended(rs)
    ensures i < |rs| ==> Answers(dates, m, tables, w, limit, rs, i)
  {}

  lemma ChainOf(dates: DateReader, m: Mode, tables: seq<seq<Row>>, w: Where, limit: nat, rs: seq<Reply>, pages: seq<Page>)
    requires Traversal(dates, m, tables, w, limit, rs) && Mirrors(dates, rs, pages)
    requires forall i :: 0 <= i < |pages| ==> pages[i] == PageOf(m, Listing(m, tables[i], w), From(dates, TextAt(rs, i)), limit)
    ensures Chain(m, Snapshots(m, tables, w), limit, pages)
  {
    var snaps := Snapshots(m, tables, w);
    hide PageOf, Listing, Carries, Sorted;
    forall i | 0 <= i < |pages| ensures Fetched(m, snaps, limit, pages, i) {
      assert Answers(dates, m, tables, w, limit, rs, i) && Mirror(dates, rs[i], pages[i]);
      ListingSorted(m, tables[i], w);
      assert CursorAt(pages, i) == From(dates, TextAt(rs, i)) by {
        if i == 0 { StartIsFirst(dates); } else { assert Mirror(dates, rs[i - 1], pages[i - 1]); }
      }
    }
  }

  lemma GapsMatch(dates: DateReader, m: Mode, rs: seq<Reply>, pages: seq<Page>)
    requires Mirrors(dates, rs, pages)
    ensures forall k :: Skipped(dates, m, rs, k) <==> InGap(m, pages, k)
  {
    hide From, After, Before;
    forall i | 0 <= i < |rs| ensures rs[i].items == pages[i].items && From(dates, rs[i].nextCursor) == pages[i].next {
      assert Mirror(dates, rs[i], pages[i]);
    }
  }

  lemma AnswerFacts(dates: DateReader, m: Mode, table: seq<Row>, w: Where, r: Reply, c: Option<Cursor>, limit: nat)
    requires ValidTable(table) && Carries(r, PageOf(m, Listing(m, table, w), c, limit))
    ensures Mirror(dates, r, PageOf(m, Listing(m, table, w), c, limit))
  {
    hide PageOf, Listing, From, Parse, Render;
    CarriedCursor(dates, r, PageOf(m, Listing(m, table, w), c, limit));
  }

  /** A row there throughout is in every snapshot. */
  lemma ThroughoutListed(m: Mode, tables: seq<seq<Row>>, w: Where, r: Row)
    requires Throughout(tables, w, r) && forall i :: 0 <= i < |tables| ==> ValidTable(tables[i])
    ensures var snaps := Snapshots(m, tables, w); forall i :: 0 <= i < |snaps| ==> r.key in snaps[i]
  {
    forall i | 0 <= i < |tables| ensures r.key in Snapshots(m, tables, w)[i] { ListingSorted(m, tables[i], w); }
  }

  /** Rows may come and go between requests.  If all times are whole milliseconds, following
      the cursor texts returns no row twice, and each row that is there and matches throughout
      exactly once. */
  lemma ChangingTable(dates: DateReader, m: Mode, tables: seq<seq<Row>>, w: Where, limit: nat, rs: seq<Reply>, r: Row)
    requires Traversal(dates, m, tables, w, limit, rs) && limit >= 1 && !m.ByIndex? && Throughout(tables, w, r)
    requires forall i, x :: 0 <= i < |tables| && x in tables[i] ==> x.key.t % 1000 == 0
    ensures multiset(Items(rs))[r.key] == 1
    ensures forall k :: multiset(Items(rs))[k] <= 1
  {
    var snaps := Snapshots(m, tables, w);
    var pages := TraversalChain(dates, m, tables, w, limit, rs);
    forall i | 0 <= i < |tables| ensures ValidTable(tables[i]) && forall k: Key :: k in snaps[i] ==> k.t % 1000 == 0 {
      assert Answers(dates, m, tables, w, limit, rs, i);
      ListingSorted(m, tables[i], w);
    }
    ThroughoutListed(m, tables, w, r);
    hide Traversal, Answers, Listing, ValidTable, Throughout;
    forall i | 0 <= i < |pages| - 1 && pages[i].items != [] ensures Last(pages[i]).t % 1000 == 0 {
      PageFacts(m, snaps, limit, pages, i);
      assert Last(pages[i]) in snaps[i];
    }
    ExactlyOnce(m, snaps, limit, pages, r.key);
    var all := Items(rs);
    forall i, j | 0 <= i < j < |all| ensures all[i] != all[j] { BeforeOrder(Dir(m), all[i], all[j], all[j]); }
    forall k ensures multiset(all)[k] <= 1 { OnceInDistinct(all, k); }
    assert r.key in multiset(all);
  }

  lemma {:induction false} OnceInDistinct(s: seq<Key>, k: Key)
    requires forall i, j :: 0 <= i < j < |s| ==> s[i] != s[j]
    ensures multiset(s)[k] <= 1
  {
    if s != [] {
      OnceInDistinct(s[1..], k);
      assert s == [s[0]] + s[1..];
      assert s[0] !in s[1..];
      assert multiset(s) == multiset{s[0]} + multiset(s[1..]);
    }
  }

  /** With microseconds: issues and activity never repeat a row, and lose a row that is there
      throughout exactly when it falls between a page's last row and that row's time cut to
      the millisecond. */
  lemma ChangingTableMicros(dates: DateReader, tables: seq<seq<Row>>, w: Where, limit: nat, rs: seq<Reply>, r: Row)
    requires Traversal(dates, ByDbDesc, tables, w, limit, rs) && limit >= 1 && Throughout(tables, w, r)
    ensures forall i, j :: 0 <= i < j < |Items(rs)| ==> KeyLt(Items(rs)[j], Items(rs)[i])
    ensures r.key in Items(rs) <==> !Skipped(dates, ByDbDesc, rs, r.key)
  {
    var pages := TraversalChain(dates, ByDbDesc, tables, w, limit, rs);
    forall i | 0 <= i < |tables| ensures ValidTable(tables[i]) { assert Answers(dates, ByDbDesc, tables, w, limit, rs, i); }
    ThroughoutListed(ByDbDesc, tables, w, r);
    hide Traversal, Listing, ValidTable, Throughout, Skipped, InGap;
    DescendingTraversal(ByDbDesc, Snapshots(ByDbDesc, tables, w), limit, pages, r.key);
  }

  /** With microseconds: a comment that is there throughout is never lost. */
  lemma ChangingComments(dates: DateReader, tables: seq<seq<Row>>, w: Where, limit: nat, rs: seq<Reply>, r: Row)
    requires Traversal(dates, ByDbAsc, tables, w, limit, rs) && limit >= 1 && Throughout(tables, w, r)
    ensures r.key in Items(rs)
  {
    var pages := TraversalChain(dates, ByDbAsc, tables, w, limit, rs);
    forall i | 0 <= i < |tables| ensures ValidTable(tables[i]) { assert Answers(dates, ByDbAsc, tables, w, limit, rs, i); }
    ThroughoutListed(ByDbAsc, tables, w, r);
    hide Traversal, Listing, ValidTable, Throughout;
    AscendingTraversal(Snapshots(ByDbAsc, tables, w), limit, pages, r.key);
  }

  /** Two issues created 300 microseconds apart, pages of one: the older is never listed. */
  lemma LostIssue()
    ensures var xs := [Key(1_000_500, "b"), Key(1_000_200, "a")];
      Sorted(Desc, xs) && Concat(Traverse(ByDbDesc, xs, None, 1, 3)) == [Key(1_000_500, "b")]
  {
    var xs := [Key(1_000_500, "b"), Key(1_000_200, "a")];
    var c := Some(Cursor(1000, "b"));
    assert Skip(ByDbDesc, c, xs[1..]) == 1;
    assert Skip(ByDbDesc, c, xs) == 2;
    var p0, p1 := Page([xs[0]], c, true), Page([], None, false);
    assert xs[0..1] == [xs[0]] && xs[2..] == [];
    assert Traverse(ByDbDesc, xs, c, 1, 2) == [p1];
    assert Traverse(ByDbDesc, xs, None, 1, 3) == [p0, p1];
    assert Concat([p1]) == [] && [p0, p1][1..] == [p1];
  }

  /** Two comments, the first not on a whole millisecond, pages of one: the client receives
      the first comment for ever. */
  lemma EndlessComments(fuel: nat)
    requires fuel >= 1
    ensures var ps := Traverse(ByDbAsc, [Key(1_000_200, "a"), Key(1_000_500, "b")], None, 1, fuel);
      |ps| == fuel && !Finished(ps) && forall i :: 0 <= i < fuel ==> ps[i].items == [Key(1_000_200, "a")]
  {
    var xs := [Key(1_000_200, "a"), Key(1_000_500, "b")];
    assert xs[..1] == [xs[0]];
    AscendingStuck(xs, None, 1, fuel);
  }
}
