/** IssueQueryService.list: the Redis sprint index when it may serve, the database otherwise,
    and the index warmed by what the database returned. */
module IssueListing {
  import opened Ordering
  import opened SortedSets
  import opened Wrappers
  import opened KeysetPaging
  import opened Listings
  import opened SprintIndexListing
  import opened IndexRefinement
  import CursorCodec
  import IsoDates
  import Decimal

  /** A sprint (or backlog) filter and no other. */
  predicate SprintOnly(f: IssueFilters) {
    f.sprintId.Some? && !Truthy(f.statusId) && !Truthy(f.assigneeId) && !Truthy(f.kind)
  }

  /** populateFromIssues, as far as the listed sprint's own index goes. */
  function Warmed(z: ZSet, items: seq<Key>): ZSet {
    if items == [] then z
    else
      var n := |items| - 1;
      ZAdd(Warmed(z, items[..n]), items[n].t / 1000, items[n].id)
  }

  /** The reply to a request served from the index. */
  ghost predicate FromIndex(z: ZSet, cache: map<string, Row>, table: seq<Row>, cursor: Option<string>, limit: nat,
                            r: Result<Reply, Error>) {
    && (r.Err? <==> RefusedScore(cursor))
    && (r.Ok? ==>
          var page := IndexReply(z, cache, table, FromScore(cursor), limit);
          r.value == Reply(KeysOf(page.items), page.nextCursor, page.hasMore))
  }

  /** The reply to a request served from the database. */
  ghost predicate FromDb(dates: DateReader, table: seq<Row>, w: Where, cursor: Option<string>, limit: nat, r: Result<Reply, Error>) {
    && (r.Err? <==> Refused(dates, cursor))
    && (r.Ok? ==> Carries(r.value, PageOf(ByDbDesc, Listing(ByDbDesc, table, w), From(dates, cursor), limit)))
  }

  class IssueStore {
    /** The sorted set of the sprint that is listed; empty when the index is cold. */
    var index: ZSet
    var entities: map<string, Row>
    var table: seq<Row>

    constructor (table: seq<Row>)
      ensures this.table == table && index == [] && entities == map[]
    {
      this.table, index, entities := table, [], map[];
    }

    method List(dates: DateReader, projectId: string, f: IssueFilters, cursor: Option<string>, limit: nat)
        returns (r: Result<Reply, Error>, ghost w: Where)
      requires ValidTable(table)
      modifies this`index
      ensures SprintOnly(f) && old(index) != [] ==> FromIndex(old(index), entities, table, cursor, limit, r)
      ensures !SprintOnly(f) || old(index) == [] ==>
        FromDb(dates, table, w, cursor, limit, r) && forall row :: Holds(w, row) <==> IssueMatches(projectId, f, row)
      ensures index == if SprintOnly(f) && old(index) == [] && r.Ok? then Warmed([], r.value.items) else old(index)
    {
      hide PageOf, Listing, Refused, From, RefusedScore, FromScore, IndexReply, Carries, Holds, IssueMatches, Warmed;
      var sprintOnly := SprintOnly(f);
      if sprintOnly {
        var page := ListFromIndex(index, entities, table, cursor, limit);
        if page.Err? {
          r, w := Err(page.error), map[];
          return;
        }
        if page.value.Some? {
          var served := page.value.value;
          r, w := Ok(Reply(KeysOf(served.items), served.nextCursor, served.hasMore)), map[];
          return;
        }
      }
      r, w := ListIssues(dates, table, projectId, f, cursor, limit);
      if r.Ok? && sprintOnly {
        index := Warmed(index, r.value.items);
      }
    }
  }

  // ---------------------------------------------------------------- two kinds of cursor

  /** The database writes a date into its cursor and the index a score: no database cursor is
      read as a score, and no index cursor holds a toISOString date. */
  lemma CursorKinds(c: Cursor)
    requires CursorCodec.CleanId(c.id) && Dated(c.ms)
    ensures ParseScore(Render(c)).None?
    ensures IsoDates.ParseIso(CursorCodec.SplitCursor(CursorCodec.DecodeCursor(RenderScore(c))).0).None?
  {
    CursorCodec.EncodedSplitRoundTrip(IsoDates.Iso(c.ms), c.id);
    CursorCodec.EncodedSplitRoundTrip(Decimal.Int(c.ms), c.id);
    IsoDates.IsoRoundTrip(c.ms);
    Decimal.IntRoundTrip(c.ms);
    IsoDates.DateIsNoNumber(IsoDates.Iso(c.ms));
    IsoDates.DateIsNoNumber(Decimal.Int(c.ms));
    hide IsoDates.ParseIso, IsoDates.Iso, Decimal.ParseInt, Decimal.Int, CursorCodec.SplitCursor, CursorCodec.DecodeCursor, CursorCodec.EncodeCursor;
  }

  /** One sprint-only request: from the index if it is warm, else from the database. */
  ghost predicate Lists(dates: DateReader, z: ZSet, cache: map<string, Row>, table: seq<Row>, w: Where, cursor: Option<string>,
                        limit: nat, r: Result<Reply, Error>, z': ZSet) {
    if z != [] then FromIndex(z, cache, table, cursor, limit, r) && z' == z
    else FromDb(dates, table, w, cursor, limit, r) && z' == if r.Ok? then Warmed([], r.value.items) else []
  }

  /** A cursor from a page that the database served is accepted if and only if the index is
      cold (again) when the next page is asked for. */
  lemma DatabaseCursorNeedsColdIndex(dates: DateReader, table: seq<Row>, w: Where, cursor: Option<string>, limit: nat, r: Result<Reply, Error>,
                                     z: ZSet, cache: map<string, Row>, table2: seq<Row>, r2: Result<Reply, Error>, z2: ZSet)
    ensures FromDb(dates, table, w, cursor, limit, r) && r.Ok? && r.value.nextCursor.Some? ==>
      (Lists(dates, z, cache, table2, w, r.value.nextCursor, limit, r2, z2) ==> (r2.Ok? <==> z == []))
  {
    hide PageOf, Listing, From, Refused, FromScore, IndexReply, Warmed, Parse, ParseScore;
    if FromDb(dates, table, w, cursor, limit, r) && r.Ok? && r.value.nextCursor.Some? {
      var p := PageOf(ByDbDesc, Listing(ByDbDesc, table, w), From(dates, cursor), limit);
      CarriedCursor(dates, r.value, p);
      CursorKinds(p.next.value);
      RenderTruthy(p.next.value);
    }
    hide Carries;
  }

  /** A cursor from a page that the index served is accepted if the index is still warm when the
      next page is asked for, and on a cold index if and only if the database takes the score
      in it for a date. */
  lemma IndexCursorNeedsWarmIndex(dates: DateReader, z: ZSet, cache: map<string, Row>, table: seq<Row>, cursor: Option<string>, limit: nat,
                                  r: Result<Reply, Error>,
                                  z2: ZSet, cache2: map<string, Row>, table2: seq<Row>, w: Where, r2: Result<Reply, Error>, z3: ZSet)
    requires ValidTable(table) && forall id :: id in cache ==> CursorCodec.CleanId(cache[id].key.id)
    ensures FromIndex(z, cache, table, cursor, limit, r) && r.Ok? && r.value.nextCursor.Some? ==>
      (Lists(dates, z2, cache2, table2, w, r.value.nextCursor, limit, r2, z3) ==>
        (r2.Ok? <==> z2 != [] || Parse(dates, r.value.nextCursor.value).Some?))
  {
    hide FromIndex, PageOf, Listing, Parse, ParseScore, Warmed, Carries, ValidTable;
    if FromIndex(z, cache, table, cursor, limit, r) && r.Ok? && r.value.nextCursor.Some?
      && Lists(dates, z2, cache2, table2, w, r.value.nextCursor, limit, r2, z3)
    {
      IndexCursorIsScore(z, cache, table, cursor, limit, r);
      if z2 != [] { IndexAccepts(z2, cache2, table2, r.value.nextCursor, limit, r2); }
    }
  }

  lemma IndexAccepts(z: ZSet, cache: map<string, Row>, table: seq<Row>, cursor: Option<string>, limit: nat, r: Result<Reply, Error>)
    requires FromIndex(z, cache, table, cursor, limit, r) && cursor.Some? && ParseScore(cursor.value).Some?
    ensures r.Ok?
  {
    hide IndexReply, FromScore, ParseScore;
  }

  lemma IndexCursorIsScore(z: ZSet, cache: map<string, Row>, table: seq<Row>, cursor: Option<string>, limit: nat, r: Result<Reply, Error>)
    requires ValidTable(table) && forall id :: id in cache ==> CursorCodec.CleanId(cache[id].key.id)
    requires FromIndex(z, cache, table, cursor, limit, r) && r.Ok? && r.value.nextCursor.Some?
    ensures ParseScore(r.value.nextCursor.value).Some? && Truthy(r.value.nextCursor)
  {
    hide PageOf, ParseScore, RenderScore, ResolveAll, Reversed, ValidTable, CursorCodec.CleanId, FromScore;
    var p := PageOf(ByIndex, Reversed(z), FromScore(cursor), limit);
    var items := ResolveAll(cache, table, Ids(p.items));
    var last := items[|items| - 1];
    ResolvedFromTables(cache, table, Ids(p.items), last);
    RenderParseScore(Cursor(last.key.t / 1000, last.key.id));
    ScoreTruthy(Cursor(last.key.t / 1000, last.key.id));
  }

  lemma {:induction false} ResolvedFromTables(cache: map<string, Row>, table: seq<Row>, ids: seq<string>, r: Row)
    requires ValidTable(table) && forall id :: id in cache ==> CursorCodec.CleanId(cache[id].key.id)
    requires r in ResolveAll(cache, table, ids)
    ensures CursorCodec.CleanId(r.key.id)
  {
    var head := Resolve(cache, table, ids[0]);
    if head == Some(r) {
      if ids[0] !in cache { LiveRowIs(table, ids[0], r); }
    } else {
      ResolvedFromTables(cache, table, ids[1..], r);
    }
  }

  ghost predicate Scores(items: seq<Key>, k: Key) { exists i :: i in items && k == Key(i.t / 1000, i.id) }

  ghost predicate Names(items: seq<Key>, id: string) { exists i :: i in items && i.id == id }

  lemma ItemsSnoc(items: seq<Key>, k: Key)
    requires items != []
    ensures var first, last := items[..|items| - 1], items[|items| - 1];
      && (Scores(items, k) <==> Scores(first, k) || k == Key(last.t / 1000, last.id))
      && (Names(items, k.id) <==> Names(first, k.id) || last.id == k.id)
      && (UniqueIds(items) ==> UniqueIds(first) && !Names(first, last.id))
  {
    assert items == items[..|items| - 1] + [items[|items| - 1]];
  }

  /** Warming puts exactly the page into the index, each issue scored by its creation time, and
      moves nothing else. */
  lemma {:induction false} WarmedMeans(z: ZSet, items: seq<Key>, k: Key)
    requires UniqueIds(items)
    ensures k in Warmed(z, items) <==> Scores(items, k) || (k in z && !Names(items, k.id))
  {
    if items != [] {
      var first := items[..|items| - 1];
      ItemsSnoc(items, k);
      assert Scores(first, k) ==> Names(first, k.id) by { if i :| i in first && k == Key(i.t / 1000, i.id) { assert i in first && i.id == k.id; } }
      hide Scores, Names, UniqueIds, ZAdd;
      WarmedMeans(z, first, k);
    }
  }

  lemma {:induction false} WarmedHas(z: ZSet, items: seq<Key>)
    requires items != []
    ensures Warmed(z, items) != []
  {
    var n := |items| - 1;
    assert Key(items[n].t / 1000, items[n].id) in Warmed(z, items);
  }

  /** So a sprint listing of more than one page that starts on a cold index cannot be followed
      while the index stays warm: its own first page warms the index, and the index then
      refuses the cursor that page handed out. */
  lemma ColdListingStops(dates: DateReader, cache: map<string, Row>, table: seq<Row>, w: Where, limit: nat, r: Result<Reply, Error>, z: ZSet,
                         cache2: map<string, Row>, table2: seq<Row>, r2: Result<Reply, Error>, z2: ZSet)
    requires limit >= 1
    ensures |Listing(ByDbDesc, table, w)| > limit && Lists(dates, [], cache, table, w, None, limit, r, z) ==>
      r.Ok? && r.value.hasMore && r.value.nextCursor.Some? && z != []
      && (Lists(dates, z, cache2, table2, w, r.value.nextCursor, limit, r2, z2) ==> r2.Err?)
  {
    hide FromIndex, FromDb, PageOf, Listing, Parse, Warmed, Carries;
    if |Listing(ByDbDesc, table, w)| > limit && Lists(dates, [], cache, table, w, None, limit, r, z) {
      ColdFirstPage(dates, table, w, limit, r);
      WarmedHas([], r.value.items);
      DatabaseCursorNeedsColdIndex(dates, table, w, None, limit, r, z, cache2, table2, r2, z2);
    }
  }

  lemma ColdFirstPage(dates: DateReader, table: seq<Row>, w: Where, limit: nat, r: Result<Reply, Error>)
    requires limit >= 1
    ensures |Listing(ByDbDesc, table, w)| > limit && FromDb(dates, table, w, None, limit, r) ==>
      r.Ok? && r.value.hasMore && r.value.nextCursor.Some? && r.value.items == Listing(ByDbDesc, table, w)[..limit]
  {
    hide Listing, Parse, Render;
    var xs := Listing(ByDbDesc, table, w);
    assert Skip(ByDbDesc, None, xs) == 0;
    assert |xs| > limit ==> xs[0..limit] == xs[..limit];
  }
}
