/** The fast path of IssueQueryService.list: ids from the Redis sprint index, issues from the
    entity cache with the database filling the gaps. */
module SprintIndexListing {
  import opened Ordering
  import opened SortedSets
  import opened Wrappers
  import opened KeysetPaging
  import opened Listings
  import CursorCodec
  import Decimal

  datatype IdPage = IdPage(ids: seq<string>, hasMore: bool)

  datatype IssuePage = IssuePage(items: seq<Row>, nextCursor: Option<string>, hasMore: bool)

  function Ids(ks: seq<Key>): (ids: seq<string>)
    ensures |ids| == |ks| && forall i :: 0 <= i < |ks| ==> ids[i] == ks[i].id
  {
    seq(|ks|, i requires 0 <= i < |ks| => ks[i].id)
  }

  /** ZREVRANGEBYSCORE key (max -inf */
  function BelowScore(xs: seq<Key>, max: int): seq<Key> {
    if xs == [] || xs[0].t < max then xs else BelowScore(xs[1..], max)
  }

  lemma {:induction false} BelowScoreIsSkip(xs: seq<Key>, c: Cursor)
    ensures BelowScore(xs, c.ms) == xs[Skip(ByIndex, Some(c), xs)..]
  {
    if xs != [] && xs[0].t >= c.ms {
      BelowScoreIsSkip(xs[1..], c);
    }
  }

  /** encodeCursor(`${getTime()}__${id}`) */
  function RenderScore(c: Cursor): string {
    CursorCodec.EncodeCursor(Decimal.Int(c.ms) + "__" + c.id)
  }

  /** None: the decoded score is not a number, and Redis rejects the command. */
  function ParseScore(s: string): Option<Cursor> {
    var (score, id) := CursorCodec.SplitCursor(CursorCodec.DecodeCursor(s));
    var max := Decimal.ParseInt(score);
    if max.None? then None else Some(Cursor(max.value, id))
  }

  lemma RenderParseScore(c: Cursor)
    requires CursorCodec.CleanId(c.id)
    ensures ParseScore(RenderScore(c)) == Some(c)
  {
    CursorCodec.EncodedSplitRoundTrip(Decimal.Int(c.ms), c.id);
    Decimal.IntRoundTrip(c.ms);
  }

  lemma ScoreTruthy(c: Cursor)
    requires CursorCodec.CleanId(c.id)
    ensures RenderScore(c) != ""
  {
    RenderParseScore(c);
    assert ParseScore("").None?;
    hide ParseScore, RenderScore;
  }

  predicate RefusedScore(cursor: Option<string>) {
    Truthy(cursor) && ParseScore(cursor.value).None?
  }

  /** Where an index request with this cursor starts. */
  function FromScore(cursor: Option<string>): Option<Cursor> {
    if Truthy(cursor) then ParseScore(cursor.value) else None
  }

  /** Asking for one row too many and dropping it gives the page. */
  lemma TrimmedPage(xs: seq<Key>, c: Option<Cursor>, limit: nat)
    ensures var rows := Limit(if c.Some? then BelowScore(xs, c.value.ms) else xs, limit + 1);
      var p := PageOf(ByIndex, xs, c, limit);
      && p.hasMore == (|rows| > limit)
      && p.items == if |rows| > limit then rows[..|rows| - 1] else rows
  {
    if c.Some? { BelowScoreIsSkip(xs, c.value); }
    TrimRows(ByIndex, xs, Skip(ByIndex, c, xs), limit);
    hide BelowScore;
    assert xs[0..] == xs;
  }

  /** getSprintIssueIds: Ok(None) on a cold index; an error when the score bound does not parse. */
  method GetSprintIssueIds(z: ZSet, cursor: Option<string>, limit: nat) returns (r: Result<Option<IdPage>, Error>)
    ensures r.Err? <==> z != [] && RefusedScore(cursor)
    ensures r.Ok? ==> (r.value.None? <==> z == [])
    ensures r.Ok? && r.value.Some? ==>
      var p := PageOf(ByIndex, Reversed(z), FromScore(cursor), limit);
      r.value.value == IdPage(Ids(p.items), p.hasMore)
  {
    hide PageOf, Reversed, Limit, BelowScore, CursorCodec.SplitCursor, CursorCodec.DecodeCursor, Decimal.ParseInt;
    if |z| == 0 { return Ok(None); }
    var xs := Reversed(z);
    var rows: seq<Key>;
    ghost var c: Option<Cursor> := None;
    if Truthy(cursor) {
      var (maxScore, id) := CursorCodec.SplitCursor(CursorCodec.DecodeCursor(cursor.value));
      var max := Decimal.ParseInt(maxScore);
      if max.None? { return Err(BadCursor); }
      c := Some(Cursor(max.value, id));
      rows := Limit(BelowScore(xs, max.value), limit + 1);
    } else {
      rows := Limit(xs, limit + 1);
    }
    var hasMore := |rows| > limit;
    var items := if hasMore then rows[..|rows| - 1] else rows;
    TrimmedPage(xs, c, limit);
    return Ok(Some(IdPage(Ids(items), hasMore)));
  }

  // ---------------------------------------------------------------- merge

  /** The live row with this id. */
  function LiveRow(table: seq<Row>, id: string): Option<Row> {
    if table == [] then None
    else if table[0].key.id == id && "deletedAt" !in table[0].cols then Some(table[0])
    else LiveRow(table[1..], id)
  }

  /** A cache hit wins over the database. */
  function Resolve(cache: map<string, Row>, table: seq<Row>, id: string): Option<Row> {
    if id in cache then Some(cache[id]) else LiveRow(table, id)
  }

  function ResolveAll(cache: map<string, Row>, table: seq<Row>, ids: seq<string>): seq<Row> {
    if ids == [] then []
    else
      var head := Resolve(cache, table, ids[0]);
      (if head.Some? then [head.value] else []) + ResolveAll(cache, table, ids[1..])
  }

  lemma {:induction false} ResolveSnoc(cache: map<string, Row>, table: seq<Row>, ids: seq<string>, id: string)
    ensures ResolveAll(cache, table, ids + [id]) ==
      ResolveAll(cache, table, ids) + var head := Resolve(cache, table, id); if head.Some? then [head.value] else []
  {
    if ids == [] {
      assert [id][1..] == [];
    } else {
      ResolveSnoc(cache, table, ids[1..], id);
      assert (ids + [id])[1..] == ids[1..] + [id];
    }
  }

  /** A live row answers to its id, and nothing else does. */
  lemma {:induction false} LiveRowIs(table: seq<Row>, id: string, r: Row)
    requires ValidTable(table)
    ensures LiveRow(table, id) == Some(r) <==> r in table && r.key.id == id && "deletedAt" !in r.cols
  {
    if table != [] {
      LiveRowIs(table[1..], id, r);
      assert r in table <==> r == table[0] || r in table[1..];
      if r in table[1..] {
        var n :| 0 <= n < |table[1..]| && table[1..][n] == r;
        assert table[n + 1].key.id != table[0].key.id;
      }
    }
  }

  /** SELECT … WHERE id IN (ids) AND deletedAt IS NULL, keyed by id. */
  method SelectByIds(table: seq<Row>, ids: set<string>) returns (byId: map<string, Row>)
    requires ValidTable(table)
    ensures forall id, r ::
      (id in byId && byId[id] == r) <==> id in ids && r in table && r.key.id == id && "deletedAt" !in r.cols
    ensures forall id :: id in byId <==> id in ids && LiveRow(table, id).Some?
    ensures forall id :: id in byId ==> byId[id] == LiveRow(table, id).value
  {
    byId := map[];
    var n := |table|;
    while n > 0
      invariant 0 <= n <= |table|
      invariant forall id :: id in byId <==> id in ids && LiveRow(table[n..], id).Some?
      invariant forall id :: id in byId ==> byId[id] == LiveRow(table[n..], id).value
    {
      n := n - 1;
      var row := table[n];
      assert table[n..][1..] == table[n + 1..];
      if row.key.id in ids && "deletedAt" !in row.cols { byId := byId[row.key.id := row]; }
    }
    assert table[0..] == table;
    forall id, r
      ensures (id in byId && byId[id] == r) <==> id in ids && r in table && r.key.id == id && "deletedAt" !in r.cols
    {
      LiveRowIs(table, id, r);
    }
  }

  /** What a request for this id is answered with: the cached entity, or else the live row. */
  ghost predicate Answered(cache: map<string, Row>, table: seq<Row>, id: string, r: Row) {
    if id in cache then r == cache[id] else r in table && r.key.id == id && "deletedAt" !in r.cols
  }

  /** items answer the ids at positions at, in the order of the ids; no other id has an answer. */
  ghost predicate Merged(cache: map<string, Row>, table: seq<Row>, ids: seq<string>, items: seq<Row>, at: seq<nat>) {
    && |at| == |items|
    && (forall i :: 0 <= i < |at| ==> at[i] < |ids| && Answered(cache, table, ids[at[i]], items[i]))
    && (forall i, j :: 0 <= i < j < |at| ==> at[i] < at[j])
    && forall n, r :: 0 <= n < |ids| && Answered(cache, table, ids[n], r) ==> n in at
  }

  lemma ResolveIs(cache: map<string, Row>, table: seq<Row>, id: string, r: Row)
    requires ValidTable(table)
    ensures Resolve(cache, table, id) == Some(r) <==> Answered(cache, table, id, r)
  {
    LiveRowIs(table, id, r);
  }

  lemma MergeStep(cache: map<string, Row>, table: seq<Row>, ids: seq<string>, items: seq<Row>, at: seq<nat>, id: string, r: Row)
    requires Merged(cache, table, ids, items, at) && Answered(cache, table, id, r)
    ensures Merged(cache, table, ids + [id], items + [r], at + [|ids|])
  {
    hide Answered;
    var all, at' := ids + [id], at + [|ids|];
    forall n, x | 0 <= n < |all| && Answered(cache, table, all[n], x) ensures n in at' {
      if n < |ids| { assert all[n] == ids[n] && n in at; } else { assert at'[|at|] == n; }
    }
  }

  lemma MergeSkip(cache: map<string, Row>, table: seq<Row>, ids: seq<string>, items: seq<Row>, at: seq<nat>, id: string)
    requires Merged(cache, table, ids, items, at) && forall r :: !Answered(cache, table, id, r)
    ensures Merged(cache, table, ids + [id], items, at)
  {
    hide Answered;
    var all := ids + [id];
    forall n, x | 0 <= n < |all| && Answered(cache, table, all[n], x) ensures n in at {
      assert n < |ids| && all[n] == ids[n];
    }
  }

  lemma {:induction false} MergeMeans(cache: map<string, Row>, table: seq<Row>, ids: seq<string>) returns (at: seq<nat>)
    requires ValidTable(table)
    ensures Merged(cache, table, ids, ResolveAll(cache, table, ids), at)
  {
    at := [];
    if ids != [] {
      var first, id := ids[..|ids| - 1], ids[|ids| - 1];
      at := MergeMeans(cache, table, first);
      var head := Resolve(cache, table, id);
      forall r ensures head == Some(r) <==> Answered(cache, table, id, r) { ResolveIs(cache, table, id, r); }
      ResolveSnoc(cache, table, first, id);
      assert ids == first + [id];
      hide Answered, Resolve, ResolveAll, ValidTable, Merged;
      var items := ResolveAll(cache, table, first);
      if head.Some? {
        MergeStep(cache, table, first, items, at, id, head.value);
        at := at + [|first|];
      } else {
        MergeSkip(cache, table, first, items, at, id);
        assert items + [] == items;
      }
    }
  }

  /** fetchIssuesByIds: cache hits, one query for the misses, merged in the order of ids. */
  method FetchIssuesByIds(cache: map<string, Row>, table: seq<Row>, ids: seq<string>) returns (items: seq<Row>)
    requires ValidTable(table)
    ensures items == ResolveAll(cache, table, ids)
    ensures exists at :: Merged(cache, table, ids, items, at)
    ensures forall r :: r in items <==> exists id ::
      id in ids && if id in cache then r == cache[id] else r in table && r.key.id == id && "deletedAt" !in r.cols
  {
    var missing := set id | id in ids && id !in cache;
    var byId := SelectByIds(table, missing);
    items := [];
    for i := 0 to |ids|
      invariant items == ResolveAll(cache, table, ids[..i])
    {
      ResolveSnoc(cache, table, ids[..i], ids[i]);
      assert ids[..i + 1] == ids[..i] + [ids[i]];
      if ids[i] in cache {
        items := items + [cache[ids[i]]];
      } else if ids[i] in byId {
        items := items + [byId[ids[i]]];
      }
    }
    assert ids[..|ids|] == ids;
    ghost var at := MergeMeans(cache, table, ids);
    MergedMembers(cache, table, ids, items, at);
  }

  lemma MergedMembers(cache: map<string, Row>, table: seq<Row>, ids: seq<string>, items: seq<Row>, at: seq<nat>)
    requires ValidTable(table) && Merged(cache, table, ids, items, at)
    ensures forall r :: r in items <==> exists id :: id in ids && Answered(cache, table, id, r)
  {
    forall r ensures r in items <==> exists id :: id in ids && Answered(cache, table, id, r) {
      if r in items {
        var i :| 0 <= i < |items| && items[i] == r;
        assert ids[at[i]] in ids && Answered(cache, table, ids[at[i]], r);
      }
      if id :| id in ids && Answered(cache, table, id, r) {
        var n :| 0 <= n < |ids| && ids[n] == id;
        var i :| 0 <= i < |at| && at[i] == n;
        ResolveIs(cache, table, id, r);
        ResolveIs(cache, table, id, items[i]);
        assert items[i] == r;
      }
    }
  }

  /** The page a warm index serves from position c: cache and database rows of its ids, and a
      cursor made from the last of those rows. */
  function IndexReply(z: ZSet, cache: map<string, Row>, table: seq<Row>, c: Option<Cursor>, limit: nat): IssuePage {
    var p := PageOf(ByIndex, Reversed(z), c, limit);
    var items := ResolveAll(cache, table, Ids(p.items));
    IssuePage(items, NextFrom(items, p.hasMore), p.hasMore)
  }

  function NextFrom(items: seq<Row>, hasMore: bool): Option<string> {
    if hasMore && items != [] then
      var last := items[|items| - 1]; Some(RenderScore(Cursor(last.key.t / 1000, last.key.id)))
    else None
  }

  /** list with only a sprint filter and a warm index. */
  method ListFromIndex(z: ZSet, cache: map<string, Row>, table: seq<Row>, cursor: Option<string>, limit: nat)
      returns (r: Result<Option<IssuePage>, Error>)
    requires ValidTable(table)
    ensures r.Err? <==> z != [] && RefusedScore(cursor)
    ensures r.Ok? ==> (r.value.None? <==> z == [])
    ensures r.Ok? && r.value.Some? ==> r.value.value == IndexReply(z, cache, table, FromScore(cursor), limit)
    ensures r.Ok? && r.value.Some? ==> forall row :: row in r.value.value.items ==>
      row in cache.Values || (row in table && "deletedAt" !in row.cols)
  {
    hide PageOf, Reversed, RefusedScore, FromScore, ResolveAll, LiveRow, ValidTable, Merged;
    var page := GetSprintIssueIds(z, cursor, limit);
    match page
    case Err(e) => return Err(e);
    case Ok(None) => return Ok(None);
    case Ok(Some(idPage)) =>
      var items := FetchIssuesByIds(cache, table, idPage.ids);
      var next: Option<string> := None;
      if idPage.hasMore && items != [] {
        var last := items[|items| - 1];
        next := Some(RenderScore(Cursor(last.key.t / 1000, last.key.id)));
      }
      return Ok(Some(IssuePage(items, next, idPage.hasMore)));
  }

  lemma {:induction false} NothingResolvesIff(cache: map<string, Row>, table: seq<Row>, ids: seq<string>)
    ensures ResolveAll(cache, table, ids) == [] <==> forall id :: id in ids ==> Resolve(cache, table, id).None?
  {
    if ids != [] {
      NothingResolvesIff(cache, table, ids[1..]);
      assert forall id :: id in ids <==> id == ids[0] || id in ids[1..];
    }
  }

  /** An index page says hasMore without giving a cursor if and only if more follow and not one
      id of the page has a cached or live issue. */
  lemma DeadPageIff(z: ZSet, cache: map<string, Row>, table: seq<Row>, c: Option<Cursor>, limit: nat)
    ensures var p, r := PageOf(ByIndex, Reversed(z), c, limit), IndexReply(z, cache, table, c, limit);
      r.hasMore && r.nextCursor.None? <==>
        p.hasMore && forall id :: id in Ids(p.items) ==> Gone(cache, table, id)
  {
    var ids := Ids(PageOf(ByIndex, Reversed(z), c, limit).items);
    NothingResolvesIff(cache, table, ids);
    forall id | id in ids ensures Resolve(cache, table, id).None? <==> Gone(cache, table, id) { LiveRowNone(table, id); }
    hide PageOf, Reversed, ResolveAll, Resolve, Gone;
  }

  /** Not cached, and no row but deleted ones. */
  ghost predicate Gone(cache: map<string, Row>, table: seq<Row>, id: string) {
    id !in cache && forall r :: r in table && r.key.id == id ==> "deletedAt" in r.cols
  }

  lemma {:induction false} LiveRowNone(table: seq<Row>, id: string)
    ensures LiveRow(table, id).None? <==> forall r :: r in table && r.key.id == id ==> "deletedAt" in r.cols
  {
    if table != [] {
      LiveRowNone(table[1..], id);
      assert forall r :: r in table <==> r == table[0] || r in table[1..];
    }
  }

  /** It happens at every page size: an index of more than limit ids, all of them gone. */
  lemma DeadPage(z: ZSet, limit: nat)
    requires |z| > limit
    ensures var r := IndexReply(z, map[], [], None, limit); r.hasMore && r.items == [] && r.nextCursor.None?
  {
    DeadPageIff(z, map[], [], None, limit);
    assert Skip(ByIndex, None, Reversed(z)) == 0;
    NothingResolvesIff(map[], [], Ids(PageOf(ByIndex, Reversed(z), None, limit).items));
    hide ResolveAll;
  }
}
