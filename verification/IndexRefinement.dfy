/** The index path of IssueQueryService.list against the database path. */
module IndexRefinement {
  import opened Ordering
  import opened SortedSets
  import opened Wrappers
  import opened KeysetPaging
  import opened Listings
  import opened SprintIndexListing
  import Arithmetic

  /** A database key as the index scores it: createdAt in whole milliseconds. */
  function Scored(k: Key): Key { Key(k.t / 1000, k.id) }

  function ScoredAll(ks: seq<Key>): (r: seq<Key>)
    ensures |r| == |ks| && forall i :: 0 <= i < |ks| ==> r[i] == Scored(ks[i])
  {
    seq(|ks|, i requires 0 <= i < |ks| => Scored(ks[i]))
  }

  /** The index holds exactly the live matching issues, each scored by its creation time. */
  ghost predicate IndexExact(z: ZSet, table: seq<Row>, w: Where) {
    && (forall r :: r in table && Holds(w, r) ==> "deletedAt" !in r.cols && Scored(r.key) in z)
    && forall k :: k in z ==> exists r :: r in table && Holds(w, r) && Scored(r.key) == k
  }

  /** Cached entities are live rows. */
  ghost predicate CacheSound(cache: map<string, Row>, table: seq<Row>) {
    forall id :: id in cache ==> cache[id] in table && cache[id].key.id == id && "deletedAt" !in cache[id].cols
  }

  ghost predicate DistinctScores(z: seq<Key>) {
    forall i, j :: 0 <= i < j < |z| ==> z[i].t != z[j].t
  }

  /** On an exact index the fast path serves precisely the page's live issues, and its next
      cursor text leads where the index page's own cursor does. */
  lemma FastPageExact(z: ZSet, cache: map<string, Row>, table: seq<Row>, w: Where, c: Option<Cursor>, limit: nat)
    requires ValidTable(table) && IndexExact(z, table, w) && CacheSound(cache, table) && limit >= 1
    ensures var p, r := PageOf(ByIndex, Reversed(z), c, limit), IndexReply(z, cache, table, c, limit);
      && Serves(table, w, p.items, r.items) && r.hasMore == p.hasMore
      && (r.nextCursor.Some? <==> p.next.Some?)
      && FromScore(r.nextCursor) == p.next && !RefusedScore(r.nextCursor)
  {
    hide IndexExact, CacheSound, ValidTable, ResolveAll, ParseScore, RenderScore, PageOf, Reversed, Serves, Ids;
    var p := PageOf(ByIndex, Reversed(z), c, limit);
    IndexPage(z, c, limit);
    ResolveExact(z, cache, table, w, p.items);
    if p.hasMore { NextReadsBack(table, w, p.items, ResolveAll(cache, table, Ids(p.items))); }
  }

  /** A page of the index: its members, and the cursor it would hand out. */
  lemma IndexPage(z: ZSet, c: Option<Cursor>, limit: nat)
    requires limit >= 1
    ensures var p := PageOf(ByIndex, Reversed(z), c, limit);
      && (forall k :: k in p.items ==> k in z)
      && (p.next.Some? <==> p.hasMore)
      && (p.hasMore ==> p.items != [] && var k := p.items[|p.items| - 1]; p.next == Some(Cursor(k.t, k.id)))
  {
    ReversedSorted(z);
    PageOfHolds(ByIndex, Reversed(z), c, limit);
    assert PageOf(ByIndex, Reversed(z), c, limit).next.Some? ==> PageOf(ByIndex, Reversed(z), c, limit).hasMore;
    hide PageOf, Reversed, Sorted, Before;
  }

  /** items are live matching rows, one for each key and in the order of the keys. */
  ghost predicate Serves(table: seq<Row>, w: Where, ks: seq<Key>, items: seq<Row>) {
    && |items| == |ks|
    && forall i :: 0 <= i < |items| ==> items[i] in table && Holds(w, items[i]) && Scored(items[i].key) == ks[i]
  }

  lemma NextReadsBack(table: seq<Row>, w: Where, ks: seq<Key>, items: seq<Row>)
    requires ValidTable(table) && Serves(table, w, ks, items) && ks != []
    ensures var k, next := ks[|ks| - 1], NextFrom(items, true);
      next.Some? && next.value != "" && ParseScore(next.value) == Some(Cursor(k.t, k.id))
  {
    var last := items[|items| - 1];
    RenderParseScore(Cursor(last.key.t / 1000, last.key.id));
    ScoreTruthy(Cursor(last.key.t / 1000, last.key.id));
    hide ParseScore, RenderScore;
  }

  /** One member of an exact index resolves to its live matching row. */
  lemma ResolveMember(z: ZSet, cache: map<string, Row>, table: seq<Row>, w: Where, k: Key)
    requires ValidTable(table) && IndexExact(z, table, w) && CacheSound(cache, table) && k in z
    ensures var r := Resolve(cache, table, k.id);
      r.Some? && r.value in table && Holds(w, r.value) && Scored(r.value.key) == k
  {
    var r :| r in table && Holds(w, r) && Scored(r.key) == k;
    hide Holds, ValidTable, LiveRow;
    LiveRowIs(table, r.key.id, r);
    if k.id in cache { LiveRowIs(table, k.id, cache[k.id]); }
  }

  lemma {:induction false} ResolveExact(z: ZSet, cache: map<string, Row>, table: seq<Row>, w: Where, ks: seq<Key>)
    requires ValidTable(table) && IndexExact(z, table, w) && CacheSound(cache, table)
    requires forall k :: k in ks ==> k in z
    ensures Serves(table, w, ks, ResolveAll(cache, table, Ids(ks)))
  {
    hide ValidTable, IndexExact, CacheSound, Holds, Resolve, LiveRow;
    if ks != [] {
      ResolveExact(z, cache, table, w, ks[1..]);
      assert Ids(ks)[1..] == Ids(ks[1..]);
      ResolveMember(z, cache, table, w, ks[0]);
    }
  }

  /** An exact index with distinct scores lists the issues in database order. */
  lemma IndexOrderIsListing(z: ZSet, table: seq<Row>, w: Where)
    requires ValidTable(table) && IndexExact(z, table, w) && DistinctScores(z)
    ensures Reversed(z) == ScoredAll(Listing(ByDbDesc, table, w))
  {
    var xs := Listing(ByDbDesc, table, w);
    var ys := ScoredAll(xs);
    ListingSorted(ByDbDesc, table, w);
    ReversedSorted(z);
    forall k ensures k in ys <==> k in Reversed(z) {
      if k in ys {
        var i :| 0 <= i < |ys| && ys[i] == k;
        assert xs[i] in xs;
      }
      if k in z {
        var r :| r in table && Holds(w, r) && Scored(r.key) == k;
        assert r.key in xs;
        var i :| 0 <= i < |xs| && xs[i] == r.key;
        assert ys[i] == k;
      }
    }
    forall i, j | 0 <= i < j < |ys| ensures Before(Desc, ys[i], ys[j]) { ScoresDescend(z, table, w, xs, i, j); }
    SortedUnique(Desc, ys, Reversed(z));
  }

  /** Later rows of the listing have strictly smaller scores. */
  lemma ScoresDescend(z: ZSet, table: seq<Row>, w: Where, xs: seq<Key>, i: nat, j: nat)
    requires ValidTable(table) && IndexExact(z, table, w) && DistinctScores(z)
    requires xs == Listing(ByDbDesc, table, w) && i < j < |xs|
    ensures xs[j].t / 1000 < xs[i].t / 1000
  {
    ListingSorted(ByDbDesc, table, w);
    assert xs[i] in xs && xs[j] in xs;
    assert Before(Desc, xs[i], xs[j]);
    var ri :| ri in table && ri.key == xs[i] && Holds(w, ri);
    var rj :| rj in table && rj.key == xs[j] && Holds(w, rj);
    BeforeOrder(Desc, xs[i], xs[j], xs[i]);
    assert Scored(xs[i]) in z && Scored(xs[j]) in z;
    assert xs[i].id != xs[j].id by {
      var a :| 0 <= a < |table| && table[a] == ri;
      var b :| 0 <= b < |table| && table[b] == rj;
      assert ri != rj ==> a != b;
    }
    var a :| 0 <= a < |z| && z[a] == Scored(xs[i]);
    var b :| 0 <= b < |z| && z[b] == Scored(xs[j]);
  }

  /** Page by page, the keys behind an exact index are the listing's, in the same order. */
  lemma IndexPagesAreListing(z: ZSet, table: seq<Row>, w: Where, limit: nat, fuel: nat)
    requires ValidTable(table) && IndexExact(z, table, w) && DistinctScores(z) && limit >= 1 && fuel > |z|
    ensures var fast := Traverse(ByIndex, Reversed(z), None, limit, fuel);
      var xs := Listing(ByDbDesc, table, w);
      var slow := Traverse(ByDbDesc, xs, None, limit, fuel);
      && Finished(fast) && Finished(slow) && |fast| == |slow|
      && Concat(slow) == xs && Concat(fast) == ScoredAll(xs)
  {
    var xs := Listing(ByDbDesc, table, w);
    var ys := Reversed(z);
    ListingSorted(ByDbDesc, table, w);
    ReversedSorted(z);
    IndexOrderIsListing(z, table, w);
    forall e | 0 < e < |xs| ensures CleanAt(ByDbDesc, xs, e) && CleanAt(ByIndex, ys, e) {
      ScoresDescend(z, table, w, xs, e - 1, e);
      CleanMeans(ByDbDesc, xs, e);
      CleanMeans(ByIndex, ys, e);
    }
    CleanEverywhere(ByDbDesc, xs, limit, 0);
    CleanEverywhere(ByIndex, ys, limit, 0);
    StaticPaging(ByDbDesc, xs, limit, fuel);
    StaticPaging(ByIndex, ys, limit, fuel);
  }

  // ---------------------------------------------------------------- following nextCursor

  /** The client's loop on a warm index: send each reply's nextCursor text back until there is
      none, at most fuel times. */
  function FollowIndex(z: ZSet, cache: map<string, Row>, table: seq<Row>, cursor: Option<string>, limit: nat, fuel: nat): seq<IssuePage>
    decreases fuel
  {
    if fuel == 0 || RefusedScore(cursor) then []
    else
      var r := IndexReply(z, cache, table, FromScore(cursor), limit);
      [r] + if r.nextCursor.Some? then FollowIndex(z, cache, table, r.nextCursor, limit, fuel - 1) else []
  }

  /** The rows of all replies, one after the other. */
  function Rows(rs: seq<IssuePage>): seq<Row> {
    if rs == [] then [] else rs[0].items + Rows(rs[1..])
  }

  /** The replies serve these pages. */
  ghost predicate ServePages(table: seq<Row>, w: Where, rs: seq<IssuePage>, ps: seq<Page>) {
    && |rs| == |ps| && Serves(table, w, Concat(ps), Rows(rs))
    && forall i :: 0 <= i < |rs| ==> rs[i].hasMore == ps[i].hasMore
  }

  lemma ServeCons(table: seq<Row>, w: Where, r: IssuePage, p: Page, rs: seq<IssuePage>, ps: seq<Page>)
    requires Serves(table, w, p.items, r.items) && r.hasMore == p.hasMore && ServePages(table, w, rs, ps)
    ensures ServePages(table, w, [r] + rs, [p] + ps)
  {
    hide Holds;
    assert ([r] + rs)[1..] == rs && ([p] + ps)[1..] == ps;
    assert Rows([r] + rs) == r.items + Rows(rs) && Concat([p] + ps) == p.items + Concat(ps);
  }

  lemma UnfoldIndex(z: ZSet, cache: map<string, Row>, table: seq<Row>, cursor: Option<string>, limit: nat, fuel: nat)
    requires !RefusedScore(cursor) && fuel > 0
    ensures var r := IndexReply(z, cache, table, FromScore(cursor), limit);
      FollowIndex(z, cache, table, cursor, limit, fuel) ==
        [r] + if r.nextCursor.Some? then FollowIndex(z, cache, table, r.nextCursor, limit, fuel - 1) else []
    ensures var p := PageOf(ByIndex, Reversed(z), FromScore(cursor), limit);
      Traverse(ByIndex, Reversed(z), FromScore(cursor), limit, fuel) ==
        [p] + if p.next.Some? then Traverse(ByIndex, Reversed(z), p.next, limit, fuel - 1) else []
  {
    hide PageOf, FromScore, RefusedScore, IndexReply, Reversed;
  }

  lemma NoFuel(z: ZSet, cache: map<string, Row>, table: seq<Row>, w: Where, cursor: Option<string>, limit: nat)
    ensures FollowIndex(z, cache, table, cursor, limit, 0) == []
    ensures Traverse(ByIndex, Reversed(z), FromScore(cursor), limit, 0) == []
    ensures ServePages(table, w, [], [])
  {
    hide FromScore, Reversed;
  }

  lemma {:induction false} FollowIndexServes(z: ZSet, cache: map<string, Row>, table: seq<Row>, w: Where,
                                             cursor: Option<string>, limit: nat, fuel: nat)
    requires ValidTable(table) && IndexExact(z, table, w) && CacheSound(cache, table) && limit >= 1 && !RefusedScore(cursor)
    ensures ServePages(table, w, FollowIndex(z, cache, table, cursor, limit, fuel),
                       Traverse(ByIndex, Reversed(z), FromScore(cursor), limit, fuel))
    decreases fuel
  {
    hide FollowIndex, Traverse, PageOf, FromScore, RefusedScore, IndexReply, Reversed, ServePages, Serves, IndexExact, CacheSound, ValidTable;
    NoFuel(z, cache, table, w, cursor, limit);
    if fuel > 0 {
      var c := FromScore(cursor);
      var p, r := PageOf(ByIndex, Reversed(z), c, limit), IndexReply(z, cache, table, c, limit);
      FastPageExact(z, cache, table, w, c, limit);
      UnfoldIndex(z, cache, table, cursor, limit, fuel);
      var rs, ps: seq<Page> := [], [];
      if r.nextCursor.Some? {
        FollowIndexServes(z, cache, table, w, r.nextCursor, limit, fuel - 1);
        rs, ps := FollowIndex(z, cache, table, r.nextCursor, limit, fuel - 1), Traverse(ByIndex, Reversed(z), p.next, limit, fuel - 1);
      }
      ServeCons(table, w, r, p, rs, ps);
    }
  }

  /** Rows that serve the scored keys of listed rows are those rows. */
  lemma ServedRows(table: seq<Row>, w: Where, xs: seq<Key>, rows: seq<Row>)
    requires ValidTable(table) && Serves(table, w, ScoredAll(xs), rows)
    requires forall k :: k in xs ==> exists r :: r in table && r.key == k
    ensures KeysOf(rows) == xs
  {
    hide Holds, CanBeCursor;
    forall i | 0 <= i < |rows| ensures rows[i].key == xs[i] {
      assert xs[i] in xs && rows[i] in table;
      var r :| r in table && r.key == xs[i];
      var a :| 0 <= a < |table| && table[a] == r;
      var b :| 0 <= b < |table| && table[b] == rows[i];
      assert table[a].key.id == table[b].key.id;
    }
  }

  function KeysOf(rows: seq<Row>): (ks: seq<Key>)
    ensures |ks| == |rows| && forall i :: 0 <= i < |rows| ==> ks[i] == rows[i].key
  {
    seq(|rows|, i requires 0 <= i < |rows| => rows[i].key)
  }

  /** On an exact index with distinct scores and a sound entity cache, a client that follows
      the index's nextCursor texts to the end receives, in as many replies, exactly the live
      matching rows in the order in which a client that follows the database's cursor texts
      receives them: the whole listing, for every page size. */
  lemma FastPathRefinesDatabase(dates: DateReader, z: ZSet, cache: map<string, Row>, table: seq<Row>, w: Where, limit: nat, fuel: nat)
    requires ValidTable(table) && IndexExact(z, table, w) && DistinctScores(z) && CacheSound(cache, table)
    requires limit >= 1 && fuel > |z|
    ensures var fast := FollowIndex(z, cache, table, None, limit, fuel);
      var slow := Follow(dates, ByDbDesc, table, w, None, limit, fuel);
      && fast != [] && !fast[|fast| - 1].hasMore && Ended(slow) && |fast| == |slow|
      && KeysOf(Rows(fast)) == Items(slow) == Listing(ByDbDesc, table, w)
      && forall i :: 0 <= i < |Rows(fast)| ==> Rows(fast)[i] in table && Holds(w, Rows(fast)[i])
  {
    hide FollowIndex, Follow, Traverse, Listing, FromScore, RefusedScore, From, Refused, IndexExact, CacheSound, DistinctScores, Reversed, Holds, Carries;
    var xs := Listing(ByDbDesc, table, w);
    IndexPagesAreListing(z, table, w, limit, fuel);
    Starts(dates);
    FollowIndexServes(z, cache, table, w, None, limit, fuel);
    FollowIsTraverse(dates, ByDbDesc, table, w, None, limit, fuel);
    EndsAsTraverse(Follow(dates, ByDbDesc, table, w, None, limit, fuel), Traverse(ByDbDesc, xs, None, limit, fuel));
    ListedInTable(table, w);
    ServedRows(table, w, xs, Rows(FollowIndex(z, cache, table, None, limit, fuel)));
  }

  lemma Starts(dates: DateReader)
    ensures !Refused(dates, None) && From(dates, None) == None && !RefusedScore(None) && FromScore(None) == None
  {}

  lemma EndsAsTraverse(rs: seq<Reply>, ps: seq<Page>)
    requires Matches(rs, ps) && Finished(ps)
    ensures Ended(rs) && |rs| == |ps| && Items(rs) == Concat(ps)
  {
    CarriesMeans(rs[|rs| - 1], ps[|ps| - 1]);
    hide Carries;
  }

  lemma ListedInTable(table: seq<Row>, w: Where)
    requires ValidTable(table)
    ensures forall k :: k in Listing(ByDbDesc, table, w) ==> exists r :: r in table && r.key == k
  {
    ListingSorted(ByDbDesc, table, w);
  }

  /** No page boundary falls between two issues of the same millisecond. */
  ghost predicate NoTieAtBoundary(ys: seq<Key>, limit: nat) {
    forall k :: 0 < k * limit < |ys| ==> ys[k * limit].t < ys[k * limit - 1].t
  }

  /** With equal scores, following the index's cursor texts serves every issue of the index, in
      order, if and only if no page boundary splits a tie. */
  lemma FastPathTies(z: ZSet, cache: map<string, Row>, table: seq<Row>, w: Where, limit: nat, fuel: nat)
    requires ValidTable(table) && IndexExact(z, table, w) && CacheSound(cache, table) && limit >= 1 && fuel > |z|
    ensures Serves(table, w, Reversed(z), Rows(FollowIndex(z, cache, table, None, limit, fuel))) <==>
      NoTieAtBoundary(Reversed(z), limit)
  {
    hide FollowIndex, Traverse, Concat, FromScore, RefusedScore, IndexExact, CacheSound, ValidTable, NoTieAtBoundary, CleanFrom, Holds;
    var ys := Reversed(z);
    assert !RefusedScore(None) && FromScore(None) == None by { StartsAtTop(); }
    assert Sorted(Desc, ys) && |ys| == |z| by { ReversedSorted(z); }
    hide Reversed, Sorted;
    StaticPaging(ByIndex, ys, limit, fuel);
    CleanIsTieFree(ys, limit);
    FollowIndexServes(z, cache, table, w, None, limit, fuel);
    ServesOnce(table, w, Concat(Traverse(ByIndex, ys, None, limit, fuel)), ys, Rows(FollowIndex(z, cache, table, None, limit, fuel)));
  }

  lemma StartsAtTop()
    ensures !RefusedScore(None) && FromScore(None) == None
  {}

  /** Rows serve one key sequence only. */
  lemma ServesOnce(table: seq<Row>, w: Where, ks: seq<Key>, ls: seq<Key>, rows: seq<Row>)
    requires Serves(table, w, ks, rows)
    ensures Serves(table, w, ls, rows) <==> ks == ls
  {
    hide Holds;
    if Serves(table, w, ls, rows) { assert forall i :: 0 <= i < |ks| ==> ks[i] == ls[i]; }
  }

  lemma CleanIsTieFree(ys: seq<Key>, limit: nat)
    requires limit >= 1 && Sorted(Desc, ys)
    ensures CleanFrom(ByIndex, ys, limit, 0) <==> NoTieAtBoundary(ys, limit)
  {
    hide CleanAt, CleanFrom;
    assert 0 * limit == 0;
    BoundariesAreMultiples(ByIndex, ys, limit, 0);
    forall k | 0 < k * limit < |ys|
      ensures k > 0 && (CleanAt(ByIndex, ys, k * limit) <==> ys[k * limit].t < ys[k * limit - 1].t)
    {
      if k <= 0 { Arithmetic.MulMono(k, 0, limit); }
      CleanMeans(ByIndex, ys, k * limit);
    }
  }

  lemma {:induction false} BoundariesAreMultiples(m: Mode, xs: seq<Key>, limit: nat, j: nat)
    requires limit >= 1
    ensures CleanFrom(m, xs, limit, j * limit) <==>
      forall k :: k > j && 0 < k * limit < |xs| ==> CleanAt(m, xs, k * limit)
    decreases |xs| - j * limit
  {
    assert (j + 1) * limit == j * limit + limit;
    if (j + 1) * limit < |xs| {
      BoundariesAreMultiples(m, xs, limit, j + 1);
    } else {
      forall k | k > j ensures k * limit >= |xs| { Arithmetic.MulMono(j + 1, k, limit); }
    }
  }
}
