/** Keyset pagination over a listing, and whole traversals that follow nextCursor.

    Three listings share the protocol and differ in how the next page starts:
      ByDbDesc  createdAt DESC, id DESC   (issues, activity feed)
      ByDbAsc   createdAt ASC, id ASC     (comments)
      ByIndex   score DESC, member DESC   (Redis sprint index)
    A database key's time is in microseconds (datetime(6)); the cursor keeps only whole
    milliseconds, because it is rendered from a JavaScript Date.  A sorted-set score is
    already in milliseconds. */
module KeysetPaging {
  import opened Ordering
  import opened Wrappers

  datatype Mode = ByDbDesc | ByDbAsc | ByIndex

  datatype Cursor = Cursor(ms: int, id: string)

  datatype Page = Page(items: seq<Key>, next: Option<Cursor>, hasMore: bool)

  function Dir(m: Mode): Direction {
    if m.ByDbAsc? then Asc else Desc
  }

  /** The cursor rendered from the last item of a page. */
  function CursorOf(m: Mode, last: Key): Cursor {
    Cursor(if m.ByIndex? then last.t else last.t / 1000, last.id)
  }

  /** The WHERE condition (or exclusive score bound) that a cursor adds. */
  predicate After(m: Mode, c: Option<Cursor>, k: Key) {
    c.None? || match m
               case ByDbDesc => KeyLt(k, Key(c.value.ms * 1000, c.value.id))
               case ByDbAsc => KeyLt(Key(c.value.ms * 1000, c.value.id), k)
               case ByIndex => k.t < c.value.ms
  }

  /** How many rows at the head of the listing the cursor rules out. */
  function Skip(m: Mode, c: Option<Cursor>, xs: seq<Key>): (b: nat)
    ensures b <= |xs|
  {
    if xs == [] || After(m, c, xs[0]) then 0 else 1 + Skip(m, c, xs[1..])
  }

  /** The page that starts at position b. */
  function PageAt(m: Mode, xs: seq<Key>, b: nat, limit: nat): Page
    requires b <= |xs|
  {
    if b + limit >= |xs| then Page(xs[b..], None, false)
    else Page(xs[b..b + limit], if limit == 0 then None else Some(CursorOf(m, xs[b + limit - 1])), true)
  }

  function PageOf(m: Mode, xs: seq<Key>, c: Option<Cursor>, limit: nat): Page {
    PageAt(m, xs, Skip(m, c, xs), limit)
  }

  function Concat(pages: seq<Page>): seq<Key> {
    if pages == [] then [] else pages[0].items + Concat(pages[1..])
  }

  /** The client's loop over an unchanging listing, cut off after fuel pages. */
  function Traverse(m: Mode, xs: seq<Key>, c: Option<Cursor>, limit: nat, fuel: nat): (ps: seq<Page>)
    ensures fuel > 0 ==> |ps| > 0 && ps[0] == PageOf(m, xs, c, limit)
    decreases fuel
  {
    if fuel == 0 then []
    else
      var p := PageOf(m, xs, c, limit);
      if p.next.Some? then [p] + Traverse(m, xs, p.next, limit, fuel - 1) else [p]
  }

  predicate Finished(pages: seq<Page>) {
    pages != [] && !pages[|pages| - 1].hasMore
  }

  // ---------------------------------------------------------------- one page

  lemma AfterUpward(m: Mode, c: Option<Cursor>, a: Key, b: Key)
    requires Before(Dir(m), a, b) && After(m, c, a)
    ensures After(m, c, b)
  {
    if c.Some? {
      var k := Key(c.value.ms * 1000, c.value.id);
      BeforeOrder(Dir(m), k, a, b);
    }
  }

  /** A cursor selects exactly a suffix of the sorted listing. */
  lemma {:induction false} SkipSplits(m: Mode, c: Option<Cursor>, xs: seq<Key>)
    requires Sorted(Dir(m), xs)
    ensures forall i :: 0 <= i < |xs| ==> (After(m, c, xs[i]) <==> i >= Skip(m, c, xs))
  {
    if xs != [] {
      if After(m, c, xs[0]) {
        forall j | 0 < j < |xs| ensures After(m, c, xs[j]) { AfterUpward(m, c, xs[0], xs[j]); }
      } else {
        SkipSplits(m, c, xs[1..]);
        assert forall i :: 0 < i < |xs| ==> xs[i] == xs[1..][i - 1];
      }
    }
  }

  /** In the database listings hasMore always comes with a cursor, for every listing exactly
      when limit is not 0. */
  lemma CursorPresent(limit: nat)
    ensures limit >= 1 <==>
      forall m: Mode, xs: seq<Key>, c: Option<Cursor> :: !m.ByIndex? && PageOf(m, xs, c, limit).hasMore ==> PageOf(m, xs, c, limit).next.Some?
  {
    if limit == 0 {
      var xs := [Key(0, "")];
      assert Skip(ByDbDesc, None, xs) == 0;
      assert !(PageOf(ByDbDesc, xs, None, 0).hasMore ==> PageOf(ByDbDesc, xs, None, 0).next.Some?);
    }
  }

  // ---------------------------------------------------------------- unchanging listing

  /** The page boundary before position b splits the listing cleanly: the cursor made from
      row b - 1 admits row b and does not admit row b - 1 again. */
  predicate CleanAt(m: Mode, xs: seq<Key>, b: nat)
    requires 0 < b < |xs|
  {
    var c := Some(CursorOf(m, xs[b - 1]));
    After(m, c, xs[b]) && !After(m, c, xs[b - 1])
  }

  predicate CleanFrom(m: Mode, xs: seq<Key>, limit: nat, b: nat)
    requires limit >= 1
    decreases |xs| - b
  {
    b + limit >= |xs| || (CleanAt(m, xs, b + limit) && CleanFrom(m, xs, limit, b + limit))
  }

  /** max(1, ceil(n / limit)) */
  function PagesNeeded(n: nat, limit: nat): nat
    requires limit >= 1
  {
    if n <= limit then 1 else 1 + PagesNeeded(n - limit, limit)
  }

  lemma {:induction false} PagesNeededIsCeiling(n: nat, limit: nat)
    requires limit >= 1
    ensures var r := PagesNeeded(n, limit); r >= 1 && n <= r * limit && (n > 0 ==> (r - 1) * limit < n)
  {
    if n > limit {
      PagesNeededIsCeiling(n - limit, limit);
      var q := PagesNeeded(n - limit, limit);
      assert (q + 1) * limit == q * limit + limit && (q - 1) * limit == q * limit - limit;
    }
  }

  /** The pages cut ys into consecutive runs of exactly limit rows and a last, shorter one. */
  predicate Partition(ps: seq<Page>, ys: seq<Key>, limit: nat)
    requires limit >= 1
    decreases |ys|
  {
    && ps != []
    && if |ys| <= limit then |ps| == 1 && ps[0].items == ys && !ps[0].hasMore
       else ps[0].items == ys[..limit] && Partition(ps[1..], ys[limit..], limit)
  }

  lemma {:induction false} PartitionMeans(ps: seq<Page>, ys: seq<Key>, limit: nat)
    requires limit >= 1 && Partition(ps, ys, limit)
    ensures Finished(ps) && Concat(ps) == ys && |ps| == PagesNeeded(|ys|, limit)
    decreases |ys|
  {
    var tail := ps[1..];
    assert Concat(ps) == ps[0].items + Concat(tail);
    if |ys| <= limit {
      assert tail == [];
    } else {
      PartitionMeans(tail, ys[limit..], limit);
      assert ys == ys[..limit] + ys[limit..];
      assert ps[|ps| - 1] == tail[|tail| - 1];
    }
  }

  lemma {:induction false} PartitionFull(ps: seq<Page>, ys: seq<Key>, limit: nat, i: nat)
    requires limit >= 1 && Partition(ps, ys, limit) && i < |ps| - 1
    ensures |ps[i].items| == limit
    decreases i
  {
    if i > 0 { PartitionFull(ps[1..], ys[limit..], limit, i - 1); }
  }

  lemma CleanIsSkip(m: Mode, xs: seq<Key>, b: nat)
    requires Sorted(Dir(m), xs) && 0 < b < |xs|
    ensures CleanAt(m, xs, b) <==> Skip(m, Some(CursorOf(m, xs[b - 1])), xs) == b
  {
    SkipSplits(m, Some(CursorOf(m, xs[b - 1])), xs);
  }

  lemma {:induction false} WalkClean(m: Mode, xs: seq<Key>, c: Option<Cursor>, limit: nat, b: nat, fuel: nat)
    requires Sorted(Dir(m), xs) && limit >= 1 && b <= |xs| && fuel > |xs| - b && Skip(m, c, xs) == b
    requires CleanFrom(m, xs, limit, b)
    ensures Partition(Traverse(m, xs, c, limit, fuel), xs[b..], limit)
    decreases fuel
  {
    if b + limit < |xs| {
      var e := b + limit;
      var next := Some(CursorOf(m, xs[e - 1]));
      CleanIsSkip(m, xs, e);
      WalkClean(m, xs, next, limit, e, fuel - 1);
      PartitionCons(PageAt(m, xs, b, limit), Traverse(m, xs, next, limit, fuel - 1), xs, limit, b);
    }
  }

  lemma PartitionCons(p: Page, tail: seq<Page>, xs: seq<Key>, limit: nat, b: nat)
    requires limit >= 1 && b + limit < |xs| && p.items == xs[b..b + limit]
    requires Partition(tail, xs[b + limit..], limit)
    ensures Partition([p] + tail, xs[b..], limit)
  {
    assert xs[b..][limit..] == xs[b + limit..] && xs[b..][..limit] == xs[b..b + limit];
    assert ([p] + tail)[1..] == tail;
  }

  /** Following the cursor gives back exactly the rows from position b on. */
  ghost predicate Covers(m: Mode, xs: seq<Key>, c: Option<Cursor>, limit: nat, fuel: nat, b: nat)
    requires b <= |xs|
  {
    Concat(Traverse(m, xs, c, limit, fuel)) == xs[b..]
  }

  lemma {:induction false} WalkDirty(m: Mode, xs: seq<Key>, c: Option<Cursor>, limit: nat, b: nat, fuel: nat)
    requires Sorted(Dir(m), xs) && limit >= 1 && b <= |xs| && fuel > |xs| - b && Skip(m, c, xs) == b
    requires !CleanFrom(m, xs, limit, b)
    ensures !Covers(m, xs, c, limit, fuel, b)
    decreases fuel
  {
    hide Covers;
    var e := b + limit;
    var next := Some(CursorOf(m, xs[e - 1]));
    FirstPageOff(m, xs, c, limit, b, fuel);
    CleanIsSkip(m, xs, e);
    if Skip(m, next, xs) == e {
      WalkDirty(m, xs, next, limit, e, fuel - 1);
    } else {
      DirtyTail(m, xs, next, limit, e, fuel - 1);
    }
  }

  /** Taking a full first page off the walk takes its rows off the result. */
  lemma FirstPageOff(m: Mode, xs: seq<Key>, c: Option<Cursor>, limit: nat, b: nat, fuel: nat)
    requires limit >= 1 && b + limit < |xs| && fuel > 0 && Skip(m, c, xs) == b
    ensures Covers(m, xs, c, limit, fuel, b) ==>
      Covers(m, xs, Some(CursorOf(m, xs[b + limit - 1])), limit, fuel - 1, b + limit)
  {
    var p, e := PageAt(m, xs, b, limit), b + limit;
    var tail := Traverse(m, xs, p.next, limit, fuel - 1);
    assert ([p] + tail)[1..] == tail;
    assert Concat([p] + tail)[limit..] == Concat(tail);
    assert xs[b..][limit..] == xs[e..];
  }

  /** After an unclean boundary the remaining pages cannot be the remaining rows. */
  lemma DirtyTail(m: Mode, xs: seq<Key>, c: Option<Cursor>, limit: nat, e: nat, fuel: nat)
    requires Sorted(Dir(m), xs) && limit >= 1 && e < |xs| && fuel > 0 && Skip(m, c, xs) != e
    ensures !Covers(m, xs, c, limit, fuel, e)
  {
    var s := Skip(m, c, xs);
    var ps := Traverse(m, xs, c, limit, fuel);
    var p := PageAt(m, xs, s, limit);
    if s == |xs| {
      assert ps == [p] && Concat([p]) == p.items + Concat([]);
    } else {
      assert Concat(ps)[0] == p.items[0] == xs[s];
      BeforeOrder(Dir(m), xs[s], xs[e], xs[s]);
      assert xs[e..][0] == xs[e] != xs[s];
    }
  }

  /** Following nextCursor to the end returns the whole listing, in order, in
      max(1, ceil(n / limit)) pages of exactly limit rows except the last — if and only if
      every page boundary is clean; otherwise the pages are not the listing. */
  lemma StaticPaging(m: Mode, xs: seq<Key>, limit: nat, fuel: nat)
    requires Sorted(Dir(m), xs) && limit >= 1 && fuel > |xs|
    ensures var ps := Traverse(m, xs, None, limit, fuel);
      && (CleanFrom(m, xs, limit, 0) <==> Concat(ps) == xs)
      && (CleanFrom(m, xs, limit, 0) ==>
            && Finished(ps) && |ps| == PagesNeeded(|xs|, limit)
            && forall i :: 0 <= i < |ps| - 1 ==> |ps[i].items| == limit)
  {
    assert xs[0..] == xs;
    var ps := Traverse(m, xs, None, limit, fuel);
    if CleanFrom(m, xs, limit, 0) {
      WalkClean(m, xs, None, limit, 0, fuel);
      PartitionMeans(ps, xs, limit);
      forall i | 0 <= i < |ps| - 1 ensures |ps[i].items| == limit { PartitionFull(ps, xs, limit, i); }
    } else {
      WalkDirty(m, xs, None, limit, 0, fuel);
      assert !Covers(m, xs, None, limit, fuel, 0);
    }
  }

  /** What a clean boundary means for each listing. */
  lemma CleanMeans(m: Mode, xs: seq<Key>, b: nat)
    requires Sorted(Dir(m), xs) && 0 < b < |xs|
    ensures m.ByDbAsc? ==> (CleanAt(m, xs, b) <==> xs[b - 1].t % 1000 == 0)
    ensures m.ByDbDesc? ==>
      (CleanAt(m, xs, b) <==> KeyLt(xs[b], Key(xs[b - 1].t - xs[b - 1].t % 1000, xs[b - 1].id)))
    ensures m.ByIndex? ==> (CleanAt(m, xs, b) <==> xs[b].t < xs[b - 1].t)
  {
    var a, k := xs[b - 1], xs[b];
    assert a.t / 1000 * 1000 == a.t - a.t % 1000;
    assert Before(Dir(m), a, k);
    BeforeOrder(Asc, a, a, a);
    var cut := Key(a.t / 1000 * 1000, a.id);
    if a.t % 1000 == 0 { assert cut == a; } else { assert KeyLt(cut, a); }
    BeforeOrder(Asc, cut, a, k);
  }

  lemma {:induction false} CleanEverywhere(m: Mode, xs: seq<Key>, limit: nat, b: nat)
    requires Sorted(Dir(m), xs) && limit >= 1
    requires forall e :: 0 < e < |xs| ==> CleanAt(m, xs, e)
    ensures CleanFrom(m, xs, limit, b)
    decreases |xs| - b
  {
    if b + limit < |xs| { CleanEverywhere(m, xs, limit, b + limit); }
  }

  /** A comment listing whose first page ends inside the millisecond it starts in never
      ends: every page is the first page again, however long the client follows. */
  lemma {:induction false} AscendingStuck(xs: seq<Key>, c: Option<Cursor>, limit: nat, fuel: nat)
    requires Sorted(Asc, xs) && 1 <= limit < |xs| && fuel >= 1
    requires Skip(ByDbAsc, c, xs) == 0
    requires After(ByDbAsc, Some(CursorOf(ByDbAsc, xs[limit - 1])), xs[0])
    ensures var ps := Traverse(ByDbAsc, xs, c, limit, fuel);
      |ps| == fuel && !Finished(ps) && forall i :: 0 <= i < fuel ==> ps[i].items == xs[..limit]
    decreases fuel
  {
    var next := Some(CursorOf(ByDbAsc, xs[limit - 1]));
    assert xs[0..limit] == xs[..limit] && Skip(ByDbAsc, next, xs) == 0;
    if fuel > 1 {
      AscendingStuck(xs, next, limit, fuel - 1);
      var ps, tail := Traverse(ByDbAsc, xs, c, limit, fuel), Traverse(ByDbAsc, xs, next, limit, fuel - 1);
      assert ps == [ps[0]] + tail;
    }
  }

  // ---------------------------------------------------------------- changing listing

  /** pages[i] was fetched from listing snaps[i] with the cursor of pages[i - 1]. */
  ghost predicate Fetched(m: Mode, snaps: seq<seq<Key>>, limit: nat, pages: seq<Page>, i: nat)
    requires i < |pages| == |snaps|
  {
    && Sorted(Dir(m), snaps[i])
    && pages[i] == PageOf(m, snaps[i], CursorAt(pages, i), limit)
    && (i < |pages| - 1 ==> pages[i].hasMore && pages[i].next.Some?)
  }

  ghost predicate Chain(m: Mode, snaps: seq<seq<Key>>, limit: nat, pages: seq<Page>) {
    && |snaps| == |pages| > 0
    && forall i :: 0 <= i < |pages| ==> Fetched(m, snaps, limit, pages, i)
  }

  function CursorAt(pages: seq<Page>, i: nat): Option<Cursor>
    requires i < |pages|
  {
    if i == 0 then None else pages[i - 1].next
  }

  function Last(p: Page): Key
    requires p.items != []
  {
    p.items[|p.items| - 1]
  }

  /** The cursor never leads back to a row at or before the page's last row. */
  ghost predicate NoBackslide(m: Mode, snaps: seq<seq<Key>>, pages: seq<Page>)
    requires |snaps| == |pages|
  {
    forall i, k | 0 <= i < |pages| - 1 && pages[i].items != [] && k in snaps[i + 1] && After(m, pages[i].next, k) ::
      Before(Dir(m), Last(pages[i]), k)
  }

  /** What one page holds, and where the rows it leaves out lie. */
  ghost predicate PageHolds(m: Mode, xs: seq<Key>, c: Option<Cursor>, p: Page) {
    && Sorted(Dir(m), p.items)
    && (forall k :: k in p.items ==> k in xs && After(m, c, k))
    && (p.hasMore ==> p.items != [] && p.next == Some(CursorOf(m, Last(p))))
    && (forall k :: k in xs && After(m, c, k) && k !in p.items ==> p.hasMore && Before(Dir(m), Last(p), k))
  }

  lemma SliceHolds(d: Direction, xs: seq<Key>, b: nat, e: nat)
    requires Sorted(d, xs) && b < e <= |xs|
    ensures Sorted(d, xs[b..e])
    ensures forall k :: k in xs[b..] && k !in xs[b..e] ==> Before(d, xs[e - 1], k)
    ensures forall k :: k in xs[b..e] ==> k in xs[b..]
  {
    forall k | k in xs[b..] && k !in xs[b..e] ensures Before(d, xs[e - 1], k) {
      var j :| 0 <= j < |xs[b..]| && xs[b..][j] == k;
      assert xs[b + j] == k;
      assert forall i :: b <= i < e ==> xs[i] == xs[b..e][i - b];
    }
    forall k | k in xs[b..e] ensures k in xs[b..] {
      var j :| 0 <= j < e - b && xs[b..e][j] == k;
      assert xs[b..][j] == k;
    }
  }

  lemma PageAtHolds(m: Mode, xs: seq<Key>, b: nat, limit: nat)
    requires Sorted(Dir(m), xs) && limit >= 1 && b <= |xs|
    ensures var p := PageAt(m, xs, b, limit);
      && Sorted(Dir(m), p.items)
      && (forall k :: k in p.items ==> k in xs[b..])
      && (p.hasMore ==> p.items != [] && p.next == Some(CursorOf(m, Last(p))))
      && (forall k :: k in xs[b..] && k !in p.items ==> p.hasMore && Before(Dir(m), Last(p), k))
  {
    if b + limit < |xs| { SliceHolds(Dir(m), xs, b, b + limit); }
  }

  lemma PageOfHolds(m: Mode, xs: seq<Key>, c: Option<Cursor>, limit: nat)
    requires Sorted(Dir(m), xs) && limit >= 1
    ensures PageHolds(m, xs, c, PageOf(m, xs, c, limit))
  {
    var b := Skip(m, c, xs);
    PageAtHolds(m, xs, b, limit);
    assert forall k :: k in xs[b..] <==> k in xs && After(m, c, k) by {
      SkipSplits(m, c, xs);
      SuffixMembers(m, c, xs, b);
    }
  }

  lemma SuffixMembers(m: Mode, c: Option<Cursor>, xs: seq<Key>, b: nat)
    requires b <= |xs| && forall i :: 0 <= i < |xs| ==> (After(m, c, xs[i]) <==> i >= b)
    ensures forall k :: k in xs[b..] <==> k in xs && After(m, c, k)
  {
    forall k | k in xs && After(m, c, k) ensures k in xs[b..] {
      var i :| 0 <= i < |xs| && xs[i] == k;
      assert xs[b..][i - b] == k;
    }
  }

  lemma PageFacts(m: Mode, snaps: seq<seq<Key>>, limit: nat, pages: seq<Page>, i: nat)
    requires Chain(m, snaps, limit, pages) && limit >= 1 && i < |pages|
    ensures PageHolds(m, snaps[i], CursorAt(pages, i), pages[i])
    ensures i < |pages| - 1 ==> pages[i].hasMore
  {
    assert Fetched(m, snaps, limit, pages, i);
    PageOfHolds(m, snaps[i], CursorAt(pages, i), limit);
  }

  /** The descending forms never slide back, whatever the times are. */
  lemma DescendingNeverSlides(m: Mode, snaps: seq<seq<Key>>, limit: nat, pages: seq<Page>)
    requires Chain(m, snaps, limit, pages) && limit >= 1 && !m.ByDbAsc?
    ensures NoBackslide(m, snaps, pages)
  {
    forall i, k | 0 <= i < |pages| - 1 && pages[i].items != [] && k in snaps[i + 1] && After(m, pages[i].next, k)
      ensures Before(Dir(m), Last(pages[i]), k)
    {
      PageFacts(m, snaps, limit, pages, i);
      var a := Last(pages[i]);
      var cut := Key(a.t / 1000 * 1000, a.id);
      assert a.t / 1000 * 1000 == a.t - a.t % 1000;
      if m.ByDbDesc? { BeforeOrder(Asc, k, cut, a); }
    }
  }

  /** No row comes back twice: across all pages the keys are strictly in listing order. */
  lemma {:induction false} NeverTwice(m: Mode, snaps: seq<seq<Key>>, limit: nat, pages: seq<Page>, n: nat)
    requires Chain(m, snaps, limit, pages) && limit >= 1 && NoBackslide(m, snaps, pages)
    requires 1 <= n <= |pages|
    ensures Sorted(Dir(m), Concat(pages[..n]))
    ensures pages[n - 1].items != [] ==>
      forall k :: k in Concat(pages[..n]) ==> k == Last(pages[n - 1]) || Before(Dir(m), k, Last(pages[n - 1]))
  {
    hide After, Before, Fetched;
    PageFacts(m, snaps, limit, pages, n - 1);
    var p := pages[n - 1];
    ConcatSnoc(pages[..n - 1], p);
    assert pages[..n] == pages[..n - 1] + [p];
    if n == 1 {
      assert pages[..0] == [];
      assert Concat(pages[..1]) == p.items;
    } else {
      NeverTwice(m, snaps, limit, pages, n - 1);
      PageFacts(m, snaps, limit, pages, n - 2);
      var prior := Concat(pages[..n - 1]);
      var a := Last(pages[n - 2]);
      forall x, y | x in prior && y in p.items ensures Before(Dir(m), x, y) {
        assert Before(Dir(m), a, y);
        BeforeOrder(Dir(m), x, a, y);
      }
      assert Sorted(Dir(m), prior + p.items);
    }
  }

  lemma {:induction false} ConcatSnoc(ps: seq<Page>, p: Page)
    ensures Concat(ps + [p]) == Concat(ps) + p.items
  {
    if ps == [] {
      assert [p][1..] == [];
      assert Concat([p]) == p.items + Concat([]);
    } else {
      ConcatSnoc(ps[1..], p);
      assert (ps + [p])[1..] == ps[1..] + [p];
    }
  }

  lemma {:induction false} InConcat(ps: seq<Page>, i: nat, k: Key)
    requires i < |ps| && k in ps[i].items
    ensures k in Concat(ps)
  {
    if i > 0 { InConcat(ps[1..], i - 1, k); }
  }

  lemma {:induction false} FromConcat(ps: seq<Page>, k: Key) returns (i: nat)
    requires k in Concat(ps)
    ensures i < |ps| && k in ps[i].items
  {
    if k in ps[0].items { i := 0; } else { i := FromConcat(ps[1..], k); i := i + 1; }
  }

  lemma {:induction false} LaterPagesAfter(d: Direction, ps: seq<Page>, i: nat, j: nat, x: Key, y: Key)
    requires i < j < |ps| && x in ps[i].items && y in ps[j].items && Sorted(d, Concat(ps))
    ensures Before(d, x, y)
  {
    var all, rest := Concat(ps), Concat(ps[1..]);
    var n := |ps[0].items|;
    assert forall k :: 0 <= k < |rest| ==> all[n + k] == rest[k];
    if i == 0 {
      InConcat(ps[1..], j - 1, y);
      var a :| 0 <= a < n && ps[0].items[a] == x;
      var b :| 0 <= b < |rest| && rest[b] == y;
      assert all[a] == x && all[n + b] == y;
    } else {
      LaterPagesAfter(d, ps[1..], i - 1, j - 1, x, y);
    }
  }

  /** A traversal of a changing listing is strictly in order, and so without repetition, if and
      only if no cursor leads back. */
  lemma OrderIffNoBackslide(m: Mode, snaps: seq<seq<Key>>, limit: nat, pages: seq<Page>)
    requires Chain(m, snaps, limit, pages) && limit >= 1
    ensures Sorted(Dir(m), Concat(pages)) <==> NoBackslide(m, snaps, pages)
  {
    assert pages[..|pages|] == pages;
    if NoBackslide(m, snaps, pages) {
      NeverTwice(m, snaps, limit, pages, |pages|);
    }
    if Sorted(Dir(m), Concat(pages)) {
      forall i, k | 0 <= i < |pages| - 1 && pages[i].items != [] && k in snaps[i + 1] && After(m, pages[i].next, k)
        ensures Before(Dir(m), Last(pages[i]), k)
      {
        PageFacts(m, snaps, limit, pages, i + 1);
        var p := pages[i + 1];
        if k in p.items {
          LaterPagesAfter(Dir(m), pages, i, i + 1, Last(pages[i]), k);
        } else {
          LaterPagesAfter(Dir(m), pages, i, i + 1, Last(pages[i]), Last(p));
          BeforeOrder(Dir(m), Last(pages[i]), Last(p), k);
        }
      }
    }
  }

  /** r lies between the last row of some page and the point its cursor resumes from. */
  ghost predicate InGap(m: Mode, pages: seq<Page>, r: Key) {
    exists i :: 0 <= i < |pages| - 1 && pages[i].items != []
      && Before(Dir(m), Last(pages[i]), r) && !After(m, pages[i].next, r)
  }

  /** A row present in every listing is returned, unless a page boundary's gap covers it. */
  lemma {:induction false} ReturnedFrom(m: Mode, snaps: seq<seq<Key>>, limit: nat, pages: seq<Page>, r: Key, i: nat)
    requires Chain(m, snaps, limit, pages) && limit >= 1 && Finished(pages) && i < |pages|
    requires forall j :: 0 <= j < |snaps| ==> r in snaps[j]
    requires !InGap(m, pages, r) && After(m, CursorAt(pages, i), r)
    ensures r in Concat(pages)
    decreases |pages| - i
  {
    PageFacts(m, snaps, limit, pages, i);
    if r in pages[i].items {
      InConcat(pages, i, r);
    } else {
      assert i < |pages| - 1;
      ReturnedFrom(m, snaps, limit, pages, r, i + 1);
    }
  }

  /** Everything listed after page i lies beyond the point where its cursor resumes. */
  lemma {:induction false} LaterAdmitted(m: Mode, snaps: seq<seq<Key>>, limit: nat, pages: seq<Page>, i: nat, j: nat, k: Key)
    requires Chain(m, snaps, limit, pages) && limit >= 1 && NoBackslide(m, snaps, pages)
    requires i < j < |pages| && k in pages[j].items
    ensures After(m, pages[i].next, k)
    decreases j
  {
    PageFacts(m, snaps, limit, pages, j);
    if j > i + 1 {
      PageFacts(m, snaps, limit, pages, j - 1);
      var a := Last(pages[j - 1]);
      LaterAdmitted(m, snaps, limit, pages, i, j - 1, a);
      AfterUpward(m, pages[i].next, a, k);
    }
  }

  /** Traversal of a changing table, descending forms and any times: strictly ordered (so no
      row twice), and a row present throughout is returned if and only if it lies in no gap. */
  lemma DescendingTraversal(m: Mode, snaps: seq<seq<Key>>, limit: nat, pages: seq<Page>, r: Key)
    requires Chain(m, snaps, limit, pages) && limit >= 1 && Finished(pages) && !m.ByDbAsc?
    requires forall j :: 0 <= j < |snaps| ==> r in snaps[j]
    ensures Sorted(Dir(m), Concat(pages))
    ensures r in Concat(pages) <==> !InGap(m, pages, r)
  {
    DescendingNeverSlides(m, snaps, limit, pages);
    assert pages[..|pages|] == pages;
    NeverTwice(m, snaps, limit, pages, |pages|);
    if !InGap(m, pages, r) {
      ReturnedFrom(m, snaps, limit, pages, r, 0);
    } else if r in Concat(pages) {
      var i :| 0 <= i < |pages| - 1 && pages[i].items != []
        && Before(Dir(m), Last(pages[i]), r) && !After(m, pages[i].next, r);
      var j := FromConcat(pages, r);
      if j > i {
        LaterAdmitted(m, snaps, limit, pages, i, j, r);
      } else {
        NeverTwice(m, snaps, limit, pages, i + 1);
        InConcat(pages[..i + 1], j, r);
        BeforeOrder(Dir(m), r, Last(pages[i]), r);
      }
    }
  }

  /** Traversal of a changing comment list: a comment present throughout is never skipped,
      whatever its microseconds are. */
  lemma AscendingTraversal(snaps: seq<seq<Key>>, limit: nat, pages: seq<Page>, r: Key)
    requires Chain(ByDbAsc, snaps, limit, pages) && limit >= 1 && Finished(pages)
    requires forall j :: 0 <= j < |snaps| ==> r in snaps[j]
    ensures r in Concat(pages)
  {
    if InGap(ByDbAsc, pages, r) {
      var i :| 0 <= i < |pages| - 1 && pages[i].items != []
        && Before(Asc, Last(pages[i]), r) && !After(ByDbAsc, pages[i].next, r);
      PageFacts(ByDbAsc, snaps, limit, pages, i);
      var a := Last(pages[i]);
      assert a.t / 1000 * 1000 == a.t - a.t % 1000;
      BeforeOrder(Asc, Key(a.t / 1000 * 1000, a.id), a, r);
      assert false;
    }
    ReturnedFrom(ByDbAsc, snaps, limit, pages, r, 0);
  }

  /** Every page but the last ends on a row whose time is a whole millisecond. */
  ghost predicate WholeBoundaries(pages: seq<Page>) {
    forall i :: 0 <= i < |pages| - 1 && pages[i].items != [] ==> Last(pages[i]).t % 1000 == 0
  }

  /** While no comment that ends a page is deleted, a traversal of the comments repeats
      nothing if and only if each page but the last ends on a whole millisecond. */
  lemma AscendingOrderIff(snaps: seq<seq<Key>>, limit: nat, pages: seq<Page>)
    requires Chain(ByDbAsc, snaps, limit, pages) && limit >= 1
    requires forall i :: 0 <= i < |pages| - 1 && pages[i].items != [] ==> Last(pages[i]) in snaps[i + 1]
    ensures Sorted(Asc, Concat(pages)) <==> WholeBoundaries(pages)
  {
    OrderIffNoBackslide(ByDbAsc, snaps, limit, pages);
    forall i | 0 <= i < |pages| - 1 && pages[i].items != []
      ensures var a := Last(pages[i]);
        && pages[i].next == Some(Cursor(a.t / 1000, a.id))
        && (a.t % 1000 == 0 <==> !After(ByDbAsc, pages[i].next, a)) && !Before(Asc, a, a)
        && (a.t % 1000 == 0 ==> forall k :: After(ByDbAsc, pages[i].next, k) ==> Before(Asc, a, k))
    {
      hide After, Before, Chain, Sorted, NoBackslide;
      PageFacts(ByDbAsc, snaps, limit, pages, i);
      WholeMillisecond(Last(pages[i]));
    }
    hide After, Before, Chain, Sorted;
  }

  lemma WholeMillisecond(a: Key)
    ensures var c := Some(Cursor(a.t / 1000, a.id));
      && (a.t % 1000 == 0 <==> !After(ByDbAsc, c, a)) && !Before(Asc, a, a)
      && (a.t % 1000 == 0 ==> forall k :: After(ByDbAsc, c, k) ==> Before(Asc, a, k))
  {
    BeforeOrder(Asc, a, a, a);
    assert a.t / 1000 * 1000 == a.t - a.t % 1000;
  }

  /** If pages end on whole milliseconds, both database listings are exact under concurrent
      inserts and deletes: strictly in order, so no row twice, and every row present throughout
      is returned. */
  lemma ExactlyOnce(m: Mode, snaps: seq<seq<Key>>, limit: nat, pages: seq<Page>, r: Key)
    requires Chain(m, snaps, limit, pages) && limit >= 1 && Finished(pages) && !m.ByIndex?
    requires WholeBoundaries(pages)
    requires forall j :: 0 <= j < |snaps| ==> r in snaps[j]
    ensures Sorted(Dir(m), Concat(pages))
    ensures r in Concat(pages)
  {
    forall i, k | 0 <= i < |pages| - 1 && pages[i].items != []
      ensures After(m, pages[i].next, k) <==> Before(Dir(m), Last(pages[i]), k)
    {
      PageFacts(m, snaps, limit, pages, i);
      var a := Last(pages[i]);
      assert Key(a.t / 1000 * 1000, a.id) == a;
    }
    assert pages[..|pages|] == pages;
    NeverTwice(m, snaps, limit, pages, |pages|);
    ReturnedFrom(m, snaps, limit, pages, r, 0);
  }
}
