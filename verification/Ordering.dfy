/** The strict total order that MySQL's ORDER BY (created_at, id) and Redis sorted sets
    (score, member) share, in both directions, and insertion into a sorted sequence. */
module Ordering {

  /** A sort key: a time (or score) and, among equal times, an identifier. */
  datatype Key = Key(t: int, id: string)

  datatype Direction = Asc | Desc

  /** Lexicographic order on strings. */
  predicate StrLt(a: string, b: string) {
    b != [] && (a == [] || a[0] < b[0] || (a[0] == b[0] && StrLt(a[1..], b[1..])))
  }

  predicate KeyLt(a: Key, b: Key) {
    a.t < b.t || (a.t == b.t && StrLt(a.id, b.id))
  }

  /** a is listed strictly before b. */
  predicate Before(d: Direction, a: Key, b: Key) {
    if d.Asc? then KeyLt(a, b) else KeyLt(b, a)
  }

  lemma {:induction false} StrLtOrder(a: string, b: string, c: string)
    ensures !StrLt(a, a)
    ensures a == b || StrLt(a, b) || StrLt(b, a)
    ensures !(StrLt(a, b) && StrLt(b, a))
    ensures StrLt(a, b) && StrLt(b, c) ==> StrLt(a, c)
    decreases |a| + |b| + |c|
  {
    if a != [] && b != [] && c != [] {
      StrLtOrder(a[1..], b[1..], c[1..]);
      assert a[0] == b[0] && a[1..] == b[1..] ==> a == [a[0]] + a[1..] == [b[0]] + b[1..] == b;
    } else if a != [] && b != [] {
      StrLtOrder(a[1..], b[1..], c);
      assert a[0] == b[0] && a[1..] == b[1..] ==> a == [a[0]] + a[1..] == [b[0]] + b[1..] == b;
    } else if a != [] {
      StrLtOrder(a[1..], b, c);
    }
  }

  /** Before is irreflexive, total, asymmetric and transitive in either direction. */
  lemma BeforeOrder(d: Direction, a: Key, b: Key, c: Key)
    ensures !Before(d, a, a)
    ensures a == b || Before(d, a, b) || Before(d, b, a)
    ensures !(Before(d, a, b) && Before(d, b, a))
    ensures Before(d, a, b) && Before(d, b, c) ==> Before(d, a, c)
  {
    StrLtOrder(a.id, b.id, c.id);
    StrLtOrder(c.id, b.id, a.id);
  }

  ghost predicate Sorted(d: Direction, s: seq<Key>) {
    forall i, j :: 0 <= i < j < |s| ==> Before(d, s[i], s[j])
  }

  predicate UniqueIds(s: seq<Key>) {
    forall i, j :: 0 <= i < j < |s| ==> s[i].id != s[j].id
  }

  function Insert(d: Direction, s: seq<Key>, k: Key): (r: seq<Key>)
    ensures multiset(r) == multiset(s) + multiset{k}
    ensures |r| == |s| + 1
  {
    if s == [] || Before(d, k, s[0]) then [k] + s
    else
      var r := [s[0]] + Insert(d, s[1..], k);
      assert s == [s[0]] + s[1..];
      r
  }

  lemma {:induction false} InsertSorted(d: Direction, s: seq<Key>, k: Key)
    requires Sorted(d, s) && k !in s
    ensures Sorted(d, Insert(d, s, k))
    ensures forall x :: x in Insert(d, s, k) <==> x == k || x in s
  {
    var r := Insert(d, s, k);
    forall x ensures x in r <==> x == k || x in s {
      assert x in r <==> x in multiset(r);
      assert x in s <==> x in multiset(s);
    }
    if s == [] {
    } else if Before(d, k, s[0]) {
      forall j | 0 <= j < |s| ensures Before(d, k, s[j]) { BeforeOrder(d, k, s[0], s[j]); }
    } else {
      BeforeOrder(d, k, s[0], k);
      InsertSorted(d, s[1..], k);
      var q := Insert(d, s[1..], k);
      forall j | 0 <= j < |q| ensures Before(d, s[0], q[j]) {
        assert q[j] in q;
        assert q[j] == k || q[j] in s[1..];
      }
    }
  }

  /** A strictly sorted sequence is determined by its elements. */
  lemma {:induction false} SortedUnique(d: Direction, a: seq<Key>, b: seq<Key>)
    requires Sorted(d, a) && Sorted(d, b)
    requires forall x :: x in a <==> x in b
    ensures a == b
  {
    assert b != [] ==> b[0] in a;
    if a != [] {
      assert a[0] in b;
      assert b[0] in a;
      var i :| 0 <= i < |b| && b[i] == a[0];
      var j :| 0 <= j < |a| && a[j] == b[0];
      BeforeOrder(d, a[0], b[0], a[0]);
      assert a[0] == b[0];
      forall x ensures x in a[1..] <==> x in b[1..] {
        BeforeOrder(d, a[0], x, a[0]);
        if x in a[1..] { assert x in a; assert x in b; }
        if x in b[1..] { assert x in b; assert x in a; }
      }
      SortedUnique(d, a[1..], b[1..]);
      assert a == [a[0]] + a[1..] && b == [b[0]] + b[1..];
    }
  }

  /** ORDER BY: the keys in listing order. */
  function OrderBy(d: Direction, s: seq<Key>): (r: seq<Key>) {
    if s == [] then [] else Insert(d, OrderBy(d, s[1..]), s[0])
  }

  lemma {:induction false} OrderBySorts(d: Direction, s: seq<Key>)
    requires UniqueIds(s)
    ensures Sorted(d, OrderBy(d, s))
    ensures forall x :: x in OrderBy(d, s) <==> x in s
    ensures |OrderBy(d, s)| == |s|
  {
    if s != [] {
      OrderBySorts(d, s[1..]);
      InsertSorted(d, OrderBy(d, s[1..]), s[0]);
    }
  }
}
