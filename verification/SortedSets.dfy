/** Redis sorted sets: members with integer scores, kept in (score, member) order.
    The empty sorted set and the missing key are the same thing, as in Redis. */
module SortedSets {
  import opened Ordering

  ghost predicate ZValid(z: seq<Key>) {
    Sorted(Asc, z) && UniqueIds(z)
  }

  type ZSet = z: seq<Key> | ZValid(z) witness []

  predicate HasMember(z: seq<Key>, id: string) {
    exists k :: k in z && k.id == id
  }

  /** ZREM */
  function ZRem(z: ZSet, id: string): (r: ZSet)
    ensures forall x :: x in r <==> x in z && x.id != id
    ensures |z| - 1 <= |r| <= |z|
  {
    if z == [] then []
    else if z[0].id == id then
      assert forall x :: x in z[1..] ==> x.id != id;
      assert forall x :: x in z <==> x == z[0] || x in z[1..];
      z[1..]
    else
      assert forall x :: x in z <==> x == z[0] || x in z[1..];
      var r := [z[0]] + ZRem(z[1..], id);
      assert ZValid(r) by {
        forall i, j | 0 <= i < j < |r| ensures Before(Asc, r[i], r[j]) && r[i].id != r[j].id {
          assert r[j] in ZRem(z[1..], id);
        }
      }
      r
  }

  /** ZADD: a member already present only has its score moved. */
  function ZAdd(z: ZSet, score: int, id: string): (r: ZSet)
    ensures forall x :: x in r <==> x == Key(score, id) || (x in z && x.id != id)
    ensures |r| <= |z| + 1
    ensures !HasMember(z, id) ==> |r| == |z| + 1
  {
    var rest := ZRem(z, id);
    var k := Key(score, id);
    InsertSorted(Asc, rest, k);
    var r := Insert(Asc, rest, k);
    assert UniqueIds(r) by { InsertUnique(rest, k); }
    assert !HasMember(z, id) ==> rest == z by {
      if !HasMember(z, id) { SortedUnique(Asc, rest, z); }
    }
    r
  }

  lemma {:induction false} InsertUnique(s: seq<Key>, k: Key)
    requires Sorted(Asc, s) && UniqueIds(s) && forall x :: x in s ==> x.id != k.id
    ensures UniqueIds(Insert(Asc, s, k))
  {
    InsertSorted(Asc, s, k);
    if s != [] && !Before(Asc, k, s[0]) {
      InsertUnique(s[1..], k);
      InsertSorted(Asc, s[1..], k);
      var q := Insert(Asc, s[1..], k);
      forall j | 0 <= j < |q| ensures s[0].id != q[j].id { assert q[j] in q; }
    }
  }

  /** ZREMRANGEBYSCORE -inf max */
  function ZRemThrough(z: ZSet, max: int): (r: ZSet)
    ensures forall x :: x in r <==> x in z && x.t > max
  {
    if z != [] && z[0].t <= max then
      assert forall x :: x in z <==> x == z[0] || x in z[1..];
      ZRemThrough(z[1..], max)
    else
      assert forall x :: x in z ==> x.t > max by {
        forall x | x in z ensures x.t > max {
          var i :| 0 <= i < |z| && z[i] == x;
          assert i > 0 ==> Before(Asc, z[0], z[i]);
        }
      }
      z
  }

  /** ZREMRANGEBYRANK 0 -(n+1): only the n highest-ranked members stay. */
  function ZKeepLast(z: ZSet, n: nat): (r: ZSet)
    ensures |r| <= n
    ensures |z| <= n ==> r == z
  {
    if |z| <= n then z else z[|z| - n..]
  }

  /** ZRANGEBYSCORE min +inf */
  function ZFrom(z: ZSet, min: int): (r: ZSet)
    ensures forall x :: x in r <==> x in z && x.t >= min
  {
    ZRemThrough(z, min - 1)
  }

  /** The order of ZREVRANGE: highest score first. */
  function Reversed(z: seq<Key>): (r: seq<Key>)
    ensures |r| == |z| && forall i :: 0 <= i < |r| ==> r[i] == z[|z| - 1 - i]
  {
    if z == [] then [] else Reversed(z[1..]) + [z[0]]
  }

  lemma ReversedSorted(z: ZSet)
    ensures Sorted(Desc, Reversed(z))
    ensures forall x :: x in Reversed(z) <==> x in z
  {
    var r := Reversed(z);
    forall x ensures x in r <==> x in z {
      if x in z { var i :| 0 <= i < |z| && z[i] == x; assert r[|z| - 1 - i] == x; }
    }
  }
}
