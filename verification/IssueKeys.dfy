/** Issue keys: the counter row, its lock, and LAST_INSERT_ID per connection, under any
    interleaving of connections and any aborts; and the issue saved afterwards. */
module IssueKeys {
  import opened Wrappers
  import Decimal

  /** The counter column is a signed 32-bit int. */
  const INT_MAX: nat := 0x7FFF_FFFF

  /** A pooled connection; last is its LAST_INSERT_ID, which a rollback does not undo. */
  datatype Conn = Idle(last: nat) | Updated(last: nat, project: string) | Read(last: nat, project: string, row: nat)

  datatype State = State(
    counters: map<string, nat>,
    locks: map<string, nat>,
    conns: map<nat, Conn>,
    returned: seq<(string, nat)>,
    unsaved: set<(string, nat)>,
    saved: set<(string, nat)>,
    failed: set<(string, nat)>)

  datatype Event =
    | Upsert(c: nat, project: string)
    | SelectLast(c: nat)
    | Commit(c: nat)
    | Abort(c: nat)
    | SaveIssue(project: string, n: nat)
    | SaveIssueFails(project: string, n: nat)

  const Initial := State(map[], map[], map[], [], {}, {}, {})

  function ConnOf(s: State, c: nat): Conn {
    if c in s.conns then s.conns[c] else Idle(0)
  }

  function Counter(s: State, project: string): nat {
    if project in s.counters then s.counters[project] else 0
  }

  /** One event; None when it is not enabled (a locked row makes the upsert wait; a counter
      at its maximum makes it fail before it takes effect). */
  function Step(s: State, e: Event): Option<State> {
    match e
    case Upsert(c, p) =>
      if !ConnOf(s, c).Idle? || p in s.locks || Counter(s, p) >= INT_MAX then None
      else Some(s.(locks := s.locks[p := c], conns := s.conns[c := Updated(Counter(s, p) + 1, p)]))
    case SelectLast(c) =>
      var k := ConnOf(s, c);
      if !k.Updated? then None else Some(s.(conns := s.conns[c := Read(k.last, k.project, k.last)]))
    case Commit(c) =>
      var k := ConnOf(s, c);
      if !k.Read? then None
      else Some(s.(counters := s.counters[k.project := k.last], locks := s.locks - {k.project},
                   conns := s.conns[c := Idle(k.last)],
                   returned := s.returned + [(k.project, k.row)], unsaved := s.unsaved + {(k.project, k.row)}))
    case Abort(c) =>
      var k := ConnOf(s, c);
      if k.Idle? then None
      else Some(s.(locks := s.locks - {k.project}, conns := s.conns[c := Idle(k.last)]))
    case SaveIssue(p, n) =>
      if (p, n) !in s.unsaved then None
      else Some(s.(unsaved := s.unsaved - {(p, n)}, saved := s.saved + {(p, n)}))
    case SaveIssueFails(p, n) =>
      if (p, n) !in s.unsaved then None
      else Some(s.(unsaved := s.unsaved - {(p, n)}, failed := s.failed + {(p, n)}))
  }

  function Exec(s: State, es: seq<Event>): Option<State>
    decreases |es|
  {
    if es == [] then Some(s)
    else
      match Step(s, es[0])
      case None => None
      case Some(s') => Exec(s', es[1..])
  }

  /** The numbers returned for one project, in commit order. */
  function Numbers(returned: seq<(string, nat)>, project: string): seq<nat> {
    if returned == [] then []
    else
      var (p, n) := returned[|returned| - 1];
      Numbers(returned[..|returned| - 1], project) + if p == project then [n] else []
  }

  function UpTo(n: nat): (r: seq<nat>)
    ensures |r| == n && forall i :: 0 <= i < n ==> r[i] == i + 1
  {
    seq(n, i => i + 1)
  }

  /** A connection inside its transaction holds the row's lock and the next number; nobody
      else holds locks. */
  ghost predicate Locked(s: State) {
    && (forall p :: p in s.locks ==> !ConnOf(s, s.locks[p]).Idle? && ConnOf(s, s.locks[p]).project == p)
    && forall c :: c in s.conns && !s.conns[c].Idle? ==>
      var p := s.conns[c].project;
      && p in s.locks && s.locks[p] == c && s.conns[c].last == Counter(s, p) + 1
      && (s.conns[c].Read? ==> s.conns[c].row == s.conns[c].last)
  }

  ghost predicate GapFree(s: State) {
    forall p :: Numbers(s.returned, p) == UpTo(Counter(s, p))
  }

  /** Every returned number is unsaved, saved or failed, and only one of these. */
  ghost predicate Sorted(s: State) {
    && (forall p, n :: (p, n) in s.unsaved + s.saved + s.failed <==> 1 <= n <= Counter(s, p))
    && s.unsaved !! s.saved && s.unsaved !! s.failed && s.saved !! s.failed
  }

  /** A connection that leaves its transaction gives up its lock and no other. */
  lemma ReleaseLocked(s: State, e: Event)
    requires (e.Commit? || e.Abort?) && Locked(s) && Step(s, e).Some?
    ensures Locked(Step(s, e).value)
  {
    var q := ConnOf(s, e.c).project;
    assert forall d :: d in s.conns && !s.conns[d].Idle? && d != e.c ==> s.conns[d].project != q;
  }

  lemma StepLocked(s: State, e: Event)
    requires Locked(s) && Step(s, e).Some?
    ensures Locked(Step(s, e).value)
  {
    if e.Commit? || e.Abort? { ReleaseLocked(s, e); }
  }

  lemma NumbersSnoc(returned: seq<(string, nat)>, q: (string, nat), p: string)
    ensures Numbers(returned + [q], p) == Numbers(returned, p) + if q.0 == p then [q.1] else []
  {
    assert (returned + [q])[..|returned|] == returned;
  }

  lemma StepGapFree(s: State, e: Event)
    requires Locked(s) && GapFree(s) && Step(s, e).Some?
    ensures GapFree(Step(s, e).value)
  {
    var s' := Step(s, e).value;
    forall p ensures Numbers(s'.returned, p) == UpTo(Counter(s', p)) {
      assert Numbers(s.returned, p) == UpTo(Counter(s, p));
      if e.Commit? {
        NumbersSnoc(s.returned, s'.returned[|s.returned|], p);
        assert UpTo(Counter(s, p) + 1) == UpTo(Counter(s, p)) + [Counter(s, p) + 1];
      }
    }
  }

  lemma StepSorted(s: State, e: Event)
    requires Locked(s) && Sorted(s) && Step(s, e).Some?
    ensures Sorted(Step(s, e).value)
  {
    var s' := Step(s, e).value;
    forall p, n ensures (p, n) in s'.unsaved + s'.saved + s'.failed <==> 1 <= n <= Counter(s', p) {
      assert (p, n) in s.unsaved + s.saved + s.failed <==> 1 <= n <= Counter(s, p);
    }
    if e.Commit? {
      var k := ConnOf(s, e.c);
      assert (k.project, k.row) in s.unsaved + s.saved + s.failed <==> 1 <= k.row <= Counter(s, k.project);
    }
  }

  ghost predicate Inv(s: State) {
    Locked(s) && GapFree(s) && Sorted(s)
  }

  lemma {:induction false} ExecInv(s: State, es: seq<Event>)
    requires Inv(s) && Exec(s, es).Some?
    ensures Inv(Exec(s, es).value)
    decreases |es|
  {
    if es != [] {
      StepLocked(s, es[0]);
      StepGapFree(s, es[0]);
      StepSorted(s, es[0]);
      ExecInv(Step(s, es[0]).value, es[1..]);
    }
  }

  /** In every interleaving the numbers returned for a project are 1, 2, … up to its committed
      counter, in commit order: no duplicate and no gap, whatever was aborted. */
  lemma ReturnedGapFree(es: seq<Event>, project: string)
    requires Exec(Initial, es).Some?
    ensures var s := Exec(Initial, es).value; Numbers(s.returned, project) == UpTo(Counter(s, project))
  {
    InitialInv();
    ExecInv(Initial, es);
  }

  lemma InitialInv()
    ensures Inv(Initial)
  {
    forall p ensures Numbers(Initial.returned, p) == UpTo(Counter(Initial, p)) {}
  }

  /** The issues of a project carry all the numbers up to the counter if and only if every
      returned key was then saved: a failed save leaves a gap for good. */
  lemma IssueGaps(es: seq<Event>, project: string)
    requires Exec(Initial, es).Some?
    ensures var s := Exec(Initial, es).value;
      (forall n :: 1 <= n <= Counter(s, project) ==> (project, n) in s.saved) <==>
      (forall n :: (project, n) !in s.unsaved && (project, n) !in s.failed)
  {
    InitialInv();
    ExecInv(Initial, es);
    var s := Exec(Initial, es).value;
    assert forall n :: (project, n) in s.unsaved + s.saved + s.failed <==> 1 <= n <= Counter(s, project);
    assert forall n :: (project, n) in s.unsaved ==> (project, n) in s.unsaved + s.saved + s.failed;
    assert forall n :: (project, n) in s.failed ==> (project, n) in s.unsaved + s.saved + s.failed;
  }

  // ---------------------------------------------------------------- key text

  function Render(projectKey: string, n: nat): string {
    projectKey + "-" + Decimal.Nat(n)
  }

  /** An issue key is the project key, '-', and the number in decimal, without leading zeros. */
  lemma RenderMeans(projectKey: string, n: nat)
    ensures var t, k := Render(projectKey, n), |projectKey|;
      && |t| > k + 1 && t[..k] == projectKey && t[k] == '-'
      && Decimal.ParseNat(t[k + 1..]) == Some(n) && (n > 0 ==> t[k + 1] != '0')
  {
    var t, k := Render(projectKey, n), |projectKey|;
    assert t[k + 1..] == Decimal.Nat(n);
    Decimal.NatRoundTrip(n);
    Decimal.NatIs(n);
  }

  /** Project keys are upper-case letters and digits, so the first '-' ends them. */
  lemma {:induction false} RenderInjective(a: string, m: nat, b: string, n: nat)
    requires '-' !in a && '-' !in b && Render(a, m) == Render(b, n)
    ensures a == b && m == n
  {
    if a == "" || b == "" {
      assert Render(a, m)[|a|] == '-' && Render(b, n)[|b|] == '-';
      assert a == b;
      assert Render(a, m)[1..] == Decimal.Nat(m) && Render(b, n)[1..] == Decimal.Nat(n);
      Decimal.NatInjective(m, n);
    } else {
      assert Render(a, m)[0] == a[0] && Render(b, n)[0] == b[0];
      assert Render(a, m)[1..] == Render(a[1..], m) && Render(b, n)[1..] == Render(b[1..], n);
      RenderInjective(a[1..], m, b[1..], n);
      assert a == [a[0]] + a[1..] && b == [b[0]] + b[1..];
    }
  }

  lemma {:induction false} NumbersHas(returned: seq<(string, nat)>, i: nat, j: nat)
    requires i < j < |returned| && returned[i] == returned[j]
    ensures var ns := Numbers(returned, returned[i].0); exists a, b :: 0 <= a < b < |ns| && ns[a] == ns[b]
  {
    var n, p := |returned| - 1, returned[i].0;
    var before := Numbers(returned[..n], p);
    assert returned[n].0 == p ==> Numbers(returned, p) == before + [returned[n].1];
    if j < n {
      NumbersHas(returned[..n], i, j);
      var a, b :| 0 <= a < b < |before| && before[a] == before[b];
      assert Numbers(returned, p)[a] == Numbers(returned, p)[b];
    } else {
      var a := NumberAt(returned[..n], i);
      assert Numbers(returned, p)[a] == Numbers(returned, p)[|before|];
    }
  }

  lemma {:induction false} NumberAt(returned: seq<(string, nat)>, i: nat) returns (a: nat)
    requires i < |returned|
    ensures a < |Numbers(returned, returned[i].0)| && Numbers(returned, returned[i].0)[a] == returned[i].1
  {
    var n := |returned| - 1;
    if i == n { a := |Numbers(returned[..n], returned[i].0)|; } else { a := NumberAt(returned[..n], i); }
  }

  /** Across all projects, connections and aborts, no two returned issue keys are equal.
      keyOf gives each project its key: distinct, and free of '-'. */
  lemma KeysDistinct(es: seq<Event>, keyOf: map<string, string>, i: nat, j: nat)
    requires Exec(Initial, es).Some?
    requires forall p :: p in keyOf ==> '-' !in keyOf[p]
    requires forall p, q :: p in keyOf && q in keyOf && keyOf[p] == keyOf[q] ==> p == q
    requires i < j < |Exec(Initial, es).value.returned|
    requires forall r :: r in Exec(Initial, es).value.returned ==> r.0 in keyOf
    ensures var rs := Exec(Initial, es).value.returned;
      Render(keyOf[rs[i].0], rs[i].1) != Render(keyOf[rs[j].0], rs[j].1)
  {
    var rs := Exec(Initial, es).value.returned;
    assert rs[i] in rs && rs[j] in rs;
    if Render(keyOf[rs[i].0], rs[i].1) == Render(keyOf[rs[j].0], rs[j].1) {
      RenderInjective(keyOf[rs[i].0], rs[i].1, keyOf[rs[j].0], rs[j].1);
      NumbersHas(rs, i, j);
      ReturnedGapFree(es, rs[i].0);
    }
  }

  // ---------------------------------------------------------------- the generator

  class Database {
    var state: State

    constructor ()
      ensures state == Initial
    {
      state := Initial;
    }

    /** next, on a free connection while nobody else holds the row.  At the largest counter
        value the upsert fails and nothing changes. */
    method Next(c: nat, project: string, projectKey: string, commits: bool) returns (key: Option<string>)
      requires ConnOf(state, c).Idle? && project !in state.locks
      modifies this
      ensures key.Some? <==> commits && Counter(old(state), project) < INT_MAX
      ensures key.Some? ==> key.value == projectKey + "-" + Decimal.Nat(Counter(old(state), project) + 1)
      ensures Counter(state, project) == Counter(old(state), project) + if key.Some? then 1 else 0
      ensures Counter(old(state), project) >= INT_MAX ==> state == old(state)
      ensures Counter(old(state), project) < INT_MAX ==>
        Exec(old(state), [Upsert(c, project), SelectLast(c), if commits then Commit(c) else Abort(c)]) == Some(state)
    {
      if Counter(state, project) >= INT_MAX { return None; }
      ghost var s0 := state;
      var n := Counter(state, project) + 1;
      state := state.(locks := state.locks[project := c], conns := state.conns[c := Updated(n, project)]);
      ghost var s1 := state;
      var row := ConnOf(state, c).last;
      state := state.(conns := state.conns[c := Read(row, project, row)]);
      ghost var s2 := state;
      if commits {
        state := state.(counters := state.counters[project := n], locks := state.locks - {project},
                        conns := state.conns[c := Idle(n)],
                        returned := state.returned + [(project, row)], unsaved := state.unsaved + {(project, row)});
        key := Some(Render(projectKey, row));
      } else {
        state := state.(locks := state.locks - {project}, conns := state.conns[c := Idle(n)]);
        key := None;
      }
      ThreeSteps(s0, Upsert(c, project), s1, SelectLast(c), s2, if commits then Commit(c) else Abort(c), state);
    }
  }

  lemma ThreeSteps(s0: State, e1: Event, s1: State, e2: Event, s2: State, e3: Event, s3: State)
    requires Step(s0, e1) == Some(s1) && Step(s1, e2) == Some(s2) && Step(s2, e3) == Some(s3)
    ensures Exec(s0, [e1, e2, e3]) == Some(s3)
  {
    assert Exec(s3, []) == Some(s3);
    assert Exec(s2, [e3]) == Some(s3);
    assert Exec(s1, [e2, e3]) == Some(s3);
  }
}
