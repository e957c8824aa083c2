/** CacheKeys.ts and the glob patterns SCAN MATCH understands. */
module RedisKeys {
  import opened Wrappers

  function OrBacklog(sprintId: Option<string>): string {
    if sprintId.None? then "backlog" else sprintId.value
  }

  function BoardPrefix(projectId: string): string { "board:" + projectId + ":sprint:" }

  function BoardKey(projectId: string, sprintId: Option<string>): string {
    BoardPrefix(projectId) + OrBacklog(sprintId)
  }

  function BoardPattern(projectId: string): string { BoardPrefix(projectId) + "*" }

  function SprintIndexKey(projectId: string, sprintId: Option<string>): string {
    "idx:sprint:" + projectId + ":" + OrBacklog(sprintId)
  }

  function StatusIndexKey(projectId: string, statusId: string): string {
    "idx:status:" + projectId + ":" + statusId
  }

  /** Redis glob: '*' any text, '?' any character.  Classes and escapes do not occur here. */
  predicate Glob(pattern: string, s: string)
    decreases |pattern| + |s|
  {
    if pattern == "" then s == ""
    else if pattern[0] == '*' then Glob(pattern[1..], s) || (s != "" && Glob(pattern, s[1..]))
    else s != "" && (pattern[0] == '?' || pattern[0] == s[0]) && Glob(pattern[1..], s[1..])
  }

  predicate Literal(s: string) {
    forall c | c in s :: c != '*' && c != '?' && c != '[' && c != '\\'
  }

  /** Project ids are UUIDs: no glob character, no ':'. */
  predicate PlainId(s: string) {
    Literal(s) && ':' !in s
  }

  lemma {:induction false} GlobStar(s: string)
    ensures Glob("*", s)
  {
    if s != "" { GlobStar(s[1..]); } else { assert "*"[1..] == ""; }
  }

  lemma {:induction false} GlobLiteral(lit: string, s: string)
    requires Literal(lit)
    ensures Glob(lit + "*", s) <==> lit <= s
  {
    if lit == "" {
      assert lit + "*" == "*";
      GlobStar(s);
    } else {
      assert lit == [lit[0]] + lit[1..] && lit[0] in lit;
      assert forall c :: c in lit[1..] ==> c in lit;
      assert (lit + "*")[1..] == lit[1..] + "*";
      if s != "" {
        GlobLiteral(lit[1..], s[1..]);
        assert lit <= s <==> lit[0] == s[0] && lit[1..] <= s[1..] by {
          assert lit == [lit[0]] + lit[1..] && s == [s[0]] + s[1..];
        }
      }
    }
  }

  /** What precedes the first ':' of colon-free text followed by ':' is that text. */
  lemma {:induction false} ColonSplits(a: string, x: string, b: string, y: string)
    requires ':' !in a && ':' !in b
    ensures a + ":" + x == b + ":" + y <==> a == b && x == y
    ensures a + ":" + x <= b + ":" + y <==> a == b && x <= y
  {
    var s, t := a + ":" + x, b + ":" + y;
    assert s[|a|] == ':' && t[|b|] == ':';
    if a == "" || b == "" {
      assert a == "" ==> s[1..] == x;
      assert b == "" ==> t[1..] == y;
      assert a != "" ==> s[0] == a[0] && a[0] in a;
      assert b != "" ==> t[0] == b[0] && b[0] in b;
    } else {
      assert s[1..] == a[1..] + ":" + x && t[1..] == b[1..] + ":" + y;
      assert s == [a[0]] + s[1..] && t == [b[0]] + t[1..];
      assert a == [a[0]] + a[1..] && b == [b[0]] + b[1..];
      ColonSplits(a[1..], x, b[1..], y);
    }
  }

  lemma PrefixCancels(p: string, a: string, b: string)
    ensures p + a <= p + b <==> a <= b
    ensures p + a == p + b <==> a == b
  {
    assert (p + a)[|p|..] == a && (p + b)[|p|..] == b;
    if a <= b { assert p + b == (p + a) + b[|a|..]; }
  }

  lemma BoardText(p: string, x: string)
    ensures BoardPrefix(p) + x == "board:" + (p + ":" + ("sprint:" + x))
  {}

  /** Invalidating a project's pattern hits every board key of that project and no board key
      of another one. */
  lemma PatternIsolates(p: string, q: string, sprintId: Option<string>)
    requires PlainId(p) && PlainId(q)
    ensures Glob(BoardPattern(p), BoardKey(q, sprintId)) <==> p == q
  {
    var x := OrBacklog(sprintId);
    assert Literal(BoardPrefix(p));
    GlobLiteral(BoardPrefix(p), BoardKey(q, sprintId));
    BoardText(p, "");
    BoardText(q, x);
    assert BoardPrefix(p) + "" == BoardPrefix(p);
    PrefixCancels("board:", p + ":" + ("sprint:" + ""), q + ":" + ("sprint:" + x));
    ColonSplits(p, "sprint:" + "", q, "sprint:" + x);
  }

  /** Two boards share a cache slot only if they are the same board — except that a sprint
      called "backlog" shares the slot of the real backlog. */
  lemma BoardKeyClash(p: string, s: Option<string>, q: string, t: Option<string>)
    requires PlainId(p) && PlainId(q)
    ensures BoardKey(p, s) == BoardKey(q, t) <==> p == q && OrBacklog(s) == OrBacklog(t)
    ensures OrBacklog(s) == OrBacklog(t) <==>
      s == t || (s.None? && t == Some("backlog")) || (t.None? && s == Some("backlog"))
  {
    BoardText(p, OrBacklog(s));
    BoardText(q, OrBacklog(t));
    PrefixCancels("board:", p + ":" + ("sprint:" + OrBacklog(s)), q + ":" + ("sprint:" + OrBacklog(t)));
    ColonSplits(p, "sprint:" + OrBacklog(s), q, "sprint:" + OrBacklog(t));
    PrefixCancels("sprint:", OrBacklog(s), OrBacklog(t));
  }

  /** Status index keys never clash. */
  lemma StatusKeyClash(p: string, s: string, q: string, t: string)
    requires PlainId(p) && PlainId(q)
    ensures StatusIndexKey(p, s) == StatusIndexKey(q, t) <==> p == q && s == t
  {
    assert StatusIndexKey(p, s) == "idx:status:" + (p + ":" + s);
    assert StatusIndexKey(q, t) == "idx:status:" + (q + ":" + t);
    PrefixCancels("idx:status:", p + ":" + s, q + ":" + t);
    ColonSplits(p, s, q, t);
  }

  lemma FamiliesDisjoint(p: string, s: string, q: string, t: Option<string>)
    ensures StatusIndexKey(p, s) != SprintIndexKey(q, t)
  {
    assert StatusIndexKey(p, s)[5] == 't' && SprintIndexKey(q, t)[5] == 'p';
  }

  lemma SprintKeyClash(p: string, s: Option<string>, q: string, t: Option<string>)
    requires PlainId(p) && PlainId(q)
    ensures SprintIndexKey(p, s) == SprintIndexKey(q, t) <==> p == q && OrBacklog(s) == OrBacklog(t)
  {
    assert SprintIndexKey(p, s) == "idx:sprint:" + (p + ":" + OrBacklog(s));
    assert SprintIndexKey(q, t) == "idx:sprint:" + (q + ":" + OrBacklog(t));
    PrefixCancels("idx:sprint:", p + ":" + OrBacklog(s), q + ":" + OrBacklog(t));
    ColonSplits(p, OrBacklog(s), q, OrBacklog(t));
  }
}
