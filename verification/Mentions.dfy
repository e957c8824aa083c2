/** MentionParser.extract: the regex loop over @handles, lower-cased and deduplicated. */
module Mentions {

  /** [\w-] */
  predicate WordChar(c: char) {
    'a' <= c <= 'z' || 'A' <= c <= 'Z' || '0' <= c <= '9' || c == '_' || c == '-'
  }

  function LowerChar(c: char): char {
    if 'A' <= c <= 'Z' then (c as int + 32) as char else c
  }

  function Lower(s: string): (r: string)
    ensures |r| == |s| && forall i :: 0 <= i < |s| ==> r[i] == LowerChar(s[i])
  {
    seq(|s|, i requires 0 <= i < |s| => LowerChar(s[i]))
  }

  /** Lower-casing takes the n-th capital to the n-th small letter and leaves all else; both are
      word characters. */
  lemma LowerMeans(c: char)
    ensures 'A' <= c <= 'Z' ==>
      LowerChar(c) as int - 'a' as int == c as int - 'A' as int && WordChar(c) && WordChar(LowerChar(c))
    ensures !('A' <= c <= 'Z') ==> LowerChar(c) == c
  {}

  /** The longest prefix of word characters. */
  function Word(s: string): (w: string)
    ensures w <= s && (forall c :: c in w ==> WordChar(c)) && (|w| < |s| ==> !WordChar(s[|w|]))
  {
    if s == "" || !WordChar(s[0]) then "" else [s[0]] + Word(s[1..])
  }

  /** The handles of all mentions, in order of their '@', with repetitions. */
  function All(s: string): seq<string> {
    if s == "" then []
    else if s[0] == '@' && Word(s[1..]) != "" then [Lower(Word(s[1..]))] + All(s[1..])
    else All(s[1..])
  }

  /** [...new Set(handles)]: first occurrences only. */
  function Dedup(hs: seq<string>): seq<string> {
    if hs == [] then []
    else
      var d := Dedup(hs[..|hs| - 1]);
      if hs[|hs| - 1] in d then d else d + [hs[|hs| - 1]]
  }

  lemma {:induction false} NoAtInWord(w: string, t: string)
    requires forall c :: c in w ==> WordChar(c)
    ensures All(w + t) == All(t)
  {
    if w == "" {
      assert w + t == t;
    } else {
      assert w[0] in w;
      assert (w + t)[1..] == w[1..] + t;
      NoAtInWord(w[1..], t);
    }
  }

  /** The end of the word that starts at p. */
  method WordEnd(content: string, p: nat) returns (end: nat)
    requires p <= |content|
    ensures p <= end <= |content| && content[p..end] == Word(content[p..])
  {
    end := p;
    while end < |content| && WordChar(content[end])
      invariant p <= end <= |content|
      invariant forall i :: p <= i < end ==> WordChar(content[i])
    {
      end := end + 1;
    }
    WordIs(content[p..], content[p..end]);
  }

  lemma AtSign(content: string, p: nat, end: nat)
    requires p < end <= |content| && content[p] == '@' && content[p + 1..end] == Word(content[p + 1..])
    ensures end > p + 1 ==> All(content[p..]) == [Lower(content[p + 1..end])] + All(content[end..])
    ensures end == p + 1 ==> All(content[p..]) == All(content[p + 1..])
  {
    assert content[p..][1..] == content[p + 1..];
    assert content[p + 1..] == content[p + 1..end] + content[end..];
    NoAtInWord(content[p + 1..end], content[end..]);
  }

  lemma NoAtSign(content: string, p: nat)
    requires p < |content| && content[p] != '@'
    ensures All(content[p..]) == All(content[p + 1..])
  {
    assert content[p..][1..] == content[p + 1..];
  }

  /** RegExp.exec from lastIndex: the leftmost match, or found == false. */
  method NextMatch(content: string, lastIndex: nat) returns (found: bool, group: string, end: nat)
    requires lastIndex <= |content|
    ensures !found ==> All(content[lastIndex..]) == []
    ensures found ==> lastIndex < end <= |content|
    ensures found ==> All(content[lastIndex..]) == [Lower(group)] + All(content[end..])
  {
    assert All(content[|content|..]) == [];
    hide All, Word, WordChar, Lower;
    var p := lastIndex;
    while p < |content|
      invariant lastIndex <= p <= |content|
      invariant All(content[lastIndex..]) == All(content[p..])
    {
      if content[p] == '@' {
        end := WordEnd(content, p + 1);
        AtSign(content, p, end);
        if end > p + 1 { return true, content[p + 1..end], end; }
      } else {
        NoAtSign(content, p);
      }
      p := p + 1;
    }
    return false, "", lastIndex;
  }

  lemma {:induction false} WordIs(s: string, w: string)
    requires w <= s && (forall c :: c in w ==> WordChar(c)) && (|w| < |s| ==> !WordChar(s[|w|]))
    ensures Word(s) == w
  {
    var v := Word(s);
    assert forall i :: 0 <= i < |w| ==> w[i] in w;
    assert forall i :: 0 <= i < |v| ==> v[i] in v;
  }

  method Extract(content: string) returns (r: seq<string>)
    ensures r == Dedup(All(content))
  {
    var handles: seq<string> := [];
    var lastIndex := 0;
    assert content[0..] == content;
    while true
      invariant lastIndex <= |content|
      invariant handles + All(content[lastIndex..]) == All(content)
      decreases |content| - lastIndex
    {
      var found, group, end := NextMatch(content, lastIndex);
      if !found { break; }
      handles := handles + [Lower(group)];
      lastIndex := end;
    }
    assert handles == All(content);
    r := [];
    for i := 0 to |handles|
      invariant r == Dedup(handles[..i])
    {
      assert handles[..i + 1][..i] == handles[..i];
      if handles[i] !in r { r := r + [handles[i]]; }
    }
    assert handles[..|handles|] == handles;
  }

  // ---------------------------------------------------------------- declarative specification

  /** An '@' at i followed by a maximal non-empty run of word characters that reads h. */
  ghost predicate MentionAt(s: string, i: nat, j: nat, h: string) {
    && i + 1 < j <= |s| && s[i] == '@'
    && (forall k :: i < k < j ==> WordChar(s[k])) && (j < |s| ==> !WordChar(s[j]))
    && h == Lower(s[i + 1..j])
  }

  lemma HeadMention(s: string, j: nat, h: string)
    requires s != ""
    ensures MentionAt(s, 0, j, h) <==>
      s[0] == '@' && Word(s[1..]) != "" && j == 1 + |Word(s[1..])| && h == Lower(Word(s[1..]))
  {
    var t := s[1..];
    var w := Word(t);
    assert s[1..1 + |w|] == t[..|w|] == w;
    assert forall k :: 0 < k < 1 + |w| ==> s[k] == w[k - 1] && w[k - 1] in w;
    if MentionAt(s, 0, j, h) {
      assert t[..j - 1] == s[1..j];
      WordIs(t, s[1..j]);
    }
  }

  lemma {:induction false} AllHasMention(s: string, h: string) returns (i: nat, j: nat)
    requires h in All(s)
    ensures MentionAt(s, i, j, h)
  {
    hide MentionAt, Word, Lower, WordChar;
    var w := Word(s[1..]);
    if s[0] == '@' && w != "" && h == Lower(w) {
      i, j := 0, 1 + |w|;
      HeadMention(s, j, h);
    } else {
      i, j := AllHasMention(s[1..], h);
      ShiftMention(s, i, j, h);
      i, j := i + 1, j + 1;
    }
  }

  lemma {:induction false} MentionInAll(s: string, i: nat, j: nat, h: string)
    requires MentionAt(s, i, j, h)
    ensures h in All(s)
  {
    if i == 0 {
      HeadMention(s, j, h);
    } else {
      ShiftMention(s, i - 1, j - 1, h);
      MentionInAll(s[1..], i - 1, j - 1, h);
    }
  }

  lemma AllIsDeclarative(s: string, h: string)
    ensures h in All(s) <==> exists i, j :: MentionAt(s, i, j, h)
  {
    if h in All(s) { var i, j := AllHasMention(s, h); }
    if exists i, j :: MentionAt(s, i, j, h) {
      var i, j :| MentionAt(s, i, j, h);
      MentionInAll(s, i, j, h);
    }
  }

  lemma ShiftMention(s: string, i: nat, j: nat, h: string)
    requires s != ""
    ensures MentionAt(s[1..], i, j, h) <==> MentionAt(s, i + 1, j + 1, h)
  {
    if i + 1 < j <= |s| - 1 {
      assert s[1..][i + 1..j] == s[i + 2..j + 1];
      assert forall k :: i < k < j ==> s[1..][k] == s[k + 1];
      if MentionAt(s, i + 1, j + 1, h) {
        forall k | i < k < j ensures WordChar(s[1..][k]) { assert WordChar(s[k + 1]); }
      }
      if MentionAt(s[1..], i, j, h) {
        forall k | i + 1 < k < j + 1 ensures WordChar(s[k]) { assert s[1..][k - 1] == s[k]; }
      }
    }
  }

  function FirstIndex(hs: seq<string>, h: string): (i: nat)
    requires h in hs
    ensures i < |hs| && hs[i] == h && h !in hs[..i]
  {
    if hs[0] == h then 0 else
      var i := FirstIndex(hs[1..], h);
      assert hs[..i + 1] == [hs[0]] + hs[1..][..i];
      1 + i
  }

  /** Dedup keeps every handle once, in the order of first occurrences. */
  lemma {:induction false} DedupMeans(hs: seq<string>)
    ensures forall h :: h in Dedup(hs) <==> h in hs
    ensures forall a, b :: 0 <= a < b < |Dedup(hs)| ==>
      Dedup(hs)[a] in hs && Dedup(hs)[b] in hs && FirstIndex(hs, Dedup(hs)[a]) < FirstIndex(hs, Dedup(hs)[b])
  {
    if hs != [] {
      var n := |hs| - 1;
      var before, last := hs[..n], hs[n];
      DedupMeans(before);
      assert hs == before + [last];
      var d := Dedup(before);
      forall h | h in before ensures FirstIndex(hs, h) == FirstIndex(before, h) < n {
        FirstIndexIs(hs, h, FirstIndex(before, h));
      }
      if last !in d { FirstIndexIs(hs, last, n); }
      assert forall a :: 0 <= a < |d| ==> d[a] in d;
    }
  }

  lemma FirstIndexIs(hs: seq<string>, h: string, i: nat)
    requires i < |hs| && hs[i] == h && h !in hs[..i]
    ensures FirstIndex(hs, h) == i
  {
    var j := FirstIndex(hs, h);
    assert forall k :: 0 <= k < i ==> hs[..i][k] == hs[k];
    assert forall k :: 0 <= k < j ==> hs[..j][k] == hs[k];
  }

  /** The scanner against its specification: a handle is returned if and only if some maximal
      mention reads it; none is returned twice, and they come in order of first mention. */
  lemma ExtractMeans(content: string)
    ensures var r := Dedup(All(content));
      && (forall h :: h in r <==> exists i, j :: MentionAt(content, i, j, h))
      && (forall a, b :: 0 <= a < b < |r| ==>
            && r[a] != r[b] && r[a] in All(content) && r[b] in All(content)
            && FirstIndex(All(content), r[a]) < FirstIndex(All(content), r[b]))
  {
    DedupMeans(All(content));
    forall h ensures h in All(content) <==> exists i, j :: MentionAt(content, i, j, h) { AllIsDeclarative(content, h); }
  }

  // ---------------------------------------------------------------- round trip

  /** "@a @b @c" */
  function Render(hs: seq<string>): string {
    if hs == [] then "" else if |hs| == 1 then "@" + hs[0] else "@" + hs[0] + " " + Render(hs[1..])
  }

  predicate Handle(h: string) {
    h != "" && forall c | c in h :: WordChar(c) && LowerChar(c) == c
  }

  lemma MentionThen(h: string, rest: string)
    requires Handle(h) && (rest == "" || !WordChar(rest[0]))
    ensures All("@" + h + rest) == [h] + All(rest)
  {
    var s := "@" + h + rest;
    assert s[1..] == h + rest;
    WordIs(h + rest, h);
    NoAtInWord(h, rest);
    assert Lower(h) == h by { assert forall i :: 0 <= i < |h| ==> h[i] in h; }
  }

  lemma NothingMentioned()
    ensures All("") == []
  {}

  lemma {:induction false} AllOfRender(hs: seq<string>)
    requires forall h :: h in hs ==> Handle(h)
    ensures All(Render(hs)) == hs
  {
    hide All, Word, Lower, Handle;
    assert All("") == [] by { NothingMentioned(); }
    if |hs| == 1 {
      MentionThen(hs[0], "");
      assert "@" + hs[0] + "" == "@" + hs[0] && hs == [hs[0]];
    } else if hs != [] {
      var rest := " " + Render(hs[1..]);
      AllOfRender(hs[1..]);
      assert rest[1..] == Render(hs[1..]) && rest[0..] == rest;
      NoAtSign(rest, 0);
      MentionThen(hs[0], rest);
      assert "@" + hs[0] + rest == "@" + hs[0] + " " + Render(hs[1..]);
      assert hs == [hs[0]] + hs[1..];
    }
  }

  lemma {:induction false} DedupOfDistinct(hs: seq<string>)
    requires forall i, j :: 0 <= i < j < |hs| ==> hs[i] != hs[j]
    ensures Dedup(hs) == hs
  {
    if hs != [] {
      var n := |hs| - 1;
      DedupOfDistinct(hs[..n]);
      assert hs == hs[..n] + [hs[n]];
    }
  }

  /** Extracting from the rendered handles gives them back, for every list of distinct
      lower-case handles. */
  lemma RenderExtract(hs: seq<string>)
    requires (forall h :: h in hs ==> Handle(h)) && forall i, j :: 0 <= i < j < |hs| ==> hs[i] != hs[j]
    ensures Dedup(All(Render(hs))) == hs
  {
    AllOfRender(hs);
    DedupOfDistinct(hs);
  }
}
