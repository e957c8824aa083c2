/** encodeCursor / decodeCursor: UTF-8, then base64url without padding (section 5 of RFC
    4648), and the split of the decoded text at its last "__". */
module CursorCodec {
  type byte = b: int | 0 <= b < 256
  type six = v: int | 0 <= v < 64

  // ---------------------------------------------------------------- base64url

  function Symbol(v: six): char {
    if v < 26 then (v + 'A' as int) as char
    else if v < 52 then (v - 26 + 'a' as int) as char
    else if v < 62 then (v - 52 + '0' as int) as char
    else if v == 62 then '-' else '_'
  }

  /** The six-bit value of a symbol; -1 for a character outside both base64 alphabets. */
  function SymbolValue(c: char): (v: int)
    ensures -1 <= v < 64
  {
    if 'A' <= c <= 'Z' then c as int - 'A' as int
    else if 'a' <= c <= 'z' then c as int - 'a' as int + 26
    else if '0' <= c <= '9' then c as int - '0' as int + 52
    else if c == '-' || c == '+' then 62
    else if c == '_' || c == '/' then 63
    else -1
  }

  function Base64(bs: seq<byte>): string {
    if bs == [] then ""
    else if |bs| == 1 then [Symbol(bs[0] / 4), Symbol(bs[0] % 4 * 16)]
    else if |bs| == 2 then
      [Symbol(bs[0] / 4), Symbol(bs[0] % 4 * 16 + bs[1] / 16), Symbol(bs[1] % 16 * 4)]
    else
      [Symbol(bs[0] / 4), Symbol(bs[0] % 4 * 16 + bs[1] / 16),
       Symbol(bs[1] % 16 * 4 + bs[2] / 64), Symbol(bs[2] % 64)] + Base64(bs[3..])
  }

  /** The decoder skips characters outside both alphabets. */
  function Values(s: string): seq<six> {
    if s == [] then []
    else if SymbolValue(s[0]) < 0 then Values(s[1..])
    else [SymbolValue(s[0])] + Values(s[1..])
  }

  function Unpack(vs: seq<six>): seq<byte> {
    if |vs| < 2 then []
    else if |vs| == 2 then [Byte0(vs[0], vs[1])]
    else if |vs| == 3 then [Byte0(vs[0], vs[1]), Byte1(vs[1], vs[2])]
    else [Byte0(vs[0], vs[1]), Byte1(vs[1], vs[2]), Byte2(vs[2], vs[3])] + Unpack(vs[4..])
  }

  function Byte0(v: int, w: int): byte
    requires 0 <= v < 64 && 0 <= w < 64
  {
    v * 4 + w / 16
  }

  function Byte1(v: int, w: int): byte
    requires 0 <= v < 64 && 0 <= w < 64
  {
    v % 16 * 16 + w / 4
  }

  function Byte2(v: int, w: int): byte
    requires 0 <= v < 64 && 0 <= w < 64
  {
    v % 4 * 64 + w
  }

  function UnBase64(s: string): seq<byte> {
    Unpack(Values(s))
  }

  lemma SymbolRoundTrip(v: six)
    ensures SymbolValue(Symbol(v)) == v
  {}

  lemma ValuesCons(v: six, s: string)
    ensures Values([Symbol(v)] + s) == [v] + Values(s)
  {
    SymbolRoundTrip(v);
  }

  lemma Values4(a: six, b: six, c: six, d: six, s: string)
    ensures Values([Symbol(a), Symbol(b), Symbol(c), Symbol(d)] + s) == [a, b, c, d] + Values(s)
  {
    ValuesCons(d, s);
    ValuesCons(c, [Symbol(d)] + s);
    ValuesCons(b, [Symbol(c)] + ([Symbol(d)] + s));
    ValuesCons(a, [Symbol(b)] + ([Symbol(c)] + ([Symbol(d)] + s)));
    assert [Symbol(a), Symbol(b), Symbol(c), Symbol(d)] + s ==
           [Symbol(a)] + ([Symbol(b)] + ([Symbol(c)] + ([Symbol(d)] + s)));
  }

  /** Decoding inverts encoding on every byte string, for each of the three tail lengths. */
  lemma {:induction false} Base64RoundTrip(bs: seq<byte>)
    ensures UnBase64(Base64(bs)) == bs
  {
    if |bs| == 1 {
      SixBits(bs[0], 0, 0);
      TwoSymbols(bs[0] / 4, bs[0] % 4 * 16);
    } else if |bs| == 2 {
      SixBits(bs[0], bs[1], 0);
      ThreeSymbols(bs[0] / 4, bs[0] % 4 * 16 + bs[1] / 16, bs[1] % 16 * 4);
    } else if |bs| > 2 {
      Base64Step(bs[0], bs[1], bs[2], bs[3..]);
      Base64RoundTrip(bs[3..]);
      assert bs == [bs[0], bs[1], bs[2]] + bs[3..];
    }
  }

  /** Three bytes regrouped as four six-bit values and back. */
  lemma SixBits(x: byte, y: byte, z: byte)
    ensures var a, b, c, d := x / 4, x % 4 * 16 + y / 16, y % 16 * 4 + z / 64, z % 64;
      Byte0(a, b) == x && Byte1(b, c) == y && Byte2(c, d) == z
  {}

  lemma Base64Step(x: byte, y: byte, z: byte, rest: seq<byte>)
    ensures UnBase64(Base64([x, y, z] + rest)) == [x, y, z] + UnBase64(Base64(rest))
  {
    var a, b, c, d := x / 4, x % 4 * 16 + y / 16, y % 16 * 4 + z / 64, z % 64;
    assert ([x, y, z] + rest)[3..] == rest;
    SixBits(x, y, z);
    Values4(a, b, c, d, Base64(rest));
    Unpack4(a, b, c, d, Values(Base64(rest)));
  }

  lemma TwoSymbols(a: six, b: six)
    ensures Values([Symbol(a), Symbol(b)]) == [a, b]
  {
    ValuesCons(b, "");
    ValuesCons(a, [Symbol(b)]);
    assert [Symbol(b)] + "" == [Symbol(b)] && [Symbol(a)] + [Symbol(b)] == [Symbol(a), Symbol(b)];
  }

  lemma ThreeSymbols(a: six, b: six, c: six)
    ensures Values([Symbol(a), Symbol(b), Symbol(c)]) == [a, b, c]
  {
    TwoSymbols(b, c);
    ValuesCons(a, [Symbol(b), Symbol(c)]);
    assert [Symbol(a)] + [Symbol(b), Symbol(c)] == [Symbol(a), Symbol(b), Symbol(c)];
  }

  lemma Unpack4(a: six, b: six, c: six, d: six, vs: seq<six>)
    ensures Unpack([a, b, c, d] + vs) == [Byte0(a, b), Byte1(b, c), Byte2(c, d)] + Unpack(vs)
  {
    assert ([a, b, c, d] + vs)[4..] == vs;
  }

  /** Table 2 of RFC 4648: capitals, small letters, digits, '-' and '_', in their order. */
  lemma SymbolIs(v: six)
    ensures Symbol(0) == 'A' && Symbol(26) == 'a' && Symbol(52) == '0' && Symbol(62) == '-' && Symbol(63) == '_'
    ensures v < 61 && v != 25 && v != 51 ==> Symbol(v + 1) as int == Symbol(v) as int + 1
  {}

  /** Section 4 of RFC 4648: 24 bits at a time, most significant first, six bits to a symbol;
      a tail of one or two bytes gives two or three symbols, filled with zero bits. */
  lemma Base64Groups(x: byte, y: byte, z: byte, rest: seq<byte>)
    ensures var n: int := x * 65536 + y * 256 + z;
      Base64([x, y, z] + rest) == [Symbol(n / 262144), Symbol(n / 4096 % 64), Symbol(n / 64 % 64), Symbol(n % 64)] + Base64(rest)
    ensures var n: int := x * 1024 + y * 4; Base64([x, y]) == [Symbol(n / 4096), Symbol(n / 64 % 64), Symbol(n % 64)]
    ensures var n: int := x * 16; Base64([x]) == [Symbol(n / 64), Symbol(n % 64)]
    ensures Base64([]) == ""
  {
    assert ([x, y, z] + rest)[3..] == rest;
    Sextets(x, y, z);
    Sextets(x, y, 0);
    Sextets(x, 0, 0);
    hide Symbol;
  }

  lemma Sextets(x: byte, y: byte, z: byte)
    ensures var n: int := x * 65536 + y * 256 + z;
      && n / 262144 == x / 4 && n / 4096 % 64 == x % 4 * 16 + y / 16 && n / 64 % 64 == y % 16 * 4 + z / 64 && n % 64 == z % 64
    ensures var n: int := x * 1024 + y * 4;
      n / 4096 == x / 4 && n / 64 % 64 == x % 4 * 16 + y / 16 && n % 64 == y % 16 * 4
    ensures var n: int := x * 16; n / 64 == x / 4 && n % 64 == x % 4 * 16
  {
    var n: int, a: int, b: int := x * 65536 + y * 256 + z, x * 16 + y / 16, x * 1024 + y * 4 + z / 64;
    Divided(n, 262144, x / 4, x % 4 * 65536 + y * 256 + z);
    Divided(n, 4096, a, y % 16 * 256 + z);
    Divided(n, 64, b, z % 64);
    Divided(a, 64, x / 4, x % 4 * 16 + y / 16);
    Divided(b, 64, a, y % 16 * 4 + z / 64);
    var m: int := x * 1024 + y * 4;
    Divided(m, 4096, x / 4, x % 4 * 1024 + y * 4);
    Divided(m, 64, a, y % 16 * 4);
    Divided(x * 16, 64, x / 4, x % 4 * 16);
  }

  lemma Divided(n: int, d: int, q: int, r: int)
    requires 0 <= r < d && n == q * d + r
    ensures n / d == q && n % d == r
  {
    var k := n / d;
    assert k < q ==> (k + 1) * d <= q * d;
    assert k > q ==> (q + 1) * d <= k * d;
  }

  // ---------------------------------------------------------------- UTF-8

  function CodePoint(c: char): (r: seq<byte>)
    ensures 1 <= |r| <= 4
  {
    var n := c as int;
    if n < 0x80 then [n]
    else if n < 0x800 then [0xC0 + n / 64, 0x80 + n % 64]
    else if n < 0x1_0000 then [0xE0 + n / 4096, 0x80 + n / 64 % 64, 0x80 + n % 64]
    else [0xF0 + n / 262144, 0x80 + n / 4096 % 64, 0x80 + n / 64 % 64, 0x80 + n % 64]
  }

  function Utf8(s: string): seq<byte> {
    if s == "" then [] else CodePoint(s[0]) + Utf8(s[1..])
  }

  function At(r: seq<byte>, i: nat): int
    requires i < |r|
  {
    r[i]
  }

  /** Section 3 of RFC 3629: as many bytes as the code point needs, the first telling how many,
      and its bits spread over them, six to a continuation byte, most significant first. */
  lemma CodePointMeans(c: char)
    ensures var n: int, r := c as int, CodePoint(c);
      && |r| == (if n < 0x80 then 1 else if n < 0x800 then 2 else if n < 0x1_0000 then 3 else 4)
      && (forall i :: 0 < i < |r| ==> 0x80 <= At(r, i) < 0xC0)
      && (|r| == 1 ==> At(r, 0) == n)
      && (|r| == 2 ==> 0xC0 <= At(r, 0) < 0xE0 && (At(r, 0) - 0xC0) * 64 + (At(r, 1) - 0x80) == n)
      && (|r| == 3 ==>
            && 0xE0 <= At(r, 0) < 0xF0
            && (At(r, 0) - 0xE0) * 4096 + (At(r, 1) - 0x80) * 64 + (At(r, 2) - 0x80) == n)
      && (|r| == 4 ==>
            && 0xF0 <= At(r, 0) < 0xF8
            && (At(r, 0) - 0xF0) * 262144 + (At(r, 1) - 0x80) * 4096 + (At(r, 2) - 0x80) * 64 + (At(r, 3) - 0x80) == n)
  {
    var n: int := c as int;
    Spread(n);
  }

  lemma Spread(n: int)
    requires 0 <= n
    ensures n == n / 64 * 64 + n % 64
    ensures n == n / 4096 * 4096 + n / 64 % 64 * 64 + n % 64
    ensures n == n / 262144 * 262144 + n / 4096 % 64 * 4096 + n / 64 % 64 * 64 + n % 64
  {
    var a, b := n / 64, n / 64 / 64;
    assert n == a * 64 + n % 64 && a == b * 64 + a % 64 && b == b / 64 * 64 + b % 64;
    assert b == n / 4096 && b / 64 == n / 262144;
  }

  predicate Continuation(b: byte) { 0x80 <= b < 0xC0 }

  predicate Scalar(n: int) { 0 <= n < 0xD800 || 0xE000 <= n < 0x11_0000 }

  function Two(b: int, c: int): int { (b - 0xC0) * 64 + (c - 0x80) }

  function Three(b: int, c: int, d: int): int { (b - 0xE0) * 4096 + (c - 0x80) * 64 + (d - 0x80) }

  function Four(b: int, c: int, d: int, e: int): int {
    (b - 0xF0) * 262144 + (c - 0x80) * 4096 + (d - 0x80) * 64 + (e - 0x80)
  }

  /** The code point at the head of bs and its length; U+FFFD for a malformed byte. */
  function Head(bs: seq<byte>): (r: (char, nat))
    requires bs != []
    ensures 1 <= r.1 <= |bs|
  {
    if bs[0] < 0x80 then (bs[0] as char, 1)
    else if 0xC2 <= bs[0] < 0xE0 && |bs| >= 2 && Continuation(bs[1]) then (Two(bs[0], bs[1]) as char, 2)
    else if 0xE0 <= bs[0] < 0xF0 && |bs| >= 3 && Continuation(bs[1]) && Continuation(bs[2])
            && Three(bs[0], bs[1], bs[2]) >= 0x800 && Scalar(Three(bs[0], bs[1], bs[2])) then
      (Three(bs[0], bs[1], bs[2]) as char, 3)
    else if 0xF0 <= bs[0] < 0xF5 && |bs| >= 4 && Continuation(bs[1]) && Continuation(bs[2]) && Continuation(bs[3])
            && Four(bs[0], bs[1], bs[2], bs[3]) >= 0x1_0000 && Scalar(Four(bs[0], bs[1], bs[2], bs[3])) then
      (Four(bs[0], bs[1], bs[2], bs[3]) as char, 4)
    else ('\U{FFFD}', 1)
  }

  function UnUtf8(bs: seq<byte>): string {
    if bs == [] then "" else [Head(bs).0] + UnUtf8(bs[Head(bs).1..])
  }

  lemma HeadOfCodePoint(c: char, rest: seq<byte>)
    ensures Head(CodePoint(c) + rest) == (c, |CodePoint(c)|)
  {
    var n := c as int;
    assert n >= 0x1_0000 ==> n == n / 262144 * 262144 + n / 4096 % 64 * 4096 + n / 64 % 64 * 64 + n % 64;
    assert n < 0x1_0000 ==> n == n / 4096 * 4096 + n / 64 % 64 * 64 + n % 64;
  }

  lemma {:induction false} Utf8RoundTrip(s: string)
    ensures UnUtf8(Utf8(s)) == s
  {
    if s != "" {
      HeadOfCodePoint(s[0], Utf8(s[1..]));
      Utf8RoundTrip(s[1..]);
      assert (CodePoint(s[0]) + Utf8(s[1..]))[|CodePoint(s[0])|..] == Utf8(s[1..]);
      assert s == [s[0]] + s[1..];
    }
  }

  // ---------------------------------------------------------------- the cursor

  function EncodeCursor(value: string): string {
    Base64(Utf8(value))
  }

  function DecodeCursor(cursor: string): string {
    UnUtf8(UnBase64(cursor))
  }

  /** Every text survives the codec. */
  lemma CursorRoundTrip(value: string)
    ensures DecodeCursor(EncodeCursor(value)) == value
  {
    Base64RoundTrip(Utf8(value));
    Utf8RoundTrip(value);
  }

  predicate SepAt(s: string, i: int) {
    0 <= i < |s| - 1 && s[i] == '_' && s[i + 1] == '_'
  }

  /** lastIndexOf('__') */
  function LastSep(s: string): (i: int)
    ensures -1 <= i && (i >= 0 ==> SepAt(s, i))
    ensures forall j :: i < j ==> !SepAt(s, j)
  {
    if |s| < 2 then -1
    else if SepAt(s, |s| - 2) then |s| - 2
    else
      var i := LastSep(s[..|s| - 1]);
      assert forall j :: SepAt(s, j) && j != |s| - 2 ==> SepAt(s[..|s| - 1], j);
      i
  }

  /** slice(0, i) and slice(i + 2); with no separator, i is -1 and slice counts from the end. */
  function SplitCursor(s: string): (string, string) {
    var i := LastSep(s);
    if i >= 0 then (s[..i], s[i + 2..])
    else if s == "" then ("", "") else (s[..|s| - 1], s[1..])
  }

  /** An id the split can tell apart from the separator, whatever the date is. */
  ghost predicate CleanId(id: string) {
    (id == "" || id[0] != '_') && forall i :: !SepAt(id, i)
  }

  lemma LastSepOf(date: string, id: string)
    ensures CleanId(id) <==> LastSep(date + "__" + id) == |date|
  {
    var s := date + "__" + id;
    assert SepAt(s, |date|);
    assert forall i :: 0 <= i < |id| ==> s[|date| + 2 + i] == id[i];
    if CleanId(id) {
      forall j | j > |date| ensures !SepAt(s, j) {
        if j > |date| + 1 { assert !SepAt(id, j - |date| - 2); }
      }
    } else if id != "" && id[0] == '_' {
      assert SepAt(s, |date| + 1);
    } else {
      var i :| SepAt(id, i);
      assert SepAt(s, |date| + 2 + i);
    }
  }

  /** The split gives back date and id for every date, if and only if the id neither starts
      with '_' nor contains "__"; every UUID is such an id. */
  lemma SplitRoundTrip(date: string, id: string)
    ensures SplitCursor(date + "__" + id) == (date, id) <==> CleanId(id)
  {
    var s := date + "__" + id;
    LastSepOf(date, id);
    assert SepAt(s, |date|);
    assert LastSep(s) >= |date|;
    assert s[..|date|] == date && s[|date| + 2..] == id;
    assert |SplitCursor(s).0| == LastSep(s);
  }

  lemma EncodedSplitRoundTrip(date: string, id: string)
    ensures SplitCursor(DecodeCursor(EncodeCursor(date + "__" + id))) == (date, id) <==> CleanId(id)
  {
    CursorRoundTrip(date + "__" + id);
    SplitRoundTrip(date, id);
  }
}
