/** User names in search filters: escaping, substitution for the placeholder, and what that keeps of the filter. */
module LdapEscape {
  import opened Bytes
  import opened Common
  import opened LdapFilter
  import opened LdapRoundTrip

  predicate Special(b: byte) { b == STAR || b == OPEN || b == CLOSE || b == BACKSLASH || b == 0 }

  function HexDigit(d: nat): byte
    requires d < 16
  {
    if d < 10 then 48 + d else 87 + d
  }

  function HexValue(b: byte): nat { if 48 <= b <= 57 then b - 48 else if 97 <= b <= 102 then b - 87 else 0 }

  function EscapeByte(b: byte): bytes {
    if Special(b) then [BACKSLASH, HexDigit(b / 16), HexDigit(b % 16)] else [b]
  }

  function Escape(u: bytes): bytes { if u == [] then [] else EscapeByte(u[0]) + Escape(u[1..]) }

  /** Section 3 of RFC 4515: a backslash and two hexadecimal digits stand for one byte. */
  function Unescape(s: bytes): bytes {
    if s == [] then []
    else if s[0] == BACKSLASH && |s| >= 3 then [(16 * HexValue(s[1]) + HexValue(s[2])) % 256] + Unescape(s[3..])
    else [s[0]] + Unescape(s[1..])
  }

  /** escapeFilter */
  method EscapeFilter(value: bytes) returns (r: bytes)
    ensures r == Escape(value)
  {
    hide EscapeByte;
    r := [];
    for k := 0 to |value|
      invariant Escape(value) == r + Escape(value[k..])
    {
      assert value[k..][1..] == value[k + 1..];
      r := r + EscapeByte(value[k]);
    }
  }

  /** The five escapes of section 3 of RFC 4515, byte by byte: backslash and the hexadecimal code of *, (, ), backslash and NUL. */
  lemma EscapesAreThese(b: byte)
    ensures EscapeByte(b) == if b == 42 then [92, 50, 97] else if b == 40 then [92, 50, 56] else if b == 41 then [92, 50, 57]
                             else if b == 92 then [92, 53, 99] else if b == 0 then [92, 48, 48] else [b]
  {
  }

  /** Nothing that could open, close or widen a filter is left. */
  lemma {:induction false} EscapeIsSafe(u: bytes)
    ensures STAR !in Escape(u) && OPEN !in Escape(u) && CLOSE !in Escape(u) && 0 !in Escape(u)
  {
    if u != [] { EscapeIsSafe(u[1..]); }
  }

  /** The name can be recovered. */
  lemma {:induction false} EscapeRoundTrip(u: bytes)
    ensures Unescape(Escape(u)) == u
  {
    if u == [] {
    } else {
      EscapeRoundTrip(u[1..]);
      UnescapeOne(u[0], Escape(u[1..]));
      assert [u[0]] + u[1..] == u;
      hide EscapeByte, Unescape;
    }
  }

  lemma UnescapeOne(b: byte, rest: bytes)
    ensures Unescape(EscapeByte(b) + rest) == [b] + Unescape(rest)
  {
    var s := EscapeByte(b) + rest;
    if Special(b) {
      HexPair(b);
      hide HexValue, HexDigit, Special;
      assert s[3..] == rest;
    } else {
      assert s[0] == b && s[1..] == rest;
    }
  }

  lemma HexPair(b: byte)
    requires Special(b)
    ensures (16 * HexValue(HexDigit(b / 16)) + HexValue(HexDigit(b % 16))) % 256 == b
  {
  }

  /** The parser hands value bytes on as they are, so the server sees the name itself only if nothing had to be escaped. */
  lemma {:induction false} EscapeIsIdentity(u: bytes)
    ensures Escape(u) == u <==> forall k :: 0 <= k < |u| ==> !Special(u[k])
    ensures |Escape(u)| >= |u| && (|Escape(u)| == |u| ==> Escape(u) == u)
  {
    if u == [] {
    } else {
      EscapeIsIdentity(u[1..]);
      assert [u[0]] + u[1..] == u;
      if Special(u[0]) { assert |Escape(u)| > |u|; }
      assert forall k :: 1 <= k < |u| ==> u[1..][k - 1] == u[k];
    }
  }

  // ---------------------------------------------------------------------------------------------
  // strings.ReplaceAll

  function ReplaceAll(s: bytes, pattern: bytes, x: bytes): bytes
    requires pattern != []
    decreases |s|
  {
    if |s| < |pattern| then s
    else if s[..|pattern|] == pattern then x + ReplaceAll(s[|pattern|..], pattern, x)
    else [s[0]] + ReplaceAll(s[1..], pattern, x)
  }

  lemma PrefixStopsBefore(a: bytes, c: byte, b: bytes, pattern: bytes)
    requires c !in pattern
    ensures pattern <= a + ([c] + b) <==> pattern <= a
  {
    var s, n := a + ([c] + b), |pattern|;
    if |a| < n <= |s| {
      assert s[..n][|a|] == c;
    } else if n <= |a| {
      assert s[..n] == a[..n];
    }
  }

  /** A byte that the pattern does not contain separates what is replaced on its two sides. */
  lemma {:induction false} ReplaceAcross(a: bytes, c: byte, b: bytes, pattern: bytes, x: bytes)
    requires pattern != [] && c !in pattern
    ensures ReplaceAll(a + ([c] + b), pattern, x) == ReplaceAll(a, pattern, x) + ([c] + ReplaceAll(b, pattern, x))
    decreases |a|
  {
    hide ReplaceAll;
    var s, n, tail := a + ([c] + b), |pattern|, [c] + ReplaceAll(b, pattern, x);
    PrefixStopsBefore(a, c, b, pattern);
    if pattern <= s {
      ReplaceAcross(a[n..], c, b, pattern, x);
      assert s[n..] == a[n..] + ([c] + b);
      ReplaceHere(s, pattern, x);
      ReplaceHere(a, pattern, x);
      assert x + (ReplaceAll(a[n..], pattern, x) + tail) == x + ReplaceAll(a[n..], pattern, x) + tail;
    } else if a == [] {
      ReplaceLater(s, pattern, x);
      ReplaceEmpty(pattern, x);
      assert s[1..] == b && [] + tail == tail;
    } else {
      ReplaceAcross(a[1..], c, b, pattern, x);
      assert s[1..] == a[1..] + ([c] + b);
      ReplaceLater(s, pattern, x);
      ReplaceLater(a, pattern, x);
      assert [a[0]] + (ReplaceAll(a[1..], pattern, x) + tail) == [a[0]] + ReplaceAll(a[1..], pattern, x) + tail;
    }
  }

  lemma ReplaceEmpty(pattern: bytes, x: bytes)
    requires pattern != []
    ensures ReplaceAll([], pattern, x) == []
  {
  }

  lemma ReplaceHere(s: bytes, pattern: bytes, x: bytes)
    requires pattern != [] && pattern <= s
    ensures ReplaceAll(s, pattern, x) == x + ReplaceAll(s[|pattern|..], pattern, x)
  {
  }

  lemma ReplaceLater(s: bytes, pattern: bytes, x: bytes)
    requires pattern != [] && s != [] && !(pattern <= s)
    ensures ReplaceAll(s, pattern, x) == [s[0]] + ReplaceAll(s[1..], pattern, x)
  {
    if |s| < |pattern| { assert [s[0]] + s[1..] == s; }
  }

  lemma {:induction false} ReplaceAvoids(s: bytes, pattern: bytes, x: bytes, c: byte)
    requires pattern != [] && c !in s && c !in x
    ensures c !in ReplaceAll(s, pattern, x)
    decreases |s|
  {
    if |s| >= |pattern| {
      if s[..|pattern|] == pattern { ReplaceAvoids(s[|pattern|..], pattern, x, c); } else { ReplaceAvoids(s[1..], pattern, x, c); }
    }
  }

  ghost predicate StartsAt(s: bytes, i: nat, pattern: bytes) { i <= |s| && pattern <= s[i..] }

  ghost predicate Free(s: bytes, pattern: bytes) { forall i: nat :: !StartsAt(s, i, pattern) }

  lemma {:induction false} ReplaceNothing(s: bytes, pattern: bytes, x: bytes)
    requires pattern != [] && Free(s, pattern)
    ensures ReplaceAll(s, pattern, x) == s
    decreases |s|
  {
    if s == [] {
    } else {
      assert !StartsAt(s, 0, pattern) && s[0..] == s;
      forall i: nat ensures !StartsAt(s[1..], i, pattern) {
        assert !StartsAt(s, i + 1, pattern);
        if i < |s| { assert s[1..][i..] == s[i + 1..]; }
      }
      ReplaceNothing(s[1..], pattern, x);
      ReplaceLater(s, pattern, x);
      assert [s[0]] + s[1..] == s;
    }
  }

  // ---------------------------------------------------------------------------------------------
  // Substitution into a filter

  /** {username} */
  const PLACEHOLDER: bytes := [123, 117, 115, 101, 114, 110, 97, 109, 101, 125]

  function Substitute(f: Filter, x: bytes): Filter {
    match f
    case And(parts) => And(SubstituteAll(parts, x))
    case Or(parts) => Or(SubstituteAll(parts, x))
    case Not(part) => Not(Substitute(part, x))
    case Equal(attr, value) => Equal(attr, ReplaceAll(value, PLACEHOLDER, x))
  }

  function SubstituteAll(parts: seq<Filter>, x: bytes): (r: seq<Filter>)
    ensures |r| == |parts| && forall i :: 0 <= i < |parts| ==> r[i] == Substitute(parts[i], x)
  {
    if parts == [] then [] else [Substitute(parts[0], x)] + SubstituteAll(parts[1..], x)
  }

  ghost predicate NamesFree(f: Filter) {
    match f
    case And(parts) => forall i :: 0 <= i < |parts| ==> NamesFree(parts[i])
    case Or(parts) => forall i :: 0 <= i < |parts| ==> NamesFree(parts[i])
    case Not(part) => NamesFree(part)
    case Equal(attr, _) => Free(attr, PLACEHOLDER)
  }

  /** The same connectives over the same attributes. */
  ghost predicate SameShape(f: Filter, g: Filter) {
    match f
    case And(parts) => g.And? && |parts| == |g.parts| && forall i :: 0 <= i < |parts| ==> SameShape(parts[i], g.parts[i])
    case Or(parts) => g.Or? && |parts| == |g.parts| && forall i :: 0 <= i < |parts| ==> SameShape(parts[i], g.parts[i])
    case Not(part) => g.Not? && SameShape(part, g.part)
    case Equal(attr, _) => g.Equal? && g.attr == attr
  }

  function Put(s: bytes, x: bytes): bytes { ReplaceAll(s, PLACEHOLDER, x) }

  /** The syntax of filters is outside the placeholder, white space included. */
  lemma PutAcross(a: bytes, c: byte, b: bytes, x: bytes)
    requires c !in PLACEHOLDER
    ensures Put(a + ([c] + b), x) == Put(a, x) + ([c] + Put(b, x))
  {
    ReplaceAcross(a, c, b, PLACEHOLDER, x);
  }

  lemma PutFirst(c: byte, b: bytes, x: bytes)
    requires c !in PLACEHOLDER
    ensures Put([c] + b, x) == [c] + Put(b, x)
  {
    PutAcross([], c, b, x);
    assert [] + ([c] + b) == [c] + b;
    assert Put([], x) == [];
    assert [] + ([c] + Put(b, x)) == [c] + Put(b, x);
  }

  lemma PutLast(a: bytes, x: bytes)
    ensures Put(a + [CLOSE], x) == Put(a, x) + [CLOSE]
  {
    PutAcross(a, CLOSE, [], x);
    assert [CLOSE] + [] == [CLOSE] && Put([], x) == [];
  }

  lemma PutList(operator: byte, inner: bytes, x: bytes)
    requires operator == AMPERSAND || operator == BAR || operator == BANG
    ensures Put([OPEN, operator] + (inner + [CLOSE]), x) == [OPEN, operator] + (Put(inner, x) + [CLOSE])
  {
    hide Put;
    assert [OPEN, operator] + (inner + [CLOSE]) == [OPEN] + ([operator] + (inner + [CLOSE]));
    PutFirst(OPEN, [operator] + (inner + [CLOSE]), x);
    PutFirst(operator, inner + [CLOSE], x);
    PutLast(inner, x);
    assert [OPEN] + ([operator] + (Put(inner, x) + [CLOSE])) == [OPEN, operator] + (Put(inner, x) + [CLOSE]);
  }

  lemma PutEqual(attr: bytes, value: bytes, x: bytes)
    requires Free(attr, PLACEHOLDER)
    ensures Put([OPEN] + (attr + ([EQUALS] + (value + [CLOSE]))), x) == [OPEN] + (attr + ([EQUALS] + (Put(value, x) + [CLOSE])))
  {
    ReplaceNothing(attr, PLACEHOLDER, x);
    assert Put(attr, x) == attr;
    hide Put;
    PutFirst(OPEN, attr + ([EQUALS] + (value + [CLOSE])), x);
    PutAcross(attr, EQUALS, value + [CLOSE], x);
    PutLast(value, x);
  }

  /** Substituting in the text is substituting in the tree. */
  lemma {:induction false} PutPrinted(f: Filter, x: bytes)
    requires NamesFree(f)
    ensures Put(Print(f), x) == Print(Substitute(f, x))
    decreases f, 1
  {
    hide Put, Free;
    match f
    case And(parts) =>
      PutList(AMPERSAND, PrintAll(parts), x);
      PutPrintedAll(parts, x);
      hide PrintAll, SubstituteAll;
    case Or(parts) =>
      PutList(BAR, PrintAll(parts), x);
      PutPrintedAll(parts, x);
      hide PrintAll, SubstituteAll;
    case Not(part) =>
      PutList(BANG, Print(part), x);
      PutPrinted(part, x);
    case Equal(attr, value) =>
      PutEqual(attr, value, x);
      assert ReplaceAll(value, PLACEHOLDER, x) == Put(value, x) by { PutIsReplace(value, x); }
  }

  lemma PutIsReplace(s: bytes, x: bytes)
    ensures Put(s, x) == ReplaceAll(s, PLACEHOLDER, x)
  {
  }

  lemma {:induction false} PutPrintedAll(parts: seq<Filter>, x: bytes)
    requires forall i :: 0 <= i < |parts| ==> NamesFree(parts[i])
    ensures Put(PrintAll(parts), x) == PrintAll(SubstituteAll(parts, x))
    decreases parts, 0
  {
    if parts == [] {
      assert PrintAll(parts) == [];
    } else {
      PutPrinted(parts[0], x);
      PutPrintedAll(parts[1..], x);
      PutSplit(Print(parts[0]), PrintAll(parts[1..]), x) by { PrintOpens(parts[0]); }
      assert SubstituteAll(parts, x)[1..] == SubstituteAll(parts[1..], x);
      hide Put, Print, Substitute;
    }
  }

  /** Text that ends in a closing parenthesis is replaced on its own. */
  lemma PutSplit(a: bytes, b: bytes, x: bytes)
    requires a != [] && a[|a| - 1] == CLOSE
    ensures Put(a + b, x) == Put(a, x) + Put(b, x)
  {
    hide Put;
    var front := a[..|a| - 1];
    assert a + b == front + ([CLOSE] + b) && a == front + [CLOSE];
    PutAcross(front, CLOSE, b, x);
    PutLast(front, x);
    assert Put(front, x) + [CLOSE] + Put(b, x) == Put(front, x) + ([CLOSE] + Put(b, x));
  }
}
