/** Putting an escaped user name into a filter template, whatever the template's text. */
module LdapTemplate {
  import opened Bytes
  import opened Common
  import opened LdapFilter
  import opened LdapRoundTrip
  import opened LdapEscape

  predicate AllBlank(w: bytes) { forall k :: 0 <= k < |w| ==> Blank(w[k]) }

  lemma {:induction false} SkipsBlanks(s: bytes, i: nat)
    requires i <= |s|
    ensures AllBlank(s[i..Skip(s, i)])
    decreases |s| - i
  {
    if i < |s| && Blank(s[i]) {
      SkipsBlanks(s, i + 1);
      assert s[i..Skip(s, i)] == [s[i]] + s[i + 1..Skip(s, i + 1)];
    }
  }

  lemma {:induction false} SkipAt(s: bytes, p: nat, w: bytes)
    requires At(s, p, w) && AllBlank(w) && p + |w| < |s| && !Blank(s[p + |w|])
    ensures Skip(s, p) == p + |w|
    decreases |w|
  {
    if w == [] {
    } else {
      assert s[p..p + |w|][0] == w[0];
      assert s[p + 1..p + |w|] == s[p..p + |w|][1..];
      SkipAt(s, p + 1, w[1..]);
    }
  }

  /** White space in front is left alone. */
  lemma {:induction false} PutBlanks(w: bytes, rest: bytes, x: bytes)
    requires AllBlank(w)
    ensures Put(w + rest, x) == w + Put(rest, x)
  {
    hide Put;
    if w == [] {
      assert w + rest == rest && w + Put(rest, x) == Put(rest, x);
    } else {
      PutBlanks(w[1..], rest, x);
      assert w + rest == [w[0]] + (w[1..] + rest);
      PutFirst(w[0], w[1..] + rest, x);
      assert [w[0]] + (w[1..] + Put(rest, x)) == w + Put(rest, x);
    }
  }

  // ---------------------------------------------------------------------------------------------
  // Attribute names

  /** What TrimSpace cuts off has no byte of the placeholder. */
  predicate Outside(w: bytes) { forall k :: 0 <= k < |w| ==> w[k] !in PLACEHOLDER }

  lemma FreeBehind(w: bytes, s: bytes)
    requires Outside(w) && Free(s, PLACEHOLDER)
    ensures Free(w + s, PLACEHOLDER)
  {
    forall i: nat ensures !StartsAt(w + s, i, PLACEHOLDER) {
      if StartsAt(w + s, i, PLACEHOLDER) {
        assert (w + s)[i..][0] == PLACEHOLDER[0];
        assert i >= |w| && (w + s)[i..] == s[i - |w|..];
        assert StartsAt(s, i - |w|, PLACEHOLDER);
      }
    }
  }

  lemma FreeBefore(s: bytes, w: bytes)
    requires Outside(w) && Free(s, PLACEHOLDER)
    ensures Free(s + w, PLACEHOLDER)
  {
    forall i: nat ensures !StartsAt(s + w, i, PLACEHOLDER) {
      if StartsAt(s + w, i, PLACEHOLDER) {
        var n := |PLACEHOLDER|;
        var last := (s + w)[i..][n - 1];
        assert last == PLACEHOLDER[n - 1] && last == (s + w)[i + n - 1];
        assert i + n <= |s|;
        assert s[i..][..n] == (s + w)[i..][..n];
        assert StartsAt(s, i, PLACEHOLDER);
      }
    }
  }

  /** A name is free of the placeholder with white space around it if it is without. */
  lemma {:induction false} TrimFree(s: bytes)
    requires Free(TrimSpace(s), PLACEHOLDER)
    ensures Free(s, PLACEHOLDER)
    decreases |s|
  {
    var front, back := LeadingSpace(s), TrailingSpace(s);
    LeadingOutside(s);
    TrailingOutside(s);
    hide LeadingSpace, TrailingSpace, Outside, Free;
    if front > 0 {
      TrimFree(s[front..]);
      assert s == s[..front] + s[front..];
      FreeBehind(s[..front], s[front..]);
    } else if back > 0 {
      var cut := |s| - back;
      TrimFree(s[..cut]);
      assert s == s[..cut] + s[cut..];
      FreeBefore(s[..cut], s[cut..]);
    }
  }

  lemma LeadingOutside(s: bytes)
    ensures Outside(s[..LeadingSpace(s)])
  {
  }

  lemma TrailingOutside(s: bytes)
    ensures Outside(s[|s| - TrailingSpace(s)..])
  {
  }

  // ---------------------------------------------------------------------------------------------
  // Parsing the text with the name in it

  lemma ParseEnds(t: bytes, i: nat)
    requires i <= |t| && Parse(t, i).Ok?
    ensures t[Parse(t, i).value.1 - 1] == CLOSE
  {
    hide ParseAll, TrimSpace;
  }

  /** The pieces of an equality in the text. */
  lemma EqualInText(t: bytes, b: nat) returns (raw: bytes, value: bytes)
    requires b <= |t| && ParseEqual(t, b).Ok?
    ensures var (f, j) := ParseEqual(t, b).value;
            t[b..j] == raw + ([EQUALS] + (value + [CLOSE])) && f == Equal(TrimSpace(raw), value)
    ensures TrimSpace(raw) != [] && raw != [] && raw[0] == t[b] && EQUALS !in raw && CLOSE !in raw && CLOSE !in value
  {
    var e := Find(t, b, EQUALS, CLOSE);
    var k := Find(t, e + 1, CLOSE, CLOSE);
    raw, value := t[b..e], t[e + 1..k];
    assert TrimSpace([]) == [];
    hide TrimSpace, Find;
  }

  lemma PutEqualPieces(raw: bytes, value: bytes, x: bytes)
    requires Free(TrimSpace(raw), PLACEHOLDER)
    ensures Put(raw + ([EQUALS] + (value + [CLOSE])), x) == raw + ([EQUALS] + (Put(value, x) + [CLOSE]))
  {
    hide TrimSpace, Free;
    TrimFree(raw);
    ReplaceNothing(raw, PLACEHOLDER, x);
    PutIsReplace(raw, x);
    hide Put, ReplaceAll;
    PutAcross(raw, EQUALS, value + [CLOSE], x);
    PutLast(value, x);
  }

  /** An equality, with white space around its attribute and any value. */
  lemma EqualInPlace(t: bytes, b: nat, x: bytes, s: bytes, p: nat)
    requires b <= |t| && ParseEqual(t, b).Ok? && CLOSE !in x
    requires var (f, j) := ParseEqual(t, b).value; NamesFree(f) && At(s, p, Put(t[b..j], x))
    ensures var (f, j) := ParseEqual(t, b).value;
            ParseEqual(s, p) == Ok((Substitute(f, x), p + |Put(t[b..j], x)|))
    ensures p < |s| && s[p] == t[b]
  {
    var raw, value := EqualInText(t, b);
    hide TrimSpace, ParseEqual, Free;
    PutEqualPieces(raw, value, x);
    PutIsReplace(value, x);
    ReplaceAvoids(value, PLACEHOLDER, x, CLOSE);
    hide Put, ReplaceAll, At;
    ParsePrintEqual(s, p, raw, Put(value, x));
    EqualPieces(s, p, raw, Put(value, x));
    AtFirst(s, p, raw);
  }

  /** What has been put in place of t[i..j]. */
  function Piece(t: bytes, i: nat, j: nat, x: bytes): bytes
    requires i <= j <= |t|
  {
    Put(t[i..j], x)
  }

  lemma PutOpening(t: bytes, i: nat, a: nat, b: nat, j: nat, x: bytes)
    requires i <= a < b < j <= |t| && t[a] == OPEN && AllBlank(t[i..a]) && AllBlank(t[a + 1..b])
    ensures Piece(t, i, j, x) == t[i..a] + ([OPEN] + (t[a + 1..b] + Piece(t, b, j, x)))
  {
    assert t[i..j] == t[i..a] + ([OPEN] + (t[a + 1..b] + t[b..j]));
    hide Put;
    PutBlanks(t[i..a], [OPEN] + (t[a + 1..b] + t[b..j]), x);
    PutFirst(OPEN, t[a + 1..b] + t[b..j], x);
    PutBlanks(t[a + 1..b], t[b..j], x);
  }

  /** Where an opening parenthesis stands with white space around it, and then a byte that is not blank, the body is parsed. */
  lemma OpensAt(s: bytes, p: nat, w: bytes, v: bytes, body: bytes)
    requires At(s, p, w + ([OPEN] + (v + body))) && AllBlank(w) && AllBlank(v) && body != [] && !Blank(body[0])
    ensures var q := p + |w| + 1 + |v|; At(s, q, body) && q < |s| && Parse(s, p) == ParseBody(s, q)
  {
    hide At, AllBlank, Skip, Parse, ParseBody;
    AtSplit(s, p, w, [OPEN] + (v + body));
    AtSplit(s, p + |w|, [OPEN], v + body);
    AtSplit(s, p + |w| + 1, v, body);
    AtOne(s, p + |w|, OPEN);
    AtFirst(s, p + |w| + 1 + |v|, body);
    SkipAt(s, p, w);
    SkipAt(s, p + |w| + 1, v);
    ParseUnfolds(s, p);
  }

  lemma ParseUnfolds(s: bytes, p: nat)
    requires p <= |s|
    ensures var a := Skip(s, p);
            a < |s| && s[a] == OPEN && Skip(s, a + 1) < |s| ==> Parse(s, p) == ParseBody(s, Skip(s, a + 1))
    ensures Parse(s, p).Ok? ==> var a := Skip(s, p); a < |s| && s[a] == OPEN && Skip(s, a + 1) < |s|
  {
    hide ParseBody, Skip;
  }

  /** The first byte of a body stays. */
  lemma BodyStart(t: bytes, b: nat, x: bytes)
    requires b < |t| && ParseBody(t, b).Ok? && NamesFree(ParseBody(t, b).value.0)
    ensures var piece := Piece(t, b, ParseBody(t, b).value.1, x); piece != [] && piece[0] == t[b]
  {
    var j := ParseBody(t, b).value.1;
    if t[b] == AMPERSAND || t[b] == BAR || t[b] == BANG {
      assert t[b..j] == [t[b]] + t[b + 1..j];
      PutFirst(t[b], t[b + 1..j], x);
    } else {
      var raw, value := EqualInText(t, b);
      PutEqualPieces(raw, value, x);
    }
    hide Put, ParseAll, Parse, ParseEqual, TrimSpace;
  }

  /**
   * Where the text parses to a tree, the text with the name put in parses, wherever it stands, to the tree with the name
   * put in.
   */
  lemma {:induction false} ParseInPlace(t: bytes, i: nat, x: bytes, s: bytes, p: nat)
    requires i <= |t| && Parse(t, i).Ok? && CLOSE !in x
    requires var (f, j) := Parse(t, i).value; NamesFree(f) && At(s, p, Piece(t, i, j, x))
    ensures var (f, j) := Parse(t, i).value; Parse(s, p) == Ok((Substitute(f, x), p + |Piece(t, i, j, x)|))
    decreases |t| - i, 2
  {
    hide Parse, ParseBody, NamesFree, Substitute, Skip, AllBlank, At, Piece;
    var j := Parse(t, i).value.1;
    ParseUnfolds(t, i);
    var a := Skip(t, i);
    var b := Skip(t, a + 1);
    SkipsBlanks(t, i);
    SkipsBlanks(t, a + 1);
    PutOpening(t, i, a, b, j, x);
    BodyStart(t, b, x);
    OpensAt(s, p, t[i..a], t[a + 1..b], Piece(t, b, j, x));
    BodyInPlace(t, b, x, s, p + (b - i));
  }

  lemma {:induction false} BodyInPlace(t: bytes, b: nat, x: bytes, s: bytes, q: nat)
    requires b < |t| && ParseBody(t, b).Ok? && CLOSE !in x
    requires var (f, j) := ParseBody(t, b).value; NamesFree(f) && At(s, q, Piece(t, b, j, x))
    ensures q < |s|
    ensures var (f, j) := ParseBody(t, b).value; ParseBody(s, q) == Ok((Substitute(f, x), q + |Piece(t, b, j, x)|))
    decreases |t| - b, 2
  {
    BodyStart(t, b, x);
    AtFirst(s, q, Piece(t, b, ParseBody(t, b).value.1, x));
    if t[b] == AMPERSAND || t[b] == BAR {
      ListInPlace(t, b, x, s, q);
    } else if t[b] == BANG {
      NotInPlace(t, b, x, s, q);
    } else {
      EqualInPlace(t, b, x, s, q);
    }
    hide ParseAll, Parse, ParseEqual, NamesFree, Substitute, At, Put;
  }

  lemma {:induction false} NotInPlace(t: bytes, b: nat, x: bytes, s: bytes, q: nat)
    requires b < |t| && t[b] == BANG && ParseBody(t, b).Ok? && CLOSE !in x
    requires var (f, j) := ParseBody(t, b).value; NamesFree(f) && At(s, q, Piece(t, b, j, x))
    ensures q < |s| && s[q] == BANG
    ensures var (f, j) := ParseBody(t, b).value; ParseBody(s, q) == Ok((Substitute(f, x), q + |Piece(t, b, j, x)|))
    decreases |t| - b, 1
  {
    hide *;
    var part, m, k := NotUnfolds(t, b);
    NotParts(part, x);
    ParseEnds(t, b + 1);
    SkipsBlanks(t, m);
    PutNot(t, b, m, k, x);
    var inner, w := Piece(t, b + 1, m, x), t[m..k];
    NotPieces(s, q, inner, w);
    ParseInPlace(t, b + 1, x, s, q + 1);
    SkipAt(s, q + 1 + |inner|, w);
    NotFolds(s, q, Substitute(part, x), q + 1 + |inner|);
  }

  lemma NotParts(part: Filter, x: bytes)
    ensures NamesFree(Not(part)) ==> NamesFree(part)
    ensures Substitute(Not(part), x) == Not(Substitute(part, x)) && !Blank(CLOSE)
  {
  }

  lemma NotUnfolds(t: bytes, b: nat) returns (part: Filter, m: nat, k: nat)
    requires b < |t| && t[b] == BANG && ParseBody(t, b).Ok?
    ensures Parse(t, b + 1) == Ok((part, m)) && b + 1 < m <= |t| && k == Skip(t, m) < |t| && t[k] == CLOSE
    ensures ParseBody(t, b) == Ok((Not(part), k + 1))
  {
    hide Parse, Skip;
    part, m := Parse(t, b + 1).value.0, Parse(t, b + 1).value.1;
    k := Skip(t, m);
  }

  lemma NotFolds(s: bytes, q: nat, part: Filter, m: nat)
    requires q < |s| && s[q] == BANG && Parse(s, q + 1) == Ok((part, m)) && m <= |s| && Skip(s, m) < |s| && s[Skip(s, m)] == CLOSE
    ensures ParseBody(s, q) == Ok((Not(part), Skip(s, m) + 1))
  {
    hide Parse, Skip;
  }

  lemma NotPieces(s: bytes, q: nat, inner: bytes, w: bytes)
    requires At(s, q, [BANG] + (inner + (w + [CLOSE])))
    ensures q < |s| && s[q] == BANG && At(s, q + 1, inner) && At(s, q + 1 + |inner|, w)
    ensures q + 1 + |inner| + |w| < |s| && s[q + 1 + |inner| + |w|] == CLOSE
  {
    hide At;
    AtSplit(s, q, [BANG], inner + (w + [CLOSE]));
    AtOne(s, q, BANG);
    AtSplit(s, q + 1, inner, w + [CLOSE]);
    AtSplit(s, q + 1 + |inner|, w, [CLOSE]);
    AtOne(s, q + 1 + |inner| + |w|, CLOSE);
  }

  lemma PutNot(t: bytes, b: nat, m: nat, k: nat, x: bytes)
    requires b + 1 < m <= k < |t| && t[b] == BANG && t[m - 1] == CLOSE && AllBlank(t[m..k]) && t[k] == CLOSE
    ensures Piece(t, b, k + 1, x) == [BANG] + (Piece(t, b + 1, m, x) + (t[m..k] + [CLOSE]))
  {
    assert t[b..k + 1] == [BANG] + (t[b + 1..m] + (t[m..k] + [CLOSE]));
    PutClose(x);
    hide Put;
    PutFirst(BANG, t[b + 1..m] + (t[m..k] + [CLOSE]), x);
    PutSplit(t[b + 1..m], t[m..k] + [CLOSE], x);
    PutBlanks(t[m..k], [CLOSE], x);
  }

  lemma PutClose(x: bytes)
    ensures Put([CLOSE], x) == [CLOSE]
  {
    hide Put;
    PutLast([], x);
    assert [] + [CLOSE] == [CLOSE];
    assert Put([], x) == [] by { PutIsReplace([], x); ReplaceEmpty(PLACEHOLDER, x); }
  }

  lemma {:induction false} ListInPlace(t: bytes, b: nat, x: bytes, s: bytes, q: nat)
    requires b < |t| && (t[b] == AMPERSAND || t[b] == BAR) && ParseBody(t, b).Ok? && CLOSE !in x
    requires var (f, j) := ParseBody(t, b).value; NamesFree(f) && At(s, q, Piece(t, b, j, x))
    ensures q < |s| && s[q] == t[b]
    ensures var (f, j) := ParseBody(t, b).value; ParseBody(s, q) == Ok((Substitute(f, x), q + |Piece(t, b, j, x)|))
    decreases |t| - b, 1
  {
    hide ParseAll, SubstituteAll, At, Piece;
    var (parts, k) := ParseAll(t, b + 1).value;
    PutComposite(t, b, k, x);
    var inner := Piece(t, b + 1, k, x);
    ListEnds(s, q, t[b], inner);
    AllInPlace(t, b + 1, x, s, q + 1);
  }

  lemma ListEnds(s: bytes, q: nat, operator: byte, inner: bytes)
    requires At(s, q, [operator] + (inner + [CLOSE]))
    ensures q < |s| && s[q] == operator && At(s, q + 1, inner)
    ensures q + 1 + |inner| < |s| && s[q + 1 + |inner|] == CLOSE
  {
    hide At;
    AtSplit(s, q, [operator], inner + [CLOSE]);
    AtOne(s, q, operator);
    AtSplit(s, q + 1, inner, [CLOSE]);
    AtOne(s, q + 1 + |inner|, CLOSE);
  }

  lemma PutComposite(t: bytes, b: nat, k: nat, x: bytes)
    requires b < k < |t| && (t[b] == AMPERSAND || t[b] == BAR) && t[k] == CLOSE
    ensures Piece(t, b, k + 1, x) == [t[b]] + (Piece(t, b + 1, k, x) + [CLOSE])
  {
    assert t[b..k + 1] == [t[b]] + (t[b + 1..k] + [CLOSE]);
    hide Put;
    PutFirst(t[b], t[b + 1..k] + [CLOSE], x);
    PutLast(t[b + 1..k], x);
  }

  /** The same for a list of filters that a closing parenthesis follows. */
  lemma {:induction false} AllInPlace(t: bytes, i: nat, x: bytes, s: bytes, p: nat)
    requires i <= |t| && ParseAll(t, i).Ok? && CLOSE !in x
    requires var (parts, k) := ParseAll(t, i).value;
             && (forall n :: 0 <= n < |parts| ==> NamesFree(parts[n])) && At(s, p, Piece(t, i, k, x))
             && p + |Piece(t, i, k, x)| < |s| && s[p + |Piece(t, i, k, x)|] == CLOSE
    ensures var (parts, k) := ParseAll(t, i).value; ParseAll(s, p) == Ok((SubstituteAll(parts, x), p + |Piece(t, i, k, x)|))
    decreases |t| - i, 4
  {
    var (parts, k) := ParseAll(t, i).value;
    var a := Skip(t, i);
    SkipsBlanks(t, i);
    if a == |t| || t[a] != OPEN {
      PutBlanks(t[i..a], [], x);
      assert t[i..a] + [] == t[i..a] && Put([], x) == [];
      SkipAt(s, p, t[i..a]);
      hide Put, Skip, At;
    } else {
      MoreInPlace(t, i, x, s, p);
    }
  }

  lemma {:induction false} MoreInPlace(t: bytes, i: nat, x: bytes, s: bytes, p: nat)
    requires i <= |t| && ParseAll(t, i).Ok? && CLOSE !in x && Skip(t, i) < |t| && t[Skip(t, i)] == OPEN
    requires var (parts, k) := ParseAll(t, i).value;
             && (forall n :: 0 <= n < |parts| ==> NamesFree(parts[n])) && At(s, p, Piece(t, i, k, x))
             && p + |Piece(t, i, k, x)| < |s| && s[p + |Piece(t, i, k, x)|] == CLOSE
    ensures var (parts, k) := ParseAll(t, i).value; ParseAll(s, p) == Ok((SubstituteAll(parts, x), p + |Piece(t, i, k, x)|))
    decreases |t| - i, 3
  {
    hide *;
    var first, j, others, k := AllUnfolds(t, i);
    MoreParts(first, others);
    var a := Skip(t, i);
    SkipsBlanks(t, i);
    ParseEnds(t, a);
    PutMore(t, i, a, j, k, x);
    var w, one, more := t[i..a], Piece(t, a, j, x), Piece(t, j, k, x);
    AtSplit(s, p, w, one + more);
    AtSplit(s, p + |w|, one, more);
    AtFirst(s, p + |w|, one);
    SkipAt(s, p, w);
    ParseInPlace(t, a, x, s, p + |w|);
    AllInPlace(t, j, x, s, p + |w| + |one|);
    AllFolds(s, p, Substitute(first, x), p + |w| + |one|, SubstituteAll(others, x), p + |w| + |one| + |more|);
    SubstituteCons(first, others, x);
  }

  lemma MoreParts(first: Filter, others: seq<Filter>)
    requires forall n :: 0 <= n < |[first] + others| ==> NamesFree(([first] + others)[n])
    ensures NamesFree(first) && (forall n :: 0 <= n < |others| ==> NamesFree(others[n])) && !Blank(OPEN)
  {
    hide NamesFree;
    assert ([first] + others)[0] == first;
    assert forall n :: 0 <= n < |others| ==> others[n] == ([first] + others)[n + 1];
  }

  lemma AllUnfolds(t: bytes, i: nat) returns (first: Filter, j: nat, others: seq<Filter>, k: nat)
    requires i <= |t| && ParseAll(t, i).Ok? && Skip(t, i) < |t| && t[Skip(t, i)] == OPEN
    ensures Parse(t, Skip(t, i)) == Ok((first, j)) && j <= |t| && ParseAll(t, j) == Ok((others, k))
    ensures ParseAll(t, i) == Ok(([first] + others, k))
  {
    hide Skip;
    first, j := Parse(t, Skip(t, i)).value.0, Parse(t, Skip(t, i)).value.1;
    hide Parse;
    others, k := ParseAll(t, j).value.0, ParseAll(t, j).value.1;
  }

  lemma AllFolds(s: bytes, p: nat, first: Filter, j: nat, others: seq<Filter>, k: nat)
    requires p <= |s| && Skip(s, p) < |s| && s[Skip(s, p)] == OPEN && Parse(s, Skip(s, p)) == Ok((first, j))
    requires j <= |s| && ParseAll(s, j) == Ok((others, k))
    ensures ParseAll(s, p) == Ok(([first] + others, k))
  {
    hide Skip, Parse;
  }

  lemma SubstituteCons(first: Filter, others: seq<Filter>, x: bytes)
    ensures SubstituteAll([first] + others, x) == [Substitute(first, x)] + SubstituteAll(others, x)
  {
    hide Substitute;
    assert ([first] + others)[1..] == others;
  }

  lemma PutMore(t: bytes, i: nat, a: nat, j: nat, k: nat, x: bytes)
    requires i <= a < j <= k <= |t| && AllBlank(t[i..a]) && t[a] == OPEN && t[j - 1] == CLOSE
    ensures Piece(t, i, k, x) == t[i..a] + (Piece(t, a, j, x) + Piece(t, j, k, x))
    ensures Piece(t, a, j, x) != [] && Piece(t, a, j, x)[0] == OPEN
  {
    assert t[i..k] == t[i..a] + (t[a..j] + t[j..k]);
    assert t[a..j] == [OPEN] + t[a + 1..j];
    hide Put;
    PutBlanks(t[i..a], t[a..j] + t[j..k], x);
    PutSplit(t[a..j], t[j..k], x);
    PutFirst(OPEN, t[a + 1..j], x);
  }

  // ---------------------------------------------------------------------------------------------
  // Every name, every template

  lemma {:induction false} SubstituteKeepsShape(f: Filter, x: bytes)
    ensures SameShape(f, Substitute(f, x))
    decreases f
  {
    match f
    case And(parts) =>
      forall i | 0 <= i < |parts| ensures SameShape(parts[i], Substitute(parts[i], x)) { SubstituteKeepsShape(parts[i], x); }
    case Or(parts) =>
      forall i | 0 <= i < |parts| ensures SameShape(parts[i], Substitute(parts[i], x)) { SubstituteKeepsShape(parts[i], x); }
    case Not(part) => SubstituteKeepsShape(part, x);
    case Equal(_, _) =>
  }

  /**
   * Whatever the user name, and whatever template the parser accepts whose attributes do not hold the placeholder: with the
   * escaped name put in, the parser reads the same part of it, as the template's own tree with only the values changed.
   */
  lemma NameCannotChangeShape(t: bytes, u: bytes)
    requires Parse(t, 0).Ok? && NamesFree(Parse(t, 0).value.0)
    ensures var (f, j) := Parse(t, 0).value;
            && Parse(Put(t, Escape(u)), 0) == Ok((Substitute(f, Escape(u)), |Put(t[..j], Escape(u))|))
            && SameShape(f, Substitute(f, Escape(u)))
            && (j == |t| ==> |Put(t[..j], Escape(u))| == |Put(t, Escape(u))|)
  {
    hide *;
    var (f, j) := Parse(t, 0).value;
    var x := Escape(u);
    EscapeIsSafe(u);
    SubstituteKeepsShape(f, x);
    ParseEnds(t, 0);
    PutFront(t, j, x);
    ParseInPlace(t, 0, x, Put(t, x), 0);
  }

  /** A front part that ends in a closing parenthesis is replaced on its own. */
  lemma PutFront(t: bytes, j: nat, x: bytes)
    requires 0 < j <= |t| && t[j - 1] == CLOSE
    ensures Piece(t, 0, j, x) == Put(t[..j], x) && At(Put(t, x), 0, Piece(t, 0, j, x))
    ensures j == |t| ==> Put(t[..j], x) == Put(t, x)
  {
    hide Put;
    assert t == t[..j] + t[j..] && t[0..j] == t[..j];
    PutSplit(t[..j], t[j..], x);
    assert j == |t| ==> t[..j] == t;
  }

  /** With the default template the value sent is the escaped name: the name itself exactly when it has no special byte. */
  lemma DefaultTemplateSends(u: bytes)
    ensures var text := Put(Print(Equal([117, 105, 100], PLACEHOLDER)), Escape(u));
            && Parse(text, 0) == Ok((Equal([117, 105, 100], Escape(u)), |text|))
            && (Escape(u) == u <==> forall k :: 0 <= k < |u| ==> !Special(u[k]))
  {
    hide *;
    var f := Equal([117, 105, 100], PLACEHOLDER);
    EscapeIsIdentity(u);
    DefaultParses();
    NameCannotChangeShape(Print(f), u);
    SubstituteValue([117, 105, 100], PLACEHOLDER, Escape(u));
    PutWhole(u);
  }

  lemma DefaultParses()
    ensures var f := Equal([117, 105, 100], PLACEHOLDER); Parse(Print(f), 0) == Ok((f, |Print(f)|)) && NamesFree(f)
  {
    var f := Equal([117, 105, 100], PLACEHOLDER);
    DefaultName();
    hide TrimSpace, Free, Parse, Print;
    assert Print(f)[0..] == Print(f);
    ParsePrint(Print(f), 0, f);
  }

  lemma DefaultName()
    ensures var uid := [117, 105, 100]; TrimSpace(uid) == uid && Free(uid, PLACEHOLDER) && PrintableName(uid)
  {
  }

  lemma SubstituteValue(attr: bytes, value: bytes, x: bytes)
    ensures Substitute(Equal(attr, value), x) == Equal(attr, ReplaceAll(value, PLACEHOLDER, x))
  {
  }

  lemma PutWhole(u: bytes)
    ensures ReplaceAll(PLACEHOLDER, PLACEHOLDER, Escape(u)) == Escape(u)
  {
    hide ReplaceAll, Escape;
    ReplaceHere(PLACEHOLDER, PLACEHOLDER, Escape(u));
    ReplaceEmpty(PLACEHOLDER, Escape(u));
    assert PLACEHOLDER[|PLACEHOLDER|..] == [] && Escape(u) + [] == Escape(u);
  }
}
