/** Printed filters parse to the tree they came from, and the bytes produced decode to that tree again. */
module LdapRoundTrip {
  import opened Bytes
  import opened Common
  import opened LdapBer
  import opened LdapFilter

  // ---------------------------------------------------------------------------------------------
  // Printing

  function Print(f: Filter): bytes {
    match f
    case And(parts) => [OPEN, AMPERSAND] + (PrintAll(parts) + [CLOSE])
    case Or(parts) => [OPEN, BAR] + (PrintAll(parts) + [CLOSE])
    case Not(part) => [OPEN, BANG] + (Print(part) + [CLOSE])
    case Equal(attr, value) => [OPEN] + (attr + ([EQUALS] + (value + [CLOSE])))
  }

  function PrintAll(parts: seq<Filter>): bytes {
    if parts == [] then [] else Print(parts[0]) + PrintAll(parts[1..])
  }

  /** Attribute names that can be written without being taken for something else, and values without a closing parenthesis. */
  predicate Printable(f: Filter) {
    match f
    case And(parts) => forall i :: 0 <= i < |parts| ==> Printable(parts[i])
    case Or(parts) => forall i :: 0 <= i < |parts| ==> Printable(parts[i])
    case Not(part) => Printable(part)
    case Equal(attr, value) => PrintableName(attr) && CLOSE !in value
  }

  predicate PrintableName(attr: bytes) {
    && attr != [] && !Blank(attr[0]) && attr[0] != AMPERSAND && attr[0] != BAR && attr[0] != BANG
    && EQUALS !in attr && CLOSE !in attr && TrimSpace(attr) == attr
  }

  lemma AtSplit(s: bytes, i: nat, p: bytes, q: bytes)
    requires At(s, i, p + q)
    ensures At(s, i, p) && At(s, i + |p|, q)
  {
    assert s[i..i + |p|] == (p + q)[..|p|];
    assert s[i + |p|..i + |p| + |q|] == (p + q)[|p|..];
  }

  lemma AtOne(s: bytes, i: nat, b: byte)
    requires At(s, i, [b])
    ensures i < |s| && s[i] == b
  {
    assert s[i..i + 1][0] == b;
  }

  lemma {:induction false} FindAt(s: bytes, i: nat, p: bytes, stop: byte, other: byte)
    requires At(s, i, p) && stop !in p && other !in p && i + |p| < |s| && s[i + |p|] == stop
    ensures Find(s, i, stop, other) == i + |p|
    decreases |p|
  {
    if p == [] {
    } else {
      assert s[i..i + |p|][0] == p[0];
      assert s[i + 1..i + |p|] == s[i..i + |p|][1..];
      FindAt(s, i + 1, p[1..], stop, other);
    }
  }

  lemma EqualPieces(s: bytes, i: nat, attr: bytes, value: bytes)
    requires At(s, i, attr + ([EQUALS] + (value + [CLOSE])))
    ensures At(s, i, attr) && i + |attr| < |s| && s[i + |attr|] == EQUALS
    ensures At(s, i + |attr| + 1, value) && i + |attr| + 1 + |value| < |s| && s[i + |attr| + 1 + |value|] == CLOSE
  {
    AtSplit(s, i, attr, [EQUALS] + (value + [CLOSE]));
    AtSplit(s, i + |attr|, [EQUALS], value + [CLOSE]);
    AtSplit(s, i + |attr| + 1, value, [CLOSE]);
    hide At;
    AtOne(s, i + |attr|, EQUALS);
    AtOne(s, i + |attr| + 1 + |value|, CLOSE);
  }

  lemma ParsePrintEqual(s: bytes, i: nat, attr: bytes, value: bytes)
    requires TrimSpace(attr) != [] && EQUALS !in attr && CLOSE !in attr && CLOSE !in value
    requires At(s, i, attr + ([EQUALS] + (value + [CLOSE])))
    ensures ParseEqual(s, i) == Ok((Equal(TrimSpace(attr), value), i + |attr| + |value| + 2))
  {
    hide TrimSpace, Find;
    EqualPieces(s, i, attr, value);
    FindAt(s, i, attr, EQUALS, CLOSE);
    FindAt(s, i + |attr| + 1, value, CLOSE, CLOSE);
  }

  /** The pieces of a printed composite filter. */
  lemma ListPieces(s: bytes, i: nat, operator: byte, inner: bytes)
    requires At(s, i, [OPEN, operator] + (inner + [CLOSE]))
    ensures i + 2 + |inner| < |s| && s[i] == OPEN && s[i + 1] == operator && s[i + 2 + |inner|] == CLOSE
    ensures At(s, i + 2, inner)
  {
    AtSplit(s, i, [OPEN, operator], inner + [CLOSE]);
    assert s[i..i + 2][0] == OPEN && s[i..i + 2][1] == operator;
    AtSplit(s, i + 2, inner, [CLOSE]);
    AtOne(s, i + 2 + |inner|, CLOSE);
  }

  /** A printed filter parses to the filter, wherever it stands and whatever comes after it. */
  lemma {:induction false} ParsePrint(s: bytes, i: nat, f: Filter)
    requires Printable(f) && At(s, i, Print(f))
    ensures Parse(s, i) == Ok((f, i + |Print(f)|))
    decreases f, 1
  {
    hide Parse, TrimSpace, ParseEqual, At;
    match f
    case And(parts) => ParsePrintList(s, i, AMPERSAND, parts);
    case Or(parts) => ParsePrintList(s, i, BAR, parts);
    case Not(part) =>
      ListPieces(s, i, BANG, Print(part));
      ParsePrint(s, i + 2, part);
      UnfoldParse(s, i);
    case Equal(attr, value) =>
      AtSplit(s, i, [OPEN], attr + ([EQUALS] + (value + [CLOSE])));
      AtOne(s, i, OPEN);
      ParsePrintEqual(s, i + 1, attr, value);
      EqualPieces(s, i + 1, attr, value);
      AtFirst(s, i + 1, attr);
      UnfoldParse(s, i);
  }

  lemma AtFirst(s: bytes, i: nat, p: bytes)
    requires At(s, i, p) && p != []
    ensures i < |s| && s[i] == p[0]
  {
    assert s[i..i + |p|][0] == p[0];
  }

  /** Where the next two bytes are an opening parenthesis and a byte that is not blank, the body is parsed. */
  lemma UnfoldParse(s: bytes, i: nat)
    requires i + 1 < |s| && s[i] == OPEN && !Blank(s[i + 1])
    ensures Parse(s, i) == ParseBody(s, i + 1)
  {
  }

  lemma {:induction false} ParsePrintList(s: bytes, i: nat, operator: byte, parts: seq<Filter>)
    requires operator == AMPERSAND || operator == BAR
    requires forall k :: 0 <= k < |parts| ==> Printable(parts[k])
    requires At(s, i, [OPEN, operator] + (PrintAll(parts) + [CLOSE]))
    ensures Parse(s, i) == Ok((if operator == AMPERSAND then And(parts) else Or(parts), i + |PrintAll(parts)| + 3))
    decreases parts, 1
  {
    hide Parse, ParseAll, PrintAll, At, Printable;
    ListPieces(s, i, operator, PrintAll(parts));
    ParsePrintAll(s, i + 2, parts);
    UnfoldParse(s, i);
  }

  lemma {:induction false} ParsePrintAll(s: bytes, i: nat, parts: seq<Filter>)
    requires forall k :: 0 <= k < |parts| ==> Printable(parts[k])
    requires At(s, i, PrintAll(parts)) && i + |PrintAll(parts)| < |s| && s[i + |PrintAll(parts)|] == CLOSE
    ensures ParseAll(s, i) == Ok((parts, i + |PrintAll(parts)|))
    decreases parts, 0
  {
    hide Parse, Print, Printable, At;
    if parts == [] {
    } else {
      AtSplit(s, i, Print(parts[0]), PrintAll(parts[1..]));
      ParsePrint(s, i, parts[0]);
      ParsePrintAll(s, i + |Print(parts[0])|, parts[1..]);
      PrintOpens(parts[0]);
      AtFirst(s, i, Print(parts[0]));
      assert [parts[0]] + parts[1..] == parts;
    }
  }

  lemma PrintOpens(f: Filter)
    ensures |Print(f)| >= 2 && Print(f)[0] == OPEN && Print(f)[|Print(f)| - 1] == CLOSE
  {
    hide PrintAll;
  }

  // ---------------------------------------------------------------------------------------------
  // Decoding

  function TagOf(f: Filter): byte {
    match f
    case And(_) => 0xa0
    case Or(_) => 0xa1
    case Not(_) => 0xa2
    case Equal(_, _) => 0xa3
  }

  function BodyOf(f: Filter): bytes {
    match f
    case And(parts) => EncodeAll(parts)
    case Or(parts) => EncodeAll(parts)
    case Not(part) => Encode(part)
    case Equal(attr, value) => Enc(0x04, attr) + Enc(0x04, value)
  }

  lemma EncodeIsTlv(f: Filter)
    ensures Encode(f) == Enc(TagOf(f), BodyOf(f))
    ensures |Encode(f)| > |BodyOf(f)| + 1
  {
  }

  function Items(parts: seq<Filter>): seq<Tlv> {
    if parts == [] then [] else [Tlv(TagOf(parts[0]), BodyOf(parts[0]))] + Items(parts[1..])
  }

  lemma {:induction false} ItemsEncode(parts: seq<Filter>)
    ensures EncAll(Items(parts)) == EncodeAll(parts)
    ensures forall k :: 0 <= k < |Items(parts)| ==> |Items(parts)[k].value| < |EncodeAll(parts)|
  {
    if parts == [] {
    } else {
      ItemsEncode(parts[1..]);
      EncodeIsTlv(parts[0]);
      assert Items(parts)[1..] == Items(parts[1..]);
      hide Enc, Encode;
    }
  }

  lemma {:induction false} DecodeBody(f: Filter)
    requires |BodyOf(f)| <= TLV_LIMIT
    ensures Decode(Tlv(TagOf(f), BodyOf(f))) == Some(f)
    decreases f, 1
  {
    hide Encode, EncodeAll, Children, Enc, DecodeAll;
    match f
    case And(parts) => DecodeList(parts);
    case Or(parts) => DecodeList(parts);
    case Not(part) =>
      EncodeIsTlv(part);
      DecodeBody(part);
      OneChild(Tlv(TagOf(part), BodyOf(part)));
      DecodeOne(Tlv(TagOf(part), BodyOf(part)), |Encode(part)|);
    case Equal(attr, value) =>
      TwoChildren(Tlv(0x04, attr), Tlv(0x04, value));
  }

  lemma DecodeOne(t: Tlv, bound: nat)
    requires |t.value| < bound && Decode(t).Some?
    ensures DecodeAll([t], bound) == Some([Decode(t).value])
  {
    hide Decode;
    assert [t][1..] == [];
    assert DecodeAll([t][1..], bound) == Some([]);
    assert [Decode(t).value] + [] == [Decode(t).value];
  }

  lemma OneChild(t: Tlv)
    requires |Enc(t.tag, t.value)| <= TLV_LIMIT
    ensures Children(Enc(t.tag, t.value)) == Ok([t])
  {
    assert EncAll([t]) == Enc(t.tag, t.value) + [] && Enc(t.tag, t.value) + [] == Enc(t.tag, t.value);
    ChildrenRoundTrip([t]);
  }

  lemma TwoChildren(t: Tlv, u: Tlv)
    requires |Enc(t.tag, t.value) + Enc(u.tag, u.value)| <= TLV_LIMIT
    ensures Children(Enc(t.tag, t.value) + Enc(u.tag, u.value)) == Ok([t, u])
  {
    assert [t, u][1..] == [u];
    assert EncAll([u]) == Enc(u.tag, u.value) + [] && Enc(u.tag, u.value) + [] == Enc(u.tag, u.value);
    assert |t.value| < |Enc(t.tag, t.value)| && |u.value| < |Enc(u.tag, u.value)|;
    hide Enc;
    ChildrenRoundTrip([t, u]);
  }

  lemma {:induction false} DecodeList(parts: seq<Filter>)
    requires |EncodeAll(parts)| <= TLV_LIMIT
    ensures Children(EncodeAll(parts)) == Ok(Items(parts))
    ensures forall k :: 0 <= k < |Items(parts)| ==> |Items(parts)[k].value| < |EncodeAll(parts)|
    ensures DecodeAll(Items(parts), |EncodeAll(parts)|) == Some(parts)
    decreases parts, 1
  {
    hide EncodeAll, Items, DecodeAll, Children, EncAll;
    ItemsEncode(parts);
    ChildrenRoundTrip(Items(parts));
    DecodeItems(parts, |EncodeAll(parts)|);
  }

  lemma {:induction false} DecodeItems(parts: seq<Filter>, bound: nat)
    requires bound <= TLV_LIMIT
    requires forall k :: 0 <= k < |Items(parts)| ==> |Items(parts)[k].value| < bound
    ensures DecodeAll(Items(parts), bound) == Some(parts)
    decreases parts, 0
  {
    if parts == [] {
    } else {
      var items := Items(parts);
      assert items[0] == Tlv(TagOf(parts[0]), BodyOf(parts[0]));
      assert items[1..] == Items(parts[1..]);
      DecodeBody(parts[0]);
      DecodeItems(parts[1..], bound);
      assert [parts[0]] + parts[1..] == parts;
      hide Decode, BodyOf, TagOf, Items;
    }
  }

  /** The encoding of a filter decodes to it exactly when its outermost body is within the limit of readTLV. */
  lemma DecodeEncode(f: Filter)
    requires |BodyOf(f)| < INT_LIMIT
    ensures DecodeBytes(Encode(f)) == if |BodyOf(f)| <= TLV_LIMIT then Some(f) else None
  {
    EncodeIsTlv(f);
    TlvRoundTrip(TagOf(f), BodyOf(f), []);
    assert Enc(TagOf(f), BodyOf(f)) + [] == Enc(TagOf(f), BodyOf(f));
    if |BodyOf(f)| <= TLV_LIMIT { DecodeBody(f); }
    hide Enc, BodyOf, TagOf, Encode, Decode, ReadTlv;
  }

  /** Text to tree to bytes to tree: nothing is lost. */
  lemma FilterRoundTrip(f: Filter)
    requires Printable(f) && |BodyOf(f)| <= TLV_LIMIT
    ensures Parse(Print(f), 0) == Ok((f, |Print(f)|))
    ensures DecodeBytes(Encode(f)) == Some(f)
  {
    hide Parse, Print, BodyOf, Encode, DecodeBytes, Printable;
    ParsePrint(Print(f), 0, f);
    DecodeEncode(f);
  }

  /** The parser as it is: run over a printed filter it returns bytes that decode to the filter. */
  method ParsePrinted(f: Filter) returns (r: Result<bytes, ParseError>)
    requires Printable(f) && |BodyOf(f)| <= TLV_LIMIT
    ensures r.Ok? && DecodeBytes(r.value) == Some(f)
  {
    FilterRoundTrip(f);
    var parser := new FilterParser(Print(f));
    hide Print, Encode, Parse, DecodeBytes, BodyOf;
    r := parser.ParseFilter();
  }

  // ---------------------------------------------------------------------------------------------
  // One filter, byte by byte

  /** A filter with each kind of part in it: in text, (&(a=b)(|(c=d)(!(e=f)))). */
  const SAMPLE: Filter := And([Equal([97], [98]), Or([Equal([99], [100]), Not(Equal([101], [102]))])])

  const SAMPLE_TEXT: bytes :=
    [40, 38, 40, 97, 61, 98, 41, 40, 124, 40, 99, 61, 100, 41, 40, 33, 40, 101, 61, 102, 41, 41, 41, 41]

  /** Section 4.5.1 of RFC 4511: context tags 0 to 3, and octet strings for attribute and value. */
  const SAMPLE_BYTES: bytes :=
    [0xa0, 28, 0xa3, 6, 4, 1, 97, 4, 1, 98, 0xa1, 18, 0xa3, 6, 4, 1, 99, 4, 1, 100, 0xa2, 8, 0xa3, 6, 4, 1, 101, 4, 1, 102]

  lemma SampleText()
    ensures Print(SAMPLE) == SAMPLE_TEXT && Printable(SAMPLE)
  {
    hide Print, Printable;
    OuterText();
  }

  lemma OuterText()
    ensures var outer := And([Equal([97], [98]), Or([Equal([99], [100]), Not(Equal([101], [102]))])]);
            && Print(outer) == [40, 38, 40, 97, 61, 98, 41, 40, 124, 40, 99, 61, 100, 41, 40, 33, 40, 101, 61, 102, 41, 41, 41, 41]
            && Printable(outer)
  {
    hide *;
    InnerText();
    PrintShort(97, 98);
    PrintPair(Equal([97], [98]), Or([Equal([99], [100]), Not(Equal([101], [102]))]));
    OuterLetters();
  }

  lemma OuterLetters()
    ensures [40, 38] + ([40, 97, 61, 98, 41] + [40, 124, 40, 99, 61, 100, 41, 40, 33, 40, 101, 61, 102, 41, 41, 41] + [41])
         == [40, 38, 40, 97, 61, 98, 41, 40, 124, 40, 99, 61, 100, 41, 40, 33, 40, 101, 61, 102, 41, 41, 41, 41]
  {
  }

  lemma InnerText()
    ensures var inner := Or([Equal([99], [100]), Not(Equal([101], [102]))]);
            Print(inner) == [40, 124, 40, 99, 61, 100, 41, 40, 33, 40, 101, 61, 102, 41, 41, 41] && Printable(inner)
  {
    hide *;
    PrintShort(99, 100);
    PrintShort(101, 102);
    PrintNot(Equal([101], [102]));
    PrintPair(Equal([99], [100]), Not(Equal([101], [102])));
  }

  lemma PrintNot(f: Filter)
    ensures Print(Not(f)) == [40, 33] + (Print(f) + [41]) && Printable(Not(f)) == Printable(f)
  {
    hide PrintAll;
  }

  lemma PrintPair(f: Filter, g: Filter)
    ensures Print(And([f, g])) == [40, 38] + (Print(f) + Print(g) + [41]) && Print(Or([f, g])) == [40, 124] + (Print(f) + Print(g) + [41])
    ensures Printable(f) && Printable(g) ==> Printable(And([f, g])) && Printable(Or([f, g]))
  {
    PrintTwo(f, g);
    hide PrintAll;
  }

  lemma PrintShort(a: byte, v: byte)
    requires 97 <= a <= 122 && 97 <= v <= 122
    ensures Print(Equal([a], [v])) == [40, a, 61, v, 41] && Printable(Equal([a], [v]))
  {
    assert TrimSpace([a]) == [a];
  }

  lemma PrintTwo(f: Filter, g: Filter)
    ensures PrintAll([f, g]) == Print(f) + Print(g)
  {
    hide Print;
    assert [f, g][1..] == [g] && [g][1..] == [];
    assert PrintAll([]) == [] && Print(g) + [] == Print(g);
  }

  lemma EncShort(tag: byte, body: bytes)
    requires |body| < 128
    ensures Enc(tag, body) == [tag, |body|] + body
  {
  }

  lemma EncodeShort(a: byte, v: byte)
    ensures Encode(Equal([a], [v])) == [0xa3, 6, 4, 1, a, 4, 1, v]
  {
    EncShort(4, [a]);
    EncShort(4, [v]);
    EncShort(0xa3, [4, 1, a, 4, 1, v]);
    hide Enc;
  }

  lemma EncodeTwo(f: Filter, g: Filter)
    ensures EncodeAll([f, g]) == Encode(f) + Encode(g)
  {
    hide Encode;
    assert [f, g][1..] == [g] && [g][1..] == [];
    assert EncodeAll([]) == [] && Encode(g) + [] == Encode(g);
  }

  lemma EncodeParts(f: Filter, g: Filter)
    requires |Encode(f)| + |Encode(g)| < 128
    ensures Encode(And([f, g])) == [0xa0, |Encode(f)| + |Encode(g)|] + (Encode(f) + Encode(g))
    ensures Encode(Or([f, g])) == [0xa1, |Encode(f)| + |Encode(g)|] + (Encode(f) + Encode(g))
    ensures Encode(Not(f)) == [0xa2, |Encode(f)|] + Encode(f)
  {
    EncodeTwo(f, g);
    EncShort(0xa0, Encode(f) + Encode(g));
    EncShort(0xa1, Encode(f) + Encode(g));
    EncShort(0xa2, Encode(f));
    hide Enc, EncodeAll;
  }

  lemma InnerBytes()
    ensures Encode(Or([Equal([99], [100]), Not(Equal([101], [102]))])) ==
            [0xa1, 18, 0xa3, 6, 4, 1, 99, 4, 1, 100, 0xa2, 8, 0xa3, 6, 4, 1, 101, 4, 1, 102]
  {
    hide *;
    EncodeShort(99, 100);
    EncodeShort(101, 102);
    EncodeParts(Equal([101], [102]), Equal([99], [100]));
    EncodeParts(Equal([99], [100]), Not(Equal([101], [102])));
  }

  lemma OuterBytes()
    ensures Encode(And([Equal([97], [98]), Or([Equal([99], [100]), Not(Equal([101], [102]))])])) ==
            [0xa0, 28, 0xa3, 6, 4, 1, 97, 4, 1, 98, 0xa1, 18, 0xa3, 6, 4, 1, 99, 4, 1, 100, 0xa2, 8, 0xa3, 6, 4, 1, 101, 4, 1, 102]
  {
    hide *;
    InnerBytes();
    EncodeShort(97, 98);
    EncodeParts(Equal([97], [98]), Or([Equal([99], [100]), Not(Equal([101], [102]))]));
    OuterOctets();
  }

  lemma OuterOctets()
    ensures [0xa0, 28] + ([0xa3, 6, 4, 1, 97, 4, 1, 98] +
                          [0xa1, 18, 0xa3, 6, 4, 1, 99, 4, 1, 100, 0xa2, 8, 0xa3, 6, 4, 1, 101, 4, 1, 102])
         == [0xa0, 28, 0xa3, 6, 4, 1, 97, 4, 1, 98, 0xa1, 18, 0xa3, 6, 4, 1, 99, 4, 1, 100, 0xa2, 8, 0xa3, 6, 4, 1, 101, 4, 1, 102]
  {
  }

  lemma SampleBytes()
    ensures Encode(SAMPLE) == SAMPLE_BYTES
  {
    hide Encode, EncodeAll, Enc;
    OuterBytes();
  }

  /** The running parser turns this text into these bytes. */
  method SampleParses() returns (r: Result<bytes, ParseError>)
    ensures r == Ok(SAMPLE_BYTES)
  {
    SampleText();
    SampleBytes();
    hide Print, Parse, Encode, Printable, BodyOf;
    assert SAMPLE_TEXT[0..] == SAMPLE_TEXT;
    ParsePrint(SAMPLE_TEXT, 0, SAMPLE);
    var parser := new FilterParser(SAMPLE_TEXT);
    r := parser.ParseFilter();
  }
}
