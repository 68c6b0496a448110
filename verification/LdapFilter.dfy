/** The search-filter parser of the LDAP client, the BER form it produces, and the escaping of user names. */
module LdapFilter {
  import opened Bytes
  import opened Common
  import opened LdapBer

  const TAB: byte := 9
  const NEWLINE: byte := 10
  const SPACE: byte := 32
  const BANG: byte := 33
  const AMPERSAND: byte := 38
  const OPEN: byte := 40
  const CLOSE: byte := 41
  const STAR: byte := 42
  const EQUALS: byte := 61
  const BACKSLASH: byte := 92
  const BAR: byte := 124

  datatype Filter = And(parts: seq<Filter>) | Or(parts: seq<Filter>) | Not(part: Filter) | Equal(attr: bytes, value: bytes)

  datatype ParseError = NoOpen | Invalid | Unterminated | NotEquality | EmptyAttribute

  // ---------------------------------------------------------------------------------------------
  // The encoding of section 4.5.1 of RFC 4511

  function Encode(f: Filter): bytes {
    match f
    case And(parts) => Enc(0xa0, EncodeAll(parts))
    case Or(parts) => Enc(0xa1, EncodeAll(parts))
    case Not(part) => Enc(0xa2, Encode(part))
    case Equal(attr, value) => Enc(0xa3, Enc(0x04, attr) + Enc(0x04, value))
  }

  function EncodeAll(parts: seq<Filter>): bytes {
    if parts == [] then [] else Encode(parts[0]) + EncodeAll(parts[1..])
  }

  /** A reading of the encoding that only uses readTLV and children. */
  function Decode(t: Tlv): Option<Filter>
    decreases |t.value| + 1, 0
  {
    match Children(t.value)
    case Err(_) => None
    case Ok(items) =>
      if t.tag == 0xa3 then
        if |items| == 2 && items[0].tag == 0x04 && items[1].tag == 0x04 then Some(Equal(items[0].value, items[1].value)) else None
      else
        match DecodeAll(items, |t.value|)
        case None => None
        case Some(parts) =>
          if t.tag == 0xa0 then Some(And(parts))
          else if t.tag == 0xa1 then Some(Or(parts))
          else if t.tag == 0xa2 && |parts| == 1 then Some(Not(parts[0]))
          else None
  }

  function DecodeAll(items: seq<Tlv>, bound: nat): Option<seq<Filter>>
    requires forall i :: 0 <= i < |items| ==> |items[i].value| < bound
    decreases bound, |items|
  {
    if items == [] then Some([])
    else
      var first := Decode(items[0]);
      var others := DecodeAll(items[1..], bound);
      if first.Some? && others.Some? then Some([first.value] + others.value) else None
  }

  function DecodeBytes(s: bytes): Option<Filter> {
    match ReadTlv(s)
    case Err(_) => None
    case Ok((item, rest)) => if rest == [] then Decode(item) else None
  }

  // ---------------------------------------------------------------------------------------------
  // The grammar the parser accepts

  predicate Blank(b: byte) { b == SPACE || b == TAB || b == NEWLINE }

  function Skip(s: bytes, i: nat): (r: nat)
    requires i <= |s|
    ensures i <= r <= |s| && (r < |s| ==> !Blank(s[r]))
    decreases |s| - i
  {
    if i < |s| && Blank(s[i]) then Skip(s, i + 1) else i
  }

  /** The next position of one of two bytes, or the end. */
  function Find(s: bytes, i: nat, stop: byte, other: byte): (r: nat)
    requires i <= |s|
    ensures i <= r <= |s| && (r < |s| ==> s[r] == stop || s[r] == other)
    ensures forall k :: i <= k < r ==> s[k] != stop && s[k] != other
    decreases |s| - i
  {
    if i < |s| && s[i] != stop && s[i] != other then Find(s, i + 1, stop, other) else i
  }

  /** The length of the white-space character (in UTF-8) at the front of a string, or zero. */
  function LeadingSpace(s: bytes): (n: nat)
    ensures n <= |s|
  {
    if |s| >= 1 && (9 <= s[0] <= 13 || s[0] == 32) then 1
    else if |s| >= 2 && s[0] == 0xC2 && (s[1] == 0x85 || s[1] == 0xA0) then 2
    else if |s| >= 3 && WideSpace(s[0], s[1], s[2]) then 3
    else 0
  }

  function TrailingSpace(s: bytes): (n: nat)
    ensures n <= |s|
  {
    var k := |s|;
    if k >= 1 && (9 <= s[k - 1] <= 13 || s[k - 1] == 32) then 1
    else if k >= 2 && s[k - 2] == 0xC2 && (s[k - 1] == 0x85 || s[k - 1] == 0xA0) then 2
    else if k >= 3 && WideSpace(s[k - 3], s[k - 2], s[k - 1]) then 3
    else 0
  }

  predicate WideSpace(a: byte, b: byte, c: byte) {
    || (a == 0xE1 && b == 0x9A && c == 0x80)
    || (a == 0xE2 && b == 0x80 && (0x80 <= c <= 0x8A || c == 0xA8 || c == 0xA9 || c == 0xAF))
    || (a == 0xE2 && b == 0x81 && c == 0x9F)
    || (a == 0xE3 && b == 0x80 && c == 0x80)
  }

  /** strings.TrimSpace */
  function TrimSpace(s: bytes): bytes
    decreases |s|
  {
    var front, back := LeadingSpace(s), TrailingSpace(s);
    if front > 0 then TrimSpace(s[front..])
    else if back > 0 then TrimSpace(s[..|s| - back])
    else s
  }

  type Parsed = Result<(Filter, nat), ParseError>
  type ParsedAll = Result<(seq<Filter>, nat), ParseError>

  /** The closing parenthesis of a composite filter. */
  function Closed(f: Filter, s: bytes, i: nat): (r: Parsed)
    ensures r.Ok? ==> i < r.value.1 <= |s|
  {
    if i >= |s| || s[i] != CLOSE then Err(Unterminated) else Ok((f, i + 1))
  }

  function ClosedList(operator: byte, s: bytes, all: ParsedAll): (r: Parsed)
    ensures r.Ok? ==> all.Ok? && all.value.1 < r.value.1 <= |s|
  {
    match all
    case Err(e) => Err(e)
    case Ok((parts, j)) => Closed(if operator == AMPERSAND then And(parts) else Or(parts), s, j)
  }

  function ParseEqual(s: bytes, i: nat): (r: Parsed)
    requires i <= |s|
    ensures r.Ok? ==> i < r.value.1 <= |s|
  {
    var j := Find(s, i, EQUALS, CLOSE);
    if j == |s| || s[j] != EQUALS then Err(NotEquality)
    else
      var k := Find(s, j + 1, CLOSE, CLOSE);
      if k == |s| then Err(Unterminated)
      else if TrimSpace(s[i..j]) == [] then Err(EmptyAttribute)
      else Ok((Equal(TrimSpace(s[i..j]), s[j + 1..k]), k + 1))
  }

  function Parse(s: bytes, i: nat): (r: Parsed)
    requires i <= |s|
    ensures r.Ok? ==> i < r.value.1 <= |s|
    decreases |s| - i, 0
  {
    var a := Skip(s, i);
    if a == |s| || s[a] != OPEN then Err(NoOpen)
    else
      var b := Skip(s, a + 1);
      if b == |s| then Err(Invalid) else ParseBody(s, b)
  }

  /** What follows the opening parenthesis. */
  function ParseBody(s: bytes, b: nat): (r: Parsed)
    requires b < |s|
    ensures r.Ok? ==> b < r.value.1 <= |s|
    decreases |s| - b, 0
  {
    if s[b] == AMPERSAND || s[b] == BAR then ClosedList(s[b], s, ParseAll(s, b + 1))
    else if s[b] == BANG then
      match Parse(s, b + 1)
      case Err(e) => Err(e)
      case Ok((part, j)) => Closed(Not(part), s, Skip(s, j))
    else ParseEqual(s, b)
  }

  /** Filters up to the first byte that does not open one. */
  function ParseAll(s: bytes, i: nat): (r: ParsedAll)
    requires i <= |s|
    ensures r.Ok? ==> i <= r.value.1 <= |s|
    decreases |s| - i, 2
  {
    ParseMore(s, Skip(s, i))
  }

  function ParseMore(s: bytes, a: nat): (r: ParsedAll)
    requires a <= |s|
    ensures r.Ok? ==> a <= r.value.1 <= |s|
    decreases |s| - a, 1
  {
    if a == |s| || s[a] != OPEN then Ok(([], a))
    else match Parse(s, a)
      case Err(e) => Err(e)
      case Ok((first, j)) =>
        match ParseAll(s, j)
        case Err(e) => Err(e)
        case Ok((others, k)) => Ok(([first] + others, k))
  }

  // ---------------------------------------------------------------------------------------------
  // The parser

  function PrependAll(parts: seq<Filter>, r: ParsedAll): ParsedAll {
    if r.Ok? then Ok((parts + r.value.0, r.value.1)) else r
  }

  lemma PrependAllOne(parts: seq<Filter>, s: bytes, i: nat)
    requires i < |s| && s[i] == OPEN && Parse(s, i).Ok?
    ensures PrependAll(parts, ParseMore(s, i)) == PrependAll(parts + [Parse(s, i).value.0], ParseAll(s, Parse(s, i).value.1))
  {
    hide Parse, ParseAll;
    var (first, j) := Parse(s, i).value;
    var more := ParseAll(s, j);
    if more.Ok? { assert parts + ([first] + more.value.0) == parts + [first] + more.value.0; }
  }

  lemma PrependAllNothing(r: ParsedAll)
    ensures PrependAll([], r) == r
  {
    if r.Ok? { assert [] + r.value.0 == r.value.0; }
  }

  lemma {:induction false} EncodeAllAppend(parts: seq<Filter>, f: Filter)
    ensures EncodeAll(parts + [f]) == EncodeAll(parts) + Encode(f)
  {
    hide Encode;
    if parts == [] {
      assert [] + [f] == [f];
    } else {
      EncodeAllAppend(parts[1..], f);
      assert (parts + [f])[1..] == parts[1..] + [f];
    }
  }

  lemma {:induction false} JoinAppend(parts: seq<bytes>, p: bytes)
    ensures Join(parts + [p]) == Join(parts) + p
  {
    if parts == [] {
      assert [] + [p] == [p];
    } else {
      JoinAppend(parts[1..], p);
      assert (parts + [p])[1..] == parts[1..] + [p];
    }
  }

  /** What a method leaves behind: the encoding of the tree, and the position after it. */
  ghost predicate Agrees(spec: Parsed, r: Result<bytes, ParseError>, i: nat) {
    match spec
    case Ok((f, j)) => r == Ok(Encode(f)) && i == j
    case Err(e) => r == Err(e)
  }

  lemma EncodeNot(f: Filter)
    ensures Encode(Not(f)) == Enc(0xa2, Encode(f))
  {
  }

  lemma EncodeList(parts: seq<Filter>)
    ensures Encode(And(parts)) == Enc(0xa0, EncodeAll(parts)) && Encode(Or(parts)) == Enc(0xa1, EncodeAll(parts))
  {
  }

  class FilterParser {
    const s: bytes
    var i: nat

    constructor (s: bytes)
      ensures this.s == s && i == 0
    {
      this.s, i := s, 0;
    }

    method SkipBlanks()
      requires i <= |s|
      modifies this
      ensures i == Skip(s, old(i)) && Skip(s, i) == i
    {
      while i < |s| && Blank(s[i])
        invariant i <= |s| && Skip(s, i) == Skip(s, old(i))
      {
        i := i + 1;
      }
    }

    /** The scanning loops for the attribute and the value. */
    method ScanTo(stop: byte, other: byte)
      requires i <= |s|
      modifies this
      ensures i == Find(s, old(i), stop, other)
    {
      while i < |s| && s[i] != stop && s[i] != other
        invariant i <= |s| && Find(s, i, stop, other) == Find(s, old(i), stop, other)
      {
        i := i + 1;
      }
    }

    /** parse */
    method ParseFilter() returns (r: Result<bytes, ParseError>)
      requires i <= |s|
      modifies this
      ensures i <= |s|
      ensures Agrees(Parse(s, old(i)), r, i)
      decreases |s| - i, 1
    {
      hide ParseAll, ParseEqual, Encode, Skip, Enc;
      SkipBlanks();
      if i >= |s| || s[i] != OPEN { return Err(NoOpen); }
      i := i + 1;
      SkipBlanks();
      if i >= |s| { return Err(Invalid); }
      if s[i] == AMPERSAND || s[i] == BAR {
        r := ParseList();
      } else if s[i] == BANG {
        ghost var start := i + 1;
        i := i + 1;
        var child := ParseFilter();
        if child.Err? { return child; }
        SkipBlanks();
        if i >= |s| || s[i] != CLOSE { return Err(Unterminated); }
        i := i + 1;
        EncodeNot(Parse(s, start).value.0);
        r := Ok(Enc(0xa2, child.value));
      } else {
        r := ParseEquality();
      }
    }

    /** The operands of & and |, and the closing parenthesis. */
    method ParseList() returns (r: Result<bytes, ParseError>)
      requires i < |s| && (s[i] == AMPERSAND || s[i] == BAR)
      modifies this
      ensures i <= |s|
      ensures Agrees(ClosedList(old(s[i]), s, ParseAll(s, old(i) + 1)), r, i)
      decreases |s| - i, 0
    {
      hide Parse, Encode, Skip, Enc;
      var operator := s[i];
      i := i + 1;
      ghost var start := i;
      var encoded: seq<bytes> := [];
      ghost var parts: seq<Filter> := [];
      SkipBlanks();
      PrependAllNothing(ParseMore(s, i));
      while i < |s| && s[i] == OPEN
        invariant start <= i <= |s|
        invariant Skip(s, i) == i
        invariant Join(encoded) == EncodeAll(parts)
        invariant ParseAll(s, start) == PrependAll(parts, ParseMore(s, i))
        decreases |s| - i
      {
        ghost var before := i;
        var child := ParseFilter();
        if child.Err? { return child; }
        ghost var f := Parse(s, before).value.0;
        PrependAllOne(parts, s, before);
        EncodeAllAppend(parts, f);
        JoinAppend(encoded, child.value);
        encoded, parts := encoded + [child.value], parts + [f];
        SkipBlanks();
      }
      assert parts + [] == parts;
      SkipBlanks();
      if i >= |s| || s[i] != CLOSE { return Err(Unterminated); }
      i := i + 1;
      EncodeList(parts);
      r := Ok(Enc(if operator == AMPERSAND then 0xa0 else 0xa1, Join(encoded)));
    }

    /** attribute = value */
    method ParseEquality() returns (r: Result<bytes, ParseError>)
      requires i < |s|
      modifies this
      ensures i <= |s|
      ensures Agrees(ParseEqual(s, old(i)), r, i)
    {
      hide Find, TrimSpace, Enc;
      var start := i;
      ScanTo(EQUALS, CLOSE);
      if i >= |s| || s[i] != EQUALS { return Err(NotEquality); }
      var attr := TrimSpace(s[start..i]);
      i := i + 1;
      start := i;
      ScanTo(CLOSE, CLOSE);
      if i >= |s| { return Err(Unterminated); }
      var value := s[start..i];
      i := i + 1;
      if attr == [] { return Err(EmptyAttribute); }
      r := Ok(Enc(0xa3, Enc(0x04, attr) + Enc(0x04, value)));
    }
  }

  // ---------------------------------------------------------------------------------------------
  // White space

  /** Between the parts of a filter spaces, tabs and newlines are skipped, and nothing else. */
  lemma {:induction false} SkipIsExact(s: bytes, i: nat)
    requires i <= |s|
    ensures var r := Skip(s, i);
            && (forall k :: i <= k < r ==> s[k] == 32 || s[k] == 9 || s[k] == 10)
            && (r < |s| ==> s[r] != 32 && s[r] != 9 && s[r] != 10)
    decreases |s| - i
  {
    if i < |s| && Blank(s[i]) { SkipIsExact(s, i + 1); }
  }
}
