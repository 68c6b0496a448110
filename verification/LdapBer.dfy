/** The BER subset of the LDAP client: definite lengths, tag-length-value items and non-negative integers. */
module LdapBer {
  import opened Bytes
  import opened Common

  const INT_LIMIT: int := 0x8000_0000_0000_0000
  const WORD: int := 0x1_0000_0000_0000_0000
  const TLV_LIMIT: int := 0x100_0000

  datatype Tlv = Tlv(tag: byte, value: bytes)

  // ---------------------------------------------------------------------------------------------
  // Numbers

  function Pow256(k: nat): (p: nat)
    ensures p > 0
  {
    if k == 0 then 1 else 256 * Pow256(k - 1)
  }

  function BigEndian(n: nat): bytes { if n == 0 then [] else BigEndian(n / 256) + [n % 256] }

  function Unsigned(raw: bytes): nat {
    if raw == [] then 0 else 256 * Unsigned(raw[..|raw| - 1]) + raw[|raw| - 1]
  }

  lemma {:induction false} BigEndianValue(n: nat)
    ensures Unsigned(BigEndian(n)) == n
    ensures n > 0 ==> |BigEndian(n)| > 0 && BigEndian(n)[0] > 0
  {
    if n == 0 {
    } else {
      BigEndianValue(n / 256);
      assert BigEndian(n)[..|BigEndian(n)| - 1] == BigEndian(n / 256);
    }
  }

  lemma {:induction false} BigEndianLength(n: nat, k: nat)
    ensures n < Pow256(k) <==> |BigEndian(n)| <= k
  {
    if n > 0 && k > 0 { BigEndianLength(n / 256, k - 1); }
  }

  lemma Powers()
    ensures Pow256(3) == TLV_LIMIT && Pow256(4) == 0x1_0000_0000
    ensures Pow256(7) == 0x100_0000_0000_0000 && Pow256(8) == WORD
  {
  }

  /** The 64-bit accumulator of intValue. */
  function Wrapped(raw: bytes): nat {
    if raw == [] then 0 else (256 * Wrapped(raw[..|raw| - 1]) + raw[|raw| - 1]) % WORD
  }

  function Signed(w: nat): int { if w < INT_LIMIT then w else w - WORD }

  method IntValue(raw: bytes) returns (n: int)
    ensures n == Signed(Wrapped(raw))
  {
    var w := 0;
    for i := 0 to |raw|
      invariant w == Wrapped(raw[..i])
    {
      assert raw[..i + 1][..i] == raw[..i];
      w := (256 * w + raw[i]) % WORD;
    }
    assert raw[..|raw|] == raw;
    n := if w < INT_LIMIT then w else w - WORD;
  }

  /** Numbers of up to 64 bits do not wrap. */
  lemma {:induction false} WrappedIsUnsigned(raw: bytes)
    requires Unsigned(raw) < WORD
    ensures Wrapped(raw) == Unsigned(raw)
  {
    if raw != [] { WrappedIsUnsigned(raw[..|raw| - 1]); }
  }

  // ---------------------------------------------------------------------------------------------
  // Encoding

  function EncLen(n: nat): bytes {
    if n < 128 then [n] else [(0x80 + |BigEndian(n)|) % 256] + BigEndian(n)
  }

  function Enc(tag: byte, body: bytes): bytes { [tag] + EncLen(|body|) + body }

  /** The content octets of a non-negative INTEGER: a zero octet goes in front of a leading bit that is set. */
  function IntBytes(value: nat): bytes {
    if value == 0 then [0]
    else if BigEndian(value)[0] >= 128 then [0] + BigEndian(value)
    else BigEndian(value)
  }

  function Join(parts: seq<bytes>): bytes { if parts == [] then [] else parts[0] + Join(parts[1..]) }

  /** The loop of encLen and encInt: a number is written backwards from the end of an eight-byte buffer. */
  method Fill(value: nat) returns (raw: array<byte>, i: nat)
    requires value < INT_LIMIT
    ensures raw.Length == 8 && fresh(raw) && i <= 8 && raw[i..] == BigEndian(value)
  {
    raw := new byte[8];
    var v := value;
    i := 8;
    LeadingBit(value);
    while v > 0
      invariant i <= 8 && |BigEndian(v)| <= i
      invariant BigEndian(value) == BigEndian(v) + raw[i..]
      decreases v
    {
      i := i - 1;
      raw[i] := v % 256;
      v := v / 256;
      assert raw[i..] == [raw[i]] + raw[i + 1..];
    }
  }

  /** encLen */
  method WriteLen(length: nat) returns (r: bytes)
    requires length < INT_LIMIT
    ensures r == EncLen(length)
  {
    if length < 128 { return [length]; }
    var raw, i := Fill(length);
    r := [0x80 + (raw.Length - i)] + raw[i..];
  }

  /** enc */
  method Write(tag: byte, content: seq<bytes>) returns (r: bytes)
    requires |Join(content)| < INT_LIMIT
    ensures r == Enc(tag, Join(content))
  {
    var body: bytes := [];
    for k := 0 to |content|
      invariant Join(content) == body + Join(content[k..])
    {
      assert content[k..][1..] == content[k + 1..];
      body := body + content[k];
    }
    var length := WriteLen(|body|);
    r := [tag] + length + body;
  }

  /** A number of 63 bits has at most eight octets, and with eight the leading bit is clear. */
  lemma LeadingBit(n: nat)
    requires n < INT_LIMIT
    ensures |BigEndian(n)| <= 8 && (|BigEndian(n)| == 8 ==> BigEndian(n)[0] < 128)
  {
    Powers();
    BigEndianLength(n, 8);
    if |BigEndian(n)| == 8 { FirstOctet(n, 7); }
  }

  lemma {:induction false} FirstOctet(n: nat, k: nat)
    requires |BigEndian(n)| == k + 1
    ensures BigEndian(n)[0] * Pow256(k) <= n
  {
    if k > 0 {
      FirstOctet(n / 256, k - 1);
    } else {
      assert BigEndian(n / 256) == [];
    }
  }

  /** encInt */
  method WriteInt(tag: byte, value: nat) returns (r: bytes)
    requires value < INT_LIMIT
    ensures r == Enc(tag, IntBytes(value))
  {
    if value == 0 {
      return Enc(tag, [0]);
    }
    LeadingOctet(value);
    hide BigEndian, Enc, IntBytes;
    var raw, i := Fill(value);
    assert raw[i] == raw[i..][0];
    if raw[i] >= 128 {
      i := i - 1;
      raw[i] := 0;
      assert raw[i..] == [0] + raw[i + 1..];
    }
    r := Enc(tag, raw[i..]);
  }

  /** A zero octet goes in front of a leading bit that is set, and there is room for it. */
  lemma LeadingOctet(value: nat)
    requires 0 < value < INT_LIMIT
    ensures var b := BigEndian(value);
            && 0 < |b| <= 8 && (b[0] >= 128 ==> |b| < 8)
            && IntBytes(value) == if b[0] >= 128 then [0] + b else b
  {
    LeadingBit(value);
    BigEndianValue(value);
    hide BigEndian;
  }

  /** The octets give the number back, its sign bit is clear, and no octet could be left out. */
  lemma IntRoundTrip(value: nat)
    ensures Unsigned(IntBytes(value)) == value
    ensures IntBytes(value)[0] < 128
    ensures |IntBytes(value)| > 1 && IntBytes(value)[0] == 0 ==> IntBytes(value)[1] >= 128
    ensures value < INT_LIMIT ==> Signed(Wrapped(IntBytes(value))) == value
  {
    if value > 0 {
      BigEndianValue(value);
      UnsignedSkipsZero(BigEndian(value));
      hide BigEndian, Unsigned, Wrapped;
    }
    if value < INT_LIMIT { WrappedIsUnsigned(IntBytes(value)); }
  }

  lemma {:induction false} UnsignedSkipsZero(raw: bytes)
    ensures Unsigned([0] + raw) == Unsigned(raw)
  {
    if raw == [] {
    } else {
      UnsignedSkipsZero(raw[..|raw| - 1]);
      assert ([0] + raw)[..|raw|] == [0] + raw[..|raw| - 1];
    }
  }

  // ---------------------------------------------------------------------------------------------
  // Decoding

  function ReadLength(s: bytes): (r: Result<(nat, bytes), ReadError>)
    ensures r.Ok? ==> |r.value.1| < |s| && r.value.1 == s[|s| - |r.value.1|..]
  {
    if s == [] then Err(Eof)
    else if s[0] < 128 then Ok((s[0], s[1..]))
    else
      var count := s[0] - 128;
      if count == 0 || count > 4 then Err(UnsupportedLength)
      else if |s| - 1 < count then Err(Eof)
      else Ok((Unsigned(s[1..count + 1]), s[count + 1..]))
  }

  function ReadTlv(s: bytes): (r: Result<(Tlv, bytes), ReadError>)
    ensures r.Ok? ==> |r.value.0.value| + |r.value.1| <= |s| - 2
  {
    if s == [] then Err(Eof)
    else match ReadLength(s[1..])
      case Err(e) => Err(e)
      case Ok((length, rest)) =>
        if length > TLV_LIMIT then Err(TooLarge)
        else if |rest| < length then Err(ShortRead(rest))
        else Ok((Tlv(s[0], rest[..length]), rest[length..]))
  }

  function Children(raw: bytes): (r: Result<seq<Tlv>, ReadError>)
    ensures r.Ok? ==> forall i :: 0 <= i < |r.value| ==> |r.value[i].value| < |raw|
    decreases |raw|
  {
    if raw == [] then Ok([])
    else match ReadTlv(raw)
      case Err(e) => Err(e)
      case Ok((item, rest)) =>
        match Children(rest)
        case Err(e) => Err(e)
        case Ok(items) => Ok([item] + items)
  }

  /** readLength */
  method NextLength(reader: Reader) returns (r: Result<nat, ReadError>)
    modifies reader
    ensures match ReadLength(old(reader.rest))
            case Ok((n, tail)) => r == Ok(n) && reader.rest == tail
            case Err(e) => r == Err(e)
  {
    var first := reader.ReadByte();
    if first.Err? { return Err(first.error); }
    if first.value < 128 { return Ok(first.value); }
    var count := first.value - 128;
    if count == 0 || count > 4 { return Err(UnsupportedLength); }
    ghost var start := reader.rest;
    var n: nat, i: nat := 0, 0;
    while i < count
      invariant i <= count && i <= |start| && reader.rest == start[i..] && n == Unsigned(start[..i])
    {
      var b := reader.ReadByte();
      if b.Err? { return Err(b.error); }
      assert start[..i + 1][..i] == start[..i];
      n := 256 * n + b.value;
      i := i + 1;
    }
    assert old(reader.rest)[1..][..count] == old(reader.rest)[1..count + 1] && old(reader.rest)[1..][count..] == old(reader.rest)[count + 1..];
    r := Ok(n);
  }

  /** readTLV */
  method NextTlv(reader: Reader) returns (r: Result<Tlv, ReadError>)
    modifies reader
    ensures match ReadTlv(old(reader.rest))
            case Ok((item, tail)) => r == Ok(item) && reader.rest == tail
            case Err(e) => r == Err(e)
  {
    var tag := reader.ReadByte();
    if tag.Err? { return Err(tag.error); }
    var length := NextLength(reader);
    if length.Err? { return Err(length.error); }
    if length.value > TLV_LIMIT { return Err(TooLarge); }
    var value := reader.ReadFull(length.value);
    if value.Err? { return Err(value.error); }
    r := Ok(Tlv(tag.value, value.value));
  }

  /** Items already read, in front of what the rest gives. */
  function Prepend(items: seq<Tlv>, r: Result<seq<Tlv>, ReadError>): Result<seq<Tlv>, ReadError> {
    if r.Ok? then Ok(items + r.value) else r
  }

  lemma PrependNothing(r: Result<seq<Tlv>, ReadError>)
    ensures Prepend([], r) == r
  {
    if r.Ok? { assert [] + r.value == r.value; }
  }

  lemma PrependOne(items: seq<Tlv>, raw: bytes)
    requires ReadTlv(raw).Ok?
    ensures Prepend(items, Children(raw)) == Prepend(items + [ReadTlv(raw).value.0], Children(ReadTlv(raw).value.1))
  {
    hide ReadTlv;
    var more := Children(ReadTlv(raw).value.1);
    if more.Ok? {
      assert items + ([ReadTlv(raw).value.0] + more.value) == items + [ReadTlv(raw).value.0] + more.value;
    }
  }

  /** children */
  method ReadChildren(raw: bytes) returns (r: Result<seq<Tlv>, ReadError>)
    ensures r == Children(raw)
  {
    hide ReadTlv;
    var reader := new Reader(raw);
    var items: seq<Tlv> := [];
    PrependNothing(Children(raw));
    while reader.rest != []
      invariant Children(raw) == Prepend(items, Children(reader.rest))
      decreases |reader.rest|
    {
      ghost var before := reader.rest;
      var item := NextTlv(reader);
      if item.Err? { return Err(item.error); }
      PrependOne(items, before);
      items := items + [item.value];
    }
    assert items + [] == items;
    r := Ok(items);
  }

  // ---------------------------------------------------------------------------------------------
  // Round trips

  lemma OctetCount(n: nat)
    requires 0 < n < INT_LIMIT
    ensures 1 <= |BigEndian(n)| <= 8 && (|BigEndian(n)| <= 4 <==> n < 0x1_0000_0000) && Unsigned(BigEndian(n)) == n
  {
    Powers();
    BigEndianValue(n);
    BigEndianLength(n, 4);
    BigEndianLength(n, 8);
    hide BigEndian, Unsigned, Pow256;
  }

  lemma LengthRoundTrip(n: nat, rest: bytes)
    requires n < INT_LIMIT
    ensures ReadLength(EncLen(n) + rest) == if n < 0x1_0000_0000 then Ok((n, rest)) else Err(UnsupportedLength)
  {
    hide BigEndian, Unsigned;
    if n >= 128 {
      OctetCount(n);
      var raw := BigEndian(n);
      var s := EncLen(n) + rest;
      assert s[0] == 128 + |raw|;
      assert s[1..|raw| + 1] == raw && s[|raw| + 1..] == rest;
    }
  }

  /** What was written is read back, whatever follows it, exactly when the body is within the limit. */
  lemma TlvRoundTrip(tag: byte, body: bytes, rest: bytes)
    requires |body| < INT_LIMIT
    ensures ReadTlv(Enc(tag, body) + rest) ==
            if |body| <= TLV_LIMIT then Ok((Tlv(tag, body), rest))
            else if |body| < 0x1_0000_0000 then Err(TooLarge)
            else Err(UnsupportedLength)
  {
    hide ReadLength, EncLen;
    LengthRoundTrip(|body|, body + rest);
    var s := Enc(tag, body) + rest;
    assert s[1..] == EncLen(|body|) + (body + rest);
    assert (body + rest)[..|body|] == body && (body + rest)[|body|..] == rest;
  }

  function EncAll(items: seq<Tlv>): bytes {
    if items == [] then [] else Enc(items[0].tag, items[0].value) + EncAll(items[1..])
  }

  lemma {:induction false} ChildrenRoundTrip(items: seq<Tlv>)
    requires forall i :: 0 <= i < |items| ==> |items[i].value| <= TLV_LIMIT
    ensures Children(EncAll(items)) == Ok(items)
  {
    if items == [] {
    } else {
      TlvRoundTrip(items[0].tag, items[0].value, EncAll(items[1..]));
      ChildrenRoundTrip(items[1..]);
      assert [items[0]] + items[1..] == items;
    }
  }

  // ---------------------------------------------------------------------------------------------
  // What is read, whoever wrote it

  /** intValue reads its octets as a number in two's complement of 64 bits. */
  lemma SignedIsTwosComplement(w: nat)
    requires w < 0x1_0000_0000_0000_0000
    ensures -0x8000_0000_0000_0000 <= Signed(w) < 0x8000_0000_0000_0000
    ensures Signed(w) == w || Signed(w) + 0x1_0000_0000_0000_0000 == w
  {
  }

  /**
   * Section 8.1.3 of X.690: below 0x80 the first octet is the length; otherwise it counts the octets that hold it. None,
   * which is the indefinite form, and more than four are rejected.
   */
  lemma LengthForms(s: bytes)
    requires s != []
    ensures s[0] < 0x80 ==> ReadLength(s) == Ok((s[0] as nat, s[1..]))
    ensures s[0] == 0x80 || s[0] > 0x84 ==> ReadLength(s) == Err(UnsupportedLength)
    ensures 0x80 < s[0] <= 0x84 ==>
              (ReadLength(s).Ok? <==> |s| > s[0] - 0x80)
              && (ReadLength(s).Ok? ==> |ReadLength(s).value.1| == |s| - 1 - (s[0] - 0x80))
  {
    hide Unsigned;
  }
}
