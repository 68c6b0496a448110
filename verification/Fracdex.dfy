/** Sort keys: an integer part followed by a fraction that does not end in '0'. */
module Fracdex {
  import opened Common
  import opened LexOrder
  import opened Base62
  import opened IntegerPart
  import opened Midpoint

  function IntPart(key: string): string
    requires key != "" && IsHead(key[0]) && IntLen(key[0]) <= |key|
  {
    key[..IntLen(key[0])]
  }

  function Fraction(key: string): string
    requires key != "" && IsHead(key[0]) && IntLen(key[0]) <= |key|
  {
    key[IntLen(key[0])..]
  }

  /** validateOrderKey: None when the key is accepted. */
  function Validate(key: string): Option<KeyError>
    requires key != ""
  {
    if key == SMALLEST_INT then Some(InvalidKey)
    else if !IsHead(key[0]) then Some(InvalidHead)
    else if IntLen(key[0]) > |key| then Some(InvalidKey)
    else if !NoTrailingZero(Fraction(key)) then Some(InvalidKey)
    else None
  }

  predicate ValidKey(key: string) { key != "" && IsBase62(key) && Validate(key).None? }

  /** KeyBetween: "" for a is the bottom of the range, "" for b is its top. */
  function KeyBetween(a: string, b: string): Result<string, KeyError>
    requires IsBase62(a) && IsBase62(b)
  {
    if a != "" && Validate(a).Some? then Err(Validate(a).value)
    else if b != "" && Validate(b).Some? then Err(Validate(b).value)
    else if a != "" && b != "" && LessEq(b, a) then Err(NotOrdered)
    else if a == "" then
      if b == "" then Ok("a0")
      else
        var ib, fb := IntPart(b), Fraction(b);
        if ib == SMALLEST_INT then Ok(ib + Mid("", fb))
        else if Less(ib, b) then Ok(ib)
        else if Decrement(ib) == "" then Err(RangeUnderflow)
        else Ok(Decrement(ib))
    else
      var ia, fa := IntPart(a), Fraction(a);
      var i := Increment(ia);
      if b == "" then
        if i == "" then Ok(ia + Mid(fa, "")) else Ok(i)
      else
        var ib, fb := IntPart(b), Fraction(b);
        if ia == ib then Ok(ia + Mid(fa, fb))
        else if i == "" then Err(RangeOverflow)
        else if Less(i, b) then Ok(i)
        else Ok(ia + Mid(fa, ""))
  }

  /** What the documentation asks of the two bounds. */
  predicate GoodBounds(a: string, b: string) {
    && (a == "" || ValidKey(a))
    && (b == "" || ValidKey(b))
    && (a == "" || b == "" || Less(a, b))
  }

  /** Strictly inside the range the bounds describe. */
  predicate Inside(a: string, k: string, b: string) { Less(a, k) && (b == "" || Less(k, b)) }

  lemma KeyParts(k: string)
    requires ValidKey(k)
    ensures ValidInt(IntPart(k)) && IsBase62(Fraction(k)) && NoTrailingZero(Fraction(k))
    ensures k == IntPart(k) + Fraction(k)
    ensures IntPart(k) == SMALLEST_INT ==> Fraction(k) != ""
  {
  }

  lemma MakeKey(i: string, f: string)
    requires ValidInt(i) && IsBase62(f) && NoTrailingZero(f) && (i == SMALLEST_INT ==> f != "")
    ensures ValidKey(i + f) && IntPart(i + f) == i && Fraction(i + f) == f
  {
    var k := i + f;
    assert k[..|i|] == i && k[|i|..] == f;
  }

  /** Keys compare by integer part first, and by fraction when those agree. */
  lemma PartsOrder(i: string, f: string, j: string, g: string)
    requires ValidInt(i) && ValidInt(j)
    ensures Less(i + f, j + g) <==> Less(i, j) || (i == j && Less(f, g))
  {
    if i == j {
      LessCommonPrefix(i, f, g);
      LessIrreflexive(i);
    } else {
      IntOrder(i, j);
      IntOrder(j, i);
      if Less(i, j) {
        LessExtend(i, f, j, g);
      } else {
        LessExtend(j, g, i, f);
        LessAsymmetric(j + g, i + f);
      }
    }
  }

  /** An integer part alone, as a key, against any other key. */
  lemma IntAgainstKey(i: string, k: string)
    requires ValidInt(i) && ValidKey(k)
    ensures Less(i, k) <==> Less(i, IntPart(k)) || (i == IntPart(k) && Fraction(k) != "")
    ensures Less(k, i) <==> Less(IntPart(k), i)
  {
    KeyParts(k);
    PartsOrder(i, "", IntPart(k), Fraction(k));
    PartsOrder(IntPart(k), Fraction(k), i, "");
    assert i + "" == i;
  }

  /** The one key whose predecessor in the unbounded direction is smallestInt, which is not a valid key. */
  predicate BlockedBelow(a: string, b: string) { a == "" && b != "" && b == Increment(SMALLEST_INT) }

  /** Below a key whose integer part is smallestInt only its fraction leaves room. */
  lemma BetweenBottomInSmallest(b: string)
    requires ValidKey(b) && IntPart(b) == SMALLEST_INT
    ensures !BlockedBelow("", b) && KeyBetween("", b).Ok?
    ensures var c := KeyBetween("", b).value; ValidKey(c) && IntPart(c) == SMALLEST_INT && Less(c, b)
  {
    hide IndexOf, Increment, Decrement, Mid;
    KeyParts(b);
    var fb := Fraction(b);
    MidBetween("", fb);
    MakeKey(SMALLEST_INT, Mid("", fb));
    PartsOrder(SMALLEST_INT, Mid("", fb), SMALLEST_INT, fb);
    IncrementIsSuccessor(SMALLEST_INT);
    if b == Increment(SMALLEST_INT) { IntOrder(SMALLEST_INT, b); }
  }

  /** A key with a fraction lies above its own integer part. */
  lemma BetweenBottomWithFraction(b: string)
    requires ValidKey(b) && IntPart(b) != SMALLEST_INT && Fraction(b) != ""
    ensures !BlockedBelow("", b) && KeyBetween("", b) == Ok(IntPart(b))
    ensures ValidKey(IntPart(b)) && Less(IntPart(b), b)
    ensures IntPart(IntPart(b)) == IntPart(b) && Fraction(IntPart(b)) == ""
  {
    hide IndexOf, Increment, Decrement, Mid;
    KeyParts(b);
    IntAgainstKey(IntPart(b), b);
    MakeKey(IntPart(b), "");
    assert IntPart(b) + "" == IntPart(b);
    SmallestIntIsMinimum();
    IncrementIsSuccessor(SMALLEST_INT);
  }

  /** Below a bare integer part comes its predecessor. */
  lemma BetweenBottomAlone(b: string)
    requires ValidKey(b) && b == IntPart(b)
    ensures ValidInt(b) && ValidInt(Decrement(b)) && KeyBetween("", b) == Ok(Decrement(b)) && Less(Decrement(b), b)
    ensures if BlockedBelow("", b) then Decrement(b) == SMALLEST_INT
            else ValidKey(Decrement(b)) && IntPart(Decrement(b)) == Decrement(b) && Fraction(Decrement(b)) == ""
  {
    hide IndexOf, Increment, Decrement, Mid;
    KeyParts(b);
    SmallestIntIsMinimum();
    DecrementIsPredecessor(b);
    EndsOfRange(b);
    IntOrder(b, SMALLEST_INT);
    var d := Decrement(b);
    IntOrder(d, b);
    LessIrreflexive(b);
    IncrementDecrementInverse(SMALLEST_INT, b);
    if d != SMALLEST_INT {
      MakeKey(d, "");
      assert d + "" == d;
    }
  }

  lemma BetweenBottom(b: string)
    requires ValidKey(b)
    ensures KeyBetween("", b).Ok?
    ensures var c := KeyBetween("", b).value; IsBase62(c) && Inside("", c, b)
    ensures var c := KeyBetween("", b).value; (if BlockedBelow("", b) then c == SMALLEST_INT else ValidKey(c))
  {
    hide IndexOf, Increment, Decrement, Mid, KeyBetween;
    KeyParts(b);
    if IntPart(b) == SMALLEST_INT {
      BetweenBottomInSmallest(b);
    } else if Fraction(b) != "" {
      BetweenBottomWithFraction(b);
    } else {
      BetweenBottomAlone(b);
    }
  }

  lemma BetweenTop(a: string)
    requires ValidKey(a)
    ensures KeyBetween(a, "").Ok?
    ensures var c := KeyBetween(a, "").value; ValidKey(c) && Inside(a, c, "")
  {
    hide IndexOf, Increment, Mid;
    KeyParts(a);
    var ia, fa := IntPart(a), Fraction(a);
    IncrementIsSuccessor(ia);
    var i := Increment(ia);
    if i == "" {
      MidBetween(fa, "");
      MakeKey(ia, Mid(fa, ""));
      PartsOrder(ia, fa, ia, Mid(fa, ""));
    } else {
      IntOrder(ia, i);
      IntAgainstKey(i, a);
      SmallestIsNotSuccessor(ia);
      MakeKey(i, "");
      assert i + "" == i;
    }
  }

  lemma SmallestIsNotSuccessor(x: string)
    requires ValidInt(x)
    ensures Increment(x) != SMALLEST_INT
  {
    hide IndexOf, Increment;
    SmallestIntIsMinimum();
    IncrementIsSuccessor(x);
    EndsOfRange(x);
  }

  lemma BetweenSamePart(a: string, b: string)
    requires ValidKey(a) && ValidKey(b) && Less(a, b) && IntPart(a) == IntPart(b)
    ensures KeyBetween(a, b).Ok?
    ensures var c := KeyBetween(a, b).value; ValidKey(c) && Inside(a, c, b)
  {
    hide IndexOf, Increment, Decrement, Mid;
    KeyParts(a);
    KeyParts(b);
    LessAsymmetric(a, b);
    var ia, fa, fb := IntPart(a), Fraction(a), Fraction(b);
    PartsOrder(ia, fa, ia, fb);
    LessIrreflexive(ia);
    MidBetween(fa, fb);
    var m := Mid(fa, fb);
    MakeKey(ia, m);
    PartsOrder(ia, fa, ia, m);
    PartsOrder(ia, m, ia, fb);
  }

  lemma BetweenDifferentParts(a: string, b: string)
    requires ValidKey(a) && ValidKey(b) && Less(a, b) && IntPart(a) != IntPart(b)
    ensures KeyBetween(a, b).Ok?
    ensures var c := KeyBetween(a, b).value; ValidKey(c) && Inside(a, c, b)
  {
    hide IndexOf, Increment, Decrement, Mid;
    KeyParts(a);
    KeyParts(b);
    LessAsymmetric(a, b);
    var ia, fa, ib, fb := IntPart(a), Fraction(a), IntPart(b), Fraction(b);
    PartsOrder(ia, fa, ib, fb);
    NothingBetween(ia, ib);
    IncrementIsSuccessor(ia);
    var i := Increment(ia);
    hide ValidKey, IntPart, Fraction;
    if Less(i, b) {
      IntOrder(ia, i);
      IntAgainstKey(i, a);
      SmallestIsNotSuccessor(ia);
      MakeKey(i, "");
      assert i + "" == i;
    } else {
      var m := Mid(fa, "");
      MidBetween(fa, "");
      MakeKey(ia, m);
      PartsOrder(ia, fa, ia, m);
      PartsOrder(ia, m, ib, fb);
    }
  }

  lemma BetweenKeys(a: string, b: string)
    requires ValidKey(a) && ValidKey(b) && Less(a, b)
    ensures KeyBetween(a, b).Ok?
    ensures var c := KeyBetween(a, b).value; ValidKey(c) && Inside(a, c, b)
  {
    if IntPart(a) == IntPart(b) { BetweenSamePart(a, b); } else { BetweenDifferentParts(a, b); }
  }

  /**
   * The promise of the package: KeyBetween succeeds exactly on good bounds (its overflow and
   * underflow errors cannot occur), and its result lies strictly between them.
   */
  lemma KeyBetweenSucceeds(a: string, b: string)
    requires IsBase62(a) && IsBase62(b)
    ensures KeyBetween(a, b).Ok? <==> GoodBounds(a, b)
    ensures KeyBetween(a, b).Ok? ==> IsBase62(KeyBetween(a, b).value) && Inside(a, KeyBetween(a, b).value, b)
  {
    hide Increment, Decrement, Mid;
    if GoodBounds(a, b) {
      if b != "" {
        if a == "" { BetweenBottom(b); } else { BetweenKeys(a, b); }
      } else if a != "" {
        BetweenTop(a);
      }
    } else if a != "" && b != "" {
      LessTotal(a, b);
    }
  }

  /** The result is itself a usable bound except at one place: below the successor of smallestInt. */
  lemma KeyBetweenClosed(a: string, b: string)
    requires GoodBounds(a, b)
    ensures IsBase62(a) && IsBase62(b) && KeyBetween(a, b).Ok?
    ensures ValidKey(KeyBetween(a, b).value) <==> !BlockedBelow(a, b)
    ensures BlockedBelow(a, b) ==> KeyBetween(a, b).value == SMALLEST_INT
  {
    hide Increment, Decrement, Mid;
    if b != "" {
      if a == "" { BetweenBottom(b); } else { BetweenKeys(a, b); }
    } else if a != "" {
      BetweenTop(a);
    } else {
      assert ValidKey("a0");
    }
  }

  /**
   * Keys stay short: when a bare integer part fits strictly between the bounds, the answer is one,
   * the nearest above a, or the nearest below b when the bottom is open.
   */
  lemma IntegerKeyPreferred(a: string, b: string, i: string)
    requires GoodBounds(a, b) && ValidInt(i) && i != SMALLEST_INT && Inside(a, i, b)
    ensures IsBase62(a) && IsBase62(b) && KeyBetween(a, b).Ok? && ValidInt(KeyBetween(a, b).value)
    ensures a != "" ==> LessEq(KeyBetween(a, b).value, i)
    ensures a == "" && b != "" ==> LessEq(i, KeyBetween(a, b).value)
  {
    hide IndexOf, Increment, Decrement, Mid;
    KeyBetweenSucceeds(a, b);
    if a == "" && b != "" {
      IntegerBelow(b, i);
    } else if a != "" {
      KeyParts(a);
      IntAgainstKey(i, a);
      NothingBetween(IntPart(a), i);
      IncrementIsSuccessor(IntPart(a));
      if b != "" {
        KeyParts(b);
        IntAgainstKey(i, b);
        if IntPart(a) == IntPart(b) { LessAsymmetric(IntPart(a), i); }
        if Less(Increment(IntPart(a)), i) { LessTransitive(Increment(IntPart(a)), i, b); }
      }
    } else {
      assert ValidInt("a0");
    }
  }

  lemma IntegerBelow(b: string, i: string)
    requires ValidKey(b) && ValidInt(i) && i != SMALLEST_INT && Less(i, b)
    ensures KeyBetween("", b).Ok? && ValidInt(KeyBetween("", b).value) && LessEq(i, KeyBetween("", b).value)
  {
    hide IndexOf, Increment, Decrement, Mid;
    KeyParts(b);
    IntAgainstKey(i, b);
    SmallestIntIsMinimum();
    EndsOfRange(i);
    IntOrder(i, SMALLEST_INT);
    if Fraction(b) != "" {
      BetweenBottomWithFraction(b);
    } else {
      BetweenBottomAlone(b);
      DecrementIsPredecessor(b);
      IntOrder(i, b);
      IntOrder(i, Decrement(b));
    }
  }

  /** With both ends open the key is a bare integer part in the middle of its range, so there is as much room below as above. */
  lemma FirstKeyIsMiddle()
    ensures KeyBetween("", "").Ok? && ValidInt(KeyBetween("", "").value)
    ensures Value(KeyBetween("", "").value) - MIN_VALUE == MAX_VALUE - Value(KeyBetween("", "").value) + 1
  {
    var key := KeyBetween("", "").value;
    assert IsDigit(key[1]) && ValidInt(key);
    assert key[1..] == "0" && Num("0") == 0 && Offset(1) == 0;
    hide Num, Offset;
  }

  /** The blocked bound, spelled out: asking for a key below it yields smallestInt. */
  lemma BlockedBound()
    ensures Increment(SMALLEST_INT) == "A00000000000000000000000001"
    ensures ValidKey("A00000000000000000000000001") && BlockedBelow("", "A00000000000000000000000001")
  {
    AfterSmallest();
    hide Increment, IncDigits;
  }

  lemma AfterSmallest()
    ensures Increment(SMALLEST_INT) == "A00000000000000000000000001"
  {
    var zeros := SMALLEST_INT[1..];
    assert zeros[|zeros| - 1] == '0';
    assert IncDigits(zeros).0 == zeros[..25] + "1";
  }
}
