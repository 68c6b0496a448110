/**
 * Integer parts of sort keys: a head letter that fixes the length, then base-62 digits.
 * `Value` numbers them; it is an order isomorphism onto the interval [MIN_VALUE, MAX_VALUE].
 */
module IntegerPart {
  import opened Common
  import opened LexOrder
  import opened Base62

  datatype KeyError =
    | InvalidHead | InvalidKey | InvalidIntegerPart | NotOrdered | RangeUnderflow | RangeOverflow

  const SMALLEST_INT: string := "A00000000000000000000000000"

  predicate IsHead(c: char) { 'a' <= c <= 'z' || 'A' <= c <= 'Z' }

  /** getIntLen: the length of an integer part, head included. */
  function IntLen(head: char): (n: nat)
    requires IsHead(head)
    ensures n >= 2
  {
    if 'a' <= head <= 'z' then head as int - 'a' as int + 2 else 'Z' as int - head as int + 2
  }

  /** validateInt, for digits already known to be base 62. */
  predicate ValidInt(x: string) {
    x != "" && IsHead(x[0]) && |x| == IntLen(x[0]) && IsBase62(x)
  }

  /** How many values the lower-case integer parts with fewer than n digits take together. */
  function Offset(n: nat): (o: nat)
  {
    if n <= 1 then 0 else Offset(n - 1) + Pow62(n - 1)
  }

  /** The longest integer parts have the length of smallestInt. */
  const LONGEST: nat := |SMALLEST_INT|

  const MIN_VALUE: int := 0 - Offset(LONGEST)
  const MAX_VALUE: int := Offset(LONGEST) - 1

  /** The rank of an integer part; "a0" has rank 0. */
  function Value(x: string): int
    requires ValidInt(x)
  {
    var n := |x| - 1;
    if 'a' <= x[0] <= 'z' then Offset(n) + Num(x[1..]) else Num(x[1..]) - Offset(n + 1)
  }

  lemma {:induction false} OffsetMonotone(m: nat, n: nat)
    requires m <= n
    ensures Offset(m) <= Offset(n)
    decreases n
  {
    if m < n { OffsetMonotone(m, n - 1); }
  }

  /** The ranks of the integer parts with one head. */
  lemma HeadRange(x: string)
    requires ValidInt(x)
    ensures 'a' <= x[0] ==> Offset(|x| - 1) <= Value(x) < Offset(|x|)
    ensures x[0] < 'a' ==> -(Offset(|x|) as int) <= Value(x) < -(Offset(|x| - 1) as int)
  {
  }

  lemma ValueRange(x: string)
    requires ValidInt(x)
    ensures MIN_VALUE <= Value(x) <= MAX_VALUE
  {
    HeadRange(x);
    OffsetMonotone(|x|, LONGEST);
  }

  /** Comparing two integer parts as strings is comparing their ranks, across lengths and cases. */
  lemma IntOrder(x: string, y: string)
    requires ValidInt(x) && ValidInt(y)
    ensures Less(x, y) <==> Value(x) < Value(y)
    ensures x == y <==> Value(x) == Value(y)
    ensures x <= y ==> x == y
  {
    if x[0] == y[0] {
      NumOrder(x[1..], y[1..]);
      assert x == [x[0]] + x[1..] && y == [y[0]] + y[1..];
    } else if x[0] < y[0] {
      HeadOrder(x, y);
    } else {
      HeadOrder(y, x);
    }
  }

  lemma HeadOrder(x: string, y: string)
    requires ValidInt(x) && ValidInt(y) && x[0] < y[0]
    ensures Value(x) < Value(y)
  {
    HeadRange(x);
    HeadRange(y);
    if 'a' <= x[0] {
      OffsetMonotone(|x|, |y| - 1);
    } else if y[0] <= 'Z' {
      OffsetMonotone(|y|, |x| - 1);
    }
  }

  /** The successor that incrementInt computes, "" past the largest integer part. */
  function Increment(x: string): string
    requires ValidInt(x)
  {
    var (digits, carry) := IncDigits(x[1..]);
    if !carry then [x[0]] + digits
    else if x[0] == 'Z' then "a0"
    else if x[0] == 'z' then ""
    else
      var h := x[0] + 1 as char;
      if h > 'a' then [h] + (digits + "0") else [h] + digits[1..]
  }

  /** The predecessor that decrementInt computes, "" below the smallest integer part. */
  function Decrement(x: string): string
    requires ValidInt(x)
  {
    var (digits, borrow) := DecDigits(x[1..]);
    if !borrow then [x[0]] + digits
    else if x[0] == 'a' then "Zz"
    else if x[0] == 'A' then ""
    else
      var h := x[0] - 1 as char;
      if h < 'Z' then [h] + (digits + "z") else [h] + digits[1..]
  }

  /** Assembles an integer part from a head and as many digits as the head asks for. */
  lemma Assemble(head: char, digits: string)
    requires IsHead(head) && |digits| + 1 == IntLen(head) && IsBase62(digits)
    ensures ValidInt([head] + digits)
    ensures 'a' <= head ==> Value([head] + digits) == Offset(|digits|) + Num(digits)
    ensures head < 'a' ==> Value([head] + digits) == Num(digits) - Offset(|digits| + 1)
  {
    var x := [head] + digits;
    assert x[1..] == digits;
  }

  lemma NumAppend(digits: string, c: char)
    requires IsBase62(digits) && IsDigit(c)
    ensures Num(digits + [c]) == 62 * Num(digits) + IndexOf(c)
  {
    assert (digits + [c])[..|digits|] == digits;
  }

  /** The carry leaves the longest integer part with the largest head: nothing comes after it. */
  predicate IsLast(x: string)
    requires ValidInt(x)
  {
    x[0] == 'z' && IncDigits(x[1..]).1
  }

  /** The borrow leaves the longest integer part with the smallest head: nothing comes before it. */
  predicate IsFirst(x: string)
    requires ValidInt(x)
  {
    x[0] == 'A' && DecDigits(x[1..]).1
  }

  lemma Extremes(x: string, y: string)
    requires ValidInt(x) && ValidInt(y)
    ensures IsLast(x) ==> Value(y) <= Value(x)
    ensures IsFirst(x) ==> Value(x) <= Value(y)
  {
    HeadRange(y);
    IncDigitsValue(x[1..]);
    DecDigitsValue(x[1..]);
    if |y| <= |x| { OffsetMonotone(|y|, |x|); }
  }

  lemma IncrementSameLength(x: string)
    requires ValidInt(x) && !IncDigits(x[1..]).1
    ensures ValidInt(Increment(x)) && Value(Increment(x)) == Value(x) + 1
  {
    hide Num, Pow62, IncDigits, Offset;
    IncDigitsValue(x[1..]);
    Assemble(x[0], IncDigits(x[1..]).0);
  }

  lemma IncrementLonger(x: string)
    requires ValidInt(x) && IncDigits(x[1..]).1 && 'a' <= x[0] < 'z'
    ensures ValidInt(Increment(x)) && Value(Increment(x)) == Value(x) + 1
  {
    hide Num, IncDigits;
    var digits := IncDigits(x[1..]).0;
    IncDigitsValue(x[1..]);
    NumAppend(digits, '0');
    Assemble(x[0] + 1 as char, digits + "0");
  }

  lemma IncrementShorter(x: string)
    requires ValidInt(x) && IncDigits(x[1..]).1 && x[0] < 'Z'
    ensures ValidInt(Increment(x)) && Value(Increment(x)) == Value(x) + 1
  {
    hide Num, IncDigits;
    var digits := IncDigits(x[1..]).0;
    IncDigitsValue(x[1..]);
    assert digits[1..] == Repeat('0', |digits| - 1);
    NumZeros(|digits| - 1);
    Assemble(x[0] + 1 as char, digits[1..]);
  }

  lemma IncrementAcrossZero(x: string)
    requires ValidInt(x) && IncDigits(x[1..]).1 && x[0] == 'Z'
    ensures ValidInt(Increment(x)) && Value(Increment(x)) == Value(x) + 1
  {
    IncDigitsValue(x[1..]);
    NumAppend("", '0');
    Assemble('a', "0");
  }

  lemma DecrementSameLength(x: string)
    requires ValidInt(x) && !DecDigits(x[1..]).1
    ensures ValidInt(Decrement(x)) && Value(Decrement(x)) == Value(x) - 1
  {
    hide Num, Pow62, DecDigits, Offset;
    DecDigitsValue(x[1..]);
    Assemble(x[0], DecDigits(x[1..]).0);
  }

  lemma DecrementLonger(x: string)
    requires ValidInt(x) && DecDigits(x[1..]).1 && 'A' < x[0] <= 'Z'
    ensures ValidInt(Decrement(x)) && Value(Decrement(x)) == Value(x) - 1
  {
    hide Num, DecDigits;
    var digits := DecDigits(x[1..]).0;
    DecDigitsValue(x[1..]);
    NumAppend(digits, 'z');
    Assemble(x[0] - 1 as char, digits + "z");
  }

  lemma DecrementShorter(x: string)
    requires ValidInt(x) && DecDigits(x[1..]).1 && 'a' < x[0]
    ensures ValidInt(Decrement(x)) && Value(Decrement(x)) == Value(x) - 1
  {
    hide Num, DecDigits;
    var digits := DecDigits(x[1..]).0;
    DecDigitsValue(x[1..]);
    assert digits[1..] == Repeat('z', |digits| - 1);
    NumZeros(|digits| - 1);
    Assemble(x[0] - 1 as char, digits[1..]);
  }

  lemma DecrementAcrossZero(x: string)
    requires ValidInt(x) && DecDigits(x[1..]).1 && x[0] == 'a'
    ensures ValidInt(Decrement(x)) && Value(Decrement(x)) == Value(x) - 1
  {
    DecDigitsValue(x[1..]);
    NumAppend("", 'z');
    Assemble('Z', "z");
  }

  /** incrementInt is +1 across every carry and every change of length, and empty only after the last. */
  lemma IncrementIsSuccessor(x: string)
    requires ValidInt(x)
    ensures Increment(x) == "" <==> IsLast(x)
    ensures Increment(x) != "" ==> ValidInt(Increment(x)) && Value(Increment(x)) == Value(x) + 1
  {
    if IncDigits(x[1..]).1 {
      if x[0] < 'Z' { IncrementShorter(x); } else if x[0] == 'Z' { IncrementAcrossZero(x); } else if x[0] != 'z' { IncrementLonger(x); }
    } else {
      IncrementSameLength(x);
    }
  }

  /** decrementInt is -1 across every borrow and every change of length, and empty only before the first. */
  lemma DecrementIsPredecessor(x: string)
    requires ValidInt(x)
    ensures Decrement(x) == "" <==> IsFirst(x)
    ensures Decrement(x) != "" ==> ValidInt(Decrement(x)) && Value(Decrement(x)) == Value(x) - 1
  {
    if DecDigits(x[1..]).1 {
      if x[0] > 'a' { DecrementShorter(x); } else if x[0] == 'a' { DecrementAcrossZero(x); } else if x[0] != 'A' { DecrementLonger(x); }
    } else {
      DecrementSameLength(x);
    }
  }

  /** incrementInt and decrementInt undo each other wherever they succeed. */
  lemma IncrementDecrementInverse(x: string, y: string)
    requires ValidInt(x) && ValidInt(y)
    ensures Increment(x) == y <==> x == Decrement(y)
  {
    IncrementIsSuccessor(x);
    DecrementIsPredecessor(y);
    Extremes(x, y);
    Extremes(y, x);
    if Increment(x) != "" { IntOrder(Increment(x), y); }
    if Decrement(y) != "" { IntOrder(x, Decrement(y)); }
  }

  /** No integer part lies strictly between one and its successor. */
  lemma NothingBetween(x: string, y: string)
    requires ValidInt(x) && ValidInt(y) && Less(x, y)
    ensures Increment(x) != "" && LessEq(Increment(x), y)
  {
    IncrementIsSuccessor(x);
    Extremes(x, y);
    IntOrder(x, y);
    if Increment(x) != "" { IntOrder(Increment(x), y); }
  }

  /** The interval's ends are exactly where incrementInt and decrementInt give up. */
  lemma EndsOfRange(x: string)
    requires ValidInt(x)
    ensures MIN_VALUE <= Value(x) <= MAX_VALUE
    ensures Increment(x) == "" <==> Value(x) == MAX_VALUE
    ensures Decrement(x) == "" <==> Value(x) == MIN_VALUE
  {
    ValueRange(x);
    IncDigitsValue(x[1..]);
    DecDigitsValue(x[1..]);
    IncrementIsSuccessor(x);
    DecrementIsPredecessor(x);
    if Increment(x) != "" { ValueRange(Increment(x)); }
    if Decrement(x) != "" { ValueRange(Decrement(x)); }
  }

  /** smallestInt is the bottom of the interval. */
  lemma SmallestIntIsMinimum()
    ensures ValidInt(SMALLEST_INT) && Value(SMALLEST_INT) == MIN_VALUE
  {
    assert SMALLEST_INT[1..] == Repeat('0', LONGEST - 1);
    NumZeros(LONGEST - 1);
  }

  /** Every rank of the interval is taken, so Value is onto. */
  lemma {:induction false} ValueOnto(v: int) returns (x: string)
    requires MIN_VALUE <= v <= MAX_VALUE
    ensures ValidInt(x) && Value(x) == v
    decreases v - MIN_VALUE
  {
    if v == MIN_VALUE {
      SmallestIntIsMinimum();
      x := SMALLEST_INT;
    } else {
      var y := ValueOnto(v - 1);
      EndsOfRange(y);
      IncrementIsSuccessor(y);
      x := Increment(y);
    }
  }

  /** What the digit loop leaves behind: position p took the carry, everything right of it wrapped. */
  ghost predicate IncDigitsShape(s: string, p: int, t: string)
  {
    && -1 <= p < |s| == |t|
    && (forall k :: p < k < |s| ==> s[k] == 'z' && t[k] == '0')
    && (forall k :: 0 <= k < p ==> t[k] == s[k])
    && (p >= 0 ==> IsDigit(s[p]) && s[p] != 'z' && t[p] == DigitAt(IndexOf(s[p]) + 1))
  }

  lemma {:induction false} IncDigitsFromShape(s: string, p: int, t: string)
    requires IsBase62(s) && IncDigitsShape(s, p, t)
    ensures IncDigits(s) == (t, p < 0)
  {
    if s == "" {
    } else {
      var n := |s| - 1;
      if p == n {
        assert t == s[..n] + [t[n]];
      } else {
        IncDigitsFromShape(s[..n], p, t[..n]);
        assert t == t[..n] + "0";
      }
    }
  }

  /** The digit loop of incrementInt: from the right, while there is a carry. */
  method IncrementInPlace(digits: array<char>) returns (carry: bool)
    requires IsBase62(digits[..])
    modifies digits
    ensures (digits[..], carry) == IncDigits(old(digits[..]))
  {
    ghost var was := digits[..];
    carry := true;
    var i := digits.Length - 1;
    while carry && i >= 0
      invariant -1 <= i < digits.Length
      invariant carry ==> forall k :: 0 <= k <= i ==> digits[k] == was[k]
      invariant carry ==> forall k :: i < k < digits.Length ==> was[k] == 'z' && digits[k] == '0'
      invariant !carry ==> IncDigitsShape(was, i + 1, digits[..])
    {
      var d := IndexOf(digits[i]) + 1;
      if d == 62 {
        digits[i] := '0';
      } else {
        digits[i] := DigitAt(d);
        carry := false;
      }
      i := i - 1;
    }
    IncDigitsFromShape(was, if carry then -1 else i + 1, digits[..]);
  }

  /** incrementInt. */
  method IncrementInt(x: string) returns (r: Result<string, KeyError>)
    requires x != "" && IsBase62(x)
    ensures r.Ok? <==> ValidInt(x)
    ensures r.Ok? ==> r.value == Increment(x)
    ensures r.Err? ==> r.error == if IsHead(x[0]) then InvalidIntegerPart else InvalidHead
  {
    if !IsHead(x[0]) { return Err(InvalidHead); }
    if |x| != IntLen(x[0]) { return Err(InvalidIntegerPart); }
    var digits := new char[|x| - 1](i requires 0 <= i < |x| - 1 => x[i + 1]);
    assert digits[..] == x[1..];
    var carry := IncrementInPlace(digits);
    if !carry { return Ok([x[0]] + digits[..]); }
    if x[0] == 'Z' { return Ok("a0"); }
    if x[0] == 'z' { return Ok(""); }
    var h := x[0] + 1 as char;
    if h > 'a' { return Ok([h] + (digits[..] + "0")); }
    return Ok([h] + digits[1..]);
  }

  /** What the digit loop leaves behind: position p took the borrow, everything right of it wrapped. */
  ghost predicate DecDigitsShape(s: string, p: int, t: string)
  {
    && -1 <= p < |s| == |t|
    && (forall k :: p < k < |s| ==> s[k] == '0' && t[k] == 'z')
    && (forall k :: 0 <= k < p ==> t[k] == s[k])
    && (p >= 0 ==> IsDigit(s[p]) && s[p] != '0' && t[p] == DigitAt(IndexOf(s[p]) - 1))
  }

  lemma {:induction false} DecDigitsFromShape(s: string, p: int, t: string)
    requires IsBase62(s) && DecDigitsShape(s, p, t)
    ensures DecDigits(s) == (t, p < 0)
  {
    if s == "" {
    } else {
      var n := |s| - 1;
      if p == n {
        assert t == s[..n] + [t[n]];
      } else {
        DecDigitsFromShape(s[..n], p, t[..n]);
        assert t == t[..n] + "z";
      }
    }
  }

  /** The digit loop of decrementInt: from the right, while there is a borrow. */
  method DecrementInPlace(digits: array<char>) returns (borrow: bool)
    requires IsBase62(digits[..])
    modifies digits
    ensures (digits[..], borrow) == DecDigits(old(digits[..]))
  {
    ghost var was := digits[..];
    borrow := true;
    var i := digits.Length - 1;
    while borrow && i >= 0
      invariant -1 <= i < digits.Length
      invariant borrow ==> forall k :: 0 <= k <= i ==> digits[k] == was[k]
      invariant borrow ==> forall k :: i < k < digits.Length ==> was[k] == '0' && digits[k] == 'z'
      invariant !borrow ==> DecDigitsShape(was, i + 1, digits[..])
    {
      var d := IndexOf(digits[i]) - 1;
      if d == -1 {
        digits[i] := 'z';
      } else {
        digits[i] := DigitAt(d);
        borrow := false;
      }
      i := i - 1;
    }
    DecDigitsFromShape(was, if borrow then -1 else i + 1, digits[..]);
  }

  /** decrementInt. */
  method DecrementInt(x: string) returns (r: Result<string, KeyError>)
    requires x != "" && IsBase62(x)
    ensures r.Ok? <==> ValidInt(x)
    ensures r.Ok? ==> r.value == Decrement(x)
    ensures r.Err? ==> r.error == if IsHead(x[0]) then InvalidIntegerPart else InvalidHead
  {
    if !IsHead(x[0]) { return Err(InvalidHead); }
    if |x| != IntLen(x[0]) { return Err(InvalidIntegerPart); }
    var digits := new char[|x| - 1](i requires 0 <= i < |x| - 1 => x[i + 1]);
    assert digits[..] == x[1..];
    var borrow := DecrementInPlace(digits);
    if !borrow { return Ok([x[0]] + digits[..]); }
    if x[0] == 'a' { return Ok("Zz"); }
    if x[0] == 'A' { return Ok(""); }
    var h := x[0] - 1 as char;
    if h < 'Z' { return Ok([h] + (digits[..] + "z")); }
    return Ok([h] + digits[1..]);
  }
}
