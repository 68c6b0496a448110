/** The 62 digits of sort keys, in byte order, and digit strings as numerals. */
module Base62 {
  import opened LexOrder

  /** Position of a character in base62Digits, -1 when it is not a digit. */
  function IndexOf(c: char): (d: int)
    ensures -1 <= d < 62
  {
    if '0' <= c <= '9' then c as int - '0' as int
    else if 'A' <= c <= 'Z' then c as int - 'A' as int + 10
    else if 'a' <= c <= 'z' then c as int - 'a' as int + 36
    else -1
  }

  /** The digit at a position of base62Digits. */
  function DigitAt(d: int): (c: char)
    requires 0 <= d < 62
    ensures IndexOf(c) == d
  {
    if d < 10 then '0' + d as char
    else if d < 36 then 'A' + (d - 10) as char
    else 'a' + (d - 36) as char
  }

  predicate IsDigit(c: char) { IndexOf(c) >= 0 }

  predicate IsBase62(s: string) { forall i :: 0 <= i < |s| ==> IsDigit(s[i]) }

  /** Byte order on digits is numeric order, and a digit is determined by its position. */
  lemma DigitOrder(c: char, d: char)
    requires IsDigit(c) && IsDigit(d)
    ensures c < d <==> IndexOf(c) < IndexOf(d)
    ensures DigitAt(IndexOf(c)) == c
  {
  }

  function Pow62(n: nat): (p: nat)
    ensures p >= 1
  {
    if n == 0 then 1 else 62 * Pow62(n - 1)
  }

  /** The number a digit string denotes. */
  function Num(s: string): (v: nat)
    requires IsBase62(s)
    ensures v < Pow62(|s|)
  {
    if s == "" then 0 else 62 * Num(s[..|s| - 1]) + IndexOf(s[|s| - 1])
  }

  /** On digit strings of one length, string order is numeric order. */
  lemma {:induction false} NumOrder(a: string, b: string)
    requires IsBase62(a) && IsBase62(b) && |a| == |b|
    ensures Less(a, b) <==> Num(a) < Num(b)
    ensures a == b <==> Num(a) == Num(b)
  {
    if a == "" {
    } else {
      var n := |a| - 1;
      LessByLast(a, b);
      NumOrder(a[..n], b[..n]);
      DigitOrder(a[n], b[n]);
      DigitOrder(b[n], a[n]);
      assert a == a[..n] + [a[n]] && b == b[..n] + [b[n]];
    }
  }

  /** n copies of one digit. */
  function Repeat(c: char, n: nat): (s: string)
    requires IsDigit(c)
    ensures |s| == n && IsBase62(s) && forall i :: 0 <= i < n ==> s[i] == c
  {
    seq(n, i => c)
  }

  lemma {:induction false} NumZeros(n: nat)
    ensures Num(Repeat('0', n)) == 0
    ensures Num(Repeat('z', n)) == Pow62(n) - 1
  {
    if n == 0 {
    } else {
      NumZeros(n - 1);
      assert Repeat('0', n)[..n - 1] == Repeat('0', n - 1);
      assert Repeat('z', n)[..n - 1] == Repeat('z', n - 1);
    }
  }

  /** Adds one to a digit string of fixed width: the new digits and the carry out of the top. */
  function IncDigits(s: string): (r: (string, bool))
    requires IsBase62(s)
    ensures IsBase62(r.0) && |r.0| == |s|
  {
    if s == "" then ("", true)
    else
      var n := |s| - 1;
      var d := IndexOf(s[n]) + 1;
      if d == 62 then
        var rest := IncDigits(s[..n]);
        (rest.0 + "0", rest.1)
      else
        (s[..n] + [DigitAt(d)], false)
  }

  lemma {:induction false} IncDigitsValue(s: string)
    requires IsBase62(s)
    ensures Num(IncDigits(s).0) + (if IncDigits(s).1 then Pow62(|s|) else 0) == Num(s) + 1
    ensures IncDigits(s).1 ==> IncDigits(s).0 == Repeat('0', |s|)
  {
    if s == "" {
    } else {
      var n := |s| - 1;
      var r := IncDigits(s).0;
      IncDigitsValue(s[..n]);
      assert r[..n] == if IndexOf(s[n]) + 1 == 62 then IncDigits(s[..n]).0 else s[..n];
    }
  }

  /** Subtracts one from a digit string of fixed width: the new digits and the borrow. */
  function DecDigits(s: string): (r: (string, bool))
    requires IsBase62(s)
    ensures IsBase62(r.0) && |r.0| == |s|
  {
    if s == "" then ("", true)
    else
      var n := |s| - 1;
      var d := IndexOf(s[n]) - 1;
      if d == -1 then
        var rest := DecDigits(s[..n]);
        (rest.0 + "z", rest.1)
      else
        (s[..n] + [DigitAt(d)], false)
  }

  lemma {:induction false} DecDigitsValue(s: string)
    requires IsBase62(s)
    ensures Num(DecDigits(s).0) + 1 == Num(s) + (if DecDigits(s).1 then Pow62(|s|) else 0)
    ensures DecDigits(s).1 ==> DecDigits(s).0 == Repeat('z', |s|)
  {
    if s == "" {
    } else {
      var n := |s| - 1;
      var r := DecDigits(s).0;
      DecDigitsValue(s[..n]);
      assert r[..n] == if IndexOf(s[n]) - 1 == -1 then DecDigits(s[..n]).0 else s[..n];
    }
  }
}
