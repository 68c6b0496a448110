/** The fraction halfway between two fractions (fracdex midpoint). */
module Midpoint {
  import opened LexOrder
  import opened Base62

  predicate NoTrailingZero(f: string) { f == "" || f[|f| - 1] != '0' }

  /** What is left of a string after i characters; nothing when it is shorter. */
  function From(a: string, i: nat): string { if i > |a| then "" else a[i..] }

  /** Length of the longest common prefix, a being padded with '0' for as long as b asks for it. */
  function CommonPrefix(a: string, b: string): (i: nat)
    ensures i <= |b|
    ensures i <= |a| ==> a[..i] == b[..i]
    ensures i > |a| ==> a == b[..|a|] && forall k :: |a| <= k < i ==> b[k] == '0'
    ensures i < |b| ==> b[i] != if i < |a| then a[i] else '0'
  {
    if b == "" then 0
    else if a == "" then (if b[0] != '0' then 0 else 1 + CommonPrefix("", b[1..]))
    else if a[0] != b[0] then 0
    else
      assert a == [a[0]] + a[1..] && b == [b[0]] + b[1..];
      1 + CommonPrefix(a[1..], b[1..])
  }

  /** math.Round(0.5 * float64(n)) for n >= 0: halves round up. */
  function RoundHalf(n: nat): nat { (n + 1) / 2 }

  /** The first digits that midpoint compares; a missing one counts as 0 below and as 62 above. */
  function DigitA(a: string): (d: nat)
    requires IsBase62(a)
    ensures d < 62
  {
    if a == "" then 0 else IndexOf(a[0])
  }

  function DigitB(b: string): (d: nat)
    requires IsBase62(b)
    ensures d <= 62
  {
    if b == "" then 62 else IndexOf(b[0])
  }

  /** midpoint: "" for b stands for the end of the range. */
  function Mid(a: string, b: string): (m: string)
    requires IsBase62(a) && IsBase62(b)
    ensures m != "" && IsBase62(m)
    decreases |b|, |a|
  {
    var i := CommonPrefix(a, b);
    if i > 0 then
      b[..i] + Mid(From(a, i), b[i..])
    else
      if DigitB(b) - DigitA(a) > 1 then [DigitAt(RoundHalf(DigitA(a) + DigitB(b)))]
      else if |b| > 1 then b[..1]
      else [DigitAt(DigitA(a))] + Mid(From(a, 1), "")
  }

  /** The scan at the start of midpoint. */
  method ScanPrefix(a: string, b: string) returns (i: nat)
    ensures i == CommonPrefix(a, b)
  {
    i := 0;
    while i < |b|
      invariant i <= |b| && CommonPrefix(a, b) == i + CommonPrefix(From(a, i), b[i..])
    {
      var c := if |a| > i then a[i] else '0';
      if c != b[i] { break; }
      assert From(a, i + 1) == From(From(a, i), 1) && b[i..][1..] == b[i + 1..];
      i := i + 1;
    }
  }

  /** midpoint. */
  method MidpointOf(a: string, b: string) returns (m: string)
    requires IsBase62(a) && IsBase62(b)
    ensures m == Mid(a, b)
    decreases |b|, |a|
  {
    hide IndexOf;
    if b != "" {
      var i := ScanPrefix(a, b);
      if i > 0 {
        var rest := MidpointOf(From(a, i), b[i..]);
        return b[..i] + rest;
      }
    }
    var digitA := if a == "" then 0 else IndexOf(a[0]);
    var digitB := if b == "" then 62 else IndexOf(b[0]);
    if digitB - digitA > 1 { return [DigitAt(RoundHalf(digitA + digitB))]; }
    if |b| > 1 { return b[..1]; }
    var rest := MidpointOf(From(a, 1), "");
    return [DigitAt(digitA)] + rest;
  }

  /** Between any two fractions there is one, and it ends in no zero, so it can be split again. */
  lemma {:induction false} MidBetween(a: string, b: string)
    requires IsBase62(a) && IsBase62(b) && NoTrailingZero(b)
    requires b == "" || Less(a, b)
    ensures NoTrailingZero(Mid(a, b))
    ensures Less(a, Mid(a, b))
    ensures b != "" ==> Less(Mid(a, b), b)
    decreases |b|, |a|
  {
    var i := CommonPrefix(a, b);
    if i > 0 {
      MidAfterPrefix(a, b, i);
    } else {
      MidFirstDigit(a, b);
    }
  }

  lemma {:induction false} MidAfterPrefix(a: string, b: string, i: nat)
    requires IsBase62(a) && IsBase62(b) && NoTrailingZero(b) && Less(a, b)
    requires i == CommonPrefix(a, b) > 0
    ensures NoTrailingZero(Mid(a, b)) && Less(a, Mid(a, b)) && Less(Mid(a, b), b)
    decreases |b|, |a|, 0
  {
    MidUnfold(a, b);
    RestsInOrder(a, b, i);
    hide *;
    MidBetween(From(a, i), b[i..]);
    BehindPrefix(a, b, i, Mid(From(a, i), b[i..]));
  }

  /** What follows the common prefix is in order, and there is more of the upper bound. */
  lemma RestsInOrder(a: string, b: string, i: nat)
    requires NoTrailingZero(b) && Less(a, b) && i == CommonPrefix(a, b)
    ensures i < |b| && NoTrailingZero(b[i..]) && Less(From(a, i), b[i..])
  {
    if i <= |a| {
      assert a == b[..i] + a[i..] && b == b[..i] + b[i..];
      LessCommonPrefix(b[..i], a[i..], b[i..]);
    }
    hide CommonPrefix;
  }

  lemma BehindPrefix(a: string, b: string, i: nat, m: string)
    requires i == CommonPrefix(a, b) && Less(From(a, i), m) && Less(m, b[i..]) && NoTrailingZero(m) && m != ""
    ensures Less(a, b[..i] + m) && Less(b[..i] + m, b) && NoTrailingZero(b[..i] + m)
  {
    hide Less;
    var p := b[..i];
    assert b == p + b[i..];
    LessCommonPrefix(p, m, b[i..]);
    if i <= |a| {
      assert a == p + a[i..];
      LessCommonPrefix(p, a[i..], m);
    } else {
      assert p + m == a + (b[|a|..i] + m);
      LessAppend(a, b[|a|..i] + m);
    }
  }

  lemma {:induction false} MidFirstDigit(a: string, b: string)
    requires IsBase62(a) && IsBase62(b) && NoTrailingZero(b) && (b == "" || Less(a, b))
    requires CommonPrefix(a, b) == 0
    ensures NoTrailingZero(Mid(a, b)) && Less(a, Mid(a, b)) && (b != "" ==> Less(Mid(a, b), b))
    decreases |b|, |a|, 0
  {
    assert a == "" && b == "" ==> DigitB(b) - DigitA(a) > 1;
    hide IndexOf, CommonPrefix, DigitA, DigitB;
    if DigitB(b) - DigitA(a) > 1 {
      HalfwayDigit(a, b);
    } else if |b| > 1 {
      assert b == b[..1] + b[1..];
      LessAppend(b[..1], b[1..]);
      FirstDigitOf(a, b);
    } else {
      MidBetween(From(a, 1), "");
      DigitThenMore(a, b, Mid(From(a, 1), ""));
    }
  }

  lemma HalfwayDigit(a: string, b: string)
    requires IsBase62(a) && IsBase62(b) && DigitB(b) - DigitA(a) > 1
    ensures var m := [DigitAt(RoundHalf(DigitA(a) + DigitB(b)))];
            NoTrailingZero(m) && Less(a, m) && (b != "" ==> Less(m, b))
  {
    var d := RoundHalf(DigitA(a) + DigitB(b));
    assert DigitA(a) < d < DigitB(b);
    var c := DigitAt(d);
    assert IndexOf('0') == 0;
    if a != "" { DigitOrder(a[0], c); }
    if b != "" { DigitOrder(c, b[0]); }
    hide IndexOf;
  }

  lemma FromZero(c: char)
    requires IsDigit(c)
    ensures '0' <= c
  {
  }

  /** A longer upper bound whose first digit follows on that of the lower one. */
  lemma FirstDigitOf(a: string, b: string)
    requires IsBase62(a) && IsBase62(b) && |b| > 1 && CommonPrefix(a, b) == 0 && Less(a, b)
    ensures NoTrailingZero(b[..1]) && Less(a, b[..1])
  {
    if a != "" { FromZero(a[0]); }
    hide IndexOf;
  }

  lemma DigitThenMore(a: string, b: string, m: string)
    requires IsBase62(a) && IsBase62(b) && |b| <= 1 && NoTrailingZero(b) && (b == "" || Less(a, b)) && CommonPrefix(a, b) == 0
    requires DigitB(b) - DigitA(a) <= 1
    requires m != "" && NoTrailingZero(m) && Less(From(a, 1), m)
    ensures var r := [DigitAt(DigitA(a))] + m; NoTrailingZero(r) && Less(a, r) && (b != "" ==> Less(r, b))
  {
    var r := [DigitAt(DigitA(a))] + m;
    assert r[1..] == m && r[|r| - 1] == m[|m| - 1];
    if a != "" { DigitOrder(a[0], a[0]); }
    if b != "" { DigitOrder(DigitAt(DigitA(a)), b[0]); }
    if a != "" && b != "" { DigitOrder(a[0], b[0]); }
    hide IndexOf;
  }

  /** Nothing strictly between two fractions is shorter than their midpoint, unless it ends in a zero. */
  lemma {:induction false} MidIsShortest(a: string, b: string, m: string)
    requires IsBase62(a) && IsBase62(b) && IsBase62(m) && NoTrailingZero(b) && NoTrailingZero(m)
    requires Less(a, m) && (b != "" ==> Less(a, b) && Less(m, b))
    ensures |Mid(a, b)| <= |m|
    decreases |b|, |a|, |m|
  {
    var i := CommonPrefix(a, b);
    MidUnfold(a, b);
    if i > 0 {
      PrefixIsForced(a, b, m);
      MidIsShortest(From(a, i), b[i..], m[i..]);
    } else if DigitB(b) - DigitA(a) <= 1 && |b| <= 1 {
      DigitIsForced(a, b, m);
      assert a != "" || b != "";
      MidIsShortest(From(a, 1), "", m[1..]);
    }
    hide IndexOf, CommonPrefix, Less;
  }

  /** What lies between two fractions starts with what they have in common. */
  lemma {:induction false} PrefixIsForced(a: string, b: string, m: string)
    requires b != "" && NoTrailingZero(b) && NoTrailingZero(m) && IsBase62(m) && Less(a, m) && Less(m, b) && Less(a, b)
    ensures var i := CommonPrefix(a, b);
            && i <= |m| && m[..i] == b[..i] && NoTrailingZero(m[i..]) && IsBase62(m[i..])
            && Less(From(a, i), m[i..]) && Less(m[i..], b[i..])
    decreases |b|
  {
    hide *;
    var i := CommonPrefix(a, b);
    if i > 0 {
      FirstIsForced(a, b, m);
      PrefixIsForced(From(a, 1), b[1..], m[1..]);
      TailSlices(a, b, m, i);
    } else {
      NothingShared(a, b, m);
    }
  }

  lemma FirstIsForced(a: string, b: string, m: string)
    requires b != "" && NoTrailingZero(b) && NoTrailingZero(m) && IsBase62(m) && Less(a, m) && Less(m, b) && Less(a, b)
    requires CommonPrefix(a, b) > 0
    ensures m != "" && m[0] == b[0] && CommonPrefix(a, b) == 1 + CommonPrefix(From(a, 1), b[1..])
    ensures b[1..] != "" && NoTrailingZero(b[1..]) && NoTrailingZero(m[1..]) && IsBase62(m[1..])
    ensures Less(From(a, 1), m[1..]) && Less(m[1..], b[1..]) && Less(From(a, 1), b[1..])
  {
    FromZero(m[0]);
    if a == "" {
      NotAllZeros(b);
      NotAllZeros(m);
    }
    hide IndexOf;
  }

  lemma TailSlices(a: string, b: string, m: string, i: nat)
    requires 0 < i <= |b| && m != "" && m[0] == b[0] && i - 1 <= |m| - 1 && m[1..][..i - 1] == b[1..][..i - 1]
    ensures m[..i] == b[..i] && m[1..][i - 1..] == m[i..] && b[1..][i - 1..] == b[i..] && From(From(a, 1), i - 1) == From(a, i)
  {
    assert m[..i] == [m[0]] + m[1..][..i - 1] && b[..i] == [b[0]] + b[1..][..i - 1];
  }

  lemma NothingShared(a: string, b: string, m: string)
    ensures m[..0] == b[..0] && m[0..] == m && b[0..] == b && From(a, 0) == a
  {
  }

  lemma NotAllZeros(f: string)
    requires f != "" && f[0] == '0' && NoTrailingZero(f)
    ensures f[1..] != "" && NoTrailingZero(f[1..])
  {
  }

  /** Between neighbouring first digits only the lower one is left. */
  lemma DigitIsForced(a: string, b: string, m: string)
    requires IsBase62(a) && IsBase62(b) && IsBase62(m) && NoTrailingZero(m) && Less(a, m) && (b != "" ==> Less(m, b))
    requires DigitB(b) - DigitA(a) <= 1 && |b| <= 1
    ensures m != "" && IsBase62(m[1..]) && NoTrailingZero(m[1..]) && Less(From(a, 1), m[1..])
  {
  }

  /** A midpoint is never more than one digit longer than the longer bound. */
  lemma {:induction false} MidLength(a: string, b: string)
    requires IsBase62(a) && IsBase62(b)
    ensures |Mid(a, b)| <= 1 + if |a| > |b| then |a| else |b|
    decreases |b|, |a|
  {
    var i := CommonPrefix(a, b);
    if i > 0 {
      MidLength(From(a, i), b[i..]);
    } else {
      hide DigitA, DigitB, IndexOf;
      if DigitB(b) - DigitA(a) <= 1 && |b| <= 1 {
        MidLength(From(a, 1), "");
      }
    }
  }

  /** Where the first digits leave room, the answer is the single digit halfway, the upper one of two. */
  lemma MidIsHalfway(a: string, b: string)
    requires IsBase62(a) && IsBase62(b) && CommonPrefix(a, b) == 0
    ensures DigitB(b) - DigitA(a) > 1 ==>
              |Mid(a, b)| == 1 && 0 <= 2 * IndexOf(Mid(a, b)[0]) - (DigitA(a) + DigitB(b)) <= 1
  {
  }

  /** A common prefix passes through unchanged. */
  lemma MidCommonPrefix(p: string, a: string, b: string)
    requires IsBase62(p) && IsBase62(a) && IsBase62(b) && b != ""
    ensures Mid(p + a, p + b) == p + Mid(a, b)
  {
    assert IsBase62(p + a) && IsBase62(p + b);
    hide *;
    var i := CommonPrefix(a, b);
    MidUnfold(a, b);
    MidOfShifted(p, a, b, i);
    Associative(p, b[..i], Mid(From(a, i), b[i..]));
  }

  lemma Associative(p: string, q: string, r: string)
    ensures p + q + r == p + (q + r)
  {
  }

  lemma MidOfShifted(p: string, a: string, b: string, i: nat)
    requires IsBase62(p + a) && IsBase62(p + b) && i == CommonPrefix(a, b) && IsBase62(From(a, i)) && IsBase62(b[i..])
    ensures Mid(p + a, p + b) == p + b[..i] + Mid(From(a, i), b[i..])
  {
    hide *;
    CommonPrefixShift(p, a, b);
    MidUnfold(p + a, p + b);
    Shifted(p, b, i);
    FromShift(p, a, i);
  }

  lemma FromShift(p: string, a: string, i: nat)
    ensures From(p + a, |p| + i) == From(a, i)
  {
  }

  lemma Shifted(p: string, s: string, i: nat)
    requires i <= |s|
    ensures (p + s)[..|p| + i] == p + s[..i]
    ensures (p + s)[|p| + i..] == s[i..]
  {
  }

  /** With nothing in common the prefix case of midpoint is an identity, so it describes every call. */
  lemma MidUnfold(a: string, b: string)
    requires IsBase62(a) && IsBase62(b)
    ensures var i := CommonPrefix(a, b);
            IsBase62(From(a, i)) && IsBase62(b[i..]) && Mid(a, b) == b[..i] + Mid(From(a, i), b[i..])
  {
    hide IndexOf;
    if CommonPrefix(a, b) == 0 { assert a[0..] == a && b[0..] == b && b[..0] + Mid(a, b) == Mid(a, b); }
  }

  lemma {:induction false} CommonPrefixShift(p: string, a: string, b: string)
    ensures CommonPrefix(p + a, p + b) == |p| + CommonPrefix(a, b)
  {
    if p == "" {
      assert p + a == a && p + b == b;
    } else {
      assert (p + a)[1..] == p[1..] + a && (p + b)[1..] == p[1..] + b;
      CommonPrefixShift(p[1..], a, b);
    }
  }
}
