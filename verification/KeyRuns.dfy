/** Runs of sort keys: NKeysBetween with its loops, its reversal and its splitting recursion. */
module KeyRuns {
  import opened Common
  import opened LexOrder
  import opened Base62
  import opened IntegerPart
  import opened Midpoint
  import opened Fracdex

  /** n keys in strictly increasing order, all strictly inside the bounds. */
  ghost predicate KeyRun(a: string, b: string, keys: seq<string>) {
    && (forall i :: 0 <= i < |keys| ==> Inside(a, keys[i], b))
    && (forall i, j :: 0 <= i < j < |keys| ==> Less(keys[i], keys[j]))
  }

  /** Can a key be made below k without end? */
  predicate Unlimited(k: string)
    requires ValidKey(k)
  {
    IntPart(k) == SMALLEST_INT
  }

  /** How many times a key can be made below k before smallestInt comes out (0 for smallestInt itself). */
  function StepsBelow(k: string): (steps: int)
    requires k == SMALLEST_INT || ValidKey(k)
    ensures k == SMALLEST_INT ==> steps == 0
  {
    if k == SMALLEST_INT then 0
    else
      KeyParts(k);
      Value(IntPart(k)) - MIN_VALUE + if Fraction(k) == "" then 0 else 1
  }

  /** Every key made below k uses up one step, and the last step yields smallestInt. */
  lemma StepBelow(k: string)
    requires ValidKey(k)
    ensures KeyBetween("", k).Ok?
    ensures var c := KeyBetween("", k).value;
            IsBase62(c) && Inside("", c, k) && (c == SMALLEST_INT || ValidKey(c))
            && (Unlimited(k) ==> c != SMALLEST_INT && Unlimited(c))
            && (!Unlimited(k) && c != SMALLEST_INT ==> !Unlimited(c))
            && (!Unlimited(k) ==> StepsBelow(c) == StepsBelow(k) - 1)
    ensures Unlimited(k) || StepsBelow(k) >= 1
  {
    hide IndexOf, Increment, Decrement, Mid, KeyBetween;
    KeyParts(k);
    SmallestIntIsMinimum();
    EndsOfRange(IntPart(k));
    IntOrder(IntPart(k), SMALLEST_INT);
    if IntPart(k) == SMALLEST_INT {
      BetweenBottomInSmallest(k);
    } else if Fraction(k) != "" {
      BetweenBottomWithFraction(k);
    } else {
      BetweenBottomAlone(k);
      DecrementIsPredecessor(k);
      IntOrder(Decrement(k), SMALLEST_INT);
    }
  }

  /** Is there room for n keys inside the bounds? Only an open bottom can run out. */
  predicate Room(a: string, b: string, n: nat)
    requires GoodBounds(a, b)
  {
    a != "" || b == "" || Unlimited(b) || n <= StepsBelow(b)
  }

  /** reverse: swaps from both ends in place. */
  method Reverse(values: array<string>)
    modifies values
    ensures forall k :: 0 <= k < values.Length ==> values[k] == old(values[values.Length - 1 - k])
  {
    var i, n := 0, values.Length;
    while i < n / 2
      invariant 0 <= i <= n / 2
      invariant forall k :: 0 <= k < i ==> values[k] == old(values[n - 1 - k]) && values[n - 1 - k] == old(values[k])
      invariant forall k :: i <= k < n - i ==> values[k] == old(values[k])
    {
      var j := n - i - 1;
      values[i], values[j] := values[j], values[i];
      i := i + 1;
    }
  }

  /** A key beyond the last one of an increasing run extends the run. */
  lemma ExtendRun(a: string, b: string, keys: seq<string>, c: string)
    requires KeyRun(a, b, keys) && keys != []
    requires Less(keys[|keys| - 1], c) && (b == "" || Less(c, b))
    ensures KeyRun(a, b, keys + [c])
  {
    var last := |keys| - 1;
    LessTransitive(a, keys[last], c);
    forall i | 0 <= i < |keys| ensures Less(keys[i], c) {
      if i < last { LessTransitive(keys[i], keys[last], c); }
    }
  }

  /** Two runs on either side of a key make one run. */
  lemma JoinRuns(a: string, left: seq<string>, c: string, right: seq<string>, b: string)
    requires KeyRun(a, c, left) && c != "" && Inside(a, c, b) && KeyRun(c, b, right)
    ensures KeyRun(a, b, left + [c] + right)
  {
    forall i | 0 <= i < |left| ensures Inside(a, left[i], b) && Less(left[i], c) {
      if b != "" { LessTransitive(left[i], c, b); }
    }
    forall j | 0 <= j < |right| ensures Inside(a, right[j], b) {
      LessTransitive(a, c, right[j]);
    }
    forall i, j | 0 <= i < |left| && 0 <= j < |right| ensures Less(left[i], right[j]) {
      LessTransitive(left[i], c, right[j]);
    }
  }

  /** The branch with an open top: every key is made above the one before. */
  method KeysAbove(a: string, n: nat) returns (r: Result<seq<string>, KeyError>)
    requires IsBase62(a) && n >= 1
    ensures r.Ok? <==> GoodBounds(a, "")
    ensures r.Ok? ==> |r.value| == n && KeyRun(a, "", r.value)
    ensures r.Ok? ==> forall i :: 0 <= i < n ==> ValidKey(r.value[i])
  {
    hide KeyBetween, Increment, Validate;
    KeyBetweenSucceeds(a, "");
    var first := KeyBetween(a, "");
    if first.Err? { return Err(first.error); }
    KeyBetweenClosed(a, "");
    var c := first.value;
    var result := [c];
    for i := 0 to n - 1
      invariant |result| == i + 1 && result[i] == c
      invariant KeyRun(a, "", result)
      invariant forall k :: 0 <= k < |result| ==> ValidKey(result[k])
    {
      KeyBetweenSucceeds(c, "");
      KeyBetweenClosed(c, "");
      ExtendRun(a, "", result, KeyBetween(c, "").value);
      c := KeyBetween(c, "").value;
      result := result + [c];
    }
    return Ok(result);
  }

  /** Keys made downwards, in the order they are made. */
  ghost predicate FallingRun(b: string, keys: seq<string>) {
    && (forall i :: 0 <= i < |keys| ==> Inside("", keys[i], b))
    && (forall i, j :: 0 <= i < j < |keys| ==> Less(keys[j], keys[i]))
  }

  lemma ExtendFallingRun(b: string, keys: seq<string>, c: string)
    requires FallingRun(b, keys) && keys != [] && c != "" && b != "" && Less(c, keys[|keys| - 1])
    ensures FallingRun(b, keys + [c])
  {
    var last := |keys| - 1;
    LessTransitive(c, keys[last], b);
    forall i | 0 <= i < |keys| ensures Less(c, keys[i]) {
      if i < last { LessTransitive(c, keys[last], keys[i]); }
    }
  }

  /** smallestInt itself is no valid key. */
  lemma SmallestIntIsInvalid()
    ensures !ValidKey(SMALLEST_INT)
  {
  }

  /** The branch with an open bottom: every key is made below the one before, then the list is reversed. */
  method KeysBelow(b: string, n: nat) returns (r: Result<seq<string>, KeyError>)
    requires IsBase62(b) && b != "" && n >= 1
    ensures r.Ok? <==> GoodBounds("", b) && Room("", b, n)
    ensures r.Ok? ==> |r.value| == n && KeyRun("", b, r.value)
    ensures r.Ok? ==> forall i :: 0 < i < n ==> ValidKey(r.value[i])
  {
    hide KeyBetween, Increment, Validate, StepsBelow, Unlimited, IndexOf;
    KeyBetweenSucceeds("", b);
    var first := KeyBetween("", b);
    if first.Err? { return Err(first.error); }
    StepBelow(b);
    var c := first.value;
    var result := [c];
    for i := 0 to n - 1
      invariant |result| == i + 1 && result[i] == c && c != "" && IsBase62(c)
      invariant FallingRun(b, result)
      invariant forall k :: 0 <= k < i ==> ValidKey(result[k])
      invariant c == SMALLEST_INT || ValidKey(c)
      invariant Unlimited(b) ==> c != SMALLEST_INT && Unlimited(c)
      invariant !Unlimited(b) && c != SMALLEST_INT ==> !Unlimited(c)
      invariant !Unlimited(b) ==> StepsBelow(c) == StepsBelow(b) - (i + 1) >= 0
    {
      KeyBetweenSucceeds("", c);
      SmallestIntIsInvalid();
      var next := KeyBetween("", c);
      if next.Err? { return Err(next.error); }
      StepBelow(c);
      ExtendFallingRun(b, result, next.value);
      c := next.value;
      result := result + [c];
    }
    var values := new string[|result|](i requires 0 <= i < |result| => result[i]);
    Reverse(values);
    return Ok(values[..]);
  }

  /**
   * NKeysBetween. Asking for no keys succeeds whatever the bounds are. Otherwise it succeeds
   * exactly on good bounds with room, and returns n increasing keys strictly between them.
   */
  method NKeysBetween(a: string, b: string, n: nat) returns (r: Result<seq<string>, KeyError>)
    requires IsBase62(a) && IsBase62(b)
    ensures n == 0 ==> r == Ok([])
    ensures n > 0 ==> (r.Ok? <==> GoodBounds(a, b) && Room(a, b, n))
    ensures n > 0 && r.Ok? ==> |r.value| == n && KeyRun(a, b, r.value)
    decreases n
  {
    hide KeyBetween, Increment, Validate;
    if n == 0 { return Ok([]); }
    KeyBetweenSucceeds(a, b);
    if n == 1 {
      if a == "" && b != "" && ValidKey(b) { StepBelow(b); }
      var c := KeyBetween(a, b);
      return match c case Ok(k) => Ok([k]) case Err(e) => Err(e);
    }
    if b == "" { r := KeysAbove(a, n); return; }
    if a == "" { r := KeysBelow(b, n); return; }
    var mid := n / 2;
    var c := KeyBetween(a, b);
    if c.Err? { return Err(c.error); }
    KeyBetweenClosed(a, b);
    var left := NKeysBetween(a, c.value, mid);
    var right := NKeysBetween(c.value, b, n - mid - 1);
    if n - mid - 1 == 0 { assert right.value == []; }
    JoinRuns(a, left.value, c.value, right.value, b);
    return Ok(left.value + [c.value] + right.value);
  }
}
