/** Sequences seen as lists: filtering, removing one element, keeping first occurrences. */
module Lists {
  function Without<T>(list: seq<T>, drop: T -> bool): seq<T> {
    if list == [] then [] else (if drop(list[0]) then [] else [list[0]]) + Without(list[1..], drop)
  }

  lemma WithoutCons<T>(list: seq<T>, drop: T -> bool)
    requires list != []
    ensures Without(list, drop) == if drop(list[0]) then Without(list[1..], drop) else [list[0]] + Without(list[1..], drop)
  {
  }

  lemma WithoutStep<T>(list: seq<T>, i: nat, drop: T -> bool)
    requires i < |list|
    ensures list[..i] + Without(list[i..], drop) ==
            if drop(list[i]) then list[..i] + Without(list[i + 1..], drop) else list[..i + 1] + Without(list[i + 1..], drop)
  {
    assert list[i..][1..] == list[i + 1..];
  }

  function RemoveFirst<T(==)>(list: seq<T>, x: T): seq<T> {
    if list == [] then [] else if list[0] == x then list[1..] else [list[0]] + RemoveFirst(list[1..], x)
  }

  predicate Distinct<T(==)>(list: seq<T>) { forall i, j :: 0 <= i < j < |list| ==> list[i] != list[j] }

  lemma {:induction false} WithoutMembers<T>(list: seq<T>, drop: T -> bool)
    ensures forall x :: x in Without(list, drop) <==> x in list && !drop(x)
    ensures Distinct(list) ==> Distinct(Without(list, drop))
  {
    if list == [] {
    } else {
      WithoutMembers(list[1..], drop);
      assert list == [list[0]] + list[1..];
      if Distinct(list) {
        assert forall i, j :: 0 <= i < j < |list[1..]| ==> list[1..][i] == list[i + 1] && list[1..][j] == list[j + 1];
        assert Distinct(list[1..]);
        assert list[0] !in list[1..];
        DistinctCons(list[0], Without(list[1..], drop));
        assert [] + Without(list[1..], drop) == Without(list[1..], drop);
      }
    }
  }

  lemma DistinctCons<T>(x: T, list: seq<T>)
    requires Distinct(list) && x !in list
    ensures Distinct([x] + list)
  {
  }

  /** From a list without repetitions exactly the one element goes. */
  lemma {:induction false} RemoveFirstMembers<T>(list: seq<T>, x: T)
    requires Distinct(list)
    ensures forall y :: y in RemoveFirst(list, x) <==> y in list && y != x
    ensures Distinct(RemoveFirst(list, x))
  {
    if list == [] {
    } else {
      assert list == [list[0]] + list[1..];
      assert forall i, j :: 0 <= i < j < |list[1..]| ==> list[1..][i] == list[i + 1] && list[1..][j] == list[j + 1];
      assert Distinct(list[1..]) && list[0] !in list[1..];
      RemoveFirstMembers(list[1..], x);
      if list[0] != x { DistinctCons(list[0], RemoveFirst(list[1..], x)); }
    }
  }

  lemma {:induction false} RemoveFirstAt<T>(list: seq<T>, x: T, i: nat)
    requires i < |list| && list[i] == x && forall k :: 0 <= k < i ==> list[k] != x
    ensures RemoveFirst(list, x) == list[..i] + list[i + 1..]
  {
    if i == 0 {
    } else {
      RemoveFirstAt(list[1..], x, i - 1);
      assert [list[0]] + (list[1..][..i - 1] + list[1..][i..]) == list[..i] + list[i + 1..];
    }
  }

  lemma {:induction false} RemoveAbsent<T>(list: seq<T>, x: T)
    requires x !in list
    ensures RemoveFirst(list, x) == list
  {
    if list != [] { RemoveAbsent(list[1..], x); }
  }

  /** The first occurrence of each element, in order. */
  function Firsts<T(==)>(s: seq<T>): seq<T> {
    if s == [] then []
    else
      var before, last := Firsts(s[..|s| - 1]), s[|s| - 1];
      if last in before then before else before + [last]
  }

  lemma {:induction false} FirstsMembers<T>(s: seq<T>)
    ensures Distinct(Firsts(s)) && (forall x :: x in Firsts(s) <==> x in s)
  {
    if s == [] {
    } else {
      FirstsMembers(s[..|s| - 1]);
      assert s == s[..|s| - 1] + [s[|s| - 1]];
    }
  }

  lemma {:induction false} WithoutSplits<T>(list: seq<T>, drop: T -> bool, x: T)
    ensures multiset(Without(list, drop))[x] == if drop(x) then 0 else multiset(list)[x]
  {
    if list == [] {
    } else {
      WithoutSplits(list[1..], drop, x);
      assert list == [list[0]] + list[1..];
    }
  }

  lemma {:induction false} WithoutAppend<T>(list: seq<T>, x: T, drop: T -> bool)
    ensures Without(list + [x], drop) == if drop(x) then Without(list, drop) else Without(list, drop) + [x]
  {
    if list == [] {
      assert [] + [x] == [x] && [x][1..] == [];
    } else {
      WithoutAppend(list[1..], x, drop);
      assert (list + [x])[1..] == list[1..] + [x];
    }
  }

  /** Every finite set can be listed. */
  lemma {:induction false} Enumerate<T>(items: set<T>) returns (list: seq<T>)
    ensures Distinct(list) && forall x :: x in list <==> x in items
    decreases items
  {
    if items == {} {
      list := [];
    } else {
      var x :| x in items;
      var rest := Enumerate(items - {x});
      list := [x] + rest;
    }
  }
}
