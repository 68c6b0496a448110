/** Where the server makes sort keys: appending a channel, taking one over, migrating old rows. */
module SortKeys {
  import opened Common
  import opened LexOrder
  import opened Base62
  import opened IntegerPart
  import opened Fracdex

  const MAX_UINT: nat := 0xFFFF_FFFF_FFFF_FFFF

  datatype App = App(id: nat, userId: nat, sortKey: string)

  /** The rows the query for the last key looks at: one user's, without the channel that moves. */
  predicate Considered(app: App, user: nat, except: Option<nat>) {
    app.userId == user && except != Some(app.id)
  }

  /** `ORDER BY sort_key DESC LIMIT 1`, "" when there is no row. */
  function LastKey(apps: seq<App>, user: nat, except: Option<nat>): (last: string)
    ensures forall i :: 0 <= i < |apps| && Considered(apps[i], user, except) ==> LessEq(apps[i].sortKey, last)
    ensures last == "" || exists i :: 0 <= i < |apps| && Considered(apps[i], user, except) && apps[i].sortKey == last
  {
    if apps == [] then ""
    else
      var n := |apps| - 1;
      var before := LastKey(apps[..n], user, except);
      assert forall i :: 0 <= i < n ==> apps[..n][i] == apps[i];
      var key := apps[n].sortKey;
      if Considered(apps[n], user, except) && Less(before, key) then
        assert forall i :: 0 <= i < n && Considered(apps[i], user, except) ==> LessEq(apps[i].sortKey, key) by {
          forall i | 0 <= i < n && Considered(apps[i], user, except) ensures LessEq(apps[i].sortKey, key) {
            if apps[i].sortKey != before { LessTransitive(apps[i].sortKey, before, key); }
          }
        }
        key
      else
        LessTotal(before, key);
        before
  }

  /** The key given to a created channel, or to a channel that changes owner. */
  function AppendedKey(apps: seq<App>, user: nat, except: Option<nat>): Result<string, KeyError>
    requires IsBase62(LastKey(apps, user, except))
  {
    KeyBetween(LastKey(apps, user, except), "")
  }

  /**
   * The appended key is valid and sorts after every key the user already has, so it is new and the
   * channel comes last. It fails exactly when the user's last key is neither empty nor valid.
   */
  lemma AppendedKeyIsLast(apps: seq<App>, user: nat, except: Option<nat>)
    requires IsBase62(LastKey(apps, user, except))
    ensures var last := LastKey(apps, user, except); AppendedKey(apps, user, except).Ok? <==> last == "" || ValidKey(last)
    ensures AppendedKey(apps, user, except).Ok? ==>
              var key := AppendedKey(apps, user, except).value;
              ValidKey(key)
              && forall i :: 0 <= i < |apps| && apps[i].userId == user && (except.Some? ==> apps[i].id != except.value) ==>
                   Less(apps[i].sortKey, key)
    ensures var last := LastKey(apps, user, except);
            last == "" || exists i :: 0 <= i < |apps| && apps[i].userId == user && (except.Some? ==> apps[i].id != except.value)
                                      && apps[i].sortKey == last
  {
    hide KeyBetween, Validate;
    var last := LastKey(apps, user, except);
    KeyBetweenSucceeds(last, "");
    if AppendedKey(apps, user, except).Ok? {
      KeyBetweenClosed(last, "");
      var key := AppendedKey(apps, user, except).value;
      forall i | 0 <= i < |apps| && Considered(apps[i], user, except) ensures Less(apps[i].sortKey, key) {
        if apps[i].sortKey != last { LessTransitive(apps[i].sortKey, last, key); }
      }
    }
  }

  /** How many of the rows are the user's. */
  function Count(apps: seq<App>, user: nat): nat {
    if apps == [] then 0 else Count(apps[..|apps| - 1], user) + if apps[|apps| - 1].userId == user then 1 else 0
  }

  /** The key of the channel that has so many others of its user before it: integer parts in a row, from rank 0 on. */
  ghost predicate Placed(app: App, before: nat) {
    before <= MAX_VALUE ==> ValidInt(app.sortKey) && Value(app.sortKey) == before
  }

  /**
   * Every row has a valid key, and rows of one user carry keys that increase along the list: the keys that the user's
   * channels would have if they had been created in this order, from the first key on.
   */
  ghost predicate Numbered(apps: seq<App>) {
    && (forall i :: 0 <= i < |apps| ==> ValidKey(apps[i].sortKey))
    && (forall i :: 0 <= i < |apps| ==> Placed(apps[i], Count(apps[..i], apps[i].userId)))
    && (forall i, j :: 0 <= i < j < |apps| && apps[i].userId == apps[j].userId ==>
          Less(apps[i].sortKey, apps[j].sortKey))
  }

  ghost predicate ByUser(apps: seq<App>) {
    forall i, j :: 0 <= i < j < |apps| ==> apps[i].userId <= apps[j].userId
  }

  /** Only sort keys may differ. */
  ghost predicate SameRows(before: seq<App>, after: seq<App>) {
    |before| == |after|
    && forall i :: 0 <= i < |before| ==> after[i] == before[i].(sortKey := after[i].sortKey)
  }

  /** One more row of the current user, or the first row of the next, keeps the numbering. */
  lemma NumberNext(done: seq<App>, app: App, sortKey: string)
    requires Numbered(done) && ByUser(done) && ValidKey(app.sortKey) && Less(sortKey, app.sortKey)
    requires done != [] ==> done[|done| - 1].userId <= app.userId
    requires done != [] && done[|done| - 1].userId == app.userId ==> sortKey == done[|done| - 1].sortKey
    requires Placed(app, Count(done, app.userId))
    ensures Numbered(done + [app]) && ByUser(done + [app])
  {
    hide ValidKey, Placed, Count;
    NumberGrows(done, app, sortKey);
    forall i | 0 <= i < |done + [app]| ensures Placed((done + [app])[i], Count((done + [app])[..i], (done + [app])[i].userId)) {
      assert (done + [app])[..i] == if i < |done| then done[..i] else done;
    }
    hide Less;
  }

  lemma NumberGrows(done: seq<App>, app: App, sortKey: string)
    requires Numbered(done) && ByUser(done) && Less(sortKey, app.sortKey)
    requires done != [] ==> done[|done| - 1].userId <= app.userId
    requires done != [] && done[|done| - 1].userId == app.userId ==> sortKey == done[|done| - 1].sortKey
    ensures forall k :: 0 <= k < |done| && done[k].userId == app.userId ==> Less(done[k].sortKey, app.sortKey)
  {
    hide ValidKey, Placed, Count, Less;
    forall k | 0 <= k < |done| && done[k].userId == app.userId ensures Less(done[k].sortKey, app.sortKey) {
      assert done[k].userId <= done[|done| - 1].userId;
      if k < |done| - 1 { LessTransitive(done[k].sortKey, sortKey, app.sortKey); }
    }
  }

  /** The first key has rank 0 and every next one the next rank. */
  lemma NextPlace(sortKey: string, app: App, before: nat)
    requires IsBase62(sortKey) && KeyBetween(sortKey, "") == Ok(app.sortKey)
    requires if before == 0 then sortKey == "" else Placed(app.(sortKey := sortKey), before - 1)
    ensures Placed(app, before)
  {
    if before == 0 {
      var key := app.sortKey;
      assert ValidInt(key) && key[1..] == "0" && Num("0") == 0 && Offset(1) == 0;
    } else if before <= MAX_VALUE {
      IncrementIsSuccessor(sortKey);
      EndsOfRange(sortKey);
      WholeIsInteger(sortKey);
    }
    hide Num, Offset, Increment;
  }

  lemma WholeIsInteger(key: string)
    requires ValidInt(key)
    ensures IntPart(key) == key
  {
  }

  /** Rows are by user, so the count of the row before, and of no row of an earlier user. */
  lemma {:induction false} CountBefore(done: seq<App>, user: nat)
    requires ByUser(done) && (done != [] ==> done[|done| - 1].userId <= user)
    ensures done != [] && done[|done| - 1].userId == user ==> Count(done, user) == Count(done[..|done| - 1], user) + 1
    ensures done == [] || done[|done| - 1].userId != user ==> Count(done, user) == 0
    decreases |done|
  {
    if done == [] {
    } else if done[|done| - 1].userId != user {
      var front := done[..|done| - 1];
      if front != [] { assert front[|front| - 1].userId <= done[|done| - 1].userId; }
      CountBefore(front, user);
    }
  }

  lemma NextInLine(done: seq<App>, app: App, sortKey: string)
    requires Numbered(done) && ByUser(done) && (done != [] ==> done[|done| - 1].userId <= app.userId)
    requires sortKey == if done != [] && done[|done| - 1].userId == app.userId then done[|done| - 1].sortKey else ""
    requires IsBase62(sortKey) && KeyBetween(sortKey, "") == Ok(app.sortKey)
    ensures Placed(app, Count(done, app.userId))
  {
    hide KeyBetween, Count, ValidKey;
    CountBefore(done, app.userId);
    if done != [] && done[|done| - 1].userId == app.userId {
      assert Placed(done[|done| - 1], Count(done[..|done| - 1], app.userId));
    }
    NextPlace(sortKey, app, Count(done, app.userId));
  }

  /** The count query that decides whether the migration runs. */
  method CountMissing(apps: array<App>) returns (missing: nat)
    ensures missing == 0 <==> forall k :: 0 <= k < apps.Length ==> apps[k].sortKey != ""
  {
    missing := 0;
    for i := 0 to apps.Length
      invariant missing == 0 <==> forall k :: 0 <= k < i ==> apps[k].sortKey != ""
    {
      if apps[i].sortKey == "" { missing := missing + 1; }
    }
  }

  /**
   * fillMissingSortKeys, on the rows in the order the query returns them: by user, then by old key.
   * When no key is missing nothing changes; otherwise it cannot fail and every user's channels are renumbered in that order.
   */
  method FillMissingSortKeys(apps: array<App>)
    requires ByUser(apps[..])
    modifies apps
    ensures SameRows(old(apps[..]), apps[..])
    ensures (forall i :: 0 <= i < apps.Length ==> old(apps[i].sortKey) != "") ==> apps[..] == old(apps[..])
    ensures (exists i :: 0 <= i < apps.Length && old(apps[i].sortKey) == "") ==> Numbered(apps[..])
  {
    hide KeyBetween, Validate, ValidKey, Numbered;
    var missing := CountMissing(apps);
    if missing == 0 { return; }

    ghost var was := apps[..];
    var sortKey, currentUser := "", MAX_UINT;
    assert Numbered(apps[..0]) by { assert apps[..0] == []; EmptyIsNumbered(); }
    for i := 0 to apps.Length
      invariant SameRows(was, apps[..])
      invariant forall k :: i <= k < apps.Length ==> apps[k] == was[k]
      invariant Numbered(apps[..i]) && ByUser(apps[..i])
      invariant sortKey == "" || ValidKey(sortKey)
      invariant i == 0 ==> sortKey == ""
      invariant i > 0 ==> currentUser == apps[i - 1].userId && sortKey == apps[i - 1].sortKey
    {
      if currentUser != apps[i].userId {
        sortKey := "";
        currentUser := apps[i].userId;
      }
      assert IsBase62(sortKey) && GoodBounds(sortKey, "") by { ValidIsBase62(sortKey); }
      KeyBetweenSucceeds(sortKey, "");
      KeyBetweenClosed(sortKey, "");
      var next := KeyBetween(sortKey, "");
      // KeyBetweenClosed: the error return cannot happen here.
      ghost var done := apps[..i];
      NextInLine(done, apps[i].(sortKey := next.value), sortKey);
      NumberNext(done, apps[i].(sortKey := next.value), sortKey);
      sortKey := next.value;
      apps[i] := apps[i].(sortKey := sortKey);
      assert apps[..i + 1] == done + [apps[i]];
    }
    assert apps[..apps.Length] == apps[..];
  }

  lemma EmptyIsNumbered()
    ensures Numbered([])
  {
  }

  lemma ValidIsBase62(key: string)
    ensures key == "" || ValidKey(key) ==> IsBase62(key)
  {
  }
}
