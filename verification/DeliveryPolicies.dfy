/** What becomes of a copy, in the fields of its user's digest and quiet hours, and the fate of deferred copies over runs. */
module DeliveryPolicies {
  import opened Delivery
  import opened DeliveryRuns
  import opened Lists

  /** The message is for the user: a receiver or a mentioned member, and not its sender. */
  predicate IsFor(a: Action, u: nat)
    requires a.Post?
  {
    (a.sender == 0 || u != a.sender) && (u in a.receivers || (a.sender != 0 && u in a.mentions && u in a.members))
  }

  /** The user's digest takes messages of this priority. */
  predicate Digested(s: State, u: nat, priority: int) {
    u in s.digests && s.digests[u].enabled && priority < s.digests[u].immediatePriority
  }

  /** The user's quiet hours hold messages of this priority back at the moment. */
  predicate Held(s: State, u: nat, priority: int, now: int) {
    u in s.quiets && s.quiets[u].enabled && priority < s.quiets[u].allowPriority && QuietNow(s.quiets[u], now)
  }

  /**
   * Where a new message goes: into the digests that take it; to users whose quiet hours hold it back it is deferred if
   * they defer and suppressed if they do not; everybody else is notified at once.
   */
  lemma PostHonoursPolicies(s: State, a: Action, u: nat)
    requires Inv(s) && a.Post? && DeliveryRuns.Enabled(s, a)
    ensures var t, k := DeliveryRuns.Apply(s, a), Key(u, s.nextId);
            var digested, held := IsFor(a, u) && Digested(s, u, a.priority), IsFor(a, u) && !Digested(s, u, a.priority) && Held(s, u, a.priority, a.now);
            && multiset(Keys(t.digest))[k] == (if digested then 1 else 0)
            && multiset(t.deferred)[k] == (if held && s.quiets[u].defers then 1 else 0)
            && t.suppressed[k] == (if held && !s.quiets[u].defers then 1 else 0)
            && t.notified[k] == (if IsFor(a, u) && !digested && !held then 1 else 0)
  {
    hide DeliveryRuns.Apply, Recipients, Keys, QuietNow, Inv, DeliveryRuns.Enabled;
    PostGoesWhereDue(s, a, u);
    RecipientsAreExact(a.receivers, a.mentions, a.members, a.sender);
  }

  /** A digest pass sends its summary by the quiet hours alone, with the highest priority among the items. */
  lemma SummaryHonoursQuietHours(s: State, user: nat, now: int)
    requires Inv(s) && Due(s, user, now) && ItemsOf(s, user) != []
    ensures var t, k := DigestUser(s, user, now), Key(user, s.nextId);
            var held := Held(s, user, Highest(ItemsOf(s, user)), now);
            && s.nextId in t.messages
            && (k in t.deferred <==> held && s.quiets[user].defers)
            && t.suppressed[k] == (if held && !s.quiets[user].defers then 1 else 0)
            && t.notified[k] == (if !held then 1 else 0)
  {
    var k, runKey := Key(user, s.nextId), s.digests[user].nextRun.value;
    assert (user, runKey) !in s.runKeys;
    assert Tally(s, k) == s.accepted[k] == 0;
    hide Inv, Highest, ItemsOf, Keys, QuietNow, Queue;
    assert k in s.deferred <==> multiset(s.deferred)[k] > 0;
  }

  /** A pass never sets the next run less than a quarter of an hour ahead, nor to any other time than the policy's interval. */
  lemma NextDigest(s: State, user: nat, now: int)
    requires Due(s, user, now)
    ensures var t := DigestUser(s, user, now);
            && t.digests[user] == s.digests[user].(nextRun := t.digests[user].nextRun) && t.digests[user].nextRun.Some?
            && (forall u :: u != user ==> Lookup(t.digests, u) == Lookup(s.digests, u))
            && var wait := t.digests[user].nextRun.value - now;
               wait >= 15 && wait >= s.digests[user].interval && (wait == 15 || wait == s.digests[user].interval)
  {
    hide Summarise;
    SummariseKeepsPolicies(s, user, s.digests[user].nextRun.value, now);
  }

  lemma SummariseKeepsPolicies(s: State, user: nat, runKey: int, now: int)
    ensures Summarise(s, user, runKey, now).digests == s.digests
  {
    hide ItemsOf, Keys, Highest, Queue, QueueKey, QuietOutcome;
  }

  /** A digest that is switched on is due from one interval later on; switched off it is never due, and what waited is gone. */
  lemma DigestIsConfigured(s: State, user: nat, enabled: bool, interval: int, immediatePriority: int, now: int, later: int)
    ensures var t := SaveDigest(s, user, enabled, interval, immediatePriority, now);
            && (Due(t, user, later) <==> enabled && later >= now + interval)
            && (forall priority :: Digested(t, user, priority) <==> enabled && priority < immediatePriority)
            && (forall u :: u != user ==> Lookup(t.digests, u) == Lookup(s.digests, u))
            && (forall i :: i in t.digest <==> i in s.digest && (enabled || i.key.user != user))
  {
    WithoutMembers(s.digest, (i: Item) => i.key.user == user);
    hide Without, Keys;
  }

  // ---------------------------------------------------------------------------------------------
  // Deferred copies over runs

  ghost predicate IsRunOf(trace: seq<State>, actions: seq<Action>) {
    && |trace| == |actions| + 1 && trace[0] == DeliveryRuns.Empty(trace[0].clock)
    && forall i :: 0 <= i < |actions| ==> Acts(trace, actions, i)
  }

  ghost predicate Acts(trace: seq<State>, actions: seq<Action>, i: nat)
    requires i < |actions| < |trace|
  {
    DeliveryRuns.Enabled(trace[i], actions[i]) && trace[i + 1] == DeliveryRuns.Apply(trace[i], actions[i])
  }

  /** A deferred pass comes to the entry outside its user's quiet hours. */
  predicate Releases(s: State, a: Action, k: Key) {
    a.Release? && a.key == k && !(k.user in s.quiets && s.quiets[k.user].enabled && QuietNow(s.quiets[k.user], a.now))
  }

  predicate DeletesMessage(a: Action, k: Key) { a.Delete? && k.message in a.ids }

  /** What is deferred is of a message that is there. */
  ghost predicate DeferredAreStored(s: State) { forall k :: k in s.deferred ==> k.message in s.messages }

  ghost predicate Sound(s: State) { Inv(s) && DeferredAreStored(s) }

  lemma SettleKeepsDeferred(s: State, x: Key, outcome: Outcome, priority: int, k: Key)
    ensures var t := Settle(s, x, outcome, priority);
            && (k in s.deferred ==> k in t.deferred) && (k in t.deferred ==> k in s.deferred || k == x)
            && t.messages == s.messages && t.notified[k] >= s.notified[k] && t.dropped == s.dropped && t.accepted[k] >= s.accepted[k]
  {
    hide Queue;
  }

  lemma {:induction false} DeliveriesKeepDeferred(s: State, users: seq<nat>, id: nat, priority: int, now: int, k: Key)
    ensures var t := DeliverAll(s, users, id, priority, now);
            && (k in s.deferred ==> k in t.deferred) && (k in t.deferred ==> k in s.deferred || k.message == id)
            && t.messages == s.messages && t.notified[k] >= s.notified[k] && t.dropped == s.dropped && t.accepted[k] >= s.accepted[k]
  {
    hide DeliveryOutcome, Settle;
    if users == [] {
    } else {
      var front, u := users[..|users| - 1], users[|users| - 1];
      var before := DeliverAll(s, front, id, priority, now);
      DeliveriesKeepDeferred(s, front, id, priority, now, k);
      SettleKeepsDeferred(before, Key(u, id), DeliveryOutcome(Lookup(before.digests, u), Lookup(before.quiets, u), priority, now), priority, k);
    }
  }

  lemma SummaryKeepsDeferred(s: State, user: nat, now: int, k: Key)
    ensures MovesOn(s, DigestUser(s, user, now), k) && (k in s.deferred ==> k in DigestUser(s, user, now).deferred)
  {
    if Due(s, user, now) && ItemsOf(s, user) != [] {
      var runKey, items := s.digests[user].nextRun.value, ItemsOf(s, user);
      var stored := StoreSummary(s, user, runKey, items);
      SettleKeepsDeferred(stored, Key(user, s.nextId), QuietOutcome(Lookup(stored.quiets, user), Highest(items), now), Highest(items), k);
    }
    hide ItemsOf, Without, Keys, Highest, QuietOutcome, Settle;
  }

  /** Notifications and deletions are not taken back, and what is deferred is of stored messages if it was so before. */
  ghost predicate MovesOn(s: State, t: State, k: Key) {
    && t.notified[k] >= s.notified[k] && t.dropped[k] >= s.dropped[k] && t.accepted[k] >= s.accepted[k]
    && ((k in s.deferred ==> k.message in s.messages) ==> k in t.deferred ==> k.message in t.messages)
  }

  lemma ReleaseMovesOn(s: State, key: Key, now: int, k: Key)
    ensures MovesOn(s, ReleaseOne(s, key, now), k)
    ensures k in s.deferred && (k != key || InQuietHours(s, key.user, now)) ==> k in ReleaseOne(s, key, now).deferred
    ensures k == key && k.message in s.messages && !InQuietHours(s, key.user, now) ==> ReleaseOne(s, key, now).notified[k] > 0
  {
    hide InQuietHours, Without;
    WithoutMembers(s.deferred, (x: Key) => x == key);
  }

  lemma DeleteMovesOn(s: State, ids: set<nat>, k: Key)
    ensures MovesOn(s, DeleteMessages(s, ids), k)
    ensures k in s.deferred && k.message !in ids ==> k in DeleteMessages(s, ids).deferred
    ensures k in s.deferred && k.message in ids ==> DeleteMessages(s, ids).dropped[k] > 0
  {
    WithoutMembers(s.deferred, (x: Key) => x.message in ids);
    WithoutMembers(s.deferred, (x: Key) => x.message !in ids);
    var gone := Without(s.deferred, (x: Key) => x.message !in ids);
    assert k in gone <==> multiset(gone)[k] > 0;
    hide Keys, Without;
  }

  /** No step takes back a notification or a deletion, and what is deferred stays of stored messages. */
  lemma StepMovesOn(s: State, a: Action, k: Key)
    requires Sound(s) && DeliveryRuns.Enabled(s, a)
    ensures MovesOn(s, DeliveryRuns.Apply(s, a), k)
    ensures k in s.deferred && !Releases(s, a, k) && !DeletesMessage(a, k) ==> k in DeliveryRuns.Apply(s, a).deferred
  {
    hide Recipients, DeliverAll, DigestUser, ReleaseOne, DeleteMessages, Keys, Inv, QuietNow, ItemsOf, Without;
    match a
    case Post(receivers, mentions, members, sender, priority, now) =>
      DeliveriesKeepDeferred(Store(s.(clock := now)), Recipients(receivers, mentions, members, sender), s.nextId, priority, now, k);
    case SendDigest(user, now) => SummaryKeepsDeferred(s, user, now, k);
    case Release(key, now) => ReleaseMovesOn(s, key, now, k);
    case Delete(ids) => DeleteMovesOn(s, ids, k);
    case _ =>
  }

  lemma StepIsSound(s: State, a: Action)
    requires Sound(s) && DeliveryRuns.Enabled(s, a)
    ensures Sound(DeliveryRuns.Apply(s, a))
  {
    StepKeepsInv(s, a);
    hide Inv, DeliveryRuns.Apply, DeliveryRuns.Enabled;
    forall k | k in DeliveryRuns.Apply(s, a).deferred ensures k.message in DeliveryRuns.Apply(s, a).messages { StepMovesOn(s, a, k); }
  }

  lemma {:induction false} RunIsSound(trace: seq<State>, actions: seq<Action>, n: nat)
    requires IsRunOf(trace, actions) && n <= |actions|
    ensures Sound(trace[n])
  {
    hide Inv, DeliveryRuns.Apply, DeliveryRuns.Enabled;
    if n == 0 {
      EmptyInv(trace[0].clock);
    } else {
      RunIsSound(trace, actions, n - 1);
      hide Sound;
      assert Acts(trace, actions, n - 1);
      StepIsSound(trace[n - 1], actions[n - 1]);
    }
  }

  /** A copy is in one place, so one that is deferred is nowhere else. */
  lemma OnePlace(s: State, k: Key)
    requires Inv(s)
    ensures k in s.deferred ==> s.notified[k] == 0 && s.dropped[k] == 0 && s.accepted[k] == 1
    ensures s.notified[k] > 0 ==> k !in s.deferred && s.notified[k] == 1 && s.dropped[k] == 0
    ensures s.dropped[k] > 0 ==> k !in s.deferred && s.notified[k] == 0 && s.dropped[k] == 1
  {
    assert Tally(s, k) == s.accepted[k] <= 1;
    assert k in s.deferred <==> multiset(s.deferred)[k] > 0;
    hide Keys;
  }

  lemma ReleaseHandsOver(s: State, a: Action, k: Key)
    requires Sound(s) && DeliveryRuns.Enabled(s, a) && k in s.deferred
    ensures Releases(s, a, k) ==> DeliveryRuns.Apply(s, a).notified[k] > 0
    ensures DeletesMessage(a, k) ==> DeliveryRuns.Apply(s, a).dropped[k] > 0
  {
    hide Inv, QuietNow, ReleaseOne, DeleteMessages, DeliverAll, DigestUser, Recipients, SaveDigest;
    if a.Delete? { DeleteMovesOn(s, a.ids, k); }
    if a.Release? { ReleaseMovesOn(s, a.key, a.now, k); }
  }

  /** Nothing has happened to the entry between i and n. */
  ghost predicate Waits(trace: seq<State>, actions: seq<Action>, i: nat, n: nat, k: Key)
    requires i <= n <= |actions| < |trace|
  {
    forall m :: i <= m < n ==> !Releases(trace[m], actions[m], k) && !DeletesMessage(actions[m], k)
  }

  lemma {:induction false} WaitsInQuietHours(trace: seq<State>, actions: seq<Action>, i: nat, n: nat, k: Key)
    requires IsRunOf(trace, actions) && i <= n <= |actions| && k in trace[i].deferred && Waits(trace, actions, i, n, k)
    ensures k in trace[n].deferred
  {
    hide DeliveryRuns.Apply, DeliveryRuns.Enabled, Releases, DeletesMessage, Sound;
    if n == i {
    } else {
      WaitsInQuietHours(trace, actions, i, n - 1, k);
      RunIsSound(trace, actions, n - 1);
      assert Acts(trace, actions, n - 1);
      StepMovesOn(trace[n - 1], actions[n - 1], k);
    }
  }

  lemma {:induction false} NothingIsTakenBack(trace: seq<State>, actions: seq<Action>, i: nat, n: nat, k: Key)
    requires IsRunOf(trace, actions) && i <= n <= |actions|
    ensures trace[n].notified[k] >= trace[i].notified[k] && trace[n].dropped[k] >= trace[i].dropped[k]
  {
    hide DeliveryRuns.Apply, DeliveryRuns.Enabled, Sound;
    if n == i {
    } else {
      NothingIsTakenBack(trace, actions, i, n - 1, k);
      RunIsSound(trace, actions, n - 1);
      assert Acts(trace, actions, n - 1);
      StepMovesOn(trace[n - 1], actions[n - 1], k);
    }
  }

  /**
   * The fate of a deferred copy, over every run: it waits until a deferred pass comes outside its user's quiet hours, and
   * is then notified once and for all; if its message is deleted before, it is never notified.
   */
  lemma DeferredIsNotifiedOnce(trace: seq<State>, actions: seq<Action>, i: nat, m: nat, n: nat, k: Key)
    requires IsRunOf(trace, actions) && i <= m <= n <= |actions| && k in trace[i].deferred && Waits(trace, actions, i, m, k)
    ensures k in trace[m].deferred && trace[m].notified[k] == 0
    ensures m < n && Releases(trace[m], actions[m], k) ==> trace[n].notified[k] == 1 && k !in trace[n].deferred
    ensures m < n && DeletesMessage(actions[m], k) ==> trace[n].notified[k] == 0 && k !in trace[n].deferred
  {
    WaitsInQuietHours(trace, actions, i, m, k);
    RunIsSound(trace, actions, m);
    RunIsSound(trace, actions, n);
    OnePlace(trace[m], k);
    OnePlace(trace[n], k);
    hide Inv, DeliveryRuns.Apply, DeliveryRuns.Enabled, Releases, DeletesMessage;
    if m < n {
      assert Acts(trace, actions, m);
      ReleaseHandsOver(trace[m], actions[m], k);
      NothingIsTakenBack(trace, actions, m + 1, n, k);
    }
  }

  // ---------------------------------------------------------------------------------------------
  // Deleted messages

  /** Everything that waits, and every stored summary, is of a message that is there, and those are old. */
  ghost predicate RowsAreStored(s: State) {
    && (forall m :: m in s.messages ==> m < s.nextId)
    && (forall i :: i in s.digest ==> i.key.message in s.messages)
    && (forall k :: k in s.deferred ==> k.message in s.messages)
    && (forall r :: r in s.runKeys ==> s.runKeys[r] in s.messages)
  }

  lemma SettleStored(s: State, k: Key, outcome: Outcome, priority: int)
    requires RowsAreStored(s) && k.message in s.messages
    ensures RowsAreStored(Settle(s, k, outcome, priority)) && Settle(s, k, outcome, priority).messages == s.messages
  {
    hide Keys;
  }

  lemma {:induction false} DeliveriesStored(s: State, users: seq<nat>, id: nat, priority: int, now: int)
    requires RowsAreStored(s) && id in s.messages
    ensures RowsAreStored(DeliverAll(s, users, id, priority, now)) && DeliverAll(s, users, id, priority, now).messages == s.messages
  {
    hide RowsAreStored, Settle, DeliveryOutcome;
    if users == [] {
    } else {
      var front, u := users[..|users| - 1], users[|users| - 1];
      var before := DeliverAll(s, front, id, priority, now);
      DeliveriesStored(s, front, id, priority, now);
      SettleStored(before, Key(u, id), DeliveryOutcome(Lookup(before.digests, u), Lookup(before.quiets, u), priority, now), priority);
    }
  }

  lemma ClearStored(s: State, user: nat)
    requires RowsAreStored(s)
    ensures RowsAreStored(ClearDigest(s, user))
  {
    WithoutMembers(s.digest, (i: Item) => i.key.user == user);
    hide Without;
  }

  lemma NewRunStored(s: State, user: nat, runKey: int, items: seq<Item>)
    requires RowsAreStored(s) && (user, runKey) !in s.runKeys
    ensures RowsAreStored(StoreSummary(s, user, runKey, items)) && s.nextId in StoreSummary(s, user, runKey, items).messages
  {
    hide Keys;
  }

  /** Some columns play no part. */
  lemma SameRowsStored(s: State, t: State)
    requires RowsAreStored(s) && t == s.(dropped := t.dropped, digests := t.digests, quiets := t.quiets, clock := t.clock)
    ensures RowsAreStored(t)
  {
  }

  lemma SummariseStored(s: State, user: nat, runKey: int, now: int)
    requires RowsAreStored(s)
    ensures RowsAreStored(Summarise(s, user, runKey, now))
  {
    hide RowsAreStored, ItemsOf, Keys, Highest, QuietOutcome, Settle, ClearDigest;
    var items := ItemsOf(s, user);
    var stored := StoreSummary(s, user, runKey, items);
    if (user, runKey) in s.runKeys {
      ClearStored(stored, user);
      SameRowsStored(ClearDigest(stored, user), Summarise(s, user, runKey, now));
    } else {
      NewRunStored(s, user, runKey, items);
      hide StoreSummary;
      SettleStored(stored, Key(user, s.nextId), QuietOutcome(Lookup(stored.quiets, user), Highest(items), now), Highest(items));
      ClearStored(Announce(stored, user, s.nextId, items, now), user);
    }
  }

  lemma SummaryStored(s: State, user: nat, now: int)
    requires RowsAreStored(s)
    ensures RowsAreStored(DigestUser(s, user, now))
  {
    hide RowsAreStored, ItemsOf, Summarise;
    if Due(s, user, now) {
      var runKey := s.digests[user].nextRun.value;
      SummariseStored(s, user, runKey, now);
      SameRowsStored(if ItemsOf(s, user) == [] then s else Summarise(s, user, runKey, now), DigestUser(s, user, now));
    }
  }

  /** What a deletion takes and what it leaves. */
  lemma DeletionIsExact(s: State, ids: set<nat>)
    requires RowsAreStored(s)
    ensures var t := DeleteMessages(s, ids);
            && RowsAreStored(t)
            && (forall m :: m in t.messages <==> m in s.messages && m !in ids)
            && (forall i :: i in t.digest <==> i in s.digest && i.key.message in t.messages)
            && (forall k :: k in t.deferred <==> k in s.deferred && k.message in t.messages)
            && (forall r :: r in t.runKeys <==> r in s.runKeys && s.runKeys[r] in t.messages)
            && (forall r :: r in t.runKeys ==> t.runKeys[r] == s.runKeys[r])
            && t.nextId == s.nextId && t.notified == s.notified
  {
    WithoutMembers(s.digest, (i: Item) => i.key.message in ids);
    WithoutMembers(s.deferred, (k: Key) => k.message in ids);
    hide Without, Keys;
  }

  lemma PostStored(s: State, users: seq<nat>, priority: int, now: int)
    requires RowsAreStored(s)
    ensures RowsAreStored(DeliverAll(Store(s.(clock := now)), users, s.nextId, priority, now))
  {
    hide DeliverAll;
    DeliveriesStored(Store(s.(clock := now)), users, s.nextId, priority, now);
  }

  lemma ReleaseStored(s: State, key: Key, now: int)
    requires RowsAreStored(s)
    ensures RowsAreStored(ReleaseOne(s, key, now))
  {
    WithoutMembers(s.deferred, (x: Key) => x == key);
    hide Keys, QuietNow, Without;
  }

  lemma ConfigurationStored(s: State, user: nat, enabled: bool, interval: int, immediatePriority: int, now: int)
    requires RowsAreStored(s)
    ensures RowsAreStored(SaveDigest(s, user, enabled, interval, immediatePriority, now))
  {
    WithoutMembers(s.digest, (i: Item) => i.key.user == user);
    hide Without, Keys;
  }

  lemma StepStored(s: State, a: Action)
    requires RowsAreStored(s) && DeliveryRuns.Enabled(s, a)
    ensures RowsAreStored(DeliveryRuns.Apply(s, a))
  {
    hide RowsAreStored, Recipients, DeliverAll, DigestUser, DeleteMessages, ReleaseOne, SaveDigest;
    var t := DeliveryRuns.Apply(s, a);
    match a
    case Post(receivers, mentions, members, sender, priority, now) =>
      PostStored(s, Recipients(receivers, mentions, members, sender), priority, now);
    case SendDigest(user, now) =>
      SummaryStored(s, user, now);
      SameRowsStored(DigestUser(s, user, now), t);
    case Release(key, now) =>
      ReleaseStored(s, key, now);
      SameRowsStored(ReleaseOne(s, key, now), t);
    case Delete(ids) => DeletionIsExact(s, ids);
    case ConfigureDigest(user, enabled, interval, immediatePriority, now) =>
      ConfigurationStored(s, user, enabled, interval, immediatePriority, now);
      SameRowsStored(SaveDigest(s, user, enabled, interval, immediatePriority, now), t);
    case ConfigureQuiet(_, _) => SameRowsStored(s, t);
  }

  lemma SettleNext(s: State, key: Key, outcome: Outcome, priority: int)
    ensures Settle(s, key, outcome, priority).nextId == s.nextId
    ensures forall k: Key :: k != key ==> Settle(s, key, outcome, priority).notified[k] == s.notified[k]
  {
    hide Queue, QueueKey;
  }

  lemma {:induction false} DeliveriesNext(s: State, users: seq<nat>, id: nat, priority: int, now: int)
    ensures DeliverAll(s, users, id, priority, now).nextId == s.nextId
    ensures forall k: Key :: k.message != id ==> DeliverAll(s, users, id, priority, now).notified[k] == s.notified[k]
  {
    hide DeliveryOutcome, Settle;
    if users == [] {
    } else {
      var front, u := users[..|users| - 1], users[|users| - 1];
      var before := DeliverAll(s, front, id, priority, now);
      DeliveriesNext(s, front, id, priority, now);
      SettleNext(before, Key(u, id), DeliveryOutcome(Lookup(before.digests, u), Lookup(before.quiets, u), priority, now), priority);
    }
  }

  lemma SummariseNext(s: State, user: nat, runKey: int, now: int)
    ensures var t := Summarise(s, user, runKey, now);
            && t.nextId >= s.nextId && (forall m :: m in t.messages ==> m in s.messages || m == s.nextId)
            && forall k: Key :: k.message != s.nextId ==> t.notified[k] == s.notified[k]
  {
    hide Settle, ItemsOf, Without, Keys, Highest, QuietOutcome;
    var items := ItemsOf(s, user);
    var stored := StoreSummary(s, user, runKey, items);
    var outcome := QuietOutcome(Lookup(stored.quiets, user), Highest(items), now);
    SettleNext(stored, Key(user, s.nextId), outcome, Highest(items));
    SettleMessages(stored, Key(user, s.nextId), outcome, Highest(items));
  }

  lemma SettleMessages(s: State, k: Key, outcome: Outcome, priority: int)
    ensures Settle(s, k, outcome, priority).messages == s.messages
  {
    hide Queue, QueueKey;
  }

  lemma SummaryNext(s: State, user: nat, now: int)
    ensures var t := DigestUser(s, user, now);
            && t.nextId >= s.nextId && (forall m :: m in t.messages ==> m in s.messages || m == s.nextId)
            && forall k: Key :: k.message != s.nextId ==> t.notified[k] == s.notified[k]
  {
    hide ItemsOf, Summarise;
    if Due(s, user, now) { SummariseNext(s, user, s.digests[user].nextRun.value, now); }
  }

  /** A message that is not there, and is not new, does not come back, and nobody is notified of it. */
  lemma StepStaysSilent(s: State, a: Action, id: nat)
    requires RowsAreStored(s) && DeliveryRuns.Enabled(s, a) && id !in s.messages && id < s.nextId
    ensures var t := DeliveryRuns.Apply(s, a);
            id !in t.messages && id < t.nextId && forall u :: t.notified[Key(u, id)] == s.notified[Key(u, id)]
  {
    hide Recipients, DeliverAll, DigestUser, Keys, QuietNow, ItemsOf, Without;
    match a
    case Post(receivers, mentions, members, sender, priority, now) =>
      DeliveriesStored(Store(s.(clock := now)), Recipients(receivers, mentions, members, sender), s.nextId, priority, now);
      DeliveriesNext(Store(s.(clock := now)), Recipients(receivers, mentions, members, sender), s.nextId, priority, now);
    case SendDigest(user, now) => SummaryNext(s, user, now);
    case _ =>
  }

  lemma {:induction false} RunIsStored(trace: seq<State>, actions: seq<Action>, n: nat)
    requires IsRunOf(trace, actions) && n <= |actions|
    ensures RowsAreStored(trace[n])
  {
    hide DeliveryRuns.Apply, DeliveryRuns.Enabled;
    if n == 0 {
    } else {
      RunIsStored(trace, actions, n - 1);
      hide RowsAreStored;
      assert Acts(trace, actions, n - 1);
      StepStored(trace[n - 1], actions[n - 1]);
    }
  }

  ghost predicate Silent(s: State, t: State, id: nat) {
    id !in t.messages && id < t.nextId && forall u :: t.notified[Key(u, id)] == s.notified[Key(u, id)]
  }

  lemma {:induction false} RunStaysSilent(trace: seq<State>, actions: seq<Action>, i: nat, n: nat, id: nat)
    requires IsRunOf(trace, actions) && i < n <= |actions| && actions[i].Delete? && id in actions[i].ids && id < trace[i].nextId
    ensures Silent(trace[i], trace[n], id)
  {
    hide DeliveryRuns.Apply, DeliveryRuns.Enabled, RowsAreStored;
    RunIsStored(trace, actions, n - 1);
    assert Acts(trace, actions, n - 1);
    if n == i + 1 {
      DeletionSilences(trace[i], actions[i], id);
    } else {
      RunStaysSilent(trace, actions, i, n - 1, id);
      StepStaysSilent(trace[n - 1], actions[n - 1], id);
    }
  }

  lemma DeletionSilences(s: State, a: Action, id: nat)
    requires RowsAreStored(s) && a.Delete? && id in a.ids && id < s.nextId && DeliveryRuns.Enabled(s, a)
    ensures Silent(s, DeliveryRuns.Apply(s, a), id)
  {
    DeletionIsExact(s, a.ids);
    hide DeleteMessages, RowsAreStored;
  }

  /** Over every run: once a message is deleted it is not there again, nothing waits for it, and nobody is notified of it. */
  lemma DeletedStaysSilent(trace: seq<State>, actions: seq<Action>, i: nat, n: nat, id: nat, u: nat)
    requires IsRunOf(trace, actions) && i < n <= |actions| && actions[i].Delete? && id in actions[i].ids && id < trace[i].nextId
    ensures id !in trace[n].messages && id < trace[n].nextId && trace[n].notified[Key(u, id)] == trace[i].notified[Key(u, id)]
    ensures Key(u, id) !in trace[n].deferred && forall x :: x in trace[n].digest ==> x.key != Key(u, id)
  {
    RunIsStored(trace, actions, n);
    RunStaysSilent(trace, actions, i, n, id);
    hide IsRunOf;
  }
}
