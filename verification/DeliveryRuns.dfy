/** Over every run, each copy of a message is accounted for exactly once. */
module DeliveryRuns {
  import opened Delivery
  import opened Lists

  /** In how many places a copy is: handed over, waiting, in a summary, suppressed or dropped. */
  function Tally(s: State, k: Key): nat {
    s.notified[k] + multiset(Keys(s.digest))[k] + s.summarised[k] + multiset(s.deferred)[k] + s.suppressed[k] + s.dropped[k]
  }

  ghost predicate Accounted(s: State) {
    forall k :: Tally(s, k) == s.accepted[k] <= 1 && (s.accepted[k] > 0 ==> k.message < s.nextId)
  }

  /** Every stored summary is older than its user's next run. */
  ghost predicate RunKeysPast(s: State) {
    forall r :: r in s.runKeys ==>
      r.1 <= s.clock && (r.0 in s.digests && s.digests[r.0].nextRun.Some? ==> r.1 < s.digests[r.0].nextRun.value)
  }

  ghost predicate Inv(s: State) { Accounted(s) && RunKeysPast(s) }

  // ---------------------------------------------------------------------------------------------
  // Tables

  lemma {:induction false} KeysAppend(items: seq<Item>, i: Item)
    ensures Keys(items + [i]) == Keys(items) + [i.key]
  {
    if items == [] {
      assert [] + [i] == [i] && [i][1..] == [];
    } else {
      KeysAppend(items[1..], i);
      assert (items + [i])[1..] == items[1..] + [i];
    }
  }

  /** What a deletion keeps and what it takes make up what was there. */
  lemma {:induction false} KeysSplit(items: seq<Item>, drop: Item -> bool, keep: Item -> bool, k: Key)
    requires forall i :: keep(i) <==> !drop(i)
    ensures multiset(Keys(items))[k] == multiset(Keys(Without(items, drop)))[k] + multiset(Keys(Without(items, keep)))[k]
  {
    if items == [] {
    } else {
      hide Without;
      var i, rest := items[0], items[1..];
      KeysSplit(rest, drop, keep, k);
      KeysCons(i, rest);
      KeysCons(i, Without(rest, if drop(i) then keep else drop));
      WithoutCons(items, drop);
      WithoutCons(items, keep);
      assert items == [i] + rest;
      hide Keys;
    }
  }

  lemma KeysCons(i: Item, rest: seq<Item>)
    ensures Keys([i] + rest) == [i.key] + Keys(rest)
    ensures forall k :: multiset(Keys([i] + rest))[k] == (if k == i.key then 1 else 0) + multiset(Keys(rest))[k]
  {
    assert ([i] + rest)[1..] == rest;
  }

  // ---------------------------------------------------------------------------------------------
  // Deliveries

  /** A copy that is taken on for the first time goes to the one place its outcome names, and no other copy moves. */
  lemma SettleParts(s: State, k: Key, outcome: Outcome, priority: int, x: Key)
    requires Tally(s, k) == 0
    ensures var t := Settle(s, k, outcome, priority);
            && t.notified[x] == s.notified[x] + (if x == k && outcome == Notify then 1 else 0)
            && multiset(Keys(t.digest))[x] == multiset(Keys(s.digest))[x] + (if x == k && outcome == Digest then 1 else 0)
            && multiset(t.deferred)[x] == multiset(s.deferred)[x] + (if x == k && outcome == Defer then 1 else 0)
            && t.suppressed[x] == s.suppressed[x] + (if x == k && outcome == Suppress then 1 else 0)
            && t.summarised == s.summarised && t.dropped == s.dropped
            && t.accepted[x] == s.accepted[x] + (if x == k then 1 else 0)
  {
    if outcome == Digest {
      KeysAppend(s.digest, Item(k, priority));
    }
    hide Keys;
  }

  lemma SettleTally(s: State, k: Key, outcome: Outcome, priority: int, x: Key)
    requires Tally(s, k) == 0
    ensures var t := Settle(s, k, outcome, priority);
            && Tally(t, x) == Tally(s, x) + (if x == k then 1 else 0)
            && t.accepted[x] == s.accepted[x] + (if x == k then 1 else 0)
  {
    SettleParts(s, k, outcome, priority, x);
    hide Settle, Keys;
  }

  lemma SettleAccounted(s: State, k: Key, outcome: Outcome, priority: int)
    requires Accounted(s) && s.accepted[k] == 0 && k.message < s.nextId
    ensures Accounted(Settle(s, k, outcome, priority))
    ensures forall x :: Settle(s, k, outcome, priority).accepted[x] == s.accepted[x] + (if x == k then 1 else 0)
  {
    assert Tally(s, k) == 0;
    var t := Settle(s, k, outcome, priority);
    forall x ensures Tally(t, x) == t.accepted[x] <= 1 && t.accepted[x] == s.accepted[x] + (if x == k then 1 else 0) {
      assert Tally(s, x) == s.accepted[x] <= 1;
      SettleTally(s, k, outcome, priority, x);
      hide Tally, Settle;
    }
    assert t.nextId == s.nextId;
    hide Tally, Settle;
  }

  /** Delivering a new message to distinct recipients accounts for each of them once, and touches nobody else. */
  lemma {:induction false} DeliverAllAccounted(s: State, users: seq<nat>, id: nat, priority: int, now: int)
    requires Accounted(s) && Distinct(users) && id < s.nextId && forall u :: s.accepted[Key(u, id)] == 0
    ensures var t := DeliverAll(s, users, id, priority, now);
            && Accounted(t) && t.nextId == s.nextId && t.runKeys == s.runKeys && t.digests == s.digests && t.clock == s.clock
            && forall x: Key :: t.accepted[x] == s.accepted[x] + (if x.message == id && x.user in users then 1 else 0)
  {
    hide Accounted, DeliveryOutcome, Settle;
    if users == [] {
    } else {
      var n: nat := |users| - 1;
      var front, u := users[..n], users[n];
      var before := DeliverAll(s, front, id, priority, now);
      assert users == front + [u] && Distinct(front) && u !in front;
      DeliverAllAccounted(s, front, id, priority, now);
      var outcome := DeliveryOutcome(Lookup(before.digests, u), Lookup(before.quiets, u), priority, now);
      SettleAccounted(before, Key(u, id), outcome, priority);
      SettleFrame(before, Key(u, id), outcome, priority);
    }
  }

  /** Where each recipient's copy of a new message is: in the place that the recipient's policies name, and nowhere else. */
  lemma {:induction false} DeliverAllPlaces(s: State, users: seq<nat>, id: nat, priority: int, now: int, u: nat)
    requires Accounted(s) && Distinct(users) && id < s.nextId && forall v :: s.accepted[Key(v, id)] == 0
    ensures var t := DeliverAll(s, users, id, priority, now);
            var k, outcome := Key(u, id), DeliveryOutcome(Lookup(s.digests, u), Lookup(s.quiets, u), priority, now);
            && t.digests == s.digests && t.quiets == s.quiets
            && t.notified[k] == (if u in users && outcome == Notify then 1 else 0)
            && multiset(Keys(t.digest))[k] == (if u in users && outcome == Digest then 1 else 0)
            && multiset(t.deferred)[k] == (if u in users && outcome == Defer then 1 else 0)
            && t.suppressed[k] == (if u in users && outcome == Suppress then 1 else 0)
  {
    hide DeliveryOutcome, Settle, Keys;
    if users == [] {
      assert Tally(s, Key(u, id)) == 0;
    } else {
      var n: nat := |users| - 1;
      var front, last := users[..n], users[n];
      assert users == front + [last] && Distinct(front) && last !in front;
      DeliverAllPlaces(s, front, id, priority, now, u);
      DeliverAllPlaces(s, front, id, priority, now, last);
      DeliverAllAccounted(s, front, id, priority, now);
      var before := DeliverAll(s, front, id, priority, now);
      assert Tally(before, Key(last, id)) == 0;
      hide Accounted;
      var outcome := DeliveryOutcome(Lookup(before.digests, last), Lookup(before.quiets, last), priority, now);
      SettleParts(before, Key(last, id), outcome, priority, Key(u, id));
      SettlePolicies(before, Key(last, id), outcome, priority);
    }
  }

  lemma SettlePolicies(s: State, k: Key, outcome: Outcome, priority: int)
    ensures Settle(s, k, outcome, priority).quiets == s.quiets && Settle(s, k, outcome, priority).digests == s.digests
  {
    hide Queue, QueueKey;
  }

  lemma SettleFrame(s: State, k: Key, outcome: Outcome, priority: int)
    ensures var t := Settle(s, k, outcome, priority);
            t.nextId == s.nextId && t.runKeys == s.runKeys && t.digests == s.digests && t.clock == s.clock && t.messages == s.messages
  {
    hide Queue, QueueKey;
  }

  // ---------------------------------------------------------------------------------------------
  // Scheduler passes and deletions

  /** A step that moves copies about without taking any on keeps the account. */
  lemma MovesKeepAccount(s: State, t: State)
    requires Accounted(s) && s.accepted == t.accepted && s.nextId <= t.nextId && forall k :: Tally(t, k) == Tally(s, k)
    ensures Accounted(t)
  {
    hide Tally;
  }

  /** Emptying a user's digest into the summaries or the dropped copies. */
  lemma EmptiedTally(s: State, user: nat, k: Key)
    ensures multiset(Keys(s.digest))[k] ==
            multiset(Keys(Without(s.digest, (i: Item) => i.key.user == user)))[k] + multiset(Keys(ItemsOf(s, user)))[k]
  {
    KeysSplit(s.digest, (i: Item) => i.key.user == user, (i: Item) => i.key.user != user, k);
  }

  /** The state in which the summary's own delivery starts. */
  function Stored(s: State, user: nat, runKey: int): State {
    Store(s.(digest := Without(s.digest, (i: Item) => i.key.user == user),
             summarised := s.summarised + multiset(Keys(ItemsOf(s, user))), runKeys := s.runKeys[(user, runKey) := s.nextId]))
  }

  lemma StoredAccounted(s: State, user: nat, runKey: int)
    requires Accounted(s)
    ensures Accounted(Stored(s, user, runKey)) && Stored(s, user, runKey).accepted[Key(user, s.nextId)] == 0
  {
    var t := Stored(s, user, runKey);
    hide Keys, Without, ItemsOf;
    forall k ensures Tally(t, k) == Tally(s, k) { EmptiedTally(s, user, k); }
    assert t.accepted == s.accepted && t.nextId == s.nextId + 1;
    MovesKeepAccount(s, t);
  }

  /** Deleting the items after the summary is delivered or before comes to the same: the summary is in no digest. */
  lemma ClearCommutes(s: State, user: nat, runKey: int, outcome: Outcome, highest: int)
    requires outcome != Digest
    ensures var before := Store(s.(summarised := s.summarised + multiset(Keys(ItemsOf(s, user))), runKeys := s.runKeys[(user, runKey) := s.nextId]));
            ClearDigest(Settle(before, Key(user, s.nextId), outcome, highest), user)
            == Settle(Stored(s, user, runKey), Key(user, s.nextId), outcome, highest)
  {
    hide Keys, ItemsOf, Without, QueueKey;
  }

  lemma SummariseAccounted(s: State, user: nat, runKey: int, now: int)
    requires Accounted(s)
    ensures var t := Summarise(s, user, runKey, now);
            Accounted(t) && t.digests == s.digests && t.clock == s.clock && s.nextId <= t.nextId
            && t.runKeys == (if (user, runKey) in s.runKeys then s.runKeys else s.runKeys[(user, runKey) := s.nextId])
  {
    hide Highest, QuietOutcome, Keys, Without, ItemsOf, Accounted;
    var t := Summarise(s, user, runKey, now);
    if (user, runKey) in s.runKeys {
      forall k ensures Tally(t, k) == Tally(s, k) { EmptiedTally(s, user, k); }
      MovesKeepAccount(s, t);
    } else {
      StoredAccounted(s, user, runKey);
      var highest := Highest(ItemsOf(s, user));
      var outcome := QuietOutcome(Lookup(s.quiets, user), highest, now);
      ClearCommutes(s, user, runKey, outcome, highest);
      hide Settle, StoreSummary, Store;
      SettleAccounted(Stored(s, user, runKey), Key(user, s.nextId), outcome, highest);
      SettleFrame(Stored(s, user, runKey), Key(user, s.nextId), outcome, highest);
    }
  }

  lemma DigestUserKeeps(s: State, user: nat, now: int)
    requires Inv(s) && Due(s, user, now) && s.clock <= now
    ensures Inv(DigestUser(s, user, now).(clock := now))
  {
    hide Summarise, ItemsOf, Accounted, Keys;
    var runKey := s.digests[user].nextRun.value;
    SummariseAccounted(s, user, runKey, now);
    var m := if ItemsOf(s, user) == [] then s else Summarise(s, user, runKey, now);
    var t := DigestUser(s, user, now).(clock := now);
    assert forall k :: Tally(t, k) == Tally(m, k);
    MovesKeepAccount(m, t);
  }

  lemma ReleaseTally(s: State, k: Key, now: int, x: Key)
    requires multiset(s.deferred)[k] == 1
    ensures Tally(ReleaseOne(s, k, now), x) == Tally(s, x)
  {
    hide Keys, Without, InQuietHours;
    WithoutSplits(s.deferred, (y: Key) => y == k, x);
  }

  lemma ReleaseFrame(s: State, k: Key, now: int)
    ensures var t := ReleaseOne(s, k, now);
            t.accepted == s.accepted && t.nextId == s.nextId && t.runKeys == s.runKeys && t.digests == s.digests
  {
    hide InQuietHours, Without;
  }

  lemma DeferredOnce(s: State, k: Key)
    requires Accounted(s) && k in s.deferred
    ensures multiset(s.deferred)[k] == 1
  {
    hide Keys;
    assert Tally(s, k) <= 1;
    assert k in multiset(s.deferred);
  }

  /** The clock is not part of the account. */
  lemma ClockTally(s: State, now: int, k: Key)
    ensures Tally(s.(clock := now), k) == Tally(s, k)
  {
  }

  lemma ReleaseKeeps(s: State, k: Key, now: int)
    requires Inv(s) && k in s.deferred && s.clock <= now
    ensures Inv(ReleaseOne(s, k, now).(clock := now))
  {
    hide Accounted, ReleaseOne, Tally;
    DeferredOnce(s, k);
    ReleaseFrame(s, k, now);
    var u := ReleaseOne(s, k, now);
    var t := u.(clock := now);
    forall x ensures Tally(t, x) == Tally(s, x) {
      ReleaseTally(s, k, now, x);
      ClockTally(u, now, x);
    }
    MovesKeepAccount(s, t);
  }

  lemma DeleteTally(s: State, ids: set<nat>, k: Key)
    ensures Tally(DeleteMessages(s, ids), k) == Tally(s, k)
  {
    hide Keys, Without;
    KeysSplit(s.digest, (i: Item) => i.key.message in ids, (i: Item) => i.key.message !in ids, k);
    WithoutSplits(s.deferred, (x: Key) => x.message in ids, k);
    WithoutSplits(s.deferred, (x: Key) => x.message !in ids, k);
  }

  lemma DeleteKeeps(s: State, ids: set<nat>)
    requires Inv(s)
    ensures Inv(DeleteMessages(s, ids))
  {
    hide Accounted, Tally;
    var t := DeleteMessages(s, ids);
    forall k ensures Tally(t, k) == Tally(s, k) { DeleteTally(s, ids, k); }
    assert t.accepted == s.accepted && t.nextId == s.nextId;
    MovesKeepAccount(s, t);
    assert forall r :: r in t.runKeys ==> r in s.runKeys;
  }

  lemma SaveDigestKeeps(s: State, user: nat, enabled: bool, interval: int, immediatePriority: int, now: int)
    requires Inv(s) && s.clock <= now && interval >= 15
    ensures Inv(SaveDigest(s, user, enabled, interval, immediatePriority, now).(clock := now))
  {
    hide Keys, Without, Accounted, ItemsOf;
    var t := SaveDigest(s, user, enabled, interval, immediatePriority, now).(clock := now);
    forall k ensures Tally(t, k) == Tally(s, k) { EmptiedTally(s, user, k); }
    MovesKeepAccount(s, t);
  }

  // ---------------------------------------------------------------------------------------------
  // Runs

  datatype Action =
    | Post(receivers: seq<nat>, mentions: seq<nat>, members: set<nat>, sender: nat, priority: int, now: int)
    | SendDigest(user: nat, now: int)
    | Release(key: Key, now: int)
    | Delete(ids: set<nat>)
    | ConfigureDigest(user: nat, enabled: bool, interval: int, immediatePriority: int, now: int)
    | ConfigureQuiet(user: nat, policy: QuietPolicy)

  predicate Enabled(s: State, a: Action) {
    match a
    case Post(_, _, _, _, _, now) => s.clock <= now
    case SendDigest(user, now) => s.clock <= now && Due(s, user, now)
    case Release(key, now) => s.clock <= now && key in s.deferred
    case Delete(_) => true
    case ConfigureDigest(_, _, interval, _, now) => s.clock <= now && 15 <= interval <= 10080
    case ConfigureQuiet(_, _) => true
  }

  /** One step: a message with its deliveries, one user's digest, one deferred entry, a deletion or a change of policy. */
  function Apply(s: State, a: Action): State {
    match a
    case Post(receivers, mentions, members, sender, priority, now) =>
      DeliverAll(Store(s.(clock := now)), Recipients(receivers, mentions, members, sender), s.nextId, priority, now)
    case SendDigest(user, now) => DigestUser(s, user, now).(clock := now)
    case Release(key, now) => ReleaseOne(s, key, now).(clock := now)
    case Delete(ids) => DeleteMessages(s, ids)
    case ConfigureDigest(user, enabled, interval, immediatePriority, now) =>
      SaveDigest(s, user, enabled, interval, immediatePriority, now).(clock := now)
    case ConfigureQuiet(user, policy) => s.(quiets := s.quiets[user := policy])
  }

  function Empty(clock: int): State {
    State([], [], {}, 1, map[], map[], map[], clock, multiset{}, multiset{}, multiset{}, multiset{}, multiset{})
  }

  lemma EmptyInv(clock: int)
    ensures Inv(Empty(clock))
  {
  }

  /**
   * Posting a message takes on exactly one copy for each receiving member and each mentioned member, none for its
   * sender, and every one of those copies is in exactly one place.
   */
  lemma PostIsExact(s: State, a: Action)
    requires Inv(s) && a.Post? && Enabled(s, a)
    ensures Inv(Apply(s, a))
    ensures forall x: Key :: Apply(s, a).accepted[x] == s.accepted[x] +
              (if x.message == s.nextId && (a.sender == 0 || x.user != a.sender)
                  && (x.user in a.receivers || (a.sender != 0 && x.user in a.mentions && x.user in a.members)) then 1 else 0)
  {
    hide Recipients, Accounted;
    RecipientsAreExact(a.receivers, a.mentions, a.members, a.sender);
    var t := Store(s.(clock := a.now));
    StoreKeepsAccount(s, a.now);
    DeliverAllAccounted(t, Recipients(a.receivers, a.mentions, a.members, a.sender), s.nextId, a.priority, a.now);
    hide DeliverAll;
  }

  /** Each recipient's copy goes where the recipient's policies say. */
  lemma PostGoesWhereDue(s: State, a: Action, u: nat)
    requires Inv(s) && a.Post? && Enabled(s, a)
    ensures var t, k := Apply(s, a), Key(u, s.nextId);
            var reached := u in Recipients(a.receivers, a.mentions, a.members, a.sender);
            var outcome := DeliveryOutcome(Lookup(s.digests, u), Lookup(s.quiets, u), a.priority, a.now);
            && t.notified[k] == (if reached && outcome == Notify then 1 else 0)
            && multiset(Keys(t.digest))[k] == (if reached && outcome == Digest then 1 else 0)
            && multiset(t.deferred)[k] == (if reached && outcome == Defer then 1 else 0)
            && t.suppressed[k] == (if reached && outcome == Suppress then 1 else 0)
  {
    hide Recipients, Accounted, DeliveryOutcome, Keys;
    RecipientsAreExact(a.receivers, a.mentions, a.members, a.sender);
    StoreKeepsAccount(s, a.now);
    DeliverAllPlaces(Store(s.(clock := a.now)), Recipients(a.receivers, a.mentions, a.members, a.sender), s.nextId, a.priority, a.now, u);
    hide DeliverAll;
  }

  lemma StoreKeepsAccount(s: State, now: int)
    requires Accounted(s)
    ensures var t := Store(s.(clock := now));
            Accounted(t) && t.accepted == s.accepted && (forall u :: t.accepted[Key(u, s.nextId)] == 0)
            && t.runKeys == s.runKeys && t.digests == s.digests && t.quiets == s.quiets && t.clock == now && t.nextId == s.nextId + 1
  {
    var t := Store(s.(clock := now));
    assert forall k :: Tally(t, k) == Tally(s, k);
    hide Tally;
  }

  lemma QuietKeeps(s: State, user: nat, policy: QuietPolicy)
    requires Inv(s)
    ensures Inv(s.(quiets := s.quiets[user := policy]))
  {
    var t := s.(quiets := s.quiets[user := policy]);
    assert forall k :: Tally(t, k) == Tally(s, k);
    hide Tally;
  }

  lemma StepKeepsInv(s: State, a: Action)
    requires Inv(s) && Enabled(s, a)
    ensures Inv(Apply(s, a))
  {
    hide Inv, DeliverAll, DigestUser, ReleaseOne, DeleteMessages, SaveDigest;
    match a
    case Post(_, _, _, _, _, _) => PostIsExact(s, a);
    case SendDigest(user, now) => DigestUserKeeps(s, user, now);
    case Release(key, now) => ReleaseKeeps(s, key, now);
    case Delete(ids) => DeleteKeeps(s, ids);
    case ConfigureDigest(user, enabled, interval, immediatePriority, now) =>
      SaveDigestKeeps(s, user, enabled, interval, immediatePriority, now);
    case ConfigureQuiet(user, policy) => QuietKeeps(s, user, policy);
  }

  ghost predicate IsRun(trace: seq<State>) {
    && trace != [] && trace[0] == Empty(trace[0].clock)
    && forall i :: 0 <= i < |trace| - 1 ==> exists a :: Enabled(trace[i], a) && trace[i + 1] == Apply(trace[i], a)
  }

  lemma {:induction false} RunKeepsInv(trace: seq<State>, i: nat)
    requires IsRun(trace) && i < |trace|
    ensures Inv(trace[i])
  {
    hide Inv, Apply, Enabled;
    if i == 0 {
      EmptyInv(trace[0].clock);
    } else {
      RunKeepsInv(trace, i - 1);
      var a :| Enabled(trace[i - 1], a) && trace[i - 1 + 1] == Apply(trace[i - 1], a);
      StepKeepsInv(trace[i - 1], a);
    }
  }

  /**
   * At any point of any run a copy that was taken on is in exactly one place: handed to the notifier once, waiting for
   * a digest, in one summary, deferred, suppressed, or dropped by its user or with its message. Others are nowhere.
   */
  lemma EveryCopyIsAccountedFor(trace: seq<State>, i: nat, k: Key)
    requires IsRun(trace) && i < |trace|
    ensures var s := trace[i];
            s.notified[k] + multiset(Keys(s.digest))[k] + s.summarised[k] + multiset(s.deferred)[k] + s.suppressed[k] + s.dropped[k]
            == s.accepted[k] <= 1
  {
    RunKeepsInv(trace, i);
    assert Tally(trace[i], k) == trace[i].accepted[k];
    hide Keys;
  }

  /** With a pass as one step nothing is lost: each pass puts all waiting items of its user into one new summary. */
  lemma DigestsAreNeverLost(trace: seq<State>, i: nat, user: nat, now: int)
    requires IsRun(trace) && i < |trace| && Due(trace[i], user, now)
    ensures var s, t := trace[i], DigestUser(trace[i], user, now);
            && t.dropped == s.dropped
            && t.summarised == s.summarised + multiset(Keys(ItemsOf(s, user)))
            && forall k :: multiset(Keys(t.digest))[k] + multiset(Keys(ItemsOf(s, user)))[k] == multiset(Keys(s.digest))[k]
  {
    var s := trace[i];
    RunKeepsInv(trace, i);
    var runKey := s.digests[user].nextRun.value;
    assert (user, runKey) !in s.runKeys;
    hide Inv, IsRun;
    if ItemsOf(s, user) == [] {
      NothingOfUser(s, user);
    } else {
      SummaryMoves(s, user, runKey, now);
      forall k ensures multiset(Keys(s.digest))[k] == multiset(Keys(Without(s.digest, (x: Item) => x.key.user == user)))[k] + multiset(Keys(ItemsOf(s, user)))[k] {
        EmptiedTally(s, user, k);
      }
    }
    hide Summarise, ItemsOf, Keys, Without;
  }

  lemma NothingOfUser(s: State, user: nat)
    requires ItemsOf(s, user) == []
    ensures multiset(Keys(ItemsOf(s, user))) == multiset{}
  {
  }

  lemma SummaryMoves(s: State, user: nat, runKey: int, now: int)
    requires (user, runKey) !in s.runKeys
    ensures var t := Summarise(s, user, runKey, now);
            && t.dropped == s.dropped && t.summarised == s.summarised + multiset(Keys(ItemsOf(s, user)))
            && t.digest == Without(s.digest, (i: Item) => i.key.user == user)
  {
    hide Keys, ItemsOf, Without, Highest, Queue, QueueKey, Quieted;
  }

  lemma ReleaseOneCounts(s: State, x: Key, now: int, k: Key)
    ensures var t := ReleaseOne(s, x, now);
            && t.quiets == s.quiets && t.messages == s.messages
            && multiset(t.deferred)[k] == (if k == x && !InQuietHours(s, k.user, now) then 0 else multiset(s.deferred)[k])
            && t.notified[k] == s.notified[k] + (if k == x && !InQuietHours(s, k.user, now) && k.message in s.messages then 1 else 0)
  {
    hide InQuietHours, Without;
    WithoutSplits(s.deferred, (y: Key) => y == x, k);
  }

  lemma SameQuiets(s: State, t: State, user: nat, now: int)
    requires s.quiets == t.quiets
    ensures InQuietHours(s, user, now) == InQuietHours(t, user, now)
  {
    hide QuietNow;
  }

  /** A pass over the deferred entries keeps those whose user is in quiet hours and hands over each other one, once. */
  lemma {:induction false} DeferredPassIsExact(s: State, keys: seq<Key>, now: int, k: Key)
    requires Distinct(keys)
    ensures var t := ReleaseAll(s, keys, now);
            && t.quiets == s.quiets && t.messages == s.messages
            && multiset(t.deferred)[k] == (if k in keys && !InQuietHours(s, k.user, now) then 0 else multiset(s.deferred)[k])
            && t.notified[k] == s.notified[k] + (if k in keys && !InQuietHours(s, k.user, now) && k.message in s.messages then 1 else 0)
  {
    hide InQuietHours, ReleaseOne;
    if keys == [] {
    } else {
      var n: nat := |keys| - 1;
      var front, last := keys[..n], keys[n];
      assert keys == front + [last] && Distinct(front) && last !in front;
      DeferredPassIsExact(s, front, now, k);
      var before := ReleaseAll(s, front, now);
      ReleaseOneCounts(before, last, now, k);
      SameQuiets(s, before, k.user, now);
    }
  }

  lemma DeferredIsDistinct(s: State)
    requires Accounted(s)
    ensures Distinct(s.deferred)
  {
    hide Accounted;
    var d := s.deferred;
    forall i, j | 0 <= i < j < |d| ensures d[i] != d[j] {
      DeferredOnce(s, d[j]);
      assert d == d[..j] + [d[j]] + d[j + 1..];
      assert multiset(d[..j])[d[j]] == 0;
      assert d[..j][i] == d[i];
    }
  }

  /** runDeferred in any reachable state: every entry out of quiet hours is handed over once and gone, the others stay. */
  lemma RunDeferredIsExact(trace: seq<State>, i: nat, now: int, k: Key)
    requires IsRun(trace) && i < |trace|
    ensures var s, t := trace[i], ReleaseAll(trace[i], trace[i].deferred, now);
            && (k in t.deferred <==> k in s.deferred && InQuietHours(s, k.user, now))
            && t.notified[k] == s.notified[k] + (if k in s.deferred && !InQuietHours(s, k.user, now) && k.message in s.messages then 1 else 0)
  {
    var s := trace[i];
    RunKeepsInv(trace, i);
    DeferredIsDistinct(s);
    hide IsRun, Inv, InQuietHours, ReleaseAll;
    DeferredPassIsExact(s, s.deferred, now, k);
    var t := ReleaseAll(s, s.deferred, now);
    assert k in t.deferred <==> multiset(t.deferred)[k] > 0;
    assert k in s.deferred <==> multiset(s.deferred)[k] > 0;
  }
}
