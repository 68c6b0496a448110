/** What becomes of a stored message for each of its recipients: notified, digested, deferred or suppressed. */
module Delivery {
  import opened Common
  import opened Lists

  const DAY: int := 1440

  // ---------------------------------------------------------------------------------------------
  // Policies

  datatype DigestPolicy = DigestPolicy(enabled: bool, interval: int, immediatePriority: int, nextRun: Option<int>)

  /** The time zone is a constant number of minutes ahead of UTC. */
  datatype QuietPolicy = QuietPolicy(enabled: bool, start: int, end: int, offset: int, allowPriority: int, defers: bool)

  /** quietNow; the time is in minutes. */
  predicate QuietNow(p: QuietPolicy, now: int) {
    var minute := (now + p.offset) % DAY;
    var start, end := Clamp(p.start, 0, DAY - 1), Clamp(p.end, 0, DAY - 1);
    if start == end then true
    else if start < end then start <= minute < end
    else minute >= start || minute < end
  }

  /** A minute of the day, the nearest one for a field out of range. */
  function MinuteOf(value: int): (m: int)
    ensures 0 <= m < 1440 && (0 <= value < 1440 ==> m == value) && (value < 0 ==> m == 0) && (value >= 1440 ==> m == 1439)
  {
    if value < 0 then 0 else if value < 1440 then value else 1439
  }

  /** Quiet hours are an arc of the day's circle: from start on, for the time it takes to come round to end (or all day). */
  lemma QuietIsAnArc(p: QuietPolicy, now: int)
    ensures var start, end := MinuteOf(p.start), MinuteOf(p.end);
            var since, length := (now + p.offset - start) % 1440, (end - start) % 1440;
            QuietNow(p, now) <==> start == end || since < length
  {
    var start, minute, whole := MinuteOf(p.start), (now + p.offset) % DAY, (now + p.offset) / DAY;
    assert now + p.offset == whole * DAY + minute;
    if minute >= start {
      assert (now + p.offset - start) % DAY == minute - start;
    } else {
      assert now + p.offset - start == (whole - 1) * DAY + (minute - start + DAY);
      assert (now + p.offset - start) % DAY == minute - start + DAY;
    }
  }

  datatype Outcome = Notify | Digest | Defer | Suppress

  predicate Quieted(quiet: Option<QuietPolicy>, priority: int, now: int) {
    quiet.Some? && quiet.value.enabled && priority < quiet.value.allowPriority && QuietNow(quiet.value, now)
  }

  function QuietOutcome(quiet: Option<QuietPolicy>, priority: int, now: int): (outcome: Outcome)
    ensures outcome != Digest
  {
    if !Quieted(quiet, priority, now) then Notify else if quiet.value.defers then Defer else Suppress
  }

  function DeliveryOutcome(digest: Option<DigestPolicy>, quiet: Option<QuietPolicy>, priority: int, now: int): Outcome {
    if digest.Some? && digest.value.enabled && priority < digest.value.immediatePriority then Digest
    else QuietOutcome(quiet, priority, now)
  }

  /** A higher priority is never delivered less directly, and without policies nothing is held back. */
  lemma PriorityIsMonotone(digest: Option<DigestPolicy>, quiet: Option<QuietPolicy>, low: int, high: int, now: int)
    requires low <= high
    ensures DeliveryOutcome(digest, quiet, low, now) == Notify ==> DeliveryOutcome(digest, quiet, high, now) == Notify
    ensures DeliveryOutcome(digest, quiet, low, now) != Digest ==> DeliveryOutcome(digest, quiet, high, now) != Digest
    ensures (digest.Some? ==> !digest.value.enabled || digest.value.immediatePriority <= low)
            && (quiet.Some? ==> !quiet.value.enabled || quiet.value.allowPriority <= low) ==>
              DeliveryOutcome(digest, quiet, low, now) == Notify
  {
    hide QuietNow;
  }

  // ---------------------------------------------------------------------------------------------
  // Tables

  /** One recipient's copy of one message. */
  datatype Key = Key(user: nat, message: nat)
  datatype Item = Item(key: Key, priority: int)

  /**
   * The tables, and what has been done so far: copies handed to the notifier, suppressed, put into a digest summary,
   * dropped with a deleted message or a digest that was switched off, and taken on for delivery. runKeys maps the
   * user and run time of a stored digest summary to its message.
   */
  datatype State = State(digest: seq<Item>, deferred: seq<Key>, messages: set<nat>, nextId: nat, runKeys: map<(nat, int), nat>,
                         digests: map<nat, DigestPolicy>, quiets: map<nat, QuietPolicy>, clock: int,
                         notified: multiset<Key>, suppressed: multiset<Key>, summarised: multiset<Key>, dropped: multiset<Key>,
                         accepted: multiset<Key>)

  function Lookup<V>(m: map<nat, V>, user: nat): Option<V> { if user in m then Some(m[user]) else None }

  function Keys(items: seq<Item>): seq<Key> { if items == [] then [] else [items[0].key] + Keys(items[1..]) }

  /** An insert that does nothing when the row is there. */
  function Queue(items: seq<Item>, item: Item): seq<Item> { if item.key in Keys(items) then items else items + [item] }

  function QueueKey(keys: seq<Key>, k: Key): seq<Key> { if k in keys then keys else keys + [k] }

  function Settle(s: State, k: Key, outcome: Outcome, priority: int): State {
    var t := s.(accepted := s.accepted + multiset{k});
    match outcome
    case Notify => t.(notified := t.notified + multiset{k})
    case Digest => t.(digest := Queue(t.digest, Item(k, priority)))
    case Defer => t.(deferred := QueueKey(t.deferred, k))
    case Suppress => t.(suppressed := t.suppressed + multiset{k})
  }

  /** deliver */
  function Deliver(s: State, user: nat, id: nat, priority: int, now: int): State {
    Settle(s, Key(user, id), DeliveryOutcome(Lookup(s.digests, user), Lookup(s.quiets, user), priority, now), priority)
  }

  /** Storing a message gives it the next identifier. */
  function Store(s: State): State { s.(messages := s.messages + {s.nextId}, nextId := s.nextId + 1) }

  function DeliverAll(s: State, users: seq<nat>, id: nat, priority: int, now: int): State {
    if users == [] then s
    else Deliver(DeliverAll(s, users[..|users| - 1], id, priority, now), users[|users| - 1], id, priority, now)
  }

  /** The candidates of deliverStored: receiving members, then mentioned members other than the sender. Sender 0 is no user. */
  function Candidates(receivers: seq<nat>, mentions: seq<nat>, members: set<nat>, sender: nat): seq<nat> {
    if sender == 0 then receivers else receivers + Without(mentions, (u: nat) => u == sender || u !in members)
  }

  function Recipients(receivers: seq<nat>, mentions: seq<nat>, members: set<nat>, sender: nat): seq<nat> {
    Firsts(Without(Candidates(receivers, mentions, members, sender), (u: nat) => sender != 0 && u == sender))
  }

  /** Everyone once, never the sender. */
  lemma RecipientsAreExact(receivers: seq<nat>, mentions: seq<nat>, members: set<nat>, sender: nat)
    ensures Distinct(Recipients(receivers, mentions, members, sender))
    ensures forall u :: u in Recipients(receivers, mentions, members, sender) <==>
              (sender == 0 || u != sender) && (u in receivers || (sender != 0 && u in mentions && u in members))
  {
    var candidates := Candidates(receivers, mentions, members, sender);
    var isSender, noMember := (u: nat) => sender != 0 && u == sender, (u: nat) => u == sender || u !in members;
    WithoutMembers(mentions, noMember);
    WithoutMembers(candidates, isSender);
    FirstsMembers(Without(candidates, isSender));
  }

  /** The summary that a digest pass stores for one user: its own delivery follows the quiet hours only. */
  function Highest(items: seq<Item>): int {
    if items == [] then 0
    else
      var before := Highest(items[..|items| - 1]);
      if items[|items| - 1].priority > before then items[|items| - 1].priority else before
  }

  /** The summary is as urgent as its most urgent item, and never below zero. */
  lemma {:induction false} HighestIsMaximum(items: seq<Item>)
    ensures Highest(items) >= 0 && forall i :: 0 <= i < |items| ==> items[i].priority <= Highest(items)
    ensures Highest(items) == 0 || exists i :: 0 <= i < |items| && items[i].priority == Highest(items)
  {
    if items == [] {
    } else {
      var n := |items| - 1;
      HighestIsMaximum(items[..n]);
      assert forall i :: 0 <= i < n ==> items[..n][i] == items[i];
    }
  }

  predicate Due(s: State, user: nat, now: int) {
    user in s.digests && s.digests[user].enabled && s.digests[user].nextRun.Some? && s.digests[user].nextRun.value <= now
  }

  function ItemsOf(s: State, user: nat): seq<Item> { Without(s.digest, (i: Item) => i.key.user != user) }

  /** Storing the summary of the items read; nothing happens when the summary of the run is there. */
  function StoreSummary(s: State, user: nat, runKey: int, items: seq<Item>): State {
    if (user, runKey) in s.runKeys then s
    else Store(s.(summarised := s.summarised + multiset(Keys(items)), runKeys := s.runKeys[(user, runKey) := s.nextId]))
  }

  /** Handing the summary over, as the quiet hours say. */
  function Announce(s: State, user: nat, id: nat, items: seq<Item>, now: int): State {
    Settle(s, Key(user, id), QuietOutcome(Lookup(s.quiets, user), Highest(items), now), Highest(items))
  }

  /** Deleting the user's items, whichever they are by now. */
  function ClearDigest(s: State, user: nat): State { s.(digest := Without(s.digest, (i: Item) => i.key.user == user)) }

  /** A digest pass over a non-empty digest with nothing in between; runKey is the policy's run time. */
  function Summarise(s: State, user: nat, runKey: int, now: int): State {
    var items := ItemsOf(s, user);
    var stored := StoreSummary(s, user, runKey, items);
    if (user, runKey) in s.runKeys then ClearDigest(stored, user).(dropped := s.dropped + multiset(Keys(items)))
    else ClearDigest(Announce(stored, user, s.nextId, items, now), user)
  }

  /** runDigests for one policy. */
  function DigestUser(s: State, user: nat, now: int): State {
    if !Due(s, user, now) then s
    else
      var p := s.digests[user];
      var t := if ItemsOf(s, user) == [] then s else Summarise(s, user, p.nextRun.value, now);
      t.(digests := t.digests[user := p.(nextRun := Some(now + Interval(p)))])
  }

  function Interval(p: DigestPolicy): int { if p.interval < 15 then 15 else p.interval }

  function DigestAll(s: State, users: seq<nat>, now: int): State {
    if users == [] then s else DigestUser(DigestAll(s, users[..|users| - 1], now), users[|users| - 1], now)
  }

  predicate InQuietHours(s: State, user: nat, now: int) {
    user in s.quiets && s.quiets[user].enabled && QuietNow(s.quiets[user], now)
  }

  /** runDeferred for one entry. */
  function ReleaseOne(s: State, k: Key, now: int): State {
    if InQuietHours(s, k.user, now) then s
    else
      var stored := k.message in s.messages;
      s.(deferred := Without(s.deferred, (x: Key) => x == k),
         notified := if stored then s.notified + multiset{k} else s.notified,
         dropped := if stored then s.dropped else s.dropped + multiset{k})
  }

  function ReleaseAll(s: State, keys: seq<Key>, now: int): State {
    if keys == [] then s else ReleaseOne(ReleaseAll(s, keys[..|keys| - 1], now), keys[|keys| - 1], now)
  }

  function DeleteMessages(s: State, ids: set<nat>): State {
    s.(messages := s.messages - ids,
       runKeys := map r | r in s.runKeys && s.runKeys[r] !in ids :: s.runKeys[r],
       digest := Without(s.digest, (i: Item) => i.key.message in ids),
       deferred := Without(s.deferred, (k: Key) => k.message in ids),
       dropped := s.dropped + multiset(Keys(Without(s.digest, (i: Item) => i.key.message !in ids)))
                  + multiset(Without(s.deferred, (k: Key) => k.message !in ids)))
  }

  /** SaveDigest: switching digests off throws the waiting items away. */
  function SaveDigest(s: State, user: nat, enabled: bool, interval: int, immediatePriority: int, now: int): State {
    var p := DigestPolicy(enabled, interval, immediatePriority, if enabled then Some(now + interval) else None);
    var t := s.(digests := s.digests[user := p]);
    if enabled then t
    else t.(digest := Without(s.digest, (i: Item) => i.key.user == user), dropped := t.dropped + multiset(Keys(ItemsOf(s, user))))
  }

  // ---------------------------------------------------------------------------------------------
  // The engine

  lemma FirstsAppend(s: seq<nat>, u: nat)
    ensures Firsts(s + [u]) == if u in Firsts(s) then Firsts(s) else Firsts(s) + [u]
  {
    assert (s + [u])[..|s|] == s;
  }

  lemma DeliverAllAppend(s: State, users: seq<nat>, u: nat, id: nat, priority: int, now: int)
    ensures DeliverAll(s, users + [u], id, priority, now) == Deliver(DeliverAll(s, users, id, priority, now), u, id, priority, now)
  {
    hide Deliver;
    assert (users + [u])[..|users|] == users;
  }

  /** The engine works on the shared tables, one statement at a time. */
  class Engine {
    var db: State

    constructor (db: State)
      ensures this.db == db
    {
      this.db := db;
    }

    method Notify(k: Key)
      modifies this
      ensures db == old(db).(notified := old(db).notified + multiset{k})
    {
      db := db.(notified := db.notified + multiset{k});
    }

    method QueueDigestItem(item: Item)
      modifies this
      ensures db == old(db).(digest := Queue(old(db).digest, item))
    {
      if item.key !in Keys(db.digest) { db := db.(digest := db.digest + [item]); }
    }

    method QueueDeferred(k: Key)
      modifies this
      ensures db == old(db).(deferred := QueueKey(old(db).deferred, k))
    {
      if k !in db.deferred { db := db.(deferred := db.deferred + [k]); }
    }

    /** What deliver does once the digest is ruled out, and the digest pass with its summary. */
    method DeliverQuietly(k: Key, priority: int, now: int)
      modifies this
      ensures db == Settle(old(db), k, QuietOutcome(Lookup(old(db).quiets, k.user), priority, now), priority)
    {
      hide QuietNow, QueueKey;
      db := db.(accepted := db.accepted + multiset{k});
      var quiet := Lookup(db.quiets, k.user);
      if quiet.Some? && quiet.value.enabled && priority < quiet.value.allowPriority && QuietNow(quiet.value, now) {
        if quiet.value.defers {
          QueueDeferred(k);
        } else {
          db := db.(suppressed := db.suppressed + multiset{k});
        }
      } else {
        Notify(k);
      }
    }

    /** deliver */
    method DeliverTo(user: nat, id: nat, priority: int, now: int)
      modifies this
      ensures db == Deliver(old(db), user, id, priority, now)
    {
      hide QuietOutcome, Queue, QueueKey;
      var digest := Lookup(db.digests, user);
      if digest.Some? && digest.value.enabled && priority < digest.value.immediatePriority {
        db := db.(accepted := db.accepted + multiset{Key(user, id)});
        QueueDigestItem(Item(Key(user, id), priority));
      } else {
        DeliverQuietly(Key(user, id), priority, now);
      }
    }

    /** The recipient list of deliverStored. */
    static method CollectRecipients(receivers: seq<nat>, mentions: seq<nat>, members: set<nat>, sender: nat) returns (recipients: seq<nat>)
      ensures recipients == Candidates(receivers, mentions, members, sender)
    {
      recipients := receivers;
      if sender != 0 {
        ghost var noMember := (u: nat) => u == sender || u !in members;
        for i := 0 to |mentions|
          invariant recipients == receivers + Without(mentions[..i], noMember)
        {
          assert mentions[..i + 1] == mentions[..i] + [mentions[i]];
          WithoutAppend(mentions[..i], mentions[i], noMember);
          if mentions[i] == sender { continue; }
          if mentions[i] in members { recipients := recipients + [mentions[i]]; }
        }
        assert mentions[..|mentions|] == mentions;
      }
    }

    /** deliverStored */
    method DeliverStored(id: nat, priority: int, receivers: seq<nat>, mentions: seq<nat>, members: set<nat>, sender: nat, now: int)
      modifies this
      ensures db == DeliverAll(old(db), Recipients(receivers, mentions, members, sender), id, priority, now)
    {
      hide Deliver, DeliverAll, Without, Firsts;
      var recipients := CollectRecipients(receivers, mentions, members, sender);
      var delivered: set<nat> := {};
      ghost var isSender := (u: nat) => sender != 0 && u == sender;
      ghost var done: seq<nat> := [];
      StartEmpty(db, isSender, id, priority, now);
      for i := 0 to |recipients|
        invariant done == Firsts(Without(recipients[..i], isSender))
        invariant forall u :: u in delivered <==> u in done
        invariant db == DeliverAll(old(db), done, id, priority, now)
      {
        var user := recipients[i];
        assert recipients[..i + 1] == recipients[..i] + [user];
        WithoutAppend(recipients[..i], user, isSender);
        if sender != 0 && user == sender { continue; }
        FirstsAppend(Without(recipients[..i], isSender), user);
        if user in delivered { continue; }
        delivered := delivered + {user};
        DeliverTo(user, id, priority, now);
        DeliverAllAppend(old(db), done, user, id, priority, now);
        done := done + [user];
      }
      assert recipients[..|recipients|] == recipients;
    }

    /** The digest pass; due holds the users of the policies the query returned. */
    method RunDigests(due: seq<nat>, now: int)
      requires Distinct(due) && forall u :: u in due ==> Due(db, u, now)
      modifies this
      ensures db == DigestAll(old(db), due, now)
    {
      hide DigestUser;
      for i := 0 to |due|
        invariant db == DigestAll(old(db), due[..i], now)
        invariant forall k :: i <= k < |due| ==> Due(db, due[k], now)
      {
        assert due[..i + 1][..i] == due[..i];
        RunDigest(due[i], now);
      }
      assert due[..|due|] == due;
    }

    method RunDigest(user: nat, now: int)
      requires Due(db, user, now)
      modifies this
      ensures db == DigestUser(old(db), user, now)
      ensures forall u :: u != user && Due(old(db), u, now) ==> Due(db, u, now)
    {
      hide Summarise, Without, Highest;
      var p := db.digests[user];
      var items := ItemsOf(db, user);
      if |items| > 0 {
        var highest := HighestOf(items);
        SendSummary(user, p.nextRun.value, items, highest, now);
      }
      db := db.(digests := db.digests[user := p.(nextRun := Some(now + Interval(p)))]);
    }

    static method HighestOf(items: seq<Item>) returns (highest: int)
      ensures highest == Highest(items)
    {
      highest := 0;
      for j := 0 to |items|
        invariant highest == Highest(items[..j])
      {
        assert items[..j + 1][..j] == items[..j];
        if items[j].priority > highest { highest := items[j].priority; }
      }
      assert items[..|items|] == items;
    }

    method SendSummary(user: nat, runKey: int, items: seq<Item>, highest: int, now: int)
      requires items == ItemsOf(db, user) && highest == Highest(items)
      modifies this
      ensures db == Summarise(old(db), user, runKey, now)
      ensures db.digests == old(db).digests
    {
      hide QuietOutcome, Keys, Highest, Without;
      if (user, runKey) in db.runKeys {
        db := db.(dropped := db.dropped + multiset(Keys(items)));
      } else {
        var id := db.nextId;
        db := Store(db.(summarised := db.summarised + multiset(Keys(items)), runKeys := db.runKeys[(user, runKey) := id]));
        DeliverQuietly(Key(user, id), highest, now);
      }
      db := ClearDigest(db, user);
    }

    /** runDeferred */
    method RunDeferred(now: int)
      modifies this
      ensures db == ReleaseAll(old(db), old(db).deferred, now)
    {
      hide Without, QuietNow;
      var items := db.deferred;
      for i := 0 to |items|
        invariant db == ReleaseAll(old(db), items[..i], now)
      {
        assert items[..i + 1][..i] == items[..i];
        ReleaseEntry(items[i], now);
      }
      assert items[..|items|] == items;
    }

    method ReleaseEntry(k: Key, now: int)
      modifies this
      ensures db == ReleaseOne(old(db), k, now)
    {
      hide Without, QuietNow;
      if k.user in db.quiets && db.quiets[k.user].enabled && QuietNow(db.quiets[k.user], now) { return; }
      if k.message in db.messages {
        Notify(k);
      } else {
        db := db.(dropped := db.dropped + multiset{k});
      }
      db := db.(deferred := Without(db.deferred, (x: Key) => x == k));
    }
  }

  lemma StartEmpty(s: State, drop: nat -> bool, id: nat, priority: int, now: int)
    ensures Firsts(Without<nat>([], drop)) == [] && DeliverAll(s, [], id, priority, now) == s
  {
  }
}
