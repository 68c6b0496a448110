/**
 * The digest pass statement by statement. Engines load policies, read items, store a summary, delete items and save
 * the policy in separate steps, with deliveries, deletions, other engines and crashes in between. A pass deletes by
 * user, not by what it has read, so an item can be deleted that no summary holds; this module says exactly when.
 */
module DigestPasses {
  import opened Common
  import opened Delivery
  import opened DeliveryRuns
  import opened Lists

  /** A policy as a pass loaded it. */
  datatype Row = Row(user: nat, policy: DigestPolicy)

  /** Where an engine stands. The policy at hand is the first of todo. */
  datatype Phase =
    | Resting
    | Passing(now: int, todo: seq<Row>)
    | Holding(now: int, todo: seq<Row>, items: seq<Item>)
    | Announcing(now: int, todo: seq<Row>, items: seq<Item>, id: nat)
    | Summarised(now: int, todo: seq<Row>, items: seq<Item>, created: bool)
    | Cleared(now: int, todo: seq<Row>)

  /** cleared are the copies that passes have deleted from the digests, and summaries those that passes have created. */
  datatype World = World(db: Delivery.State, engines: map<nat, Phase>, cleared: set<Key>, summaries: set<Key>)
  {
    function At(e: nat): Phase { if e in engines then engines[e] else Resting }
  }

  datatype Step =
    | Mail(action: Action)
    | Load(e: nat, now: int, due: seq<Row>)
    | ReadItems(e: nat)
    | StoreStep(e: nat)
    | AnnounceStep(e: nat)
    | StaySilent(e: nat)
    | DeleteItems(e: nat)
    | SavePolicy(e: nat)
    | Skip(e: nat)
    | Halt(e: nat)

  function Begin(clock: int): World { World(DeliveryRuns.Empty(clock), map[], {}, {}) }

  predicate Permitted(w: World, step: Step) {
    match step
    // Deliveries, deferred entries, deletions and changes of policy; passes have their own steps here.
    case Mail(action) => !action.SendDigest? && DeliveryRuns.Enabled(w.db, action)
    case Load(e, now, due) =>
      w.At(e).Resting? && w.db.clock <= now
      && forall i :: 0 <= i < |due| ==> Due(w.db, due[i].user, now) && due[i].policy == w.db.digests[due[i].user]
    case ReadItems(e) => w.At(e).Passing? && w.At(e).todo != []
    case StoreStep(e) => w.At(e).Holding? && w.At(e).todo != []
    case AnnounceStep(e) => w.At(e).Announcing? && w.At(e).todo != []
    // The quiet hours cannot be looked up; the pass goes on all the same.
    case StaySilent(e) => w.At(e).Announcing? && w.At(e).todo != []
    case DeleteItems(e) => w.At(e).Summarised? && w.At(e).todo != []
    case SavePolicy(e) => w.At(e).Cleared? && w.At(e).todo != []
    // Any other failing statement goes on to the next policy.
    case Skip(e) => !w.At(e).Resting? && !w.At(e).Announcing? && w.At(e).todo != []
    // The end of a pass, or a crash.
    case Halt(e) => true
  }

  /** The run time in the key of a policy's summary. */
  function RunKey(policy: DigestPolicy, now: int): int { if policy.nextRun.Some? then policy.nextRun.value else now }

  function KeySet(items: seq<Item>): set<Key> { set i | i in items :: i.key }

  function After(w: World, step: Step): World
    requires Permitted(w, step)
  {
    match step
    case Mail(action) => w.(db := DeliveryRuns.Apply(w.db, action))
    case Load(e, now, due) => w.(db := w.db.(clock := now), engines := w.engines[e := Passing(now, due)])
    case ReadItems(e) =>
      var at := w.At(e);
      var items := ItemsOf(w.db, at.todo[0].user);
      w.(engines := w.engines[e := if items == [] then Cleared(at.now, at.todo) else Holding(at.now, at.todo, items)])
    case StoreStep(e) =>
      var at := w.At(e);
      var user, runKey := at.todo[0].user, RunKey(at.todo[0].policy, at.now);
      if (user, runKey) in w.db.runKeys then w.(engines := w.engines[e := Summarised(at.now, at.todo, at.items, false)])
      else
        w.(db := StoreSummary(w.db, user, runKey, at.items), summaries := w.summaries + {Key(user, w.db.nextId)},
           engines := w.engines[e := Announcing(at.now, at.todo, at.items, w.db.nextId)])
    case AnnounceStep(e) =>
      var at := w.At(e);
      w.(db := Announce(w.db, at.todo[0].user, at.id, at.items, at.now),
         engines := w.engines[e := Summarised(at.now, at.todo, at.items, true)])
    case StaySilent(e) =>
      var at := w.At(e);
      w.(engines := w.engines[e := Summarised(at.now, at.todo, at.items, true)])
    case DeleteItems(e) =>
      var at := w.At(e);
      var user := at.todo[0].user;
      w.(db := ClearDigest(w.db, user), cleared := w.cleared + KeySet(ItemsOf(w.db, user)),
         engines := w.engines[e := Cleared(at.now, at.todo)])
    case SavePolicy(e) =>
      var at := w.At(e);
      var row := at.todo[0];
      w.(db := w.db.(digests := w.db.digests[row.user := row.policy.(nextRun := Some(at.now + Interval(row.policy)))]),
         engines := w.engines[e := Passing(at.now, at.todo[1..])])
    case Skip(e) => w.(engines := w.engines[e := Passing(w.At(e).now, w.At(e).todo[1..])])
    case Halt(e) => w.(engines := w.engines[e := Resting])
  }

  ghost predicate IsRun(worlds: seq<World>, steps: seq<Step>) {
    && |worlds| == |steps| + 1 && worlds[0] == Begin(worlds[0].db.clock)
    && forall i :: 0 <= i < |steps| ==> Permitted(worlds[i], steps[i]) && worlds[i + 1] == After(worlds[i], steps[i])
  }

  // ---------------------------------------------------------------------------------------------
  // What is lost

  /** Deleted by a pass, and in no summary. */
  predicate Lost(w: World, x: Key) { x in w.cleared && w.db.summarised[x] == 0 }

  /** The step deletes the copy from its digest. */
  predicate Deletes(w: World, step: Step, x: Key)
    requires Permitted(w, step)
  {
    step.DeleteItems? && x in KeySet(ItemsOf(w.db, w.At(step.e).todo[0].user))
  }

  /** It does so though the pass has not read the copy, or found its summary stored already. */
  predicate AtRisk(w: World, step: Step, x: Key)
    requires Permitted(w, step)
  {
    Deletes(w, step, x) && (x !in KeySet(w.At(step.e).items) || !w.At(step.e).created)
  }

  /** The step stores a new summary that holds the copy. */
  predicate Enters(w: World, step: Step, x: Key)
    requires Permitted(w, step)
  {
    step.StoreStep? && x in KeySet(w.At(step.e).items)
    && (w.At(step.e).todo[0].user, RunKey(w.At(step.e).todo[0].policy, w.At(step.e).now)) !in w.db.runKeys
  }

  lemma {:induction false} KeysAre(items: seq<Item>, x: Key)
    ensures multiset(Keys(items))[x] > 0 <==> x in KeySet(items)
  {
    if items == [] {
    } else {
      KeysAre(items[1..], x);
      assert items == [items[0]] + items[1..];
      assert KeySet(items) == {items[0].key} + KeySet(items[1..]);
    }
  }

  /** What settling one copy leaves alone. */
  lemma SettleLeaves(s: Delivery.State, k: Key, outcome: Outcome, priority: int)
    ensures var t := Settle(s, k, outcome, priority);
            && t.summarised == s.summarised && t.nextId == s.nextId && t.digests == s.digests && t.clock == s.clock && t.runKeys == s.runKeys
            && (outcome != Digest ==> t.digest == s.digest)
            && (outcome == Digest ==> t.digest == Queue(s.digest, Item(k, priority)))
  {
    hide Queue, QueueKey;
  }

  lemma {:induction false} DeliverAllFrame(s: Delivery.State, users: seq<nat>, id: nat, priority: int, now: int)
    ensures var t := DeliverAll(s, users, id, priority, now);
            && t.summarised == s.summarised && t.nextId == s.nextId
            && forall i :: i in t.digest ==> i in s.digest || i.key.message == id
  {
    hide DeliveryOutcome, Settle;
    if users == [] {
    } else {
      var front, u := users[..|users| - 1], users[|users| - 1];
      var before := DeliverAll(s, front, id, priority, now);
      DeliverAllFrame(s, front, id, priority, now);
      SettleLeaves(before, Key(u, id), DeliveryOutcome(Lookup(before.digests, u), Lookup(before.quiets, u), priority, now), priority);
    }
  }

  /** No mail step puts anything into a summary; what it queues carries the next message's identifier. */
  lemma MailFrame(s: Delivery.State, a: Action)
    requires DeliveryRuns.Enabled(s, a) && !a.SendDigest?
    ensures var t := DeliveryRuns.Apply(s, a);
            && t.summarised == s.summarised && t.nextId >= s.nextId
            && forall i :: i in t.digest ==> i in s.digest || (i.key.message == s.nextId && t.nextId > s.nextId)
  {
    hide Recipients, InQuietHours, Keys, DeliverAll;
    match a
    case Post(receivers, mentions, members, sender, priority, now) =>
      DeliverAllFrame(Store(s.(clock := now)), Recipients(receivers, mentions, members, sender), s.nextId, priority, now);
    case Delete(ids) => WithoutMembers(s.digest, (i: Item) => i.key.message in ids);
    case ConfigureDigest(user, _, _, _, _) => WithoutMembers(s.digest, (i: Item) => i.key.user == user);
    case _ =>
  }

  lemma StoreFrame(s: Delivery.State, user: nat, runKey: int, items: seq<Item>)
    ensures var t := StoreSummary(s, user, runKey, items);
            && t.digest == s.digest && t.digests == s.digests && t.clock == s.clock && t.nextId >= s.nextId
            && (user, runKey) in t.runKeys
            && t.summarised == (if (user, runKey) in s.runKeys then s.summarised else s.summarised + multiset(Keys(items)))
  {
    hide Keys;
  }

  lemma AnnounceFrame(s: Delivery.State, user: nat, id: nat, items: seq<Item>, now: int)
    ensures var t := Announce(s, user, id, items, now);
            && t.digest == s.digest && t.digests == s.digests && t.clock == s.clock && t.nextId == s.nextId
            && t.runKeys == s.runKeys && t.summarised == s.summarised
  {
    hide Highest, Settle, QuietOutcome;
    SettleLeaves(s, Key(user, id), QuietOutcome(Lookup(s.quiets, user), Highest(items), now), Highest(items));
  }

  lemma StepSummarises(w: World, step: Step, x: Key)
    requires Permitted(w, step)
    ensures After(w, step).db.summarised[x] > 0 <==> w.db.summarised[x] > 0 || Enters(w, step, x)
    ensures x in After(w, step).cleared <==> x in w.cleared || Deletes(w, step, x)
  {
    if step.Mail? {
      MailFrame(w.db, step.action);
    } else if step.StoreStep? {
      var at := w.At(step.e);
      StoreFrame(w.db, at.todo[0].user, RunKey(at.todo[0].policy, at.now), at.items);
      KeysAre(at.items, x);
    } else if step.AnnounceStep? {
      var at := w.At(step.e);
      AnnounceFrame(w.db, at.todo[0].user, at.id, at.items, at.now);
    }
    hide DeliveryRuns.Apply, StoreSummary, Announce, Keys, KeySet, ItemsOf, RunKey;
  }

  /** Which copies are in a summary, and which were deleted, read off the steps of a run. */
  lemma {:induction false} HistoryIs(worlds: seq<World>, steps: seq<Step>, n: nat, x: Key)
    requires IsRun(worlds, steps) && n <= |steps|
    ensures worlds[n].db.summarised[x] > 0 <==> exists j :: 0 <= j < n && Enters(worlds[j], steps[j], x)
    ensures x in worlds[n].cleared <==> exists i :: 0 <= i < n && Deletes(worlds[i], steps[i], x)
  {
    hide Permitted, After, Enters, Deletes;
    if n == 0 {
      assert worlds[0] == Begin(worlds[0].db.clock);
    } else {
      HistoryIs(worlds, steps, n - 1, x);
      assert Permitted(worlds[n - 1], steps[n - 1]) && worlds[n - 1 + 1] == After(worlds[n - 1], steps[n - 1]);
      StepSummarises(worlds[n - 1], steps[n - 1], x);
    }
  }

  predicate Created(at: Phase) { at.Announcing? || (at.Summarised? && at.created) }

  /** An engine that created a summary has put what it read there. */
  ghost predicate Kept(w: World) {
    forall e, x :: e in w.engines && Created(w.engines[e]) && x in KeySet(w.engines[e].items) ==> w.db.summarised[x] > 0
  }

  lemma StepKeeps(w: World, step: Step)
    requires Permitted(w, step) && Kept(w)
    ensures Kept(After(w, step))
  {
    hide KeySet, ItemsOf, RunKey, StoreSummary, Announce, Keys, DeliveryRuns.Apply;
    var v := After(w, step);
    forall e, x | e in v.engines && Created(v.engines[e]) && x in KeySet(v.engines[e].items)
      ensures v.db.summarised[x] > 0
    {
      StepSummarises(w, step, x);
    }
  }

  lemma {:induction false} RunKeeps(worlds: seq<World>, steps: seq<Step>, n: nat)
    requires IsRun(worlds, steps) && n <= |steps|
    ensures Kept(worlds[n])
  {
    hide Permitted, After, KeySet;
    if n == 0 {
      assert worlds[0] == Begin(worlds[0].db.clock);
    } else {
      RunKeeps(worlds, steps, n - 1);
      assert Permitted(worlds[n - 1], steps[n - 1]) && worlds[n - 1 + 1] == After(worlds[n - 1], steps[n - 1]);
      StepKeeps(worlds[n - 1], steps[n - 1]);
    }
  }

  /**
   * Exactly what a run of overlapping engines loses: a copy is deleted unsent if and only if some pass deletes it that
   * has not read it or found its summary stored already, and no pass that has read it stores a new summary.
   */
  lemma LostExactly(worlds: seq<World>, steps: seq<Step>, x: Key)
    requires IsRun(worlds, steps)
    ensures Lost(worlds[|steps|], x) <==>
            (exists i :: 0 <= i < |steps| && AtRisk(worlds[i], steps[i], x))
            && !exists j :: 0 <= j < |steps| && Enters(worlds[j], steps[j], x)
  {
    HistoryIs(worlds, steps, |steps|, x);
    forall i | 0 <= i < |steps| && Deletes(worlds[i], steps[i], x)
      ensures AtRisk(worlds[i], steps[i], x) || exists j :: 0 <= j < |steps| && Enters(worlds[j], steps[j], x)
    {
      RunKeeps(worlds, steps, i);
      HistoryIs(worlds, steps, i, x);
    }
    hide Enters, After, KeySet, ItemsOf, Kept;
  }

  /** At one deletion: what it loses at once are the copies at risk that no summary holds yet. */
  lemma DeletionLosesExactly(worlds: seq<World>, steps: seq<Step>, i: nat, x: Key)
    requires IsRun(worlds, steps) && i < |steps| && steps[i].DeleteItems?
    ensures Lost(worlds[i + 1], x) <==> Lost(worlds[i], x) || (AtRisk(worlds[i], steps[i], x) && worlds[i].db.summarised[x] == 0)
  {
    RunKeeps(worlds, steps, i);
    StepSummarises(worlds[i], steps[i], x);
    hide After, KeySet, ItemsOf;
  }

  // ---------------------------------------------------------------------------------------------
  // Runs that lose

  ghost predicate Leads(w: World, steps: seq<Step>, v: World)
    decreases |steps|
  {
    if steps == [] then w == v else Permitted(w, steps[0]) && Leads(After(w, steps[0]), steps[1..], v)
  }

  lemma LeadsOne(w: World, step: Step, steps: seq<Step>, v: World)
    requires Permitted(w, step) && Leads(After(w, step), steps, v)
    ensures Leads(w, [step] + steps, v)
  {
    assert ([step] + steps)[1..] == steps;
  }

  predicate HasItems(at: Phase) { at.Holding? || at.Announcing? || at.Summarised? }

  /** Every copy there is belongs to a message already stored. */
  ghost predicate Fresh(w: World) {
    && (forall i :: i in w.db.digest ==> i.key.message < w.db.nextId)
    && (forall k :: w.db.summarised[k] > 0 ==> k.message < w.db.nextId)
    && (forall e, i :: e in w.engines && HasItems(w.engines[e]) && i in w.engines[e].items ==> i.key.message < w.db.nextId)
  }

  lemma ItemsAre(s: Delivery.State, user: nat)
    ensures forall i :: i in ItemsOf(s, user) <==> i in s.digest && i.key.user == user
  {
    WithoutMembers(s.digest, (i: Item) => i.key.user != user);
  }

  lemma StepKeepsFresh(w: World, step: Step)
    requires Permitted(w, step) && Fresh(w)
    ensures Fresh(After(w, step))
  {
    if step.StoreStep? || step.AnnounceStep? {
      SendingKeepsFresh(w, step);
    } else {
      if step.Mail? {
        MailFrame(w.db, step.action);
      } else if step.ReadItems? {
        ItemsAre(w.db, w.At(step.e).todo[0].user);
      } else if step.DeleteItems? {
        var user := w.At(step.e).todo[0].user;
        WithoutMembers(w.db.digest, (i: Item) => i.key.user == user);
      }
      hide DeliveryRuns.Apply, ItemsOf, Without;
    }
  }

  lemma SendingKeepsFresh(w: World, step: Step)
    requires (step.StoreStep? || step.AnnounceStep?) && Permitted(w, step) && Fresh(w)
    ensures Fresh(After(w, step))
  {
    var at := w.At(step.e);
    if step.StoreStep? {
      StoreFrame(w.db, at.todo[0].user, RunKey(at.todo[0].policy, at.now), at.items);
      forall k | After(w, step).db.summarised[k] > 0 ensures k.message < After(w, step).db.nextId { KeysAre(at.items, k); }
    } else {
      AnnounceFrame(w.db, at.todo[0].user, at.id, at.items, at.now);
    }
    hide StoreSummary, Announce, Keys, RunKey;
  }

  lemma {:induction false} RunKeepsFresh(worlds: seq<World>, steps: seq<Step>, n: nat)
    requires IsRun(worlds, steps) && n <= |steps|
    ensures Fresh(worlds[n])
  {
    hide Permitted, After;
    if n == 0 {
      assert worlds[0] == Begin(worlds[0].db.clock);
    } else {
      RunKeepsFresh(worlds, steps, n - 1);
      assert Permitted(worlds[n - 1], steps[n - 1]) && worlds[n - 1 + 1] == After(worlds[n - 1], steps[n - 1]);
      StepKeepsFresh(worlds[n - 1], steps[n - 1]);
    }
  }

  /** A message to one user that the user's digest takes. */
  function Note(s: Delivery.State, user: nat, now: int): Action
    requires user in s.digests
  {
    Post([user], [], {}, 0, s.digests[user].immediatePriority - 1, now)
  }

  lemma NoteQueues(s: Delivery.State, user: nat, now: int)
    requires user in s.digests && s.digests[user].enabled && forall i :: i in s.digest ==> i.key.message < s.nextId
    ensures var t, k := DeliveryRuns.Apply(s, Note(s, user, now)), Key(user, s.nextId);
            && t.digest == s.digest + [Item(k, s.digests[user].immediatePriority - 1)]
            && t.digests == s.digests && t.summarised == s.summarised && t.runKeys == s.runKeys && t.nextId == s.nextId + 1 && t.clock == now
  {
    var priority := s.digests[user].immediatePriority - 1;
    OneRecipient(user);
    var stored := Store(s.(clock := now));
    OneDelivery(stored, user, s.nextId, priority, now);
    assert DeliveryOutcome(Lookup(stored.digests, user), Lookup(stored.quiets, user), priority, now) == Digest;
    SettleLeaves(stored, Key(user, s.nextId), Digest, priority);
    NotInKeys(s.digest, Key(user, s.nextId));
    hide DeliverAll, Recipients, Settle, Keys, DeliveryOutcome;
  }

  lemma OneRecipient(user: nat)
    ensures Recipients([user], [], {}, 0) == [user]
  {
    var drop := (u: nat) => 0 != 0 && u == 0;
    assert [user][1..] == [] && Without([user], drop) == [user];
    assert [user][..0] == [] && Firsts([user]) == [user];
  }

  lemma OneDelivery(s: Delivery.State, user: nat, id: nat, priority: int, now: int)
    ensures DeliverAll(s, [user], id, priority, now) ==
            Settle(s, Key(user, id), DeliveryOutcome(Lookup(s.digests, user), Lookup(s.quiets, user), priority, now), priority)
  {
    assert [user][..0] == [];
    hide Settle, DeliveryOutcome;
  }

  lemma {:induction false} NotInKeys(items: seq<Item>, k: Key)
    requires forall i :: i in items ==> i.key != k
    ensures k !in Keys(items)
  {
    if items == [] {
    } else {
      NotInKeys(items[1..], k);
    }
  }

  lemma NoKeys()
    ensures KeySet([]) == {}
  {
  }

  lemma Steps1(w: World, step: Step)
    requires Permitted(w, step)
    ensures Leads(w, [step], After(w, step))
  {
    hide Permitted, After;
    assert Leads(After(w, step), [], After(w, step));
    LeadsOne(w, step, [], After(w, step));
    assert [step] + [] == [step];
  }

  lemma {:induction false} Then(w: World, steps: seq<Step>, v: World, more: seq<Step>, u: World)
    requires Leads(w, steps, v) && Leads(v, more, u)
    ensures Leads(w, steps + more, u)
    decreases |steps|
  {
    hide Permitted, After;
    if steps == [] {
      assert [] + more == more;
    } else {
      Then(After(w, steps[0]), steps[1..], v, more, u);
      assert (steps + more)[1..] == steps[1..] + more;
    }
  }

  /** Nothing but the one engine has moved. */
  ghost predicate OthersStand(w: World, e: nat, v: World) { forall f: nat :: f != e ==> v.At(f) == w.At(f) }

  // The stages of the runs below. Each names the steps it takes and what of the world the later ones need.

  /** Queueing a note for a user with a digest: it waits there, in no summary. */
  lemma QueueNote(w: World, user: nat, now: int) returns (steps: seq<Step>, v: World)
    requires Fresh(w) && user in w.db.digests && w.db.digests[user].enabled && w.db.clock <= now
    ensures Leads(w, steps, v) && steps == [Mail(Note(w.db, user, now))] && Fresh(v)
    ensures var k := Key(user, w.db.nextId); k in KeySet(ItemsOf(v.db, user)) && v.db.summarised[k] == 0
    ensures v.engines == w.engines && v.db.digests == w.db.digests && v.db.runKeys == w.db.runKeys && v.db.clock == now
  {
    var step := Mail(Note(w.db, user, now));
    steps, v := [step], After(w, step);
    NoteQueues(w.db, user, now);
    StepKeepsFresh(w, step);
    ItemsAre(v.db, user);
    var item := Item(Key(user, w.db.nextId), w.db.digests[user].immediatePriority - 1);
    assert item in v.db.digest;
    assert item in ItemsOf(v.db, user);
    Steps1(w, step);
    hide DeliveryRuns.Apply, ItemsOf, Leads;
  }

  /** Loading one due policy. */
  lemma Loads(w: World, e: nat, user: nat, now: int) returns (steps: seq<Step>, v: World)
    requires Fresh(w) && w.At(e).Resting? && w.db.clock <= now && Due(w.db, user, now)
    ensures Leads(w, steps, v) && steps == [Load(e, now, [Row(user, w.db.digests[user])])] && Fresh(v)
    ensures v.At(e) == Passing(now, [Row(user, w.db.digests[user])]) && OthersStand(w, e, v)
    ensures v.db == w.db.(clock := now) && ItemsOf(v.db, user) == ItemsOf(w.db, user) && Due(v.db, user, now)
  {
    var step := Load(e, now, [Row(user, w.db.digests[user])]);
    steps, v := [step], After(w, step);
    StepKeepsFresh(w, step);
    Steps1(w, step);
    hide Leads, Fresh;
  }

  /** Reading the items of the policy at hand. */
  lemma Reads(w: World, e: nat) returns (steps: seq<Step>, v: World)
    requires Fresh(w) && w.At(e).Passing? && w.At(e).todo != [] && ItemsOf(w.db, w.At(e).todo[0].user) != []
    ensures Leads(w, steps, v) && steps == [ReadItems(e)] && Fresh(v)
    ensures var at := w.At(e); v.At(e) == Holding(at.now, at.todo, ItemsOf(w.db, at.todo[0].user))
    ensures OthersStand(w, e, v) && v.db == w.db
  {
    steps, v := [ReadItems(e)], After(w, ReadItems(e));
    StepKeepsFresh(w, ReadItems(e));
    Steps1(w, ReadItems(e));
    hide Leads, Fresh, ItemsOf;
  }

  /** Storing the summary of the items read; the run's key is there afterwards, and nothing else is summarised. */
  lemma Stores(w: World, e: nat) returns (steps: seq<Step>, v: World)
    requires Fresh(w) && w.At(e).Holding? && w.At(e).todo != []
    ensures Leads(w, steps, v) && steps == [StoreStep(e)] && Fresh(v)
    ensures var at := w.At(e); var runKey := (at.todo[0].user, RunKey(at.todo[0].policy, at.now));
            && v.At(e) == (if runKey in w.db.runKeys then Summarised(at.now, at.todo, at.items, false)
                           else Announcing(at.now, at.todo, at.items, w.db.nextId))
            && runKey in v.db.runKeys
            && (runKey in w.db.runKeys ==> v.db == w.db)
    ensures OthersStand(w, e, v) && v.db.digest == w.db.digest && v.db.digests == w.db.digests && v.db.clock == w.db.clock
    ensures forall k :: k !in KeySet(w.At(e).items) ==> v.db.summarised[k] > 0 ==> w.db.summarised[k] > 0
  {
    var at := w.At(e);
    var user, runKey := at.todo[0].user, RunKey(at.todo[0].policy, at.now);
    steps, v := [StoreStep(e)], After(w, StoreStep(e));
    StoreFrame(w.db, user, runKey, at.items);
    forall k | k !in KeySet(at.items) ensures v.db.summarised[k] > 0 ==> w.db.summarised[k] > 0 { KeysAre(at.items, k); }
    StepKeepsFresh(w, StoreStep(e));
    Steps1(w, StoreStep(e));
    hide Leads, Fresh, StoreSummary, Keys, KeySet, RunKey;
  }

  /** Handing the summary over. */
  lemma Announces(w: World, e: nat) returns (steps: seq<Step>, v: World)
    requires Fresh(w) && w.At(e).Announcing? && w.At(e).todo != []
    ensures Leads(w, steps, v) && steps == [AnnounceStep(e)] && Fresh(v)
    ensures var at := w.At(e); v.At(e) == Summarised(at.now, at.todo, at.items, true)
    ensures v.db.digest == w.db.digest && v.db.summarised == w.db.summarised
  {
    var at := w.At(e);
    steps, v := [AnnounceStep(e)], After(w, AnnounceStep(e));
    AnnounceFrame(w.db, at.todo[0].user, at.id, at.items, at.now);
    StepKeepsFresh(w, AnnounceStep(e));
    Steps1(w, AnnounceStep(e));
    hide Leads, Fresh, Announce;
  }

  /** The engine is about to delete the copy, which is in no summary. */
  predicate Doomed(w: World, e: nat, x: Key) {
    w.At(e).Summarised? && w.At(e).todo != [] && x in KeySet(ItemsOf(w.db, w.At(e).todo[0].user)) && w.db.summarised[x] == 0
  }

  lemma DoomedIsLost(w: World, e: nat, x: Key)
    requires Doomed(w, e, x) && Kept(w)
    ensures Permitted(w, DeleteItems(e)) && Lost(After(w, DeleteItems(e)), x) && AtRisk(w, DeleteItems(e), x)
  {
    hide KeySet, ItemsOf;
  }

  /** Resting again, without saving the policy: a crash, or the end of the pass. */
  lemma Halts(w: World, e: nat) returns (steps: seq<Step>, v: World)
    requires Fresh(w)
    ensures Leads(w, steps, v) && steps == [Halt(e)] && Fresh(v)
    ensures v.At(e).Resting? && OthersStand(w, e, v) && v.db == w.db
  {
    steps, v := [Halt(e)], After(w, Halt(e));
    StepKeepsFresh(w, Halt(e));
    Steps1(w, Halt(e));
    hide Leads, Fresh;
  }

  /** A pass that finds its summary stored comes to delete what waits without having sent it. */
  lemma PassOverStoredKey(w: World, e: nat, k: Key) returns (steps: seq<Step>, v: World)
    requires Fresh(w) && w.At(e).Passing? && w.At(e).todo != []
    requires var row := w.At(e).todo[0]; (row.user, RunKey(row.policy, w.At(e).now)) in w.db.runKeys && k in KeySet(ItemsOf(w.db, row.user))
    requires w.db.summarised[k] == 0
    ensures Leads(w, steps, v) && steps == [ReadItems(e), StoreStep(e)]
    ensures Doomed(v, e, k) && k in KeySet(v.At(e).items)
  {
    hide Permitted, After, Leads, Fresh, KeySet, ItemsOf, RunKey;
    assert ItemsOf(w.db, w.At(e).todo[0].user) != [] by { NoKeys(); }
    var fetched, w1 := Reads(w, e);
    var stores;
    stores, v := Stores(w1, e);
    Then(w, fetched, w1, stores, v);
    steps := fetched + stores;
  }

  predicate ByOneEngine(steps: seq<Step>, e: nat) { forall i :: 0 <= i < |steps| ==> steps[i].Mail? || steps[i].e == e }

  /** No statement fails, and no engine stops before the end of its pass. */
  predicate NoFailure(steps: seq<Step>) { forall i :: 0 <= i < |steps| ==> !steps[i].Skip? && !steps[i].StaySilent? && !steps[i].Halt? }

  /** One engine, no failure: a note that comes between the reading and the deletion of a pass. */
  lemma {:induction false} LateNote(w: World, e: nat, user: nat, now: int) returns (steps: seq<Step>, v: World)
    requires Fresh(w) && w.At(e).Resting? && w.db.clock <= now && Due(w.db, user, now) && ItemsOf(w.db, user) != []
    ensures Leads(w, steps, v) && ByOneEngine(steps, e) && NoFailure(steps)
    ensures var k := Key(user, w.db.nextId); Doomed(v, e, k) && k !in KeySet(v.At(e).items)
  {
    hide Permitted, After, Leads, KeySet, ItemsOf, RunKey, Note;
    var k := Key(user, w.db.nextId);
    var loads, w1 := Loads(w, e, user, now);
    var fetched, w2 := Reads(w1, e);
    var note, w3 := QueueNote(w2, user, now);
    assert k !in KeySet(w3.At(e).items) by { NotAmong(w, user, k); }
    hide Fresh, Due;
    var stores, w4 := Stores(w3, e);
    SameItems(w3.db, w4.db, user);
    Then(w, loads, w1, fetched, w2);
    Then(w, loads + fetched, w2, note, w3);
    Then(w, loads + fetched + note, w3, stores, w4);
    steps, v := loads + fetched + note + stores, w4;
    if w4.At(e).Announcing? {
      var announces;
      announces, v := Announces(w4, e);
      SameItems(w4.db, v.db, user);
      Then(w, steps, w4, announces, v);
      steps := steps + announces;
    }
  }

  lemma NotAmong(w: World, user: nat, k: Key)
    requires Fresh(w) && k.message == w.db.nextId
    ensures k !in KeySet(ItemsOf(w.db, user))
  {
    ItemsAre(w.db, user);
    hide ItemsOf;
  }

  lemma SameItems(s: Delivery.State, t: Delivery.State, user: nat)
    requires s.digest == t.digest
    ensures ItemsOf(s, user) == ItemsOf(t, user)
  {
  }

  lemma SameDue(s: Delivery.State, t: Delivery.State, user: nat, now: int)
    requires s.digests == t.digests
    ensures Due(s, user, now) == Due(t, user, now)
  {
  }

  /** A note to a user whose summary of this run is stored, while an engine is about to pass over the user's digest. */
  lemma {:induction false} NoteBeforeStoredPass(w: World, e: nat, user: nat, now: int) returns (steps: seq<Step>, v: World)
    requires Fresh(w) && Due(w.db, user, now) && w.At(e).Resting? && w.db.clock <= now
    requires (user, RunKey(w.db.digests[user], now)) in w.db.runKeys
    ensures Leads(w, steps, v) && ByOneEngine(steps, e) && NoFailure(steps)
    ensures var k := Key(user, w.db.nextId); Doomed(v, e, k) && k in KeySet(v.At(e).items)
  {
    hide Permitted, After, Leads, KeySet, ItemsOf, RunKey, Fresh, Note;
    var note, w1 := QueueNote(w, user, now);
    SameDue(w.db, w1.db, user, now);
    hide Due;
    var loads, w2 := Loads(w1, e, user, now);
    var pass;
    pass, v := PassOverStoredKey(w2, e, Key(user, w.db.nextId));
    Then(w, note, w1, loads, w2);
    Then(w, note + loads, w2, pass, v);
    steps := note + loads + pass;
  }

  /** One engine that crashes after it has stored the summary: the next pass finds it, with what came since. */
  lemma {:induction false} NoteAfterCrash(w: World, e: nat, user: nat, now: int) returns (before: seq<Step>, after: seq<Step>, v: World, k: Key)
    requires Fresh(w) && w.At(e).Resting? && w.db.clock <= now && Due(w.db, user, now) && ItemsOf(w.db, user) != []
    ensures Leads(w, before + [Halt(e)] + after, v) && Doomed(v, e, k) && k in KeySet(v.At(e).items)
    ensures ByOneEngine(before, e) && NoFailure(before) && ByOneEngine(after, e) && NoFailure(after)
  {
    hide Permitted, After, Leads, KeySet, ItemsOf, RunKey, Fresh, Note, Due;
    var loads, w1 := Loads(w, e, user, now);
    var fetched, w2 := Reads(w1, e);
    var stores, w3 := Stores(w2, e);
    var halts, w4 := Halts(w3, e);
    SameDue(w.db, w4.db, user, now);
    after, v := NoteBeforeStoredPass(w4, e, user, now);
    Then(w, loads, w1, fetched, w2);
    Then(w, loads + fetched, w2, stores, w3);
    Then(w, loads + fetched + stores, w3, halts, w4);
    Then(w, loads + fetched + stores + halts, w4, after, v);
    before, k := loads + fetched + stores, Key(user, w4.db.nextId);
  }

  /** Two engines that run one pass at once: the slower one finds the summary, with what came since. */
  lemma {:induction false} NoteUnderOverlap(w: World, slow: nat, fast: nat, user: nat, now: int) returns (steps: seq<Step>, v: World, k: Key)
    requires Fresh(w) && slow != fast && w.At(slow).Resting? && w.At(fast).Resting?
    requires w.db.clock <= now && Due(w.db, user, now) && ItemsOf(w.db, user) != []
    ensures Leads(w, steps, v) && NoFailure(steps)
    ensures Doomed(v, slow, k) && k in KeySet(v.At(slow).items)
  {
    hide Permitted, After, Leads, KeySet, ItemsOf, RunKey, Fresh, Note;
    assert w.db.digests[user].enabled;
    hide Due;
    var slowly, w1 := Loads(w, slow, user, now);
    var loads, w2 := Loads(w1, fast, user, now);
    var fetched, w3 := Reads(w2, fast);
    var stores, w4 := Stores(w3, fast);
    var note, w5 := QueueNote(w4, user, now);
    var pass;
    k := Key(user, w4.db.nextId);
    pass, v := PassOverStoredKey(w5, slow, k);
    Then(w, slowly, w1, loads, w2);
    Then(w, slowly + loads, w2, fetched, w3);
    Then(w, slowly + loads + fetched, w3, stores, w4);
    Then(w, slowly + loads + fetched + stores, w4, note, w5);
    Then(w, slowly + loads + fetched + stores + note, w5, pass, v);
    steps := slowly + loads + fetched + stores + note + pass;
  }

  /** The policy at hand is saved and the pass ends. */
  lemma Saves(w: World, e: nat) returns (steps: seq<Step>, v: World)
    requires w.At(e).Cleared? && |w.At(e).todo| == 1
    ensures Leads(w, steps, v) && steps == [SavePolicy(e), Halt(e)] && v.At(e).Resting?
    ensures var at := w.At(e); var p := at.todo[0].policy;
            v.db == w.db.(digests := w.db.digests[at.todo[0].user := p.(nextRun := Some(at.now + Interval(p)))])
  {
    var w1 := After(w, SavePolicy(e));
    v := After(w1, Halt(e));
    Steps1(w, SavePolicy(e));
    Steps1(w1, Halt(e));
    Then(w, [SavePolicy(e)], w1, [Halt(e)], v);
    steps := [SavePolicy(e)] + [Halt(e)];
    hide Leads, Interval;
  }

  /** The statements of a pass over one digest with nothing in between do what the one step of DeliveryRuns does. */
  lemma UninterruptedPass(w: World, e: nat, user: nat, now: int) returns (steps: seq<Step>, v: World)
    requires w.At(e).Resting? && w.db.clock <= now && Due(w.db, user, now)
    requires (user, w.db.digests[user].nextRun.value) !in w.db.runKeys
    ensures Leads(w, steps, v) && v.db == DigestUser(w.db.(clock := now), user, now)
    ensures steps == [Load(e, now, [Row(user, w.db.digests[user])]), ReadItems(e)]
                     + (if ItemsOf(w.db, user) == [] then [] else [StoreStep(e), AnnounceStep(e), DeleteItems(e)]) + [SavePolicy(e), Halt(e)]
  {
    hide Leads, Permitted, After, ItemsOf, StoreSummary, Announce, ClearDigest, Interval;
    var started, w2 := LoadsAndReads(w, e, user, now);
    SameItems(w.db, w2.db, user);
    if ItemsOf(w.db, user) == [] {
      var saves;
      saves, v := Saves(w2, e);
      Then(w, started, w2, saves, v);
      assert started + [] == started;
      steps := started + saves;
    } else {
      var stores, w3 := StoresAndClears(w2, e);
      var saves;
      saves, v := Saves(w3, e);
      Then(w, started, w2, stores, w3);
      Then(w, started + stores, w3, saves, v);
      steps := started + stores + saves;
    }
  }

  /** Loading one policy and reading its items with nothing in between. */
  lemma LoadsAndReads(w: World, e: nat, user: nat, now: int) returns (steps: seq<Step>, v: World)
    requires w.At(e).Resting? && w.db.clock <= now && Due(w.db, user, now)
    ensures var row, items := Row(user, w.db.digests[user]), ItemsOf(w.db, user);
            && Leads(w, steps, v) && steps == [Load(e, now, [row]), ReadItems(e)] && v.db == w.db.(clock := now)
            && v.At(e) == if items == [] then Cleared(now, [row]) else Holding(now, [row], items)
  {
    var load := Load(e, now, [Row(user, w.db.digests[user])]);
    var w1 := After(w, load);
    SameItems(w.db, w1.db, user);
    v := After(w1, ReadItems(e));
    Steps1(w, load);
    Steps1(w1, ReadItems(e));
    Then(w, [load], w1, [ReadItems(e)], v);
    steps := [load] + [ReadItems(e)];
    hide Leads, ItemsOf;
  }

  /** Storing a new summary, handing it over and deleting with nothing in between. */
  lemma StoresAndClears(w: World, e: nat) returns (steps: seq<Step>, v: World)
    requires w.At(e).Holding? && w.At(e).todo != []
    requires (w.At(e).todo[0].user, RunKey(w.At(e).todo[0].policy, w.At(e).now)) !in w.db.runKeys
    ensures Leads(w, steps, v) && steps == [StoreStep(e), AnnounceStep(e), DeleteItems(e)]
    ensures v.At(e) == Cleared(w.At(e).now, w.At(e).todo)
    ensures var at := w.At(e); var row := at.todo[0];
            var stored := StoreSummary(w.db, row.user, RunKey(row.policy, at.now), at.items);
            v.db == ClearDigest(Announce(stored, row.user, w.db.nextId, at.items, at.now), row.user)
  {
    hide Leads, StoreSummary, Announce, ClearDigest, RunKey, KeySet, ItemsOf;
    var w1 := After(w, StoreStep(e));
    var w2 := After(w1, AnnounceStep(e));
    v := After(w2, DeleteItems(e));
    Steps1(w, StoreStep(e));
    Steps1(w1, AnnounceStep(e));
    Steps1(w2, DeleteItems(e));
    hide Permitted, After;
    Then(w, [StoreStep(e)], w1, [AnnounceStep(e)], w2);
    Then(w, [StoreStep(e)] + [AnnounceStep(e)], w2, [DeleteItems(e)], v);
    steps := [StoreStep(e)] + [AnnounceStep(e)] + [DeleteItems(e)];
  }

  /** User 1 asks for a digest. */
  lemma AskedFor() returns (w: World)
    ensures var ask := Mail(ConfigureDigest(1, true, 15, 5, 0)); Permitted(Begin(0), ask) && w == After(Begin(0), ask)
    ensures w.db.digests == map[1 := DigestPolicy(true, 15, 5, Some(15))]
    ensures Fresh(w) && w.engines == map[] && w.db.clock == 0
  {
    var ask := Mail(ConfigureDigest(1, true, 15, 5, 0));
    w := After(Begin(0), ask);
    StepKeepsFresh(Begin(0), ask);
    assert w.db == SaveDigest(Empty(0), 1, true, 15, 5, 0).(clock := 0);
    hide Fresh;
  }

  /** A first digest: user 1 asks for one, and a message is put into it. */
  lemma FirstDigest() returns (steps: seq<Step>, w: World)
    ensures Leads(Begin(0), steps, w) && Fresh(w) && w.engines == map[] && w.db.clock == 0
    ensures Due(w.db, 1, 15) && ItemsOf(w.db, 1) != []
    ensures forall i :: 0 <= i < |steps| ==> steps[i].Mail?
  {
    hide Permitted, After, Fresh, Leads, ItemsOf, KeySet, Note;
    var w1 := AskedFor();
    var ask := Mail(ConfigureDigest(1, true, 15, 5, 0));
    var note, v := QueueNote(w1, 1, 0);
    w := v;
    assert ItemsOf(w.db, 1) != [] by { NoKeys(); }
    Steps1(Begin(0), ask);
    Then(Begin(0), [ask], w1, note, w);
    steps := [ask] + note;
  }

  /** The worlds a series of steps goes through. */
  lemma {:induction false} RunOf(w: World, steps: seq<Step>, v: World) returns (worlds: seq<World>)
    requires Leads(w, steps, v)
    ensures |worlds| == |steps| + 1 && worlds[0] == w && worlds[|steps|] == v
    ensures forall i :: 0 <= i < |steps| ==> Permitted(worlds[i], steps[i]) && worlds[i + 1] == After(worlds[i], steps[i])
    decreases |steps|
  {
    hide Permitted, After;
    if steps == [] {
      worlds := [w];
    } else {
      var later := RunOf(After(w, steps[0]), steps[1..], v);
      worlds := [w] + later;
      assert forall i :: 0 < i < |steps| ==> steps[i] == steps[1..][i - 1] && worlds[i] == later[i - 1] && worlds[i + 1] == later[i];
    }
  }

  /** A run that deletes a copy no summary holds: the last step does it. */
  ghost predicate LosesAtEnd(worlds: seq<World>, steps: seq<Step>, x: Key) {
    && IsRun(worlds, steps) && steps != [] && Lost(worlds[|steps|], x)
    && AtRisk(worlds[|steps| - 1], steps[|steps| - 1], x)
  }

  /** The deleting pass has read the copy, so its summary was there already. */
  ghost predicate KeyWasStored(worlds: seq<World>, steps: seq<Step>, x: Key)
    requires LosesAtEnd(worlds, steps, x)
  {
    x in KeySet(worlds[|steps| - 1].At(steps[|steps| - 1].e).items)
  }

  /** The first digest, what leads from it to a doomed copy, and the deletion make a run that loses the copy. */
  lemma AfterFirstDigest(first: seq<Step>, w: World, rest: seq<Step>, v: World, e: nat, x: Key) returns (worlds: seq<World>, steps: seq<Step>)
    requires Leads(Begin(0), first, w) && Leads(w, rest, v) && Doomed(v, e, x)
    ensures steps == first + rest + [DeleteItems(e)] && LosesAtEnd(worlds, steps, x)
    ensures x in KeySet(v.At(e).items) <==> KeyWasStored(worlds, steps, x)
  {
    hide Permitted, After, Leads, Doomed, Lost, AtRisk, KeySet, Kept;
    Then(Begin(0), first, w, rest, v);
    var n := |first + rest|;
    var til := RunOf(Begin(0), first + rest, v);
    RunKeeps(til, first + rest, n);
    DoomedIsLost(v, e, x);
    worlds, steps := til + [After(v, DeleteItems(e))], first + rest + [DeleteItems(e)];
    RunOneMore(til, first + rest, DeleteItems(e));
  }

  lemma RunOneMore(worlds: seq<World>, steps: seq<Step>, step: Step)
    requires IsRun(worlds, steps) && Permitted(worlds[|steps|], step)
    ensures IsRun(worlds + [After(worlds[|steps|], step)], steps + [step])
  {
    hide Permitted, After;
    var longer, more := worlds + [After(worlds[|steps|], step)], steps + [step];
    forall i | 0 <= i < |more| ensures Permitted(longer[i], more[i]) && longer[i + 1] == After(longer[i], more[i]) {
      if i < |steps| {
        assert longer[i] == worlds[i] && longer[i + 1] == worlds[i + 1] && more[i] == steps[i];
        assert Permitted(worlds[i], steps[i]) && worlds[i + 1] == After(worlds[i], steps[i]);
      }
    }
  }

  /** One engine and no failure: a copy that arrived while a pass was under way is lost. */
  lemma OneEngineLoses() returns (worlds: seq<World>, steps: seq<Step>, x: Key)
    ensures LosesAtEnd(worlds, steps, x) && !KeyWasStored(worlds, steps, x) && ByOneEngine(steps, 0) && NoFailure(steps)
  {
    hide Leads, LosesAtEnd, Fresh, Due, ItemsOf, Doomed, KeySet, KeyWasStored;
    var first, w := FirstDigest();
    var rest, v := LateNote(w, 0, 1, 15);
    x := Key(1, w.db.nextId);
    worlds, steps := AfterFirstDigest(first, w, rest, v, 0, x);
  }

  /** One engine that crashes once: a copy that its next pass has read is lost. */
  lemma CrashLoses() returns (worlds: seq<World>, before: seq<Step>, after: seq<Step>, x: Key)
    ensures var steps := before + [Halt(0)] + after; LosesAtEnd(worlds, steps, x) && KeyWasStored(worlds, steps, x)
    ensures ByOneEngine(before, 0) && NoFailure(before) && ByOneEngine(after, 0) && NoFailure(after)
  {
    hide Leads, LosesAtEnd, Fresh, Due, ItemsOf, Doomed, KeySet, KeyWasStored;
    var first, w := FirstDigest();
    var crashing, next, v, k := NoteAfterCrash(w, 0, 1, 15);
    var steps;
    worlds, steps := AfterFirstDigest(first, w, crashing + [Halt(0)] + next, v, 0, k);
    before, after, x := first + crashing, next + [DeleteItems(0)], k;
    assert steps == before + [Halt(0)] + after;
  }

  /** Two engines and no failure: a copy that the deleting pass has read is lost. */
  lemma OverlapLoses() returns (worlds: seq<World>, steps: seq<Step>, x: Key)
    ensures LosesAtEnd(worlds, steps, x) && KeyWasStored(worlds, steps, x) && NoFailure(steps)
  {
    hide Leads, LosesAtEnd, Fresh, Due, ItemsOf, Doomed, KeySet, KeyWasStored;
    var first, w := FirstDigest();
    var rest, v, k := NoteUnderOverlap(w, 0, 1, 1, 15);
    x := k;
    worlds, steps := AfterFirstDigest(first, w, rest, v, 0, x);
  }
}
