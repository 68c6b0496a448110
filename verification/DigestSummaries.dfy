/** Storing a digest summary and handing it over are two statements; this module says which summaries stay between them. */
module DigestSummaries {
  import opened Delivery
  import opened DeliveryRuns
  import opened DigestPasses

  /** Stored by a pass, but never notified, deferred or suppressed. */
  predicate Unsettled(w: World, k: Key) { k in w.summaries && w.db.accepted[k] == 0 }

  /** The engine has stored the summary and is about to hand it over. */
  predicate AboutTo(w: World, e: nat, k: Key) {
    w.At(e).Announcing? && w.At(e).todo != [] && Key(w.At(e).todo[0].user, w.At(e).id) == k
  }

  /** It crashes at this point, or cannot look up the quiet hours. */
  predicate GivesUp(w: World, step: Step, k: Key) { (step.Halt? || step.StaySilent?) && AboutTo(w, step.e, k) }

  lemma SettleAccepts(s: Delivery.State, k: Key, outcome: Outcome, priority: int, x: Key)
    ensures Settle(s, k, outcome, priority).accepted[x] == s.accepted[x] + (if x == k then 1 else 0)
    ensures Settle(s, k, outcome, priority).nextId == s.nextId
  {
    hide Queue, QueueKey;
  }

  lemma {:induction false} DeliverAllAccepts(s: Delivery.State, users: seq<nat>, id: nat, priority: int, now: int, x: Key)
    ensures var t := DeliverAll(s, users, id, priority, now);
            t.nextId == s.nextId && (x.message != id ==> t.accepted[x] == s.accepted[x])
  {
    hide DeliveryOutcome, Settle;
    if users == [] {
    } else {
      var front, u := users[..|users| - 1], users[|users| - 1];
      var before := DeliverAll(s, front, id, priority, now);
      DeliverAllAccepts(s, front, id, priority, now, x);
      SettleAccepts(before, Key(u, id), DeliveryOutcome(Lookup(before.digests, u), Lookup(before.quiets, u), priority, now), priority, x);
    }
  }

  /** A mail step takes on copies of the next message only. */
  lemma MailAccepts(s: Delivery.State, a: Action, x: Key)
    requires DeliveryRuns.Enabled(s, a) && !a.SendDigest?
    ensures var t := DeliveryRuns.Apply(s, a);
            && t.nextId >= s.nextId
            && (t.accepted[x] == s.accepted[x] || (x.message == s.nextId && t.nextId > s.nextId))
  {
    hide Recipients, InQuietHours, Keys, DeliverAll;
    if a.Post? {
      DeliverAllAccepts(Store(s.(clock := a.now)), Recipients(a.receivers, a.mentions, a.members, a.sender), s.nextId, a.priority, a.now, x);
    }
  }

  /** What is known about one summary; given says whether an engine has given it up before. */
  ghost predicate Ledger(w: World, k: Key, given: bool) {
    && (w.db.accepted[k] > 0 || k in w.summaries ==> k.message < w.db.nextId)
    && (forall e: nat, f: nat :: AboutTo(w, e, k) && AboutTo(w, f, k) ==> e == f)
    && (given ==> forall e: nat :: !AboutTo(w, e, k))
    && (Unsettled(w, k) <==> given || exists e: nat :: AboutTo(w, e, k))
  }

  lemma MailKeepsLedger(w: World, action: Action, k: Key, given: bool)
    requires Permitted(w, Mail(action)) && Ledger(w, k, given)
    ensures Ledger(After(w, Mail(action)), k, given)
  {
    MailAccepts(w.db, action, k);
    var v := After(w, Mail(action));
    hide DeliveryRuns.Apply, Permitted;
    assert forall e: nat :: AboutTo(v, e, k) <==> AboutTo(w, e, k);
    hide AboutTo;
  }

  lemma StoreKeepsLedger(w: World, e: nat, k: Key, given: bool)
    requires Permitted(w, StoreStep(e)) && Ledger(w, k, given)
    ensures Ledger(After(w, StoreStep(e)), k, given)
  {
    StoreLeaves(w, e, k);
    hide Permitted, After, AboutTo;
  }

  lemma StoreLeaves(w: World, e: nat, k: Key)
    requires Permitted(w, StoreStep(e))
    ensures var v := After(w, StoreStep(e));
            && v.db.accepted == w.db.accepted && v.db.nextId >= w.db.nextId && w.summaries <= v.summaries
            && (forall f: nat :: f != e ==> (AboutTo(v, f, k) <==> AboutTo(w, f, k)))
            && !AboutTo(w, e, k) && (k in w.summaries && k.message < w.db.nextId ==> !AboutTo(v, e, k))
            && (k in v.summaries && k !in w.summaries ==> AboutTo(v, e, k))
            && (AboutTo(v, e, k) ==> k in v.summaries && k.message == w.db.nextId < v.db.nextId)
  {
    hide Keys, RunKey;
  }

  lemma AnnounceKeepsLedger(w: World, e: nat, k: Key, given: bool)
    requires Permitted(w, AnnounceStep(e)) && Ledger(w, k, given)
    ensures Ledger(After(w, AnnounceStep(e)), k, given)
  {
    hide Highest, QuietOutcome, Settle;
    var v, at := After(w, AnnounceStep(e)), w.At(e);
    SettleAccepts(w.db, Key(at.todo[0].user, at.id), QuietOutcome(Lookup(w.db.quiets, at.todo[0].user), Highest(at.items), at.now),
                  Highest(at.items), k);
    forall f: nat | f != e ensures AboutTo(v, f, k) <==> AboutTo(w, f, k) {}
    assert !AboutTo(v, e, k) && AboutTo(w, e, Key(at.todo[0].user, at.id));
  }

  /** The other steps take on nothing; an engine about to hand over a summary can only give it up. */
  lemma OtherKeepsLedger(w: World, step: Step, k: Key, given: bool)
    requires Permitted(w, step) && Ledger(w, k, given) && !step.Mail? && !step.StoreStep? && !step.AnnounceStep?
    ensures Ledger(After(w, step), k, given || GivesUp(w, step, k))
  {
    hide ItemsOf, KeySet, Interval;
    var v := After(w, step);
    assert v.db.accepted == w.db.accepted && v.db.nextId == w.db.nextId && v.summaries == w.summaries;
    forall f: nat | f != step.e ensures AboutTo(v, f, k) <==> AboutTo(w, f, k) {}
    assert !AboutTo(v, step.e, k);
  }

  lemma StepKeepsLedger(w: World, step: Step, k: Key, given: bool)
    requires Permitted(w, step) && Ledger(w, k, given)
    ensures Ledger(After(w, step), k, given || GivesUp(w, step, k))
  {
    hide Permitted, After, Ledger;
    match step
    case Mail(action) => MailKeepsLedger(w, action, k, given);
    case StoreStep(e) => StoreKeepsLedger(w, e, k, given);
    case AnnounceStep(e) => AnnounceKeepsLedger(w, e, k, given);
    case _ => OtherKeepsLedger(w, step, k, given);
  }

  ghost predicate GivenUp(worlds: seq<World>, steps: seq<Step>, n: nat, k: Key)
    requires DigestPasses.IsRun(worlds, steps) && n <= |steps|
  {
    exists i :: 0 <= i < n && GivesUp(worlds[i], steps[i], k)
  }

  lemma {:induction false} RunKeepsLedger(worlds: seq<World>, steps: seq<Step>, n: nat, k: Key)
    requires DigestPasses.IsRun(worlds, steps) && n <= |steps|
    ensures Ledger(worlds[n], k, GivenUp(worlds, steps, n, k))
  {
    hide Permitted, After, GivesUp;
    if n == 0 {
      assert worlds[0] == Begin(worlds[0].db.clock);
    } else {
      RunKeepsLedger(worlds, steps, n - 1, k);
      hide Ledger;
      assert Permitted(worlds[n - 1], steps[n - 1]) && worlds[n - 1 + 1] == After(worlds[n - 1], steps[n - 1]);
      StepKeepsLedger(worlds[n - 1], steps[n - 1], k, GivenUp(worlds, steps, n - 1, k));
    }
  }

  /**
   * Exactly which stored summaries are never settled, over every run: those that an engine is still about to hand over,
   * and those whose engine crashed at that point or could not look up the quiet hours.
   */
  lemma UnsettledExactly(worlds: seq<World>, steps: seq<Step>, k: Key)
    requires DigestPasses.IsRun(worlds, steps)
    ensures Unsettled(worlds[|steps|], k) <==>
            (exists e: nat :: AboutTo(worlds[|steps|], e, k)) || exists i :: 0 <= i < |steps| && GivesUp(worlds[i], steps[i], k)
  {
    RunKeepsLedger(worlds, steps, |steps|, k);
    hide GivesUp, AboutTo, Unsettled;
  }
}
