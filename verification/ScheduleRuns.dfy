/**
 * Passes over due schedules. `Advance` is what one engine does to one row; the state machine lets any
 * number of engines overlap, each on the copies it loaded, while schedules are edited and engines crash.
 */
module ScheduleRuns {
  import opened Common
  import opened Lists
  import opened ScheduleTime

  const MISFIRE_AFTER: int := 5 * MINUTE

  datatype Schedule = Schedule(plan: Item, skipMisfires: bool, enabled: bool, next: Option<int>)

  /** How an occurrence went: dropped as a misfire, published (or found published), or failed. */
  datatype Outcome = Skipped | Completed | Failed

  predicate Due(s: Schedule, now: int) { s.enabled && s.next.Some? && s.next.value <= now }

  /** The skip policy applies before anything is published. */
  predicate Misfired(s: Schedule, now: int)
    requires s.next.Some?
  {
    s.skipMisfires && now - s.next.value > MISFIRE_AFTER
  }

  /** The row after one occurrence has been treated. */
  function Advance(s: Schedule, now: int, outcome: Outcome): Schedule
    requires s.next.Some?
  {
    var scheduledFor := s.next.value;
    match outcome
    case Skipped =>
      var next := NextRun(s.plan, scheduledFor + SECOND);
      s.(next := next, enabled := s.enabled && next.Some?)
    case Failed => s.(next := Some(now + MINUTE))
    case Completed =>
      var plan := s.plan.(runCount := s.plan.runCount + 1);
      if plan.kind == Once || (plan.maxRuns > 0 && plan.runCount >= plan.maxRuns) then
        s.(plan := plan, enabled := false, next := None)
      else
        var next := NextRun(plan, scheduledFor + SECOND);
        s.(plan := plan, next := next, enabled := s.enabled && next.Some?)
  }

  /** Whatever the outcome, the next occurrence lies strictly after the treated one. */
  lemma AdvanceIsLater(s: Schedule, now: int, outcome: Outcome)
    requires Due(s, now)
    ensures var t := Advance(s, now, outcome);
            (t.next.Some? ==> t.next.value > s.next.value) && (t.next.None? ==> !t.enabled)
  {
    hide NextRun;
    NextRunIsLater(s.plan, s.next.value + SECOND);
    NextRunIsLater(s.plan.(runCount := s.plan.runCount + 1), s.next.value + SECOND);
  }

  /** One attempt of the scheduler: the time and, when the schedule is due then, the outcome. */
  datatype Pass = Pass(now: int, outcome: Outcome)

  /** The occurrences one engine treats over a series of passes. */
  function Occurrences(s: Schedule, passes: seq<Pass>): seq<int>
    decreases |passes|
  {
    if passes == [] then []
    else if Due(s, passes[0].now) then
      [s.next.value] + Occurrences(Advance(s, passes[0].now, passes[0].outcome), passes[1..])
    else
      Occurrences(s, passes[1..])
  }

  /** Passes that follow one another never treat one occurrence twice: their times strictly increase. */
  lemma {:induction false} OccurrencesIncrease(s: Schedule, passes: seq<Pass>)
    ensures var o := Occurrences(s, passes); forall i, j :: 0 <= i < j < |o| ==> o[i] < o[j]
    ensures var o := Occurrences(s, passes); o != [] ==> s.next.Some? && s.next.value <= o[0]
    decreases |passes|
  {
    hide Advance;
    if passes == [] {
    } else {
      if Due(s, passes[0].now) {
        AdvanceIsLater(s, passes[0].now, passes[0].outcome);
        OccurrencesIncrease(Advance(s, passes[0].now, passes[0].outcome), passes[1..]);
      } else {
        OccurrencesIncrease(s, passes[1..]);
      }
    }
  }

  /** How the database took one row of a pass: without its history entry the row is passed over. */
  datatype Attempt = NoHistory | Published | NotPublished

  function Treated(s: Schedule, now: int, attempt: Attempt): Schedule
    requires s.next.Some?
  {
    if attempt.NoHistory? then s
    else Advance(s, now, if Misfired(s, now) then Skipped else if attempt.Published? then Completed else Failed)
  }

  /** runSchedules for one engine: every due row is treated, the others stay. attempts says how the database calls went. */
  method RunSchedules(items: array<Schedule>, now: int, attempts: seq<Attempt>)
    requires |attempts| == items.Length
    modifies items
    ensures forall i :: 0 <= i < items.Length ==>
              items[i] == if Due(old(items[i]), now) then Treated(old(items[i]), now, attempts[i]) else old(items[i])
  {
    hide NextRun;
    for i := 0 to items.Length
      invariant forall k :: i <= k < items.Length ==> items[k] == old(items[k])
      invariant forall k :: 0 <= k < i ==>
                  items[k] == if Due(old(items[k]), now) then Treated(old(items[k]), now, attempts[k]) else old(items[k])
    {
      var item := items[i];
      if item.enabled && item.next.Some? && item.next.value <= now {
        var scheduledFor := item.next.value;
        if attempts[i].NoHistory? { continue; }
        if item.skipMisfires && now - scheduledFor > MISFIRE_AFTER {
          var next := NextScheduleRun(item.plan, scheduledFor + SECOND);
          items[i] := item.(next := next, enabled := next.Some?);
        } else if attempts[i].NotPublished? {
          items[i] := item.(next := Some(now + MINUTE));
        } else {
          var plan := item.plan.(runCount := item.plan.runCount + 1);
          if plan.kind == Once || (plan.maxRuns > 0 && plan.runCount >= plan.maxRuns) {
            items[i] := item.(plan := plan, enabled := false, next := None);
          } else {
            var next := NextScheduleRun(plan, scheduledFor + SECOND);
            items[i] := item.(plan := plan, next := next, enabled := next.Some?);
          }
        }
      }
    }
  }

  // ---------------------------------------------------------------------------------------------
  // Overlapping engines

  /** The deduplication key "schedule:<id>:<scheduledFor>". */
  datatype Key = Key(schedule: nat, scheduledFor: int)

  datatype Copy = Copy(id: nat, row: Schedule)

  datatype Engine =
    | Idle
    | Passing(now: int, copies: seq<Copy>)
    | Delivering(now: int, message: nat, users: seq<nat>, copies: seq<Copy>)
    | Saving(now: int, row: Copy, copies: seq<Copy>)

  /** A stored message: its key and the engine that stored it. */
  datatype Message = Message(key: Key, engine: nat)

  datatype Delivery = Delivery(engine: nat, key: Key, message: nat, user: nat)

  /** messages keeps every message ever stored; keys has those that are not deleted. */
  datatype State = State(schedules: map<nat, Schedule>, messages: map<nat, Message>, keys: map<Key, nat>, nextId: nat,
                         log: seq<Delivery>, engines: map<nat, Engine>)
  {
    function At(e: nat): Engine { if e in engines then engines[e] else Idle }
  }

  function Initial(schedules: map<nat, Schedule>): State { State(schedules, map[], map[], 1, [], map[]) }

  datatype Step =
    | Edit(id: nat, row: Schedule)
    | Load(e: nat, now: int, due: seq<Copy>)
    | Misfire(e: nat)
    | StoreFails(e: nat)
    | Store(e: nat, users: Option<seq<nat>>)
    | Deliver(e: nat)
    | EndDelivery(e: nat)
    | Save(e: nat)
    | Drop(e: nat)
    | DeleteMessage(key: Key)
    | Crash(e: nat)

  predicate AtCopy(s: State, e: nat) { s.At(e).Passing? && s.At(e).copies != [] && s.At(e).copies[0].row.next.Some? }

  predicate Enabled(s: State, step: Step) {
    match step
    case Edit(_, _) => true
    case Load(e, now, due) =>
      s.At(e).Idle? && forall i :: 0 <= i < |due| ==> due[i].id in s.schedules && s.schedules[due[i].id] == due[i].row && Due(due[i].row, now)
    case Misfire(e) => AtCopy(s, e) && Misfired(s.At(e).copies[0].row, s.At(e).now)
    case StoreFails(e) => AtCopy(s, e) && !Misfired(s.At(e).copies[0].row, s.At(e).now)
    // The recipient list is None when looking it up fails after the message was stored.
    case Store(e, users) => AtCopy(s, e) && !Misfired(s.At(e).copies[0].row, s.At(e).now) && (users.Some? ==> Distinct(users.value))
    case Deliver(e) => s.At(e).Delivering? && s.At(e).users != [] && s.At(e).message in s.messages
    case EndDelivery(e) => s.At(e).Delivering? && s.At(e).users == [] && s.At(e).copies != [] && s.At(e).copies[0].row.next.Some?
    case Save(e) => s.At(e).Saving?
    // The history entry cannot be made, or the row cannot be saved.
    case Drop(e) => (s.At(e).Passing? && s.At(e).copies != []) || s.At(e).Saving?
    case DeleteMessage(_) => true
    case Crash(e) => true
  }

  function CopyKey(s: State, e: nat): Key
    requires AtCopy(s, e)
  {
    Key(s.At(e).copies[0].id, s.At(e).copies[0].row.next.value)
  }

  function Next(s: State, step: Step): State
    requires Enabled(s, step)
  {
    match step
    case Edit(id, row) => s.(schedules := s.schedules[id := row])
    case Load(e, now, due) => s.(engines := s.engines[e := Passing(now, due)])
    case Misfire(e) => ToSaving(s, e, Skipped)
    case StoreFails(e) => ToSaving(s, e, Failed)
    case Store(e, users) =>
      var key := CopyKey(s, e);
      if key in s.keys then ToSaving(s, e, Completed)
      else
        var t := s.(messages := s.messages[s.nextId := Message(key, e)], keys := s.keys[key := s.nextId], nextId := s.nextId + 1);
        if users.None? then ToSaving(t, e, Failed)
        else t.(engines := t.engines[e := Delivering(s.At(e).now, s.nextId, users.value, s.At(e).copies)])
    case Deliver(e) =>
      var at := s.At(e);
      s.(log := s.log + [Delivery(e, s.messages[at.message].key, at.message, at.users[0])],
         engines := s.engines[e := at.(users := at.users[1..])])
    case EndDelivery(e) => ToSaving(s, e, Completed)
    case Save(e) =>
      var at := s.At(e);
      s.(schedules := s.schedules[at.row.id := at.row.row], engines := s.engines[e := Passing(at.now, at.copies)])
    case Drop(e) =>
      var at := s.At(e);
      s.(engines := s.engines[e := Passing(at.now, if at.Saving? then at.copies else at.copies[1..])])
    case DeleteMessage(key) => s.(keys := s.keys - {key})
    case Crash(e) => s.(engines := s.engines[e := Idle])
  }

  function ToSaving(s: State, e: nat, outcome: Outcome): State
    requires !s.At(e).Idle? && !s.At(e).Saving? && s.At(e).copies != [] && s.At(e).copies[0].row.next.Some?
  {
    var at := s.At(e);
    var row := at.copies[0].(row := Advance(at.copies[0].row, at.now, outcome));
    s.(engines := s.engines[e := Saving(at.now, row, at.copies[1..])])
  }

  /** A run: a state before every step and one after the last. */
  ghost predicate IsRun(states: seq<State>, steps: seq<Step>) {
    && |states| == |steps| + 1 && states[0] == Initial(states[0].schedules)
    && forall i :: 0 <= i < |steps| ==> Enabled(states[i], steps[i]) && states[i + 1] == Next(states[i], steps[i])
  }

  ghost predicate DeliversOnce(log: seq<Delivery>) {
    forall i, j :: 0 <= i < j < |log| && log[i].message == log[j].message ==> log[i].engine == log[j].engine && log[i].user != log[j].user
  }

  /** An engine delivers what it stored, and only to users the message has not reached. */
  ghost predicate GoodEngine(messages: map<nat, Message>, log: seq<Delivery>, e: nat, at: Engine) {
    at.Delivering? ==>
      && at.message in messages && messages[at.message].engine == e && Distinct(at.users)
      && forall i :: 0 <= i < |log| && log[i].message == at.message ==> log[i].user !in at.users
  }

  ghost predicate Inv(s: State) {
    && DeliversOnce(s.log)
    && (forall m :: m in s.messages ==> m < s.nextId)
    && (forall i :: 0 <= i < |s.log| ==> s.log[i].message in s.messages && s.messages[s.log[i].message] == Message(s.log[i].key, s.log[i].engine))
    && (forall e :: e in s.engines ==> GoodEngine(s.messages, s.log, e, s.engines[e]))
  }

  lemma StoreKeepsInv(s: State, step: Step)
    requires Inv(s) && step.Store? && Enabled(s, step)
    ensures Inv(Next(s, step))
  {
    hide Advance, Misfired;
    var t := Next(s, step);
    forall e | e in t.engines ensures GoodEngine(t.messages, t.log, e, t.engines[e]) {
      if e in s.engines { assert GoodEngine(s.messages, s.log, e, s.engines[e]); }
    }
  }

  lemma StepKeepsInv(s: State, step: Step)
    requires Inv(s) && Enabled(s, step)
    ensures Inv(Next(s, step))
  {
    if step.Store? {
      StoreKeepsInv(s, step);
    } else {
      hide Advance, Misfired, Due;
      var t := Next(s, step);
      forall e | e in t.engines ensures GoodEngine(t.messages, t.log, e, t.engines[e]) {
        if e in s.engines { assert GoodEngine(s.messages, s.log, e, s.engines[e]); }
      }
    }
  }

  lemma {:induction false} RunKeepsInv(states: seq<State>, steps: seq<Step>, n: nat)
    requires IsRun(states, steps) && n <= |steps|
    ensures Inv(states[n])
  {
    hide Enabled, Next;
    if n == 0 {
      assert states[0] == Initial(states[0].schedules);
    } else {
      RunKeepsInv(states, steps, n - 1);
      hide Inv;
      assert Enabled(states[n - 1], steps[n - 1]) && states[n - 1 + 1] == Next(states[n - 1], steps[n - 1]);
      StepKeepsInv(states[n - 1], steps[n - 1]);
    }
  }

  /**
   * In every run of any number of engines, crashes, failures, edits and deletions included, the deliveries of one stored
   * message all come from one engine and reach each user at most once.
   */
  lemma AtMostOncePerMessage(states: seq<State>, steps: seq<Step>)
    requires IsRun(states, steps)
    ensures DeliversOnce(states[|steps|].log)
  {
    RunKeepsInv(states, steps, |steps|);
  }

  lemma StepKeepsKey(s: State, step: Step, key: Key)
    requires Enabled(s, step) && step != DeleteMessage(key) && key in s.keys
    ensures key in Next(s, step).keys && Next(s, step).keys[key] == s.keys[key]
  {
    hide Advance, Misfired, Due;
  }

  /** A stored key keeps its message until that is deleted. */
  lemma {:induction false} KeysStay(states: seq<State>, steps: seq<Step>, i: nat, n: nat, key: Key)
    requires IsRun(states, steps) && i <= n <= |steps| && key in states[i].keys
    requires forall k :: i <= k < n ==> steps[k] != DeleteMessage(key)
    ensures key in states[n].keys && states[n].keys[key] == states[i].keys[key]
  {
    if n == i {
    } else {
      KeysStay(states, steps, i, n - 1, key);
      assert Enabled(states[n - 1], steps[n - 1]) && states[n - 1 + 1] == Next(states[n - 1], steps[n - 1]);
      StepKeepsKey(states[n - 1], steps[n - 1], key);
      hide Enabled, Next;
    }
  }

  // ---------------------------------------------------------------------------------------------
  // Exactly when a key is used again

  /** Some message was stored under the key, perhaps deleted since. */
  ghost predicate Stored(s: State, key: Key) { exists m :: m in s.messages && s.messages[m].key == key }

  ghost predicate StoredTwice(s: State, key: Key) {
    exists m, n :: m in s.messages && n in s.messages && m != n && s.messages[m].key == key == s.messages[n].key
  }

  /** The step deletes the message that is stored under the key. */
  predicate Frees(s: State, step: Step, key: Key) { step == DeleteMessage(key) && key in s.keys }

  /** An engine with a copy of the occurrence comes to store it. */
  predicate Stores(s: State, step: Step, key: Key)
    requires Enabled(s, step)
  {
    step.Store? && CopyKey(s, step.e) == key
  }

  /** What the tables say about a key that has been freed before, or stored again after that. */
  ghost predicate Books(s: State, key: Key, freed: bool, again: bool) {
    && (key in s.keys ==> s.keys[key] in s.messages && s.messages[s.keys[key]].key == key)
    && (Stored(s, key) && key !in s.keys ==> freed)
    && (freed ==> Stored(s, key))
    && (freed && key in s.keys ==> again)
    && (again ==> freed)
    && (StoredTwice(s, key) <==> again)
  }

  lemma StepKeepsBooks(s: State, step: Step, key: Key, freed: bool, again: bool)
    requires Inv(s) && Enabled(s, step) && Books(s, key, freed, again)
    ensures Books(Next(s, step), key, freed || Frees(s, step, key), again || (freed && Stores(s, step, key)))
  {
    hide Advance, Misfired, Due, GoodEngine, DeliversOnce;
    if step.Store? {
      StoreKeepsBooks(s, step, key, freed, again);
    }
  }

  lemma StoreKeepsBooks(s: State, step: Step, key: Key, freed: bool, again: bool)
    requires Inv(s) && step.Store? && Enabled(s, step) && Books(s, key, freed, again)
    ensures Books(Next(s, step), key, freed || Frees(s, step, key), again || (freed && Stores(s, step, key)))
  {
    var t := Next(s, step);
    StoreEffect(s, step);
    hide Inv, Next, Enabled, CopyKey;
    if CopyKey(s, step.e) == key && key !in s.keys {
      FirstUnderKey(s, t, step.e, key, freed, again);
    } else {
      assert forall m :: m in s.messages ==> m in t.messages && t.messages[m] == s.messages[m];
      assert forall m :: m in t.messages && t.messages[m].key == key ==> m in s.messages;
    }
  }

  lemma StoreEffect(s: State, step: Step)
    requires Inv(s) && step.Store? && Enabled(s, step)
    ensures var t, key := Next(s, step), CopyKey(s, step.e);
            && s.nextId !in s.messages
            && t.messages == (if key in s.keys then s.messages else s.messages[s.nextId := Message(key, step.e)])
            && t.keys == if key in s.keys then s.keys else s.keys[key := s.nextId]
  {
    hide Advance, Misfired, Due, GoodEngine, DeliversOnce;
  }

  lemma FirstUnderKey(s: State, t: State, e: nat, key: Key, freed: bool, again: bool)
    requires Books(s, key, freed, again) && key !in s.keys && s.nextId !in s.messages
    requires t.messages == s.messages[s.nextId := Message(key, e)] && t.keys == s.keys[key := s.nextId]
    ensures Books(t, key, freed, again || freed)
  {
    assert s.nextId in t.messages && t.messages[s.nextId].key == key;
    assert forall m :: m in s.messages ==> m in t.messages && t.messages[m] == s.messages[m];
    if Stored(s, key) {
      var m :| m in s.messages && s.messages[m].key == key;
      assert m in t.messages && m != s.nextId;
    }
    forall m | m in t.messages && t.messages[m].key == key && m != s.nextId ensures m in s.messages && s.messages[m].key == key {}
  }

  /** The key has been freed before step n. */
  ghost predicate FreedBefore(states: seq<State>, steps: seq<Step>, n: nat, key: Key)
    requires IsRun(states, steps) && n <= |steps|
  {
    exists i :: 0 <= i < n && Frees(states[i], steps[i], key)
  }

  /** An engine came to store an occurrence whose key had been freed before. */
  ghost predicate Reused(states: seq<State>, steps: seq<Step>, n: nat, key: Key)
    requires IsRun(states, steps) && n <= |steps|
  {
    exists j :: 0 <= j < n && FreedBefore(states, steps, j, key) && Stores(states[j], steps[j], key)
  }

  lemma {:induction false} RunKeepsBooks(states: seq<State>, steps: seq<Step>, n: nat, key: Key)
    requires IsRun(states, steps) && n <= |steps|
    ensures Books(states[n], key, FreedBefore(states, steps, n, key), Reused(states, steps, n, key))
  {
    hide Enabled, Next, Inv, CopyKey;
    if n == 0 {
      assert states[0] == Initial(states[0].schedules);
    } else {
      RunKeepsBooks(states, steps, n - 1, key);
      hide Books;
      RunKeepsInv(states, steps, n - 1);
      assert Enabled(states[n - 1], steps[n - 1]) && states[n - 1 + 1] == Next(states[n - 1], steps[n - 1]);
      StepKeepsBooks(states[n - 1], steps[n - 1], key, FreedBefore(states, steps, n - 1, key), Reused(states, steps, n - 1, key));
    }
  }

  /**
   * Exactly when a deduplication key fails: in every run two messages are stored under it if and only if the message
   * stored first was deleted and an engine that still held a copy of the occurrence came to store it after that.
   */
  lemma StoredTwiceExactly(states: seq<State>, steps: seq<Step>, key: Key)
    requires IsRun(states, steps)
    ensures StoredTwice(states[|steps|], key) <==>
            exists i, j :: 0 <= i < j < |steps| && Frees(states[i], steps[i], key) && Stores(states[j], steps[j], key)
  {
    RunKeepsBooks(states, steps, |steps|, key);
    hide Frees, Stores, StoredTwice, Stored;
    if Reused(states, steps, |steps|, key) {
      var j :| 0 <= j < |steps| && FreedBefore(states, steps, j, key) && Stores(states[j], steps[j], key);
      var i :| 0 <= i < j && Frees(states[i], steps[i], key);
    }
    forall i, j | 0 <= i < j < |steps| && Frees(states[i], steps[i], key) && Stores(states[j], steps[j], key)
      ensures Reused(states, steps, |steps|, key)
    {
      assert FreedBefore(states, steps, j, key);
    }
  }

  /** In every other run all deliveries of the key come from one engine and reach each user at most once. */
  lemma AtMostOncePerKey(states: seq<State>, steps: seq<Step>, key: Key, a: nat, b: nat)
    requires IsRun(states, steps)
    requires !exists i, j :: 0 <= i < j < |steps| && Frees(states[i], steps[i], key) && Stores(states[j], steps[j], key)
    requires var log := states[|steps|].log; a < b < |log| && log[a].key == log[b].key == key
    ensures var log := states[|steps|].log; log[a].engine == log[b].engine && log[a].user != log[b].user
  {
    StoredTwiceExactly(states, steps, key);
    RunKeepsInv(states, steps, |steps|);
    hide IsRun, Frees, Stores, GoodEngine;
  }

  lemma RunOneMore(states: seq<State>, steps: seq<Step>, step: Step) returns (longer: seq<State>, more: seq<Step>)
    requires IsRun(states, steps) && Enabled(states[|steps|], step)
    ensures IsRun(longer, more) && more == steps + [step]
    ensures longer[0] == states[0] && longer[|more|] == Next(states[|steps|], step)
  {
    hide Enabled, Next;
    longer, more := states + [Next(states[|steps|], step)], steps + [step];
    forall i | 0 <= i < |more| ensures Enabled(longer[i], more[i]) && longer[i + 1] == Next(longer[i], more[i]) {
      if i < |steps| {
        assert longer[i] == states[i] && longer[i + 1] == states[i + 1] && more[i] == steps[i];
        assert Enabled(states[i], steps[i]) && states[i + 1] == Next(states[i], steps[i]);
      }
    }
  }

  /** An engine at a copy whose key is free stores the message and delivers it to one user. */
  lemma StoreAndDeliver(states: seq<State>, steps: seq<Step>, e: nat, now: int, copy: Copy, user: nat)
    returns (longer: seq<State>, more: seq<Step>)
    requires IsRun(states, steps) && states[|steps|].At(e) == Passing(now, [copy])
    requires copy.row.next.Some? && !Misfired(copy.row, now) && Key(copy.id, copy.row.next.value) !in states[|steps|].keys
    ensures IsRun(longer, more) && longer[0] == states[0] && more == steps + [Store(e, Some([user])), Deliver(e)]
    ensures var s, t, key := states[|steps|], longer[|more|], Key(copy.id, copy.row.next.value);
            && t.log == s.log + [Delivery(e, key, s.nextId, user)] && t.keys == s.keys[key := s.nextId] && t.nextId == s.nextId + 1
            && forall f: nat :: f != e ==> t.At(f) == s.At(f)
  {
    hide Misfired, Advance, Due;
    var s := states[|steps|];
    var key := CopyKey(s, e);
    longer, more := RunOneMore(states, steps, Store(e, Some([user])));
    var t := longer[|more|];
    assert t.At(e) == Delivering(now, s.nextId, [user], [copy]) && t.messages[s.nextId] == Message(key, e);
    longer, more := RunOneMore(longer, more, Deliver(e));
    hide IsRun;
  }

  /**
   * Such runs exist, whatever the schedule: two engines load the same due row, the first delivers its message, the message
   * is deleted, and the second delivers a new one under the same key to the same user.
   */
  lemma KeyDeliveredTwice(schedules: map<nat, Schedule>, id: nat, now: int, e: nat, f: nat, user: nat)
    returns (states: seq<State>, steps: seq<Step>)
    requires e != f && id in schedules && Due(schedules[id], now) && !Misfired(schedules[id], now)
    ensures IsRun(states, steps) && states[0].schedules == schedules
    ensures var key := Key(id, schedules[id].next.value);
            states[|steps|].log == [Delivery(e, key, 1, user), Delivery(f, key, 2, user)]
  {
    var copy, key := Copy(id, schedules[id]), Key(id, schedules[id].next.value);
    states, steps := BothLoad(schedules, copy, now, e, f);
    hide Misfired, Due;
    states, steps := StoreAndDeliver(states, steps, e, now, copy, user);
    var s := states[|steps|];
    assert s.At(f) == Passing(now, [copy]) && key in s.keys;
    states, steps := RunOneMore(states, steps, DeleteMessage(key));
    assert states[|steps|] == s.(keys := s.keys - {key});
    states, steps := StoreAndDeliver(states, steps, f, now, copy, user);
  }

  lemma BothLoad(schedules: map<nat, Schedule>, copy: Copy, now: int, e: nat, f: nat) returns (states: seq<State>, steps: seq<Step>)
    requires e != f && copy.id in schedules && schedules[copy.id] == copy.row && Due(copy.row, now)
    ensures IsRun(states, steps) && states[0] == Initial(schedules)
    ensures var s := states[|steps|];
            s == Initial(schedules).(engines := map[e := Passing(now, [copy]), f := Passing(now, [copy])])
  {
    states, steps := [Initial(schedules)], [];
    hide Due;
    states, steps := RunOneMore(states, steps, Load(e, now, [copy]));
    states, steps := RunOneMore(states, steps, Load(f, now, [copy]));
  }
}
