/** What a series of passes does to a schedule: what is counted, when it goes on, and when it ends. */
module ScheduleProgress {
  import opened Common
  import opened Lists
  import opened ScheduleTime
  import opened ScheduleRuns

  /** The schedule after a series of passes by one engine. */
  function AfterPasses(s: Schedule, passes: seq<Pass>): Schedule
    decreases |passes|
  {
    if passes == [] then s
    else AfterPasses(if Due(s, passes[0].now) then Advance(s, passes[0].now, passes[0].outcome) else s, passes[1..])
  }

  /** How the due occurrences of the passes went. */
  function Outcomes(s: Schedule, passes: seq<Pass>): seq<Outcome>
    decreases |passes|
  {
    if passes == [] then []
    else if Due(s, passes[0].now) then
      [passes[0].outcome] + Outcomes(Advance(s, passes[0].now, passes[0].outcome), passes[1..])
    else Outcomes(s, passes[1..])
  }

  function CompletedRuns(s: Schedule, passes: seq<Pass>): nat { multiset(Outcomes(s, passes))[Completed] }

  /** Only a completed run is counted, and nothing else of the plan changes. */
  lemma AdvanceCounts(s: Schedule, now: int, outcome: Outcome)
    requires Due(s, now)
    ensures var t := Advance(s, now, outcome);
            && t.plan == s.plan.(runCount := s.plan.runCount + if outcome == Completed then 1 else 0)
            && t.skipMisfires == s.skipMisfires && (t.enabled <==> t.next.Some?)
  {
    hide NextRun;
  }

  /** Over any passes exactly the completed runs are counted, and the plan is otherwise unchanged. */
  lemma {:induction false} RunsAreCounted(s: Schedule, passes: seq<Pass>)
    ensures AfterPasses(s, passes).plan == s.plan.(runCount := s.plan.runCount + CompletedRuns(s, passes))
    decreases |passes|
  {
    hide Advance;
    if passes == [] {
    } else if Due(s, passes[0].now) {
      var t := Advance(s, passes[0].now, passes[0].outcome);
      AdvanceCounts(s, passes[0].now, passes[0].outcome);
      RunsAreCounted(t, passes[1..]);
      assert Outcomes(s, passes) == [passes[0].outcome] + Outcomes(t, passes[1..]);
    } else {
      RunsAreCounted(s, passes[1..]);
    }
  }

  /** The schedule will never be due again. */
  predicate Ended(s: Schedule) { !s.enabled && s.next == None }

  lemma {:induction false} EndedStays(s: Schedule, passes: seq<Pass>)
    requires Ended(s)
    ensures AfterPasses(s, passes) == s && CompletedRuns(s, passes) == 0
    decreases |passes|
  {
    hide Advance;
    if passes == [] {
    } else {
      EndedStays(s, passes[1..]);
    }
  }

  /** A completed run is the last one when the plan is for one run or the runs are used up. */
  lemma LastRunEnds(s: Schedule, now: int)
    requires Due(s, now)
    ensures s.plan.kind == Once || (s.plan.maxRuns > 0 && s.plan.runCount + 1 >= s.plan.maxRuns) ==> Ended(Advance(s, now, Completed))
  {
    hide NextRun;
  }

  /**
   * MaxRuns: a schedule that has runs left completes at most that many over any passes, and when it has completed them
   * it has ended.
   */
  lemma {:induction false} MaxRunsIsKept(s: Schedule, passes: seq<Pass>)
    requires s.plan.maxRuns > 0 && s.plan.runCount < s.plan.maxRuns
    ensures CompletedRuns(s, passes) <= s.plan.maxRuns - s.plan.runCount
    ensures CompletedRuns(s, passes) == s.plan.maxRuns - s.plan.runCount ==> Ended(AfterPasses(s, passes))
    decreases |passes|
  {
    hide Advance, Ended;
    if passes == [] {
    } else if Due(s, passes[0].now) {
      var outcome := passes[0].outcome;
      var t := Advance(s, passes[0].now, outcome);
      AdvanceCounts(s, passes[0].now, outcome);
      assert Outcomes(s, passes) == [outcome] + Outcomes(t, passes[1..]);
      if t.plan.runCount < t.plan.maxRuns {
        MaxRunsIsKept(t, passes[1..]);
      } else {
        LastRunEnds(s, passes[0].now);
        EndedStays(t, passes[1..]);
      }
    } else {
      MaxRunsIsKept(s, passes[1..]);
    }
  }

  /**
   * A recurring schedule goes on: after an occurrence that was completed, or skipped, the next one is the first run of
   * its plan later than that occurrence by a second, as long as its end and its runs allow; otherwise it has ended.
   */
  lemma RecurringGoesOn(s: Schedule, now: int, outcome: Outcome, first: int)
    requires Due(s, now) && s.plan.kind != Once && 24 * |s.plan.excluded| < MAX_ATTEMPTS && outcome != Failed
    requires FirstRun(s.plan, s.next.value + SECOND, first)
    ensures var t := Advance(s, now, outcome);
            var counted := s.plan.runCount + if outcome == Completed then 1 else 0;
            if (s.plan.endAt.Some? ==> first <= s.plan.endAt.value) && (s.plan.maxRuns > 0 ==> counted < s.plan.maxRuns)
            then t.enabled && t.next == Some(first) else Ended(t)
  {
    hide FirstRun, NextRun, Advance;
    var plan := Counted(s.plan, outcome);
    SameRuns(s.plan, plan, s.next.value + SECOND, first);
    NextRunIsFirst(plan, s.next.value + SECOND, first);
    AdvanceLooksAhead(s, now, outcome);
  }

  function Counted(plan: Item, outcome: Outcome): Item {
    if outcome == Completed then plan.(runCount := plan.runCount + 1) else plan
  }

  /** A search that the limits allow decides; the row itself only stops short of one that they do not. */
  lemma AdvanceLooksAhead(s: Schedule, now: int, outcome: Outcome)
    requires Due(s, now) && s.plan.kind != Once && outcome != Failed
    ensures var t, plan := Advance(s, now, outcome), Counted(s.plan, outcome);
            if outcome == Completed && plan.maxRuns > 0 && plan.runCount >= plan.maxRuns then Ended(t)
            else t.next == NextRun(plan, s.next.value + SECOND) && (t.enabled <==> t.next.Some?)
  {
    hide NextRun;
  }

  /** Which instants a plan describes does not depend on the runs counted. */
  lemma SameRuns(plan: Item, other: Item, now: int, first: int)
    requires other == plan.(runCount := other.runCount) && FirstRun(plan, now, first)
    ensures FirstRun(other, now, first)
  {
    forall u | Runnable(other, now, u) ensures first <= u { assert Runnable(plan, now, u); }
  }

  /** A failed occurrence is due again from a minute later on, and not before. */
  lemma FailureIsRetried(s: Schedule, now: int, later: int)
    requires Due(s, now)
    ensures Due(Advance(s, now, Failed), later) <==> later >= now + 60_000_000_000
  {
  }

  /** An occurrence is dropped unpublished exactly when the schedule skips misfires and it is more than five minutes late. */
  lemma MisfiresAreSkippedExactly(s: Schedule, now: int)
    requires Due(s, now)
    ensures Treated(s, now, Published).plan.runCount == s.plan.runCount <==> s.skipMisfires && now > s.next.value + 300_000_000_000
    ensures s.skipMisfires && now > s.next.value + 300_000_000_000 ==>
              Treated(s, now, Published) == Treated(s, now, NotPublished) == Advance(s, now, Skipped)
    ensures Treated(s, now, NoHistory) == s
  {
    AdvanceCounts(s, now, Completed);
    AdvanceCounts(s, now, Skipped);
    hide NextRun, Advance;
  }

  // ---------------------------------------------------------------------------------------------
  // One engine on its own

  /** The engine is back where it was, and the row is treated as the attempt went. */
  ghost predicate RowTreated(s: State, t: State, id: nat, now: int, attempt: Attempt) {
    id in s.schedules && Due(s.schedules[id], now) && t.schedules == s.schedules[id := Treated(s.schedules[id], now, attempt)]
  }

  lemma LoadsRow(s: State, e: nat, id: nat, now: int) returns (t: State)
    requires s.At(e).Idle? && id in s.schedules && Due(s.schedules[id], now)
    ensures Enabled(s, Load(e, now, [Copy(id, s.schedules[id])])) && t == Next(s, Load(e, now, [Copy(id, s.schedules[id])]))
    ensures t == s.(engines := t.engines) && t.At(e) == Passing(now, [Copy(id, s.schedules[id])])
  {
    t := Next(s, Load(e, now, [Copy(id, s.schedules[id])]));
  }

  /** Writing the row back, and the end of the pass. */
  lemma SavesRow(s: State, e: nat, now: int, copy: Copy) returns (t: State)
    requires s.At(e) == Saving(now, copy, [])
    ensures Enabled(s, Save(e)) && Enabled(Next(s, Save(e)), Crash(e)) && t == Next(Next(s, Save(e)), Crash(e))
    ensures t == s.(schedules := s.schedules[copy.id := copy.row], engines := t.engines) && t.At(e).Idle?
  {
    t := Next(Next(s, Save(e)), Crash(e));
    assert s.engines[e := Passing(now, [])][e := Idle] == s.engines[e := Idle];
  }

  /** A late occurrence that is skipped: the machine does to the row what one engine's pass does. */
  lemma MisfireAlone(s: State, e: nat, id: nat, now: int) returns (t: State)
    requires s.At(e).Idle? && id in s.schedules && Due(s.schedules[id], now) && Misfired(s.schedules[id], now)
    ensures var s1 := Next(s, Load(e, now, [Copy(id, s.schedules[id])]));
            && Enabled(s1, Misfire(e)) && Enabled(Next(s1, Misfire(e)), Save(e))
            && t == Next(Next(Next(s1, Misfire(e)), Save(e)), Crash(e))
    ensures RowTreated(s, t, id, now, Published) && t.keys == s.keys && t.log == s.log && t.At(e).Idle?
  {
    hide Advance, Misfired;
    var s1 := LoadsRow(s, e, id, now);
    assert [Copy(id, s.schedules[id])][1..] == [];
    t := SavesRow(Next(s1, Misfire(e)), e, now, Copy(id, Advance(s.schedules[id], now, Skipped)));
  }

  lemma FailureAlone(s: State, e: nat, id: nat, now: int) returns (t: State)
    requires s.At(e).Idle? && id in s.schedules && Due(s.schedules[id], now) && !Misfired(s.schedules[id], now)
    ensures var s1 := Next(s, Load(e, now, [Copy(id, s.schedules[id])]));
            && Enabled(s1, StoreFails(e)) && Enabled(Next(s1, StoreFails(e)), Save(e))
            && t == Next(Next(Next(s1, StoreFails(e)), Save(e)), Crash(e))
    ensures RowTreated(s, t, id, now, NotPublished) && t.keys == s.keys && t.log == s.log && t.At(e).Idle?
  {
    hide Advance, Misfired;
    var s1 := LoadsRow(s, e, id, now);
    assert [Copy(id, s.schedules[id])][1..] == [];
    t := SavesRow(Next(s1, StoreFails(e)), e, now, Copy(id, Advance(s.schedules[id], now, Failed)));
  }

  /** Delivering a stored message to its recipients, one after the other. */
  lemma {:induction false} DeliversAll(s: State, e: nat, now: int, message: nat, users: seq<nat>, copies: seq<Copy>) returns (t: State)
    requires s.At(e) == Delivering(now, message, users, copies) && message in s.messages
    ensures t.At(e) == Delivering(now, message, [], copies) && t == s.(log := t.log, engines := t.engines)
    ensures t.log == s.log + Deliveries(e, s.messages[message].key, message, users)
    ensures Follows(s, seq(|users|, _ => Deliver(e)), t)
    decreases |users|
  {
    hide Advance, Misfired, Due;
    if users == [] {
      t := s;
    } else {
      var next := Next(s, Deliver(e));
      assert next.engines == s.engines[e := Delivering(now, message, users[1..], copies)];
      t := DeliversAll(next, e, now, message, users[1..], copies);
      var steps := seq(|users|, _ => Deliver(e));
      assert steps[1..] == seq(|users[1..]|, _ => Deliver(e));
      assert Follows(s, steps, t);
    }
  }

  function Deliveries(e: nat, key: Key, message: nat, users: seq<nat>): seq<Delivery> {
    seq(|users|, (i: nat) requires i < |users| => Delivery(e, key, message, users[i]))
  }

  /** The steps lead from s to t. */
  ghost predicate Follows(s: State, steps: seq<Step>, t: State)
    decreases |steps|
  {
    if steps == [] then s == t else Enabled(s, steps[0]) && Follows(Next(s, steps[0]), steps[1..], t)
  }

  /**
   * A published occurrence: when its key is free, its message is stored under the key and delivered to every recipient in
   * order; when it is taken, nothing is. The row is treated as one engine's pass does either way.
   */
  lemma PublishAlone(s: State, e: nat, id: nat, now: int, users: seq<nat>) returns (t: State)
    requires s.At(e).Idle? && id in s.schedules && Due(s.schedules[id], now) && !Misfired(s.schedules[id], now) && Distinct(users)
    ensures RowTreated(s, t, id, now, Published) && t.At(e).Idle?
    ensures var key := Key(id, s.schedules[id].next.value);
            if key in s.keys then t.keys == s.keys && t.log == s.log && t.messages == s.messages
            else
              && t.keys == s.keys[key := s.nextId] && t.messages == s.messages[s.nextId := Message(key, e)]
              && |t.log| == |s.log| + |users| && t.log[..|s.log|] == s.log
              && forall i :: 0 <= i < |users| ==> t.log[|s.log| + i] == Delivery(e, key, s.nextId, users[i])
  {
    hide Advance, Misfired, Distinct;
    var row, key := s.schedules[id], Key(id, s.schedules[id].next.value);
    var s1 := LoadsRow(s, e, id, now);
    assert [Copy(id, row)][1..] == [];
    var s2 := Next(s1, Store(e, Some(users)));
    if key in s.keys {
      t := SavesRow(s2, e, now, Copy(id, Advance(row, now, Completed)));
    } else {
      var s3 := DeliversAll(s2, e, now, s.nextId, users, [Copy(id, row)]);
      var s4 := Next(s3, EndDelivery(e));
      t := SavesRow(s4, e, now, Copy(id, Advance(row, now, Completed)));
    }
  }
}
