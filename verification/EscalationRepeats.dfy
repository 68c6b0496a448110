/**
 * The repeats of an escalation: over every run, whatever workers overlap or crash, a row's messages come one repeat after
 * the other, and a row that nobody finished early is completed only when all its repeats are stored.
 */
module EscalationRepeats {
  import opened Common
  import opened Escalation
  import opened Lists

  ghost predicate IsRun(rules: Rules, states: seq<State>, steps: seq<Step>) {
    && |states| == |steps| + 1 && states[0] == Initial()
    && forall i :: 0 <= i < |steps| ==> Follows(rules, states, steps, i)
  }

  ghost predicate Follows(rules: Rules, states: seq<State>, steps: seq<Step>, i: nat)
    requires i < |steps| < |states|
  {
    Enabled(rules, states[i], steps[i]) && states[i + 1] == Next(rules, states[i], steps[i])
  }

  lemma {:induction false} RunIsGood(rules: Rules, states: seq<State>, steps: seq<Step>, n: nat)
    requires IsRun(rules, states, steps) && n <= |steps|
    ensures Inv(rules, states[n]) && Unqueued(states[n])
  {
    hide Enabled, Next;
    if n == 0 {
    } else {
      RunIsGood(rules, states, steps, n - 1);
      hide Inv, Unqueued;
      assert Follows(rules, states, steps, n - 1);
      StepKeepsInv(rules, states[n - 1], steps[n - 1]);
    }
  }

  // ---------------------------------------------------------------------------------------------
  // Repeats come in order

  /** All repeats of the row below this one are stored. */
  ghost predicate StoredBelow(messages: Messages, row: nat, repeat: nat) {
    forall k: nat :: k < repeat ==> KeyStored(messages, Escalated(row, k))
  }

  ghost predicate CopiesReached(messages: Messages, copies: seq<Row>) {
    forall i :: 0 <= i < |copies| ==> StoredBelow(messages, copies[i].id, copies[i].repeat)
  }

  ghost predicate WorkerReached(messages: Messages, at: Worker) {
    match at
    case Idle => true
    case Batch(copies) => CopiesReached(messages, copies)
    case Queueing(_, _, current, copies) =>
      (current.Some? ==> StoredBelow(messages, current.value.id, current.value.repeat + 1)) && CopiesReached(messages, copies)
    case Saving(row, copies) => StoredBelow(messages, row.id, row.repeat + 1) && CopiesReached(messages, copies)
  }

  /** A repeat is stored after the ones before it. */
  ghost predicate InOrder(messages: Messages) {
    forall id :: id in messages && messages[id].origin.Escalated? ==> Preceded(messages, id)
  }

  ghost predicate Preceded(messages: Messages, id: nat)
    requires id in messages && messages[id].origin.Escalated?
  {
    forall k: nat :: k < messages[id].origin.repeat ==>
      exists a :: a in messages && a < id && messages[a].origin == Escalated(messages[id].origin.row, k)
  }

  ghost predicate Reached(s: State) {
    && (forall id :: id in s.rows ==> StoredBelow(s.messages, id, s.rows[id].repeat))
    && (forall w :: w in s.workers ==> WorkerReached(s.messages, s.workers[w]))
    && InOrder(s.messages)
  }

  lemma StoredBelowGrows(messages: Messages, more: Messages, row: nat, repeat: nat)
    requires MessagesGrow(messages, more) && StoredBelow(messages, row, repeat)
    ensures StoredBelow(more, row, repeat)
  {
    forall k: nat | k < repeat ensures KeyStored(more, Escalated(row, k)) {
      assert KeyStored(messages, Escalated(row, k));
      var id :| id in messages && messages[id].origin == Escalated(row, k);
      assert id in more;
    }
  }

  lemma WorkerReachedGrows(messages: Messages, more: Messages, at: Worker)
    requires MessagesGrow(messages, more) && WorkerReached(messages, at)
    ensures WorkerReached(more, at)
  {
    hide StoredBelow;
    forall row: nat, repeat: nat | StoredBelow(messages, row, repeat) ensures StoredBelow(more, row, repeat) {
      StoredBelowGrows(messages, more, row, repeat);
    }
  }

  lemma PrecededGrows(messages: Messages, more: Messages, id: nat)
    requires MessagesGrow(messages, more) && id in messages && messages[id].origin.Escalated? && Preceded(messages, id)
    ensures Preceded(more, id)
  {
    forall k: nat | k < messages[id].origin.repeat
      ensures exists a :: a in more && a < id && more[a].origin == Escalated(messages[id].origin.row, k)
    {
      var a :| a in messages && a < id && messages[a].origin == Escalated(messages[id].origin.row, k);
      assert a in more;
    }
  }

  /** The worker's copy at hand has been stored. */
  lemma OneMoreStored(messages: Messages, row: nat, repeat: nat)
    requires StoredBelow(messages, row, repeat) && KeyStored(messages, Escalated(row, repeat))
    ensures StoredBelow(messages, row, repeat + 1)
  {
    hide KeyStored;
  }

  lemma ChildIsPreceded(messages: Messages, more: Messages, id: nat, row: nat, repeat: nat)
    requires StoredBelow(messages, row, repeat) && MessagesGrow(messages, more) && (forall a :: a in messages ==> a < id)
    requires id in more && more[id].origin == Escalated(row, repeat)
    ensures Preceded(more, id)
  {
    forall k: nat | k < repeat ensures exists a :: a in more && a < id && more[a].origin == Escalated(row, k) {
      assert KeyStored(messages, Escalated(row, k));
      var a :| a in messages && messages[a].origin == Escalated(row, k);
      assert a in more;
    }
  }

  /** A step that stores at most one message, in order, and moves one worker. */
  lemma GrowthKeepsReached(s: State, t: State, w: nat)
    requires Reached(s) && MessagesGrow(s.messages, t.messages) && t.rows == s.rows
    requires forall id :: id in t.messages && id !in s.messages && t.messages[id].origin.Escalated? ==> Preceded(t.messages, id)
    requires w in t.workers && WorkerReached(t.messages, t.workers[w])
    requires forall v :: v in t.workers && v != w ==> v in s.workers && t.workers[v] == s.workers[v]
    ensures Reached(t)
  {
    hide StoredBelow, Preceded, WorkerReached;
    forall id | id in t.rows ensures StoredBelow(t.messages, id, t.rows[id].repeat) {
      StoredBelowGrows(s.messages, t.messages, id, t.rows[id].repeat);
    }
    forall v | v in t.workers ensures WorkerReached(t.messages, t.workers[v]) {
      if v != w { WorkerReachedGrows(s.messages, t.messages, t.workers[v]); }
    }
    forall id | id in t.messages && t.messages[id].origin.Escalated? ensures Preceded(t.messages, id) {
      if id in s.messages { PrecededGrows(s.messages, t.messages, id); }
    }
  }

  lemma PublishKeepsReached(rules: Rules, s: State, step: Step)
    requires Inv(rules, s) && Reached(s) && Enabled(rules, s, step) && step.Publish?
    ensures Reached(Next(rules, s, step))
  {
    var t := Next(rules, s, step);
    assert MessagesGrow(s.messages, t.messages) by { hide Reached; }
    hide Inv, Reached, AnswersFor;
    GrowthKeepsReached(s, t, step.w);
  }

  /** What an escalation does to the messages. */
  lemma EscalateStores(rules: Rules, s: State, step: Step)
    requires Inv(rules, s) && Enabled(rules, s, step) && step.Escalate?
    ensures s.At(step.w).Batch? && s.At(step.w).rows != []
    ensures var t, row, rest := Next(rules, s, step), s.At(step.w).rows[0], s.At(step.w).rows[1..];
            && MessagesGrow(s.messages, t.messages) && KeyStored(t.messages, Escalated(row.id, row.repeat)) && t.rows == s.rows
            && (forall a :: a in s.messages ==> a < s.nextMessage)
            && (forall id :: id in t.messages && id !in s.messages ==> id == s.nextMessage && t.messages[id].origin == Escalated(row.id, row.repeat))
            && step.w in t.workers && (t.workers[step.w] == Saving(row, rest)
                                       || (t.workers[step.w].Queueing? && t.workers[step.w].current == Some(row) && t.workers[step.w].rows == rest))
            && forall v :: v in t.workers && v != step.w ==> v in s.workers && t.workers[v] == s.workers[v]
  {
    hide GoodMessage, GoodRow, GoodWorker, KeysUnique, RowsUnique, RootOf, AnswersFor;
    var t, row := Next(rules, s, step), s.At(step.w).rows[0];
    if !KeyStored(s.messages, Escalated(row.id, row.repeat)) {
      assert t.messages[s.nextMessage].origin == Escalated(row.id, row.repeat);
    }
  }

  lemma EscalateKeepsReached(rules: Rules, s: State, step: Step)
    requires Inv(rules, s) && Reached(s) && Enabled(rules, s, step) && step.Escalate?
    ensures Reached(Next(rules, s, step))
  {
    EscalateStores(rules, s, step);
    assert WorkerReached(s.messages, s.At(step.w)) by { hide Inv, Enabled, Next; }
    hide Inv, Enabled, Next, Reached, KeyStored, Preceded;
    var t, row, rest := Next(rules, s, step), s.At(step.w).rows[0], s.At(step.w).rows[1..];
    assert StoredBelow(s.messages, row.id, row.repeat) && CopiesReached(s.messages, rest);
    assert WorkerReached(s.messages, Batch(rest));
    WorkerReachedGrows(s.messages, t.messages, Batch(rest));
    StoredBelowGrows(s.messages, t.messages, row.id, row.repeat);
    OneMoreStored(t.messages, row.id, row.repeat);
    forall id | id in t.messages && id !in s.messages && t.messages[id].origin.Escalated? ensures Preceded(t.messages, id) {
      ChildIsPreceded(s.messages, t.messages, id, row.id, row.repeat);
    }
    hide StoredBelow;
    GrowthKeepsReached(s, t, step.w);
  }

  /** The other steps store no message. */
  lemma OtherKeepsReached(rules: Rules, s: State, step: Step)
    requires Reached(s) && Enabled(rules, s, step) && !step.Publish? && !step.Escalate?
    ensures Reached(Next(rules, s, step))
  {
    hide StoredBelow, InOrder, WouldCycle, RowLive;
    var t := Next(rules, s, step);
    assert t.messages == s.messages;
    forall row: nat ensures StoredBelow(s.messages, row, 0) { NothingBelow(s.messages, row); }
    if !step.Cleanup? {
      if step.w in s.workers { assert WorkerReached(s.messages, s.workers[step.w]); }
      assert forall v :: v in t.workers && v != step.w ==> v in s.workers && t.workers[v] == s.workers[v];
    }
  }

  lemma NothingBelow(messages: Messages, row: nat)
    ensures StoredBelow(messages, row, 0)
  {
  }

  lemma StepKeepsReached(rules: Rules, s: State, step: Step)
    requires Inv(rules, s) && Reached(s) && Enabled(rules, s, step)
    ensures Reached(Next(rules, s, step))
  {
    hide Inv, Reached, Enabled, Next;
    match step
    case Publish(_, _, _, _) => PublishKeepsReached(rules, s, step);
    case Escalate(_, _, _) => EscalateKeepsReached(rules, s, step);
    case _ => OtherKeepsReached(rules, s, step);
  }

  lemma {:induction false} RunReaches(rules: Rules, states: seq<State>, steps: seq<Step>, n: nat)
    requires IsRun(rules, states, steps) && n <= |steps|
    ensures Reached(states[n])
  {
    hide Inv, Unqueued, Enabled, Next;
    if n == 0 {
    } else {
      RunReaches(rules, states, steps, n - 1);
      hide Reached;
      RunIsGood(rules, states, steps, n - 1);
      assert Follows(rules, states, steps, n - 1);
      StepKeepsReached(rules, states[n - 1], steps[n - 1]);
    }
  }

  /** In every run, a stored repeat of a row comes after all the repeats below it, each of them stored before the next. */
  lemma RepeatsInOrder(rules: Rules, states: seq<State>, steps: seq<Step>, id: nat, k: nat)
    requires IsRun(rules, states, steps) && id in states[|steps|].messages
    requires states[|steps|].messages[id].origin.Escalated? && k < states[|steps|].messages[id].origin.repeat
    ensures exists a :: a in states[|steps|].messages && a < id
                        && states[|steps|].messages[a].origin == Escalated(states[|steps|].messages[id].origin.row, k)
  {
    RunReaches(rules, states, steps, |steps|);
    PrecededBy(states[|steps|].messages, id, k);
  }

  lemma PrecededBy(messages: Messages, id: nat, k: nat)
    requires InOrder(messages) && id in messages && messages[id].origin.Escalated? && k < messages[id].origin.repeat
    ensures exists a :: a in messages && a < id && messages[a].origin == Escalated(messages[id].origin.row, k)
  {
    assert Preceded(messages, id);
    var a :| a in messages && a < id && messages[a].origin == Escalated(messages[id].origin.row, k);
  }

  // ---------------------------------------------------------------------------------------------
  // All repeats are sent

  /** A saved row stays open exactly while its next repeat is one that the rule still sends. */
  lemma SavedRowIsOpenExactly(rule: Rule, row: Row)
    ensures var saved := Advanced(rule, row);
            && saved.id == row.id && saved.rule == row.rule && saved.message == row.message && saved.repeat == row.repeat + 1
            && (!saved.completed <==> saved.repeat <= rule.LastRepeat())
  {
  }

  /** The step completes the row without sending anything: it is acknowledged, or its message or rule is gone. */
  predicate Finishes(s: State, step: Step, id: nat) {
    step.Finish? && s.At(step.w).Batch? && s.At(step.w).rows != [] && s.At(step.w).rows[0].id == id
  }

  /** The row is completed by its last repeat only. */
  ghost predicate CompletedByRepeats(rules: Rules, s: State, id: nat) {
    id in s.rows && s.rows[id].completed && s.rows[id].rule in rules ==> s.rows[id].repeat == rules[s.rows[id].rule].LastRepeat() + 1
  }

  lemma StepCompletes(rules: Rules, s: State, step: Step, id: nat)
    requires Inv(rules, s) && Enabled(rules, s, step) && CompletedByRepeats(rules, s, id) && !Finishes(s, step, id)
    ensures CompletedByRepeats(rules, Next(rules, s, step), id)
  {
    hide GoodMessage, GoodRow, KeysUnique, RowsUnique, RootOf, AnswersFor, KeyStored, WouldCycle, RowLive;
    if step.Save? {
      assert GoodWorker(rules, s.messages, s.rows, s.workers[step.w]);
      SavedRowIsOpenExactly(rules[s.At(step.w).row.rule], s.At(step.w).row);
      hide Advanced;
    }
  }

  lemma {:induction false} RunCompletes(rules: Rules, states: seq<State>, steps: seq<Step>, n: nat, id: nat)
    requires IsRun(rules, states, steps) && n <= |steps|
    requires forall i :: 0 <= i < n ==> !Finishes(states[i], steps[i], id)
    ensures CompletedByRepeats(rules, states[n], id)
  {
    hide Inv, Unqueued, Enabled, Next, Finishes;
    if n == 0 {
    } else {
      RunCompletes(rules, states, steps, n - 1, id);
      hide CompletedByRepeats;
      RunIsGood(rules, states, steps, n - 1);
      assert Follows(rules, states, steps, n - 1);
      StepCompletes(rules, states[n - 1], steps[n - 1], id);
    }
  }

  /** The messages that the row has sent. */
  function Sent(messages: Messages, row: nat): set<nat> {
    set id | id in messages && messages[id].origin.Escalated? && messages[id].origin.row == row
  }

  lemma {:induction false} SentSize(messages: Messages, row: nat, n: nat)
    requires KeysUnique(messages) && forall k: nat :: KeyStored(messages, Escalated(row, k)) <==> k < n
    ensures |Sent(messages, row)| == n
  {
    hide KeyStored, KeysUnique, Sent;
    if n == 0 {
      NothingSent(messages, row);
    } else {
      var last := WithoutLast(messages, row, n);
      SentSize(messages - {last}, row, n - 1);
    }
  }

  lemma NothingSent(messages: Messages, row: nat)
    requires forall k: nat :: !KeyStored(messages, Escalated(row, k))
    ensures Sent(messages, row) == {}
  {
    forall id ensures id !in Sent(messages, row) {
      if id in Sent(messages, row) { assert KeyStored(messages, Escalated(row, messages[id].origin.repeat)); }
    }
  }

  /** Taking away the last repeat. */
  lemma WithoutLast(messages: Messages, row: nat, n: nat) returns (last: nat)
    requires n > 0 && KeysUnique(messages) && forall k: nat :: KeyStored(messages, Escalated(row, k)) <==> k < n
    ensures var before := messages - {last};
            && KeysUnique(before) && (forall k: nat :: KeyStored(before, Escalated(row, k)) <==> k < n - 1)
            && |Sent(messages, row)| == |Sent(before, row)| + 1
  {
    assert KeyStored(messages, Escalated(row, n - 1));
    last :| last in messages && messages[last].origin == Escalated(row, n - 1);
    var before := messages - {last};
    forall k: nat ensures KeyStored(before, Escalated(row, k)) <==> k < n - 1 { StoredWithout(messages, row, n - 1, last, k); }
    assert Sent(messages, row) == Sent(before, row) + {last};
    hide KeyStored;
  }

  lemma StoredWithout(messages: Messages, row: nat, repeat: nat, last: nat, k: nat)
    requires KeysUnique(messages) && last in messages && messages[last].origin == Escalated(row, repeat)
    ensures KeyStored(messages - {last}, Escalated(row, k)) <==> KeyStored(messages, Escalated(row, k)) && k != repeat
  {
    var before := messages - {last};
    if KeyStored(messages, Escalated(row, k)) && k != repeat {
      var id :| id in messages && messages[id].origin == Escalated(row, k);
      assert id in before;
    }
    if KeyStored(before, Escalated(row, k)) {
      var id :| id in before && before[id].origin == Escalated(row, k);
      assert id in messages;
    }
  }

  /**
   * Over every run: a completed row that no worker finished early has sent exactly its repeats, from the first message to
   * the last repeat of its rule, each once.
   */
  lemma EveryRepeatIsSent(rules: Rules, states: seq<State>, steps: seq<Step>, id: nat)
    requires IsRun(rules, states, steps) && id in states[|steps|].rows && states[|steps|].rows[id].completed
    requires forall i :: 0 <= i < |steps| ==> !Finishes(states[i], steps[i], id)
    ensures var s := states[|steps|];
            && s.rows[id].rule in rules
            && var rule := rules[s.rows[id].rule];
               var repeats: nat := if rule.repeatMinutes > 0 && rule.maxRepeats > 0 then rule.maxRepeats else 0;
               && (forall k: nat :: KeyStored(s.messages, Escalated(id, k)) <==> k <= repeats)
               && |Sent(s.messages, id)| == 1 + repeats
  {
    var s := states[|steps|];
    RunIsGood(rules, states, steps, |steps|);
    RunReaches(rules, states, steps, |steps|);
    RunCompletes(rules, states, steps, |steps|, id);
    hide IsRun, Unqueued, Finishes;
    var last := rules[s.rows[id].rule].LastRepeat();
    assert StoredBelow(s.messages, id, last + 1) by { assert GoodRow(rules, s.messages, s.rows, id); }
    forall k: nat ensures KeyStored(s.messages, Escalated(id, k)) <==> k <= last {
      if KeyStored(s.messages, Escalated(id, k)) { RepeatIsBounded(rules, s, id, k); }
    }
    hide Reached, CompletedByRepeats;
    SentSize(s.messages, id, last + 1);
  }

  lemma RepeatIsBounded(rules: Rules, s: State, row: nat, k: nat)
    requires Inv(rules, s) && row in s.rows && KeyStored(s.messages, Escalated(row, k))
    ensures s.rows[row].rule in rules && k <= rules[s.rows[row].rule].LastRepeat()
  {
    var id :| id in s.messages && s.messages[id].origin == Escalated(row, k);
    assert GoodMessage(rules, s.messages, s.rows, id);
  }

  // ---------------------------------------------------------------------------------------------
  // What a repeat is about

  /** An escalated message is as urgent as the one it is about. */
  ghost predicate Inherits(messages: Messages) {
    forall id :: id in messages && messages[id].origin.Escalated? ==>
      messages[id].parent in messages && messages[id].priority == messages[messages[id].parent].priority
  }

  /** A row's rule is for messages like the one it is about. */
  ghost predicate RowsMatch(rules: Rules, messages: Messages, rows: Rows) {
    forall id :: id in rows ==> MatchesHere(rules, messages, rows[id].rule, rows[id].message)
  }

  predicate MatchesHere(rules: Rules, messages: Messages, rule: nat, message: nat) {
    && rule in rules && message in messages
    && rules[rule].enabled && rules[rule].sourceApp == messages[message].app && rules[rule].minPriority <= messages[message].priority
  }

  ghost predicate WorkerMatches(rules: Rules, messages: Messages, at: Worker) {
    at.Queueing? ==> forall i :: 0 <= i < |at.todo| ==> MatchesHere(rules, messages, at.todo[i], at.message)
  }

  ghost predicate Fitting(rules: Rules, s: State) {
    Inherits(s.messages) && RowsMatch(rules, s.messages, s.rows) && forall w :: w in s.workers ==> WorkerMatches(rules, s.messages, s.workers[w])
  }

  lemma MatchesStays(rules: Rules, messages: Messages, more: Messages, rule: nat, message: nat)
    requires MessagesGrow(messages, more) && MatchesHere(rules, messages, rule, message)
    ensures MatchesHere(rules, more, rule, message)
  {
  }

  lemma FittingGrows(rules: Rules, s: State, messages: Messages)
    requires MessagesGrow(s.messages, messages) && Fitting(rules, s)
    ensures RowsMatch(rules, messages, s.rows) && forall w :: w in s.workers ==> WorkerMatches(rules, messages, s.workers[w])
  {
    hide MatchesHere;
    forall rule: nat, message: nat | MatchesHere(rules, s.messages, rule, message) ensures MatchesHere(rules, messages, rule, message) {
      MatchesStays(rules, s.messages, messages, rule, message);
    }
  }

  lemma AnswersMatch(rules: Rules, messages: Messages, id: nat, todo: seq<nat>)
    requires id in messages && AnswersFor(rules, messages[id], todo)
    ensures forall i :: 0 <= i < |todo| ==> MatchesHere(rules, messages, todo[i], id)
  {
  }

  lemma GrowthFits(rules: Rules, s: State, t: State, w: nat)
    requires Fitting(rules, s) && MessagesGrow(s.messages, t.messages) && t.rows == s.rows && Inherits(t.messages)
    requires w in t.workers && WorkerMatches(rules, t.messages, t.workers[w])
    requires forall v :: v in t.workers && v != w ==> v in s.workers && t.workers[v] == s.workers[v]
    ensures Fitting(rules, t)
  {
    FittingGrows(rules, s, t.messages);
    hide RowsMatch, WorkerMatches, Inherits;
  }

  lemma PublishFits(rules: Rules, s: State, step: Step)
    requires Inv(rules, s) && Fitting(rules, s) && Enabled(rules, s, step) && step.Publish?
    ensures Fitting(rules, Next(rules, s, step))
  {
    StoringGrows(rules, s, step);
    PublishInherits(rules, s, step);
    PublishWorker(rules, s, step);
    hide Inv, Enabled, Next, Fitting;
    assert Fitting(rules, s);
    GrowthFits(rules, s, Next(rules, s, step), step.w);
  }

  lemma PublishInherits(rules: Rules, s: State, step: Step)
    requires Inherits(s.messages) && Enabled(rules, s, step) && step.Publish? && MessagesGrow(s.messages, Next(rules, s, step).messages)
    ensures Inherits(Next(rules, s, step).messages)
  {
    hide AnswersFor;
  }

  lemma PublishWorker(rules: Rules, s: State, step: Step)
    requires Enabled(rules, s, step) && step.Publish?
    ensures var t := Next(rules, s, step);
            && t.rows == s.rows && step.w in t.workers && WorkerMatches(rules, t.messages, t.workers[step.w])
            && forall v :: v in t.workers && v != step.w ==> v in s.workers && t.workers[v] == s.workers[v]
  {
    AnswersMatch(rules, Next(rules, s, step).messages, s.nextMessage, step.todo);
    hide AnswersFor, MatchesHere;
  }

  lemma EscalateFits(rules: Rules, s: State, step: Step)
    requires Inv(rules, s) && Fitting(rules, s) && Enabled(rules, s, step) && step.Escalate?
    ensures Fitting(rules, Next(rules, s, step))
  {
    var t := Next(rules, s, step);
    StoringGrows(rules, s, step);
    ChildInherits(rules, s, step);
    EscalateWorker(rules, s, step);
    hide Inv, Enabled, Next, Fitting;
    assert Fitting(rules, s);
    GrowthFits(rules, s, t, step.w);
  }

  lemma ChildInherits(rules: Rules, s: State, step: Step)
    requires Inv(rules, s) && Inherits(s.messages) && Enabled(rules, s, step) && step.Escalate?
    ensures Inherits(Next(rules, s, step).messages)
  {
    StoringGrows(rules, s, step);
    hide Inv, AnswersFor, KeyStored, RootOf;
  }

  lemma EscalateWorker(rules: Rules, s: State, step: Step)
    requires Enabled(rules, s, step) && step.Escalate?
    ensures var t := Next(rules, s, step);
            && t.rows == s.rows && step.w in t.workers && WorkerMatches(rules, t.messages, t.workers[step.w])
            && forall v :: v in t.workers && v != step.w ==> v in s.workers && t.workers[v] == s.workers[v]
  {
    var t := Next(rules, s, step);
    var row := s.At(step.w).rows[0];
    if !KeyStored(s.messages, Escalated(row.id, row.repeat)) { AnswersMatch(rules, t.messages, s.nextMessage, step.todo); }
    hide AnswersFor, MatchesHere, KeyStored, RootOf;
  }

  /** The other steps queue a rule at most, one of those the worker has found for the message. */
  lemma OtherRows(rules: Rules, s: State, step: Step, id: nat)
    requires Inv(rules, s) && Enabled(rules, s, step) && !step.Publish? && !step.Escalate? && id in Next(rules, s, step).rows
    ensures var row := Next(rules, s, step).rows[id];
            || (id in s.rows && row.rule == s.rows[id].rule && row.message == s.rows[id].message)
            || (step.QueueRule? && s.At(step.w).Queueing? && s.At(step.w).todo != [] && row.rule == s.At(step.w).todo[0] && row.message == s.At(step.w).message)
  {
    if id in s.rows {
      RowStays(rules, s, step, id);
    } else {
      NewRow(rules, s, step, id);
    }
    hide Inv, Enabled, Next;
  }

  lemma NewRow(rules: Rules, s: State, step: Step, id: nat)
    requires Inv(rules, s) && Enabled(rules, s, step) && !step.Publish? && !step.Escalate?
    requires id !in s.rows && id in Next(rules, s, step).rows
    ensures var row := Next(rules, s, step).rows[id];
            step.QueueRule? && s.At(step.w).Queueing? && s.At(step.w).todo != [] && row.rule == s.At(step.w).todo[0] && row.message == s.At(step.w).message
  {
    if step.Save? || step.Finish? { CopyIsGood(rules, s, step); }
    hide Inv, WouldCycle, RowLive, Advanced;
  }

  /** The copy that a worker writes back. */
  lemma CopyIsGood(rules: Rules, s: State, step: Step)
    requires Inv(rules, s) && Enabled(rules, s, step) && (step.Save? || step.Finish?)
    ensures var at := s.At(step.w);
            var copy := if step.Finish? then at.rows[0] else at.row;
            copy.id in s.rows && s.rows[copy.id].rule == copy.rule && s.rows[copy.id].message == copy.message
  {
    assert GoodWorker(rules, s.messages, s.rows, s.workers[step.w]);
    hide GoodMessage, GoodRow, KeysUnique, RowsUnique;
  }

  lemma OtherWorkers(rules: Rules, s: State, step: Step, w: nat)
    requires Enabled(rules, s, step) && !step.Publish? && !step.Escalate? && w in Next(rules, s, step).workers
    requires w in s.workers ==> WorkerMatches(rules, s.messages, s.workers[w])
    ensures WorkerMatches(rules, s.messages, Next(rules, s, step).workers[w])
  {
    hide MatchesHere, WouldCycle, RowLive, Advanced;
  }

  lemma OtherFits(rules: Rules, s: State, step: Step)
    requires Inv(rules, s) && Fitting(rules, s) && Enabled(rules, s, step) && !step.Publish? && !step.Escalate?
    ensures Fitting(rules, Next(rules, s, step))
  {
    var t := Next(rules, s, step);
    assert t.messages == s.messages;
    hide Inv, Enabled, Next, MatchesHere, Inherits;
    forall id | id in t.rows ensures MatchesHere(rules, t.messages, t.rows[id].rule, t.rows[id].message) {
      OtherRows(rules, s, step, id);
      if step.QueueRule? && step.w in s.workers { assert WorkerMatches(rules, s.messages, s.workers[step.w]); }
    }
    forall w | w in t.workers ensures WorkerMatches(rules, t.messages, t.workers[w]) { OtherWorkers(rules, s, step, w); }
  }

  lemma {:induction false} RunFits(rules: Rules, states: seq<State>, steps: seq<Step>, n: nat)
    requires IsRun(rules, states, steps) && n <= |steps|
    ensures Fitting(rules, states[n])
  {
    hide Inv, Unqueued, Enabled, Next;
    if n == 0 {
    } else {
      RunFits(rules, states, steps, n - 1);
      hide Fitting;
      RunIsGood(rules, states, steps, n - 1);
      assert Follows(rules, states, steps, n - 1);
      var s, step := states[n - 1], steps[n - 1];
      match step
      case Publish(_, _, _, _) => PublishFits(rules, s, step);
      case Escalate(_, _, _) => EscalateFits(rules, s, step);
      case _ => OtherFits(rules, s, step);
    }
  }

  /**
   * In every run an escalated message is about a message that its rule is for: an enabled rule of that message's channel
   * whose least priority it reaches. It is as urgent as that message, and goes to the rule's channel if it names one.
   */
  lemma EscalationsFitTheirRules(rules: Rules, states: seq<State>, steps: seq<Step>, id: nat)
    requires IsRun(rules, states, steps) && id in states[|steps|].messages && states[|steps|].messages[id].origin.Escalated?
    ensures var messages := states[|steps|].messages;
            var m := messages[id];
            && m.parent in messages && m.rule in rules && rules[m.rule].enabled
            && rules[m.rule].sourceApp == messages[m.parent].app && rules[m.rule].minPriority <= messages[m.parent].priority
            && m.priority == messages[m.parent].priority
            && (rules[m.rule].targetType == ChannelTarget ==>
                  m.app == if rules[m.rule].targetAppId != 0 then rules[m.rule].targetAppId else rules[m.rule].targetId)
  {
    var s := states[|steps|];
    RunIsGood(rules, states, steps, |steps|);
    RunFits(rules, states, steps, |steps|);
    assert GoodMessage(rules, s.messages, s.rows, id);
    assert MatchesHere(rules, s.messages, s.rows[s.messages[id].origin.row].rule, s.rows[s.messages[id].origin.row].message);
    hide IsRun, Unqueued, WorkerMatches, GoodRow, GoodWorker;
  }

  // ---------------------------------------------------------------------------------------------
  // Every rule is queued

  /** A rule that is for the message, and would not send it round, is still to be queued or has been. */
  ghost predicate Provided(rules: Rules, messages: Messages, rows: Rows, at: Worker, rule: nat) {
    at.Queueing? && at.message in messages && rule in rules && rules[rule].Matches(messages[at.message])
    && !WouldCycle(messages, at.message, rules[rule]) ==>
      rule in at.todo || RowStored(rows, rule, at.message)
  }

  lemma StoredStays(rows: Rows, more: Rows, rule: nat, message: nat)
    requires RowsGrow(rows, more) && RowStored(rows, rule, message)
    ensures RowStored(more, rule, message)
  {
    var id :| id in rows && rows[id].rule == rule && rows[id].message == message;
    assert id in more;
  }

  /** Later messages and rows change nothing for a worker that stands still. */
  lemma ProvidedStays(rules: Rules, s: State, t: State, at: Worker, rule: nat)
    requires Inv(rules, s) && MessagesGrow(s.messages, t.messages) && RowsGrow(s.rows, t.rows)
    requires at.Queueing? ==> at.message in s.messages
    requires Provided(rules, s.messages, s.rows, at, rule)
    ensures Provided(rules, t.messages, t.rows, at, rule)
  {
    if at.Queueing? && rule in rules {
      VisitsStable(rules, s.messages, s.rows, t.messages, at.message, rules[rule].Channel(), CYCLE_SEARCH);
      if RowStored(s.rows, rule, at.message) { StoredStays(s.rows, t.rows, rule, at.message); }
    }
    hide Inv, Visits, RowStored;
  }

  lemma TablesGrow(rules: Rules, s: State, step: Step)
    requires Inv(rules, s) && Enabled(rules, s, step)
    ensures MessagesGrow(s.messages, Next(rules, s, step).messages) && RowsGrow(s.rows, Next(rules, s, step).rows)
  {
    hide Enabled, Next, MessagesGrow, RowsGrow, Inv;
    if step.Publish? || step.Escalate? {
      StoringGrows(rules, s, step);
    } else {
      WritingGrows(rules, s, step);
    }
  }

  lemma StoringGrows(rules: Rules, s: State, step: Step)
    requires Inv(rules, s) && Enabled(rules, s, step) && (step.Publish? || step.Escalate?)
    ensures MessagesGrow(s.messages, Next(rules, s, step).messages) && RowsGrow(s.rows, Next(rules, s, step).rows)
  {
    hide GoodMessage, GoodRow, GoodWorker, KeysUnique, RowsUnique, KeyStored, RootOf, AnswersFor;
  }

  lemma WritingGrows(rules: Rules, s: State, step: Step)
    requires Inv(rules, s) && Enabled(rules, s, step) && !step.Publish? && !step.Escalate?
    ensures MessagesGrow(s.messages, Next(rules, s, step).messages) && RowsGrow(s.rows, Next(rules, s, step).rows)
  {
    var t := Next(rules, s, step);
    assert t.messages == s.messages;
    forall id | id in s.rows ensures id in t.rows && t.rows[id].rule == s.rows[id].rule && t.rows[id].message == s.rows[id].message {
      RowStays(rules, s, step, id);
    }
    hide Inv, Enabled, Next;
  }

  lemma RowStays(rules: Rules, s: State, step: Step, id: nat)
    requires Inv(rules, s) && Enabled(rules, s, step) && !step.Publish? && !step.Escalate? && id in s.rows
    ensures var t := Next(rules, s, step); id in t.rows && t.rows[id].rule == s.rows[id].rule && t.rows[id].message == s.rows[id].message
  {
    hide Inv, WouldCycle, RowLive, Advanced;
    assert id < s.nextRow by { IdsAreOld(rules, s, id); }
    if step.Save? || step.Finish? { CopyIsGood(rules, s, step); }
    if step.Save? { SavedRowIsOpenExactly(rules[s.At(step.w).row.rule], s.At(step.w).row); }
  }

  lemma IdsAreOld(rules: Rules, s: State, id: nat)
    requires Inv(rules, s) && id in s.rows
    ensures id < s.nextRow
  {
    hide GoodMessage, GoodRow, GoodWorker, KeysUnique, RowsUnique;
  }

  lemma QueueRuleProvides(rules: Rules, s: State, step: Step, rule: nat)
    requires Inv(rules, s) && Enabled(rules, s, step) && step.QueueRule? && Provided(rules, s.messages, s.rows, s.At(step.w), rule)
    ensures Provided(rules, Next(rules, s, step).messages, Next(rules, s, step).rows, Next(rules, s, step).At(step.w), rule)
  {
    TablesGrow(rules, s, step);
    var at, t := s.At(step.w), Next(rules, s, step);
    assert s.messages == t.messages;
    if RowStored(s.rows, rule, at.message) {
      StoredStays(s.rows, t.rows, rule, at.message);
    } else if rule == at.todo[0] && !WouldCycle(s.messages, at.message, rules[rule]) {
      assert !RowLive(s.rows, s.cleaned, rule, at.message);
      assert t.rows[s.nextRow].rule == rule && t.rows[s.nextRow].message == at.message;
    }
    hide Inv, WouldCycle;
  }

  lemma StartProvides(rules: Rules, s: State, step: Step, rule: nat)
    requires Enabled(rules, s, step) && (step.Publish? || step.Escalate?)
    ensures Provided(rules, Next(rules, s, step).messages, Next(rules, s, step).rows, Next(rules, s, step).At(step.w), rule)
  {
    hide WouldCycle, RowStored, KeyStored;
  }

  lemma OthersStand(rules: Rules, s: State, step: Step, w: nat)
    requires Enabled(rules, s, step) && (step.Cleanup? || step.w != w)
    ensures Next(rules, s, step).At(w) == s.At(w)
  {
    hide KeyStored, WouldCycle, RowLive, RootOf, Child, Advanced;
  }

  /** The worker's own other steps leave it with nothing to queue. */
  lemma OwnStepEnds(rules: Rules, s: State, step: Step)
    requires Enabled(rules, s, step) && !step.Publish? && !step.Escalate? && !step.QueueRule? && !step.Cleanup?
    ensures !Next(rules, s, step).At(step.w).Queueing?
  {
  }

  lemma StepProvides(rules: Rules, s: State, step: Step, w: nat, rule: nat)
    requires Inv(rules, s) && Enabled(rules, s, step) && Provided(rules, s.messages, s.rows, s.At(w), rule)
    ensures Provided(rules, Next(rules, s, step).messages, Next(rules, s, step).rows, Next(rules, s, step).At(w), rule)
  {
    TablesGrow(rules, s, step);
    if step.Cleanup? || step.w != w {
      OthersStand(rules, s, step, w);
      if w in s.workers { assert GoodWorker(rules, s.messages, s.rows, s.workers[w]); }
      ProvidedStays(rules, s, Next(rules, s, step), s.At(w), rule);
    } else if step.QueueRule? {
      QueueRuleProvides(rules, s, step, rule);
    } else if step.Publish? || step.Escalate? {
      StartProvides(rules, s, step, rule);
    } else {
      OwnStepEnds(rules, s, step);
    }
    hide Inv, Enabled, Next, MessagesGrow, RowsGrow;
  }

  lemma {:induction false} RunProvides(rules: Rules, states: seq<State>, steps: seq<Step>, n: nat, w: nat, rule: nat)
    requires IsRun(rules, states, steps) && n <= |steps|
    ensures Provided(rules, states[n].messages, states[n].rows, states[n].At(w), rule)
  {
    hide Inv, Unqueued, Enabled, Next;
    if n == 0 {
    } else {
      RunProvides(rules, states, steps, n - 1, w, rule);
      hide Provided;
      RunIsGood(rules, states, steps, n - 1);
      assert Follows(rules, states, steps, n - 1);
      StepProvides(rules, states[n - 1], steps[n - 1], w, rule);
    }
  }

  /**
   * In every run, when a worker has queued its whole list for a message, every rule for messages of that channel and
   * priority has a row for it, unless the rule would send it where it has been.
   */
  lemma EveryRuleIsQueued(rules: Rules, states: seq<State>, steps: seq<Step>, n: nat, w: nat, rule: nat)
    requires IsRun(rules, states, steps) && n <= |steps| && states[n].At(w).Queueing? && states[n].At(w).todo == []
    requires rule in rules && rules[rule].enabled
    ensures states[n].At(w).message in states[n].messages
    ensures var id := states[n].At(w).message;
            var m := states[n].messages[id];
            rules[rule].sourceApp == m.app && rules[rule].minPriority <= m.priority && !WouldCycle(states[n].messages, id, rules[rule]) ==>
              RowStored(states[n].rows, rule, id)
  {
    RunProvides(rules, states, steps, n, w, rule);
    RunIsGood(rules, states, steps, n);
    assert GoodWorker(rules, states[n].messages, states[n].rows, states[n].workers[w]);
    hide IsRun, WouldCycle, RowStored, GoodMessage, GoodRow;
  }

  /**
   * A message that is stored has its own escalations queued next, by the worker that stored it, with all the rules that are
   * for it; only the later repeats of a row, and messages at the greatest depth, have none.
   */
  lemma NewMessagesAreQueued(rules: Rules, s: State, step: Step)
    requires Enabled(rules, s, step)
    ensures step.Publish? ==> Next(rules, s, step).At(step.w).Queueing?
    ensures step.Escalate? ==>
              var row := s.At(step.w).rows[0];
              Next(rules, s, step).At(step.w).Queueing? <==>
                !KeyStored(s.messages, Escalated(row.id, row.repeat)) && row.repeat == 0 && s.messages[row.message].depth < 4
    ensures (step.Publish? || step.Escalate?) && Next(rules, s, step).At(step.w).Queueing? ==>
              var at := Next(rules, s, step).At(step.w);
              && at.message == s.nextMessage
              && forall r :: r in rules && rules[r].Matches(Next(rules, s, step).messages[s.nextMessage]) ==> r in at.todo
  {
    hide KeyStored, RootOf;
  }

  // ---------------------------------------------------------------------------------------------
  // Passes come to an end

  function RowsLeft(at: Worker): nat { if at.Idle? then 0 else |at.rows| }

  function StageLeft(at: Worker): nat { if at.Queueing? then 2 else if at.Saving? then 1 else 0 }

  function RulesLeft(at: Worker): nat { if at.Queueing? then |at.todo| else 0 }

  /** Fewer rows to come, or the same and a later statement of the row at hand, or fewer rules to queue for it. */
  predicate Nearer(after: Worker, before: Worker) {
    || RowsLeft(after) < RowsLeft(before)
    || (RowsLeft(after) == RowsLeft(before) && StageLeft(after) < StageLeft(before))
    || (RowsLeft(after) == RowsLeft(before) && StageLeft(after) == StageLeft(before) && RulesLeft(after) < RulesLeft(before))
  }

  /** Every step of a worker in a pass brings it nearer to the end of the pass. */
  lemma PassesEnd(rules: Rules, s: State, step: Step)
    requires Enabled(rules, s, step) && !step.Publish? && !step.Load? && !step.Cleanup? && !step.Crash?
    ensures Nearer(Next(rules, s, step).At(step.w), s.At(step.w))
  {
    hide KeyStored, WouldCycle, RowLive, RootOf, AnswersFor, Advanced;
  }

  // ---------------------------------------------------------------------------------------------
  // A worker on its own

  lemma AnswersExist(rules: Rules, m: Message) returns (todo: seq<nat>)
    ensures AnswersFor(rules, m, todo)
  {
    todo := Enumerate(set r | r in rules && rules[r].Matches(m));
    assert forall i :: 0 <= i < |todo| ==> todo[i] in todo;
  }

  lemma {:induction false} LeadsThen(rules: Rules, s: State, steps: seq<Step>, t: State, more: seq<Step>, u: State)
    requires Leads(rules, s, steps, t) && Leads(rules, t, more, u)
    ensures Leads(rules, s, steps + more, u)
    decreases |steps|
  {
    hide Enabled, Next;
    if steps == [] {
      assert [] + more == more;
    } else {
      LeadsThen(rules, Next(rules, s, steps[0]), steps[1..], t, more, u);
      assert (steps + more)[1..] == steps[1..] + more;
    }
  }

  lemma LeadsBy(rules: Rules, s: State, step: Step)
    requires Enabled(rules, s, step)
    ensures Leads(rules, s, [step], Next(rules, s, step))
  {
    hide Enabled, Next;
    assert [step][1..] == [];
  }

  /** The row is in the table and open. */
  predicate Open(s: State, id: nat) { id in s.rows && id !in s.cleaned && !s.rows[id].completed }

  lemma LoadsRow(rules: Rules, s: State, w: nat, id: nat) returns (t: State)
    requires Inv(rules, s) && s.At(w).Idle? && Open(s, id)
    ensures Enabled(rules, s, Load(w, [s.rows[id]])) && t == Next(rules, s, Load(w, [s.rows[id]]))
    ensures t == s.(workers := t.workers) && t.At(w) == Batch([s.rows[id]])
  {
    assert s.rows[id].id == id by { assert GoodRow(rules, s.messages, s.rows, id); }
    hide Inv;
    t := Next(rules, s, Load(w, [s.rows[id]]));
  }

  /** Storing the next message of the row at hand. */
  lemma EscalatesRow(rules: Rules, s: State, w: nat, row: Row, app: nat, todo: seq<nat>) returns (t: State)
    requires s.At(w) == Batch([row]) && row.message in s.messages && row.rule in rules && rules[row.rule].enabled
    requires (rules[row.rule].targetType == ChannelTarget ==> app == rules[row.rule].Channel())
             && AnswersFor(rules, Child(s.messages, row, app), todo)
    ensures Enabled(rules, s, Escalate(w, app, todo)) && t == Next(rules, s, Escalate(w, app, todo))
    ensures t.rows == s.rows && t.cleaned == s.cleaned && KeyStored(t.messages, Escalated(row.id, row.repeat))
    ensures t.At(w) == Saving(row, []) || (t.At(w).Queueing? && t.At(w).current == Some(row) && t.At(w).rows == [])
  {
    hide AnswersFor;
    t := Next(rules, s, Escalate(w, app, todo));
    StoresKey(rules, s, Escalate(w, app, todo));
    assert [row][1..] == [];
    hide KeyStored, Child;
  }

  lemma QueueEnds(rules: Rules, s: State, w: nat, row: Row) returns (steps: seq<Step>, t: State)
    requires s.At(w) == Saving(row, []) || (s.At(w).Queueing? && s.At(w).current == Some(row) && s.At(w).rows == [])
    ensures Leads(rules, s, steps, t) && (forall i :: 0 <= i < |steps| ==> !steps[i].Finish?)
    ensures t.At(w) == Saving(row, []) && t == s.(workers := t.workers)
  {
    if s.At(w).Queueing? {
      t := Next(rules, s, EndQueue(w));
      LeadsBy(rules, s, EndQueue(w));
      steps := [EndQueue(w)];
    } else {
      steps, t := [], s;
    }
  }

  /** Loading the row and storing its next message. */
  lemma Sends(rules: Rules, s: State, w: nat, id: nat) returns (steps: seq<Step>, t: State)
    requires Inv(rules, s) && s.At(w).Idle? && Open(s, id)
    ensures Leads(rules, s, steps, t) && (forall i :: 0 <= i < |steps| ==> !steps[i].Finish?)
    ensures t.At(w) == Saving(s.rows[id], []) && t.rows == s.rows && t.cleaned == s.cleaned && s.rows[id].id == id
    ensures KeyStored(t.messages, Escalated(id, s.rows[id].repeat)) && s.rows[id].rule in rules
  {
    hide *;
    OpenRow(rules, s, id);
    var row := s.rows[id];
    var app := rules[row.rule].Channel();
    var todo := AnswersExist(rules, Child(s.messages, row, app));
    var s1 := LoadsRow(rules, s, w, id);
    var s2 := EscalatesRow(rules, s1, w, row, app, todo);
    var ends;
    ends, t := QueueEnds(rules, s2, w, row);
    steps := [Load(w, [row])] + [Escalate(w, app, todo)] + ends;
    LeadsByTwo(rules, s, Load(w, [row]), s1, Escalate(w, app, todo), s2, ends, t);
  }

  lemma OpenRow(rules: Rules, s: State, id: nat)
    requires Inv(rules, s) && Open(s, id)
    ensures id in s.rows && id !in s.cleaned && s.rows[id].id == id && s.rows[id].message in s.messages
    ensures s.rows[id].rule in rules && rules[s.rows[id].rule].enabled
  {
    assert GoodRow(rules, s.messages, s.rows, id);
    hide GoodRow, GoodMessage, GoodWorker, KeysUnique, RowsUnique;
  }

  lemma LeadsByTwo(rules: Rules, s: State, a: Step, s1: State, b: Step, s2: State, ends: seq<Step>, t: State)
    requires Enabled(rules, s, a) && s1 == Next(rules, s, a) && Enabled(rules, s1, b) && s2 == Next(rules, s1, b)
    requires Leads(rules, s2, ends, t)
    ensures Leads(rules, s, [a] + [b] + ends, t)
  {
    hide *;
    LeadsBy(rules, s, a);
    LeadsBy(rules, s1, b);
    LeadsThen(rules, s, [a], s1, [b], s2);
    LeadsThen(rules, s, [a] + [b], s2, ends, t);
  }

  lemma StoresKey(rules: Rules, s: State, step: Step)
    requires Enabled(rules, s, step) && step.Escalate?
    ensures KeyStored(Next(rules, s, step).messages, Escalated(s.At(step.w).rows[0].id, s.At(step.w).rows[0].repeat))
  {
    var row := s.At(step.w).rows[0];
    var t := Next(rules, s, step);
    if !KeyStored(s.messages, Escalated(row.id, row.repeat)) { assert t.messages[s.nextMessage].origin == Escalated(row.id, row.repeat); }
  }

  /** One pass of a worker over one open row, with nobody in between. */
  lemma OnePass(rules: Rules, s: State, w: nat, id: nat) returns (steps: seq<Step>, t: State)
    requires Inv(rules, s) && s.At(w).Idle? && Open(s, id)
    ensures Leads(rules, s, steps, t) && (forall i :: 0 <= i < |steps| ==> !steps[i].Finish?) && t.At(w).Idle?
    ensures s.rows[id].rule in rules && KeyStored(t.messages, Escalated(id, s.rows[id].repeat))
    ensures id in t.rows && id !in t.cleaned && t.rows[id].rule == s.rows[id].rule && t.rows[id].repeat == s.rows[id].repeat + 1
    ensures t.rows[id].completed <==> t.rows[id].repeat > rules[s.rows[id].rule].LastRepeat()
  {
    hide Inv, KeyStored, Leads, Enabled, Next;
    var sent, s1 := Sends(rules, s, w, id);
    var saves;
    saves, t := SavesRow(rules, s1, w, s.rows[id]);
    LeadsThen(rules, s, sent, s1, saves, t);
    steps := sent + saves;
  }

  /** Writing the row back, and the end of the pass. */
  lemma SavesRow(rules: Rules, s: State, w: nat, row: Row) returns (steps: seq<Step>, t: State)
    requires s.At(w) == Saving(row, []) && row.rule in rules
    ensures Leads(rules, s, steps, t) && (forall i :: 0 <= i < |steps| ==> !steps[i].Finish?)
    ensures t.At(w).Idle? && t.messages == s.messages && row.id in t.rows && row.id !in t.cleaned
    ensures t.rows[row.id].rule == row.rule && t.rows[row.id].repeat == row.repeat + 1
    ensures t.rows[row.id].completed <==> row.repeat + 1 > rules[row.rule].LastRepeat()
  {
    SavedRowIsOpenExactly(rules[row.rule], row);
    hide Advanced;
    var s1 := Next(rules, s, Save(w));
    t := Next(rules, s1, Crash(w));
    LeadsBy(rules, s, Save(w));
    LeadsBy(rules, s1, Crash(w));
    hide Leads;
    LeadsThen(rules, s, [Save(w)], s1, [Crash(w)], t);
    steps := [Save(w)] + [Crash(w)];
  }

  lemma {:induction false} MessagesStay(rules: Rules, s: State, steps: seq<Step>, t: State)
    requires Inv(rules, s) && Unqueued(s) && Leads(rules, s, steps, t)
    ensures MessagesGrow(s.messages, t.messages)
    decreases |steps|
  {
    hide Inv, Unqueued, Enabled, Next;
    if steps == [] {
    } else {
      TablesGrow(rules, s, steps[0]);
      StepKeepsInv(rules, s, steps[0]);
      MessagesStay(rules, Next(rules, s, steps[0]), steps[1..], t);
    }
  }

  /**
   * A worker that passes over one open row, undisturbed, until it is completed: that comes about, and the messages it has
   * stored then are all the repeats that were left, to the last one.
   */
  lemma {:induction false} WorkerSendsAllRepeats(rules: Rules, s: State, w: nat, id: nat) returns (steps: seq<Step>, t: State)
    requires Inv(rules, s) && Unqueued(s) && s.At(w).Idle? && Open(s, id) && s.rows[id].rule in rules
    ensures Leads(rules, s, steps, t) && (forall i :: 0 <= i < |steps| ==> !steps[i].Finish?)
    ensures id in t.rows && t.rows[id].completed && t.rows[id].rule == s.rows[id].rule
    ensures forall k: nat :: s.rows[id].repeat <= k <= rules[s.rows[id].rule].LastRepeat() ==> KeyStored(t.messages, Escalated(id, k))
    decreases rules[s.rows[id].rule].LastRepeat() - s.rows[id].repeat
  {
    hide Inv, Unqueued, Leads, KeyStored, MessagesGrow;
    var first, s1 := OnePass(rules, s, w, id);
    RunKeepsInv(rules, s, first, s1);
    if s1.rows[id].completed {
      steps, t := first, s1;
    } else {
      var rest;
      rest, t := WorkerSendsAllRepeats(rules, s1, w, id);
      LeadsThen(rules, s, first, s1, rest, t);
      MessagesStay(rules, s1, rest, t);
      KeyStays(s1.messages, t.messages, Escalated(id, s.rows[id].repeat));
      steps := first + rest;
    }
  }

  lemma KeyStays(messages: Messages, more: Messages, origin: Origin)
    requires MessagesGrow(messages, more) && KeyStored(messages, origin)
    ensures KeyStored(more, origin)
  {
    var id :| id in messages && messages[id].origin == origin;
    assert id in more;
  }
}
