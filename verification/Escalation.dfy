/**
 * Escalation of unacknowledged messages, as a state machine over the shared tables.
 *
 * Any number of workers publish messages and run escalation passes. Each database statement is one
 * step, a worker works on the copies of the rows it loaded, and it may crash between any two steps.
 * The rules stay fixed during a run.
 */
module Escalation {
  import opened Common
  import opened Lists

  const MAX_DEPTH: nat := 5
  const CYCLE_SEARCH: nat := 8

  /** After trimming and lower-casing: "" and "channel" name a channel, the others a resolved application. */
  datatype TargetType = ChannelTarget | UserTarget | GroupTarget

  datatype Rule = Rule(sourceApp: nat, minPriority: int, targetType: TargetType, targetAppId: nat, targetId: nat,
                       repeatMinutes: int, maxRepeats: int, enabled: bool)
  {
    /** The channel a channel rule escalates to; 0 when none is configured. */
    function Channel(): nat { if targetAppId != 0 then targetAppId else targetId }

    /** The highest repeat count with which the rule still publishes. */
    function LastRepeat(): (k: nat) { if repeatMinutes > 0 && maxRepeats > 0 then maxRepeats else 0 }

    predicate Matches(m: Message) { enabled && sourceApp == m.app && minPriority <= m.priority }
  }

  type Rules = map<nat, Rule>

  /** A message's deduplication key, as far as escalation sets it. */
  datatype Origin = Published | Escalated(row: nat, repeat: nat)

  datatype Message = Message(app: nat, priority: int, parent: nat, root: nat, rule: nat, depth: nat, origin: Origin)

  /** One row of the escalation_states table; (rule, message) is unique. */
  datatype Row = Row(id: nat, rule: nat, message: nat, repeat: nat, completed: bool)

  type Messages = map<nat, Message>
  type Rows = map<nat, Row>

  /** Where a worker stands. `rows` are the copies it loaded and has not treated yet. */
  datatype Worker =
    | Idle
    | Batch(rows: seq<Row>)
    | Queueing(message: nat, todo: seq<nat>, current: Option<Row>, rows: seq<Row>)
    | Saving(row: Row, rows: seq<Row>)

  /** rows keeps what was ever stored; the ids in cleaned have since been deleted from the table. */
  datatype State = State(messages: Messages, rows: Rows, cleaned: set<nat>, nextMessage: nat, nextRow: nat, workers: map<nat, Worker>)
  {
    function At(w: nat): Worker { if w in workers then workers[w] else Idle }
  }

  function Initial(): State { State(map[], map[], {}, 1, 1, map[]) }

  datatype Step =
    | Publish(w: nat, app: nat, priority: int, todo: seq<nat>)
    | Load(w: nat, due: seq<Row>)
    | Finish(w: nat)
    | Skip(w: nat)
    | Escalate(w: nat, app: nat, todo: seq<nat>)
    | QueueRule(w: nat)
    | EndQueue(w: nat)
    | Save(w: nat)
    | Abandon(w: nat)
    | Cleanup(ids: set<nat>)
    | Crash(w: nat)

  /** The loop of escalationWouldCycle: does the chain of at most `fuel` messages touch the channel? */
  predicate Visits(messages: Messages, id: nat, channel: nat, fuel: nat)
    decreases fuel
  {
    fuel > 0 && id in messages
    && (messages[id].app == channel
        || (messages[id].parent != 0 && Visits(messages, messages[id].parent, channel, fuel - 1)))
  }

  predicate WouldCycle(messages: Messages, id: nat, rule: Rule) {
    rule.targetType == ChannelTarget && (rule.Channel() == 0 || Visits(messages, id, rule.Channel(), CYCLE_SEARCH))
  }

  /** escalationWouldCycle: walks the parents, at most eight messages. */
  method EscalationWouldCycle(messages: Messages, id: nat, rule: Rule) returns (cycle: bool)
    requires id in messages
    ensures cycle == WouldCycle(messages, id, rule)
  {
    if rule.targetType != ChannelTarget { return false; }
    var target := rule.Channel();
    if target == 0 { return true; }
    var current, depth := id, 0;
    while depth < CYCLE_SEARCH
      invariant depth <= CYCLE_SEARCH && current in messages
      invariant Visits(messages, id, target, CYCLE_SEARCH) == Visits(messages, current, target, CYCLE_SEARCH - depth)
    {
      if messages[current].app == target { return true; }
      if messages[current].parent == 0 || messages[current].parent !in messages { return false; }
      current := messages[current].parent;
      depth := depth + 1;
    }
    return false;
  }

  /** The rules GetEscalationRulesForMessage returns, in some order. */
  predicate AnswersFor(rules: Rules, m: Message, todo: seq<nat>) {
    && Distinct(todo)
    && (forall i :: 0 <= i < |todo| ==> todo[i] in rules && rules[todo[i]].Matches(m))
    && (forall r :: r in rules && rules[r].Matches(m) ==> r in todo)
  }

  function RootOf(messages: Messages, id: nat): nat
    requires id in messages
  {
    if messages[id].root == 0 then id else messages[id].root
  }

  /** The child message one escalation publishes. */
  function Child(messages: Messages, row: Row, app: nat): Message
    requires row.message in messages
  {
    var source := messages[row.message];
    Message(app, source.priority, row.message, RootOf(messages, row.message), row.rule, source.depth + 1,
            Escalated(row.id, row.repeat))
  }

  predicate KeyStored(messages: Messages, origin: Origin) { exists id :: id in messages && messages[id].origin == origin }

  /** Was there ever a row for the rule and the message? */
  predicate RowStored(rows: Rows, rule: nat, message: nat) {
    exists id :: id in rows && rows[id].rule == rule && rows[id].message == message
  }

  /** Is there one now? */
  predicate RowLive(rows: Rows, cleaned: set<nat>, rule: nat, message: nat) {
    exists id :: id in rows && id !in cleaned && rows[id].rule == rule && rows[id].message == message
  }

  predicate Enabled(rules: Rules, s: State, step: Step) {
    match step
    case Publish(w, app, priority, todo) =>
      s.At(w).Idle? && AnswersFor(rules, Message(app, priority, 0, 0, 0, 0, Published), todo)
    case Load(w, due) =>
      s.At(w).Idle? && forall i :: 0 <= i < |due| ==>
        due[i].id in s.rows && due[i].id !in s.cleaned && s.rows[due[i].id] == due[i] && !due[i].completed
    case Finish(w) => s.At(w).Batch? && s.At(w).rows != []
    case Skip(w) => s.At(w).Batch? && s.At(w).rows != []
    case Escalate(w, app, todo) =>
      && s.At(w).Batch? && s.At(w).rows != []
      && var row := s.At(w).rows[0];
         && row.message in s.messages && row.rule in rules && rules[row.rule].enabled
         && (rules[row.rule].targetType == ChannelTarget ==> app == rules[row.rule].Channel())
         && AnswersFor(rules, Child(s.messages, row, app), todo)
    case QueueRule(w) => s.At(w).Queueing? && s.At(w).todo != [] && s.At(w).todo[0] in rules
    // Also before the last rule: a rule that cannot be queued ends the loop.
    case EndQueue(w) => s.At(w).Queueing?
    case Save(w) => s.At(w).Saving? && s.At(w).row.rule in rules
    // The recipients cannot be looked up, or the row cannot be written back.
    case Abandon(w) => s.At(w).Queueing? || s.At(w).Saving?
    case Cleanup(ids) => forall id :: id in ids ==> id in s.rows && s.rows[id].completed
    // The end of a pass, or a crash.
    case Crash(w) => true
  }

  /** The row a pass writes back after publishing (or finding already published) one repeat. */
  function Advanced(rule: Rule, row: Row): Row {
    row.(repeat := row.repeat + 1, completed := !(rule.repeatMinutes > 0 && row.repeat + 1 <= rule.maxRepeats))
  }

  /** Writing a row back inserts it again if it has been deleted meanwhile. */
  function Next(rules: Rules, s: State, step: Step): State
    requires Enabled(rules, s, step)
  {
    match step
    case Publish(w, app, priority, todo) =>
      var id := s.nextMessage;
      s.(messages := s.messages[id := Message(app, priority, 0, 0, 0, 0, Published)], nextMessage := id + 1,
         workers := s.workers[w := Queueing(id, todo, None, [])])
    case Load(w, due) => s.(workers := s.workers[w := Batch(due)])
    case Finish(w) =>
      var row := s.At(w).rows[0];
      s.(rows := s.rows[row.id := row.(completed := true)], cleaned := s.cleaned - {row.id},
         workers := s.workers[w := Batch(s.At(w).rows[1..])])
    case Skip(w) => s.(workers := s.workers[w := Batch(s.At(w).rows[1..])])
    case Escalate(w, app, todo) =>
      var row, rest := s.At(w).rows[0], s.At(w).rows[1..];
      var child := Child(s.messages, row, app);
      if KeyStored(s.messages, child.origin) then
        s.(workers := s.workers[w := Saving(row, rest)])
      else
        var id := s.nextMessage;
        var chain := row.repeat == 0 && child.depth < MAX_DEPTH;
        s.(messages := s.messages[id := child], nextMessage := id + 1,
           workers := s.workers[w := if chain then Queueing(id, todo, Some(row), rest) else Saving(row, rest)])
    case QueueRule(w) =>
      var at := s.At(w);
      var rule, after := at.todo[0], s.workers[w := at.(todo := at.todo[1..])];
      if WouldCycle(s.messages, at.message, rules[rule]) || RowLive(s.rows, s.cleaned, rule, at.message) then
        s.(workers := after)
      else
        s.(rows := s.rows[s.nextRow := Row(s.nextRow, rule, at.message, 0, false)], nextRow := s.nextRow + 1,
           workers := after)
    case EndQueue(w) =>
      var at := s.At(w);
      s.(workers := s.workers[w := if at.current.Some? then Saving(at.current.value, at.rows) else Idle])
    case Save(w) =>
      var at := s.At(w);
      s.(rows := s.rows[at.row.id := Advanced(rules[at.row.rule], at.row)], cleaned := s.cleaned - {at.row.id},
         workers := s.workers[w := Batch(at.rows)])
    case Abandon(w) =>
      var at := s.At(w);
      s.(workers := s.workers[w := if at.Queueing? && at.current.None? then Idle else Batch(at.rows)])
    case Cleanup(ids) => s.(cleaned := s.cleaned + ids)
    case Crash(w) => s.(workers := s.workers[w := Idle])
  }

  /** The steps lead from s to t. */
  ghost predicate Leads(rules: Rules, s: State, steps: seq<Step>, t: State)
    decreases |steps|
  {
    if steps == [] then s == t else Enabled(rules, s, steps[0]) && Leads(rules, Next(rules, s, steps[0]), steps[1..], t)
  }

  // ---------------------------------------------------------------------------------------------
  // The invariant

  /** Only published messages and first repeats have their own escalations queued. */
  predicate MayChain(m: Message) { m.depth < MAX_DEPTH && (m.origin.Escalated? ==> m.origin.repeat == 0) }

  ghost predicate GoodMessage(rules: Rules, messages: Messages, rows: Rows, id: nat)
    requires id in messages
  {
    var m := messages[id];
    && 0 < id && m.depth <= MAX_DEPTH
    && (m.origin.Published? ==> m.depth == 0 && m.parent == 0 && m.root == 0)
    && (m.origin.Escalated? ==>
          && m.origin.row in rows && rows[m.origin.row].message == m.parent && rows[m.origin.row].rule == m.rule
          && m.rule in rules && m.origin.repeat <= rules[m.rule].LastRepeat()
          && (rules[m.rule].targetType == ChannelTarget ==> m.app == rules[m.rule].Channel())
          && m.parent in messages && 0 < m.parent < id && messages[m.parent].depth + 1 == m.depth
          && m.root == RootOf(messages, m.parent))
  }

  ghost predicate GoodRow(rules: Rules, messages: Messages, rows: Rows, id: nat)
    requires id in rows
  {
    var row := rows[id];
    && row.id == id && row.rule in rules && rules[row.rule].enabled
    && row.message in messages && MayChain(messages[row.message])
    && !WouldCycle(messages, row.message, rules[row.rule])
    && (!row.completed ==> row.repeat <= rules[row.rule].LastRepeat())
  }

  /** A worker's copy may be stale, but not in the columns that never change. */
  ghost predicate GoodCopy(rules: Rules, rows: Rows, copy: Row) {
    && copy.id in rows && rows[copy.id].rule == copy.rule && rows[copy.id].message == copy.message
    && copy.rule in rules && copy.repeat <= rules[copy.rule].LastRepeat()
  }

  ghost predicate GoodCopies(rules: Rules, rows: Rows, copies: seq<Row>) {
    forall i :: 0 <= i < |copies| ==> GoodCopy(rules, rows, copies[i])
  }

  ghost predicate GoodWorker(rules: Rules, messages: Messages, rows: Rows, at: Worker) {
    match at
    case Idle => true
    case Batch(copies) => GoodCopies(rules, rows, copies)
    case Queueing(message, todo, current, copies) =>
      && message in messages && MayChain(messages[message])
      && (forall i :: 0 <= i < |todo| ==> todo[i] in rules && rules[todo[i]].enabled)
      && (current.Some? ==> GoodCopy(rules, rows, current.value)) && GoodCopies(rules, rows, copies)
    case Saving(row, copies) => GoodCopy(rules, rows, row) && GoodCopies(rules, rows, copies)
  }

  ghost predicate KeysUnique(messages: Messages) {
    forall a, b :: a in messages && b in messages && messages[a].origin.Escalated? && messages[a].origin == messages[b].origin
      ==> a == b
  }

  ghost predicate RowsUnique(rows: Rows) {
    forall a, b :: a in rows && b in rows && rows[a].rule == rows[b].rule && rows[a].message == rows[b].message ==> a == b
  }

  ghost predicate Inv(rules: Rules, s: State) {
    && (forall id :: id in s.messages ==> id < s.nextMessage && GoodMessage(rules, s.messages, s.rows, id))
    && (forall id :: id in s.rows ==> id < s.nextRow && GoodRow(rules, s.messages, s.rows, id))
    && (forall w :: w in s.workers ==> GoodWorker(rules, s.messages, s.rows, s.workers[w]))
    && KeysUnique(s.messages) && RowsUnique(s.rows)
    && s.nextMessage > 0
  }

  /**
   * Each message is queued by one worker, and a rule still to be queued for it never was before. So a rule and a
   * message meet once, even though the history cleanup deletes rows.
   */
  ghost predicate Unqueued(s: State) { QueuesApart(s.rows, s.workers) }

  ghost predicate QueuesApart(rows: Rows, workers: map<nat, Worker>) {
    && (forall w :: w in workers && workers[w].Queueing? ==> QueueFresh(rows, workers[w]))
    && (forall v, w :: v in workers && w in workers && v != w && workers[v].Queueing? && workers[w].Queueing? ==>
          workers[v].message != workers[w].message)
  }

  ghost predicate QueueFresh(rows: Rows, at: Worker)
    requires at.Queueing?
  {
    Distinct(at.todo) && forall i :: 0 <= i < |at.todo| ==> !RowStored(rows, at.todo[i], at.message)
  }

  // ---------------------------------------------------------------------------------------------
  // Growth: messages are only added, rows keep their rule and message

  ghost predicate MessagesGrow(messages: Messages, more: Messages) {
    forall id :: id in messages ==> id in more && more[id] == messages[id]
  }

  ghost predicate RowsGrow(rows: Rows, more: Rows) {
    forall id :: id in rows ==> id in more && more[id].rule == rows[id].rule && more[id].message == rows[id].message
  }

  /** The cycle search looks at ancestors only, so later messages do not change its answer. */
  lemma {:induction false} VisitsStable(rules: Rules, messages: Messages, rows: Rows, more: Messages, id: nat, channel: nat, fuel: nat)
    requires MessagesGrow(messages, more) && id in messages
    requires forall k :: k in messages ==> GoodMessage(rules, messages, rows, k)
    ensures Visits(more, id, channel, fuel) == Visits(messages, id, channel, fuel)
  {
    assert GoodMessage(rules, messages, rows, id);
    if fuel > 0 && messages[id].parent != 0 {
      VisitsStable(rules, messages, rows, more, messages[id].parent, channel, fuel - 1);
    }
  }

  lemma GoodMessagesStable(rules: Rules, messages: Messages, rows: Rows, more: Messages, moreRows: Rows, id: nat)
    requires MessagesGrow(messages, more) && RowsGrow(rows, moreRows)
    requires id in messages && GoodMessage(rules, messages, rows, id)
    ensures GoodMessage(rules, more, moreRows, id)
  {
  }

  lemma GoodRowStable(rules: Rules, messages: Messages, rows: Rows, more: Messages, moreRows: Rows, id: nat)
    requires MessagesGrow(messages, more)
    requires forall k :: k in messages ==> GoodMessage(rules, messages, rows, k)
    requires id in rows && GoodRow(rules, messages, rows, id) && id in moreRows && moreRows[id] == rows[id]
    ensures GoodRow(rules, more, moreRows, id)
  {
    VisitsStable(rules, messages, rows, more, rows[id].message, rules[rows[id].rule].Channel(), CYCLE_SEARCH);
  }

  lemma GoodWorkerStable(rules: Rules, messages: Messages, rows: Rows, more: Messages, moreRows: Rows, at: Worker)
    requires MessagesGrow(messages, more) && RowsGrow(rows, moreRows)
    requires GoodWorker(rules, messages, rows, at)
    ensures GoodWorker(rules, more, moreRows, at)
  {
  }

  // ---------------------------------------------------------------------------------------------
  // Every step keeps the invariant

  /** Steps that only move a worker. */
  lemma KeepsWorkers(rules: Rules, s: State, w: nat, at: Worker)
    requires Inv(rules, s) && GoodWorker(rules, s.messages, s.rows, at)
    ensures Inv(rules, s.(workers := s.workers[w := at]))
  {
    var t := s.(workers := s.workers[w := at]);
    assert t.messages == s.messages && t.rows == s.rows;
  }

  /** What is deleted from the table does not matter to the invariant. */
  lemma KeepsCleaned(rules: Rules, s: State, cleaned: set<nat>)
    requires Inv(rules, s)
    ensures Inv(rules, s.(cleaned := cleaned))
  {
    var t := s.(cleaned := cleaned);
    assert t.messages == s.messages && t.rows == s.rows && t.workers == s.workers;
    hide GoodMessage, GoodRow, GoodWorker, KeysUnique, RowsUnique;
  }

  /** Steps that add one message. */
  lemma KeepsAddMessage(rules: Rules, s: State, m: Message)
    requires Inv(rules, s)
    requires var more := s.messages[s.nextMessage := m]; GoodMessage(rules, more, s.rows, s.nextMessage)
    requires m.origin.Escalated? ==> !KeyStored(s.messages, m.origin)
    ensures Inv(rules, s.(messages := s.messages[s.nextMessage := m], nextMessage := s.nextMessage + 1))
  {
    hide GoodMessage, GoodRow, GoodWorker, Visits;
    var t := s.(messages := s.messages[s.nextMessage := m], nextMessage := s.nextMessage + 1);
    assert MessagesGrow(s.messages, t.messages);
    forall id | id in t.messages ensures id < t.nextMessage && GoodMessage(rules, t.messages, t.rows, id) {
      if id != s.nextMessage { GoodMessagesStable(rules, s.messages, s.rows, t.messages, t.rows, id); }
    }
    forall id | id in t.rows ensures GoodRow(rules, t.messages, t.rows, id) {
      GoodRowStable(rules, s.messages, s.rows, t.messages, t.rows, id);
    }
    forall w | w in t.workers ensures GoodWorker(rules, t.messages, t.rows, t.workers[w]) {
      GoodWorkerStable(rules, s.messages, s.rows, t.messages, t.rows, t.workers[w]);
    }
  }

  /** Steps that write one row, new or old. */
  lemma KeepsWriteRow(rules: Rules, s: State, row: Row)
    requires Inv(rules, s) && row.id <= s.nextRow
    requires GoodRow(rules, s.messages, s.rows[row.id := row], row.id)
    requires row.id in s.rows ==> s.rows[row.id].rule == row.rule && s.rows[row.id].message == row.message
    requires row.id !in s.rows ==> row.id == s.nextRow && !RowStored(s.rows, row.rule, row.message)
    ensures Inv(rules, s.(rows := s.rows[row.id := row], nextRow := if row.id == s.nextRow then s.nextRow + 1 else s.nextRow))
  {
    hide GoodMessage, GoodRow, GoodWorker, Visits;
    var t := s.(rows := s.rows[row.id := row], nextRow := if row.id == s.nextRow then s.nextRow + 1 else s.nextRow);
    assert MessagesGrow(s.messages, t.messages) && RowsGrow(s.rows, t.rows);
    forall id | id in t.messages ensures GoodMessage(rules, t.messages, t.rows, id) {
      GoodMessagesStable(rules, s.messages, s.rows, t.messages, t.rows, id);
    }
    forall id | id in t.rows ensures id < t.nextRow && GoodRow(rules, t.messages, t.rows, id) {
      if id != row.id { GoodRowStable(rules, s.messages, s.rows, t.messages, t.rows, id); }
    }
    forall w | w in t.workers ensures GoodWorker(rules, t.messages, t.rows, t.workers[w]) {
      GoodWorkerStable(rules, s.messages, s.rows, t.messages, t.rows, t.workers[w]);
    }
  }

  lemma ChildIsGood(rules: Rules, s: State, copy: Row, app: nat)
    requires Inv(rules, s) && GoodCopy(rules, s.rows, copy)
    requires rules[copy.rule].targetType == ChannelTarget ==> app == rules[copy.rule].Channel()
    ensures copy.message in s.messages
    ensures var child := Child(s.messages, copy, app);
            GoodMessage(rules, s.messages[s.nextMessage := child], s.rows, s.nextMessage)
  {
    hide Visits;
    assert GoodRow(rules, s.messages, s.rows, copy.id);
    assert GoodMessage(rules, s.messages, s.rows, copy.message);
  }

  lemma KeepsEscalate(rules: Rules, s: State, step: Step)
    requires Inv(rules, s) && step.Escalate? && Enabled(rules, s, step)
    ensures Inv(rules, Next(rules, s, step))
  {
    hide GoodMessage, GoodRow, GoodCopy, Visits, RootOf, KeysUnique, RowsUnique;
    var at := s.At(step.w);
    var row, rest := at.rows[0], at.rows[1..];
    assert GoodWorker(rules, s.messages, s.rows, at);
    var child := Child(s.messages, row, step.app);
    if KeyStored(s.messages, child.origin) {
      KeepsWorkers(rules, s, step.w, Saving(row, rest));
    } else {
      var id := s.nextMessage;
      assert GoodCopy(rules, s.rows, row);
      ChildIsGood(rules, s, row, step.app);
      KeepsAddMessage(rules, s, child);
      var t := s.(messages := s.messages[id := child], nextMessage := id + 1);
      var chain := row.repeat == 0 && child.depth < MAX_DEPTH;
      var next := if chain then Queueing(id, step.todo, Some(row), rest) else Saving(row, rest);
      KeepsWorkers(rules, t, step.w, next);
      assert Next(rules, s, step) == t.(workers := t.workers[step.w := next]);
    }
  }

  lemma QueuedRowIsGood(rules: Rules, s: State, message: nat, rule: nat)
    requires Inv(rules, s) && message in s.messages && MayChain(s.messages[message])
    requires rule in rules && rules[rule].enabled && !WouldCycle(s.messages, message, rules[rule])
    ensures s.nextRow !in s.rows
    ensures GoodRow(rules, s.messages, s.rows[s.nextRow := Row(s.nextRow, rule, message, 0, false)], s.nextRow)
  {
  }

  lemma KeepsQueueRule(rules: Rules, s: State, step: Step)
    requires Inv(rules, s) && Unqueued(s) && step.QueueRule? && Enabled(rules, s, step)
    ensures Inv(rules, Next(rules, s, step))
  {
    hide GoodMessage, GoodRow, GoodCopy, Visits, MayChain, KeysUnique, RowsUnique, WouldCycle;
    var at := s.At(step.w);
    assert GoodWorker(rules, s.messages, s.rows, at);
    var rule, after := at.todo[0], at.(todo := at.todo[1..]);
    if WouldCycle(s.messages, at.message, rules[rule]) || RowLive(s.rows, s.cleaned, rule, at.message) {
      KeepsWorkers(rules, s, step.w, after);
    } else {
      var row := Row(s.nextRow, rule, at.message, 0, false);
      QueuedRowIsGood(rules, s, at.message, rule);
      KeepsWriteRow(rules, s, row);
      var t := s.(rows := s.rows[s.nextRow := row], nextRow := s.nextRow + 1);
      assert RowsGrow(s.rows, t.rows);
      GoodWorkerStable(rules, s.messages, s.rows, t.messages, t.rows, after);
      KeepsWorkers(rules, t, step.w, after);
      assert Next(rules, s, step) == t.(workers := t.workers[step.w := after]);
    }
  }

  lemma WrittenBackIsGood(rules: Rules, s: State, copy: Row, row: Row)
    requires Inv(rules, s) && GoodCopy(rules, s.rows, copy)
    requires row == copy.(completed := true) || row == Advanced(rules[copy.rule], copy)
    ensures row.id < s.nextRow && GoodRow(rules, s.messages, s.rows[row.id := row], row.id)
  {
    hide Visits;
    assert GoodRow(rules, s.messages, s.rows, copy.id);
  }

  /** Finish and Save: the copy is written back, in whatever order the workers get there. */
  lemma KeepsWriteBack(rules: Rules, s: State, step: Step)
    requires Inv(rules, s) && (step.Finish? || step.Save?) && Enabled(rules, s, step)
    ensures Inv(rules, Next(rules, s, step))
  {
    hide GoodMessage, GoodRow, Visits, MayChain, KeysUnique, RowsUnique, WouldCycle;
    var at := s.At(step.w);
    assert GoodWorker(rules, s.messages, s.rows, at);
    var copy := if step.Finish? then at.rows[0] else at.row;
    var row := if step.Finish? then copy.(completed := true) else Advanced(rules[copy.rule], copy);
    WrittenBackIsGood(rules, s, copy, row);
    KeepsWriteRow(rules, s, row);
    var t := s.(rows := s.rows[row.id := row]);
    assert RowsGrow(s.rows, t.rows);
    var after := Batch(if step.Finish? then at.rows[1..] else at.rows);
    GoodWorkerStable(rules, s.messages, s.rows, t.messages, t.rows, after);
    KeepsWorkers(rules, t, step.w, after);
    KeepsCleaned(rules, t.(workers := t.workers[step.w := after]), s.cleaned - {row.id});
    assert Next(rules, s, step) == t.(workers := t.workers[step.w := after]).(cleaned := s.cleaned - {row.id});
  }

  lemma KeepsPublish(rules: Rules, s: State, step: Step)
    requires Inv(rules, s) && step.Publish? && Enabled(rules, s, step)
    ensures Inv(rules, Next(rules, s, step))
  {
    var id := s.nextMessage;
    var m := Message(step.app, step.priority, 0, 0, 0, 0, Published);
    KeepsAddMessage(rules, s, m);
    var t := s.(messages := s.messages[id := m], nextMessage := id + 1);
    KeepsWorkers(rules, t, step.w, Queueing(id, step.todo, None, []));
    assert Next(rules, s, step) == t.(workers := t.workers[step.w := Queueing(id, step.todo, None, [])]);
  }

  /** A worker that stops queueing, or starts on a message nobody has queued, keeps the queues apart. */
  lemma QueueMoves(rows: Rows, workers: map<nat, Worker>, w: nat, at: Worker)
    requires QueuesApart(rows, workers)
    requires at.Queueing? ==> QueueFresh(rows, at)
    requires at.Queueing? ==> forall v :: v in workers && v != w && workers[v].Queueing? ==> workers[v].message != at.message
    ensures QueuesApart(rows, workers[w := at])
  {
    hide QueueFresh;
  }

  /** Rows that only change in their other columns keep them apart. */
  lemma QueueRows(rows: Rows, more: Rows, workers: map<nat, Worker>)
    requires QueuesApart(rows, workers)
    requires forall id :: id in more ==> id in rows && more[id].rule == rows[id].rule && more[id].message == rows[id].message
    ensures QueuesApart(more, workers)
  {
    forall w | w in workers && workers[w].Queueing? ensures QueueFresh(more, workers[w]) {
      assert QueueFresh(rows, workers[w]);
    }
  }

  /** A new row for the first rule of one worker's list, which then drops that rule. */
  lemma QueueRowAdded(rows: Rows, row: Row, workers: map<nat, Worker>, w: nat)
    requires QueuesApart(rows, workers) && w in workers && workers[w].Queueing? && workers[w].todo != []
    requires row.rule == workers[w].todo[0] && row.message == workers[w].message
    ensures QueuesApart(rows[row.id := row], workers[w := workers[w].(todo := workers[w].todo[1..])])
  {
    var more, after := rows[row.id := row], workers[w := workers[w].(todo := workers[w].todo[1..])];
    forall v | v in after && after[v].Queueing? ensures QueueFresh(more, after[v]) {
      assert QueueFresh(rows, workers[v]);
    }
    hide QueueFresh;
  }

  /** Nobody is queueing a message that is not stored yet. */
  lemma NewMessageUnqueued(rules: Rules, s: State, w: nat, todo: seq<nat>, current: Option<Row>, rest: seq<Row>)
    requires Inv(rules, s) && Unqueued(s) && Distinct(todo)
    ensures QueuesApart(s.rows, s.workers[w := Queueing(s.nextMessage, todo, current, rest)])
  {
    hide Visits, KeysUnique, RowsUnique, Distinct;
    forall id | id in s.rows ensures s.rows[id].message < s.nextMessage { assert GoodRow(rules, s.messages, s.rows, id); }
    forall v | v in s.workers && s.workers[v].Queueing? ensures s.workers[v].message < s.nextMessage {
      assert GoodWorker(rules, s.messages, s.rows, s.workers[v]);
    }
    hide GoodMessage, GoodRow, GoodWorker;
    QueueMoves(s.rows, s.workers, w, Queueing(s.nextMessage, todo, current, rest));
  }

  lemma PublishKeepsUnqueued(rules: Rules, s: State, step: Step)
    requires Inv(rules, s) && Unqueued(s) && step.Publish? && Enabled(rules, s, step)
    ensures Unqueued(Next(rules, s, step))
  {
    NewMessageUnqueued(rules, s, step.w, step.todo, None, []);
    hide Inv, QueuesApart, AnswersFor;
  }

  lemma EscalateKeepsUnqueued(rules: Rules, s: State, step: Step)
    requires Inv(rules, s) && Unqueued(s) && step.Escalate? && Enabled(rules, s, step)
    ensures Unqueued(Next(rules, s, step))
  {
    var row, rest := s.At(step.w).rows[0], s.At(step.w).rows[1..];
    NewMessageUnqueued(rules, s, step.w, step.todo, Some(row), rest);
    QueueMoves(s.rows, s.workers, step.w, Saving(row, rest));
    hide Inv, QueuesApart, AnswersFor, KeyStored, RootOf;
  }

  lemma QueueRuleKeepsUnqueued(rules: Rules, s: State, step: Step)
    requires Unqueued(s) && step.QueueRule? && Enabled(rules, s, step)
    ensures Unqueued(Next(rules, s, step))
  {
    var at := s.At(step.w);
    var after := at.(todo := at.todo[1..]);
    assert QueueFresh(s.rows, at);
    assert QueueFresh(s.rows, after);
    QueueMoves(s.rows, s.workers, step.w, after);
    QueueRowAdded(s.rows, Row(s.nextRow, at.todo[0], at.message, 0, false), s.workers, step.w);
    hide QueuesApart, QueueFresh, WouldCycle, RowLive;
  }

  /** Writing a row back changes no rule and no message. */
  lemma WriteBackKeepsUnqueued(rules: Rules, s: State, step: Step)
    requires Inv(rules, s) && Unqueued(s) && Enabled(rules, s, step) && (step.Finish? || step.Save?)
    ensures Unqueued(Next(rules, s, step))
  {
    hide GoodMessage, GoodRow, KeysUnique, RowsUnique, Visits, QueuesApart, QueueFresh;
    var at := s.At(step.w);
    assert GoodWorker(rules, s.messages, s.rows, at);
    var copy := if step.Finish? then at.rows[0] else at.row;
    var row := if step.Finish? then copy.(completed := true) else Advanced(rules[copy.rule], copy);
    var after := Batch(if step.Finish? then at.rows[1..] else at.rows);
    QueueRows(s.rows, s.rows[row.id := row], s.workers);
    QueueMoves(s.rows[row.id := row], s.workers, step.w, after);
  }

  /** The other steps queue nothing and store no row. */
  lemma MoveKeepsUnqueued(rules: Rules, s: State, step: Step)
    requires Unqueued(s) && Enabled(rules, s, step)
    requires step.Load? || step.Skip? || step.EndQueue? || step.Abandon? || step.Crash? || step.Cleanup?
    ensures Unqueued(Next(rules, s, step))
  {
    hide QueuesApart, QueueFresh;
    if !step.Cleanup? {
      var after := Next(rules, s, step).workers[step.w];
      assert !after.Queueing?;
      QueueMoves(s.rows, s.workers, step.w, after);
    }
  }

  lemma StepKeepsInv(rules: Rules, s: State, step: Step)
    requires Inv(rules, s) && Unqueued(s) && Enabled(rules, s, step)
    ensures Inv(rules, Next(rules, s, step)) && Unqueued(Next(rules, s, step))
  {
    hide Inv, Unqueued, Next, Enabled;
    match step
    case Publish(_, _, _, _) =>
      KeepsPublish(rules, s, step);
      PublishKeepsUnqueued(rules, s, step);
    case Escalate(_, _, _) =>
      KeepsEscalate(rules, s, step);
      EscalateKeepsUnqueued(rules, s, step);
    case QueueRule(_) =>
      KeepsQueueRule(rules, s, step);
      QueueRuleKeepsUnqueued(rules, s, step);
    case Finish(_) =>
      KeepsWriteBack(rules, s, step);
      WriteBackKeepsUnqueued(rules, s, step);
    case Save(_) =>
      KeepsWriteBack(rules, s, step);
      WriteBackKeepsUnqueued(rules, s, step);
    case Cleanup(_) =>
      KeepsCleanup(rules, s, step);
      MoveKeepsUnqueued(rules, s, step);
    case _ =>
      KeepsMove(rules, s, step);
      MoveKeepsUnqueued(rules, s, step);
  }

  lemma KeepsCleanup(rules: Rules, s: State, step: Step)
    requires Inv(rules, s) && step.Cleanup? && Enabled(rules, s, step)
    ensures Inv(rules, Next(rules, s, step))
  {
    hide Inv;
    KeepsCleaned(rules, s, s.cleaned + step.ids);
  }

  /** Steps that only move a worker on. */
  lemma KeepsMove(rules: Rules, s: State, step: Step)
    requires Inv(rules, s) && Enabled(rules, s, step)
    requires step.Load? || step.Skip? || step.EndQueue? || step.Abandon? || step.Crash?
    ensures Inv(rules, Next(rules, s, step))
  {
    hide Visits;
    assert GoodWorker(rules, s.messages, s.rows, s.At(step.w));
    match step
    case Load(w, due) =>
      forall i | 0 <= i < |due| ensures GoodCopy(rules, s.rows, due[i]) {
        assert GoodRow(rules, s.messages, s.rows, due[i].id);
      }
      KeepsWorkers(rules, s, w, Batch(due));
    case Skip(w) => KeepsWorkers(rules, s, w, Batch(s.At(w).rows[1..]));
    case EndQueue(w) =>
      var at := s.At(w);
      KeepsWorkers(rules, s, w, if at.current.Some? then Saving(at.current.value, at.rows) else Idle);
    case Abandon(w) =>
      var at := s.At(w);
      KeepsWorkers(rules, s, w, if at.Queueing? && at.current.None? then Idle else Batch(at.rows));
    case Crash(w) => KeepsWorkers(rules, s, w, Idle);
  }

  lemma {:induction false} RunKeepsInv(rules: Rules, s: State, steps: seq<Step>, t: State)
    requires Inv(rules, s) && Unqueued(s) && Leads(rules, s, steps, t)
    ensures Inv(rules, t) && Unqueued(t)
    decreases |steps|
  {
    hide Inv, Unqueued, Next, Enabled;
    if steps == [] {
    } else {
      StepKeepsInv(rules, s, steps[0]);
      RunKeepsInv(rules, Next(rules, s, steps[0]), steps[1..], t);
    }
  }
}
