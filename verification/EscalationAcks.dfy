/**
 * Acknowledgements, on top of the escalation machine: before it escalates a row, a worker asks whether its message is
 * acknowledged and then whether its root is, in two statements. Anybody may acknowledge, or withdraw, at any time.
 */
module EscalationAcks {
  import opened Escalation

  /** What a worker has found out about the row it is at. The root is the one it read off the message. */
  datatype Check = Unchecked | SourceClear(root: nat) | Clear | Acknowledged

  datatype Ack = Ack(user: nat, message: nat)

  datatype Full = Full(core: State, acks: set<Ack>, checks: map<nat, Check>)
  {
    function CheckOf(w: nat): Check { if w in checks then checks[w] else Unchecked }

    /** IsMessageAcknowledged: by anybody. */
    predicate Acked(id: nat) { exists a <- acks :: a.message == id }
  }

  /** failed: the worker could not read the message or the rule. */
  datatype Move = Core(step: Step, failed: bool) | Acknowledge(a: Ack) | Withdraw(a: Ack) | InspectSource(w: nat) | InspectRoot(w: nat)

  function Start(): Full { Full(Initial(), {}, map[]) }

  /** The worker is at a row whose message is there. */
  predicate AtRow(s: State, w: nat) { s.At(w).Batch? && s.At(w).rows != [] && s.At(w).rows[0].message in s.messages }

  function MessageAt(s: State, w: nat): nat
    requires AtRow(s, w)
  {
    s.At(w).rows[0].message
  }

  /** The worker has found the row unacknowledged, and the row's rule is deleted or disabled. */
  predicate RuleGone(rules: Rules, f: Full, w: nat)
    requires AtRow(f.core, w)
  {
    f.CheckOf(w).Clear? && var rule := f.core.At(w).rows[0].rule; rule !in rules || !rules[rule].enabled
  }

  predicate MoveEnabled(rules: Rules, f: Full, move: Move) {
    match move
    case Core(step, failed) =>
      && Enabled(rules, f.core, step)
      && (step.Escalate? ==> !failed && f.CheckOf(step.w).Clear?)
      && (step.Finish? ==> failed || !AtRow(f.core, step.w) || f.CheckOf(step.w).Acknowledged? || RuleGone(rules, f, step.w))
    case Acknowledge(_) => true
    case Withdraw(_) => true
    case InspectSource(w) => AtRow(f.core, w) && f.CheckOf(w).Unchecked?
    case InspectRoot(w) => AtRow(f.core, w) && f.CheckOf(w).SourceClear?
  }

  /** A worker's own step takes it to another row, or away. */
  function Do(rules: Rules, f: Full, move: Move): Full
    requires MoveEnabled(rules, f, move)
  {
    match move
    case Core(step, _) =>
      f.(core := Next(rules, f.core, step), checks := if step.Cleanup? then f.checks else f.checks[step.w := Unchecked])
    case Acknowledge(a) => f.(acks := f.acks + {a})
    case Withdraw(a) => f.(acks := f.acks - {a})
    case InspectSource(w) =>
      var source := MessageAt(f.core, w);
      var root := RootOf(f.core.messages, source);
      f.(checks := f.checks[w := if f.Acked(source) then Acknowledged else if root == source then Clear else SourceClear(root)])
    case InspectRoot(w) => f.(checks := f.checks[w := if f.Acked(f.CheckOf(w).root) then Acknowledged else Clear])
  }

  ghost predicate IsRun(rules: Rules, states: seq<Full>, moves: seq<Move>) {
    && |states| == |moves| + 1 && states[0] == Start()
    && forall i :: 0 <= i < |moves| ==> MoveEnabled(rules, states[i], moves[i]) && states[i + 1] == Do(rules, states[i], moves[i])
  }

  /** A step of the worker itself in the escalation machine. */
  predicate OwnStep(move: Move, w: nat) { move.Core? && !move.step.Cleanup? && move.step.w == w }

  /** Between moves i and n the worker stays at its row. */
  ghost predicate Stays(moves: seq<Move>, i: int, n: int, w: nat)
    requires 0 <= i && n <= |moves|
  {
    forall m :: i <= m < n ==> !OwnStep(moves[m], w)
  }

  /** Move i found the message of the row that the worker is still at before move n unacknowledged, and read its root. */
  ghost predicate SourceSeen(states: seq<Full>, moves: seq<Move>, i: int, n: int, w: nat, root: nat)
    requires |states| == |moves| + 1 && n <= |moves|
  {
    && 0 <= i < n && moves[i] == InspectSource(w) && Stays(moves, i, n, w) && states[i].core.At(w) == states[n].core.At(w)
    && AtRow(states[i].core, w)
    && !states[i].Acked(MessageAt(states[i].core, w))
    && RootOf(states[i].core.messages, MessageAt(states[i].core, w)) == root
  }

  /** And the root was found unacknowledged after that, or is the message itself. */
  ghost predicate BothSeen(states: seq<Full>, moves: seq<Move>, i: int, n: int, w: nat, root: nat)
    requires |states| == |moves| + 1 && n <= |moves|
  {
    && SourceSeen(states, moves, i, n, w, root)
    && (root == MessageAt(states[i].core, w) || exists j :: i < j < n && moves[j] == InspectRoot(w) && !states[j].Acked(root))
  }

  /** Move i found the message, or its root, acknowledged. */
  ghost predicate AckSeen(states: seq<Full>, moves: seq<Move>, i: int, n: int, w: nat)
    requires |states| == |moves| + 1 && n <= |moves|
  {
    && 0 <= i < n && Stays(moves, i, n, w) && states[i].core.At(w) == states[n].core.At(w) && AtRow(states[i].core, w)
    && ((moves[i] == InspectSource(w) && states[i].Acked(MessageAt(states[i].core, w)))
        || (moves[i] == InspectRoot(w) && exists j, root :: SourceSeen(states, moves, j, i, w, root) && states[i].Acked(root)))
  }

  ghost predicate ChecksSeen(states: seq<Full>, moves: seq<Move>, n: nat, w: nat)
    requires |states| == |moves| + 1 && n <= |moves|
  {
    var check := states[n].CheckOf(w);
    && (check.SourceClear? ==> exists i :: SourceSeen(states, moves, i, n, w, check.root))
    && (check.Clear? ==> exists i, root :: BothSeen(states, moves, i, n, w, root))
    && (check.Acknowledged? ==> exists i :: AckSeen(states, moves, i, n, w))
  }

  lemma OthersStay(rules: Rules, s: State, step: Step, w: nat)
    requires Enabled(rules, s, step) && (step.Cleanup? || step.w != w)
    ensures Next(rules, s, step).At(w) == s.At(w)
  {
    hide KeyStored, WouldCycle, RowLive, RootOf, Child, Advanced;
  }

  /** A move that is not the worker's own leaves what the worker has seen. */
  lemma StillSeen(rules: Rules, states: seq<Full>, moves: seq<Move>, n: nat, w: nat)
    requires IsRun(rules, states, moves) && n < |moves| && !OwnStep(moves[n], w)
    ensures states[n + 1].core.At(w) == states[n].core.At(w)
    ensures forall i, root :: SourceSeen(states, moves, i, n, w, root) ==> SourceSeen(states, moves, i, n + 1, w, root)
    ensures forall i, root :: BothSeen(states, moves, i, n, w, root) ==> BothSeen(states, moves, i, n + 1, w, root)
    ensures forall i :: AckSeen(states, moves, i, n, w) ==> AckSeen(states, moves, i, n + 1, w)
  {
    assert MoveEnabled(rules, states[n], moves[n]) && states[n + 1] == Do(rules, states[n], moves[n]);
    if moves[n].Core? { OthersStay(rules, states[n].core, moves[n].step, w); }
    hide Next, Enabled, RootOf;
  }

  lemma InspectionSees(rules: Rules, states: seq<Full>, moves: seq<Move>, n: nat, w: nat)
    requires IsRun(rules, states, moves) && n < |moves| && ChecksSeen(states, moves, n, w)
    requires moves[n] == InspectSource(w) || moves[n] == InspectRoot(w)
    ensures ChecksSeen(states, moves, n + 1, w)
  {
    hide Next, Enabled, RootOf, SourceSeen;
    assert MoveEnabled(rules, states[n], moves[n]) && states[n + 1] == Do(rules, states[n], moves[n]);
    StillSeen(rules, states, moves, n, w);
    if moves[n] == InspectSource(w) {
      var root := RootOf(states[n].core.messages, MessageAt(states[n].core, w));
      if !states[n].Acked(MessageAt(states[n].core, w)) {
        SeenNow(states, moves, n, w);
        assert SourceSeen(states, moves, n, n + 1, w, root);
        assert root == MessageAt(states[n].core, w) ==> BothSeen(states, moves, n, n + 1, w, root);
      } else {
        assert AckSeen(states, moves, n, n + 1, w);
      }
    } else {
      var root := states[n].CheckOf(w).root;
      var i :| SourceSeen(states, moves, i, n, w, root);
      SeenBefore(states, moves, i, n, w, root);
      if states[n].Acked(root) {
        assert AckSeen(states, moves, n, n + 1, w);
      } else {
        assert BothSeen(states, moves, i, n + 1, w, root);
      }
    }
  }

  lemma SeenNow(states: seq<Full>, moves: seq<Move>, n: nat, w: nat)
    requires |states| == |moves| + 1 && n < |moves| && moves[n] == InspectSource(w) && AtRow(states[n].core, w)
    requires states[n + 1].core.At(w) == states[n].core.At(w) && !states[n].Acked(MessageAt(states[n].core, w))
    ensures SourceSeen(states, moves, n, n + 1, w, RootOf(states[n].core.messages, MessageAt(states[n].core, w)))
  {
    hide RootOf;
  }

  lemma SeenBefore(states: seq<Full>, moves: seq<Move>, i: int, n: nat, w: nat, root: nat)
    requires |states| == |moves| + 1 && n <= |moves| && SourceSeen(states, moves, i, n, w, root)
    ensures 0 <= i < n
  {
    hide RootOf;
  }

  lemma {:induction false} WhatWasSeen(rules: Rules, states: seq<Full>, moves: seq<Move>, n: nat, w: nat)
    requires IsRun(rules, states, moves) && n <= |moves|
    ensures ChecksSeen(states, moves, n, w)
  {
    hide Next, Enabled, RootOf, SourceSeen, BothSeen, AckSeen;
    if n == 0 {
      assert states[0] == Start();
    } else {
      WhatWasSeen(rules, states, moves, n - 1, w);
      assert MoveEnabled(rules, states[n - 1], moves[n - 1]) && states[n - 1 + 1] == Do(rules, states[n - 1], moves[n - 1]);
      if moves[n - 1] == InspectSource(w) || moves[n - 1] == InspectRoot(w) {
        InspectionSees(rules, states, moves, n - 1, w);
      } else if !OwnStep(moves[n - 1], w) {
        StillSeen(rules, states, moves, n - 1, w);
      }
    }
  }

  /**
   * In every run a row is escalated only by a worker that, since it came to the row, found the message unacknowledged and
   * after that its root too.
   */
  lemma EscalatedWasUnacknowledged(rules: Rules, states: seq<Full>, moves: seq<Move>, k: nat, w: nat)
    requires IsRun(rules, states, moves) && k < |moves| && moves[k].Core? && moves[k].step.Escalate? && moves[k].step.w == w
    ensures exists i, root :: BothSeen(states, moves, i, k, w, root)
  {
    WhatWasSeen(rules, states, moves, k, w);
    assert MoveEnabled(rules, states[k], moves[k]);
    hide Next, Enabled, RootOf, BothSeen;
  }

  /** Messages are not changed, so a root stays one. */
  lemma {:induction false} MessagesStay(rules: Rules, states: seq<Full>, moves: seq<Move>, i: nat, n: nat)
    requires IsRun(rules, states, moves) && i <= n <= |moves|
    ensures MessagesGrow(states[i].core.messages, states[n].core.messages)
  {
    hide Next, Enabled, Inv, Unqueued;
    if i == n {
    } else {
      MessagesStay(rules, states, moves, i, n - 1);
      CoreKeepsInv(rules, states, moves, n - 1);
      assert MoveEnabled(rules, states[n - 1], moves[n - 1]) && states[n - 1 + 1] == Do(rules, states[n - 1], moves[n - 1]);
      if moves[n - 1].Core? { StepGrows(rules, states[n - 1].core, moves[n - 1].step); }
    }
  }

  lemma StepGrows(rules: Rules, s: State, step: Step)
    requires Inv(rules, s) && Enabled(rules, s, step)
    ensures MessagesGrow(s.messages, Next(rules, s, step).messages)
  {
    hide KeyStored, WouldCycle, RowLive, RootOf, GoodMessage, GoodRow, GoodWorker, KeysUnique, RowsUnique;
  }

  lemma {:induction false} CoreKeepsInv(rules: Rules, states: seq<Full>, moves: seq<Move>, n: nat)
    requires IsRun(rules, states, moves) && n <= |moves|
    ensures Inv(rules, states[n].core) && Unqueued(states[n].core)
  {
    hide Next, Enabled;
    if n == 0 {
      assert states[0] == Start();
    } else {
      CoreKeepsInv(rules, states, moves, n - 1);
      hide Inv, Unqueued;
      assert MoveEnabled(rules, states[n - 1], moves[n - 1]) && states[n - 1 + 1] == Do(rules, states[n - 1], moves[n - 1]);
      if moves[n - 1].Core? { StepKeepsInv(rules, states[n - 1].core, moves[n - 1].step); }
    }
  }

  lemma SeenSince(states: seq<Full>, moves: seq<Move>, a: nat, i: int, k: nat, w: nat, root: nat)
    requires |states| == |moves| + 1 && a <= k <= |moves| && BothSeen(states, moves, i, k, w, root)
    requires a == 0 || OwnStep(moves[a - 1], w)
    ensures a <= i < k && AtRow(states[i].core, w) && states[i].core.At(w) == states[k].core.At(w)
    ensures var id := MessageAt(states[i].core, w);
            !states[i].Acked(id) && RootOf(states[i].core.messages, id) == root
            && exists j :: a <= j < k && !states[j].Acked(root)
  {
    hide RootOf;
    if root == MessageAt(states[i].core, w) { assert !states[i].Acked(root); }
  }

  /**
   * So a message that is acknowledged all the time from when a worker comes to its row, or whose root is, is not escalated
   * by that worker: an escalation means that there was a moment without, for the message and for its root.
   */
  lemma AcknowledgedIsNotEscalated(rules: Rules, states: seq<Full>, moves: seq<Move>, a: nat, k: nat, w: nat)
    requires IsRun(rules, states, moves) && a <= k < |moves| && (a == 0 || OwnStep(moves[a - 1], w))
    requires moves[k].Core? && moves[k].step.Escalate? && moves[k].step.w == w
    ensures AtRow(states[k].core, w)
    ensures var id := MessageAt(states[k].core, w); exists m :: a <= m < k && !states[m].Acked(id)
    ensures var root := RootOf(states[k].core.messages, MessageAt(states[k].core, w));
            exists m :: a <= m < k && !states[m].Acked(root)
  {
    hide Next, RootOf, BothSeen, KeyStored, WouldCycle, AnswersFor;
    EscalatedWasUnacknowledged(rules, states, moves, k, w);
    var i, root :| BothSeen(states, moves, i, k, w, root);
    SeenSince(states, moves, a, i, k, w, root);
    MessagesStay(rules, states, moves, i, k);
    assert MoveEnabled(rules, states[k], moves[k]);
    RootStays(states[i].core.messages, states[k].core.messages, MessageAt(states[k].core, w));
  }

  lemma RootStays(messages: Messages, more: Messages, id: nat)
    requires MessagesGrow(messages, more) && id in messages
    ensures id in more && RootOf(more, id) == RootOf(messages, id)
  {
  }

  // ---------------------------------------------------------------------------------------------
  // Rows that end early

  lemma AckSince(states: seq<Full>, moves: seq<Move>, a: nat, i: int, k: nat, w: nat) returns (root: nat)
    requires |states| == |moves| + 1 && a <= k <= |moves| && AckSeen(states, moves, i, k, w)
    requires a == 0 || OwnStep(moves[a - 1], w)
    ensures a <= i < k && AtRow(states[i].core, w) && states[i].core.At(w) == states[k].core.At(w)
    ensures var id := MessageAt(states[i].core, w);
            || states[i].Acked(id)
            || (states[i].Acked(root) && exists j :: 0 <= j < i && id in states[j].core.messages && RootOf(states[j].core.messages, id) == root)
  {
    hide RootOf;
    root := 0;
    if !states[i].Acked(MessageAt(states[i].core, w)) {
      var j, seen :| SourceSeen(states, moves, j, i, w, seen) && states[i].Acked(seen);
      root := seen;
    }
  }

  /** In every run the row at hand has its message, and its rule is there and enabled. */
  lemma RowAtHand(rules: Rules, s: State, w: nat)
    requires Inv(rules, s) && s.At(w).Batch? && s.At(w).rows != []
    ensures AtRow(s, w) && s.At(w).rows[0].rule in rules && rules[s.At(w).rows[0].rule].enabled
  {
    hide GoodMessage, KeysUnique, RowsUnique, WouldCycle;
    assert GoodWorker(rules, s.messages, s.rows, s.workers[w]);
    assert GoodCopy(rules, s.rows, s.At(w).rows[0]);
    assert GoodRow(rules, s.messages, s.rows, s.At(w).rows[0].id);
  }

  /**
   * In every run in which all reads succeed, a row is finished before its last repeat only by a worker that, since it came
   * to the row, found the message or its root acknowledged.
   */
  lemma FinishedWasAcknowledged(rules: Rules, states: seq<Full>, moves: seq<Move>, a: nat, k: nat, w: nat)
    requires IsRun(rules, states, moves) && a <= k < |moves| && (a == 0 || OwnStep(moves[a - 1], w))
    requires moves[k].Core? && moves[k].step.Finish? && moves[k].step.w == w && !moves[k].failed
    ensures AtRow(states[k].core, w)
    ensures var id := MessageAt(states[k].core, w);
            var root := RootOf(states[k].core.messages, id);
            exists m :: a <= m < k && (states[m].Acked(id) || states[m].Acked(root))
  {
    hide Inv, Unqueued, Next, RootOf, AckSeen, MessagesGrow, IsRun;
    CoreKeepsInv(rules, states, moves, k);
    FollowsAt(rules, states, moves, k);
    RowAtHand(rules, states[k].core, w);
    WhatWasSeen(rules, states, moves, k, w);
    var i :| AckSeen(states, moves, i, k, w);
    var root := AckSince(states, moves, a, i, k, w);
    var id := MessageAt(states[k].core, w);
    if !states[i].Acked(id) {
      var j :| 0 <= j < i && id in states[j].core.messages && RootOf(states[j].core.messages, id) == root;
      MessagesStay(rules, states, moves, j, k);
      RootStays(states[j].core.messages, states[k].core.messages, id);
    }
  }

  lemma FollowsAt(rules: Rules, states: seq<Full>, moves: seq<Move>, k: nat)
    requires IsRun(rules, states, moves) && k < |moves|
    ensures |states| == |moves| + 1 && MoveEnabled(rules, states[k], moves[k]) && states[k + 1] == Do(rules, states[k], moves[k])
  {
  }

  // ---------------------------------------------------------------------------------------------
  // What the acknowledgements and the escalation machine amount to

  /** Move i is the acknowledgement, and it is not withdrawn before move n. */
  ghost predicate Stands(moves: seq<Move>, i: int, n: int, a: Ack)
    requires n <= |moves|
  {
    0 <= i < n && moves[i] == Acknowledge(a) && forall j :: i < j < n ==> moves[j] != Withdraw(a)
  }

  lemma StandsAsBefore(moves: seq<Move>, n: nat, m: nat, a: Ack)
    requires m == n + 1 && n < |moves| && moves[n] != Acknowledge(a) && moves[n] != Withdraw(a)
    ensures (exists i :: Stands(moves, i, n, a)) <==> exists i :: Stands(moves, i, m, a)
  {
    if exists i :: Stands(moves, i, n, a) {
      var i :| Stands(moves, i, n, a);
      assert Stands(moves, i, m, a);
    }
    if exists i :: Stands(moves, i, m, a) {
      var i :| Stands(moves, i, m, a);
      assert Stands(moves, i, n, a);
    }
  }

  /** In every run a message is acknowledged exactly by those who acknowledged it and have not withdrawn since. */
  lemma {:induction false} AckIsHistory(rules: Rules, states: seq<Full>, moves: seq<Move>, n: nat, a: Ack)
    requires IsRun(rules, states, moves) && n <= |moves|
    ensures a in states[n].acks <==> exists i :: Stands(moves, i, n, a)
    ensures a in states[n].acks ==> states[n].Acked(a.message)
  {
    hide Next, Enabled, RootOf;
    if n > 0 {
      AckIsHistory(rules, states, moves, n - 1, a);
      FollowsAt(rules, states, moves, n - 1);
      hide IsRun, MoveEnabled;
      if moves[n - 1] == Acknowledge(a) {
        assert Stands(moves, n - 1, n, a);
      } else if moves[n - 1] != Withdraw(a) {
        assert a in states[n].acks <==> a in states[n - 1].acks;
        StandsAsBefore(moves, n - 1, n, a);
      }
    }
  }

  /** Anybody may acknowledge or withdraw at any time, and that changes nothing else. */
  lemma AnybodyMayAcknowledge(rules: Rules, f: Full, a: Ack, b: Ack)
    ensures MoveEnabled(rules, f, Acknowledge(a)) && MoveEnabled(rules, f, Withdraw(a))
    ensures var g := Do(rules, f, Acknowledge(a)); g == f.(acks := g.acks) && (b in g.acks <==> b == a || b in f.acks)
    ensures var g := Do(rules, f, Withdraw(a)); g == f.(acks := g.acks) && (b in g.acks <==> b != a && b in f.acks)
  {
    hide Next, Enabled;
  }

  /** Left alone, the one or two checks of a worker at a row come out right: it may escalate exactly if nobody has acknowledged. */
  lemma ChecksComeOutRight(rules: Rules, f: Full, w: nat) returns (g: Full)
    requires AtRow(f.core, w) && f.CheckOf(w).Unchecked?
    ensures MoveEnabled(rules, f, InspectSource(w))
    ensures var next := Do(rules, f, InspectSource(w));
            if next.CheckOf(w).SourceClear? then MoveEnabled(rules, next, InspectRoot(w)) && g == Do(rules, next, InspectRoot(w))
            else g == next
    ensures g == f.(checks := f.checks[w := g.CheckOf(w)])
    ensures var id := MessageAt(f.core, w);
            g.CheckOf(w) == if f.Acked(id) || f.Acked(RootOf(f.core.messages, id)) then Acknowledged else Clear
  {
    hide Next, Enabled, RootOf;
    var next := Do(rules, f, InspectSource(w));
    g := if next.CheckOf(w).SourceClear? then Do(rules, next, InspectRoot(w)) else next;
  }

  /** The steps of the escalation machine from move n on. */
  function CoreSteps(moves: seq<Move>, n: nat): seq<Step>
    requires n <= |moves|
    decreases |moves| - n
  {
    if n == |moves| then [] else (if moves[n].Core? then [moves[n].step] else []) + CoreSteps(moves, n + 1)
  }

  /** Without the checks and acknowledgements, a run is a run of the escalation machine: its results apply. */
  lemma {:induction false} CoreIsEscalation(rules: Rules, states: seq<Full>, moves: seq<Move>, n: nat)
    requires IsRun(rules, states, moves) && n <= |moves|
    ensures Leads(rules, states[n].core, CoreSteps(moves, n), states[|moves|].core)
    decreases |moves| - n
  {
    hide Next, Enabled, RootOf;
    if n < |moves| {
      CoreIsEscalation(rules, states, moves, n + 1);
      FollowsAt(rules, states, moves, n);
      if moves[n].Core? {
        assert CoreSteps(moves, n)[1..] == CoreSteps(moves, n + 1);
      } else {
        assert CoreSteps(moves, n) == CoreSteps(moves, n + 1);
      }
    }
  }
}
