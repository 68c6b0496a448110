/**
 * Deliveries of escalated messages when workers overlap. Each run of the escalation machine is extended by what
 * storing a message leads to: the worker that stored it hands it to the recipients one by one before it goes on.
 */
module EscalationDelivery {
  import opened Escalation
  import opened Lists

  /** A worker in the delivery loop, and the recipients still to come. */
  datatype Sending = Sending(message: nat, users: seq<nat>)

  datatype Delivery = Delivery(worker: nat, message: nat, user: nat)

  /** Remembered are who stored which message and for whom, and the messages whose delivery a crash has cut short. */
  datatype Full = Full(core: State, sending: map<nat, Sending>, log: seq<Delivery>,
                       storers: map<nat, nat>, recipients: map<nat, seq<nat>>, cut: set<nat>)

  /** A statement of the escalation machine, or one delivery. users is the recipient list of the message it stores, if any. */
  datatype Move = Core(step: Step, users: seq<nat>) | Send(w: nat) | EndSend(w: nat)

  function Start(): Full { Full(Initial(), map[], [], map[], map[], {}) }

  /** A worker that is delivering does nothing else, unless it crashes. The history cleanup belongs to no worker. */
  predicate Ready(f: Full, step: Step) { step.Crash? || step.Cleanup? || step.w !in f.sending }

  predicate MoveEnabled(rules: Rules, f: Full, move: Move) {
    match move
    case Core(step, users) => Enabled(rules, f.core, step) && Ready(f, step) && Distinct(users)
    case Send(w) => w in f.sending && f.sending[w].users != []
    case EndSend(w) => w in f.sending && f.sending[w].users == []
  }

  predicate Stores(rules: Rules, f: Full, step: Step)
    requires Enabled(rules, f.core, step)
  {
    step.Publish? || (step.Escalate? && Next(rules, f.core, step).nextMessage > f.core.nextMessage)
  }

  function Do(rules: Rules, f: Full, move: Move): Full
    requires MoveEnabled(rules, f, move)
  {
    match move
    case Core(step, users) =>
      var core := Next(rules, f.core, step);
      if step.Crash? then
        f.(core := core, sending := f.sending - {step.w},
           cut := if step.w in f.sending then f.cut + {f.sending[step.w].message} else f.cut)
      else if Stores(rules, f, step) then
        var id := f.core.nextMessage;
        f.(core := core, sending := f.sending[step.w := Sending(id, users)],
           storers := f.storers[id := step.w], recipients := f.recipients[id := users])
      else f.(core := core)
    case Send(w) =>
      var at := f.sending[w];
      f.(log := f.log + [Delivery(w, at.message, at.users[0])], sending := f.sending[w := at.(users := at.users[1..])])
    case EndSend(w) => f.(sending := f.sending - {w})
  }

  ghost predicate DeliversOnce(log: seq<Delivery>) {
    forall i, j :: 0 <= i < j < |log| && log[i].message == log[j].message ==> log[i].worker == log[j].worker && log[i].user != log[j].user
  }

  /** A worker only delivers what it stored, and only to recipients the message has not reached. */
  ghost predicate GoodSending(storers: map<nat, nat>, log: seq<Delivery>, w: nat, at: Sending) {
    && at.message in storers && storers[at.message] == w && Distinct(at.users)
    && forall i :: 0 <= i < |log| && log[i].message == at.message ==> log[i].user !in at.users
  }

  ghost predicate SendInv(f: Full) {
    && DeliversOnce(f.log)
    && (forall m :: m in f.storers ==> m in f.core.messages && m < f.core.nextMessage)
    && (forall i :: 0 <= i < |f.log| ==> f.log[i].message in f.storers && f.storers[f.log[i].message] == f.log[i].worker)
    && (forall w :: w in f.sending ==> GoodSending(f.storers, f.log, w, f.sending[w]))
  }

  /** The users a message has reached, in order. */
  function UsersOf(log: seq<Delivery>, message: nat): seq<nat> {
    if log == [] then []
    else UsersOf(log[..|log| - 1], message) + if log[|log| - 1].message == message then [log[|log| - 1].user] else []
  }

  /** The recipients still to come. */
  function Rest(f: Full, message: nat): seq<nat> {
    if message in f.storers && f.storers[message] in f.sending && f.sending[f.storers[message]].message == message
    then f.sending[f.storers[message]].users
    else []
  }

  /** A message has reached its recipients up to those still to come. If a crash cut it short, none are still to come. */
  ghost predicate Tracked(f: Full, message: nat) {
    && message in f.storers && message in f.recipients
    && UsersOf(f.log, message) + Rest(f, message) <= f.recipients[message]
    && (message !in f.cut ==> UsersOf(f.log, message) + Rest(f, message) == f.recipients[message])
    && (message in f.cut ==> Rest(f, message) == [])
  }

  ghost predicate AllTracked(f: Full) {
    && (forall m :: m in f.core.messages ==> Tracked(f, m))
    && (forall m :: m in f.cut ==> m in f.storers)
  }

  ghost predicate FullInv(rules: Rules, f: Full) { Inv(rules, f.core) && Unqueued(f.core) && SendInv(f) && AllTracked(f) }

  lemma NextMessageGrows(rules: Rules, s: State, step: Step)
    requires Enabled(rules, s, step)
    ensures Next(rules, s, step).nextMessage >= s.nextMessage
    ensures step.Publish? ==> Next(rules, s, step).nextMessage > s.nextMessage
    ensures MessagesGrow(s.messages, Next(rules, s, step).messages) || s.nextMessage in s.messages
    ensures Next(rules, s, step).nextMessage > s.nextMessage ==> s.nextMessage in Next(rules, s, step).messages
  {
    hide KeyStored, WouldCycle, RowLive, RootOf;
  }

  /** A new message has reached nobody yet. */
  lemma NewSending(f: Full, w: nat, users: seq<nat>)
    requires SendInv(f) && Distinct(users)
    ensures var storers := f.storers[f.core.nextMessage := w];
            && GoodSending(storers, f.log, w, Sending(f.core.nextMessage, users))
            && forall v :: v in f.sending ==> GoodSending(storers, f.log, v, f.sending[v])
  {
  }

  lemma CoreKeepsSending(rules: Rules, f: Full, step: Step, users: seq<nat>)
    requires SendInv(f) && MoveEnabled(rules, f, Core(step, users)) && f.core.nextMessage !in f.core.messages
    ensures SendInv(Do(rules, f, Core(step, users)))
  {
    NextMessageGrows(rules, f.core, step);
    if step.Publish? || step.Escalate? { NewSending(f, step.w, users); }
    hide Next, Enabled, Distinct, GoodSending;
  }

  lemma SendKeepsSending(rules: Rules, f: Full, move: Move)
    requires SendInv(f) && !move.Core? && MoveEnabled(rules, f, move)
    ensures SendInv(Do(rules, f, move))
  {
    var g := Do(rules, f, move);
    assert GoodSending(f.storers, f.log, move.w, f.sending[move.w]);
    forall w | w in g.sending ensures GoodSending(g.storers, g.log, w, g.sending[w]) {
      assert GoodSending(f.storers, f.log, w, f.sending[w]);
    }
  }

  lemma {:induction false} UnreachedYet(log: seq<Delivery>, message: nat)
    requires forall i :: 0 <= i < |log| ==> log[i].message != message
    ensures UsersOf(log, message) == []
  {
    if log != [] { UnreachedYet(log[..|log| - 1], message); }
  }

  /** The new messages of a step. */
  lemma NewMessages(rules: Rules, s: State, step: Step)
    requires Enabled(rules, s, step) && s.nextMessage !in s.messages
    ensures var t := Next(rules, s, step);
            t.messages.Keys == s.messages.Keys
              + if step.Publish? || (step.Escalate? && t.nextMessage > s.nextMessage) then {s.nextMessage} else {}
  {
    hide KeyStored, WouldCycle, RowLive, RootOf;
  }

  lemma StoreKeepsTracked(f: Full, g: Full, w: nat, users: seq<nat>)
    requires SendInv(f) && AllTracked(f) && w !in f.sending && f.core.nextMessage !in f.core.messages
    requires g.core.messages.Keys == f.core.messages.Keys + {f.core.nextMessage} && g.log == f.log && g.cut == f.cut
    requires g.sending == f.sending[w := Sending(f.core.nextMessage, users)]
    requires g.storers == f.storers[f.core.nextMessage := w] && g.recipients == f.recipients[f.core.nextMessage := users]
    ensures AllTracked(g)
  {
    hide DeliversOnce, GoodSending;
    var id := f.core.nextMessage;
    UnreachedYet(f.log, id);
    forall m | m in g.core.messages ensures Tracked(g, m) {
      if m != id {
        assert Tracked(f, m);
        assert Rest(g, m) == Rest(f, m);
      } else {
        assert Rest(g, m) == users && [] + users == users;
      }
    }
  }

  lemma CrashKeepsTracked(f: Full, g: Full, w: nat)
    requires SendInv(f) && AllTracked(f)
    requires g.core.messages.Keys == f.core.messages.Keys && g.log == f.log
    requires g.storers == f.storers && g.recipients == f.recipients && g.sending == f.sending - {w}
    requires g.cut == if w in f.sending then f.cut + {f.sending[w].message} else f.cut
    ensures AllTracked(g)
  {
    hide DeliversOnce, UsersOf;
    assert w in f.sending ==> GoodSending(f.storers, f.log, w, f.sending[w]);
    forall m | m in g.core.messages ensures Tracked(g, m) {
      assert Tracked(f, m);
      assert Rest(g, m) == if f.storers[m] == w then [] else Rest(f, m);
      assert UsersOf(f.log, m) + [] == UsersOf(f.log, m);
      if f.storers[m] == w && m !in g.cut { assert Rest(f, m) == []; }
    }
  }

  lemma CoreKeepsTracked(rules: Rules, f: Full, step: Step, users: seq<nat>)
    requires SendInv(f) && AllTracked(f) && MoveEnabled(rules, f, Core(step, users)) && f.core.nextMessage !in f.core.messages
    ensures AllTracked(Do(rules, f, Core(step, users)))
  {
    NextMessageGrows(rules, f.core, step);
    NewMessages(rules, f.core, step);
    hide Next, Enabled, Distinct, GoodSending, SendInv, AllTracked;
    var g := Do(rules, f, Core(step, users));
    if step.Crash? {
      CrashKeepsTracked(f, g, step.w);
    } else if Stores(rules, f, step) {
      StoreKeepsTracked(f, g, step.w, users);
    } else {
      SameTracked(f, g);
    }
  }

  lemma SameTracked(f: Full, g: Full)
    requires AllTracked(f) && g == f.(core := g.core) && g.core.messages.Keys == f.core.messages.Keys
    ensures AllTracked(g)
  {
    forall m | m in g.core.messages ensures Tracked(g, m) { assert Tracked(f, m) && Rest(g, m) == Rest(f, m); }
  }

  lemma UsersOfOneMore(log: seq<Delivery>, d: Delivery, message: nat)
    ensures UsersOf(log + [d], message) == UsersOf(log, message) + if d.message == message then [d.user] else []
  {
    assert (log + [d])[..|log|] == log;
  }

  lemma OneMoreReached(reached: seq<nat>, user: nat, rest: seq<nat>)
    ensures reached + [user] + rest == reached + ([user] + rest)
  {
  }

  lemma SendKeepsTracked(rules: Rules, f: Full, w: nat)
    requires SendInv(f) && AllTracked(f) && MoveEnabled(rules, f, Send(w))
    ensures AllTracked(Do(rules, f, Send(w)))
  {
    var g, at := Do(rules, f, Send(w)), f.sending[w];
    assert GoodSending(f.storers, f.log, w, at);
    hide SendInv, DeliversOnce, GoodSending, UsersOf;
    forall m | m in g.core.messages ensures Tracked(g, m) {
      assert Tracked(f, m);
      UsersOfOneMore(f.log, Delivery(w, at.message, at.users[0]), m);
      if m == at.message {
        assert Rest(f, m) == at.users && Rest(g, m) == at.users[1..] && at.users == [at.users[0]] + at.users[1..];
        OneMoreReached(UsersOf(f.log, m), at.users[0], Rest(g, m));
      } else {
        assert Rest(g, m) == Rest(f, m);
        assert UsersOf(f.log, m) + [] == UsersOf(f.log, m);
      }
    }
  }

  lemma EndKeepsTracked(rules: Rules, f: Full, w: nat)
    requires SendInv(f) && AllTracked(f) && MoveEnabled(rules, f, EndSend(w))
    ensures AllTracked(Do(rules, f, EndSend(w)))
  {
    var g := Do(rules, f, EndSend(w));
    hide SendInv, DeliversOnce, GoodSending, UsersOf;
    forall m | m in g.core.messages ensures Tracked(g, m) { assert Tracked(f, m) && Rest(g, m) == Rest(f, m); }
  }

  lemma MoveKeepsInv(rules: Rules, f: Full, move: Move)
    requires FullInv(rules, f) && MoveEnabled(rules, f, move)
    ensures FullInv(rules, Do(rules, f, move))
  {
    if move.Core? {
      StepKeepsInv(rules, f.core, move.step);
      assert f.core.nextMessage !in f.core.messages by { assert Inv(rules, f.core); }
      CoreKeepsSending(rules, f, move.step, move.users);
      CoreKeepsTracked(rules, f, move.step, move.users);
    } else {
      SendKeepsSending(rules, f, move);
      if move.Send? { SendKeepsTracked(rules, f, move.w); } else { EndKeepsTracked(rules, f, move.w); }
    }
    hide Inv, Unqueued, SendInv, Next, Enabled, Distinct, AllTracked;
  }

  ghost predicate Reaches(rules: Rules, f: Full, moves: seq<Move>, g: Full)
    decreases |moves|
  {
    if moves == [] then f == g else MoveEnabled(rules, f, moves[0]) && Reaches(rules, Do(rules, f, moves[0]), moves[1..], g)
  }

  lemma {:induction false} RunKeepsFullInv(rules: Rules, f: Full, moves: seq<Move>, g: Full)
    requires FullInv(rules, f) && Reaches(rules, f, moves, g)
    ensures FullInv(rules, g)
    decreases |moves|
  {
    hide FullInv, MoveEnabled, Do;
    if moves == [] {
    } else {
      MoveKeepsInv(rules, f, moves[0]);
      RunKeepsFullInv(rules, Do(rules, f, moves[0]), moves[1..], g);
    }
  }

  lemma StartInv(rules: Rules)
    ensures FullInv(rules, Start())
  {
  }

  /** The steps of the escalation machine among the moves. */
  function CoreSteps(moves: seq<Move>): seq<Step> {
    if moves == [] then [] else (if moves[0].Core? then [moves[0].step] else []) + CoreSteps(moves[1..])
  }

  /** Without its deliveries, a run of the extended machine is a run of the escalation machine: its results apply. */
  lemma {:induction false} CoreIsEscalation(rules: Rules, f: Full, moves: seq<Move>, g: Full)
    requires Reaches(rules, f, moves, g)
    ensures Leads(rules, f.core, CoreSteps(moves), g.core)
    decreases |moves|
  {
    hide Next, Enabled;
    if moves != [] {
      CoreIsEscalation(rules, Do(rules, f, moves[0]), moves[1..], g);
      if moves[0].Core? {
        assert CoreSteps(moves)[1..] == CoreSteps(moves[1..]);
      } else {
        assert CoreSteps(moves) == CoreSteps(moves[1..]);
      }
    }
  }

  /**
   * At most once under overlap: in every run, crashes, failures and history cleanup included, all deliveries of one
   * escalation's deduplication key come from one worker and reach each user at most once.
   */
  lemma EveryKeyDeliveredByOneWorker(rules: Rules, moves: seq<Move>, g: Full, i: nat, j: nat)
    requires Reaches(rules, Start(), moves, g) && i < j < |g.log|
    ensures g.log[i].message in g.core.messages && g.log[j].message in g.core.messages
    ensures var a, b := g.core.messages[g.log[i].message].origin, g.core.messages[g.log[j].message].origin;
            a == b && a.Escalated? ==> g.log[i].worker == g.log[j].worker && g.log[i].user != g.log[j].user
  {
    StartInv(rules);
    hide GoodMessage, GoodRow, GoodWorker, Unqueued, GoodSending, Next, Enabled;
    RunKeepsFullInv(rules, Start(), moves, g);
  }

  /**
   * In every run each stored message has reached a first part of its recipients, each once and in order. It has reached
   * all but those its worker is still to come to, unless a crash has cut it short; after that it reaches nobody.
   */
  lemma EveryMessageIsDelivered(rules: Rules, moves: seq<Move>, g: Full, m: nat)
    requires Reaches(rules, Start(), moves, g) && m in g.core.messages
    ensures m in g.recipients && m in g.storers && UsersOf(g.log, m) <= g.recipients[m]
    ensures m !in g.cut ==> UsersOf(g.log, m) + Rest(g, m) == g.recipients[m]
    ensures m in g.cut ==> Rest(g, m) == []
    ensures g.storers[m] !in g.sending && m !in g.cut ==> UsersOf(g.log, m) == g.recipients[m]
  {
    StartInv(rules);
    hide Inv, Unqueued, SendInv, Next, Enabled, UsersOf;
    RunKeepsFullInv(rules, Start(), moves, g);
    assert Tracked(g, m);
  }

  function Sends(w: nat, n: nat): seq<Move> { if n == 0 then [EndSend(w)] else [Send(w)] + Sends(w, n - 1) }

  function Deliveries(w: nat, at: Sending): seq<Delivery>
    decreases |at.users|
  {
    if at.users == [] then [] else [Delivery(w, at.message, at.users[0])] + Deliveries(w, at.(users := at.users[1..]))
  }

  /** Left alone, a worker hands its message to all remaining recipients in order and is then free again. */
  lemma {:induction false} DeliveryEnds(rules: Rules, f: Full, w: nat)
    requires w in f.sending
    ensures var at := f.sending[w];
            Reaches(rules, f, Sends(w, |at.users|), f.(log := f.log + Deliveries(w, at), sending := f.sending - {w}))
    decreases if w in f.sending then |f.sending[w].users| else 0
  {
    var at := f.sending[w];
    var moves := Sends(w, |at.users|);
    if at.users == [] {
      assert f.log + [] == f.log && moves[1..] == [];
      assert Do(rules, f, moves[0]) == f.(log := f.log + Deliveries(w, at), sending := f.sending - {w});
    } else {
      var h := Do(rules, f, Send(w));
      DeliveryEnds(rules, h, w);
      assert moves[0] == Send(w) && moves[1..] == Sends(w, |at.users| - 1);
      assert h.sending - {w} == f.sending - {w};
      assert f.log + Deliveries(w, at) == h.log + Deliveries(w, h.sending[w]);
      assert f.(log := f.log + Deliveries(w, at), sending := f.sending - {w})
          == h.(log := h.log + Deliveries(w, h.sending[w]), sending := h.sending - {w});
    }
  }
}
