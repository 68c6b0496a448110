/** Every interleaving of registering, closing and sweeping the clients of the stream API. */
module StreamRuns {
  import opened Lists
  import opened StreamRegistry

  /** A connection; its identity is the whole value. */
  datatype Conn = Conn(id: nat, userId: nat, token: string)
  type Clients = map<nat, seq<Conn>>

  datatype Sweep = DeletedClient(userId: nat, token: string) | DeletedUser(userId: nat) | Shutdown

  /** How far the NotifyClose call that passed the one-shot flag has come: before closing the channel, in onClose, or through. */
  datatype Notifier = Idle | Passed | Calling | Finished

  /** Whoever holds the write lock for longer than one step. The head of pending is being closed while inside is set. */
  datatype Lock = Free | Sweeping(sweep: Sweep, pending: seq<Conn>, inside: bool)

  /** closes and onCloses count how often a channel was closed and onClose was called. */
  datatype State = State(clients: Clients, known: set<Conn>, done: set<Conn>, notifiers: map<Conn, Notifier>,
                         closes: multiset<Conn>, onCloses: multiset<Conn>, lock: Lock)

  function Start(): State { State(map[], {}, {}, map[], multiset{}, multiset{}, Free) }

  function NotifierOf(s: State, c: Conn): Notifier { if c in s.notifiers then s.notifiers[c] else Idle }

  predicate Covers(sweep: Sweep, c: Conn) {
    match sweep
    case DeletedClient(userId, token) => c.userId == userId && c.token == token
    case DeletedUser(userId) => c.userId == userId
    case Shutdown => true
  }

  /** What the registry becomes when a sweep lets go of the lock. */
  function Swept(clients: Clients, sweep: Sweep): Clients {
    match sweep
    case DeletedClient(userId, token) =>
      if userId in clients then clients[userId := Without(clients[userId], (c: Conn) => c.token == token)] else clients
    case DeletedUser(userId) => clients - {userId}
    case Shutdown => map[]
  }

  function Removed(clients: Clients, c: Conn): Clients {
    if c.userId in clients then clients[c.userId := RemoveFirst(clients[c.userId], c)] else clients
  }

  /**
   * One atomic step. The order of a sweep is the order it walks the lists in. Calls of NotifyClose and Close that
   * do not pass the one-shot flag do nothing.
   */
  datatype Action =
    | Register(c: Conn)
    | NotifyClose(c: Conn)
    | NotifyClosesChannel(c: Conn)
    | Remove(c: Conn)
    | SweepBegins(sweep: Sweep, order: seq<Conn>)
    | SweepVisits
    | SweepClosesChannel
    | SweepEnds

  ghost predicate Enabled(s: State, a: Action) {
    match a
    case Register(c) => s.lock.Free? && c !in s.known
    case NotifyClose(c) => c in s.known
    case NotifyClosesChannel(c) => NotifierOf(s, c) == Passed
    case Remove(c) => s.lock.Free? && NotifierOf(s, c) == Calling
    case SweepBegins(sweep, order) => s.lock.Free? && forall c :: c in order <==> Covers(sweep, c) && c in Listed(s.clients, c.userId)
    case SweepVisits => s.lock.Sweeping? && !s.lock.inside && s.lock.pending != []
    case SweepClosesChannel => s.lock.Sweeping? && s.lock.inside && s.lock.pending != []
    case SweepEnds => s.lock.Sweeping? && s.lock.pending == []
  }

  ghost function Apply(s: State, a: Action): State
    requires Enabled(s, a)
  {
    match a
    case Register(c) =>
      s.(clients := s.clients[c.userId := Listed(s.clients, c.userId) + [c]], known := s.known + {c})
    case NotifyClose(c) =>
      if c in s.done then s else s.(done := s.done + {c}, notifiers := s.notifiers[c := Passed])
    case NotifyClosesChannel(c) =>
      s.(closes := s.closes + multiset{c}, onCloses := s.onCloses + multiset{c}, notifiers := s.notifiers[c := Calling])
    case Remove(c) =>
      s.(clients := Removed(s.clients, c), notifiers := s.notifiers[c := Finished])
    case SweepBegins(sweep, order) =>
      s.(lock := Sweeping(sweep, order, false))
    case SweepVisits =>
      var c := s.lock.pending[0];
      if c in s.done then s.(lock := s.lock.(pending := s.lock.pending[1..]))
      else s.(done := s.done + {c}, lock := s.lock.(inside := true))
    case SweepClosesChannel =>
      s.(closes := s.closes + multiset{s.lock.pending[0]}, lock := s.lock.(pending := s.lock.pending[1..], inside := false))
    case SweepEnds =>
      s.(clients := Swept(s.clients, s.lock.sweep), lock := Free)
  }

  // ---------------------------------------------------------------------------------------------
  // The invariant

  ghost predicate WellListed(clients: Clients, known: set<Conn>) {
    forall u :: u in clients ==> Distinct(clients[u]) && forall c :: c in clients[u] ==> c.userId == u && c in known
  }

  predicate InList(s: State, c: Conn) { c in Listed(s.clients, c.userId) }

  /** The channel of c is about to be closed by the call that passed the flag. */
  predicate AboutToClose(s: State, c: Conn) {
    NotifierOf(s, c) == Passed || (s.lock.Sweeping? && s.lock.inside && s.lock.pending != [] && s.lock.pending[0] == c)
  }

  /** The sweep in progress will take c off its list. */
  predicate WillGo(s: State, c: Conn) { s.lock.Sweeping? && Covers(s.lock.sweep, c) }

  ghost predicate Good(s: State, c: Conn) {
    && s.closes[c] == (if c in s.done && !AboutToClose(s, c) then 1 else 0)
    && s.onCloses[c] == (if NotifierOf(s, c) == Calling || NotifierOf(s, c) == Finished then 1 else 0)
    && (c in s.done ==> c in s.known)
    && (NotifierOf(s, c) != Idle ==> c in s.done)
    && (c in s.known && c !in s.done ==> InList(s, c))
    && (NotifierOf(s, c) == Finished ==> !InList(s, c))
    && (c in s.done && NotifierOf(s, c) == Idle && InList(s, c) ==> WillGo(s, c))
    && (s.lock.Sweeping? && c in s.lock.pending ==> WillGo(s, c) && c in s.known)
    && (WillGo(s, c) && c in s.known && c !in s.done ==> c in s.lock.pending)
  }

  ghost predicate LockGood(s: State) {
    s.lock.Sweeping? && s.lock.inside ==>
      s.lock.pending != [] && s.lock.pending[0] in s.done && NotifierOf(s, s.lock.pending[0]) == Idle
  }

  ghost predicate Inv(s: State) { WellListed(s.clients, s.known) && LockGood(s) && forall c :: Good(s, c) }

  lemma StartInv()
    ensures Inv(Start())
  {
  }

  lemma RegisterKeeps(s: State, c: Conn)
    requires Inv(s) && Enabled(s, Register(c))
    ensures Inv(Apply(s, Register(c)))
  {
    var t := Apply(s, Register(c));
    assert Good(s, c);
    assert c !in Listed(s.clients, c.userId);
    forall x ensures Good(t, x) { assert Good(s, x); }
  }

  lemma NotifyKeeps(s: State, a: Action)
    requires Inv(s) && Enabled(s, a) && (a.NotifyClose? || a.NotifyClosesChannel?)
    ensures Inv(Apply(s, a))
  {
    var t := Apply(s, a);
    assert Good(s, a.c);
    forall x ensures Good(t, x) { assert Good(s, x); }
  }

  lemma RemovedMembers(clients: Clients, known: set<Conn>, c: Conn, x: Conn)
    requires WellListed(clients, known)
    ensures x in Listed(Removed(clients, c), x.userId) <==> x in Listed(clients, x.userId) && x != c
    ensures WellListed(Removed(clients, c), known)
  {
    if c.userId in clients { RemoveFirstMembers(clients[c.userId], c); }
  }

  lemma RemoveKeeps(s: State, c: Conn)
    requires Inv(s) && Enabled(s, Remove(c))
    ensures Inv(Apply(s, Remove(c)))
  {
    var t := Apply(s, Remove(c));
    RemovedMembers(s.clients, s.known, c, c);
    forall x ensures Good(t, x) {
      assert Good(s, x);
      RemovedMembers(s.clients, s.known, c, x);
      hide Removed, WellListed;
    }
  }

  lemma SweepMovesKeep(s: State, a: Action)
    requires Inv(s) && Enabled(s, a) && (a.SweepVisits? || a.SweepClosesChannel?)
    ensures Inv(Apply(s, a))
  {
    var t := Apply(s, a);
    var c := s.lock.pending[0];
    assert Good(s, c);
    assert s.lock.pending == [c] + s.lock.pending[1..];
    forall x ensures Good(t, x) { assert Good(s, x); }
  }

  lemma SweepBeginsKeeps(s: State, sweep: Sweep, order: seq<Conn>)
    requires Inv(s) && Enabled(s, SweepBegins(sweep, order))
    ensures Inv(Apply(s, SweepBegins(sweep, order)))
  {
    var t := Apply(s, SweepBegins(sweep, order));
    forall x ensures Good(t, x) { assert Good(s, x); }
  }

  lemma SweptMembers(clients: Clients, known: set<Conn>, sweep: Sweep, x: Conn)
    requires WellListed(clients, known)
    ensures x in Listed(Swept(clients, sweep), x.userId) <==> x in Listed(clients, x.userId) && !Covers(sweep, x)
    ensures WellListed(Swept(clients, sweep), known)
  {
    if sweep.DeletedClient? && sweep.userId in clients {
      WithoutMembers(clients[sweep.userId], (c: Conn) => c.token == sweep.token);
    }
  }

  lemma SweepEndsKeeps(s: State)
    requires Inv(s) && Enabled(s, SweepEnds)
    ensures Inv(Apply(s, SweepEnds))
  {
    var t := Apply(s, SweepEnds);
    SweptMembers(s.clients, s.known, s.lock.sweep, Conn(0, 0, ""));
    forall x ensures Good(t, x) {
      assert Good(s, x);
      SweptMembers(s.clients, s.known, s.lock.sweep, x);
      hide Swept, WellListed;
    }
  }

  lemma StepKeepsInv(s: State, a: Action)
    requires Inv(s) && Enabled(s, a)
    ensures Inv(Apply(s, a))
  {
    hide Inv, Apply;
    match a
    case Register(c) => RegisterKeeps(s, c);
    case NotifyClose(_) => NotifyKeeps(s, a);
    case NotifyClosesChannel(_) => NotifyKeeps(s, a);
    case Remove(c) => RemoveKeeps(s, c);
    case SweepBegins(sweep, order) => SweepBeginsKeeps(s, sweep, order);
    case SweepVisits => SweepMovesKeep(s, a);
    case SweepClosesChannel => SweepMovesKeep(s, a);
    case SweepEnds => SweepEndsKeeps(s);
  }

  // ---------------------------------------------------------------------------------------------
  // Runs

  ghost predicate IsRun(trace: seq<State>) {
    && trace != [] && trace[0] == Start()
    && forall i :: 0 <= i < |trace| - 1 ==> exists a :: Enabled(trace[i], a) && trace[i + 1] == Apply(trace[i], a)
  }

  lemma {:induction false} RunKeepsInv(trace: seq<State>, i: nat)
    requires IsRun(trace) && i < |trace|
    ensures Inv(trace[i])
  {
    hide Inv, Apply, Enabled;
    if i == 0 {
      StartInv();
    } else {
      RunKeepsInv(trace, i - 1);
      var a :| Enabled(trace[i - 1], a) && trace[i - 1 + 1] == Apply(trace[i - 1], a);
      StepKeepsInv(trace[i - 1], a);
    }
  }

  /** Each client is closed at most once and calls onClose at most once. */
  lemma ClosedAtMostOnce(trace: seq<State>, i: nat, c: Conn)
    requires IsRun(trace) && i < |trace|
    ensures trace[i].closes[c] <= 1 && trace[i].onCloses[c] <= trace[i].closes[c]
  {
    RunKeepsInv(trace, i);
    assert Good(trace[i], c);
  }

  /** No client is registered twice, and every open one is registered, under its own user. */
  lemma OpenClientsAreRegistered(trace: seq<State>, i: nat, c: Conn)
    requires IsRun(trace) && i < |trace|
    ensures var s := trace[i];
            && (c in s.known && c !in s.done ==> InList(s, c))
            && (forall u :: u in s.clients && c in s.clients[u] ==> u == c.userId)
            && (c.userId in s.clients ==> Distinct(s.clients[c.userId]))
  {
    RunKeepsInv(trace, i);
    assert Good(trace[i], c);
  }

  /** When nobody is between the flag and the end of its call, the lists hold exactly the open clients. */
  lemma QuietListsAreOpenClients(trace: seq<State>, i: nat, c: Conn)
    requires IsRun(trace) && i < |trace|
    requires trace[i].lock.Free? && (NotifierOf(trace[i], c) == Idle || NotifierOf(trace[i], c) == Finished)
    ensures InList(trace[i], c) <==> c in trace[i].known && c !in trace[i].done
    ensures c in trace[i].done <==> trace[i].closes[c] == 1
  {
    RunKeepsInv(trace, i);
    assert Good(trace[i], c);
  }

  /**
   * When a sweep ends, every client it covers that was ever registered is off the lists and its one-shot flag is
   * taken; its channel is closed unless a NotifyClose that took the flag first is just about to close it.
   */
  lemma SweepClosesAll(trace: seq<State>, i: nat, c: Conn)
    requires IsRun(trace) && i < |trace| && Enabled(trace[i], SweepEnds)
    requires Covers(trace[i].lock.sweep, c) && c in trace[i].known
    ensures var t := Apply(trace[i], SweepEnds);
            c in t.done && !InList(t, c) && t.closes[c] == if NotifierOf(t, c) == Passed then 0 else 1
  {
    RunKeepsInv(trace, i);
    assert Good(trace[i], c);
    SweptMembers(trace[i].clients, trace[i].known, trace[i].lock.sweep, c);
  }

  // ---------------------------------------------------------------------------------------------
  // Every call comes to its end

  ghost predicate Leads(s: State, actions: seq<Action>, t: State)
    decreases |actions|
  {
    if actions == [] then s == t else Enabled(s, actions[0]) && Leads(Apply(s, actions[0]), actions[1..], t)
  }

  lemma LeadsBy(s: State, a: Action, actions: seq<Action>, t: State)
    requires Enabled(s, a) && Leads(Apply(s, a), actions, t)
    ensures Leads(s, [a] + actions, t)
  {
    hide Enabled, Apply;
    assert ([a] + actions)[1..] == actions;
  }

  /** The steps a sweep still has to do: two for a client it closes, one for one that is closed already, one to let go. */
  function StepsLeft(pending: seq<Conn>, done: set<Conn>): nat {
    if pending == [] then 1
    else (if pending[0] in done then 1 else 2) + StepsLeft(pending[1..], done + {pending[0]})
  }

  /** A sweep needs nobody: by its own steps alone it ends, lets go of the lock, and has changed nothing but its clients. */
  lemma {:induction false} SweepFinishes(s: State) returns (actions: seq<Action>, t: State)
    requires s.lock.Sweeping? && (s.lock.inside ==> s.lock.pending != [] && s.lock.pending[0] in s.done)
    ensures Leads(s, actions, t) && |actions| == StepsLeft(s.lock.pending, s.done)
    ensures t.lock.Free? && t.clients == Swept(s.clients, s.lock.sweep) && t.notifiers == s.notifiers && t.known == s.known
    ensures forall c :: c in t.done <==> c in s.done || c in s.lock.pending
    decreases StepsLeft(s.lock.pending, s.done), |s.lock.pending|
  {
    hide Swept, Covers;
    if s.lock.pending == [] {
      actions, t := [SweepEnds], Apply(s, SweepEnds);
      assert actions[1..] == [];
    } else {
      var a := if s.lock.inside then SweepClosesChannel else SweepVisits;
      var next := Apply(s, a);
      assert s.lock.pending == [s.lock.pending[0]] + s.lock.pending[1..];
      assert s.lock.pending[0] in s.done ==> s.done + {s.lock.pending[0]} == s.done;
      assert (s.done + {s.lock.pending[0]}) + {s.lock.pending[0]} == s.done + {s.lock.pending[0]};
      actions, t := SweepFinishes(next);
      LeadsBy(s, a, actions, t);
      actions := [a] + actions;
    }
  }

  /**
   * From any moment the lock is free a sweep can begin, and then by its own steps alone every registered client it covers
   * has its flag taken and is off the lists, and nobody else is touched.
   */
  lemma SweepAlone(trace: seq<State>, i: nat, sweep: Sweep) returns (actions: seq<Action>, t: State)
    requires IsRun(trace) && i < |trace| && trace[i].lock.Free?
    ensures Leads(trace[i], actions, t) && t.lock.Free? && t.known == trace[i].known
    ensures forall c :: c in t.known && Covers(sweep, c) ==> c in t.done && !InList(t, c)
    ensures forall c :: !Covers(sweep, c) ==> (InList(t, c) <==> InList(trace[i], c)) && (c in t.done <==> c in trace[i].done)
  {
    var s := trace[i];
    RunKeepsInv(trace, i);
    hide IsRun;
    var order := Enumerate(set c | c in s.known && Covers(sweep, c) && InList(s, c));
    var begin := SweepBegins(sweep, order);
    assert Enabled(s, begin);
    var rest;
    rest, t := SweepFinishes(Apply(s, begin));
    LeadsBy(s, begin, rest, t);
    actions := [begin] + rest;
    forall c ensures InList(t, c) <==> InList(s, c) && !Covers(sweep, c) {
      SweptMembers(s.clients, s.known, sweep, c);
      hide Swept, WellListed, Good, Leads;
    }
    forall c | c in t.known && Covers(sweep, c) ensures c in t.done {
      assert Good(s, c);
    }
  }

  /** Nor does a NotifyClose, once the lock is free: the client is closed, calls onClose and leaves its list. */
  lemma CloseFinishes(trace: seq<State>, i: nat, c: Conn) returns (t: State)
    requires IsRun(trace) && i < |trace| && trace[i].lock.Free? && c in trace[i].known && c !in trace[i].done
    ensures Leads(trace[i], [NotifyClose(c), NotifyClosesChannel(c), Remove(c)], t)
    ensures NotifierOf(t, c) == Finished && t.closes[c] == 1 && t.onCloses[c] == 1 && !InList(t, c)
    ensures forall x :: x != c ==> (InList(t, x) <==> InList(trace[i], x)) && (x in t.done <==> x in trace[i].done)
  {
    RunKeepsInv(trace, i);
    hide IsRun;
    assert Good(trace[i], c);
    t := CloseAlone(trace[i], c);
    forall x ensures InList(t, x) <==> InList(trace[i], x) && x != c {
      RemovedMembers(trace[i].clients, trace[i].known, c, x);
      hide Removed, WellListed, Good;
    }
  }

  lemma CloseAlone(s: State, c: Conn) returns (t: State)
    requires s.lock.Free? && c in s.known && c !in s.done && NotifierOf(s, c) == Idle
    ensures Leads(s, [NotifyClose(c), NotifyClosesChannel(c), Remove(c)], t)
    ensures t == State(Removed(s.clients, c), s.known, s.done + {c}, s.notifiers[c := Finished],
                       s.closes + multiset{c}, s.onCloses + multiset{c}, Free)
  {
    hide Removed;
    var passed := Apply(s, NotifyClose(c));
    var calling := Apply(passed, NotifyClosesChannel(c));
    t := Apply(calling, Remove(c));
    LeadsBy(calling, Remove(c), [], t);
    LeadsBy(passed, NotifyClosesChannel(c), [Remove(c)], t);
    LeadsBy(s, NotifyClose(c), [NotifyClosesChannel(c), Remove(c)], t);
    assert [Remove(c)] + [] == [Remove(c)];
    assert [NotifyClosesChannel(c)] + [Remove(c)] == [NotifyClosesChannel(c), Remove(c)];
    assert [NotifyClose(c)] + [NotifyClosesChannel(c), Remove(c)] == [NotifyClose(c), NotifyClosesChannel(c), Remove(c)];
    assert s.notifiers[c := Passed][c := Calling][c := Finished] == s.notifiers[c := Finished];
  }
}
