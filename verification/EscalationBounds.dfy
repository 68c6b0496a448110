/** What the escalation invariant gives for every run: depth, ancestry, no revisited channel, a bound on the volume. */
module EscalationBounds {
  import opened Counting
  import opened Escalation

  /** Following ParentMessageID k times. */
  function Ancestor(messages: Messages, id: nat, k: nat): nat
    decreases k
  {
    if k == 0 then id else if id in messages then Ancestor(messages, messages[id].parent, k - 1) else 0
  }

  /** Ancestry: exactly `depth` parent links lead to the root, which is a published message. */
  lemma {:induction false} ChainReachesRoot(rules: Rules, s: State, id: nat)
    requires Inv(rules, s) && id in s.messages
    ensures var root := RootOf(s.messages, id);
            root in s.messages && s.messages[root].origin.Published?
            && Ancestor(s.messages, id, s.messages[id].depth) == root
    decreases s.messages[id].depth
  {
    hide Inv;
    ParentIsGood(rules, s, id);
    if s.messages[id].origin.Escalated? { ChainReachesRoot(rules, s, s.messages[id].parent); }
  }

  /** What the invariant says about a message and its parent; a message without a parent is published. */
  lemma ParentIsGood(rules: Rules, s: State, id: nat)
    requires Inv(rules, s) && id in s.messages
    ensures var m := s.messages[id];
            && (m.origin.Published? ==> m.depth == 0 && m.root == 0 && m.parent == 0)
            && (m.origin.Escalated? ==>
                  m.parent in s.messages && s.messages[m.parent].depth + 1 == m.depth && m.root == RootOf(s.messages, m.parent) && m.root != 0)
  {
    assert GoodMessage(rules, s.messages, s.rows, id);
    if s.messages[id].origin.Escalated? { assert GoodMessage(rules, s.messages, s.rows, s.messages[id].parent); }
    hide GoodRow, GoodWorker, KeysUnique, RowsUnique;
  }

  /** No search limit short of eight hides an ancestor at depth five or less. */
  lemma {:induction false} UnvisitedAncestors(rules: Rules, s: State, id: nat, channel: nat, fuel: nat, k: nat)
    requires Inv(rules, s) && id in s.messages && !Visits(s.messages, id, channel, fuel)
    requires k <= s.messages[id].depth && k < fuel
    ensures Ancestor(s.messages, id, k) in s.messages
    ensures s.messages[Ancestor(s.messages, id, k)].app != channel
    decreases k
  {
    hide WouldCycle, RootOf;
    assert GoodMessage(rules, s.messages, s.rows, id);
    if k > 0 { UnvisitedAncestors(rules, s, s.messages[id].parent, channel, fuel - 1, k - 1); }
  }

  lemma {:induction false} VisitedAncestor(rules: Rules, s: State, id: nat, channel: nat, fuel: nat) returns (k: nat)
    requires Inv(rules, s) && id in s.messages && Visits(s.messages, id, channel, fuel)
    ensures k <= s.messages[id].depth && Ancestor(s.messages, id, k) in s.messages
    ensures s.messages[Ancestor(s.messages, id, k)].app == channel
    decreases fuel
  {
    hide Inv;
    ParentIsGood(rules, s, id);
    if s.messages[id].app == channel {
      k := 0;
    } else {
      var j := VisitedAncestor(rules, s, s.messages[id].parent, channel, fuel - 1);
      k := j + 1;
    }
  }

  /**
   * What keeps a rule from being queued for a message: it names no channel, or a channel that the message or one of its
   * ancestors, up to the published one, is in. Rules for users and groups are never kept back.
   */
  lemma CyclesExactly(rules: Rules, s: State, id: nat, rule: Rule)
    requires Inv(rules, s) && id in s.messages
    ensures var channel := if rule.targetAppId != 0 then rule.targetAppId else rule.targetId;
            WouldCycle(s.messages, id, rule) <==>
              rule.targetType == ChannelTarget
              && (channel == 0 || exists k: nat :: k <= s.messages[id].depth && Ancestor(s.messages, id, k) in s.messages
                                                   && s.messages[Ancestor(s.messages, id, k)].app == channel)
  {
    var channel := if rule.targetAppId != 0 then rule.targetAppId else rule.targetId;
    assert s.messages[id].depth <= MAX_DEPTH by { assert GoodMessage(rules, s.messages, s.rows, id); }
    hide Inv, Visits;
    if Visits(s.messages, id, channel, CYCLE_SEARCH) {
      var k := VisitedAncestor(rules, s, id, channel, CYCLE_SEARCH);
    } else {
      forall k: nat | k <= s.messages[id].depth
        ensures Ancestor(s.messages, id, k) in s.messages && s.messages[Ancestor(s.messages, id, k)].app != channel
      {
        UnvisitedAncestors(rules, s, id, channel, CYCLE_SEARCH, k);
      }
    }
  }

  /** A message escalated to a channel was never in that channel before, at any point of its chain. */
  lemma ChannelNotRevisited(rules: Rules, s: State, id: nat, k: nat)
    requires Inv(rules, s) && id in s.messages && s.messages[id].origin.Escalated?
    requires s.messages[id].rule in rules && rules[s.messages[id].rule].targetType == ChannelTarget
    requires 0 < k <= s.messages[id].depth
    ensures Ancestor(s.messages, id, k) in s.messages
    ensures s.messages[Ancestor(s.messages, id, k)].app != s.messages[id].app
  {
    hide Inv, Visits;
    var m := s.messages[id];
    ParentIsGood(rules, s, id);
    ParentNotVisited(rules, s, id);
    UnvisitedAncestors(rules, s, m.parent, m.app, CYCLE_SEARCH, k - 1);
  }

  /** The row a message came from was queued only after the cycle search. */
  lemma ParentNotVisited(rules: Rules, s: State, id: nat)
    requires Inv(rules, s) && id in s.messages && s.messages[id].origin.Escalated?
    requires s.messages[id].rule in rules && rules[s.messages[id].rule].targetType == ChannelTarget
    ensures !Visits(s.messages, s.messages[id].parent, s.messages[id].app, CYCLE_SEARCH) && s.messages[id].depth <= MAX_DEPTH
  {
    assert GoodMessage(rules, s.messages, s.rows, id);
    assert GoodRow(rules, s.messages, s.rows, s.messages[id].origin.row);
    hide Visits, GoodWorker, KeysUnique, RowsUnique, RootOf;
  }

  // ---------------------------------------------------------------------------------------------
  // Counting

  function EnabledRules(rules: Rules): set<nat> { set r | r in rules && rules[r].enabled }

  /** The messages a source message caused at one depth. */
  function Level(messages: Messages, source: nat, depth: nat): set<nat> {
    set id | id in messages && messages[id].depth == depth && RootOf(messages, id) == source
  }

  /** Those of them whose own escalations are queued: first repeats only. */
  function ChainLevel(messages: Messages, source: nat, depth: nat): set<nat> {
    set id | id in Level(messages, source, depth) && (messages[id].origin.Escalated? ==> messages[id].origin.repeat == 0)
  }

  function RepeatOf(m: Message): nat { if m.origin.Escalated? then m.origin.repeat else 0 }

  /** A chosen parent, rule and repeat count leave room for one message only. */
  lemma MessageDetermined(rules: Rules, s: State, a: nat, b: nat)
    requires Inv(rules, s) && a in s.messages && b in s.messages
    requires s.messages[a].depth > 0 && s.messages[b].depth > 0
    requires s.messages[a].parent == s.messages[b].parent && s.messages[a].rule == s.messages[b].rule
    requires RepeatOf(s.messages[a]) == RepeatOf(s.messages[b])
    ensures a == b
  {
    assert GoodMessage(rules, s.messages, s.rows, a) && GoodMessage(rules, s.messages, s.rows, b);
    assert s.messages[a].origin.row == s.messages[b].origin.row;
  }

  /** Where an escalated message comes from: an enabled rule, and a parent whose chain continues. */
  lemma MessageComesFrom(rules: Rules, s: State, source: nat, depth: nat, id: nat)
    requires Inv(rules, s) && depth > 0 && id in Level(s.messages, source, depth)
    ensures s.messages[id].parent in ChainLevel(s.messages, source, depth - 1)
    ensures s.messages[id].rule in EnabledRules(rules)
    ensures RepeatOf(s.messages[id]) <= rules[s.messages[id].rule].LastRepeat()
  {
    hide Visits;
    var m := s.messages[id];
    assert GoodMessage(rules, s.messages, s.rows, id);
    assert GoodRow(rules, s.messages, s.rows, m.origin.row);
    assert GoodMessage(rules, s.messages, s.rows, m.parent);
  }

  lemma ChainLevelBound(rules: Rules, s: State, source: nat, depth: nat)
    requires Inv(rules, s) && depth > 0
    ensures |ChainLevel(s.messages, source, depth)| <= |ChainLevel(s.messages, source, depth - 1)| * |EnabledRules(rules)|
  {
    hide Inv, EnabledRules, RootOf;
    var xs := ChainLevel(s.messages, source, depth);
    var f := (id: nat) => if id in s.messages then s.messages[id].parent else 0;
    var g := (id: nat) => if id in s.messages then s.messages[id].rule else 0;
    forall x | x in xs ensures f(x) in ChainLevel(s.messages, source, depth - 1) && g(x) in EnabledRules(rules) {
      MessageComesFrom(rules, s, source, depth, x);
    }
    forall x, y | x in xs && y in xs && f(x) == f(y) && g(x) == g(y) ensures x == y {
      MessageDetermined(rules, s, x, y);
    }
    PairBound(xs, ChainLevel(s.messages, source, depth - 1), EnabledRules(rules), f, g);
  }

  /** No rule repeats more than m times. */
  predicate RepeatsWithin(rules: Rules, m: nat) { forall r :: r in rules ==> rules[r].LastRepeat() <= m }

  lemma LevelBound(rules: Rules, s: State, source: nat, depth: nat, m: nat)
    requires Inv(rules, s) && depth > 0 && RepeatsWithin(rules, m)
    ensures |Level(s.messages, source, depth)|
            <= |ChainLevel(s.messages, source, depth - 1)| * (|EnabledRules(rules)| * (m + 1))
  {
    hide Inv, RootOf;
    var parents := ChainLevel(s.messages, source, depth - 1);
    var repeats := UpTo(m);
    var labels := set r, k | r in EnabledRules(rules) && k in repeats :: (r, k);
    PairBound(labels, EnabledRules(rules), repeats, (l: (nat, nat)) => l.0, (l: (nat, nat)) => l.1);
    var xs := Level(s.messages, source, depth);
    var f := (id: nat) => if id in s.messages then s.messages[id].parent else 0;
    var g := (id: nat) => if id in s.messages then (s.messages[id].rule, RepeatOf(s.messages[id])) else (0, 0);
    forall x | x in xs ensures f(x) in parents && g(x) in labels {
      MessageComesFrom(rules, s, source, depth, x);
    }
    forall x, y | x in xs && y in xs && f(x) == f(y) && g(x) == g(y) ensures x == y {
      MessageDetermined(rules, s, x, y);
    }
    PairBound(xs, parents, labels, f, g);
    MulCommute(|labels|, |parents|);
    MulMonotone(|labels|, |EnabledRules(rules)| * (m + 1), |parents|);
    MulCommute(|EnabledRules(rules)| * (m + 1), |parents|);
  }

  function Power(r: nat, n: nat): nat { if n == 0 then 1 else Power(r, n - 1) * r }

  /** r + r^2 + ... + r^n */
  function PowerSum(r: nat, n: nat): nat { if n == 0 then 0 else PowerSum(r, n - 1) + Power(r, n) }

  lemma ChainStart(rules: Rules, s: State, source: nat)
    requires Inv(rules, s)
    ensures |ChainLevel(s.messages, source, 0)| <= 1
  {
    hide Visits;
    forall id | id in ChainLevel(s.messages, source, 0) ensures id == source {
      assert GoodMessage(rules, s.messages, s.rows, id);
    }
    InjectionBound(ChainLevel(s.messages, source, 0), {source}, (id: nat) => id);
  }

  lemma {:induction false} ChainLevelPower(rules: Rules, s: State, source: nat, depth: nat)
    requires Inv(rules, s)
    ensures |ChainLevel(s.messages, source, depth)| <= Power(|EnabledRules(rules)|, depth)
  {
    hide Inv, ChainLevel, EnabledRules;
    if depth == 0 {
      ChainStart(rules, s, source);
      assert Power(|EnabledRules(rules)|, 0) == 1;
    } else {
      ChainLevelPower(rules, s, source, depth - 1);
      ChainLevelBound(rules, s, source, depth);
      var r := |EnabledRules(rules)|;
      MulMonotone(|ChainLevel(s.messages, source, depth - 1)|, Power(r, depth - 1), r);
      assert Power(r, depth) == Power(r, depth - 1) * r;
    }
  }

  /** The escalated messages of one source down to a depth. */
  function CausedTo(messages: Messages, source: nat, depth: nat): set<nat> {
    set id | id in messages && 0 < messages[id].depth <= depth && RootOf(messages, id) == source
  }

  /** All of them. */
  function Caused(messages: Messages, source: nat): set<nat> {
    set id | id in messages && messages[id].depth > 0 && RootOf(messages, id) == source
  }

  lemma {:induction false} CausedBound(rules: Rules, s: State, source: nat, depth: nat, m: nat)
    requires Inv(rules, s) && RepeatsWithin(rules, m)
    ensures |CausedTo(s.messages, source, depth)| <= (m + 1) * PowerSum(|EnabledRules(rules)|, depth)
  {
    hide Inv, ChainLevel, EnabledRules, RootOf, RepeatsWithin;
    if depth == 0 {
      assert CausedTo(s.messages, source, 0) == {};
    } else {
      var r := |EnabledRules(rules)|;
      var before, here := CausedTo(s.messages, source, depth - 1), Level(s.messages, source, depth);
      assert CausedTo(s.messages, source, depth) == before + here;
      CausedBound(rules, s, source, depth - 1, m);
      LevelBound(rules, s, source, depth, m);
      ChainLevelPower(rules, s, source, depth - 1);
      MulMonotone(|ChainLevel(s.messages, source, depth - 1)|, Power(r, depth - 1), r * (m + 1));
      Regroup(Power(r, depth - 1), r, m + 1, PowerSum(r, depth - 1));
    }
  }

  lemma Regroup(p: nat, r: nat, m: nat, sum: nat)
    ensures m * sum + p * (r * m) == m * (sum + p * r)
  {
    assert p * (r * m) == m * (p * r);
  }

  /**
   * Every run of any number of workers, crashes included: no message is deeper than five, its depth
   * is its distance to its root, and the root is a message that was published.
   */
  lemma EveryRunDepth(rules: Rules, steps: seq<Step>, t: State, id: nat)
    requires Leads(rules, Initial(), steps, t) && id in t.messages
    ensures t.messages[id].depth <= 5
    ensures var root := RootOf(t.messages, id);
            root in t.messages && t.messages[root].origin.Published?
            && Ancestor(t.messages, id, t.messages[id].depth) == root
  {
    RunKeepsInv(rules, Initial(), steps, t);
    assert GoodMessage(rules, t.messages, t.rows, id);
    ChainReachesRoot(rules, t, id);
  }

  /**
   * In every run one source message causes at most (1 + m) * (R + R^2 + ... + R^5) escalated
   * messages, for R enabled rules of which none repeats more than m times.
   */
  lemma EveryRunVolume(rules: Rules, steps: seq<Step>, t: State, source: nat, m: nat)
    requires Leads(rules, Initial(), steps, t) && RepeatsWithin(rules, m)
    ensures |Caused(t.messages, source)| <= (m + 1) * PowerSum(|EnabledRules(rules)|, 5)
  {
    hide Power, PowerSum, EnabledRules, RootOf, Visits;
    RunKeepsInv(rules, Initial(), steps, t);
    CausedBound(rules, t, source, MAX_DEPTH, m);
    forall id | id in t.messages ensures t.messages[id].depth <= MAX_DEPTH {
      assert GoodMessage(rules, t.messages, t.rows, id);
    }
    assert Caused(t.messages, source) == CausedTo(t.messages, source, MAX_DEPTH);
  }

  /** In every run a message escalated to a channel was never in that channel before, at any point of its chain. */
  lemma EveryRunAvoidsLoops(rules: Rules, steps: seq<Step>, t: State, id: nat, k: nat)
    requires Leads(rules, Initial(), steps, t) && id in t.messages && t.messages[id].origin.Escalated?
    requires t.messages[id].rule in rules && rules[t.messages[id].rule].targetType == ChannelTarget
    requires 0 < k <= t.messages[id].depth
    ensures Ancestor(t.messages, id, k) in t.messages
    ensures t.messages[Ancestor(t.messages, id, k)].app != t.messages[id].app
  {
    RunKeepsInv(rules, Initial(), steps, t);
    ChannelNotRevisited(rules, t, id, k);
  }

  /** Each deduplication key is stored once in every run, however the workers overlap. */
  lemma EveryKeyStoredOnce(rules: Rules, steps: seq<Step>, t: State, a: nat, b: nat)
    requires Leads(rules, Initial(), steps, t)
    requires a in t.messages && b in t.messages && t.messages[a].origin.Escalated?
    requires t.messages[a].origin == t.messages[b].origin
    ensures a == b
  {
    RunKeepsInv(rules, Initial(), steps, t);
  }

  /** A rule is queued for a message at most once in every run, although completed rows are deleted after a while. */
  lemma EveryRuleQueuedOnce(rules: Rules, steps: seq<Step>, t: State, a: nat, b: nat)
    requires Leads(rules, Initial(), steps, t) && a in t.rows && b in t.rows
    requires t.rows[a].rule == t.rows[b].rule && t.rows[a].message == t.rows[b].message
    ensures a == b
  {
    RunKeepsInv(rules, Initial(), steps, t);
  }
}
