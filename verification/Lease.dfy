/**
 * Automation leases: one row per name, taken with an UPDATE and, when that touches no row, an INSERT.
 *
 * The two statements of a call are separate steps, so calls of any number of holders interleave
 * freely, also several of one holder. `now` is read before the call and may be old when it arrives.
 */
module Lease {
  import opened Common

  datatype Lease = Lease(holder: string, expires: int)
  type Rows = map<string, Lease>

  /** The WHERE clause of the UPDATE. */
  predicate Takeable(rows: Rows, name: string, holder: string, now: int) {
    name in rows && (rows[name].holder == holder || rows[name].expires <= now)
  }

  /** The lease table. Each method is one SQL statement. */
  class LeaseTable {
    var rows: Rows

    constructor ()
      ensures rows == map[]
    {
      rows := map[];
    }

    method Update(name: string, holder: string, now: int, ttl: int) returns (affected: bool)
      modifies this
      ensures affected == Takeable(old(rows), name, holder, now)
      ensures rows == if affected then old(rows)[name := Lease(holder, now + ttl)] else old(rows)
    {
      affected := false;
      if name in rows {
        var row := rows[name];
        if row.holder == holder || row.expires <= now {
          rows := rows[name := Lease(holder, now + ttl)];
          affected := true;
        }
      }
    }

    /** false on a duplicate key. */
    method Insert(name: string, holder: string, now: int, ttl: int) returns (created: bool)
      modifies this
      ensures created == (name !in old(rows))
      ensures rows == if created then old(rows)[name := Lease(holder, now + ttl)] else old(rows)
    {
      created := name !in rows;
      if created { rows := rows[name := Lease(holder, now + ttl)]; }
    }

    /** TryAcquireAutomationLease with nobody in between: it fails exactly on a live lease of somebody else. */
    method TryAcquire(name: string, holder: string, now: int, ttl: int) returns (acquired: bool)
      modifies this
      ensures acquired <==> !(name in old(rows) && old(rows)[name].holder != holder && now < old(rows)[name].expires)
      ensures rows == if acquired then old(rows)[name := Lease(holder, now + ttl)] else old(rows)
    {
      acquired := Update(name, holder, now, ttl);
      if !acquired { acquired := Insert(name, holder, now, ttl); }
    }

    method Release(name: string, holder: string)
      modifies this
      ensures rows == if name in old(rows) && old(rows)[name].holder == holder then old(rows) - {name} else old(rows)
    {
      if name in rows && rows[name].holder == holder { rows := rows - {name}; }
    }
  }

  // ---------------------------------------------------------------------------------------------
  // Interleavings

  /** A call between its two statements, or before the first. */
  datatype Call = Call(name: string, holder: string, now: int, ttl: int, updateMissed: bool)

  datatype State = State(clock: int, rows: Rows, calls: map<nat, Call>)

  datatype Step =
    | Tick(clock: int)
    | Begin(id: nat, name: string, holder: string, now: int, ttl: int)
    | UpdateStatement(id: nat)
    | InsertStatement(id: nat)
    | ReleaseStatement(name: string, holder: string)

  predicate Enabled(s: State, step: Step) {
    match step
    case Tick(clock) => s.clock <= clock
    case Begin(id, _, _, now, _) => id !in s.calls && now <= s.clock
    case UpdateStatement(id) => id in s.calls && !s.calls[id].updateMissed
    case InsertStatement(id) => id in s.calls && s.calls[id].updateMissed
    case ReleaseStatement(_, _) => true
  }

  function Next(s: State, step: Step): State
    requires Enabled(s, step)
  {
    match step
    case Tick(clock) => s.(clock := clock)
    case Begin(id, name, holder, now, ttl) => s.(calls := s.calls[id := Call(name, holder, now, ttl, false)])
    case UpdateStatement(id) =>
      var c := s.calls[id];
      if Takeable(s.rows, c.name, c.holder, c.now) then
        s.(rows := s.rows[c.name := Lease(c.holder, c.now + c.ttl)], calls := s.calls - {id})
      else
        s.(calls := s.calls[id := c.(updateMissed := true)])
    case InsertStatement(id) =>
      var c := s.calls[id];
      if c.name !in s.rows then
        s.(rows := s.rows[c.name := Lease(c.holder, c.now + c.ttl)], calls := s.calls - {id})
      else
        s.(calls := s.calls - {id})
    case ReleaseStatement(name, holder) =>
      if name in s.rows && s.rows[name].holder == holder then s.(rows := s.rows - {name}) else s
  }

  /** The lease this step grants, if it does. */
  function Granted(s: State, step: Step): Option<(string, string, int)>
    requires Enabled(s, step)
  {
    match step
    case UpdateStatement(id) =>
      var c := s.calls[id];
      if Takeable(s.rows, c.name, c.holder, c.now) then Some((c.name, c.holder, c.now + c.ttl)) else None
    case InsertStatement(id) =>
      var c := s.calls[id];
      if c.name !in s.rows then Some((c.name, c.holder, c.now + c.ttl)) else None
    case _ => None
  }

  /** A run: a state before every step and one after the last. */
  ghost predicate Run(states: seq<State>, steps: seq<Step>) {
    && |states| == |steps| + 1
    && (forall id :: id in states[0].calls ==> states[0].calls[id].now <= states[0].clock)
    && forall i :: 0 <= i < |steps| ==> Enabled(states[i], steps[i]) && states[i + 1] == Next(states[i], steps[i])
  }

  /** Step i grants `name` to `holder` until `expires`. */
  ghost predicate Grants(states: seq<State>, steps: seq<Step>, i: int, name: string, holder: string, expires: int)
    requires Run(states, steps)
  {
    0 <= i < |steps| && Granted(states[i], steps[i]) == Some((name, holder, expires))
  }

  /** Between step i and step j the holder neither released the name nor was granted it again. */
  ghost predicate Undisturbed(states: seq<State>, steps: seq<Step>, i: int, j: int, name: string, holder: string)
    requires Run(states, steps) && 0 <= i && j <= |steps|
  {
    forall k :: i < k < j ==>
      steps[k] != ReleaseStatement(name, holder)
      && (Granted(states[k], steps[k]).Some? ==>
            var g := Granted(states[k], steps[k]).value; g.0 != name || g.1 != holder)
  }

  /** Calls carry a time that had already come when they began. */
  lemma {:induction false} CallsAreFromThePast(states: seq<State>, steps: seq<Step>, i: nat)
    requires Run(states, steps) && i < |states|
    ensures forall id :: id in states[i].calls ==> states[i].calls[id].now <= states[i].clock
  {
    if i == 0 {
    } else {
      CallsAreFromThePast(states, steps, i - 1);
      assert states[i] == Next(states[i - 1], steps[i - 1]);
    }
  }

  lemma {:induction false} ClockNeverRunsBack(states: seq<State>, steps: seq<Step>, i: nat, j: nat)
    requires Run(states, steps) && i <= j < |states|
    ensures states[i].clock <= states[j].clock
    decreases j
  {
    if i < j {
      ClockNeverRunsBack(states, steps, i, j - 1);
      assert states[j] == Next(states[j - 1], steps[j - 1]);
    }
  }

  /** While the lease is live, the row still says what the grant wrote. */
  lemma {:induction false} LiveLeaseStands(states: seq<State>, steps: seq<Step>, i: nat, j: nat, name: string, holder: string, expires: int)
    requires Run(states, steps) && Grants(states, steps, i, name, holder, expires)
    requires i < j <= |steps| && states[j].clock < expires
    requires Undisturbed(states, steps, i, j, name, holder)
    ensures name in states[j].rows && states[j].rows[name] == Lease(holder, expires)
    decreases j
  {
    if j > i + 1 {
      ClockNeverRunsBack(states, steps, j - 1, j);
      LiveLeaseStands(states, steps, i, j - 1, name, holder, expires);
      CallsAreFromThePast(states, steps, j - 1);
      assert states[j] == Next(states[j - 1], steps[j - 1]);
    }
  }

  /**
   * Mutual exclusion under every interleaving: from a grant until its expiry on the shared clock,
   * unless the holder releases, nobody else is granted the name.
   */
  lemma MutualExclusion(states: seq<State>, steps: seq<Step>, i: nat, j: nat, name: string, holder: string, expires: int,
                        other: string, otherExpires: int)
    requires Run(states, steps) && Grants(states, steps, i, name, holder, expires)
    requires i < j && Grants(states, steps, j, name, other, otherExpires)
    requires states[j].clock < expires
    requires Undisturbed(states, steps, i, j, name, holder)
    ensures other == holder
  {
    LiveLeaseStands(states, steps, i, j, name, holder, expires);
    CallsAreFromThePast(states, steps, j);
  }

  /** Two leases of one name that are live at one moment belong to one holder. */
  lemma AtMostOneLiveHolder(states: seq<State>, steps: seq<Step>, now: nat,
                            i: nat, name: string, holder: string, expires: int,
                            j: nat, other: string, otherExpires: int)
    requires Run(states, steps) && i < now <= |steps| && j < now
    requires Grants(states, steps, i, name, holder, expires) && Undisturbed(states, steps, i, now, name, holder)
    requires Grants(states, steps, j, name, other, otherExpires) && Undisturbed(states, steps, j, now, name, other)
    requires states[now].clock < expires && states[now].clock < otherExpires
    ensures holder == other
  {
    LiveLeaseStands(states, steps, i, now, name, holder, expires);
    LiveLeaseStands(states, steps, j, now, name, other, otherExpires);
  }

  /** The call stays in flight, with its UPDATE behind it, until its INSERT. */
  lemma {:induction false} CallStays(states: seq<State>, steps: seq<Step>, j: nat, k: nat, id: nat)
    requires Run(states, steps) && j < k <= |steps| && steps[j] == UpdateStatement(id) && Granted(states[j], steps[j]).None?
    requires forall m :: j < m < k ==> steps[m] != InsertStatement(id)
    ensures id in states[k].calls && states[k].calls[id] == states[j].calls[id].(updateMissed := true)
    decreases k
  {
    if k == j + 1 {
      assert states[k] == Next(states[j], steps[j]);
    } else {
      CallStays(states, steps, j, k - 1, id);
      assert states[k] == Next(states[k - 1], steps[k - 1]);
    }
  }

  /** A name without a row has none until somebody is granted it. */
  lemma {:induction false} RowsComeFromGrants(states: seq<State>, steps: seq<Step>, j: nat, k: nat, name: string)
    requires Run(states, steps) && j <= k <= |steps| && name !in states[j].rows
    requires forall m, holder, expires :: j <= m < k ==> !Grants(states, steps, m, name, holder, expires)
    ensures name !in states[k].rows
    decreases k
  {
    if j == k {
    } else {
      RowsComeFromGrants(states, steps, j, k - 1, name);
      assert states[k] == Next(states[k - 1], steps[k - 1]);
      var granted := Granted(states[k - 1], steps[k - 1]);
      if granted.Some? { assert !Grants(states, steps, k - 1, name, granted.value.1, granted.value.2); }
    }
  }

  /**
   * In every run a call fails only for a cause: when its UPDATE ran, somebody else held the name and the lease had not
   * expired at the call's time, or somebody was granted the name between its UPDATE and its INSERT.
   */
  lemma CallsFailForCause(states: seq<State>, steps: seq<Step>, j: nat, k: nat, id: nat)
    requires Run(states, steps) && j < k < |steps| && steps[j] == UpdateStatement(id) && steps[k] == InsertStatement(id)
    requires forall m :: j < m < k ==> steps[m] != InsertStatement(id)
    requires Granted(states[j], steps[j]).None? && Granted(states[k], steps[k]).None?
    ensures var c, rows := states[j].calls[id], states[j].rows;
            || (c.name in rows && rows[c.name].holder != c.holder && c.now < rows[c.name].expires)
            || exists m, holder, expires :: j < m < k && Grants(states, steps, m, c.name, holder, expires)
  {
    var c := states[j].calls[id];
    CallStays(states, steps, j, k, id);
    if c.name !in states[j].rows {
      assert states[j + 1] == Next(states[j], steps[j]);
      if forall m, holder, expires :: j + 1 <= m < k ==> !Grants(states, steps, m, c.name, holder, expires) {
        RowsComeFromGrants(states, steps, j + 1, k, c.name);
        assert false;
      }
    }
  }

  // ---------------------------------------------------------------------------------------------
  // With nobody in between

  /** The statements of one call: the INSERT only when the UPDATE has missed. */
  function CallAlone(s: State, id: nat, name: string, holder: string, ttl: int): (t: State)
    requires id !in s.calls
  {
    var begun := Next(s, Begin(id, name, holder, s.clock, ttl));
    var updated := Next(begun, UpdateStatement(id));
    if id in updated.calls then Next(updated, InsertStatement(id)) else updated
  }

  /**
   * A call with nobody in between ends, and takes the lease for its time exactly when nobody else holds a live one; a
   * release frees the name when the holder asks for it, and only then.
   */
  lemma AloneIsExact(s: State, id: nat, name: string, holder: string, ttl: int)
    requires id !in s.calls
    ensures var t := CallAlone(s, id, name, holder, ttl);
            var taken := name in s.rows && s.rows[name].holder != holder && s.rows[name].expires > s.clock;
            && t.calls == s.calls && t.clock == s.clock
            && t.rows == (if taken then s.rows else s.rows[name := Lease(holder, s.clock + ttl)])
    ensures var t := Next(s, ReleaseStatement(name, holder));
            && (name in t.rows <==> name in s.rows && s.rows[name].holder != holder)
            && t.calls == s.calls && forall n :: n != name ==> (n in t.rows <==> n in s.rows) && (n in s.rows ==> t.rows[n] == s.rows[n])
    ensures forall clock :: s.clock <= clock ==> Enabled(s, Tick(clock)) && Next(s, Tick(clock)).clock == clock
  {
    assert s.calls[id := Call(name, holder, s.clock, ttl, true)] - {id} == s.calls;
  }
}
