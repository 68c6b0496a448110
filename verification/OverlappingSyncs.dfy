/**
 * Reconciliations of one channel that overlap. A reconciliation reads what the groups grant, then the rows, and writes in
 * a transaction of its own; other reconciliations, group changes and row operations come in between. This module says
 * exactly when the channel ends up with other group columns than its groups grant.
 */
module OverlappingSyncs {
  import opened Common
  import opened Membership
  import opened Reconciliation

  datatype Phase =
    | Idle
    | Knows(desired: map<nat, Access>, owner: nat)
    | Ready(desired: map<nat, Access>, owner: nat, existing: map<nat, Row>)

  /** granted is what the channel's groups grant at the moment. */
  datatype World = World(rows: map<nat, Row>, owner: nat, granted: map<nat, Access>, syncs: map<nat, Phase>)
  {
    function At(w: nat): Phase { if w in syncs then syncs[w] else Idle }

    function Columns(user: nat): Option<Access> { GroupColumns(Find(rows, user)) }
  }

  datatype Step =
    | Regrant(granted: map<nat, Access>)
    | Transfer(owner: nat)
    | Edit(user: nat, row: Row)
    | Drop(user: nat)
    | ReadGrants(w: nat)
    | ReadRows(w: nat)
    | Write(w: nat)
    | Halt(w: nat)

  function Start(owner: nat): World { World(map[], owner, map[], map[]) }

  predicate Permitted(world: World, step: Step) {
    match step
    // Operations on a row other than its removal leave its group columns alone.
    case Edit(user, row) => GroupColumns(Some(row)) == world.Columns(user)
    case ReadGrants(w) => world.At(w).Idle?
    case ReadRows(w) => world.At(w).Knows?
    case Write(w) => world.At(w).Ready?
    case _ => true
  }

  /** A row that is to be created is there by now: the whole transaction is rolled back. */
  ghost predicate Conflict(at: Phase, rows: map<nat, Row>)
    requires at.Ready?
  {
    exists u :: u in at.desired && u !in at.existing && u in rows
  }

  /** The transaction saves, deletes or creates these rows; a row that is saved comes back if it has been deleted. */
  predicate Writes(at: Phase, user: nat)
    requires at.Ready?
  {
    user in at.desired || (user in at.existing && at.existing[user].groupAssigned)
  }

  function Written(at: Phase, rows: map<nat, Row>, user: nat): Option<Row>
    requires at.Ready?
  {
    if Writes(at, user) then SyncRow(Find(at.existing, user), Find(at.desired, user), user, at.owner) else Find(rows, user)
  }

  function WrittenRows(at: Phase, rows: map<nat, Row>): map<nat, Row>
    requires at.Ready?
  {
    map u | u in rows.Keys + at.existing.Keys + at.desired.Keys && Written(at, rows, u).Some? :: Written(at, rows, u).value
  }

  ghost function After(world: World, step: Step): World
    requires Permitted(world, step)
  {
    match step
    case Regrant(granted) => world.(granted := granted)
    case Transfer(owner) => world.(owner := owner)
    case Edit(user, row) => world.(rows := world.rows[user := row])
    case Drop(user) => world.(rows := world.rows - {user})
    case ReadGrants(w) => world.(syncs := world.syncs[w := Knows(world.granted, world.owner)])
    case ReadRows(w) => world.(syncs := world.syncs[w := Ready(world.At(w).desired, world.At(w).owner, world.rows)])
    case Write(w) =>
      var at := world.At(w);
      world.(rows := if Conflict(at, world.rows) then world.rows else WrittenRows(at, world.rows), syncs := world.syncs[w := Idle])
    case Halt(w) => world.(syncs := world.syncs[w := Idle])
  }

  ghost predicate IsRun(worlds: seq<World>, steps: seq<Step>) {
    && |worlds| == |steps| + 1 && worlds[0] == Start(worlds[0].owner)
    && forall i :: 0 <= i < |steps| ==> Permitted(worlds[i], steps[i]) && worlds[i + 1] == After(worlds[i], steps[i])
  }

  // ---------------------------------------------------------------------------------------------
  // One write

  lemma WrittenAre(at: Phase, rows: map<nat, Row>, user: nat)
    requires at.Ready?
    ensures Find(WrittenRows(at, rows), user) == Written(at, rows, user)
    ensures Writes(at, user) ==> GroupColumns(Written(at, rows, user)) == Find(at.desired, user)
  {
  }

  /** With nothing in between, reading and writing is the reconciliation of Membership. */
  lemma AloneIsSync(rows: map<nat, Row>, owner: nat, granted: map<nat, Access>)
    ensures var at := Ready(granted, owner, rows); !Conflict(at, rows) && WrittenRows(at, rows) == Sync(rows, owner, granted)
  {
  }

  // ---------------------------------------------------------------------------------------------
  // Runs

  /** The step sets or removes the user's group columns. */
  ghost predicate Touches(world: World, step: Step, user: nat)
    requires Permitted(world, step)
  {
    (step.Drop? && step.user == user)
    || (step.Write? && !Conflict(world.At(step.w), world.rows) && Writes(world.At(step.w), user))
  }

  /** To what. */
  function Leaves(world: World, step: Step, user: nat): Option<Access>
    requires Permitted(world, step)
  {
    if step.Write? then Find(world.At(step.w).desired, user) else None
  }

  lemma StepColumns(world: World, step: Step, user: nat)
    requires Permitted(world, step)
    ensures After(world, step).Columns(user) == if Touches(world, step, user) then Leaves(world, step, user) else world.Columns(user)
  {
    if step.Write? { WrittenAre(world.At(step.w), world.rows, user); }
    hide WrittenRows, Written, SyncRow;
  }

  ghost predicate Untouched(worlds: seq<World>, steps: seq<Step>, i: int, n: int, user: nat)
    requires IsRun(worlds, steps) && 0 <= i && n <= |steps|
  {
    forall m :: i <= m < n ==> !Touches(worlds[m], steps[m], user)
  }

  /** Step i is the last before n that touches the user. */
  ghost predicate LastTouch(worlds: seq<World>, steps: seq<Step>, i: int, n: nat, user: nat)
    requires IsRun(worlds, steps) && n <= |steps|
  {
    0 <= i < n && Touches(worlds[i], steps[i], user) && Untouched(worlds, steps, i + 1, n, user)
  }

  lemma {:induction false} ColumnsAreLastTouch(worlds: seq<World>, steps: seq<Step>, n: nat, user: nat)
    requires IsRun(worlds, steps) && n <= |steps|
    ensures forall i :: LastTouch(worlds, steps, i, n, user) ==> worlds[n].Columns(user) == Leaves(worlds[i], steps[i], user)
    ensures Untouched(worlds, steps, 0, n, user) ==> worlds[n].Columns(user) == None
    ensures Untouched(worlds, steps, 0, n, user) || exists i :: LastTouch(worlds, steps, i, n, user)
  {
    hide Permitted, After, Touches, Leaves;
    if n == 0 {
      assert worlds[0] == Start(worlds[0].owner);
    } else {
      ColumnsAreLastTouch(worlds, steps, n - 1, user);
      assert Permitted(worlds[n - 1], steps[n - 1]) && worlds[n - 1 + 1] == After(worlds[n - 1], steps[n - 1]);
      StepColumns(worlds[n - 1], steps[n - 1], user);
      if Touches(worlds[n - 1], steps[n - 1], user) {
        assert LastTouch(worlds, steps, n - 1, n, user);
      } else if !Untouched(worlds, steps, 0, n - 1, user) {
        var i :| LastTouch(worlds, steps, i, n - 1, user);
        assert LastTouch(worlds, steps, i, n, user);
      }
      forall i | LastTouch(worlds, steps, i, n, user) ensures worlds[n].Columns(user) == Leaves(worlds[i], steps[i], user) {
        if i < n - 1 { assert LastTouch(worlds, steps, i, n - 1, user); }
      }
    }
  }

  /** Step j is the sync's last reading of the grants before n. */
  ghost predicate LastReading(steps: seq<Step>, j: int, n: nat, w: nat)
    requires n <= |steps|
  {
    0 <= j < n && steps[j] == ReadGrants(w) && forall m :: j < m < n ==> steps[m] != ReadGrants(w)
  }

  /** A sync goes by the grants of its last reading. */
  lemma {:induction false} SyncKnowsReading(worlds: seq<World>, steps: seq<Step>, n: nat, w: nat)
    requires IsRun(worlds, steps) && n <= |steps| && !worlds[n].At(w).Idle?
    ensures exists j :: LastReading(steps, j, n, w)
    ensures forall j :: LastReading(steps, j, n, w) ==> worlds[n].At(w).desired == worlds[j].granted
  {
    if n == 0 {
      assert false;
    } else {
      assert Permitted(worlds[n - 1], steps[n - 1]) && worlds[n - 1 + 1] == After(worlds[n - 1], steps[n - 1]);
      hide WrittenRows, Conflict;
      if steps[n - 1] == ReadGrants(w) {
        assert LastReading(steps, n - 1, n, w);
      } else {
        SyncKnowsReading(worlds, steps, n - 1, w);
        var j :| LastReading(steps, j, n - 1, w);
        assert LastReading(steps, j, n, w);
        forall i | LastReading(steps, i, n, w) ensures LastReading(steps, i, n - 1, w) {}
      }
    }
  }

  ghost predicate IsReconciled(world: World) { forall u :: world.Columns(u) == Find(world.granted, u) }

  /**
   * What went wrong for a user: the last write of the user's columns was by a sync that had read other grants, the row was
   * removed after its last write although the user is covered, or a covered user was never written.
   */
  ghost predicate WentWrong(worlds: seq<World>, steps: seq<Step>, user: nat)
    requires IsRun(worlds, steps)
  {
    var n, now := |steps|, Find(worlds[|steps|].granted, user);
    || (exists i, j :: LastTouch(worlds, steps, i, n, user) && steps[i].Write? && LastReading(steps, j, i, steps[i].w)
                       && Find(worlds[j].granted, user) != now)
    || (exists i :: LastTouch(worlds, steps, i, n, user) && steps[i].Drop? && now != None)
    || (Untouched(worlds, steps, 0, n, user) && now != None)
  }

  lemma LastTouchLeaves(worlds: seq<World>, steps: seq<Step>, i: int, n: nat, user: nat)
    requires IsRun(worlds, steps) && n <= |steps| && LastTouch(worlds, steps, i, n, user)
    ensures 0 <= i < n && (steps[i].Write? || steps[i].Drop?)
    ensures Permitted(worlds[i], steps[i])
    ensures Leaves(worlds[i], steps[i], user) ==
            if steps[i].Write? then Find(worlds[i].At(steps[i].w).desired, user) else None
  {
    hide After, Conflict, Writes;
  }

  /** A last write leaves what its sync has read. */
  lemma WriteLeavesReading(worlds: seq<World>, steps: seq<Step>, i: int, n: nat, user: nat)
    requires IsRun(worlds, steps) && n <= |steps| && LastTouch(worlds, steps, i, n, user) && steps[i].Write?
    ensures 0 <= i && Permitted(worlds[i], steps[i]) && exists j :: LastReading(steps, j, i, steps[i].w)
    ensures forall j :: LastReading(steps, j, i, steps[i].w) ==>
              0 <= j < |steps| && Leaves(worlds[i], steps[i], user) == Find(worlds[j].granted, user)
  {
    LastTouchLeaves(worlds, steps, i, n, user);
    SyncKnowsReading(worlds, steps, i, steps[i].w);
    hide After, Touches, LastTouch, Leaves;
  }

  lemma UserIsRightExactly(worlds: seq<World>, steps: seq<Step>, user: nat)
    requires IsRun(worlds, steps)
    ensures worlds[|steps|].Columns(user) == Find(worlds[|steps|].granted, user) <==> !WentWrong(worlds, steps, user)
  {
    assert |worlds| == |steps| + 1;
    hide IsRun, Permitted, After, Touches, Leaves, LastTouch, LastReading, Untouched, GroupColumns;
    var n := |steps|;
    ColumnsAreLastTouch(worlds, steps, n, user);
    forall i | LastTouch(worlds, steps, i, n, user)
      ensures 0 <= i < n && (steps[i].Write? || steps[i].Drop?)
      ensures steps[i].Drop? ==> worlds[n].Columns(user) == None
      ensures steps[i].Write? ==> exists j :: LastReading(steps, j, i, steps[i].w)
      ensures steps[i].Write? ==> forall j :: LastReading(steps, j, i, steps[i].w) ==>
                0 <= j < |steps| && worlds[n].Columns(user) == Find(worlds[j].granted, user)
    {
      LastTouchLeaves(worlds, steps, i, n, user);
      if steps[i].Write? { WriteLeavesReading(worlds, steps, i, n, user); }
    }
  }

  /** Exactly when overlapping reconciliations leave a channel with other group columns than its groups grant, over every run. */
  lemma ReconciledExactly(worlds: seq<World>, steps: seq<Step>)
    requires IsRun(worlds, steps)
    ensures IsReconciled(worlds[|steps|]) <==> forall u :: !WentWrong(worlds, steps, u)
  {
    hide WentWrong;
    forall u ensures worlds[|steps|].Columns(u) == Find(worlds[|steps|].granted, u) <==> !WentWrong(worlds, steps, u) {
      UserIsRightExactly(worlds, steps, u);
    }
  }

  // ---------------------------------------------------------------------------------------------
  // A run that goes wrong

  lemma RunOneMore(worlds: seq<World>, steps: seq<Step>, step: Step) returns (longer: seq<World>, more: seq<Step>)
    requires IsRun(worlds, steps) && Permitted(worlds[|steps|], step)
    ensures IsRun(longer, more) && more == steps + [step] && longer[0] == worlds[0]
    ensures |longer| == |more| + 1 && longer[|more|] == After(worlds[|steps|], step)
  {
    hide Permitted, After;
    longer, more := worlds + [After(worlds[|steps|], step)], steps + [step];
    forall i | 0 <= i < |more| ensures Permitted(longer[i], more[i]) && longer[i + 1] == After(longer[i], more[i]) {
      if i < |steps| {
        assert longer[i] == worlds[i] && longer[i + 1] == worlds[i + 1] && more[i] == steps[i];
        assert Permitted(worlds[i], steps[i]) && worlds[i + 1] == After(worlds[i], steps[i]);
      }
    }
  }

  /** One sync with nothing in between. */
  lemma SyncAlone(worlds: seq<World>, steps: seq<Step>, w: nat) returns (longer: seq<World>, more: seq<Step>)
    requires IsRun(worlds, steps) && worlds[|steps|].At(w).Idle?
    ensures IsRun(longer, more) && more == steps + [ReadGrants(w), ReadRows(w), Write(w)]
    ensures |longer| == |more| + 1 && longer[0] == worlds[0]
    ensures var before, after := worlds[|steps|], longer[|more|];
            && after.rows == Sync(before.rows, before.owner, before.granted)
            && after.owner == before.owner && after.granted == before.granted && after.At(w).Idle?
            && forall v: nat :: v != w ==> after.At(v) == before.At(v)
  {
    var world := worlds[|steps|];
    hide IsRun, Sync, WrittenRows, Conflict;
    AloneIsSync(world.rows, world.owner, world.granted);
    longer, more := RunOneMore(worlds, steps, ReadGrants(w));
    longer, more := RunOneMore(longer, more, ReadRows(w));
    longer, more := RunOneMore(longer, more, Write(w));
  }

  ghost predicate AllIdle(world: World) { forall w: nat :: world.At(w).Idle? }

  /** A group member gets a row, and a second reconciliation has read grants and rows when the member is taken out. */
  lemma StaleReading(owner: nat, user: nat, access: Access) returns (worlds: seq<World>, steps: seq<Step>)
    requires user != owner
    ensures IsRun(worlds, steps) && worlds[0] == Start(owner)
    ensures steps == [Regrant(map[user := access])] + [ReadGrants(0), ReadRows(0), Write(0)]
                     + [ReadGrants(0)] + [ReadRows(0)] + [Regrant(map[])]
    ensures var row := Row(access.receive, None, false, NoRole, access.role, true, access.receive);
            var end := worlds[|steps|];
            && end.rows == map[user := row] && end.owner == owner && end.granted == map[]
            && end.At(0) == Ready(map[user := access], owner, end.rows) && forall w: nat :: w != 0 ==> end.At(w).Idle?
  {
    var granted := map[user := access];
    worlds, steps := [Start(owner)], [];
    worlds, steps := RunOneMore(worlds, steps, Regrant(granted));
    worlds, steps := SyncAlone(worlds, steps, 0);
    hide IsRun;
    var row := Row(access.receive, None, false, NoRole, access.role, true, access.receive);
    assert Sync(map[], owner, granted) == map[user := row];
    hide Sync;
    var world := worlds[|steps|];
    assert world.rows == map[user := row] && world.granted == granted && world.owner == owner;
    assert forall w: nat :: world.At(w).Idle?;
    worlds, steps := RunOneMore(worlds, steps, ReadGrants(0));
    worlds, steps := RunOneMore(worlds, steps, ReadRows(0));
    worlds, steps := RunOneMore(worlds, steps, Regrant(map[]));
    assert forall w: nat :: w != 0 ==> worlds[|steps|].At(w) == world.At(w);
  }

  /**
   * A user taken out of the group keeps the access, with every reconciliation complete: one has read the old grants and
   * rows, and writes them after the next one has deleted the row.
   */
  lemma StaleWriteRestores(owner: nat, user: nat, access: Access) returns (worlds: seq<World>, steps: seq<Step>)
    requires user != owner
    ensures IsRun(worlds, steps) && worlds[0] == Start(owner)
    ensures var end := worlds[|steps|]; end.granted == map[] && end.Columns(user) == Some(access) && AllIdle(end)
    ensures steps == [Regrant(map[user := access])] + [ReadGrants(0), ReadRows(0), Write(0)]
                     + [ReadGrants(0)] + [ReadRows(0)] + [Regrant(map[])] + [ReadGrants(1), ReadRows(1), Write(1)] + [Write(0)]
  {
    worlds, steps := StaleReading(owner, user, access);
    var at, rows := worlds[|steps|].At(0), worlds[|steps|].rows;
    worlds, steps := SyncAlone(worlds, steps, 1);
    assert Sync(rows, owner, map[]) == map[];
    var world := worlds[|steps|];
    assert world.At(0) == at && forall w: nat :: w != 0 ==> world.At(w).Idle?;
    assert !Conflict(at, world.rows);
    WrittenAre(at, map[], user);
    hide IsRun, Sync, WrittenRows, Written;
    worlds, steps := RunOneMore(worlds, steps, Write(0));
    assert forall w: nat :: w != 0 ==> worlds[|steps|].At(w) == world.At(w);
  }
}
