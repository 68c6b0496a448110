/**
 * When the group columns of a channel are what its groups grant. A reconciliation makes them so; this module says
 * exactly which later operations undo it.
 */
module Reconciliation {
  import opened Channels
  import opened Common
  import opened Lists
  import opened Membership

  /** What a row says about group access. */
  function GroupColumns(row: Option<Row>): Option<Access> {
    if row.Some? && row.value.groupAssigned then Some(Access(row.value.groupRole, row.value.groupReceive)) else None
  }

  function ColumnsOf(db: Db, app: nat, user: nat): Option<Access> { GroupColumns(Find(RowsOf(db, app), user)) }

  ghost predicate Reaches(db: Db, app: nat, user: nat) { Covered(AssignmentsOf(db, app), LiveGroups(db), user) }

  /** The user's row carries the access the groups grant, and none when they grant none. */
  ghost predicate Right(db: Db, app: nat, user: nat, columns: Option<Access>) {
    && (columns.Some? <==> Reaches(db, app, user))
    && (columns.Some? ==> IsAccess(AssignmentsOf(db, app), LiveGroups(db), user, columns.value))
  }

  ghost predicate Reconciled(db: Db, app: nat) { forall u :: Right(db, app, u, ColumnsOf(db, app, u)) }

  /** Does the operation take away the user's row, without a reconciliation after it? */
  predicate DropsRow(db: Db, op: Op, app: nat, user: nat) {
    match op
    case DeleteMember(a, u) => a == app && u == user && app in db.apps && u != db.apps[app].owner && !db.apps[app].autoAssign
    case SetAutoAssign(a, enabled) => a == app && !enabled && app in db.apps && user in RowsOf(db, app) && RowsOf(db, app)[user].auto
    case ResolveGroupTarget(a, members) => a == app && app in db.apps && db.apps[app].owner == 0 && user !in members
    case _ => false
  }

  /** Does the operation undo the reconciliation of a channel? It must drop the row of a user whom a group still covers. */
  ghost predicate Breaks(db: Db, op: Op, app: nat) { exists u :: DropsRow(db, op, app, u) && Reaches(db, app, u) }

  // ---------------------------------------------------------------------------------------------
  // Coverage

  /** The same assignments, whose groups have the same live members. */
  ghost predicate SameCoverage(db: Db, t: Db, app: nat) {
    && (forall a :: a in AssignmentsOf(db, app) <==> a in AssignmentsOf(t, app))
    && (forall a, u :: a in AssignmentsOf(db, app) ==>
          (u in MembersOf(LiveGroups(db), a.group) <==> u in MembersOf(LiveGroups(t), a.group)))
  }

  lemma SameRight(db: Db, t: Db, app: nat, user: nat, columns: Option<Access>)
    requires SameCoverage(db, t, app)
    ensures Right(db, app, user, columns) <==> Right(t, app, user, columns)
    ensures Reaches(db, app, user) <==> Reaches(t, app, user)
  {
    hide AssignmentsOf, LiveGroups, MembersOf;
    var list, list', groups, groups' := AssignmentsOf(db, app), AssignmentsOf(t, app), LiveGroups(db), LiveGroups(t);
    assert forall a :: a in list ==> (Covers(a, groups, user) <==> Covers(a, groups', user));
  }

  lemma LiveMembers(db: Db, group: nat, user: nat)
    ensures user in MembersOf(LiveGroups(db), group) <==> user in MembersOf(db.groups, group) && user in db.users
  {
    hide Live;
  }

  // ---------------------------------------------------------------------------------------------
  // Operations on rows

  predicate MayDrop(op: Op) { op.DeleteMember? || op.SetAutoAssign? || op.ResolveGroupTarget? }

  predicate IsRowOp(op: Op) {
    op.CreateApp? || op.UpsertMember? || op.SetNotifications? || op.Transfer? || MayDrop(op)
  }

  lemma DroppingColumns(db: Db, op: Op, app: nat, user: nat)
    requires MayDrop(op) && app in db.apps
    ensures ColumnsOf(Change(db, op).0, app, user) == if DropsRow(db, op, app, user) then None else ColumnsOf(db, app, user)
  {
    hide Normalize, AssignmentsOf;
  }

  lemma KeepingColumns(db: Db, op: Op, app: nat, user: nat)
    requires IsRowOp(op) && !MayDrop(op) && app in db.apps
    ensures ColumnsOf(Change(db, op).0, app, user) == ColumnsOf(db, app, user)
  {
    hide Normalize, AssignmentsOf;
  }

  lemma RowOpFrame(db: Db, op: Op)
    requires IsRowOp(op)
    ensures var t := Change(db, op).0;
            t.assignments == db.assignments && t.groups == db.groups && t.users == db.users && Change(db, op).1 == {}
  {
    hide AssignToAll, AutoAssigned, UpsertedRow, OwnersRow, RowsOf;
  }

  /** They leave the groups alone, and the group columns of every row they do not drop. */
  lemma RowOpColumns(db: Db, op: Op, app: nat, user: nat)
    requires IsRowOp(op) && app in db.apps
    ensures var t := Change(db, op).0;
            && ColumnsOf(t, app, user) == (if DropsRow(db, op, app, user) then None else ColumnsOf(db, app, user))
            && t.assignments == db.assignments && t.groups == db.groups && t.users == db.users && Change(db, op).1 == {}
  {
    RowOpFrame(db, op);
    if MayDrop(op) { DroppingColumns(db, op, app, user); } else { KeepingColumns(db, op, app, user); }
    hide Change, ColumnsOf;
  }

  lemma RowOpReconciled(db: Db, op: Op, app: nat)
    requires IsRowOp(op) && app in db.apps && Reconciled(db, app)
    ensures Reconciled(Change(db, op).0, app) <==> !Breaks(db, op, app)
  {
    hide Change, Right, DropsRow;
    var t := Change(db, op).0;
    RowOpColumns(db, op, app, 0);
    assert SameCoverage(db, t, app);
    hide SameCoverage;
    forall u ensures Right(t, app, u, ColumnsOf(t, app, u)) <==> !(DropsRow(db, op, app, u) && Reaches(db, app, u)) {
      assert Right(db, app, u, ColumnsOf(db, app, u));
      RowOpColumns(db, op, app, u);
      SameRight(db, t, app, u, ColumnsOf(t, app, u));
      NoneIsRight(db, app, u);
    }
    hide ColumnsOf, Reaches;
  }

  lemma NoneIsRight(db: Db, app: nat, user: nat)
    ensures Right(db, app, user, None) <==> !Reaches(db, app, user)
  {
  }

  // ---------------------------------------------------------------------------------------------
  // The other operations

  /** Operations that leave a channel's rows as far as groups go, and its coverage, keep it reconciled. */
  lemma StaysReconciled(db: Db, t: Db, app: nat)
    requires Reconciled(db, app) && SameCoverage(db, t, app)
    requires forall u :: ColumnsOf(t, app, u) == ColumnsOf(db, app, u)
    ensures Reconciled(t, app)
  {
    hide Right, ColumnsOf, SameCoverage;
    forall u ensures Right(t, app, u, ColumnsOf(t, app, u)) { SameRight(db, t, app, u, ColumnsOf(t, app, u)); }
  }

  /** Assignments of other channels, and their groups, do not matter. */
  lemma OtherChannel(db: Db, op: Op, app: nat)
    requires Reconciled(db, app) && app in db.apps && app !in Change(db, op).1
    requires op.UpsertGroupAssignment? || op.DeleteGroupAssignment? || op.SyncApp? || op.DeleteApp?
    ensures Reconciled(Change(db, op).0, app)
  {
    hide WithoutGroup, Normalize;
    var t := Change(db, op).0;
    if op.DeleteApp? && op.id == app {
      assert AssignmentsOf(t, app) == [] && RowsOf(t, app) == map[];
    } else {
      assert AssignmentsOf(t, app) == AssignmentsOf(db, app) && RowsOf(t, app) == RowsOf(db, app) && LiveGroups(t) == LiveGroups(db);
      hide LiveGroups, AssignmentsOf, RowsOf;
      StaysReconciled(db, t, app);
    }
  }

  /** A channel without an assignment of the group does not notice what happens to it. */
  lemma OtherGroup(db: Db, op: Op, app: nat)
    requires Reconciled(db, app) && app in db.apps && app !in Change(db, op).1
    requires op.CreateGroup? || op.AddGroupMember? || op.RemoveGroupMember? || op.DeleteGroup?
    ensures Reconciled(Change(db, op).0, app)
  {
    hide Right;
    var t := Change(db, op).0;
    assert RowsOf(t, app) == RowsOf(db, app) && t.users == db.users;
    GroupUnused(db, op, app);
    forall a, u | a in AssignmentsOf(db, app)
      ensures u in MembersOf(LiveGroups(db), a.group) <==> u in MembersOf(LiveGroups(t), a.group)
    {
      LiveMembers(db, a.group, u);
      LiveMembers(t, a.group, u);
    }
    hide Change, LiveGroups, AssignmentsOf;
    StaysReconciled(db, t, app);
  }

  lemma GroupUnused(db: Db, op: Op, app: nat)
    requires app in db.apps && app !in Change(db, op).1
    requires op.CreateGroup? || op.AddGroupMember? || op.RemoveGroupMember? || op.DeleteGroup?
    ensures var t := Change(db, op).0;
            && (forall a :: a in AssignmentsOf(db, app) <==> a in AssignmentsOf(t, app))
            && forall a, u :: a in AssignmentsOf(db, app) ==> (u in MembersOf(db.groups, a.group) <==> u in MembersOf(t.groups, a.group))
  {
  }

  lemma UserCreated(db: Db, op: Op, app: nat)
    requires Reconciled(db, app) && app in db.apps && MembersExist(db) && op.CreateUser?
    ensures Reconciled(Change(db, op).0, app)
  {
    hide Right;
    var t := Change(db, op).0;
    forall a, u | a in AssignmentsOf(db, app)
      ensures u in MembersOf(LiveGroups(db), a.group) <==> u in MembersOf(LiveGroups(t), a.group)
    {
      LiveMembers(db, a.group, u);
      LiveMembers(t, a.group, u);
    }
    assert AssignmentsOf(t, app) == AssignmentsOf(db, app);
    forall u ensures ColumnsOf(t, app, u) == ColumnsOf(db, app, u) {}
    hide Change, LiveGroups, AssignmentsOf, ColumnsOf;
    StaysReconciled(db, t, app);
  }

  lemma UserDeleted(db: Db, op: Op, app: nat)
    requires Reconciled(db, app) && app in db.apps && op.DeleteUser? && (app !in Change(db, op).1 || app !in Change(db, op).0.apps)
    ensures Reconciled(Change(db, op).0, app)
  {
    var t := Change(db, op).0;
    if app !in t.apps {
      assert AssignmentsOf(t, app) == [] && RowsOf(t, app) == map[];
    } else if t != db {
      hide Right;
      forall a, u | a in AssignmentsOf(db, app)
        ensures u in MembersOf(LiveGroups(db), a.group) <==> u in MembersOf(LiveGroups(t), a.group)
      {
        LiveMembers(db, a.group, u);
        LiveMembers(t, a.group, u);
      }
      assert AssignmentsOf(t, app) == AssignmentsOf(db, app);
      assert ColumnsOf(db, app, op.user) == None by { NotReached(db, op, app); }
      forall u ensures ColumnsOf(t, app, u) == ColumnsOf(db, app, u) {}
      hide Change, LiveGroups, AssignmentsOf, ColumnsOf;
      StaysReconciled(db, t, app);
    }
  }

  lemma NotReached(db: Db, op: Op, app: nat)
    requires Reconciled(db, app) && op.DeleteUser? && (app in db.assignments ==> !ReachesUser(db, db.assignments[app], op.user))
    ensures ColumnsOf(db, app, op.user) == None
  {
    hide Live;
    var list := AssignmentsOf(db, app);
    assert Right(db, app, op.user, ColumnsOf(db, app, op.user));
    forall a | a in list ensures !Covers(a, LiveGroups(db), op.user) {
      LiveMembers(db, a.group, op.user);
      var i :| 0 <= i < |list| && list[i] == a;
    }
  }

  // ---------------------------------------------------------------------------------------------
  // All operations

  /** The channels an operation reconciles are reconciled afterwards. */
  lemma SyncedIsReconciled(db: Db, op: Op, app: nat)
    requires Inv(db) && app in Change(db, op).1 && app in Change(db, op).0.apps
    ensures Reconciled(Apply(db, op), app)
  {
    hide Change, LiveGroups, Covered, IsAccess, Sync, Apply;
    forall u ensures Right(Apply(db, op), app, u, ColumnsOf(Apply(db, op), app, u)) { ReconciledAfter(db, op, app, u); }
  }

  /** The others are as the operation itself left them. */
  lemma UnsyncedIsChanged(db: Db, op: Op, app: nat)
    requires app !in Change(db, op).1 || app !in Change(db, op).0.apps
    ensures Reconciled(Apply(db, op), app) <==> Reconciled(Change(db, op).0, app)
  {
    hide Change, Right, Synced;
    var t, v := Change(db, op).0, Apply(db, op);
    assert RowsOf(v, app) == RowsOf(t, app) && AssignmentsOf(v, app) == AssignmentsOf(t, app);
    SameLiveGroups(t, Change(db, op).1);
    forall u ensures Right(v, app, u, ColumnsOf(v, app, u)) <==> Right(t, app, u, ColumnsOf(t, app, u)) {
      assert SameCoverage(t, v, app) by { hide LiveGroups; }
      SameRight(t, v, app, u, ColumnsOf(t, app, u));
    }
    hide ColumnsOf;
  }

  lemma ChangeReconciled(db: Db, op: Op, app: nat)
    requires Inv(db) && app in db.apps && Reconciled(db, app) && (app !in Change(db, op).1 || app !in Change(db, op).0.apps)
    ensures Reconciled(Change(db, op).0, app) <==> !Breaks(db, op, app)
  {
    if IsRowOp(op) {
      RowOpReconciled(db, op, app);
    } else {
      NothingDropped(db, op, app);
      if op.CreateUser? {
        UserCreated(db, op, app);
      } else if op.DeleteUser? {
        UserDeleted(db, op, app);
      } else {
        OnlyOthers(db, op, app);
        if op.CreateGroup? || op.AddGroupMember? || op.RemoveGroupMember? || op.DeleteGroup? {
          OtherGroup(db, op, app);
        } else {
          OtherChannel(db, op, app);
        }
      }
    }
    hide Change, Reconciled, Breaks;
  }

  lemma NothingDropped(db: Db, op: Op, app: nat)
    requires !IsRowOp(op)
    ensures !Breaks(db, op, app)
  {
  }

  lemma OnlyOthers(db: Db, op: Op, app: nat)
    requires app in db.apps && !IsRowOp(op) && !op.CreateUser? && !op.DeleteUser?
    requires app !in Change(db, op).1 || app !in Change(db, op).0.apps
    ensures app !in Change(db, op).1
  {
  }

  /**
   * Exactly when an operation leaves a reconciled channel reconciled: unless it removes, with no reconciliation after
   * it, the row of a user whom one of the channel's groups still covers. That is an accepted removal of such a member,
   * switching auto-assign off while such a row is auto-assigned, or refilling an ownerless channel without such a user.
   */
  lemma StaysReconciledExactly(db: Db, op: Op, app: nat)
    requires Inv(db) && app in db.apps && Reconciled(db, app)
    ensures Reconciled(Apply(db, op), app) <==> !Breaks(db, op, app)
  {
    hide Inv, Change, Reconciled, Breaks, Apply;
    if app in Change(db, op).1 && app in Change(db, op).0.apps {
      SyncedIsReconciled(db, op, app);
      SyncedNeverBreaks(db, op, app);
    } else {
      UnsyncedIsChanged(db, op, app);
      ChangeReconciled(db, op, app);
    }
  }

  lemma SyncedNeverBreaks(db: Db, op: Op, app: nat)
    requires app in Change(db, op).1
    ensures !Breaks(db, op, app)
  {
    if !IsRowOp(op) { NothingDropped(db, op, app); }
  }

  // ---------------------------------------------------------------------------------------------
  // Each cause occurs

  /** Two users, a channel, and a group that has the second user and is assigned to the channel. */
  function Setup(owner: nat, autoAssign: bool): seq<Op> {
    [CreateUser(1), CreateUser(2), CreateGroup(7), AddGroupMember(7, 2), CreateApp(5, owner, autoAssign),
     UpsertGroupAssignment(5, 7, Member, true)]
  }

  lemma SyncNone(db: Db)
    ensures SyncAll(db, {}) == db
  {
    assert SyncAll(db, {}).rows == db.rows;
  }

  /** The tables when all but the last of these operations are done. */
  function Prepared(owner: nat, autoAssign: bool): Db {
    var own := if owner != 0 then map[owner := OWNER_ROW] else map[];
    Db({1, 2}, map[5 := App(owner, autoAssign)], map[5 := if autoAssign then AssignToAll(own, {1, 2}, owner) else own], map[], map[7 := [2]])
  }

  lemma AddsUser(db: Db, user: nat)
    requires user != 0 && user !in db.users && db.rows == map[] && db.apps == map[]
    ensures Apply(db, CreateUser(user)) == db.(users := db.users + {user})
  {
    var t := Change(db, CreateUser(user)).0;
    assert t.rows == map[];
    SyncNone(t);
  }

  lemma AddsMember(db: Db, group: nat, user: nat)
    requires group in db.groups && db.groups[group] == [] && user in db.users && db.assignments == map[]
    ensures Apply(db, AddGroupMember(group, user)) == db.(groups := db.groups[group := [user]])
  {
    assert AppsWithGroup(db, group) == {};
    assert [] + [user] == [user];
    SyncNone(db.(groups := db.groups[group := [user]]));
  }

  lemma Prepares(owner: nat, autoAssign: bool)
    ensures ApplyAll(EMPTY, Setup(owner, autoAssign)) == Apply(Prepared(owner, autoAssign), UpsertGroupAssignment(5, 7, Member, true))
  {
    hide AssignToAll, Synced, SyncAll, Apply;
    var ops := Setup(owner, autoAssign);
    AddsUser(EMPTY, 1);
    var db1 := EMPTY.(users := {1});
    AddsUser(db1, 2);
    var db2 := db1.(users := {1, 2});
    assert {1} + {2} == {1, 2} && {} + {1} == {1};
    assert Apply(EMPTY, ops[0]) == db1 && Apply(db1, ops[1]) == db2;
    var db3 := db2.(groups := map[7 := []]);
    assert Apply(db2, ops[2]) == db3 by {
      MakesGroup(db2, 7);
      assert db2.groups[7 := []] == map[7 := []];
    }
    AddsMember(db3, 7, 2);
    var db4 := db3.(groups := map[7 := [2]]);
    assert db3.groups[7 := [2]] == map[7 := [2]];
    assert Apply(db3, ops[3]) == db4;
    assert Apply(db4, ops[4]) == Prepared(owner, autoAssign) by { MakesApp(db4, owner, autoAssign); }
    hide Change, Prepared;
    ApplySix(EMPTY, ops[0], ops[1], ops[2], ops[3], ops[4], ops[5]);
  }

  lemma MakesGroup(db: Db, group: nat)
    requires group !in db.groups
    ensures Apply(db, CreateGroup(group)) == db.(groups := db.groups[group := []])
  {
    SyncNone(db.(groups := db.groups[group := []]));
  }

  lemma MakesApp(db: Db, owner: nat, autoAssign: bool)
    requires db == Db({1, 2}, map[], map[], map[], map[7 := [2]])
    ensures Apply(db, CreateApp(5, owner, autoAssign)) == Prepared(owner, autoAssign)
  {
    hide AssignToAll;
    SyncNone(Prepared(owner, autoAssign));
  }

  lemma ApplySix(db: Db, a: Op, b: Op, c: Op, d: Op, e: Op, f: Op)
    ensures ApplyAll(db, [a, b, c, d, e, f]) == Apply(Apply(Apply(Apply(Apply(Apply(db, a), b), c), d), e), f)
  {
    hide Apply, ApplyAll;
    var s1 := Apply(db, a);
    var s2 := Apply(s1, b);
    var s3 := Apply(s2, c);
    var s4 := Apply(s3, d);
    var s5 := Apply(s4, e);
    ApplyFirst(db, a, [b, c, d, e, f]);
    ApplyFirst(s1, b, [c, d, e, f]);
    ApplyFirst(s2, c, [d, e, f]);
    ApplyFirst(s3, d, [e, f]);
    ApplyFirst(s4, e, [f]);
    ApplyFirst(s5, f, []);
    assert [a] + [b, c, d, e, f] == [a, b, c, d, e, f] && [b] + [c, d, e, f] == [b, c, d, e, f];
    assert [c] + [d, e, f] == [c, d, e, f] && [d] + [e, f] == [d, e, f] && [e] + [f] == [e, f] && [f] + [] == [f];
  }

  lemma ApplyFirst(db: Db, op: Op, ops: seq<Op>)
    ensures ApplyAll(db, [op] + ops) == ApplyAll(Apply(db, op), ops)
    ensures ops == [] ==> ApplyAll(Apply(db, op), ops) == Apply(db, op)
  {
    hide Apply;
    assert ([op] + ops)[1..] == ops;
  }

  lemma PreparedInv(owner: nat, autoAssign: bool)
    requires owner <= 2
    ensures Inv(Prepared(owner, autoAssign))
  {
  }

  /** What assigning the group changes. */
  lemma Assigns(db: Db, app: nat, group: nat)
    requires app in db.apps && db.assignments == map[]
    ensures var t := Apply(db, UpsertGroupAssignment(app, group, Member, true));
            && t.users == db.users && t.apps == db.apps && t.groups == db.groups
            && AssignmentsOf(t, app) == [Assignment(group, Member, true)]
            && RowsOf(t, app) == Synced(t.(rows := db.rows), app)
  {
    hide Sync, Granted, LiveGroups;
    var list := WithoutGroup([], group) + [Assignment(group, Member, true)];
    assert WithoutGroup([], group) == [];
    assert list == [Assignment(group, Member, true)];
  }

  /** From empty tables, the channel is reconciled after these operations, and user 2 is covered. */
  lemma SetupReconciles(owner: nat, autoAssign: bool)
    requires owner <= 1
    ensures var db := ApplyAll(EMPTY, Setup(owner, autoAssign));
            && Inv(db) && 5 in db.apps && db.apps[5] == App(owner, autoAssign) && Reconciled(db, 5) && Reaches(db, 5, 2)
            && (autoAssign ==> 2 in RowsOf(db, 5) && RowsOf(db, 5)[2].auto)
  {
    var assign := UpsertGroupAssignment(5, 7, Member, true);
    var before, db := Prepared(owner, autoAssign), ApplyAll(EMPTY, Setup(owner, autoAssign));
    assert 5 in before.apps && before.apps[5] == App(owner, autoAssign) && before.assignments == map[];
    assert before.users == {1, 2} && before.groups == map[7 := [2]];
    assert autoAssign ==> 2 in RowsOf(before, 5) && RowsOf(before, 5)[2] == AUTO_ROW;
    assert 5 in Change(before, assign).1 && 5 in Change(before, assign).0.apps;
    hide *;
    Prepares(owner, autoAssign);
    ApplyAllKeepsInv(EMPTY, Setup(owner, autoAssign)) by { EmptyIsInv(); }
    PreparedInv(owner, autoAssign);
    SyncedIsReconciled(before, assign, 5);
    Assigns(before, 5, 7);
    MemberIsCovered(db);
    if autoAssign { SyncKeepsAuto(db, before.rows); }
  }

  lemma EmptyIsInv()
    ensures Inv(EMPTY)
  {
  }

  lemma MemberIsCovered(db: Db)
    requires AssignmentsOf(db, 5) == [Assignment(7, Member, true)] && db.groups == map[7 := [2]] && 2 in db.users
    ensures Reaches(db, 5, 2)
  {
    var a := Assignment(7, Member, true);
    assert a in AssignmentsOf(db, 5);
    LiveMembers(db, 7, 2);
    assert Covers(a, LiveGroups(db), 2);
  }

  lemma SyncKeepsAuto(db: Db, rows: map<nat, map<nat, Row>>)
    requires 5 in db.apps && 5 in rows && 2 in rows[5] && rows[5][2] == AUTO_ROW
    requires RowsOf(db, 5) == Synced(db.(rows := rows), 5)
    ensures 2 in RowsOf(db, 5) && RowsOf(db, 5)[2].auto
  {
    hide Granted, LiveGroups;
  }

  /** Each of the three operations undoes a reconciliation in some state that is reached from empty tables. */
  lemma EachCauseOccurs(owner: nat, autoAssign: bool, op: Op)
    requires owner <= 1
    requires || (op == SetAutoAssign(5, false) && autoAssign)
             || (op == DeleteMember(5, 2) && !autoAssign)
             || (op == ResolveGroupTarget(5, {}) && owner == 0)
    ensures var db := ApplyAll(EMPTY, Setup(owner, autoAssign)); Reconciled(db, 5) && !Reconciled(Apply(db, op), 5)
  {
    hide Inv, Reconciled, Apply, ApplyAll, Setup, Reaches;
    var db := ApplyAll(EMPTY, Setup(owner, autoAssign));
    SetupReconciles(owner, autoAssign);
    assert DropsRow(db, op, 5, 2);
    StaysReconciledExactly(db, op, 5);
  }
}
