/** What each operation changes in the tables, item by item: exactly which operations make a difference to it, and which. */
module ChannelTables {
  import opened Common
  import opened Lists
  import opened Membership
  import opened Channels

  /** Reconciling writes rows only. */
  lemma SyncWritesRows(db: Db, apps: set<nat>)
    ensures var t := SyncAll(db, apps);
            t.users == db.users && t.apps == db.apps && t.assignments == db.assignments && t.groups == db.groups
  {
  }

  /** Deleting a user is refused while the user owns a channel with other members. */
  predicate Removes(db: Db, op: Op, user: nat) {
    op == DeleteUser(user) && user in db.users
    && forall a :: a in db.apps && db.apps[a].owner == user ==> forall v :: v in RowsOf(db, a) ==> v == user
  }

  lemma SharesExactly(db: Db, user: nat)
    requires Inv(db) && user in db.users
    ensures SharesAChannel(db, user) <==> !Removes(db, DeleteUser(user), user)
  {
    forall a | a in db.apps && db.apps[a].owner == user
      ensures |RowsOf(db, a)| > 1 <==> exists v :: v in RowsOf(db, a) && v != user
    {
      OthersByCount(RowsOf(db, a), user);
    }
  }

  lemma OthersByCount(rows: map<nat, Row>, user: nat)
    requires user in rows
    ensures |rows| > 1 <==> exists v :: v in rows && v != user
  {
    var others := rows.Keys - {user};
    assert rows.Keys == others + {user} && |rows.Keys| == |others| + 1;
    if |rows| > 1 {
      var v :| v in others;
    }
  }

  /** What an accepted deletion leaves, and that a refused one changes nothing. */
  lemma UserDeletion(db: Db, user: nat)
    requires Inv(db)
    ensures var t := Change(db, DeleteUser(user)).0;
            if Removes(db, DeleteUser(user), user) then
              && t.users == db.users - {user}
              && (forall a :: a in t.apps <==> a in db.apps && db.apps[a].owner != user)
              && (forall a :: a in t.apps ==> t.apps[a] == db.apps[a])
              && (forall a, u :: u in RowsOf(t, a) <==> u in RowsOf(db, a) && a in t.apps && u != user)
              && (forall g :: g in t.groups <==> g in db.groups)
              && forall g, u :: u in MembersOf(t.groups, g) <==> u in MembersOf(db.groups, g) && u != user
            else t == db
  {
    if user in db.users { SharesExactly(db, user); }
    hide Inv, SharesAChannel, ReachesUser, LiveGroups, AssignToAll;
  }

  lemma UsersChangeExactly(db: Db, op: Op, user: nat)
    requires Inv(db)
    ensures user in Apply(db, op).users <==>
            (op == CreateUser(user) && user != 0) || (user in db.users && !Removes(db, op, user))
  {
    hide SyncAll, LiveGroups, WithoutUser, WithoutGroup, AssignToAll, AutoAssigned, SharesAChannel, ReachesUser, UpsertedRow,
         OwnersRow, Find, AssignmentsOf;
    SyncWritesRows(Change(db, op).0, Change(db, op).1);
    if op.DeleteUser? && op.user in db.users { SharesExactly(db, op.user); }
    hide Inv;
  }

  lemma GroupsChangeExactly(db: Db, op: Op, group: nat, user: nat)
    requires Inv(db)
    ensures group in Apply(db, op).groups <==> op == CreateGroup(group) || (group in db.groups && op != DeleteGroup(group))
    ensures user in MembersOf(Apply(db, op).groups, group) <==>
            || (op == AddGroupMember(group, user) && group in db.groups && user in db.users)
            || (user in MembersOf(db.groups, group)
                && op != RemoveGroupMember(group, user) && op != DeleteGroup(group) && !Removes(db, op, user))
  {
    SyncWritesRows(Change(db, op).0, Change(db, op).1);
    hide Inv, SyncAll, Change, Removes;
    if op.DeleteUser? {
      UserDeletion(db, op.user);
      RemovesOnly(db, op, user);
    } else {
      NotRemoved(db, op, user);
      if op.CreateGroup? || op.AddGroupMember? || op.RemoveGroupMember? || op.DeleteGroup? {
        GroupOpChanges(db, op, group, user);
      } else {
        GroupsStay(db, op);
      }
    }
  }

  lemma RemovesOnly(db: Db, op: Op, user: nat)
    requires op.DeleteUser?
    ensures Removes(db, op, user) <==> user == op.user && Removes(db, DeleteUser(op.user), op.user)
  {
  }

  lemma GroupOpChanges(db: Db, op: Op, group: nat, user: nat)
    requires op.CreateGroup? || op.AddGroupMember? || op.RemoveGroupMember? || op.DeleteGroup?
    ensures var t := Change(db, op).0;
            && (group in t.groups <==> op == CreateGroup(group) || (group in db.groups && op != DeleteGroup(group)))
            && (user in MembersOf(t.groups, group) <==>
                  || (op == AddGroupMember(group, user) && group in db.groups && user in db.users)
                  || (user in MembersOf(db.groups, group) && op != RemoveGroupMember(group, user) && op != DeleteGroup(group)))
  {
    hide WithoutGroup, AppsWithGroup;
  }

  lemma GroupsStay(db: Db, op: Op)
    requires !op.CreateGroup? && !op.AddGroupMember? && !op.RemoveGroupMember? && !op.DeleteGroup? && !op.DeleteUser?
    ensures Change(db, op).0.groups == db.groups
  {
    hide WithoutGroup, AssignToAll, AutoAssigned, UpsertedRow, OwnersRow, RowsOf, AssignmentsOf;
  }

  lemma NotRemoved(db: Db, op: Op, user: nat)
    requires !op.DeleteUser?
    ensures !Removes(db, op, user)
  {
  }

  /** The channel is deleted, itself or with its owner. */
  predicate DropsApp(db: Db, op: Op, app: nat) {
    op == DeleteApp(app) || (op.DeleteUser? && Removes(db, op, op.user) && (app !in db.apps || db.apps[app].owner == op.user))
  }

  lemma AssignmentsChangeExactly(db: Db, op: Op, app: nat, a: Assignment)
    requires Inv(db)
    ensures a in AssignmentsOf(Apply(db, op), app) <==>
            || (op.UpsertGroupAssignment? && op.app == app && a == Assignment(op.group, Normalize(op.groupRole), op.groupReceive))
            || (a in AssignmentsOf(db, app) && !DropsApp(db, op, app)
                && !(op.UpsertGroupAssignment? && op.app == app && a.group == op.group)
                && op != DeleteGroupAssignment(app, a.group) && op != DeleteGroup(a.group))
  {
    SyncWritesRows(Change(db, op).0, Change(db, op).1);
    hide Inv, SyncAll, Change;
    if op.UpsertGroupAssignment? || op.DeleteGroupAssignment? || op.DeleteGroup? {
      AssignmentOpChanges(db, op, app, a);
    } else {
      AssignmentsStay(db, op, app);
    }
  }

  lemma AssignmentOpChanges(db: Db, op: Op, app: nat, a: Assignment)
    requires op.UpsertGroupAssignment? || op.DeleteGroupAssignment? || op.DeleteGroup?
    ensures Change(db, op).0.apps == db.apps
    ensures a in AssignmentsOf(Change(db, op).0, app) <==>
            || (op.UpsertGroupAssignment? && op.app == app && a == Assignment(op.group, Normalize(op.groupRole), op.groupReceive))
            || (a in AssignmentsOf(db, app)
                && !(op.UpsertGroupAssignment? && op.app == app && a.group == op.group)
                && op != DeleteGroupAssignment(app, a.group) && op != DeleteGroup(a.group))
  {
    hide AppsWithGroup;
  }

  lemma AssignmentsStay(db: Db, op: Op, app: nat)
    requires !op.UpsertGroupAssignment? && !op.DeleteGroupAssignment? && !op.DeleteGroup?
    requires Inv(db)
    ensures AssignmentsOf(Change(db, op).0, app) == if DropsApp(db, op, app) then [] else AssignmentsOf(db, app)
  {
    hide WithoutUser, WithoutGroup, SharesAChannel, ReachesUser, AppsWithGroup, AssignToAll, AutoAssigned, UpsertedRow, OwnersRow, RowsOf,
         Inv, Removes;
    if op.DeleteUser? && op.user in db.users { SharesExactly(db, op.user); }
    if op.DeleteUser? { RemovedIsKnown(db, op); }
  }

  lemma RemovedIsKnown(db: Db, op: Op)
    requires op.DeleteUser?
    ensures Removes(db, op, op.user) ==> op.user in db.users && op == DeleteUser(op.user)
  {
  }

  lemma AppsChangeExactly(db: Db, op: Op, app: nat)
    requires Inv(db)
    ensures app in Apply(db, op).apps <==>
            || (op.CreateApp? && op.id == app && app !in db.rows)
            || (app in db.apps && op != DeleteApp(app) && !Removes(db, op, db.apps[app].owner))
    ensures app in db.apps && app in Apply(db, op).apps ==>
              Apply(db, op).apps[app] ==
              if op.Transfer? && op.app == app && op.newOwner in db.users && op.keyMade then db.apps[app].(owner := op.newOwner)
              else if op.SetAutoAssign? && op.app == app then db.apps[app].(autoAssign := op.enabled)
              else db.apps[app]
    ensures app !in db.apps && app in Apply(db, op).apps ==> op.CreateApp? && Apply(db, op).apps[app] == App(op.owner, op.autoAssign)
  {
    hide Inv, SyncAll, LiveGroups, WithoutUser, WithoutGroup, AssignToAll, AutoAssigned, UpsertedRow, OwnersRow, Find, AssignmentsOf;
    SyncWritesRows(Change(db, op).0, Change(db, op).1);
    if op.DeleteUser? {
      UserDeletion(db, op.user);
      hide Change;
    } else {
      hide RowsOf, AppsWithGroup;
    }
  }

  // ---------------------------------------------------------------------------------------------
  // Rows

  /** Reconciling leaves a member's own part of a row alone. */
  lemma SyncKeepsOwn(db: Db, apps: set<nat>, app: nat, user: nat)
    requires user in RowsOf(db, app) && user in RowsOf(SyncAll(db, apps), app)
    ensures var before, after := RowsOf(db, app)[user], RowsOf(SyncAll(db, apps), app)[user];
            && after.role == before.role && after.auto == before.auto && after.override == before.override
            && (before.override.Some? && before.receive == before.override.value ==> after.receive == before.receive)
  {
    hide Granted, LiveGroups;
  }

  /** The operation sets the role, or the notifications, of the user's row. */
  predicate SetsRole(op: Op, app: nat, user: nat) {
    (op.UpsertMember? && op.app == app && op.user == user) || (op.ResolveGroupTarget? && op.app == app)
  }

  predicate SetsChoice(op: Op, app: nat, user: nat) {
    SetsRole(op, app, user) || (op.SetNotifications? && op.app == app && op.user == user)
  }

  predicate TakesOver(db: Db, op: Op, app: nat, user: nat) {
    op.Transfer? && op.app == app && app in db.apps && op.newOwner == user && user in db.users && op.keyMade
  }

  /** A row that an operation leaves keeps its role, and its auto flag but for a new owner's, unless it is the one set. */
  lemma ChangeKeepsOwn(db: Db, op: Op, app: nat, user: nat)
    requires user in RowsOf(db, app) && user in RowsOf(Change(db, op).0, app) && !SetsRole(op, app, user)
    ensures var before, after := RowsOf(db, app)[user], RowsOf(Change(db, op).0, app)[user];
            && after.role == before.role
            && after.auto == (before.auto && !TakesOver(db, op, app, user))
            && (!SetsChoice(op, app, user) ==> after.override == before.override && after.receive == before.receive)
  {
    hide LiveGroups, WithoutUser, WithoutGroup, SharesAChannel, ReachesUser, AssignmentsOf;
  }

  /** A member's choice of notifications is taken over, and nobody else's row changes. */
  lemma ChoiceIsTaken(db: Db, app: nat, user: nat, enabled: bool, other: nat)
    requires user in RowsOf(db, app)
    ensures var after := RowsOf(Apply(db, SetNotifications(app, user, enabled)), app);
            && user in after && after[user].receive == enabled && after[user].override == Some(enabled)
            && after[user].role == RowsOf(db, app)[user].role && after[user].auto == RowsOf(db, app)[user].auto
            && (other != user ==> Find(after, other) == Find(RowsOf(db, app), other))
  {
    hide Granted, LiveGroups, Sync;
    var op := SetNotifications(app, user, enabled);
    var t := Change(db, op).0;
    assert Change(db, op).1 == {} && SyncAll(t, {}).rows == t.rows;
    assert Apply(db, op).rows == db.rows[app := RowsOf(t, app)];
  }

  /** The user has chosen, and receives accordingly. */
  predicate Chosen(db: Db, app: nat, user: nat, enabled: bool) {
    user in RowsOf(db, app) && RowsOf(db, app)[user].override == Some(enabled) && RowsOf(db, app)[user].receive == enabled
  }

  /** It stays so with every operation that neither sets the row's notifications nor removes the row, reconciliations included. */
  lemma ChoiceIsKept(db: Db, op: Op, app: nat, user: nat, enabled: bool)
    requires Chosen(db, app, user, enabled) && !SetsChoice(op, app, user) && user in RowsOf(Change(db, op).0, app)
    ensures user in RowsOf(Apply(db, op), app) ==> Chosen(Apply(db, op), app, user, enabled)
  {
    hide Change, SyncAll;
    if user in RowsOf(Apply(db, op), app) {
      ChangeKeepsOwn(db, op, app, user);
      SyncKeepsOwn(Change(db, op).0, Change(db, op).1, app, user);
    }
  }

  // ---------------------------------------------------------------------------------------------
  // Who has a row

  /** The operation gives the user a row of the channel, groups aside. */
  predicate GivesRow(db: Db, op: Op, app: nat, user: nat) {
    match op
    case CreateApp(id, owner, autoAssign) =>
      id == app && app !in db.apps && app !in db.rows && ((owner != 0 && user == owner) || (autoAssign && user in db.users))
    case UpsertMember(a, u, _, _) => a == app && u == user && app in db.apps
    case SetAutoAssign(a, enabled) => a == app && app in db.apps && enabled && user in db.users && user != db.apps[app].owner
    case Transfer(_, _, _) => TakesOver(db, op, app, user)
    case CreateUser(u) =>
      u == user && user != 0 && user !in db.users && app in db.apps && db.apps[app].autoAssign && db.apps[app].owner != user
    case ResolveGroupTarget(a, members) => a == app && app in db.apps && db.apps[app].owner == 0 && user in members
    case _ => false
  }

  /** It takes the row away. */
  predicate TakesRow(db: Db, op: Op, app: nat, user: nat) {
    match op
    case DeleteApp(a) => a == app
    case DeleteMember(a, u) => a == app && u == user && app in db.apps && user != db.apps[app].owner && !db.apps[app].autoAssign
    case SetAutoAssign(a, enabled) => a == app && app in db.apps && !enabled && user in RowsOf(db, app) && RowsOf(db, app)[user].auto
    case DeleteUser(u) => Removes(db, op, u) && (u == user || app !in db.apps || db.apps[app].owner == u)
    case ResolveGroupTarget(a, members) => a == app && app in db.apps && db.apps[app].owner == 0 && user !in members
    case _ => false
  }

  /** Exactly who has a row after an operation, before any reconciliation. */
  lemma RowsChangeExactly(db: Db, op: Op, app: nat, user: nat)
    requires Inv(db)
    ensures user in RowsOf(Change(db, op).0, app) <==>
            GivesRow(db, op, app, user) || (user in RowsOf(db, app) && !TakesRow(db, op, app, user))
  {
    assert 0 !in db.users;
    hide Inv, LiveGroups, WithoutUser, WithoutGroup, SharesAChannel, ReachesUser, AssignmentsOf;
    if op.DeleteUser? {
      UserDeletion(db, op.user);
      hide Change;
    } else {
      hide Removes, Change;
      if op.CreateApp? || op.SetAutoAssign? || op.CreateUser? {
        AutoRows(db, op, app, user);
      } else {
        OtherRows(db, op, app, user);
      }
    }
  }

  lemma AutoRows(db: Db, op: Op, app: nat, user: nat)
    requires 0 !in db.users && (op.CreateApp? || op.SetAutoAssign? || op.CreateUser?)
    ensures user in RowsOf(Change(db, op).0, app) <==>
            GivesRow(db, op, app, user) || (user in RowsOf(db, app) && !TakesRow(db, op, app, user))
  {
  }

  lemma OtherRows(db: Db, op: Op, app: nat, user: nat)
    requires !op.CreateApp? && !op.SetAutoAssign? && !op.CreateUser? && !op.DeleteUser?
    ensures user in RowsOf(Change(db, op).0, app) <==>
            GivesRow(db, op, app, user) || (user in RowsOf(db, app) && !TakesRow(db, op, app, user))
  {
    hide AppsWithGroup, UpsertedRow, OwnersRow, WithoutUser, WithoutGroup, AssignmentsOf;
  }
}
