/** The channel tables under every operation that changes them: a channel's owner always stays a member. */
module Channels {
  import opened Common
  import opened Lists
  import opened Membership

  /** Owner 0 is nobody: the internal channel of a group. */
  datatype App = App(owner: nat, autoAssign: bool)

  datatype Db = Db(users: set<nat>, apps: map<nat, App>, rows: map<nat, map<nat, Row>>,
                   assignments: map<nat, seq<Assignment>>, groups: Groups)

  function RowsOf(db: Db, app: nat): map<nat, Row> { if app in db.rows then db.rows[app] else map[] }

  function AssignmentsOf(db: Db, app: nat): seq<Assignment> { if app in db.assignments then db.assignments[app] else [] }

  /** GetUserGroupMembers joins the users table. */
  function LiveGroups(db: Db): Groups { map g | g in db.groups :: Live(db.groups[g], db.users) }

  function Live(members: seq<nat>, users: set<nat>): (live: seq<nat>)
    ensures forall u :: u in live <==> u in members && u in users
  {
    WithoutMembers(members, (u: nat) => u !in users);
    Without(members, (u: nat) => u !in users)
  }

  /** SyncApplicationGroupAssignments of one channel. */
  function Synced(db: Db, app: nat): map<nat, Row>
    requires app in db.apps
  {
    Sync(RowsOf(db, app), db.apps[app].owner, Granted(AssignmentsOf(db, app), LiveGroups(db)))
  }

  /** The same for several channels, one after the other; they do not influence each other. */
  function SyncAll(db: Db, apps: set<nat>): Db {
    db.(rows := map a | a in db.rows.Keys + (apps * db.apps.Keys) :: if a in apps && a in db.apps then Synced(db, a) else db.rows[a])
  }

  function AppsWithGroup(db: Db, group: nat): set<nat> {
    set a | a in db.assignments && exists i :: 0 <= i < |db.assignments[a]| && db.assignments[a][i].group == group
  }

  function WithoutGroup(list: seq<Assignment>, group: nat): (r: seq<Assignment>)
    ensures forall a :: a in r <==> a in list && a.group != group
  {
    WithoutMembers(list, (a: Assignment) => a.group == group);
    Without(list, (a: Assignment) => a.group == group)
  }

  function WithoutUser(members: seq<nat>, user: nat): (r: seq<nat>)
    ensures forall u :: u in r <==> u in members && u != user
  {
    WithoutMembers(members, (u: nat) => u == user);
    Without(members, (u: nat) => u == user)
  }

  datatype Op =
    | CreateApp(id: nat, owner: nat, autoAssign: bool)
    | DeleteApp(id: nat)
    | UpsertMember(app: nat, user: nat, role: Role, receive: bool)
    | DeleteMember(app: nat, user: nat)
    | SetNotifications(app: nat, user: nat, enabled: bool)
    | SetAutoAssign(app: nat, enabled: bool)
    | Transfer(app: nat, newOwner: nat, keyMade: bool)
    | UpsertGroupAssignment(app: nat, group: nat, groupRole: Role, groupReceive: bool)
    | DeleteGroupAssignment(app: nat, group: nat)
    | SyncApp(app: nat)
    | CreateGroup(group: nat)
    | AddGroupMember(group: nat, user: nat)
    | RemoveGroupMember(group: nat, user: nat)
    | DeleteGroup(group: nat)
    | CreateUser(user: nat)
    | DeleteUser(user: nat)
    | ResolveGroupTarget(app: nat, members: set<nat>)

  /** A request that is refused leaves the tables as they are. */
  function Same(db: Db): (Db, set<nat>) { (db, {}) }

  /** The operation itself, and the channels it reconciles afterwards. */
  function Change(db: Db, op: Op): (Db, set<nat>) {
    match op
    case CreateApp(id, owner, autoAssign) =>
      if id in db.apps || id in db.rows then Same(db)
      else
        var own := if owner != 0 then map[owner := OWNER_ROW] else map[];
        Same(db.(apps := db.apps[id := App(owner, autoAssign)],
                 rows := db.rows[id := if autoAssign then AssignToAll(own, db.users, owner) else own]))
    case DeleteApp(id) => Same(db.(apps := db.apps - {id}, rows := db.rows - {id}, assignments := db.assignments - {id}))
    case UpsertMember(app, user, role, receive) =>
      // The handler refuses the owner; the database call itself would keep the row too.
      if app !in db.apps then Same(db)
      else
        Same(db.(rows := db.rows[app := RowsOf(db, app)[user := UpsertedRow(Find(RowsOf(db, app), user), role, receive)]]))
    case DeleteMember(app, user) =>
      if app !in db.apps || user == db.apps[app].owner || db.apps[app].autoAssign then Same(db)
      else Same(db.(rows := db.rows[app := RowsOf(db, app) - {user}]))
    case SetNotifications(app, user, enabled) =>
      if user !in RowsOf(db, app) then Same(db)
      else
        var row := RowsOf(db, app)[user].(receive := enabled, override := Some(enabled));
        Same(db.(rows := db.rows[app := RowsOf(db, app)[user := row]]))
    case SetAutoAssign(app, enabled) =>
      if app !in db.apps then Same(db)
      else
        var rows := RowsOf(db, app);
        Same(db.(apps := db.apps[app := db.apps[app].(autoAssign := enabled)],
                 rows := db.rows[app := AutoAssigned(rows, db.users, db.apps[app].owner, enabled)]))
    case Transfer(app, newOwner, keyMade) =>
      if app !in db.apps || newOwner !in db.users || !keyMade then Same(db)
      else
        var rows := RowsOf(db, app);
        Same(db.(apps := db.apps[app := db.apps[app].(owner := newOwner)],
                 rows := db.rows[app := rows[newOwner := OwnersRow(Find(rows, newOwner))]]))
    case UpsertGroupAssignment(app, group, groupRole, groupReceive) =>
      var list := WithoutGroup(AssignmentsOf(db, app), group) + [Assignment(group, Normalize(groupRole), groupReceive)];
      (db.(assignments := db.assignments[app := list]), {app})
    case DeleteGroupAssignment(app, group) =>
      (db.(assignments := db.assignments[app := WithoutGroup(AssignmentsOf(db, app), group)]), {app})
    case SyncApp(app) => (db, {app})
    case CreateGroup(group) => if group in db.groups then Same(db) else Same(db.(groups := db.groups[group := []]))
    case AddGroupMember(group, user) =>
      if group !in db.groups || user !in db.users then Same(db)
      else
        var members := if user in db.groups[group] then db.groups[group] else db.groups[group] + [user];
        (db.(groups := db.groups[group := members]), AppsWithGroup(db, group))
    case RemoveGroupMember(group, user) =>
      if group !in db.groups then (db, AppsWithGroup(db, group))
      else (db.(groups := db.groups[group := WithoutUser(db.groups[group], user)]), AppsWithGroup(db, group))
    case DeleteGroup(group) =>
      var assignments := map a | a in db.assignments :: WithoutGroup(db.assignments[a], group);
      (db.(assignments := assignments, groups := db.groups - {group}), AppsWithGroup(db, group))
    case CreateUser(user) =>
      if user == 0 || user in db.users then Same(db)
      else
        Same(db.(users := db.users + {user},
                 rows := map a | a in db.rows.Keys + db.apps.Keys ::
                           if a in db.apps && db.apps[a].autoAssign && db.apps[a].owner != user && user !in RowsOf(db, a)
                           then RowsOf(db, a)[user := AUTO_ROW] else RowsOf(db, a)))
    case DeleteUser(user) =>
      if user !in db.users || SharesAChannel(db, user) then Same(db)
      else
        var kept := set a | a in db.apps && db.apps[a].owner != user;
        var touched := set a | a in db.assignments && ReachesUser(db, db.assignments[a], user);
        (Db(db.users - {user}, map a | a in kept :: db.apps[a], map a | a in db.rows && a in kept :: db.rows[a] - {user},
            map a | a in db.assignments && a in kept :: db.assignments[a], map g | g in db.groups :: WithoutUser(db.groups[g], user)),
         touched)
    case ResolveGroupTarget(app, members) =>
      // The internal channel of an escalation to a group has no owner; its rows follow the group's members.
      if app !in db.apps || db.apps[app].owner != 0 then Same(db)
      else
        var rows := RowsOf(db, app);
        Same(db.(rows := db.rows[app := map u | u in members :: UpsertedRow(Find(rows, u), NoRole, true)]))
  }

  /** Owns a channel that has other members: the user cannot be deleted yet. */
  predicate SharesAChannel(db: Db, user: nat) {
    exists a :: a in db.apps && db.apps[a].owner == user && |RowsOf(db, a)| > 1
  }

  predicate ReachesUser(db: Db, list: seq<Assignment>, user: nat) {
    exists i :: 0 <= i < |list| && user in MembersOf(db.groups, list[i].group)
  }

  function Apply(db: Db, op: Op): Db { SyncAll(Change(db, op).0, Change(db, op).1) }

  /** Every owned channel keeps a row for its owner, and auto-assignment cannot take it away. */
  predicate OwnersAreMembers(db: Db) {
    forall a :: a in db.apps && db.apps[a].owner != 0 ==>
      db.apps[a].owner in RowsOf(db, a) && !RowsOf(db, a)[db.apps[a].owner].auto
  }

  predicate RolesNormalized(db: Db) { forall a :: a in db.assignments ==> Normalized(db.assignments[a]) }

  /** A deleted user is in no group. */
  predicate MembersExist(db: Db) { forall g, u :: g in db.groups && u in db.groups[g] ==> u in db.users }

  predicate Inv(db: Db) { OwnersAreMembers(db) && RolesNormalized(db) && MembersExist(db) && 0 !in db.users }

  /** Reconciliation never takes the owner's row. */
  lemma SyncAllKeepsOwners(db: Db, apps: set<nat>)
    requires OwnersAreMembers(db)
    ensures OwnersAreMembers(SyncAll(db, apps))
  {
    hide Granted, LiveGroups;
  }

  lemma WithoutGroupNormalized(list: seq<Assignment>, group: nat)
    requires Normalized(list)
    ensures Normalized(WithoutGroup(list, group))
  {
    forall i | 0 <= i < |WithoutGroup(list, group)| ensures IsAssignable(WithoutGroup(list, group)[i].role) {
      assert WithoutGroup(list, group)[i] in list;
    }
  }

  lemma ChangeKeepsRoles(db: Db, op: Op)
    requires RolesNormalized(db)
    ensures RolesNormalized(Change(db, op).0)
  {
    hide Granted, LiveGroups, WithoutUser, WithoutGroup;
    match op
    case UpsertGroupAssignment(app, group, _, _) => WithoutGroupNormalized(AssignmentsOf(db, app), group);
    case DeleteGroupAssignment(app, group) => WithoutGroupNormalized(AssignmentsOf(db, app), group);
    case DeleteGroup(group) =>
      forall a | a in db.assignments ensures Normalized(WithoutGroup(db.assignments[a], group)) {
        WithoutGroupNormalized(db.assignments[a], group);
      }
    case _ =>
  }

  lemma ChangeKeepsOwners(db: Db, op: Op)
    requires OwnersAreMembers(db) && 0 !in db.users
    ensures OwnersAreMembers(Change(db, op).0) && 0 !in Change(db, op).0.users
  {
    hide WithoutUser, WithoutGroup;
  }

  lemma ChangeKeepsMembers(db: Db, op: Op)
    requires MembersExist(db)
    ensures MembersExist(Change(db, op).0)
  {
    hide WithoutUser, WithoutGroup, LiveGroups, AssignToAll, AutoAssigned, UpsertedRow, OwnersRow;
  }

  /** Every operation keeps the invariant. */
  lemma ApplyKeepsInv(db: Db, op: Op)
    requires Inv(db)
    ensures Inv(Apply(db, op))
  {
    hide Change;
    ChangeKeepsRoles(db, op);
    ChangeKeepsOwners(db, op);
    ChangeKeepsMembers(db, op);
    SyncAllKeepsOwners(Change(db, op).0, Change(db, op).1);
  }

  function ApplyAll(db: Db, ops: seq<Op>): Db
    decreases |ops|
  {
    if ops == [] then db else ApplyAll(Apply(db, ops[0]), ops[1..])
  }

  const EMPTY: Db := Db({}, map[], map[], map[], map[])

  lemma {:induction false} ApplyAllKeepsInv(db: Db, ops: seq<Op>)
    requires Inv(db)
    ensures Inv(ApplyAll(db, ops))
    decreases |ops|
  {
    hide Apply;
    if ops == [] {
    } else {
      ApplyKeepsInv(db, ops[0]);
      ApplyAllKeepsInv(Apply(db, ops[0]), ops[1..]);
    }
  }

  /**
   * Over every sequence of operations, from empty tables: a channel with an owner has a row for that
   * owner, the row is not auto-assigned, and stored group roles are normalized.
   */
  lemma OwnersAlwaysMembers(ops: seq<Op>)
    ensures OwnersAreMembers(ApplyAll(EMPTY, ops)) && RolesNormalized(ApplyAll(EMPTY, ops))
  {
    ApplyAllKeepsInv(EMPTY, ops);
  }

  /** After any operation that reconciles a channel, its group-assigned rows are exactly what its groups grant. */
  lemma ReconciledAfter(db: Db, op: Op, app: nat, user: nat)
    requires Inv(db) && app in Change(db, op).1 && app in Change(db, op).0.apps
    ensures var after := Apply(db, op);
            var list, groups := AssignmentsOf(after, app), LiveGroups(after);
            ((user in RowsOf(after, app) && RowsOf(after, app)[user].groupAssigned) <==> Covered(list, groups, user))
            && (Covered(list, groups, user) ==>
                  IsAccess(list, groups, user,
                           Access(RowsOf(after, app)[user].groupRole, RowsOf(after, app)[user].groupReceive)))
  {
    hide Change, Granted, LiveGroups, Covered, IsAccess, Sync;
    var t := Change(db, op).0;
    ChangeKeepsRoles(db, op);
    assert LiveGroups(Apply(db, op)) == LiveGroups(t) by { SameLiveGroups(t, Change(db, op).1); }
    SyncAssignsExactlyTheCovered(RowsOf(t, app), t.apps[app].owner, AssignmentsOf(t, app), LiveGroups(t), user);
  }

  lemma SameLiveGroups(db: Db, apps: set<nat>)
    ensures LiveGroups(SyncAll(db, apps)) == LiveGroups(db)
  {
  }

  /** A second reconciliation of a channel changes nothing. */
  lemma ReconcilingAgain(db: Db, app: nat)
    ensures Apply(Apply(db, SyncApp(app)), SyncApp(app)) == Apply(db, SyncApp(app))
  {
    hide Granted, LiveGroups, Sync;
    var once := Apply(db, SyncApp(app));
    SameLiveGroups(db, {app});
    if app in db.apps {
      SyncIdempotent(RowsOf(db, app), db.apps[app].owner, Granted(AssignmentsOf(db, app), LiveGroups(db)));
      assert Synced(once, app) == RowsOf(once, app);
    }
    assert Apply(once, SyncApp(app)).rows == once.rows;
  }
}
