/** Channel roles and the reconciliation of manual, automatic and group access in one channel. */
module Membership {
  import opened Common

  /** NoRole is the empty string; Unknown is any text that is not a role. */
  datatype Role = NoRole | ReadOnly | Member | Publisher | Manager | Owner | Unknown(text: string)

  function Rank(role: Role): nat {
    match role
    case Owner => 5
    case Manager => 4
    case Publisher => 3
    case Member => 2
    case ReadOnly => 1
    case _ => 0
  }

  predicate IsAssignable(role: Role) { role in {ReadOnly, Member, Publisher, Manager} }

  /** NormalizeChannelRole: "owner" and unknown texts become "member". */
  function Normalize(role: Role): (r: Role)
    ensures IsAssignable(r) && (if IsAssignable(role) then r == role else r == Member)
  {
    match role
    case ReadOnly => ReadOnly
    case Publisher => Publisher
    case Manager => Manager
    case _ => Member
  }

  /** One row of application_memberships. */
  datatype Row = Row(receive: bool, override: Option<bool>, auto: bool, role: Role,
                     groupRole: Role, groupAssigned: bool, groupReceive: bool)

  /** EffectiveChannelRole. */
  function EffectiveRole(owner: bool, row: Option<Row>): Role {
    if owner then Owner
    else if row.None? then NoRole
    else
      var m := row.value;
      var manual := if m.role != NoRole then Normalize(m.role) else NoRole;
      var withAuto := if m.auto && Rank(manual) < Rank(Member) then Member else manual;
      var best := if m.groupAssigned && Rank(m.groupRole) > Rank(withAuto) then Normalize(m.groupRole) else withAuto;
      if best == NoRole && !m.groupAssigned then Member else best
  }

  /** The ranks a row's sources of access are worth. */
  function SourceRanks(m: Row): seq<nat> {
    [if m.role == NoRole then 0 else Rank(Normalize(m.role)),
     if m.auto then Rank(Member) else 0,
     if m.groupAssigned then Rank(m.groupRole) else 0]
  }

  /** From no role at all, or an unknown text, up to the owner's. */
  lemma RanksAreInOrder(text: string)
    ensures Rank(NoRole) == Rank(Unknown(text)) < Rank(ReadOnly) < Rank(Member) < Rank(Publisher) < Rank(Manager) < Rank(Owner)
  {
  }

  /**
   * The effective role is the strongest of the manual, the automatic and the group role; a row with no
   * source at all counts as a member. Group roles are stored normalized.
   */
  lemma EffectiveRoleIsStrongest(m: Row)
    requires m.groupAssigned ==> IsAssignable(m.groupRole)
    ensures var r := EffectiveRole(false, Some(m)); IsAssignable(r)
    ensures var r := Rank(EffectiveRole(false, Some(m)));
            var sources := SourceRanks(m);
            if sources == [0, 0, 0] then r == Rank(Member)
            else r in sources && forall s :: s in sources ==> s <= r
  {
    var sources := SourceRanks(m);
    assert sources[0] in sources && sources[1] in sources && sources[2] in sources;
  }

  // ---------------------------------------------------------------------------------------------
  // What the groups grant

  /** One row of application_group_assignments. */
  datatype Assignment = Assignment(group: nat, role: Role, receive: bool)

  datatype Access = Access(role: Role, receive: bool)

  type Groups = map<nat, seq<nat>>

  function MembersOf(groups: Groups, group: nat): seq<nat> { if group in groups then groups[group] else [] }

  /** UpsertApplicationGroupAssignment stores normalized roles only. */
  predicate Normalized(assignments: seq<Assignment>) {
    forall i :: 0 <= i < |assignments| ==> IsAssignable(assignments[i].role)
  }

  function Merge(current: Access, a: Assignment): Access {
    Access(if Rank(a.role) > Rank(current.role) then Normalize(a.role) else current.role, current.receive || a.receive)
  }

  function Lookup(desired: map<nat, Access>, user: nat): Access {
    if user in desired then desired[user] else Access(NoRole, false)
  }

  /** The inner loop: every member of one group gets the assignment merged in. */
  function GrantMembers(desired: map<nat, Access>, a: Assignment, members: seq<nat>): map<nat, Access> {
    if members == [] then desired
    else
      var before := GrantMembers(desired, a, members[..|members| - 1]);
      var user := members[|members| - 1];
      before[user := Merge(Lookup(before, user), a)]
  }

  /** The outer loop: all assignments in the order of the query. */
  function Granted(assignments: seq<Assignment>, groups: Groups): map<nat, Access> {
    if assignments == [] then map[]
    else
      var a := assignments[|assignments| - 1];
      GrantMembers(Granted(assignments[..|assignments| - 1], groups), a, MembersOf(groups, a.group))
  }

  /** Does an assignment reach a user? */
  predicate Covers(a: Assignment, groups: Groups, user: nat) { user in MembersOf(groups, a.group) }

  ghost predicate Covered(assignments: seq<Assignment>, groups: Groups, user: nat) {
    exists a :: a in assignments && Covers(a, groups, user)
  }

  /** The access a user should have: the highest role and the disjunction of the receive flags. */
  ghost predicate IsAccess(assignments: seq<Assignment>, groups: Groups, user: nat, access: Access) {
    && (exists a :: a in assignments && Covers(a, groups, user) && a.role == access.role)
    && (forall a :: a in assignments && Covers(a, groups, user) ==> Rank(a.role) <= Rank(access.role))
    && (access.receive <==> exists a :: a in assignments && Covers(a, groups, user) && a.receive)
  }

  lemma {:induction false} GrantMembersEffect(desired: map<nat, Access>, a: Assignment, members: seq<nat>)
    requires IsAssignable(a.role) && forall u :: u in desired ==> IsAssignable(desired[u].role)
    ensures var r := GrantMembers(desired, a, members);
            r.Keys == desired.Keys + (set u | u in members)
            && forall u :: u in r ==> r[u] == if u in members then Merge(Lookup(desired, u), a) else desired[u]
  {
    if members == [] {
    } else {
      var n := |members| - 1;
      GrantMembersEffect(desired, a, members[..n]);
      assert members == members[..n] + [members[n]];
    }
  }

  /** The loops compute, for every user some assignment reaches and nobody else, the access they should have. */
  lemma {:induction false} GrantedIsAccess(assignments: seq<Assignment>, groups: Groups)
    requires Normalized(assignments)
    ensures forall u :: u in Granted(assignments, groups) <==> Covered(assignments, groups, u)
    ensures forall u :: u in Granted(assignments, groups) ==> IsAccess(assignments, groups, u, Granted(assignments, groups)[u])
  {
    if assignments == [] {
    } else {
      var n := |assignments| - 1;
      var before, a := assignments[..n], assignments[n];
      GrantedIsAccess(before, groups);
      assert assignments == before + [a];
      var desired := Granted(before, groups);
      forall u | u in desired ensures IsAssignable(desired[u].role) {
        assert IsAccess(before, groups, u, desired[u]);
      }
      GrantMembersEffect(desired, a, MembersOf(groups, a.group));
      var r := Granted(assignments, groups);
      forall u ensures u in r <==> Covered(assignments, groups, u) {
        if Covered(before, groups, u) { var b :| b in before && Covers(b, groups, u); assert b in assignments; }
        if Covers(a, groups, u) { assert a in assignments; }
      }
      forall u | u in r ensures IsAccess(assignments, groups, u, r[u]) { OneMoreAssignment(before, a, groups, u, desired); }
    }
  }

  lemma OneMoreAssignment(before: seq<Assignment>, a: Assignment, groups: Groups, u: nat, desired: map<nat, Access>)
    requires IsAssignable(a.role) && Normalized(before)
    requires u in desired <==> Covered(before, groups, u)
    requires u in desired ==> IsAccess(before, groups, u, desired[u])
    requires u in desired || Covers(a, groups, u)
    ensures IsAccess(before + [a], groups, u, if Covers(a, groups, u) then Merge(Lookup(desired, u), a) else desired[u])
  {
    var all := before + [a];
    assert forall b :: b in all <==> b in before || b == a;
    assert a in all;
    var old_ := Lookup(desired, u);
    if u !in desired { assert forall b :: b in before ==> !Covers(b, groups, u); }
    if u in desired {
      var w :| w in before && Covers(w, groups, u) && w.role == old_.role;
      assert w in all;
      if old_.receive { var v :| v in before && Covers(v, groups, u) && v.receive; assert v in all; }
    }
  }

  /** The same assignments, in whatever order, reach the user. */
  ghost predicate SameReach(a1: seq<Assignment>, g1: Groups, a2: seq<Assignment>, g2: Groups, user: nat) {
    && (forall a :: a in a1 <==> a in a2)
    && (forall a :: a in a1 ==> (Covers(a, g1, user) <==> Covers(a, g2, user)))
  }

  /** The access is determined by which assignments exist and whom they reach, not by any order. */
  lemma AccessUnique(a1: seq<Assignment>, g1: Groups, a2: seq<Assignment>, g2: Groups, user: nat, x: Access, y: Access)
    requires Normalized(a1) && SameReach(a1, g1, a2, g2, user)
    requires IsAccess(a1, g1, user, x) && IsAccess(a2, g2, user, y)
    ensures x == y
  {
    var v :| v in a1 && Covers(v, g1, user) && v.role == x.role;
    var w :| w in a2 && Covers(w, g2, user) && w.role == y.role;
    assert Rank(v.role) == Rank(w.role);
    assert IsAssignable(v.role) && IsAssignable(w.role);
  }

  lemma CoveredSame(a1: seq<Assignment>, g1: Groups, a2: seq<Assignment>, g2: Groups, user: nat)
    requires SameReach(a1, g1, a2, g2, user)
    ensures Covered(a1, g1, user) <==> Covered(a2, g2, user)
  {
  }

  /** Neither the order of the assignments nor that of any group's members changes what is granted. */
  lemma GrantedOrderIndependent(a1: seq<Assignment>, g1: Groups, a2: seq<Assignment>, g2: Groups)
    requires Normalized(a1) && Normalized(a2)
    requires forall u :: SameReach(a1, g1, a2, g2, u)
    ensures Granted(a1, g1) == Granted(a2, g2)
  {
    hide Granted, IsAccess, Covered, SameReach, Normalized;
    GrantedIsAccess(a1, g1);
    GrantedIsAccess(a2, g2);
    var x, y := Granted(a1, g1), Granted(a2, g2);
    forall u ensures u in x <==> u in y { CoveredSame(a1, g1, a2, g2, u); }
    forall u | u in x ensures x[u] == y[u] { AccessUnique(a1, g1, a2, g2, u, x[u], y[u]); }
    assert x == y;
  }

  // ---------------------------------------------------------------------------------------------
  // Reconciliation

  /** Has the row no source of access but a group? */
  predicate GroupOnly(row: Row, user: nat, owner: nat) { row.role == NoRole && !row.auto && user != owner }

  /** What one reconciliation does to one user's row; None is no row. */
  function SyncRow(row: Option<Row>, access: Option<Access>, user: nat, owner: nat): Option<Row> {
    match (row, access)
    case (None, None) => None
    case (None, Some(a)) => Some(Row(a.receive, None, false, NoRole, a.role, true, a.receive))
    case (Some(m), Some(a)) =>
      var receive := if m.override.Some? then m.override.value else if GroupOnly(m, user, owner) then a.receive else m.receive;
      Some(m.(groupAssigned := true, groupRole := a.role, groupReceive := a.receive, receive := receive))
    case (Some(m), None) =>
      if !m.groupAssigned then Some(m)
      else if GroupOnly(m, user, owner) then None
      else Some(m.(groupAssigned := false, groupRole := NoRole, groupReceive := false,
                   receive := if m.override.Some? then m.override.value else m.receive))
  }

  function Find<T>(m: map<nat, T>, user: nat): Option<T> { if user in m then Some(m[user]) else None }

  /** The whole table after a reconciliation. */
  function Sync(rows: map<nat, Row>, owner: nat, desired: map<nat, Access>): map<nat, Row> {
    map u | u in rows.Keys + desired.Keys && SyncRow(Find(rows, u), Find(desired, u), u, owner).Some?
      :: SyncRow(Find(rows, u), Find(desired, u), u, owner).value
  }

  // ---------------------------------------------------------------------------------------------
  // The other operations on rows

  const OWNER_ROW: Row := Row(true, None, false, NoRole, NoRole, false, false)
  const AUTO_ROW: Row := Row(true, None, true, NoRole, NoRole, false, false)

  /** UpsertApplicationMembership: a manual role, whatever the row was before. */
  function UpsertedRow(row: Option<Row>, role: Role, receive: bool): Row {
    var stored := Normalize(if role == NoRole then Member else role);
    if row.Some? then row.value.(receive := receive, role := stored, auto := false)
    else Row(receive, None, false, stored, NoRole, false, false)
  }

  /**
   * A manual role counts from then on, whatever the row was: it is the user's own role unless a group gives a stronger
   * one, it is not taken by switching auto-assign off, and what groups and the member have set stays.
   */
  lemma UpsertGrants(row: Option<Row>, role: Role, receive: bool)
    ensures var after, asked := UpsertedRow(row, role, receive), if IsAssignable(role) then role else Member;
            && after.receive == receive && !after.auto
            && (row.Some? ==> after.override == row.value.override && after.groupAssigned == row.value.groupAssigned
                              && after.groupRole == row.value.groupRole && after.groupReceive == row.value.groupReceive)
            && (row.None? ==> after.override == None && !after.groupAssigned)
            && (after.groupAssigned && Rank(after.groupRole) > Rank(asked) ==> EffectiveRole(false, Some(after)) == Normalize(after.groupRole))
            && (!after.groupAssigned || Rank(after.groupRole) <= Rank(asked) ==> EffectiveRole(false, Some(after)) == asked)
  {
  }

  /** TransferApplicationOwnership: the new owner's row can no longer be auto-assigned. */
  function OwnersRow(row: Option<Row>): Row { if row.Some? then row.value.(auto := false) else OWNER_ROW }

  /** assignApplicationToAllUsers: a row for everybody but the owner; existing rows stay. */
  function AssignToAll(rows: map<nat, Row>, users: set<nat>, owner: nat): map<nat, Row> {
    map u | u in rows.Keys + (users - {owner}) :: if u in rows then rows[u] else AUTO_ROW
  }

  /** SetApplicationAutoAssign, as far as rows are concerned. */
  function AutoAssigned(rows: map<nat, Row>, users: set<nat>, owner: nat, enabled: bool): map<nat, Row> {
    if enabled then AssignToAll(rows, users, owner) else map u | u in rows && !rows[u].auto :: rows[u]
  }

  /** Who has a row after auto-assign is switched on or off, and what rows: nobody else's row changes. */
  lemma AutoAssignIsExact(rows: map<nat, Row>, users: set<nat>, owner: nat, enabled: bool, user: nat)
    ensures var after := AutoAssigned(rows, users, owner, enabled);
            && (user in after <==> if enabled then user in rows || (user in users && user != owner) else user in rows && !rows[user].auto)
            && (user in rows && user in after ==> after[user] == rows[user])
            && (user !in rows && user in after ==> after[user].auto && after[user].receive && EffectiveRole(false, Some(after[user])) == Member)
    ensures var own := OwnersRow(Find(rows, user));
            && !own.auto && (user in rows ==> own == rows[user].(auto := false))
            && (user !in rows ==> own.receive && !own.groupAssigned && own.override == None)
  {
  }

  /** The membership table of one channel. */
  class Channel {
    var owner: nat
    var rows: map<nat, Row>

    constructor (owner: nat, rows: map<nat, Row>)
      ensures this.owner == owner && this.rows == rows
    {
      this.owner := owner;
      this.rows := rows;
    }

    /** An owned channel has a row for its owner that auto-assignment cannot take away. */
    predicate OwnerIsMember()
      reads this
    {
      owner != 0 ==> owner in rows && !rows[owner].auto
    }

    method Upsert(user: nat, role: Role, receive: bool)
      requires OwnerIsMember()
      modifies this`rows
      ensures OwnerIsMember()
      ensures rows == old(rows)[user := UpsertedRow(Find(old(rows), user), role, receive)]
    {
      var wanted := role;
      if wanted == NoRole { wanted := Member; }
      wanted := Normalize(wanted);
      if user in rows {
        rows := rows[user := rows[user].(receive := receive, role := wanted, auto := false)];
      } else {
        rows := rows[user := Row(receive, None, false, wanted, NoRole, false, false)];
      }
    }

    method TransferOwnership(newOwner: nat)
      modifies this
      ensures owner == newOwner && OwnerIsMember()
      ensures rows == old(rows)[newOwner := OwnersRow(Find(old(rows), newOwner))]
    {
      if newOwner in rows {
        rows := rows[newOwner := rows[newOwner].(auto := false)];
      } else {
        rows := rows[newOwner := OWNER_ROW];
      }
      owner := newOwner;
    }

    /** Inserts one row per user; a conflict leaves the existing row alone. */
    method AssignToAllUsers(users: set<nat>)
      requires OwnerIsMember()
      modifies this`rows
      ensures OwnerIsMember()
      ensures rows == AssignToAll(old(rows), users, owner)
    {
      var was := rows;
      var todo := users;
      while todo != {}
        invariant todo <= users
        invariant rows == AssignToAll(was, users - todo, owner)
        decreases |todo|
      {
        var user :| user in todo;
        todo := todo - {user};
        if user != owner && user !in rows { rows := rows[user := AUTO_ROW]; }
      }
      assert users - {} == users;
    }

    method SetAutoAssign(users: set<nat>, enabled: bool)
      requires OwnerIsMember()
      modifies this`rows
      ensures OwnerIsMember()
      ensures rows == AutoAssigned(old(rows), users, owner, enabled)
    {
      if enabled {
        AssignToAllUsers(users);
      } else {
        rows := map u | u in rows && !rows[u].auto :: rows[u];
      }
    }

    /** The loops that fill `desired`. */
    method Desired(assignments: seq<Assignment>, groups: Groups) returns (desired: map<nat, Access>)
      ensures desired == Granted(assignments, groups)
    {
      hide GrantMembers;
      desired := map[];
      for i := 0 to |assignments|
        invariant desired == Granted(assignments[..i], groups)
      {
        var assignment := assignments[i];
        desired := DesiredOf(desired, assignment, MembersOf(groups, assignment.group));
        assert assignments[..i + 1][..i] == assignments[..i];
      }
      assert assignments[..|assignments|] == assignments;
    }

    /** The inner loop. */
    static method DesiredOf(before: map<nat, Access>, assignment: Assignment, members: seq<nat>) returns (desired: map<nat, Access>)
      ensures desired == GrantMembers(before, assignment, members)
    {
      hide Rank, Normalize;
      desired := before;
      for j := 0 to |members|
        invariant desired == GrantMembers(before, assignment, members[..j])
      {
        var current := if members[j] in desired then desired[members[j]] else Access(NoRole, false);
        if Rank(assignment.role) > Rank(current.role) {
          current := current.(role := Normalize(assignment.role));
        }
        current := current.(receive := current.receive || assignment.receive);
        assert members[..j + 1][..j] == members[..j];
        desired := desired[members[j] := current];
      }
      assert members[..|members|] == members;
    }

    /** The body of the first loop: what becomes of one existing row; None when it is deleted. */
    method ReconcileRow(user: nat, membership: Row, access: Option<Access>) returns (r: Option<Row>)
      ensures r == SyncRow(Some(membership), access, user, owner)
    {
      var row := membership;
      if access.Some? {
        row := row.(groupAssigned := true, groupRole := access.value.role, groupReceive := access.value.receive);
        if row.override.Some? {
          row := row.(receive := row.override.value);
        } else if row.role == NoRole && !row.auto && user != owner {
          row := row.(receive := access.value.receive);
        }
        return Some(row);
      }
      if !row.groupAssigned { return Some(row); }
      row := row.(groupAssigned := false, groupRole := NoRole, groupReceive := false);
      if row.role == NoRole && !row.auto && user != owner { return None; }
      if row.override.Some? { row := row.(receive := row.override.value); }
      return Some(row);
    }

    /** The loop over the existing rows, in any order. The accesses it uses are struck off `granted`. */
    method ReconcileExisting(granted: map<nat, Access>) returns (desired: map<nat, Access>)
      modifies this`rows
      ensures desired == granted - old(rows).Keys
      ensures forall u :: Find(rows, u) == if u in old(rows) then SyncRow(Some(old(rows)[u]), Find(granted, u), u, owner) else None
    {
      hide SyncRow;
      desired := granted;
      var existing := rows;
      var todo := existing.Keys;
      while todo != {}
        invariant todo <= existing.Keys
        invariant desired == granted - (existing.Keys - todo)
        invariant forall u :: Find(rows, u) ==
                    if u in todo then Some(existing[u])
                    else if u in existing then SyncRow(Some(existing[u]), Find(granted, u), u, owner)
                    else None
        decreases |todo|
      {
        var user :| user in todo;
        todo := todo - {user};
        var row := ReconcileRow(user, existing[user], Find(desired, user));
        rows := if row.Some? then rows[user := row.value] else rows - {user};
        desired := desired - {user};
      }
    }

    /** The loop over the accesses no row has taken. */
    method CreateMissing(desired: map<nat, Access>)
      requires desired.Keys !! rows.Keys
      modifies this`rows
      ensures forall u :: Find(rows, u) == if u in desired then SyncRow(None, Some(desired[u]), u, owner) else Find(old(rows), u)
    {
      var todo := desired.Keys;
      while todo != {}
        invariant todo <= desired.Keys
        invariant forall u :: Find(rows, u) ==
                    if u in desired && u !in todo then SyncRow(None, Some(desired[u]), u, owner) else Find(old(rows), u)
        decreases |todo|
      {
        var user :| user in todo;
        todo := todo - {user};
        var access := desired[user];
        rows := rows[user := Row(access.receive, None, false, NoRole, access.role, true, access.receive)];
      }
    }

    /** SyncApplicationGroupAssignments. */
    method SyncGroupAssignments(assignments: seq<Assignment>, groups: Groups)
      modifies this`rows
      ensures rows == Sync(old(rows), owner, Granted(assignments, groups))
      ensures old(OwnerIsMember()) ==> OwnerIsMember()
    {
      hide Granted;
      var granted := Desired(assignments, groups);
      var desired := ReconcileExisting(granted);
      forall u | u in desired ensures u !in rows { assert Find(rows, u) == None; }
      CreateMissing(desired);
      forall u ensures Find(rows, u) == Find(Sync(old(rows), owner, granted), u) { }
      SameFinds(rows, Sync(old(rows), owner, granted));
    }
  }

  lemma SameFinds(a: map<nat, Row>, b: map<nat, Row>)
    requires forall u :: Find(a, u) == Find(b, u)
    ensures a == b
  {
    forall u: nat ensures u in a <==> u in b { assert Find(a, u) == Find(b, u); }
    forall u: nat | u in a ensures a[u] == b[u] { assert Find(a, u) == Find(b, u); }
  }

  /** After a reconciliation a row is group-assigned exactly when some assignment reaches its user. */
  lemma SyncAssignsExactlyTheCovered(rows: map<nat, Row>, owner: nat, assignments: seq<Assignment>, groups: Groups, user: nat)
    requires Normalized(assignments)
    ensures var after := Sync(rows, owner, Granted(assignments, groups));
            (user in after && after[user].groupAssigned) <==> Covered(assignments, groups, user)
    ensures var after := Sync(rows, owner, Granted(assignments, groups));
            Covered(assignments, groups, user) ==>
              user in after && IsAccess(assignments, groups, user, Access(after[user].groupRole, after[user].groupReceive))
  {
    hide Granted, IsAccess, Covered;
    GrantedIsAccess(assignments, groups);
    var granted := Granted(assignments, groups);
    if user in granted { assert granted[user] == Access(granted[user].role, granted[user].receive); }
  }

  /** A reconciliation never touches the manual parts of a row, and removes exactly the rows that only a lost group held. */
  lemma SyncKeepsManualAccess(rows: map<nat, Row>, owner: nat, assignments: seq<Assignment>, groups: Groups, user: nat)
    requires Normalized(assignments)
    ensures var after := Sync(rows, owner, Granted(assignments, groups));
            user in rows && user in after ==>
              after[user].role == rows[user].role && after[user].auto == rows[user].auto && after[user].override == rows[user].override
    ensures var after := Sync(rows, owner, Granted(assignments, groups));
            user in rows && user !in after <==>
              user in rows && rows[user].groupAssigned && GroupOnly(rows[user], user, owner) && !Covered(assignments, groups, user)
    ensures var after := Sync(rows, owner, Granted(assignments, groups));
            user !in rows && user in after <==> user !in rows && Covered(assignments, groups, user)
  {
    hide Granted, IsAccess, Covered;
    GrantedIsAccess(assignments, groups);
  }

  /** A member's own notification choice survives a reconciliation that touches the row. */
  lemma SyncHonoursOverride(rows: map<nat, Row>, owner: nat, desired: map<nat, Access>, user: nat)
    requires user in rows && rows[user].override.Some? && (user in desired || rows[user].groupAssigned)
    ensures var after := Sync(rows, owner, desired); user in after ==> after[user].receive == rows[user].override.value
  {
  }

  /**
   * Without a choice of the member's own, a row with manual, automatic or owner's access keeps its receive flag. Any other
   * row of a covered user receives exactly when some covering assignment does.
   */
  lemma SyncReceiveColumn(rows: map<nat, Row>, owner: nat, assignments: seq<Assignment>, groups: Groups, user: nat)
    requires Normalized(assignments)
    ensures var after := Sync(rows, owner, Granted(assignments, groups));
            user in after && after[user].override.None? ==>
              (after[user].receive <==>
                 if user in rows && (rows[user].role != NoRole || rows[user].auto || user == owner || !Covered(assignments, groups, user))
                 then rows[user].receive
                 else exists a :: a in assignments && Covers(a, groups, user) && a.receive)
  {
    hide Granted, Covered;
    GrantedIsAccess(assignments, groups);
  }

  /** Of a group that no longer covers its user a row that stays keeps no trace. */
  lemma SyncLeavesNoTrace(rows: map<nat, Row>, owner: nat, assignments: seq<Assignment>, groups: Groups, user: nat)
    requires Normalized(assignments) && user in rows && rows[user].groupAssigned && !Covered(assignments, groups, user)
    ensures var after := Sync(rows, owner, Granted(assignments, groups));
            user in after ==> !after[user].groupAssigned && after[user].groupRole == NoRole && !after[user].groupReceive
  {
    hide Granted, IsAccess, Covered;
    GrantedIsAccess(assignments, groups);
  }

  /** A row that no group has to do with stays as it is, and a new row is held by groups alone. */
  lemma SyncOtherRows(rows: map<nat, Row>, owner: nat, assignments: seq<Assignment>, groups: Groups, user: nat)
    requires Normalized(assignments)
    ensures var after := Sync(rows, owner, Granted(assignments, groups));
            user in rows && !rows[user].groupAssigned && !Covered(assignments, groups, user) ==> user in after && after[user] == rows[user]
    ensures var after := Sync(rows, owner, Granted(assignments, groups));
            user !in rows && user in after ==> after[user].role == NoRole && !after[user].auto && after[user].override == None
  {
    hide Granted, IsAccess, Covered;
    GrantedIsAccess(assignments, groups);
  }

  /** Reconciling twice is reconciling once. */
  lemma SyncIdempotent(rows: map<nat, Row>, owner: nat, desired: map<nat, Access>)
    ensures Sync(Sync(rows, owner, desired), owner, desired) == Sync(rows, owner, desired)
  {
    var once := Sync(rows, owner, desired);
    forall u ensures Find(Sync(once, owner, desired), u) == Find(once, u) {
      assert Find(once, u) == SyncRow(Find(rows, u), Find(desired, u), u, owner);
    }
    SameFinds(Sync(once, owner, desired), once);
  }

  /**
   * Storing roles normalized matters: an assignment that said "owner" outranks everything and then counts
   * as "member", so the order of the assignments would decide.
   */
  lemma OwnerAssignmentWouldDependOnOrder(user: nat)
    ensures var groups := map[1 := [user], 2 := [user]];
            var manager, owner := Assignment(1, Manager, true), Assignment(2, Owner, true);
            Lookup(Granted([manager, owner], groups), user).role == Member
            && Lookup(Granted([owner, manager], groups), user).role == Manager
  {
    var groups := map[1 := [user], 2 := [user]];
    var manager, owner := Assignment(1, Manager, true), Assignment(2, Owner, true);
    GrantedToOne(manager, owner, groups, user);
    GrantedToOne(owner, manager, groups, user);
  }

  lemma GrantOne(desired: map<nat, Access>, a: Assignment, user: nat)
    ensures GrantMembers(desired, a, [user]) == desired[user := Merge(Lookup(desired, user), a)]
  {
    assert [user][..0] == [];
  }

  lemma GrantedToOne(first: Assignment, second: Assignment, groups: Groups, user: nat)
    requires MembersOf(groups, first.group) == MembersOf(groups, second.group) == [user]
    ensures Lookup(Granted([first, second], groups), user) == Merge(Merge(Access(NoRole, false), first), second)
  {
    assert [first, second][..1] == [first] && [first][..0] == [];
    GrantOne(map[], first, user);
    assert Granted([first], groups) == GrantMembers(map[], first, [user]);
    GrantOne(Granted([first], groups), second, user);
    assert Granted([first, second], groups) == GrantMembers(Granted([first], groups), second, [user]);
  }
}
