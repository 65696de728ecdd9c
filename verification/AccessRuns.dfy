/**
 What saving assignments means for everybody else: the legacy conversion against the legacy policy,
 one save against every peer, and any run of saves against every user.
 */
module AccessRuns {
  import opened Prelude
  import opened Capabilities
  import opened AccessPolicy
  import opened AccountAccess

  /** Principal `p` is user `v`, or a team `v` effectively belongs to. */
  predicate Covers(dir: Directory, p: Principal, v: User) {
    match p
    case UserPrincipal(id) => id == v.id
    case TeamPrincipal(id) => MemberOf(dir, v.id, id)
  }

  // ----- The conversion preserves the meaning of the legacy policy -----

  /** The row the conversion makes for the group of `account`. */
  lemma TeamRow(dir: Directory, workspace: int, account: int)
    requires WellFormed(dir) && AccountExists(dir, workspace, account)
    requires LegacyGroup(dir, workspace, account).Some?
    ensures var g := LegacyGroup(dir, workspace, account).value;
      dir.groups[g].viewDashboard ==>
        LegacyRows(dir, workspace, account) == map[LegacyKey(workspace, TeamPrincipal(g), account) :=
          RoleId(workspace, if dir.groups[g].manageAccounts then MANAGER_KEY else OPERATOR_KEY)]
  {
    assert dir.accounts[account].workspace == workspace;
  }

  /** The principal is a user with a manager's membership of the group. */
  predicate IsManager(dir: Directory, p: Principal, group: int) {
    p.UserPrincipal? && exists m :: m in dir.memberships && m.user == p.id && m.group == group && m.role == Manager
  }

  /**
   The conversion's rows, one by one: the team's if the group views, as account manager if it manages as
   well and else as operator; its managers' as account manager if it only manages; and no others.
   */
  lemma LegacyRowIff(dir: Directory, workspace: int, account: int, k: AssignmentKey)
    requires WellFormed(dir) && AccountExists(dir, workspace, account)
    ensures var rows := LegacyRows(dir, workspace, account);
      && (k in rows <==>
            && k == AssignmentKey(workspace, k.principal, account, "*", Manual, "legacy-migration")
            && dir.accounts[account].group.Some?
            && var g := dir.accounts[account].group.value;
               && g in dir.groups && dir.groups[g].workspace == workspace
               && (if dir.groups[g].viewDashboard then k.principal == TeamPrincipal(g)
                   else dir.groups[g].manageAccounts && IsManager(dir, k.principal, g)))
      && (k in rows ==>
            rows[k] == RoleId(workspace,
              if dir.groups[dir.accounts[account].group.value].manageAccounts then "account_manager" else "operator"))
  {
    assert dir.accounts[account].workspace == workspace;
    if LegacyGroup(dir, workspace, account).Some? {
      TeamRow(dir, workspace, account);
    }
  }

  /** Access on an account depends on that account's rows only. */
  lemma SameRowsSameGrants(dir: Directory, before: Assignments, after: Assignments, u: User, account: int,
      c: Capability)
    requires forall k: AssignmentKey :: k.account == account && k.workspace == u.workspace ==>
      (k in before <==> k in after) && (k in before ==> before[k] == after[k])
    ensures ExplicitlyGranted(dir, before, u, account, c) <==> ExplicitlyGranted(dir, after, u, account, c)
    ensures HasRows(before, u.workspace, account) <==> HasRows(after, u.workspace, account)
  {
    forall k: AssignmentKey
      ensures RowGrants(dir, before, k, u, account, c) <==> RowGrants(dir, after, k, u, account, c)
    {
    }
    if HasRows(before, u.workspace, account) {
      var k :| k in before && k.workspace == u.workspace && k.account == account;
      assert k in after;
    }
    if HasRows(after, u.workspace, account) {
      var k :| k in after && k.workspace == u.workspace && k.account == account;
      assert k in before;
    }
  }

  /** After a conversion the account's explicit grants are those of the legacy rows. */
  lemma ConvertedIsLegacyRows(dir: Directory, rows: Assignments, u: User, account: int, c: Capability)
    requires AccountExists(dir, u.workspace, account) && !HasRows(rows, u.workspace, account)
    ensures ExplicitlyGranted(dir, Converted(dir, rows, u.workspace, account), u, account, c) <==>
      ExplicitlyGranted(dir, LegacyRows(dir, u.workspace, account), u, account, c)
    ensures HasRows(Converted(dir, rows, u.workspace, account), u.workspace, account) <==>
      HasRows(LegacyRows(dir, u.workspace, account), u.workspace, account)
  {
    SameRowsSameGrants(dir, Converted(dir, rows, u.workspace, account), LegacyRows(dir, u.workspace, account), u,
      account, c);
  }

  lemma TeamRowGrants(dir: Directory, u: User, account: int, c: Capability, g: int, role: RoleId)
    requires role in dir.roles && role.workspace == u.workspace
    ensures var rows := map[LegacyKey(u.workspace, TeamPrincipal(g), account) := role];
      ExplicitlyGranted(dir, rows, u, account, c) <==>
        c in dir.roles[role] && MemberWithRank(dir, u.id, g, RankNeeded(c))
  {
    var k := LegacyKey(u.workspace, TeamPrincipal(g), account);
    var rows := map[k := role];
    assert RowGrants(dir, rows, k, u, account, c) <==>
      c in dir.roles[role] && MemberWithRank(dir, u.id, g, RankNeeded(c));
  }

  lemma ManagerRowGrants(dir: Directory, u: User, account: int, c: Capability, g: int, role: RoleId)
    requires role in dir.roles && role.workspace == u.workspace
    ensures var rows := ManagerRows(dir.memberships, g, u.workspace, account, role);
      ExplicitlyGranted(dir, rows, u, account, c) <==>
        c in dir.roles[role] && MemberWithRank(dir, u.id, g, Rank(Manager))
  {
    var k := LegacyKey(u.workspace, UserPrincipal(u.id), account);
    var rows := ManagerRows(dir.memberships, g, u.workspace, account, role);
    assert k in rows <==> MemberWithRank(dir, u.id, g, Rank(Manager));
    if k in rows && c in dir.roles[role] {
      assert RowGrants(dir, rows, k, u, account, c);
    }
    if ExplicitlyGranted(dir, rows, u, account, c) {
      var k' :| k' in rows && RowGrants(dir, rows, k', u, account, c);
      assert k' == k;
    }
  }

  /** What the converted rows of an account grant, read off the legacy group. */
  lemma ConvertedGrants(dir: Directory, rows: Assignments, u: User, account: int, c: Capability)
    requires WellFormed(dir) && AccountExists(dir, u.workspace, account)
    requires !HasRows(rows, u.workspace, account)
    ensures ExplicitlyGranted(dir, Converted(dir, rows, u.workspace, account), u, account, c) <==>
      match LegacyGroup(dir, u.workspace, account)
      case None => false
      case Some(g) =>
        if dir.groups[g].viewDashboard then
          && c in (if dir.groups[g].manageAccounts then MANAGER_PERMISSIONS else OPERATOR_PERMISSIONS)
          && MemberWithRank(dir, u.id, g, RankNeeded(c))
        else dir.groups[g].manageAccounts && MemberWithRank(dir, u.id, g, Rank(Manager))
  {
    ConvertedIsLegacyRows(dir, rows, u, account, c);
    assert dir.accounts[account].workspace == u.workspace;
    assert c in MANAGER_PERMISSIONS by { match c case _ => }
    match LegacyGroup(dir, u.workspace, account) {
      case None =>
      case Some(g) =>
        if dir.groups[g].viewDashboard {
          TeamRowGrants(dir, u, account, c, g,
            RoleId(u.workspace, if dir.groups[g].manageAccounts then MANAGER_KEY else OPERATOR_KEY));
        } else if dir.groups[g].manageAccounts {
          ManagerRowGrants(dir, u, account, c, g, RoleId(u.workspace, MANAGER_KEY));
        }
    }
  }

  /** The capabilities that the legacy policy ties to managing accounts rather than to viewing them. */
  predicate NeedsManage(c: Capability) {
    c == AccountManage || c == BillingSync
  }

  /** What the legacy policy grants, read off the legacy group. */
  lemma LegacyGrants(dir: Directory, u: User, account: int, c: Capability)
    requires AccountExists(dir, u.workspace, account)
    ensures LegacyGranted(dir, u, account, c) <==>
      match LegacyGroup(dir, u.workspace, account)
      case None => false
      case Some(g) =>
        && !IsEds(c) && MemberWithRank(dir, u.id, g, RankNeeded(c))
        && (if NeedsManage(c) then dir.groups[g].manageAccounts else dir.groups[g].viewDashboard)
  {
    match LegacyGroup(dir, u.workspace, account) {
      case None =>
      case Some(g) =>
        forall m | m in dir.memberships && m.group == g
          ensures LegacyAllows(dir.groups[g], m.role, c) <==>
            && !IsEds(c) && Rank(m.role) >= RankNeeded(c)
            && (if NeedsManage(c) then dir.groups[g].manageAccounts else dir.groups[g].viewDashboard)
        {
          match c
          case _ =>
        }
    }
  }

  /**
   On an account without assignments, everything the legacy policy grants is still granted by the
   converted rows, and if it grants anything the conversion writes a row.
   */
  lemma ConversionKeepsAccess(dir: Directory, rows: Assignments, u: User, account: int, c: Capability)
    requires WellFormed(dir) && AccountExists(dir, u.workspace, account)
    requires !HasRows(rows, u.workspace, account)
    ensures LegacyGranted(dir, u, account, c) ==>
      && ExplicitlyGranted(dir, Converted(dir, rows, u.workspace, account), u, account, c)
      && HasRows(Converted(dir, rows, u.workspace, account), u.workspace, account)
    ensures CanAccount(dir, rows, u, account, c) ==>
      CanAccount(dir, Converted(dir, rows, u.workspace, account), u, account, c)
  {
    LegacyGrants(dir, u, account, c);
    ConvertedGrants(dir, rows, u, account, c);
    NoRowsNoGrants(dir, rows, u, account, c);
    if LegacyGranted(dir, u, account, c) {
      assert c in MANAGER_PERMISSIONS by { match c case _ => }
      assert c in OPERATOR_PERMISSIONS <==>
        c != AccountManage && c != BillingSync && c != EdsManage by { match c case _ => }
      GrantIsARow(dir, Converted(dir, rows, u.workspace, account), u, account, c);
    }
  }

  lemma NoRowsNoGrants(dir: Directory, rows: Assignments, u: User, account: int, c: Capability)
    requires !HasRows(rows, u.workspace, account)
    ensures !ExplicitlyGranted(dir, rows, u, account, c)
  {
  }

  lemma GrantIsARow(dir: Directory, rows: Assignments, u: User, account: int, c: Capability)
    requires ExplicitlyGranted(dir, rows, u, account, c)
    ensures HasRows(rows, u.workspace, account)
  {
    var k :| k in rows && RowGrants(dir, rows, k, u, account, c);
    assert k in rows && k.workspace == u.workspace && k.account == account;
  }

  /** The two policies give every user of the workspace the same capabilities, EDS ones aside. */
  ghost predicate SamePolicy(dir: Directory, before: Assignments, after: Assignments, workspace: int, account: int) {
    forall u: User, c: Capability :: IsUser(dir, u) && u.workspace == workspace && !IsEds(c) ==>
      (CanAccount(dir, before, u, account, c) <==> CanAccount(dir, after, u, account, c))
  }

  /** The legacy group manages accounts without showing them, and somebody who is no admin is its manager. */
  predicate HasBlindManager(dir: Directory, workspace: int, account: int)
    requires account in dir.accounts
  {
    match LegacyGroup(dir, workspace, account)
    case None => false
    case Some(g) =>
      && dir.groups[g].manageAccounts && !dir.groups[g].viewDashboard
      && exists m :: m in dir.memberships && m.group == g && m.role == Manager && IsOrdinary(dir, m.user)
  }

  predicate IsOrdinary(dir: Directory, id: int) {
    id in dir.users && !dir.users[id].admin
  }

  /**
   The conversion is exact on every capability outside EDS precisely when the legacy group hides the
   account from none of its managers, admins aside; in particular whenever it shows the dashboard. Such
   a manager held `account.manage` and `billing.sync` only and receives the whole manager role.
   */
  lemma ConversionIsExactIff(dir: Directory, rows: Assignments, workspace: int, account: int)
    requires WellFormed(dir) && AccountExists(dir, workspace, account)
    requires !HasRows(rows, workspace, account)
    ensures SamePolicy(dir, rows, Converted(dir, rows, workspace, account), workspace, account)
      <==> !HasBlindManager(dir, workspace, account)
  {
    var after := Converted(dir, rows, workspace, account);
    if HasBlindManager(dir, workspace, account) {
      var g := LegacyGroup(dir, workspace, account).value;
      var m :| m in dir.memberships && m.group == g && m.role == Manager && IsOrdinary(dir, m.user);
      var u := User(m.user, workspace, false);
      assert LocalMembership(dir, m) && IsUser(dir, u);
      ConvertedGrants(dir, rows, u, account, AccountView);
      LegacyGrants(dir, u, account, AccountView);
      assert MemberWithRank(dir, u.id, g, Rank(Manager));
      assert !CanAccount(dir, rows, u, account, AccountView) && CanAccount(dir, after, u, account, AccountView);
      assert !IsEds(AccountView);
    } else {
      forall u: User, c: Capability | IsUser(dir, u) && u.workspace == workspace && !IsEds(c)
        ensures CanAccount(dir, rows, u, account, c) <==> CanAccount(dir, after, u, account, c)
      {
        if !u.admin {
          SameForUser(dir, rows, u, account, c);
        }
      }
    }
  }

  lemma SameForUser(dir: Directory, rows: Assignments, u: User, account: int, c: Capability)
    requires WellFormed(dir) && AccountExists(dir, u.workspace, account) && IsUser(dir, u) && !u.admin && !IsEds(c)
    requires !HasRows(rows, u.workspace, account) && !HasBlindManager(dir, u.workspace, account)
    ensures CanAccount(dir, rows, u, account, c) <==>
      CanAccount(dir, Converted(dir, rows, u.workspace, account), u, account, c)
  {
    ConversionKeepsAccess(dir, rows, u, account, c);
    ConvertedGrants(dir, rows, u, account, c);
    LegacyGrants(dir, u, account, c);
    assert !ExplicitlyGranted(dir, rows, u, account, c);
    if LegacyGroup(dir, u.workspace, account).Some? {
      var g := LegacyGroup(dir, u.workspace, account).value;
      if dir.groups[g].manageAccounts && !dir.groups[g].viewDashboard {
        assert !MemberWithRank(dir, u.id, g, Rank(Manager));
      }
      assert c in MANAGER_PERMISSIONS by { match c case _ => }
      assert c in OPERATOR_PERMISSIONS <==> c != AccountManage && c != BillingSync by { match c case _ => }
    }
  }

  /**
   EDS capabilities are where the conversion widens access: the legacy policy grants none of them,
   the converted rows grant `eds.view` to exactly the members the rows cover.
   */
  lemma ConversionAddsEds(dir: Directory, rows: Assignments, u: User, account: int, c: Capability)
    requires WellFormed(dir) && AccountExists(dir, u.workspace, account) && !u.admin
    requires !HasRows(rows, u.workspace, account)
    ensures IsEds(c) ==> !CanAccount(dir, rows, u, account, c)
    ensures CanAccount(dir, Converted(dir, rows, u.workspace, account), u, account, EdsView) <==>
      exists k :: k in LegacyRows(dir, u.workspace, account) && Covers(dir, k.principal, u)
  {
    LegacyGrants(dir, u, account, c);
    LegacyGrants(dir, u, account, EdsView);
    NoRowsNoGrants(dir, rows, u, account, c);
    ConvertedGrants(dir, rows, u, account, EdsView);
    LegacyRowsCoverIff(dir, u, account);
  }

  /** Whom the legacy rows cover: a viewing group's members, a merely managing group's managers. */
  lemma LegacyRowsCoverIff(dir: Directory, u: User, account: int)
    requires WellFormed(dir) && AccountExists(dir, u.workspace, account)
    ensures (exists k :: k in LegacyRows(dir, u.workspace, account) && Covers(dir, k.principal, u)) <==>
      match LegacyGroup(dir, u.workspace, account)
      case None => false
      case Some(g) =>
        if dir.groups[g].viewDashboard then MemberWithRank(dir, u.id, g, 1)
        else dir.groups[g].manageAccounts && MemberWithRank(dir, u.id, g, Rank(Manager))
  {
    var legacy := LegacyRows(dir, u.workspace, account);
    assert dir.accounts[account].workspace == u.workspace;
    if LegacyGroup(dir, u.workspace, account).Some? {
      var g := LegacyGroup(dir, u.workspace, account).value;
      if dir.groups[g].viewDashboard {
        TeamRow(dir, u.workspace, account);
        var k := LegacyKey(u.workspace, TeamPrincipal(g), account);
        assert k in legacy;
        assert MemberOf(dir, u.id, g) <==> MemberWithRank(dir, u.id, g, 1);
      } else if dir.groups[g].manageAccounts {
        var k := LegacyKey(u.workspace, UserPrincipal(u.id), account);
        assert k in legacy <==> MemberWithRank(dir, u.id, g, Rank(Manager));
      }
    }
  }

  /** Somebody who is no admin is covered by the rows the conversion would write. */
  predicate CoversOrdinary(dir: Directory, workspace: int, account: int)
    requires account in dir.accounts
  {
    match LegacyGroup(dir, workspace, account)
    case None => false
    case Some(g) =>
      exists m :: m in dir.memberships && m.group == g && IsOrdinary(dir, m.user) && GetsARow(dir.groups[g], m.role)
  }

  /** A viewing group's row covers all its members; a merely managing one has a row for each manager. */
  predicate GetsARow(g: Group, role: MemberRole) {
    g.viewDashboard || (g.manageAccounts && role == Manager)
  }

  /** The two policies give every user of the workspace the same capabilities, EDS ones included. */
  ghost predicate SameAccess(dir: Directory, before: Assignments, after: Assignments, workspace: int, account: int) {
    forall u: User, c: Capability :: IsUser(dir, u) && u.workspace == workspace ==>
      (CanAccount(dir, before, u, account, c) <==> CanAccount(dir, after, u, account, c))
  }

  /**
   On every capability the conversion is exact precisely when its rows cover nobody but admins:
   whoever it covers gains `eds.view`, which the legacy policy never grants.
   */
  lemma ConversionIsExactOnEverythingIff(dir: Directory, rows: Assignments, workspace: int, account: int)
    requires WellFormed(dir) && AccountExists(dir, workspace, account)
    requires !HasRows(rows, workspace, account)
    ensures SameAccess(dir, rows, Converted(dir, rows, workspace, account), workspace, account)
      <==> !CoversOrdinary(dir, workspace, account)
  {
    var after := Converted(dir, rows, workspace, account);
    if CoversOrdinary(dir, workspace, account) {
      var u := CoveredGainsEds(dir, rows, workspace, account);
      assert CanAccount(dir, rows, u, account, EdsView) != CanAccount(dir, after, u, account, EdsView);
    } else {
      forall u: User, c: Capability | IsUser(dir, u) && u.workspace == workspace
        ensures CanAccount(dir, rows, u, account, c) <==> CanAccount(dir, after, u, account, c)
      {
        if !u.admin {
          UncoveredHasNothing(dir, rows, u, account, c);
        }
      }
    }
  }

  lemma CoveredGainsEds(dir: Directory, rows: Assignments, workspace: int, account: int) returns (u: User)
    requires WellFormed(dir) && AccountExists(dir, workspace, account)
    requires !HasRows(rows, workspace, account) && CoversOrdinary(dir, workspace, account)
    ensures IsUser(dir, u) && u.workspace == workspace
    ensures !CanAccount(dir, rows, u, account, EdsView)
    ensures CanAccount(dir, Converted(dir, rows, workspace, account), u, account, EdsView)
  {
    var g := LegacyGroup(dir, workspace, account).value;
    var m :| m in dir.memberships && m.group == g && IsOrdinary(dir, m.user) && GetsARow(dir.groups[g], m.role);
    u := User(m.user, workspace, false);
    assert LocalMembership(dir, m);
    ConversionAddsEds(dir, rows, u, account, EdsView);
    LegacyRowsCoverIff(dir, u, account);
    assert MemberWithRank(dir, u.id, g, Rank(m.role)) && MemberWithRank(dir, u.id, g, 1);
  }

  lemma UncoveredHasNothing(dir: Directory, rows: Assignments, u: User, account: int, c: Capability)
    requires WellFormed(dir) && AccountExists(dir, u.workspace, account) && IsUser(dir, u) && !u.admin
    requires !HasRows(rows, u.workspace, account) && !CoversOrdinary(dir, u.workspace, account)
    ensures !CanAccount(dir, rows, u, account, c)
    ensures !CanAccount(dir, Converted(dir, rows, u.workspace, account), u, account, c)
  {
    ConversionKeepsAccess(dir, rows, u, account, c);
    ConvertedGrants(dir, rows, u, account, c);
  }

  // ----- One save -----

  /** A save leaves every other account exactly as it was. */
  lemma OtherAccountsUntouched(dir: Directory, rows: Assignments, actor: User, input: AccessInput, v: User,
      account: int, c: Capability)
    requires account != input.account
    ensures CanAccount(dir, AfterSave(dir, rows, actor, input), v, account, c) <==> CanAccount(dir, rows, v, account, c)
    ensures forall k: AssignmentKey :: k.account == account ==>
      (k in AfterSave(dir, rows, actor, input) <==> k in rows) &&
      (k in rows ==> AfterSave(dir, rows, actor, input)[k] == rows[k])
  {
    var after := AfterSave(dir, rows, actor, input);
    forall k: AssignmentKey | k.account == account
      ensures (k in after <==> k in rows) && (k in rows ==> after[k] == rows[k])
    {
    }
    SameRowsSameGrants(dir, rows, after, v, account, c);
  }

  /** The step touched `v` on `account`: it succeeded there and its principal covers `v`. */
  predicate Targets(dir: Directory, actor: User, input: AccessInput, v: User, account: int) {
    SaveResponse(dir, actor, input).Saved? && input.account == account && Covers(dir, PrincipalOf(input), v)
  }

  /**
   A save never takes a capability from a user it does not target: not when it converts the
   account, not when it removes a row, and not when removing the last row returns the account to
   its legacy group.
   */
  lemma PeerKeepsAccess(dir: Directory, rows: Assignments, actor: User, input: AccessInput, v: User, account: int,
      c: Capability)
    requires WellFormed(dir)
    requires CanAccount(dir, rows, v, account, c) && !Targets(dir, actor, input, v, account)
    ensures CanAccount(dir, AfterSave(dir, rows, actor, input), v, account, c)
  {
    if account != input.account {
      OtherAccountsUntouched(dir, rows, actor, input, v, account, c);
    } else if SaveResponse(dir, actor, input).Saved? && !v.admin {
      var role := if Removes(input) then None else Some(RoleId(actor.workspace, input.roleKey));
      ReplacementKeepsAccess(dir, rows, v, account, c, PrincipalOf(input), role);
    }
  }

  lemma ReplacementKeepsAccess(dir: Directory, rows: Assignments, v: User, account: int, c: Capability, p: Principal,
      role: Option<RoleId>)
    requires WellFormed(dir) && CanAccount(dir, rows, v, account, c) && !v.admin && !Covers(dir, p, v)
    ensures CanAccount(dir, Replaced(Converted(dir, rows, v.workspace, account), v.workspace, p, account, role), v,
      account, c)
  {
    ConvertedGrantsStill(dir, rows, v, account, c);
    GrantSurvivesReplacement(dir, Converted(dir, rows, v.workspace, account), v, account, c, p, role);
  }

  /** What a user can do by either policy is granted by the rows a save starts from. */
  lemma ConvertedGrantsStill(dir: Directory, rows: Assignments, v: User, account: int, c: Capability)
    requires WellFormed(dir) && CanAccount(dir, rows, v, account, c) && !v.admin
    ensures ExplicitlyGranted(dir, Converted(dir, rows, v.workspace, account), v, account, c)
  {
    if ExplicitlyGranted(dir, rows, v, account, c) {
      GrantIsARow(dir, rows, v, account, c);
    } else {
      ConversionKeepsAccess(dir, rows, v, account, c);
    }
  }

  /** Replacing the row of a principal that does not cover `v` keeps every row that grants `v` something. */
  lemma GrantSurvivesReplacement(dir: Directory, rows: Assignments, v: User, account: int, c: Capability, p: Principal,
      role: Option<RoleId>)
    requires ExplicitlyGranted(dir, rows, v, account, c) && !Covers(dir, p, v)
    ensures ExplicitlyGranted(dir, Replaced(rows, v.workspace, p, account, role), v, account, c)
  {
    var after := Replaced(rows, v.workspace, p, account, role);
    var k :| k in rows && RowGrants(dir, rows, k, v, account, c);
    if k.principal.TeamPrincipal? {
      assert MemberWithRank(dir, v.id, k.principal.id, RankNeeded(c));
      assert MemberOf(dir, v.id, k.principal.id);
    }
    assert k.principal != p;
    assert k in after && RowGrants(dir, after, k, v, account, c);
  }

  /** The account has rows after the step where it had none, or the other way round: it changes policy. */
  predicate Switches(dir: Directory, rows: Assignments, actor: User, input: AccessInput, workspace: int, account: int) {
    HasRows(rows, workspace, account) != HasRows(AfterSave(dir, rows, actor, input), workspace, account)
  }

  /** A save that leaves the account under its policy gives no capability to a user it does not target. */
  lemma PeerGainsNothing(dir: Directory, rows: Assignments, actor: User, input: AccessInput, v: User, account: int,
      c: Capability)
    requires !Switches(dir, rows, actor, input, v.workspace, account) && !Targets(dir, actor, input, v, account)
    requires CanAccount(dir, AfterSave(dir, rows, actor, input), v, account, c)
    ensures CanAccount(dir, rows, v, account, c)
  {
    if account != input.account {
      OtherAccountsUntouched(dir, rows, actor, input, v, account, c);
    } else if SaveResponse(dir, actor, input).Saved? && !v.admin {
      var after := AfterSave(dir, rows, actor, input);
      if ExplicitlyGranted(dir, after, v, account, c) {
        GrantIsARow(dir, after, v, account, c);
        var role := if Removes(input) then None else Some(RoleId(actor.workspace, input.roleKey));
        GrantWasThereBefore(dir, rows, v, account, c, PrincipalOf(input), role);
      }
    }
  }

  /** A row that grants `v` something is not the one written for a principal that does not cover `v`. */
  lemma GrantWasThereBefore(dir: Directory, rows: Assignments, v: User, account: int, c: Capability, p: Principal,
      role: Option<RoleId>)
    requires ExplicitlyGranted(dir, Replaced(rows, v.workspace, p, account, role), v, account, c) && !Covers(dir, p, v)
    ensures ExplicitlyGranted(dir, rows, v, account, c)
  {
    var after := Replaced(rows, v.workspace, p, account, role);
    var k :| k in after && RowGrants(dir, after, k, v, account, c);
    if k.principal.TeamPrincipal? {
      assert MemberWithRank(dir, v.id, k.principal.id, RankNeeded(c));
      assert MemberOf(dir, v.id, k.principal.id);
    }
    assert k.principal != p;
    assert k in rows && RowGrants(dir, rows, k, v, account, c);
  }

  /** The principal of a successful save holds exactly the role it was given, and nothing manual besides. */
  lemma TargetGetsRole(dir: Directory, rows: Assignments, actor: User, input: AccessInput, k: AssignmentKey)
    requires SaveResponse(dir, actor, input).Saved?
    requires Replaceable(k, actor.workspace, PrincipalOf(input), input.account)
    ensures k in AfterSave(dir, rows, actor, input) <==> !Removes(input) && k.sourceRef == ""
    ensures k in AfterSave(dir, rows, actor, input) ==>
      AfterSave(dir, rows, actor, input)[k] == RoleId(actor.workspace, input.roleKey)
  {
  }

  /** What a request names, and whether it exists in the actor's workspace. */
  predicate NamesExisting(dir: Directory, actor: User, input: AccessInput) {
    && actor.admin && input.principalId >= 1 && input.account >= 1 && input.serviceKey in ["", "*"]
    && input.account in dir.accounts && dir.accounts[input.account].workspace == actor.workspace
    && match input.principalType
       case "user" => input.principalId in dir.users && dir.users[input.principalId].workspace == actor.workspace
       case "team" => input.principalId in dir.groups && dir.groups[input.principalId].workspace == actor.workspace
       case _ => false
  }

  /** A manual account-level row, under whatever reference, of the principal that the request names. */
  predicate IsManualRow(k: AssignmentKey, actor: User, input: AccessInput) {
    && k.workspace == actor.workspace && k.account == input.account && k.service == "*" && k.source == Manual
    && k.principal ==
      (if input.principalType == "user" then UserPrincipal(input.principalId) else TeamPrincipal(input.principalId))
  }

  /** A request takes effect exactly when an admin names what exists, and a role that exists or none. */
  lemma RefusedIff(dir: Directory, rows: Assignments, actor: User, input: AccessInput)
    ensures SaveResponse(dir, actor, input).Saved? <==>
      NamesExisting(dir, actor, input) &&
        (input.roleKey in ["", "none"] || RoleId(actor.workspace, input.roleKey) in dir.roles)
    ensures !SaveResponse(dir, actor, input).Saved? ==> AfterSave(dir, rows, actor, input) == rows
    ensures SaveResponse(dir, actor, input) == Forbidden <==> !actor.admin
    ensures SaveResponse(dir, actor, input) == InvalidRole <==>
      NamesExisting(dir, actor, input) && input.roleKey !in ["", "none"]
        && RoleId(actor.workspace, input.roleKey) !in dir.roles
  {
  }

  /** A role key other than the empty one and `none` assigns: the principal ends with that role in one manual row. */
  lemma RoleKeyAssigns(dir: Directory, rows: Assignments, actor: User, input: AccessInput, k: AssignmentKey)
    requires NamesExisting(dir, actor, input) && input.roleKey !in ["", "none"]
    requires RoleId(actor.workspace, input.roleKey) in dir.roles
    ensures SaveResponse(dir, actor, input) == Saved(false)
    ensures IsManualRow(k, actor, input) ==>
      var after := AfterSave(dir, rows, actor, input);
      (k in after <==> k.sourceRef == "") && (k in after ==> after[k] == RoleId(actor.workspace, input.roleKey))
  {
  }

  /** The empty role key and `none` remove: the principal ends without a manual row. */
  lemma NoRoleKeyRemoves(dir: Directory, rows: Assignments, actor: User, input: AccessInput, k: AssignmentKey)
    requires NamesExisting(dir, actor, input) && input.roleKey in ["", "none"]
    ensures SaveResponse(dir, actor, input) == Saved(true)
    ensures IsManualRow(k, actor, input) ==> k !in AfterSave(dir, rows, actor, input)
  {
  }

  /** Every other row that was there stays as it was. */
  lemma OtherRowsStay(dir: Directory, rows: Assignments, actor: User, input: AccessInput, k: AssignmentKey)
    requires k in rows && !IsManualRow(k, actor, input)
    ensures k in AfterSave(dir, rows, actor, input) && AfterSave(dir, rows, actor, input)[k] == rows[k]
  {
  }

  /**
   End to end: a user assigned a role directly has, right after, every capability of that role on the
   account, whatever rows and legacy access the account had before.
   */
  lemma AssignedUserHasTheRole(dir: Directory, rows: Assignments, actor: User, input: AccessInput, u: User,
      c: Capability)
    requires NamesExisting(dir, actor, input) && input.roleKey !in ["", "none"]
    requires RoleId(actor.workspace, input.roleKey) in dir.roles
    requires input.principalType == "user" && u.id == input.principalId && u.workspace == actor.workspace
    requires c in dir.roles[RoleId(actor.workspace, input.roleKey)]
    ensures CanAccount(dir, AfterSave(dir, rows, actor, input), u, input.account, c)
  {
    var k := AssignmentKey(u.workspace, UserPrincipal(u.id), input.account, "*", Manual, "");
    RoleKeyAssigns(dir, rows, actor, input, k);
    CanAccountIff(dir, AfterSave(dir, rows, actor, input), u, input.account, c);
    assert AssignsTo(dir, AfterSave(dir, rows, actor, input), k, u, input.account, c);
  }

  // ----- Runs -----

  datatype Request = Request(actor: User, input: AccessInput)

  function Run(dir: Directory, rows: Assignments, requests: seq<Request>): Assignments
    decreases |requests|
  {
    if requests == [] then rows
    else Run(dir, AfterSave(dir, rows, requests[0].actor, requests[0].input), requests[1..])
  }

  predicate Touches(dir: Directory, r: Request, v: User, account: int) {
    Targets(dir, r.actor, r.input, v, account)
  }

  lemma {:induction false} UntouchedUserKeepsAccess(dir: Directory, rows: Assignments, requests: seq<Request>, v: User,
      account: int, c: Capability)
    requires WellFormed(dir)
    requires CanAccount(dir, rows, v, account, c)
    requires forall i :: 0 <= i < |requests| ==> !Touches(dir, requests[i], v, account)
    ensures CanAccount(dir, Run(dir, rows, requests), v, account, c)
    decreases |requests|
  {
    if requests != [] {
      var r, rest := requests[0], requests[1..];
      assert !Touches(dir, r, v, account);
      PeerKeepsAccess(dir, rows, r.actor, r.input, v, account, c);
      assert forall i :: 0 <= i < |rest| ==> rest[i] == requests[i + 1];
      UntouchedUserKeepsAccess(dir, AfterSave(dir, rows, r.actor, r.input), rest, v, account, c);
    }
  }

  /**
   Over any run of saves, from any table, whoever loses a capability on an account was targeted on
   that account by some step of the run.
   */
  lemma LossNeedsATarget(dir: Directory, rows: Assignments, requests: seq<Request>, v: User, account: int,
      c: Capability)
    requires WellFormed(dir)
    requires CanAccount(dir, rows, v, account, c) && !CanAccount(dir, Run(dir, rows, requests), v, account, c)
    ensures exists i :: 0 <= i < |requests| && Touches(dir, requests[i], v, account)
  {
    if forall i :: 0 <= i < |requests| ==> !Touches(dir, requests[i], v, account) {
      UntouchedUserKeepsAccess(dir, rows, requests, v, account, c);
    }
  }

  /** Step `i` of the run targets `v`, or takes the account from its legacy group to assignments or back. */
  predicate TouchesOrSwitches(dir: Directory, rows: Assignments, requests: seq<Request>, i: nat, v: User, account: int)
    requires i < |requests|
  {
    || Touches(dir, requests[i], v, account)
    || Switches(dir, Run(dir, rows, requests[..i]), requests[i].actor, requests[i].input, v.workspace, account)
  }

  lemma {:induction false} UntouchedUserGainsNothing(dir: Directory, rows: Assignments, requests: seq<Request>, v: User,
      account: int, c: Capability)
    requires CanAccount(dir, Run(dir, rows, requests), v, account, c)
    requires forall i :: 0 <= i < |requests| ==> !TouchesOrSwitches(dir, rows, requests, i, v, account)
    ensures CanAccount(dir, rows, v, account, c)
    decreases |requests|
  {
    if requests != [] {
      var r, rest := requests[0], requests[1..];
      var after := AfterSave(dir, rows, r.actor, r.input);
      forall i | 0 <= i < |rest|
        ensures !TouchesOrSwitches(dir, after, rest, i, v, account)
      {
        assert requests[..i + 1][1..] == rest[..i];
        assert !TouchesOrSwitches(dir, rows, requests, i + 1, v, account);
      }
      UntouchedUserGainsNothing(dir, after, rest, v, account, c);
      assert requests[..0] == [] && !TouchesOrSwitches(dir, rows, requests, 0, v, account);
      PeerGainsNothing(dir, rows, r.actor, r.input, v, account, c);
    }
  }

  /**
   Over any run of saves, from any table, whoever gains a capability on an account was targeted on it
   by some step, or some step took the account from its legacy group to assignments or back.
   */
  lemma GainNeedsATargetOrASwitch(dir: Directory, rows: Assignments, requests: seq<Request>, v: User, account: int,
      c: Capability)
    requires !CanAccount(dir, rows, v, account, c) && CanAccount(dir, Run(dir, rows, requests), v, account, c)
    ensures exists i :: 0 <= i < |requests| && TouchesOrSwitches(dir, rows, requests, i, v, account)
  {
    if forall i :: 0 <= i < |requests| ==> !TouchesOrSwitches(dir, rows, requests, i, v, account) {
      UntouchedUserGainsNothing(dir, rows, requests, v, account, c);
    }
  }

  // ----- The non-monotone fallback -----

  /**
   The legacy group's access is all this principal's: there is none, or the group views and the
   principal is that team, or it manages without viewing and has no manager but the principal.
   */
  predicate OwnsTheLegacyAccess(dir: Directory, workspace: int, account: int, p: Principal)
    requires account in dir.accounts
  {
    match LegacyGroup(dir, workspace, account)
    case None => true
    case Some(g) =>
      if dir.groups[g].viewDashboard then p == TeamPrincipal(g)
      else
        dir.groups[g].manageAccounts ==>
          forall m :: m in dir.memberships && m.group == g && m.role == Manager ==> p == UserPrincipal(m.user)
  }

  lemma LegacyRowsOwnedIff(dir: Directory, workspace: int, account: int, p: Principal)
    requires WellFormed(dir) && AccountExists(dir, workspace, account)
    ensures (forall k :: k in LegacyRows(dir, workspace, account) ==> k.principal == p)
      <==> OwnsTheLegacyAccess(dir, workspace, account, p)
  {
    var rows := LegacyRows(dir, workspace, account);
    assert dir.accounts[account].workspace == workspace;
    if LegacyGroup(dir, workspace, account).Some? {
      var g := LegacyGroup(dir, workspace, account).value;
      if dir.groups[g].viewDashboard {
        TeamRow(dir, workspace, account);
        assert LegacyKey(workspace, TeamPrincipal(g), account) in rows;
      } else if dir.groups[g].manageAccounts {
        forall m | m in dir.memberships && m.group == g && m.role == Manager
          ensures LegacyKey(workspace, UserPrincipal(m.user), account) in rows
        {
        }
      }
    }
  }

  /** The converted table minus the principal's rows is the old one exactly when all legacy rows are the principal's. */
  lemma ReplacedLegacyIff(dir: Directory, rows: Assignments, workspace: int, account: int, p: Principal)
    requires AccountExists(dir, workspace, account) && !HasRows(rows, workspace, account)
    ensures Replaced(rows + LegacyRows(dir, workspace, account), workspace, p, account, None) == rows
      <==> forall k :: k in LegacyRows(dir, workspace, account) ==> k.principal == p
  {
    var legacy := LegacyRows(dir, workspace, account);
    var after := Replaced(rows + legacy, workspace, p, account, None);
    assert forall k :: k in legacy ==> k !in rows && (Replaceable(k, workspace, p, account) <==> k.principal == p);
    assert forall k :: k in rows ==> !Replaceable(k, workspace, p, account);
    if forall k :: k in legacy ==> k.principal == p {
      assert after.Keys == rows.Keys;
    } else {
      var k :| k in legacy && k.principal != p;
      assert k in after && k !in rows;
    }
  }

  /**
   Removing a principal from an account that never had assignments leaves the table, and with it
   everyone's access, as it was exactly when the legacy access is all that principal's own.
   */
  lemma RemovalIsANoOpIff(dir: Directory, rows: Assignments, actor: User, input: AccessInput)
    requires WellFormed(dir) && SaveResponse(dir, actor, input) == Saved(true)
    requires !HasRows(rows, actor.workspace, input.account)
    ensures AfterSave(dir, rows, actor, input) == rows
      <==> OwnsTheLegacyAccess(dir, actor.workspace, input.account, PrincipalOf(input))
  {
    ReplacedLegacyIff(dir, rows, actor.workspace, input.account, PrincipalOf(input));
    LegacyRowsOwnedIff(dir, actor.workspace, input.account, PrincipalOf(input));
  }

  /** Every row of the account is a manual account-level row of this principal. */
  predicate OwnsEveryRow(rows: Assignments, workspace: int, account: int, p: Principal) {
    forall k :: k in rows && k.workspace == workspace && k.account == account ==>
      k.principal == p && k.service == ALL_SERVICES && k.source == Manual
  }

  lemma ReplacedIsEmptyIff(rows: Assignments, workspace: int, account: int, p: Principal)
    ensures !HasRows(Replaced(rows, workspace, p, account, None), workspace, account)
      <==> OwnsEveryRow(rows, workspace, account, p)
  {
    var after := Replaced(rows, workspace, p, account, None);
    if HasRows(after, workspace, account) {
      var k :| k in after && k.workspace == workspace && k.account == account;
      assert k in rows;
    } else {
      assert forall k :: k in rows && !Replaceable(k, workspace, p, account) ==> k in after;
    }
  }

  /**
   A removal leaves the account under its legacy group exactly when, before it, the account had rows
   and all of them were the principal's, or it had none and the legacy access was all the principal's.
   */
  lemma RemovalReturnsToLegacyIff(dir: Directory, rows: Assignments, actor: User, input: AccessInput)
    requires WellFormed(dir) && SaveResponse(dir, actor, input) == Saved(true)
    ensures !HasRows(AfterSave(dir, rows, actor, input), actor.workspace, input.account) <==>
      if HasRows(rows, actor.workspace, input.account)
      then OwnsEveryRow(rows, actor.workspace, input.account, PrincipalOf(input))
      else OwnsTheLegacyAccess(dir, actor.workspace, input.account, PrincipalOf(input))
  {
    var workspace, account, p := actor.workspace, input.account, PrincipalOf(input);
    ReplacedIsEmptyIff(Converted(dir, rows, workspace, account), workspace, account, p);
    if !HasRows(rows, workspace, account) {
      LegacyRowsOwnedIff(dir, workspace, account, p);
      OwnsConvertedRowsIff(dir, rows, workspace, account, p);
    }
  }

  lemma OwnsConvertedRowsIff(dir: Directory, rows: Assignments, workspace: int, account: int, p: Principal)
    requires AccountExists(dir, workspace, account) && !HasRows(rows, workspace, account)
    ensures OwnsEveryRow(rows + LegacyRows(dir, workspace, account), workspace, account, p)
      <==> forall k :: k in LegacyRows(dir, workspace, account) ==> k.principal == p
  {
    var legacy := LegacyRows(dir, workspace, account);
    assert AllManual(legacy) && forall k :: k in legacy ==> k.workspace == workspace && k.account == account;
    assert forall k :: k in rows ==> !(k.workspace == workspace && k.account == account);
  }

  /** The rows that saving assignments writes: account-level and manual. */
  predicate AllManual(rows: Assignments) {
    forall k :: k in rows ==> k.service == ALL_SERVICES && k.source == Manual
  }

  lemma SaveKeepsManual(dir: Directory, rows: Assignments, actor: User, input: AccessInput)
    requires AllManual(rows)
    ensures AllManual(AfterSave(dir, rows, actor, input))
  {
  }

  lemma {:induction false} RunKeepsManual(dir: Directory, rows: Assignments, requests: seq<Request>)
    requires AllManual(rows)
    ensures AllManual(Run(dir, rows, requests))
    decreases |requests|
  {
    if requests != [] {
      SaveKeepsManual(dir, rows, requests[0].actor, requests[0].input);
      RunKeepsManual(dir, AfterSave(dir, rows, requests[0].actor, requests[0].input), requests[1..]);
    }
  }

  /**
   On every table the requests can lead to, a removal from an account with rows returns it to the
   legacy group exactly when nobody but the principal has a row there.
   */
  lemma LastPrincipalReturnsToLegacy(dir: Directory, requests: seq<Request>, actor: User, input: AccessInput)
    requires WellFormed(dir) && SaveResponse(dir, actor, input) == Saved(true)
    requires HasRows(Run(dir, map[], requests), actor.workspace, input.account)
    ensures var rows := Run(dir, map[], requests);
      !HasRows(AfterSave(dir, rows, actor, input), actor.workspace, input.account) <==>
        forall k :: k in rows && k.workspace == actor.workspace && k.account == input.account ==>
          k.principal == PrincipalOf(input)
  {
    RunKeepsManual(dir, map[], requests);
    RemovalReturnsToLegacyIff(dir, Run(dir, map[], requests), actor, input);
  }
}
