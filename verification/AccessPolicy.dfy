/**
 The policy engine: who may do what on a cloud account.

 Two models coexist. Explicit assignments decide as soon as an account has one row; an account
 without rows falls back to its legacy access group. Tables are maps keyed by what the schema makes
 unique: an assignment by workspace, principal, account, service, source type and source reference;
 a role by workspace and key.
 */
module AccessPolicy {
  import opened Prelude
  import opened Capabilities

  datatype MemberRole = Viewer | Operator | Manager
  datatype MembershipSource = ManualMembership | SsoGrant(provider: int, externalGroup: string)

  /** One row of the view that joins manual memberships and SSO grants. */
  datatype Membership = Membership(user: int, group: int, role: MemberRole, source: MembershipSource)

  datatype Group = Group(workspace: int, viewDashboard: bool, manageAccounts: bool)
  datatype Account = Account(workspace: int, group: Option<int>, provider: string)
  datatype RoleId = RoleId(workspace: int, key: string)
  datatype Principal = UserPrincipal(id: int) | TeamPrincipal(id: int)
  datatype SourceType = Manual | Sso

  datatype AssignmentKey = AssignmentKey(
    workspace: int, principal: Principal, account: int, service: string, source: SourceType, sourceRef: string)

  type Assignments = map<AssignmentKey, RoleId>

  datatype Member = Member(workspace: int, admin: bool)

  /** The tables that saving an assignment reads but never writes. */
  datatype Directory = Directory(
    users: map<int, Member>,
    groups: map<int, Group>,
    accounts: map<int, Account>,
    roles: map<RoleId, set<Capability>>,
    memberships: set<Membership>)

  datatype User = User(id: int, workspace: int, admin: bool)

  const ALL_SERVICES := "*"
  const OPERATOR_KEY := "operator"
  const MANAGER_KEY := "account_manager"

  const OPERATOR_PERMISSIONS: set<Capability> :=
    {AccountView, ComputeView, ComputeOperate, EdsView, EdsOperate, BillingView}
  const MANAGER_PERMISSIONS: set<Capability> :=
    {AccountView, AccountManage, ComputeView, ComputeOperate, EdsView, EdsOperate, EdsManage, BillingView, BillingSync}

  /** The seeded roles exist unaltered in every workspace with an account. */
  ghost predicate SeededRoles(dir: Directory) {
    forall a :: a in dir.accounts ==>
      && RoleId(dir.accounts[a].workspace, OPERATOR_KEY) in dir.roles
      && dir.roles[RoleId(dir.accounts[a].workspace, OPERATOR_KEY)] == OPERATOR_PERMISSIONS
      && RoleId(dir.accounts[a].workspace, MANAGER_KEY) in dir.roles
      && dir.roles[RoleId(dir.accounts[a].workspace, MANAGER_KEY)] == MANAGER_PERMISSIONS
  }

  ghost predicate ClosedRoles(dir: Directory) {
    forall r :: r in dir.roles ==> Closed(dir.roles[r])
  }

  predicate LocalMembership(dir: Directory, m: Membership) {
    m.user in dir.users && m.group in dir.groups && dir.groups[m.group].workspace == dir.users[m.user].workspace
  }

  /**
   What the schema, the seeds and the other handlers guarantee; `DirectoryRuns` derives it for every
   directory they can produce.
   */
  ghost predicate WellFormed(dir: Directory) {
    SeededRoles(dir) && ClosedRoles(dir) && forall m :: m in dir.memberships ==> LocalMembership(dir, m)
  }

  /** The user as the directory knows it. */
  predicate IsUser(dir: Directory, u: User) {
    u.id in dir.users && dir.users[u.id] == Member(u.workspace, u.admin)
  }

  function Rank(role: MemberRole): nat {
    match role
    case Manager => 3
    case Operator => 2
    case Viewer => 1
  }

  function RankNeeded(c: Capability): nat {
    match c
    case AccountManage => 3
    case EdsManage => 3
    case BillingSync => 3
    case ComputeOperate => 2
    case EdsOperate => 2
    case _ => 1
  }

  predicate MemberOf(dir: Directory, user: int, group: int) {
    exists m :: m in dir.memberships && m.user == user && m.group == group
  }

  predicate MemberWithRank(dir: Directory, user: int, group: int, rank: nat) {
    exists m :: m in dir.memberships && m.user == user && m.group == group && Rank(m.role) >= rank
  }

  predicate HasRows(rows: Assignments, workspace: int, account: int) {
    exists k :: k in rows && k.workspace == workspace && k.account == account
  }

  /** Row `k` gives `u` capability `c` on `account`; a membership's rank caps a team's role. */
  predicate RowGrants(dir: Directory, rows: Assignments, k: AssignmentKey, u: User, account: int, c: Capability) {
    && k in rows && k.workspace == u.workspace && k.account == account && k.service == ALL_SERVICES
    && rows[k].workspace == k.workspace && rows[k] in dir.roles && c in dir.roles[rows[k]]
    && match k.principal
       case UserPrincipal(id) => id == u.id
       case TeamPrincipal(id) => MemberWithRank(dir, u.id, id, RankNeeded(c))
  }

  predicate ExplicitlyGranted(dir: Directory, rows: Assignments, u: User, account: int, c: Capability) {
    exists k :: k in rows && RowGrants(dir, rows, k, u, account, c)
  }

  /** The legacy policy of one membership, as the single-account query spells it. */
  predicate LegacyAllows(g: Group, role: MemberRole, c: Capability) {
    || (c == AccountView && g.viewDashboard)
    || (c == ComputeView && g.viewDashboard)
    || (c == ComputeOperate && g.viewDashboard && (role == Operator || role == Manager))
    || (c == AccountManage && g.manageAccounts && role == Manager)
    || (c == BillingView && g.viewDashboard)
    || (c == BillingSync && g.manageAccounts && role == Manager)
  }

  predicate LegacyGranted(dir: Directory, u: User, account: int, c: Capability)
    requires account in dir.accounts
  {
    exists m :: m in dir.memberships && m.user == u.id && dir.accounts[account].group == Some(m.group)
      && m.group in dir.groups && dir.groups[m.group].workspace == u.workspace
      && LegacyAllows(dir.groups[m.group], m.role, c)
  }

  predicate CanAccount(dir: Directory, rows: Assignments, u: User, account: int, c: Capability) {
    && account in dir.accounts && dir.accounts[account].workspace == u.workspace
    && (|| u.admin
        || ExplicitlyGranted(dir, rows, u, account, c)
        || (!HasRows(rows, u.workspace, account) && LegacyGranted(dir, u, account, c)))
  }

  /** The legacy policy as the listing query spells it. */
  predicate LegacyLists(g: Group, role: MemberRole, c: Capability) {
    || (c in {AccountView, ComputeView, BillingView} && g.viewDashboard)
    || (c == ComputeOperate && g.viewDashboard && role in {Operator, Manager})
    || (c == AccountManage && g.manageAccounts && role == Manager)
    || (c == BillingSync && g.manageAccounts && role == Manager)
  }

  /** The listing query's condition on one account. */
  predicate Listed(dir: Directory, rows: Assignments, u: User, account: int, c: Capability)
    requires account in dir.accounts
  {
    && dir.accounts[account].workspace == u.workspace
    && (|| u.admin
        || (exists k :: k in rows && k.workspace == u.workspace && k.account == account && k.service == ALL_SERVICES
              && rows[k] in dir.roles && rows[k].workspace == k.workspace && c in dir.roles[rows[k]]
              && (|| k.principal == UserPrincipal(u.id)
                  || (exists m :: m in dir.memberships && k.principal == TeamPrincipal(m.group) && m.user == u.id
                        && Rank(m.role) >= RankNeeded(c))))
        || (&& !(exists k :: k in rows && k.workspace == u.workspace && k.account == account)
            && (exists m :: m in dir.memberships && m.user == u.id && dir.accounts[account].group == Some(m.group)
                  && m.group in dir.groups && dir.groups[m.group].workspace == u.workspace
                  && LegacyLists(dir.groups[m.group], m.role, c))))
  }

  lemma ListingAgreesWithPointCheck(dir: Directory, rows: Assignments, u: User, account: int, c: Capability)
    requires account in dir.accounts
    ensures Listed(dir, rows, u, account, c) <==> CanAccount(dir, rows, u, account, c)
  {
    forall k | k in rows
      ensures RowGrants(dir, rows, k, u, account, c) <==>
        (&& k.workspace == u.workspace && k.account == account && k.service == ALL_SERVICES
         && rows[k] in dir.roles && rows[k].workspace == k.workspace && c in dir.roles[rows[k]]
         && (|| k.principal == UserPrincipal(u.id)
             || (exists m :: m in dir.memberships && k.principal == TeamPrincipal(m.group) && m.user == u.id
                   && Rank(m.role) >= RankNeeded(c))))
    {
    }
    forall m | m in dir.memberships && m.group in dir.groups
      ensures LegacyAllows(dir.groups[m.group], m.role, c) <==> LegacyLists(dir.groups[m.group], m.role, c)
    {
    }
  }

  /** Membership roles high enough for a capability, by name. */
  predicate IsHighEnough(role: MemberRole, c: Capability) {
    && (c in {AccountManage, EdsManage, BillingSync} ==> role == Manager)
    && (c in {ComputeOperate, EdsOperate} ==> role != Viewer)
  }

  /** A membership of the team in a role high enough for `c`. */
  predicate IsHighIn(dir: Directory, u: User, group: int, c: Capability) {
    exists m :: m in dir.memberships && m.user == u.id && m.group == group && IsHighEnough(m.role, c)
  }

  /** An account-level assignment of a role with `c`, to the user or to a team where the user is high enough. */
  predicate AssignsTo(dir: Directory, rows: Assignments, k: AssignmentKey, u: User, account: int, c: Capability) {
    && k in rows && k.workspace == u.workspace && k.account == account && k.service == "*"
    && rows[k].workspace == u.workspace && rows[k] in dir.roles && c in dir.roles[rows[k]]
    && (|| k.principal == UserPrincipal(u.id)
        || (k.principal.TeamPrincipal? && IsHighIn(dir, u, k.principal.id, c)))
  }

  /** What a member of an account's legacy group may do there, by the group's two switches. */
  function LegacyCapabilities(g: Group, role: MemberRole): set<Capability> {
    (if g.viewDashboard then {AccountView, ComputeView, BillingView} else {})
    + (if g.viewDashboard && role != Viewer then {ComputeOperate} else {})
    + (if g.manageAccounts && role == Manager then {AccountManage, BillingSync} else {})
  }

  /** A membership in the account's own group gives `c`. */
  predicate LegacyGives(dir: Directory, m: Membership, u: User, account: int, c: Capability)
    requires account in dir.accounts
  {
    && m in dir.memberships && m.user == u.id && dir.accounts[account].group == Some(m.group)
    && m.group in dir.groups && dir.groups[m.group].workspace == u.workspace
    && c in LegacyCapabilities(dir.groups[m.group], m.role)
  }

  lemma RowGrantsIff(dir: Directory, rows: Assignments, k: AssignmentKey, u: User, account: int, c: Capability)
    ensures RowGrants(dir, rows, k, u, account, c) <==> AssignsTo(dir, rows, k, u, account, c)
  {
    forall m: Membership ensures Rank(m.role) >= RankNeeded(c) <==> IsHighEnough(m.role, c) {
      match c
      case _ =>
    }
  }

  lemma LegacyGrantedIff(dir: Directory, u: User, account: int, c: Capability)
    requires account in dir.accounts
    ensures LegacyGranted(dir, u, account, c) <==> exists m :: LegacyGives(dir, m, u, account, c)
  {
    forall m: Membership | m.group in dir.groups
      ensures LegacyAllows(dir.groups[m.group], m.role, c) <==> c in LegacyCapabilities(dir.groups[m.group], m.role)
    {
    }
    if LegacyGranted(dir, u, account, c) {
      var m :| m in dir.memberships && m.user == u.id && dir.accounts[account].group == Some(m.group)
        && m.group in dir.groups && dir.groups[m.group].workspace == u.workspace
        && LegacyAllows(dir.groups[m.group], m.role, c);
      assert LegacyGives(dir, m, u, account, c);
    }
    if m :| LegacyGives(dir, m, u, account, c) {
      assert LegacyAllows(dir.groups[m.group], m.role, c);
    }
  }

  /**
   The whole decision, spelt out. On an account of the user's workspace an admin may do everything;
   others need an assignment that gives the capability, through a team only as far as their role in it
   goes: managing needs a manager, operating an operator or manager. Without any assignment the legacy
   group decides by its switches.
   */
  lemma CanAccountIff(dir: Directory, rows: Assignments, u: User, account: int, c: Capability)
    ensures CanAccount(dir, rows, u, account, c) <==>
      && account in dir.accounts && dir.accounts[account].workspace == u.workspace
      && (|| u.admin
          || (exists k :: AssignsTo(dir, rows, k, u, account, c))
          || ((forall k :: k in rows ==> !(k.workspace == u.workspace && k.account == account))
              && exists m :: LegacyGives(dir, m, u, account, c)))
  {
    forall k ensures RowGrants(dir, rows, k, u, account, c) <==> AssignsTo(dir, rows, k, u, account, c) {
      RowGrantsIff(dir, rows, k, u, account, c);
    }
    if account in dir.accounts {
      LegacyGrantedIff(dir, u, account, c);
    }
    assert HasRows(rows, u.workspace, account) <==>
      !(forall k :: k in rows ==> !(k.workspace == u.workspace && k.account == account));
    assert ExplicitlyGranted(dir, rows, u, account, c) <==> exists k :: AssignsTo(dir, rows, k, u, account, c);
  }

  /** With one assignment on the account, a team's, an ordinary user's capabilities are the role's as far as they go. */
  lemma SoleTeamAssignment(dir: Directory, rows: Assignments, k: AssignmentKey, u: User, c: Capability)
    requires AssignmentOf(rows, k, u) && rows[k] in dir.roles && k.principal.TeamPrincipal? && !u.admin
    requires k.account in dir.accounts && dir.accounts[k.account].workspace == u.workspace
    requires forall j :: j in rows && j.workspace == k.workspace && j.account == k.account ==> j == k
    ensures CanAccount(dir, rows, u, k.account, c) <==>
      c in dir.roles[rows[k]] && IsHighIn(dir, u, k.principal.id, c)
  {
    CanAccountIff(dir, rows, u, k.account, c);
    assert AssignsTo(dir, rows, k, u, k.account, c) <==>
      c in dir.roles[rows[k]] && IsHighIn(dir, u, k.principal.id, c);
  }

  predicate AssignmentOf(rows: Assignments, k: AssignmentKey, u: User) {
    k in rows && k.workspace == u.workspace && rows[k].workspace == u.workspace && k.service == "*"
  }

  /** Lists the accounts of the workspace on which `u` has `c`, ordered by id. */
  method AccessibleAccountIDs(dir: Directory, rows: Assignments, u: User, c: Capability) returns (ids: seq<int>)
    ensures StrictlyAscending(ids)
    ensures forall id :: id in ids <==> CanAccount(dir, rows, u, id, c)
  {
    ids := [];
    var remaining := dir.accounts.Keys;
    while remaining != {}
      invariant remaining <= dir.accounts.Keys
      invariant StrictlyAscending(ids)
      invariant forall id, r :: id in ids && r in remaining ==> id < r
      invariant forall id :: id in ids <==> id in dir.accounts && id !in remaining && CanAccount(dir, rows, u, id, c)
      decreases remaining
    {
      ghost var least := LeastElement(remaining);
      var next :| next in remaining && forall x :: x in remaining ==> next <= x;
      ListingAgreesWithPointCheck(dir, rows, u, next, c);
      forall i | 0 <= i < |ids| ensures ids[i] < next {
        assert ids[i] in ids;
      }
      remaining := remaining - {next};
      if Listed(dir, rows, u, next, c) {
        ids := ids + [next];
      }
    }
  }

  /** A strictly ascending list is determined by its elements, so the listing is unique. */
  lemma {:induction false} AscendingListIsUnique(a: seq<int>, b: seq<int>)
    requires StrictlyAscending(a) && StrictlyAscending(b)
    requires forall x :: x in a <==> x in b
    ensures a == b
  {
    assert Elements(a) == Elements(b);
    ElementsEmpty(a);
    ElementsEmpty(b);
    if a == [] {
    } else {
      assert a[0] in a && b[0] in b;
      assert a[0] in b && b[0] in a;
      assert a[0] == b[0];
      forall x ensures x in a[1..] <==> x in b[1..] {
        if x in a[1..] { assert x in a && x != a[0]; }
        if x in b[1..] { assert x in b && x != b[0]; }
      }
      AscendingListIsUnique(a[1..], b[1..]);
      assert a == [a[0]] + a[1..] && b == [b[0]] + b[1..];
    }
  }

  /** A prerequisite never needs a higher membership rank than what it is a prerequisite of. */
  lemma CapKeepsClosure(c: Capability, p: Capability)
    requires p in Prerequisites(c)
    ensures RankNeeded(p) <= RankNeeded(c)
  {
    match c
    case _ =>
  }

  ghost function EffectiveCapabilities(dir: Directory, rows: Assignments, u: User, account: int): set<Capability> {
    set c: Capability | CanAccount(dir, rows, u, account, c)
  }

  /**
   On an account with explicit assignments, what a user can do is prerequisite-closed, whatever the
   mix of direct and team rows, memberships and roles.
   */
  lemma ExplicitAccessIsClosed(dir: Directory, rows: Assignments, u: User, account: int)
    requires WellFormed(dir)
    requires HasRows(rows, u.workspace, account)
    ensures Closed(EffectiveCapabilities(dir, rows, u, account))
  {
    forall c, p | CanAccount(dir, rows, u, account, c) && p in Prerequisites(c)
      ensures CanAccount(dir, rows, u, account, p)
    {
      if !u.admin {
        var k :| k in rows && RowGrants(dir, rows, k, u, account, c);
        assert Closed(dir.roles[rows[k]]);
        CapKeepsClosure(c, p);
        if k.principal.TeamPrincipal? {
          assert MemberWithRank(dir, u.id, k.principal.id, RankNeeded(c));
          var m :| m in dir.memberships && m.user == u.id && m.group == k.principal.id && Rank(m.role) >= RankNeeded(c);
          assert MemberWithRank(dir, u.id, k.principal.id, RankNeeded(p));
        }
        assert RowGrants(dir, rows, k, u, account, p);
      }
    }
  }

  /** The legacy group lets managers manage an account it does not let them see. */
  predicate ManagesWithoutView(dir: Directory, u: User, account: int)
    requires account in dir.accounts
  {
    && dir.accounts[account].group.Some?
    && var g := dir.accounts[account].group.value;
       && g in dir.groups && dir.groups[g].workspace == u.workspace
       && dir.groups[g].manageAccounts && !dir.groups[g].viewDashboard
       && MemberWithRank(dir, u.id, g, Rank(Manager))
  }

  /** On an account without assignments the closure holds exactly when that combination is absent. */
  lemma LegacyAccessIsClosedIff(dir: Directory, rows: Assignments, u: User, account: int)
    requires account in dir.accounts && dir.accounts[account].workspace == u.workspace
    requires !u.admin && !HasRows(rows, u.workspace, account)
    ensures Closed(EffectiveCapabilities(dir, rows, u, account)) <==> !ManagesWithoutView(dir, u, account)
  {
    assert forall c :: !ExplicitlyGranted(dir, rows, u, account, c);
    if ManagesWithoutView(dir, u, account) {
      var g := dir.accounts[account].group.value;
      var m :| m in dir.memberships && m.user == u.id && m.group == g && Rank(m.role) >= 3;
      assert LegacyAllows(dir.groups[m.group], m.role, AccountManage);
      assert AccountManage in EffectiveCapabilities(dir, rows, u, account);
      assert AccountView in Prerequisites(AccountManage);
      assert AccountView !in EffectiveCapabilities(dir, rows, u, account);
    } else {
      forall c, p | LegacyGranted(dir, u, account, c) && p in Prerequisites(c)
        ensures LegacyGranted(dir, u, account, p)
      {
        var m :| m in dir.memberships && m.user == u.id && dir.accounts[account].group == Some(m.group)
          && m.group in dir.groups && dir.groups[m.group].workspace == u.workspace
          && LegacyAllows(dir.groups[m.group], m.role, c);
        assert c == AccountManage ==> MemberWithRank(dir, u.id, m.group, Rank(Manager));
        assert LegacyAllows(dir.groups[m.group], m.role, p);
      }
    }
  }
}
