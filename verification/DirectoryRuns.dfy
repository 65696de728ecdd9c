/**
 Where roles, members, groups and assignments come from: the seeded roles of a new workspace, the
 saving and deleting of custom roles, the saving of assignments and the other writes, over any run.
 Every directory they lead to is well formed, so every role is prerequisite-closed because of how it
 was stored, and every assignment refers to what exists.
 */
module DirectoryRuns {
  import opened Prelude
  import opened Capabilities
  import opened AccessPolicy
  import opened AccountAccess

  /** A stored role: its permission list and whether it was seeded. */
  datatype StoredRole = StoredRole(permissions: seq<string>, builtIn: bool)

  datatype Tables = Tables(
    workspaces: set<int>,
    roles: map<RoleId, StoredRole>,
    users: map<int, Member>,
    groups: map<int, Group>,
    accounts: map<int, Account>,
    memberships: set<Membership>,
    assignments: Assignments)

  const EMPTY := Tables({}, map[], map[], map[], map[], {}, map[])

  const VIEWER_KEY := "viewer"
  const VIEWER_SEED := [AccountView, ComputeView, EdsView, BillingView]
  const OPERATOR_SEED := [AccountView, ComputeView, ComputeOperate, EdsView, EdsOperate, BillingView]
  const MANAGER_SEED := [
    AccountView, AccountManage, ComputeView, ComputeOperate, EdsView, EdsOperate, EdsManage, BillingView, BillingSync]

  /** The capabilities in a stored list, as the policy queries test for them. */
  function Contained(permissions: seq<string>): set<Capability> {
    set c: Capability | Name(c) in permissions
  }

  function Seed(cs: seq<Capability>): StoredRole {
    StoredRole(Names(cs), true)
  }

  /** The roles of a new workspace, keyed by name. */
  function SeedsByKey(): map<string, StoredRole> {
    map[VIEWER_KEY := Seed(VIEWER_SEED), OPERATOR_KEY := Seed(OPERATOR_SEED), MANAGER_KEY := Seed(MANAGER_SEED)]
  }

  function Seeds(workspace: int): map<RoleId, StoredRole> {
    InWorkspace(workspace, SeedsByKey())
  }

  function InWorkspace(workspace: int, roles: map<string, StoredRole>): map<RoleId, StoredRole> {
    map key | key in roles :: RoleId(workspace, key) := roles[key]
  }

  function PermissionSets(roles: map<RoleId, StoredRole>): map<RoleId, set<Capability>> {
    map r | r in roles :: Contained(roles[r].permissions)
  }

  /** What the policy engine reads. */
  function DirectoryOf(t: Tables): Directory {
    Directory(t.users, t.groups, t.accounts, PermissionSets(t.roles), t.memberships)
  }

  /** The body of a request to save a role; `valid` says whether key, name and description are. */
  datatype RoleInput = RoleInput(key: string, permissions: seq<string>, valid: bool)

  /** Whether the role is saved: created under a new key, or updated where it is a custom one. */
  predicate CanSaveRole(roles: map<RoleId, StoredRole>, id: RoleId, input: RoleInput, create: bool,
      normalize: string -> string) {
    && input.valid && RolePermissions(input.permissions, normalize).Some?
    && (if create then id !in roles else id in roles && !roles[id].builtIn)
  }

  function RoleSaved(roles: map<RoleId, StoredRole>, workspace: int, input: RoleInput, create: bool,
      normalize: string -> string)
    : map<RoleId, StoredRole>
  {
    var id := RoleId(workspace, input.key);
    if CanSaveRole(roles, id, input, create, normalize)
    then roles[id := StoredRole(RolePermissions(input.permissions, normalize).value, false)]
    else roles
  }

  /** Some assignment gives somebody this role. */
  predicate InUse(rows: Assignments, id: RoleId) {
    exists k :: k in rows && rows[k] == id
  }

  function RoleDeleted(roles: map<RoleId, StoredRole>, id: RoleId, rows: Assignments): map<RoleId, StoredRole> {
    if id in roles && !roles[id].builtIn && !InUse(rows, id) then roles - {id} else roles
  }

  class RoleStore {
    var roles: map<RoleId, StoredRole>

    constructor ()
      ensures roles == map[]
    {
      roles := map[];
    }

    /** Saves a custom role with its permissions completed; a built-in one is never touched. */
    method SaveAccessRole(workspace: int, input: RoleInput, create: bool, normalize: string -> string)
      returns (ok: bool)
      modifies this
      ensures ok == CanSaveRole(old(roles), RoleId(workspace, input.key), input, create, normalize)
      ensures roles == RoleSaved(old(roles), workspace, input, create, normalize)
    {
      var permissions, valid := ValidRolePermissions(input.permissions, normalize);
      if !input.valid || !valid {
        return false;
      }
      var id := RoleId(workspace, input.key);
      if create {
        if id in roles {
          return false;
        }
      } else if id !in roles || roles[id].builtIn {
        return false;
      }
      roles := roles[id := StoredRole(permissions, false)];
      ok := true;
    }

    /** Deletes a custom role unless the count of assignments with it is positive. */
    method DeleteAccessRole(id: RoleId, rows: Assignments) returns (ok: bool)
      modifies this
      ensures roles == RoleDeleted(old(roles), id, rows)
      ensures ok == (id in old(roles) && id !in roles)
    {
      if id !in roles || roles[id].builtIn {
        return false;
      }
      var using := set k | k in rows && rows[k] == id;
      assert using == {} <==> !InUse(rows, id) by {
        assert forall k :: k in using <==> k in rows && rows[k] == id;
      }
      if |using| > 0 {
        return false;
      }
      roles := roles - {id};
      ok := true;
    }
  }

  // ----- Runs -----

  datatype Op =
    | NewWorkspace(id: int)
    | SaveRole(workspace: int, input: RoleInput, create: bool)
    | DeleteRole(role: RoleId)
    | SaveAccess(actor: User, access: AccessInput)
    | SaveUser(id: int, member: Member)
    | DeleteUser(id: int)
    | SaveGroup(id: int, group: Group)
    | DeleteGroup(id: int)
    | SaveAccount(id: int, account: Account)
    | DeleteAccount(id: int)
    | SetMemberships(memberships: set<Membership>)

  predicate AllLocal(users: map<int, Member>, groups: map<int, Group>, memberships: set<Membership>) {
    forall m :: m in memberships ==>
      m.user in users && m.group in groups && groups[m.group].workspace == users[m.user].workspace
  }

  /** Deleting a user or a team deletes its assignments. */
  function WithoutPrincipal(rows: Assignments, p: Principal): Assignments {
    map k | k in rows && k.principal != p :: rows[k]
  }

  /** One write; what the schema or a handler refuses leaves the tables alone. */
  function Step(t: Tables, op: Op, normalize: string -> string): Tables {
    match op
    case NewWorkspace(id) =>
      if id in t.workspaces then t else t.(workspaces := t.workspaces + {id}, roles := Seeds(id) + t.roles)
    case SaveRole(workspace, input, create) =>
      if workspace in t.workspaces then t.(roles := RoleSaved(t.roles, workspace, input, create, normalize)) else t
    case DeleteRole(role) => t.(roles := RoleDeleted(t.roles, role, t.assignments))
    case SaveAccess(actor, access) => t.(assignments := AfterSave(DirectoryOf(t), t.assignments, actor, access))
    case SaveUser(id, member) =>
      if member.workspace in t.workspaces && (id in t.users ==> t.users[id].workspace == member.workspace)
      then t.(users := t.users[id := member]) else t
    case DeleteUser(id) =>
      t.(users := t.users - {id},
         memberships := (set m | m in t.memberships && m.user != id),
         assignments := WithoutPrincipal(t.assignments, UserPrincipal(id)))
    case SaveGroup(id, group) =>
      if group.workspace in t.workspaces && (id in t.groups ==> t.groups[id].workspace == group.workspace)
      then t.(groups := t.groups[id := group]) else t
    case DeleteGroup(id) =>
      t.(groups := t.groups - {id},
         memberships := (set m | m in t.memberships && m.group != id),
         assignments := WithoutPrincipal(t.assignments, TeamPrincipal(id)))
    case SaveAccount(id, account) =>
      if account.workspace in t.workspaces && (id in t.accounts ==> t.accounts[id].workspace == account.workspace)
      then t.(accounts := t.accounts[id := account]) else t
    case DeleteAccount(id) =>
      t.(accounts := t.accounts - {id},
         assignments := (map k | k in t.assignments && k.account != id :: t.assignments[k]))
    case SetMemberships(memberships) =>
      if AllLocal(t.users, t.groups, memberships) then t.(memberships := memberships) else t
  }

  function Run(t: Tables, ops: seq<Op>, normalize: string -> string): Tables
    decreases |ops|
  {
    if ops == [] then t else Run(Step(t, ops[0], normalize), ops[1..], normalize)
  }

  /** Users, teams and accounts are saved into existing workspaces, and never move to another. */
  lemma SavedIntoTheirWorkspace(t: Tables, id: int, member: Member, group: Group, a: Account,
      normalize: string -> string)
    ensures (id in t.users ==> t.users[id].workspace == member.workspace) && member.workspace in t.workspaces ==>
      Step(t, SaveUser(id, member), normalize) == t.(users := t.users[id := member])
    ensures (id in t.groups ==> t.groups[id].workspace == group.workspace) && group.workspace in t.workspaces ==>
      Step(t, SaveGroup(id, group), normalize) == t.(groups := t.groups[id := group])
    ensures (id in t.accounts ==> t.accounts[id].workspace == a.workspace) && a.workspace in t.workspaces ==>
      Step(t, SaveAccount(id, a), normalize) == t.(accounts := t.accounts[id := a])
    ensures id in t.users && t.users[id].workspace != member.workspace ==>
      Step(t, SaveUser(id, member), normalize) == t
  {
  }

  // ----- The invariant -----

  predicate HasSeeds(roles: map<RoleId, StoredRole>, workspace: int) {
    && RoleId(workspace, OPERATOR_KEY) in roles && roles[RoleId(workspace, OPERATOR_KEY)] == Seed(OPERATOR_SEED)
    && RoleId(workspace, MANAGER_KEY) in roles && roles[RoleId(workspace, MANAGER_KEY)] == Seed(MANAGER_SEED)
  }

  /** The list was stored with everything it presupposes. */
  predicate StoredClosed(role: StoredRole) {
    Closed(Contained(role.permissions))
  }

  ghost predicate RolesInv(workspaces: set<int>, roles: map<RoleId, StoredRole>) {
    && (forall r :: r in roles ==> r.workspace in workspaces && StoredClosed(roles[r]))
    && (forall w :: w in workspaces ==> HasSeeds(roles, w))
  }

  ghost predicate Inv(t: Tables) {
    && RolesInv(t.workspaces, t.roles)
    && (forall a :: a in t.accounts ==> t.accounts[a].workspace in t.workspaces)
    && AllLocal(t.users, t.groups, t.memberships)
    && RowsValid(DirectoryOf(t), t.assignments)
  }

  lemma NamesAreDistinct(a: Capability, b: Capability)
    requires Name(a) == Name(b)
    ensures a == b
  {
    ParseOfName(a);
    ParseOfName(b);
  }

  lemma ContainedInNames(cs: seq<Capability>)
    ensures Contained(Names(cs)) == Elements(cs)
  {
    forall c ensures c in Contained(Names(cs)) <==> c in cs {
      if Name(c) in Names(cs) {
        var i :| 0 <= i < |cs| && Names(cs)[i] == Name(c);
        NamesAreDistinct(c, cs[i]);
      }
      if c in cs {
        var i :| 0 <= i < |cs| && cs[i] == c;
        assert Names(cs)[i] == Name(c);
      }
    }
  }

  /** What validation stores is prerequisite-closed as the policy reads it. */
  lemma ValidatedIsClosed(values: seq<string>, normalize: string -> string, builtIn: bool)
    requires RolePermissions(values, normalize).Some?
    ensures StoredClosed(StoredRole(RolePermissions(values, normalize).value, builtIn))
  {
    StoredPermissionsAreLeastClosure(values, normalize);
    var cs: seq<Capability> :| RolePermissions(values, normalize).value == Names(cs) && Closed(Elements(cs));
    ContainedInNames(cs);
  }

  lemma ClosedSeed(cs: seq<Capability>)
    requires Closed(Elements(cs))
    ensures StoredClosed(Seed(cs)) && Contained(Seed(cs).permissions) == Elements(cs)
  {
    ContainedInNames(cs);
  }

  lemma ViewerSeed()
    ensures StoredClosed(Seed(VIEWER_SEED))
    ensures Contained(Seed(VIEWER_SEED).permissions) == {AccountView, ComputeView, EdsView, BillingView}
  {
    assert Elements(VIEWER_SEED) == {AccountView, ComputeView, EdsView, BillingView};
    ClosedSeed(VIEWER_SEED);
  }

  lemma OperatorSeed()
    ensures StoredClosed(Seed(OPERATOR_SEED)) && Contained(Seed(OPERATOR_SEED).permissions) == OPERATOR_PERMISSIONS
  {
    assert Elements(OPERATOR_SEED) == OPERATOR_PERMISSIONS;
    ClosedSeed(OPERATOR_SEED);
  }

  lemma ManagerSeed()
    ensures StoredClosed(Seed(MANAGER_SEED)) && Contained(Seed(MANAGER_SEED).permissions) == MANAGER_PERMISSIONS
  {
    assert Elements(MANAGER_SEED) == MANAGER_PERMISSIONS;
    ClosedSeed(MANAGER_SEED);
  }

  lemma SeedKeysDiffer()
    ensures VIEWER_KEY != OPERATOR_KEY && OPERATOR_KEY != MANAGER_KEY && VIEWER_KEY != MANAGER_KEY
  {
    assert VIEWER_KEY[0] == 'v' && OPERATOR_KEY[0] == 'o' && MANAGER_KEY[0] == 'a';
  }

  lemma ThreeKeys<V>(k1: string, v1: V, k2: string, v2: V, k3: string, v3: V)
    requires k1 != k2 && k2 != k3 && k1 != k3
    ensures var m := map[k1 := v1, k2 := v2, k3 := v3];
      k1 in m && m[k1] == v1 && k2 in m && m[k2] == v2 && k3 in m && m[k3] == v3 && m.Keys == {k1, k2, k3}
  {
  }

  lemma SeedsByKeyAre()
    ensures var m := SeedsByKey();
      && VIEWER_KEY in m && m[VIEWER_KEY] == Seed(VIEWER_SEED)
      && OPERATOR_KEY in m && m[OPERATOR_KEY] == Seed(OPERATOR_SEED)
      && MANAGER_KEY in m && m[MANAGER_KEY] == Seed(MANAGER_SEED)
      && m.Keys == {VIEWER_KEY, OPERATOR_KEY, MANAGER_KEY}
  {
    SeedKeysDiffer();
    ThreeKeys(VIEWER_KEY, Seed(VIEWER_SEED), OPERATOR_KEY, Seed(OPERATOR_SEED), MANAGER_KEY, Seed(MANAGER_SEED));
  }

  lemma PlacedRoles(workspace: int, roles: map<string, StoredRole>)
    requires OPERATOR_KEY in roles && roles[OPERATOR_KEY] == Seed(OPERATOR_SEED)
    requires MANAGER_KEY in roles && roles[MANAGER_KEY] == Seed(MANAGER_SEED)
    requires forall key :: key in roles ==> StoredClosed(roles[key])
    ensures var placed := InWorkspace(workspace, roles);
      HasSeeds(placed, workspace) && forall r :: r in placed ==> r.workspace == workspace && StoredClosed(placed[r])
  {
  }

  lemma PlacedKeys(workspace: int, roles: map<string, StoredRole>, a: string, b: string, c: string)
    requires roles.Keys == {a, b, c}
    ensures var placed := InWorkspace(workspace, roles);
      && placed.Keys == {RoleId(workspace, a), RoleId(workspace, b), RoleId(workspace, c)}
      && placed[RoleId(workspace, a)] == roles[a]
  {
  }

  /** A new workspace gets viewer, operator and account manager, no other role, and all of them closed. */
  lemma SeedsOf(workspace: int)
    ensures HasSeeds(Seeds(workspace), workspace)
    ensures Seeds(workspace).Keys ==
      {RoleId(workspace, VIEWER_KEY), RoleId(workspace, OPERATOR_KEY), RoleId(workspace, MANAGER_KEY)}
    ensures VIEWER_KEY != OPERATOR_KEY && OPERATOR_KEY != MANAGER_KEY && VIEWER_KEY != MANAGER_KEY
    ensures Seeds(workspace)[RoleId(workspace, VIEWER_KEY)] == Seed(VIEWER_SEED)
    ensures Contained(Seed(VIEWER_SEED).permissions) == {AccountView, ComputeView, EdsView, BillingView}
    ensures forall r :: r in Seeds(workspace) ==> StoredClosed(Seeds(workspace)[r])
  {
    SeedKeysDiffer();
    SeedsByKeyAre();
    ViewerSeed();
    OperatorSeed();
    ManagerSeed();
    PlacedRoles(workspace, SeedsByKey());
    PlacedKeys(workspace, SeedsByKey(), VIEWER_KEY, OPERATOR_KEY, MANAGER_KEY);
  }

  lemma SeedingKeepsRoles(workspaces: set<int>, roles: map<RoleId, StoredRole>, id: int)
    requires RolesInv(workspaces, roles) && id !in workspaces
    ensures RolesInv(workspaces + {id}, Seeds(id) + roles)
  {
    SeedsOf(id);
    MergedRoles(workspaces, roles, id, Seeds(id));
  }

  lemma MergedRoles(workspaces: set<int>, roles: map<RoleId, StoredRole>, id: int, seeds: map<RoleId, StoredRole>)
    requires RolesInv(workspaces, roles) && id !in workspaces && HasSeeds(seeds, id)
    requires forall r :: r in seeds ==> r.workspace == id && StoredClosed(seeds[r])
    ensures RolesInv(workspaces + {id}, seeds + roles)
  {
    assert forall key :: RoleId(id, key) !in roles;
    forall w | w in workspaces ensures HasSeeds(seeds + roles, w) {
      assert HasSeeds(roles, w);
    }
  }

  lemma SavingKeepsRoles(
    workspaces: set<int>, roles: map<RoleId, StoredRole>, workspace: int, input: RoleInput, create: bool,
        normalize: string -> string)
    requires RolesInv(workspaces, roles) && workspace in workspaces
    ensures RolesInv(workspaces, RoleSaved(roles, workspace, input, create, normalize))
  {
    var id := RoleId(workspace, input.key);
    if CanSaveRole(roles, id, input, create, normalize) {
      ValidatedIsClosed(input.permissions, normalize, false);
      assert HasSeeds(roles, workspace);
    }
  }

  lemma DeletingKeepsRoles(workspaces: set<int>, roles: map<RoleId, StoredRole>, id: RoleId, rows: Assignments)
    requires RolesInv(workspaces, roles)
    ensures RolesInv(workspaces, RoleDeleted(roles, id, rows))
  {
    assert id.workspace in workspaces ==> HasSeeds(roles, id.workspace);
  }

  /** Rows stay valid when the directory keeps what they refer to. */
  lemma RowsStayValid(before: Directory, after: Directory, rows: Assignments)
    requires RowsValid(before, rows)
    requires forall k :: k in rows && PrincipalExists(before, k.workspace, k.principal) ==>
      PrincipalExists(after, k.workspace, k.principal)
    requires forall k :: k in rows && AccountExists(before, k.workspace, k.account) ==>
      AccountExists(after, k.workspace, k.account)
    requires forall k :: k in rows && rows[k] in before.roles ==> rows[k] in after.roles
    ensures RowsValid(after, rows)
  {
  }

  lemma DeletionsKeepRows(dir: Directory, rows: Assignments, id: int)
    requires RowsValid(dir, rows)
    ensures RowsValid(dir.(users := dir.users - {id}), WithoutPrincipal(rows, UserPrincipal(id)))
    ensures RowsValid(dir.(groups := dir.groups - {id}), WithoutPrincipal(rows, TeamPrincipal(id)))
    ensures RowsValid(dir.(accounts := dir.accounts - {id}), map k | k in rows && k.account != id :: rows[k])
  {
  }

  lemma DeletionKeepsRows(t: Tables, op: Op, normalize: string -> string)
    requires Inv(t) && (op.DeleteUser? || op.DeleteGroup? || op.DeleteAccount?)
    ensures var next := Step(t, op, normalize); RowsValid(DirectoryOf(next), next.assignments)
  {
    var dir, next := DirectoryOf(t), Step(t, op, normalize);
    DeletionsKeepRows(dir, t.assignments, op.id);
    match op
    case DeleteUser(id) => SameReferences(dir.(users := dir.users - {id}), DirectoryOf(next), next.assignments);
    case DeleteGroup(id) => SameReferences(dir.(groups := dir.groups - {id}), DirectoryOf(next), next.assignments);
    case DeleteAccount(_) =>
  }

  /** The memberships are no reference. */
  lemma SameReferences(before: Directory, after: Directory, rows: Assignments)
    requires RowsValid(before, rows) && after == before.(memberships := after.memberships)
    ensures RowsValid(after, rows)
  {
    RowsStayValid(before, after, rows);
  }

  /** A role in use is never deleted, and no other write removes one. */
  lemma RoleWritesKeepRows(t: Tables, op: Op, normalize: string -> string)
    requires Inv(t) && (op.NewWorkspace? || op.SaveRole? || op.DeleteRole?)
    ensures RowsValid(DirectoryOf(Step(t, op, normalize)), t.assignments)
  {
    RowsStayValid(DirectoryOf(t), DirectoryOf(Step(t, op, normalize)), t.assignments);
  }

  /** No user, team or account moves to another workspace. */
  lemma SavedUserKeepsRows(dir: Directory, rows: Assignments, id: int, member: Member)
    requires RowsValid(dir, rows) && (id in dir.users ==> dir.users[id].workspace == member.workspace)
    ensures RowsValid(dir.(users := dir.users[id := member]), rows)
  {
  }

  lemma SavedGroupKeepsRows(dir: Directory, rows: Assignments, id: int, group: Group)
    requires RowsValid(dir, rows) && (id in dir.groups ==> dir.groups[id].workspace == group.workspace)
    ensures RowsValid(dir.(groups := dir.groups[id := group]), rows)
  {
  }

  lemma SavedAccountKeepsRows(dir: Directory, rows: Assignments, id: int, account: Account)
    requires RowsValid(dir, rows) && (id in dir.accounts ==> dir.accounts[id].workspace == account.workspace)
    ensures RowsValid(dir.(accounts := dir.accounts[id := account]), rows)
  {
  }

  lemma EntityWritesKeepRows(t: Tables, op: Op, normalize: string -> string)
    requires Inv(t) && (op.SaveUser? || op.SaveGroup? || op.SaveAccount? || op.SetMemberships?)
    ensures RowsValid(DirectoryOf(Step(t, op, normalize)), t.assignments)
  {
    var dir, next := DirectoryOf(t), Step(t, op, normalize);
    if next != t {
      match op
      case SaveUser(id, member) => SavedUserKeepsRows(dir, t.assignments, id, member);
      case SaveGroup(id, group) => SavedGroupKeepsRows(dir, t.assignments, id, group);
      case SaveAccount(id, account) => SavedAccountKeepsRows(dir, t.assignments, id, account);
      case _ => SameReferences(dir, DirectoryOf(next), t.assignments);
    }
  }

  /** Every write keeps the assignments' references. */
  lemma StepKeepsRows(t: Tables, op: Op, normalize: string -> string)
    requires Inv(t)
    ensures var next := Step(t, op, normalize); RowsValid(DirectoryOf(next), next.assignments)
  {
    if op.SaveAccess? {
      InvIsWellFormed(t);
      SaveKeepsForeignKeys(DirectoryOf(t), t.assignments, op.actor, op.access);
    } else if op.DeleteUser? || op.DeleteGroup? || op.DeleteAccount? {
      DeletionKeepsRows(t, op, normalize);
    } else if op.NewWorkspace? || op.SaveRole? || op.DeleteRole? {
      RoleWritesKeepRows(t, op, normalize);
    } else {
      EntityWritesKeepRows(t, op, normalize);
    }
  }

  lemma StepKeepsInv(t: Tables, op: Op, normalize: string -> string)
    requires Inv(t)
    ensures Inv(Step(t, op, normalize))
  {
    StepKeepsRows(t, op, normalize);
    match op
    case NewWorkspace(id) => if id !in t.workspaces { SeedingKeepsRoles(t.workspaces, t.roles, id); }
    case SaveRole(workspace, input, create) =>
      if workspace in t.workspaces { SavingKeepsRoles(t.workspaces, t.roles, workspace, input, create, normalize); }
    case DeleteRole(role) => DeletingKeepsRoles(t.workspaces, t.roles, role, t.assignments);
    case _ =>
  }

  lemma {:induction false} RunKeepsInv(t: Tables, ops: seq<Op>, normalize: string -> string)
    requires Inv(t)
    ensures Inv(Run(t, ops, normalize))
    decreases |ops|
  {
    if ops != [] {
      StepKeepsInv(t, ops[0], normalize);
      RunKeepsInv(Step(t, ops[0], normalize), ops[1..], normalize);
    }
  }

  lemma InvIsWellFormed(t: Tables)
    requires Inv(t)
    ensures WellFormed(DirectoryOf(t))
  {
    OperatorSeed();
    ManagerSeed();
    var dir := DirectoryOf(t);
    forall a | a in dir.accounts
      ensures RoleId(dir.accounts[a].workspace, OPERATOR_KEY) in dir.roles
        && dir.roles[RoleId(dir.accounts[a].workspace, OPERATOR_KEY)] == OPERATOR_PERMISSIONS
        && RoleId(dir.accounts[a].workspace, MANAGER_KEY) in dir.roles
        && dir.roles[RoleId(dir.accounts[a].workspace, MANAGER_KEY)] == MANAGER_PERMISSIONS
    {
      assert HasSeeds(t.roles, t.accounts[a].workspace);
    }
    assert forall r :: r in t.roles ==> StoredClosed(t.roles[r]);
  }

  /** Every directory that the writes can lead to is well formed, and its assignments refer to what exists. */
  lemma EveryDirectoryIsWellFormed(ops: seq<Op>, normalize: string -> string)
    ensures var t := Run(EMPTY, ops, normalize);
      WellFormed(DirectoryOf(t)) && RowsValid(DirectoryOf(t), t.assignments)
  {
    RunKeepsInv(EMPTY, ops, normalize);
    InvIsWellFormed(Run(EMPTY, ops, normalize));
  }

  /** On every run each assignment names a principal, an account and a role of its own workspace that exist. */
  lemma AssignmentsReferToWhatExists(ops: seq<Op>, normalize: string -> string, k: AssignmentKey)
    requires k in Run(EMPTY, ops, normalize).assignments
    ensures var t := Run(EMPTY, ops, normalize);
      && k.account in t.accounts && t.accounts[k.account].workspace == k.workspace
      && t.assignments[k] in t.roles && t.assignments[k].workspace == k.workspace
      && match k.principal
         case UserPrincipal(id) => id in t.users && t.users[id].workspace == k.workspace
         case TeamPrincipal(id) => id in t.groups && t.groups[id].workspace == k.workspace
  {
    EveryDirectoryIsWellFormed(ops, normalize);
  }

  /**
   Prerequisite closure end to end: whatever roles were requested and however they were assigned, on
   every account with assignments each user's capabilities are prerequisite-closed.
   */
  lemma AccessIsClosedOnEveryRun(ops: seq<Op>, normalize: string -> string, rows: Assignments, u: User, account: int)
    requires HasRows(rows, u.workspace, account)
    ensures Closed(EffectiveCapabilities(DirectoryOf(Run(EMPTY, ops, normalize)), rows, u, account))
  {
    EveryDirectoryIsWellFormed(ops, normalize);
    ExplicitAccessIsClosed(DirectoryOf(Run(EMPTY, ops, normalize)), rows, u, account);
  }

  // ----- Deleting a role -----

  /** A deletion never leaves an assignment without its role, and changes what nobody can do. */
  lemma DeletingARoleChangesNoAccess(t: Tables, id: RoleId, u: User, account: int, c: Capability)
    requires RowsValid(DirectoryOf(t), t.assignments)
    ensures var after := t.(roles := RoleDeleted(t.roles, id, t.assignments));
      && RowsValid(DirectoryOf(after), t.assignments)
      && (CanAccount(DirectoryOf(after), t.assignments, u, account, c)
          <==> CanAccount(DirectoryOf(t), t.assignments, u, account, c))
  {
    var after := t.(roles := RoleDeleted(t.roles, id, t.assignments));
    RowsStayValid(DirectoryOf(t), DirectoryOf(after), t.assignments);
    SameGrants(DirectoryOf(t), DirectoryOf(after), t.assignments, u, account, c);
  }

  /** Access depends on the roles that assignments use, and on no other. */
  lemma SameGrants(before: Directory, after: Directory, rows: Assignments, u: User, account: int, c: Capability)
    requires after == before.(roles := after.roles) && RowsValid(before, rows)
    requires forall k :: k in rows ==> rows[k] in after.roles && after.roles[rows[k]] == before.roles[rows[k]]
    ensures CanAccount(after, rows, u, account, c) <==> CanAccount(before, rows, u, account, c)
  {
    forall k ensures RowGrants(after, rows, k, u, account, c) <==> RowGrants(before, rows, k, u, account, c) {
    }
  }

  /** A custom role is kept exactly when some assignment would lose its role without it. */
  lemma DeletionIsRefusedIff(t: Tables, id: RoleId)
    requires RowsValid(DirectoryOf(t), t.assignments) && id in t.roles && !t.roles[id].builtIn
    ensures id in RoleDeleted(t.roles, id, t.assignments)
      <==> !RowsValid(DirectoryOf(t.(roles := t.roles - {id})), t.assignments)
  {
    var without := DirectoryOf(t.(roles := t.roles - {id}));
    if k :| k in t.assignments && t.assignments[k] == id {
      assert t.assignments[k] !in without.roles;
    } else {
      RowsStayValid(DirectoryOf(t), without, t.assignments);
    }
  }
}
