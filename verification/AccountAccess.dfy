/**
 Saving an account assignment: the one-time conversion of an account's legacy access into explicit
 rows, the replacement of one principal's row, and what any run of such saves does to everybody.
 */
module AccountAccess {
  import opened Prelude
  import opened Capabilities
  import opened AccessPolicy

  /** A request body, its strings already trimmed and lower-cased. */
  datatype AccessInput = AccessInput(
    principalType: string, principalId: int, account: int, roleKey: string, serviceKey: string)

  datatype Response = Forbidden | BadRequest | NotFound | InvalidRole | Saved(removed: bool)

  const LEGACY_REF := "legacy-migration"
  const NO_ROLE := "none"

  predicate ValidInput(input: AccessInput) {
    && (input.principalType == "user" || input.principalType == "team")
    && input.principalId >= 1 && input.account >= 1
    && (input.serviceKey == "" || input.serviceKey == ALL_SERVICES)
  }

  function PrincipalOf(input: AccessInput): Principal {
    if input.principalType == "user" then UserPrincipal(input.principalId) else TeamPrincipal(input.principalId)
  }

  predicate PrincipalExists(dir: Directory, workspace: int, p: Principal) {
    match p
    case UserPrincipal(id) => id in dir.users && dir.users[id].workspace == workspace
    case TeamPrincipal(id) => id in dir.groups && dir.groups[id].workspace == workspace
  }

  predicate AccountExists(dir: Directory, workspace: int, account: int) {
    account in dir.accounts && dir.accounts[account].workspace == workspace
  }

  /** The foreign keys of the assignment table. */
  ghost predicate RowsValid(dir: Directory, rows: Assignments) {
    forall k :: k in rows ==>
      && PrincipalExists(dir, k.workspace, k.principal) && AccountExists(dir, k.workspace, k.account)
      && rows[k] in dir.roles && rows[k].workspace == k.workspace
  }

  function LegacyKey(workspace: int, p: Principal, account: int): AssignmentKey {
    AssignmentKey(workspace, p, account, ALL_SERVICES, Manual, LEGACY_REF)
  }

  function ManualKey(workspace: int, p: Principal, account: int): AssignmentKey {
    AssignmentKey(workspace, p, account, ALL_SERVICES, Manual, "")
  }

  /** The account's legacy group, if it lies in the account's workspace. */
  function LegacyGroup(dir: Directory, workspace: int, account: int): Option<int>
    requires account in dir.accounts
  {
    match dir.accounts[account].group
    case None => None
    case Some(g) => if g in dir.groups && dir.groups[g].workspace == workspace then Some(g) else None
  }

  /** The rows that stand for an account's legacy access: one for the team, or one per manager. */
  function LegacyRows(dir: Directory, workspace: int, account: int): Assignments
    requires account in dir.accounts
  {
    match LegacyGroup(dir, workspace, account)
    case None => map[]
    case Some(g) =>
      var operates := dir.groups[g].viewDashboard && !dir.groups[g].manageAccounts;
      var role := RoleId(workspace, if operates then OPERATOR_KEY else MANAGER_KEY);
      if role !in dir.roles then map[]
      else if dir.groups[g].viewDashboard then map[LegacyKey(workspace, TeamPrincipal(g), account) := role]
      else if dir.groups[g].manageAccounts then
        ManagerRows(dir.memberships, g, workspace, account, role)
      else map[]
  }

  function ManagerRows(memberships: set<Membership>, g: int, workspace: int, account: int, role: RoleId): Assignments {
    map m | m in memberships && m.group == g && m.role == Manager
      :: LegacyKey(workspace, UserPrincipal(m.user), account) := role
  }

  /** The assignments a save starts from: converted first if the account had none. */
  function Converted(dir: Directory, rows: Assignments, workspace: int, account: int): Assignments
    requires account in dir.accounts
  {
    if HasRows(rows, workspace, account) then rows else rows + LegacyRows(dir, workspace, account)
  }

  /** A manual account-level row of principal `p`. */
  predicate Replaceable(k: AssignmentKey, workspace: int, p: Principal, account: int) {
    k.workspace == workspace && k.principal == p && k.account == account && k.service == ALL_SERVICES
      && k.source == Manual
  }

  /** The table after principal `p` is given `role` on the account, or is given nothing. */
  function Replaced(rows: Assignments, workspace: int, p: Principal, account: int, role: Option<RoleId>): Assignments {
    var kept := map k | k in rows && !Replaceable(k, workspace, p, account) :: rows[k];
    match role
    case None => kept
    case Some(r) => kept[ManualKey(workspace, p, account) := r]
  }

  predicate Removes(input: AccessInput) {
    input.roleKey == "" || input.roleKey == NO_ROLE
  }

  function SaveResponse(dir: Directory, actor: User, input: AccessInput): Response {
    if !actor.admin then Forbidden
    else if !ValidInput(input) then BadRequest
    else if !PrincipalExists(dir, actor.workspace, PrincipalOf(input))
      || !AccountExists(dir, actor.workspace, input.account) then NotFound
    else if Removes(input) then Saved(true)
    else if RoleId(actor.workspace, input.roleKey) in dir.roles then Saved(false)
    else InvalidRole
  }

  /** The table after one request, whatever its outcome. */
  function AfterSave(dir: Directory, rows: Assignments, actor: User, input: AccessInput): Assignments {
    match SaveResponse(dir, actor, input)
    case Saved(removed) =>
      var role := if removed then None else Some(RoleId(actor.workspace, input.roleKey));
      Replaced(Converted(dir, rows, actor.workspace, input.account), actor.workspace, PrincipalOf(input),
        input.account, role)
    case _ => rows
  }

  class AccessStore {
    const directory: Directory
    var assignments: Assignments

    ghost predicate Valid() reads this {
      WellFormed(directory) && RowsValid(directory, assignments)
    }

    constructor (directory: Directory)
      requires WellFormed(directory)
      ensures Valid() && this.directory == directory && assignments == map[]
    {
      this.directory := directory;
      assignments := map[];
    }

    /** One request, as one transaction: work happens on `tx` and reaches the table only on commit. */
    method SaveAccountAccess(actor: User, input: AccessInput) returns (response: Response)
      requires Valid()
      modifies this
      ensures Valid()
      ensures response == SaveResponse(directory, actor, input)
      ensures assignments == AfterSave(directory, old(assignments), actor, input)
      ensures !response.Saved? ==> assignments == old(assignments)
    {
      if !actor.admin {
        return Forbidden;
      }
      if !ValidInput(input) {
        return BadRequest;
      }
      var workspace, p, account := actor.workspace, PrincipalOf(input), input.account;
      if !PrincipalExists(directory, workspace, p) || !AccountExists(directory, workspace, account) {
        return NotFound;
      }
      var removed := Removes(input);
      var role := RoleId(workspace, input.roleKey);
      var tx, done := Replace(workspace, p, account, removed, role);
      if !done {
        return InvalidRole;
      }
      SaveKeepsForeignKeys(directory, assignments, actor, input);
      assignments := tx;
      return Saved(removed);
    }

    /** The statements of the transaction; `done` is false when the role does not exist. */
    method Replace(workspace: int, p: Principal, account: int, removed: bool, role: RoleId)
      returns (tx: Assignments, done: bool)
      requires Valid() && AccountExists(directory, workspace, account)
      ensures done == (removed || role in directory.roles)
      ensures done ==>
        var before := Converted(directory, assignments, workspace, account);
        tx == Replaced(before, workspace, p, account, if removed then None else Some(role))
    {
      tx := assignments;
      if !HasRows(tx, workspace, account) {
        tx := ConvertLegacy(tx, workspace, account);
      }
      tx := map k | k in tx && !Replaceable(k, workspace, p, account) :: tx[k];
      done := true;
      if !removed {
        if role !in directory.roles {
          return tx, false;
        }
        // The unique index cannot be hit: the row just deleted was the only one with this key.
        assert Replaceable(ManualKey(workspace, p, account), workspace, p, account);
        assert ManualKey(workspace, p, account) !in tx;
        tx := tx[ManualKey(workspace, p, account) := role];
      }
    }

    /** The two conditional inserts that turn legacy access into rows; duplicates do nothing. */
    method ConvertLegacy(rows: Assignments, workspace: int, account: int) returns (tx: Assignments)
      requires Valid() && AccountExists(directory, workspace, account)
      requires !HasRows(rows, workspace, account)
      ensures tx == rows + LegacyRows(directory, workspace, account)
    {
      tx := rows;
      var group := LegacyGroup(directory, workspace, account);
      if group.None? {
        return;
      }
      var g := group.value;
      if directory.groups[g].viewDashboard {
        var role := RoleId(workspace, if directory.groups[g].manageAccounts then MANAGER_KEY else OPERATOR_KEY);
        var key := LegacyKey(workspace, TeamPrincipal(g), account);
        if role in directory.roles && key !in tx {
          tx := tx[key := role];
        }
      }
      if !directory.groups[g].viewDashboard && directory.groups[g].manageAccounts {
        var role := RoleId(workspace, MANAGER_KEY);
        if role in directory.roles {
          tx := InsertManagers(tx, directory.memberships, g, workspace, account, role);
        }
      }
    }

    /** One row per manager; a user who is a manager from several sources still gets one. */
    static method InsertManagers(rows: Assignments, memberships: set<Membership>, g: int, workspace: int, account: int,
        role: RoleId)
      returns (tx: Assignments)
      requires !HasRows(rows, workspace, account)
      ensures tx == rows + ManagerRows(memberships, g, workspace, account, role)
    {
      tx := rows;
      var pending, seen := memberships, {};
      while pending != {}
        invariant seen + pending == memberships && seen !! pending
        invariant tx == rows + ManagerRows(seen, g, workspace, account, role)
        decreases pending
      {
        var m :| m in pending;
        var key := LegacyKey(workspace, UserPrincipal(m.user), account);
        assert key !in rows;
        if m.group == g && m.role == Manager && key !in tx {
          tx := tx[key := role];
        }
        InsertOneManager(rows, seen, m, g, workspace, account, role);
        pending, seen := pending - {m}, seen + {m};
      }
      assert seen == memberships;
    }
  }

  lemma InsertOneManager(rows: Assignments, seen: set<Membership>, m: Membership, g: int, workspace: int, account: int,
      role: RoleId)
    requires LegacyKey(workspace, UserPrincipal(m.user), account) !in rows
    ensures rows + ManagerRows(seen + {m}, g, workspace, account, role) ==
      if m.group == g && m.role == Manager
      then
        var before := rows + ManagerRows(seen, g, workspace, account, role);
        before[LegacyKey(workspace, UserPrincipal(m.user), account) := role]
      else rows + ManagerRows(seen, g, workspace, account, role)
  {
  }

  lemma LegacyRowsAreValid(dir: Directory, workspace: int, account: int)
    requires WellFormed(dir) && AccountExists(dir, workspace, account)
    ensures RowsValid(dir, LegacyRows(dir, workspace, account))
  {
  }

  lemma ReplacedRowsAreValid(dir: Directory, rows: Assignments, workspace: int, p: Principal, account: int,
      role: Option<RoleId>)
    requires RowsValid(dir, rows) && PrincipalExists(dir, workspace, p) && AccountExists(dir, workspace, account)
    requires role.Some? ==> role.value in dir.roles && role.value.workspace == workspace
    ensures RowsValid(dir, Replaced(rows, workspace, p, account, role))
  {
  }

  lemma SaveKeepsForeignKeys(dir: Directory, rows: Assignments, actor: User, input: AccessInput)
    requires WellFormed(dir) && RowsValid(dir, rows)
    ensures RowsValid(dir, AfterSave(dir, rows, actor, input))
  {
    if SaveResponse(dir, actor, input).Saved? {
      var converted := Converted(dir, rows, actor.workspace, input.account);
      LegacyRowsAreValid(dir, actor.workspace, input.account);
      assert RowsValid(dir, converted);
      var removed := SaveResponse(dir, actor, input).removed;
      var role := if removed then None else Some(RoleId(actor.workspace, input.roleKey));
      ReplacedRowsAreValid(dir, converted, actor.workspace, PrincipalOf(input), input.account, role);
    }
  }
}
