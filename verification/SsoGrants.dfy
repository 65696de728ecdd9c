/**
 Team memberships granted through single sign-on. An identity provider's group is mapped to a team and
 a role; a sign-in replaces the user's grants from that provider by what the mappings say, and saving
 or deleting a mapping carries over to the grants that came from it. Manual memberships are a table of
 their own. Every operation is one transaction and they run one after the other.
 */
module SsoGrants {
  import opened Prelude
  import opened AccessPolicy

  datatype MappingKey = MappingKey(provider: int, external: string, group: int)
  datatype Mapping = Mapping(id: nat, role: MemberRole)
  datatype GrantKey = GrantKey(provider: int, user: int, group: int, external: string)

  /** The tables; users, groups and providers are known by id, each with its workspace. */
  datatype Tables = Tables(
    users: map<int, int>,
    groups: map<int, int>,
    providers: map<int, int>,
    mappings: map<MappingKey, Mapping>,
    grants: map<GrantKey, MemberRole>,
    manual: map<(int, int), MemberRole>,
    nextMapping: nat)

  const EMPTY := Tables(map[], map[], map[], map[], map[], map[], 0)

  const MAX_EXTERNAL_GROUP := 512

  predicate In(table: map<int, int>, id: int, workspace: int) {
    id in table && table[id] == workspace
  }

  /** The mapping a grant came from. */
  function Origin(g: GrantKey): MappingKey {
    MappingKey(g.provider, g.external, g.group)
  }

  predicate IsFor(g: GrantKey, provider: int, user: int) {
    g.provider == provider && g.user == user
  }

  predicate IsMapped(mappings: map<MappingKey, Mapping>, g: GrantKey, externalGroups: seq<string>) {
    Origin(g) in mappings && g.external in externalGroups
  }

  /** The mappings of the provider for the groups the identity claims. */
  function Selected(mappings: map<MappingKey, Mapping>, provider: int, externalGroups: seq<string>): set<MappingKey> {
    set m | m in mappings && m.provider == provider && m.external in externalGroups
  }

  /** The mappings with this id in this workspace: one or none. */
  function Targets(t: Tables, workspace: int, provider: int, id: int): set<MappingKey> {
    set k | k in t.mappings && t.mappings[k].id == id && k.provider == provider && In(t.providers, provider, workspace)
  }

  // ----- What each transaction does to the tables -----

  predicate CanSignIn(t: Tables, workspace: int, provider: int, user: int) {
    In(t.providers, provider, workspace) && In(t.users, user, workspace)
  }

  function MappedGrants(mappings: map<MappingKey, Mapping>, user: int,
      selected: set<MappingKey>): map<GrantKey, MemberRole>
    requires selected <= mappings.Keys
  {
    map m | m in selected :: GrantKey(m.provider, user, m.group, m.external) := mappings[m].role
  }

  function SignIn(t: Tables, workspace: int, provider: int, user: int, externalGroups: seq<string>): Tables {
    if !CanSignIn(t, workspace, provider, user) then t
    else
      t.(grants := (map g | g in t.grants && !IsFor(g, provider, user) :: t.grants[g])
                   + MappedGrants(t.mappings, user, Selected(t.mappings, provider, externalGroups)))
  }

  predicate CanMap(t: Tables, workspace: int, k: MappingKey) {
    && k.external != "" && |k.external| <= MAX_EXTERNAL_GROUP && k.group >= 1
    && In(t.providers, k.provider, workspace) && In(t.groups, k.group, workspace)
  }

  function Map(t: Tables, workspace: int, k: MappingKey, role: MemberRole): Tables {
    if !CanMap(t, workspace, k) then t
    else
      t.(mappings := t.mappings[k := Mapping(if k in t.mappings then t.mappings[k].id else t.nextMapping, role)],
         grants := map g | g in t.grants :: if Origin(g) == k then role else t.grants[g],
         nextMapping := t.nextMapping + 1)
  }

  /** Without these mappings and the grants that came from them. */
  function Unmap(t: Tables, gone: set<MappingKey>): Tables {
    t.(mappings := t.mappings - gone, grants := map g | g in t.grants && Origin(g) !in gone :: t.grants[g])
  }

  predicate DistinctIds(mappings: map<MappingKey, Mapping>) {
    forall j, k :: j in mappings && k in mappings && mappings[j].id == mappings[k].id ==> j == k
  }

  lemma OneMoreMapped(kept: map<GrantKey, MemberRole>, mappings: map<MappingKey, Mapping>, user: int,
      done: set<MappingKey>, m: MappingKey)
    requires done <= mappings.Keys && m in mappings && m !in done
    ensures var g, before := GrantKey(m.provider, user, m.group, m.external), kept + MappedGrants(mappings, user, done);
      && (g in before <==> g in kept)
      && kept + MappedGrants(mappings, user, done + {m}) == before[g := mappings[m].role]
  {
  }

  class IdentityStore {
    var users: map<int, int>
    var groups: map<int, int>
    var providers: map<int, int>
    var mappings: map<MappingKey, Mapping>
    var grants: map<GrantKey, MemberRole>
    var manual: map<(int, int), MemberRole>
    var nextMapping: nat

    constructor ()
      ensures View() == EMPTY
    {
      users, groups, providers, mappings, grants, manual, nextMapping := map[], map[], map[], map[], map[], map[], 0;
    }

    ghost function View(): Tables
      reads this
    {
      Tables(users, groups, providers, mappings, grants, manual, nextMapping)
    }

    /** One inserted row; the caller must not violate the table's unique constraint. */
    method InsertGrant(g: GrantKey, role: MemberRole)
      requires g !in grants
      modifies this`grants
      ensures grants == old(grants)[g := role]
    {
      grants := grants[g := role];
    }

    /** The grants part of a sign-in: drop the user's grants from the provider, insert the mapped ones. */
    method FinishSignIn(workspace: int, provider: int, user: int, externalGroups: seq<string>) returns (ok: bool)
      modifies this`grants
      ensures ok == CanSignIn(old(View()), workspace, provider, user)
      ensures View() == SignIn(old(View()), workspace, provider, user, externalGroups)
    {
      if !In(providers, provider, workspace) || !In(users, user, workspace) {
        return false;
      }
      grants := map g | g in grants && !IsFor(g, provider, user) :: grants[g];
      InsertMapped(user, Selected(mappings, provider, externalGroups));
      ok := true;
    }

    /** Inserts the grants of the selected mappings row by row; none of them is there yet. */
    method InsertMapped(user: int, selected: set<MappingKey>)
      requires selected <= mappings.Keys
      requires forall g :: g in grants ==> !(g.user == user && Origin(g) in selected)
      modifies this`grants
      ensures grants == old(grants) + MappedGrants(mappings, user, selected)
    {
      ghost var kept := grants;
      var pending, done := selected, {};
      while pending != {}
        invariant pending !! done && pending + done == selected
        invariant grants == kept + MappedGrants(mappings, user, done)
        decreases pending
      {
        var m :| m in pending;
        OneMoreMapped(kept, mappings, user, done, m);
        InsertGrant(GrantKey(m.provider, user, m.group, m.external), mappings[m].role);
        pending, done := pending - {m}, done + {m};
      }
    }

    /** Creates or changes a mapping and gives its grants the new role. */
    method SaveMapping(workspace: int, k: MappingKey, role: MemberRole) returns (id: Option<nat>)
      modifies this`mappings, this`grants, this`nextMapping
      ensures id.Some? == CanMap(old(View()), workspace, k)
      ensures View() == Map(old(View()), workspace, k, role)
      ensures id.Some? ==> k in mappings && mappings[k].id == id.value
    {
      if k.external == "" || |k.external| > MAX_EXTERNAL_GROUP || k.group < 1 {
        return None;
      }
      if !In(providers, k.provider, workspace) || !In(groups, k.group, workspace) {
        return None;
      }
      var chosen := nextMapping;
      nextMapping := nextMapping + 1;
      if k in mappings {
        chosen := mappings[k].id;
      }
      mappings := mappings[k := Mapping(chosen, role)];
      grants := map g | g in grants :: if Origin(g) == k then role else grants[g];
      id := Some(chosen);
    }

    /** Deletes a mapping and the grants that came from it. */
    method DeleteMapping(workspace: int, provider: int, id: int) returns (found: bool)
      requires DistinctIds(mappings)
      modifies this`mappings, this`grants
      ensures found == (Targets(old(View()), workspace, provider, id) != {})
      ensures View() == Unmap(old(View()), Targets(old(View()), workspace, provider, id))
    {
      var hits := set k | k in mappings && mappings[k].id == id && k.provider == provider
        && In(providers, provider, workspace);
      assert hits == Targets(old(View()), workspace, provider, id);
      if hits == {} {
        assert mappings - hits == mappings;
        assert (map g | g in grants && Origin(g) !in hits :: grants[g]) == grants;
        return false;
      }
      var k :| k in hits;
      assert hits == {k};
      mappings := mappings - {k};
      grants := map g | g in grants && !(g.provider == provider && g.external == k.external && g.group == k.group) ::
        grants[g];
      found := true;
    }
  }

  // ----- Serial runs -----

  /** Every transaction that writes one of the tables. */
  datatype Op =
    | SignInOp(workspace: int, provider: int, user: int, externalGroups: seq<string>)
    | MapOp(workspace: int, key: MappingKey, role: MemberRole)
    | UnmapOp(workspace: int, provider: int, id: int)
    | DeleteProvider(id: int)
    | DeleteGroup(id: int)
    | DeleteUser(id: int)
    | AddProvider(id: int, workspace: int)
    | AddGroup(id: int, workspace: int)
    | AddUser(id: int, workspace: int)
    | SetManual(user: int, group: int, role: MemberRole)
    | RemoveManual(user: int, group: int)

  /** Deleting a row deletes what references it. */
  function WithoutProvider(t: Tables, id: int): Tables {
    t.(providers := t.providers - {id},
       mappings := map k | k in t.mappings && k.provider != id :: t.mappings[k],
       grants := map g | g in t.grants && g.provider != id :: t.grants[g])
  }

  function WithoutGroup(t: Tables, id: int): Tables {
    t.(groups := t.groups - {id},
       mappings := map k | k in t.mappings && k.group != id :: t.mappings[k],
       grants := map g | g in t.grants && g.group != id :: t.grants[g],
       manual := map m | m in t.manual && m.1 != id :: t.manual[m])
  }

  function WithoutUser(t: Tables, id: int): Tables {
    t.(users := t.users - {id},
       grants := map g | g in t.grants && g.user != id :: t.grants[g],
       manual := map m | m in t.manual && m.0 != id :: t.manual[m])
  }

  function Step(t: Tables, op: Op): Tables {
    match op
    case SignInOp(workspace, provider, user, externalGroups) => SignIn(t, workspace, provider, user, externalGroups)
    case MapOp(workspace, key, role) => Map(t, workspace, key, role)
    case UnmapOp(workspace, provider, id) => Unmap(t, Targets(t, workspace, provider, id))
    case DeleteProvider(id) => WithoutProvider(t, id)
    case DeleteGroup(id) => WithoutGroup(t, id)
    case DeleteUser(id) => WithoutUser(t, id)
    case AddProvider(id, workspace) => if id in t.providers then t else t.(providers := t.providers[id := workspace])
    case AddGroup(id, workspace) => if id in t.groups then t else t.(groups := t.groups[id := workspace])
    case AddUser(id, workspace) => if id in t.users then t else t.(users := t.users[id := workspace])
    case SetManual(user, group, role) =>
      if user in t.users && In(t.groups, group, t.users[user]) then t.(manual := t.manual[(user, group) := role]) else t
    case RemoveManual(user, group) => t.(manual := t.manual - {(user, group)})
  }

  function Run(t: Tables, ops: seq<Op>): Tables
    decreases |ops|
  {
    if ops == [] then t else Run(Step(t, ops[0]), ops[1..])
  }

  /** Every grant has its mapping, with the same role. */
  ghost predicate Mirrors(t: Tables) {
    forall g :: g in t.grants ==> Origin(g) in t.mappings && t.grants[g] == t.mappings[Origin(g)].role
  }

  /** Mapping ids are unique, and every row references rows of one workspace. */
  ghost predicate Sound(t: Tables) {
    && DistinctIds(t.mappings)
    && (forall k :: k in t.mappings ==> t.mappings[k].id < t.nextMapping)
    && (forall k :: k in t.mappings ==> k.provider in t.providers && In(t.groups, k.group, t.providers[k.provider]))
    && (forall g :: g in t.grants ==> g.provider in t.providers && In(t.users, g.user, t.providers[g.provider]))
    && (forall m :: m in t.manual ==> m.0 in t.users && In(t.groups, m.1, t.users[m.0]))
  }

  lemma SignInKeepsMirror(t: Tables, workspace: int, provider: int, user: int, externalGroups: seq<string>)
    requires Mirrors(t) && Sound(t)
    ensures var next := SignIn(t, workspace, provider, user, externalGroups); Mirrors(next) && Sound(next)
  {
  }

  lemma MapKeepsMirror(t: Tables, workspace: int, k: MappingKey, role: MemberRole)
    requires Mirrors(t) && Sound(t)
    ensures Mirrors(Map(t, workspace, k, role)) && Sound(Map(t, workspace, k, role))
  {
  }

  lemma UnmapKeepsMirror(t: Tables, gone: set<MappingKey>)
    requires Mirrors(t) && Sound(t)
    ensures Mirrors(Unmap(t, gone)) && Sound(Unmap(t, gone))
  {
  }

  lemma ProviderDeletionKeepsMirror(t: Tables, id: int)
    requires Mirrors(t) && Sound(t)
    ensures Mirrors(WithoutProvider(t, id)) && Sound(WithoutProvider(t, id))
  {
  }

  lemma UserDeletionKeepsMirror(t: Tables, id: int)
    requires Mirrors(t) && Sound(t)
    ensures Mirrors(WithoutUser(t, id)) && Sound(WithoutUser(t, id))
  {
  }

  lemma GroupDeletionKeepsMirror(t: Tables, id: int)
    requires Mirrors(t) && Sound(t)
    ensures Mirrors(WithoutGroup(t, id)) && Sound(WithoutGroup(t, id))
  {
  }

  lemma AdditionsKeepMirror(t: Tables, op: Op)
    requires Mirrors(t) && Sound(t) && (op.AddProvider? || op.AddGroup? || op.AddUser?)
    ensures Mirrors(Step(t, op)) && Sound(Step(t, op))
  {
  }

  lemma ManualKeepsMirror(t: Tables, op: Op)
    requires Mirrors(t) && Sound(t) && (op.SetManual? || op.RemoveManual?)
    ensures Mirrors(Step(t, op)) && Sound(Step(t, op))
  {
  }

  lemma StepKeepsMirror(t: Tables, op: Op)
    requires Mirrors(t) && Sound(t)
    ensures Mirrors(Step(t, op)) && Sound(Step(t, op))
  {
    match op
    case SignInOp(workspace, provider, user, externalGroups) =>
      SignInKeepsMirror(t, workspace, provider, user, externalGroups);
    case MapOp(workspace, key, role) => MapKeepsMirror(t, workspace, key, role);
    case UnmapOp(workspace, provider, id) => UnmapKeepsMirror(t, Targets(t, workspace, provider, id));
    case DeleteProvider(id) => ProviderDeletionKeepsMirror(t, id);
    case DeleteGroup(id) => GroupDeletionKeepsMirror(t, id);
    case DeleteUser(id) => UserDeletionKeepsMirror(t, id);
    case SetManual(_, _, _) => ManualKeepsMirror(t, op);
    case RemoveManual(_, _) => ManualKeepsMirror(t, op);
    case _ => AdditionsKeepMirror(t, op);
  }

  /** Over every serial run, every SSO grant has a mapping with its provider, external group, team and role. */
  lemma {:induction false} GrantsMirrorMappings(t: Tables, ops: seq<Op>)
    requires Mirrors(t) && Sound(t)
    ensures Mirrors(Run(t, ops)) && Sound(Run(t, ops))
    decreases |ops|
  {
    if ops != [] {
      StepKeepsMirror(t, ops[0]);
      GrantsMirrorMappings(Step(t, ops[0]), ops[1..]);
    }
  }

  /** A manual membership is written for one user and team of one workspace, and removed for one pair. */
  lemma ManualWrites(t: Tables, user: int, group: int, role: MemberRole)
    ensures Step(t, RemoveManual(user, group)) == t.(manual := t.manual - {(user, group)})
    ensures Step(t, SetManual(user, group, role)) ==
      if user in t.users && group in t.groups && t.groups[group] == t.users[user]
      then t.(manual := t.manual[(user, group) := role]) else t
  {
  }

  // ----- What a sign-in leaves -----

  /**
   After a sign-in the user's grants from the provider are exactly the mapped ones, with the mapped
   roles; every other grant and every manual membership is as it was.
   */
  lemma SignInLeavesExactlyTheMapped(t: Tables, workspace: int, provider: int, user: int, externalGroups: seq<string>,
      g: GrantKey)
    requires CanSignIn(t, workspace, provider, user)
    ensures var next := SignIn(t, workspace, provider, user, externalGroups);
      && (g in next.grants <==>
        if IsFor(g, provider, user) then IsMapped(t.mappings, g, externalGroups) else g in t.grants)
      && (g in next.grants ==>
        next.grants[g] == if IsFor(g, provider, user) then t.mappings[Origin(g)].role else t.grants[g])
      && next.manual == t.manual && next.mappings == t.mappings
  {
    var selected := Selected(t.mappings, provider, externalGroups);
    if IsFor(g, provider, user) && IsMapped(t.mappings, g, externalGroups) {
      assert Origin(g) in selected;
      assert g in MappedGrants(t.mappings, user, selected);
    }
  }

  /** Only the last sign-in counts. */
  lemma LastSignInCounts(t: Tables, workspace: int, provider: int, user: int, first: seq<string>, second: seq<string>)
    ensures SignIn(SignIn(t, workspace, provider, user, first), workspace, provider, user, second)
         == SignIn(t, workspace, provider, user, second)
  {
    if CanSignIn(t, workspace, provider, user) {
      var once := SignIn(t, workspace, provider, user, first);
      var twice, direct := SignIn(once, workspace, provider, user, second),
        SignIn(t, workspace, provider, user, second);
      forall g
        ensures (g in twice.grants <==> g in direct.grants)
          && (g in twice.grants ==> twice.grants[g] == direct.grants[g])
      {
        SignInLeavesExactlyTheMapped(t, workspace, provider, user, first, g);
        SignInLeavesExactlyTheMapped(once, workspace, provider, user, second, g);
        SignInLeavesExactlyTheMapped(t, workspace, provider, user, second, g);
      }
      assert twice.grants == direct.grants;
    }
  }

  // ----- What saving and deleting a mapping leaves -----

  /** A grant that came from a mapping of this provider, external group and team. */
  predicate ComesFrom(g: GrantKey, k: MappingKey) {
    g.provider == k.provider && g.external == k.external && g.group == k.group
  }

  /**
   Saving a mapping gives it the role under the id it had, or else under one no mapping has; the grants
   that came from it take the role, and everything else stays.
   */
  lemma SavedMapping(t: Tables, workspace: int, k: MappingKey, role: MemberRole, j: MappingKey, g: GrantKey)
    requires Sound(t)
    ensures var next := Map(t, workspace, k, role);
      if k.external != "" && |k.external| <= 512 && k.group >= 1 && k.provider in t.providers
        && t.providers[k.provider] == workspace && k.group in t.groups && t.groups[k.group] == workspace
      then
        && k in next.mappings && next.mappings[k].role == role
        && (k in t.mappings ==> next.mappings[k].id == t.mappings[k].id)
        && (k !in t.mappings && j in t.mappings ==> next.mappings[k].id != t.mappings[j].id)
        && (j != k ==> (j in next.mappings <==> j in t.mappings))
        && (j != k && j in t.mappings ==> next.mappings[j] == t.mappings[j])
        && (g in next.grants <==> g in t.grants)
        && (g in t.grants ==> next.grants[g] == if ComesFrom(g, k) then role else t.grants[g])
        && next.manual == t.manual
      else next == t
  {
  }

  /** The mapping that a deletion names by its id, within the workspace. */
  predicate IsNamed(t: Tables, workspace: int, provider: int, id: int, k: MappingKey) {
    && k in t.mappings && t.mappings[k].id == id && k.provider == provider
    && provider in t.providers && t.providers[provider] == workspace
  }

  /** Deleting a mapping deletes it and the grants that came from it, and nothing else. */
  lemma DeletedMapping(t: Tables, workspace: int, provider: int, id: int, k: MappingKey, g: GrantKey)
    requires Mirrors(t) && Sound(t)
    ensures var next := Step(t, UnmapOp(workspace, provider, id));
      && (k in next.mappings <==> k in t.mappings && !IsNamed(t, workspace, provider, id, k))
      && (k in next.mappings ==> next.mappings[k] == t.mappings[k])
      && (g in next.grants <==>
            g in t.grants && !exists m :: IsNamed(t, workspace, provider, id, m) && ComesFrom(g, m))
      && (g in next.grants ==> next.grants[g] == t.grants[g])
      && next.manual == t.manual
  {
    var gone := Targets(t, workspace, provider, id);
    forall m ensures m in gone <==> IsNamed(t, workspace, provider, id, m) {
    }
    if Origin(g) in gone {
      assert ComesFrom(g, Origin(g));
    }
    forall m | ComesFrom(g, m) ensures m == Origin(g) {
    }
  }

  predicate SignsIn(op: Op, provider: int, user: int) {
    op.SignInOp? && op.provider == provider && op.user == user
  }

  /** The grant's mapping and its user exist after every step. */
  predicate KeptThroughout(t: Tables, ops: seq<Op>, g: GrantKey)
    decreases |ops|
  {
    || ops == []
    || (var next := Step(t, ops[0]);
        Origin(g) in next.mappings && g.user in next.users && KeptThroughout(next, ops[1..], g))
  }

  lemma StepWithoutSignIn(t: Tables, op: Op, g: GrantKey)
    requires Mirrors(t) && Sound(t) && !SignsIn(op, g.provider, g.user)
    ensures g in Step(t, op).grants <==>
      g in t.grants && Origin(g) in Step(t, op).mappings && g.user in Step(t, op).users
  {
    if op.SignInOp? && CanSignIn(t, op.workspace, op.provider, op.user) {
      SignInLeavesExactlyTheMapped(t, op.workspace, op.provider, op.user, op.externalGroups, g);
    }
  }

  lemma {:induction false} GrantsLiveAsLongAsTheirMapping(t: Tables, ops: seq<Op>, g: GrantKey)
    requires Mirrors(t) && Sound(t) && (forall i :: 0 <= i < |ops| ==> !SignsIn(ops[i], g.provider, g.user))
    ensures g in Run(t, ops).grants <==> g in t.grants && KeptThroughout(t, ops, g)
    decreases |ops|
  {
    if ops != [] {
      StepKeepsMirror(t, ops[0]);
      StepWithoutSignIn(t, ops[0], g);
      GrantsLiveAsLongAsTheirMapping(Step(t, ops[0]), ops[1..], g);
    }
  }

  /**
   A grant exists at the end of a run exactly when the user's last sign-in through the provider
   claimed its external group while it was mapped, and the mapping and the user have existed ever
   since. Mapping a group later grants nothing before the next sign-in.
   */
  lemma GrantsComeFromTheLastSignIn(t: Tables, workspace: int, externalGroups: seq<string>, ops: seq<Op>, g: GrantKey)
    requires Mirrors(t) && Sound(t) && CanSignIn(t, workspace, g.provider, g.user)
    requires forall i :: 0 <= i < |ops| ==> !SignsIn(ops[i], g.provider, g.user)
    ensures var signedIn := SignIn(t, workspace, g.provider, g.user, externalGroups);
      g in Run(signedIn, ops).grants <==> IsMapped(t.mappings, g, externalGroups) && KeptThroughout(signedIn, ops, g)
  {
    SignInKeepsMirror(t, workspace, g.provider, g.user, externalGroups);
    SignInLeavesExactlyTheMapped(t, workspace, g.provider, g.user, externalGroups, g);
    GrantsLiveAsLongAsTheirMapping(SignIn(t, workspace, g.provider, g.user, externalGroups), ops, g);
  }

  // ----- Effective memberships -----

  /** The view that joins the two tables. */
  function EffectiveMemberships(t: Tables): set<Membership> {
    (set m | m in t.manual :: Membership(m.0, m.1, t.manual[m], ManualMembership))
    + (set g | g in t.grants :: Membership(g.user, g.group, t.grants[g], SsoGrant(g.provider, g.external)))
  }

  lemma EffectiveGrant(t: Tables, g: GrantKey, role: MemberRole)
    ensures Membership(g.user, g.group, role, SsoGrant(g.provider, g.external)) in EffectiveMemberships(t)
      <==> g in t.grants && t.grants[g] == role
  {
  }

  /**
   To the policy engine a sign-in changes only the user's memberships from that provider, and those
   become what the mappings say.
   */
  lemma SignInSeenByThePolicy(t: Tables, workspace: int, provider: int, user: int, externalGroups: seq<string>,
      m: Membership)
    requires CanSignIn(t, workspace, provider, user)
    ensures m in EffectiveMemberships(SignIn(t, workspace, provider, user, externalGroups)) <==>
      if m.user == user && m.source.SsoGrant? && m.source.provider == provider
      then
        var k := MappingKey(provider, m.source.externalGroup, m.group);
        k in t.mappings && t.mappings[k].role == m.role && k.external in externalGroups
      else m in EffectiveMemberships(t)
  {
    var next := SignIn(t, workspace, provider, user, externalGroups);
    if m.source.SsoGrant? {
      var g := GrantKey(m.source.provider, m.user, m.group, m.source.externalGroup);
      EffectiveGrant(t, g, m.role);
      EffectiveGrant(next, g, m.role);
      SignInLeavesExactlyTheMapped(t, workspace, provider, user, externalGroups, g);
    }
  }

  /** With the schema's references in place, every effective membership stays inside one workspace. */
  lemma MembershipsStayInOneWorkspace(t: Tables, m: Membership)
    requires Mirrors(t) && Sound(t) && m in EffectiveMemberships(t)
    ensures m.user in t.users && In(t.groups, m.group, t.users[m.user])
  {
    if m.source.SsoGrant? {
      var g := GrantKey(m.source.provider, m.user, m.group, m.source.externalGroup);
      EffectiveGrant(t, g, m.role);
      assert Origin(g) in t.mappings;
    }
  }
}
