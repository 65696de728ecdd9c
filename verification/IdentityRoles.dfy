/**
 Which rows the statements of member, sign-in and update requests write, and where every member's role
 comes from over whole runs.
 */
module IdentityRoles {
  import opened Prelude
  import opened Identity
  import opened IdentitySafety

  // ----- What is written -----

  /** A committed insert adds one row: with the role asked for, or an ordinary member after a first sign-in. */
  lemma CommittedRow(s: State, t: nat, workspace: nat, request: Request, id: nat)
    requires t in s.txs && s.txs[t] == Tx(workspace, request, Inserted(id))
    ensures var s' := Step(s, Commit(t));
      match request
      case AddMember(role) => s'.users == s.users[id := User(workspace, role, false, 1)] && s'.logins == s.logins
      case SsoLogin(_) =>
        s'.users == s.users[id := User(workspace, Member, false, 1)] && s'.logins == s.logins[t := Ticket(id, 1)]
  {
  }

  /** A signup adds a workspace of six seats and its owner, an admin. */
  lemma SignedUpRows(s: State)
    ensures Step(s, SignUp).users == s.users[s.nextUser := User(s.nextWorkspace, Admin, true, 1)]
    ensures Step(s, SignUp).limits == s.limits[s.nextWorkspace := 6]
  {
  }

  /** An update of a row that is there and can be counted up writes the new role and a later version, and no more. */
  lemma UpdatedRow(s: State, k: nat)
    requires k in s.updates && s.updates[k].id in s.users
    ensures var u, row := s.updates[k], s.users[s.updates[k].id];
      Step(s, WriteUpdate(k)).users ==
        if row.workspace == u.workspace && row.version < 2147483647
        then s.users[u.id := User(row.workspace, u.role, row.owner, row.version + 1)]
        else s.users
    ensures k !in Step(s, WriteUpdate(k)).updates
  {
    var u, row := s.updates[k], s.users[s.updates[k].id];
    if WritesRow(s, u) {
      assert Updated(s, u)[u.id] == User(row.workspace, u.role, row.owner, row.version + 1);
    }
  }

  /** An update gets past its checks exactly when it demotes neither the owner nor whoever asks for it. */
  lemma UpdatePassesIff(s: State, k: nat, workspace: nat, actor: nat, id: nat, role: Role)
    requires k !in s.updates
    ensures var s' := Step(s, CheckUpdate(k, workspace, actor, id, role));
      && s'.users == s.users
      && (k in s'.updates <==>
            && id in s.users && s.users[id].workspace == workspace
            && (role == Member ==> !s.users[id].owner && id != actor))
      && (k in s'.updates ==> s'.updates[k] == Update(workspace, id, role))
  {
  }

  /** A deletion removes the member exactly when it is neither the owner nor whoever asks for it. */
  lemma DeletedIff(s: State, workspace: nat, actor: nat, id: nat)
    requires id in s.users
    ensures Step(s, Delete(workspace, actor, id)).users ==
      if s.users[id].workspace == workspace && !s.users[id].owner && id != actor then s.users - {id} else s.users
  {
  }

  // ----- Requests that nobody disturbs -----

  /** The steps of a sign-in of somebody the workspace does not know. */
  function FirstSignIn(t: nat, workspace: nat, jit: bool): seq<Event> {
    [Begin(t, workspace, SsoLogin(jit)), Lock(t), Count(t), Insert(t), Commit(t)]
  }

  lemma RunOfFive(s: State, a: Event, b: Event, c: Event, d: Event, e: Event)
    ensures Run(s, [a, b, c, d, e]) == Step(Step(Step(Step(Step(s, a), b), c), d), e)
  {
    RunFirst(s, a, [b, c, d, e]);
    RunFirst(Step(s, a), b, [c, d, e]);
    RunFirst(Step(Step(s, a), b), c, [d, e]);
    RunFirst(Step(Step(Step(s, a), b), c), d, [e]);
    RunFirst(Step(Step(Step(Step(s, a), b), c), d), e, []);
  }

  lemma BegunSignIn(s: State, t: nat, workspace: nat, jit: bool)
    requires t !in s.txs && t !in s.logins && workspace in s.limits && workspace !in s.locks
    ensures Step(Step(s, Begin(t, workspace, SsoLogin(jit))), Lock(t)) ==
      s.(txs := s.txs[t := Tx(workspace, SsoLogin(jit), Locked)], locks := s.locks[workspace := t])
  {
    var begun := s.(txs := s.txs[t := Tx(workspace, SsoLogin(jit), Begun)]);
    assert Step(s, Begin(t, workspace, SsoLogin(jit))) == begun;
    assert begun.txs[t := Tx(workspace, SsoLogin(jit), Locked)] == s.txs[t := Tx(workspace, SsoLogin(jit), Locked)];
  }

  lemma LockedSignIn(s: State, t: nat, workspace: nat, jit: bool)
    requires t in s.txs && s.txs[t] == Tx(workspace, SsoLogin(jit), Locked) && t !in s.logins && s.nextUser !in s.users
    ensures var end := Step(Step(Step(s, Count(t)), Insert(t)), Commit(t));
      if jit && HasRoom(s, workspace)
      then
        && end.users == s.users[s.nextUser := User(workspace, Member, false, 1)]
        && end.logins == s.logins[t := Ticket(s.nextUser, 1)]
      else end.users == s.users && end.logins == s.logins
  {
    var s1 := Step(s, Count(t));
    if jit && HasRoom(s, workspace) {
      var s2 := Step(s1, Insert(t));
      assert s2.txs[t] == Tx(workspace, SsoLogin(jit), Inserted(s.nextUser));
      CommittedRow(s2, t, workspace, SsoLogin(jit), s.nextUser);
    } else if jit {
      assert t !in s1.txs;
    } else {
      assert s1 == s && Step(s, Insert(t)) == s && Step(s, Commit(t)) == s;
    }
  }

  /**
   An undisturbed first sign-in provisions an ordinary member and goes on to sign it in exactly when
   provisioning is on and there is room; otherwise nobody is added or signed in.
   */
  lemma FirstSignInSucceedsIff(s: State, t: nat, workspace: nat, jit: bool)
    requires Inv(s) && t !in s.txs && t !in s.logins && workspace in s.limits && workspace !in s.locks
    ensures s.nextUser !in s.users
    ensures var end := Run(s, FirstSignIn(t, workspace, jit));
      if jit && SeatCount(s.users, workspace) < s.limits[workspace]
      then
        && end.users == s.users[s.nextUser := User(workspace, Member, false, 1)]
        && end.logins == s.logins[t := Ticket(s.nextUser, 1)]
      else end.users == s.users && end.logins == s.logins
  {
    RunOfFive(s, Begin(t, workspace, SsoLogin(jit)), Lock(t), Count(t), Insert(t), Commit(t));
    OwnerTakesASeat(s.users, workspace);
    BegunSignIn(s, t, workspace, jit);
    LockedSignIn(Step(Step(s, Begin(t, workspace, SsoLogin(jit))), Lock(t)), t, workspace, jit);
  }

  /** An undisturbed sign-in of a known member adds nobody and goes on with that member's current version. */
  lemma KnownMemberSignsIn(s: State, t: nat, workspace: nat, jit: bool, id: nat)
    requires t !in s.txs && t !in s.logins && workspace in s.limits && workspace !in s.locks
    requires id in s.users && s.users[id].workspace == workspace
    ensures var end := Run(s, [Begin(t, workspace, SsoLogin(jit)), Lock(t), Find(t, id), Commit(t), Commit(t)]);
      end.users == s.users && end.logins == s.logins[t := Ticket(id, s.users[id].version)]
  {
    RunOfFive(s, Begin(t, workspace, SsoLogin(jit)), Lock(t), Find(t, id), Commit(t), Commit(t));
    BegunSignIn(s, t, workspace, jit);
    FoundMemberSignsIn(Step(Step(s, Begin(t, workspace, SsoLogin(jit))), Lock(t)), t, workspace, jit, id);
  }

  lemma FoundMemberSignsIn(s: State, t: nat, workspace: nat, jit: bool, id: nat)
    requires t in s.txs && s.txs[t] == Tx(workspace, SsoLogin(jit), Locked)
    requires id in s.users && s.users[id].workspace == workspace
    ensures var end := Step(Step(Step(s, Find(t, id)), Commit(t)), Commit(t));
      end.users == s.users && end.logins == s.logins[t := Ticket(id, s.users[id].version)]
  {
    var s1 := Step(s, Find(t, id));
    assert s1.txs[t] == Tx(workspace, SsoLogin(jit), Found(Ticket(id, s.users[id].version)));
    var s2 := Step(s1, Commit(t));
    assert t !in s2.txs && Step(s2, Commit(t)) == s2;
  }

  /** A sign-in that finds its user goes on with the version it reads. */
  lemma ReadTicket(s: State, l: nat, id: nat)
    requires id in s.users && l !in s.logins && l !in s.txs
    ensures Step(s, ReadLogin(l, id)).logins == s.logins[l := Ticket(id, s.users[id].version)]
  {
  }

  lemma WrittenSession(s: State, l: nat, token: nat)
    requires l in s.logins && token !in s.sessions
    ensures var end := Step(s, WriteSession(l, token));
      end.users == s.users && token in end.sessions && end.sessions[token] == s.logins[l] && l !in end.logins
  {
  }

  /**
   A sign-in that reads a member and then writes its session leaves a session that authenticates exactly
   when nothing has touched the member in between.
   */
  lemma SignInAuthenticatesIff(s: State, l: nat, id: nat, between: seq<Event>, token: nat)
    requires Inv(s) && id in s.users && l !in s.logins && l !in s.txs
    requires var s1 := Run(Step(s, ReadLogin(l, id)), between);
      l in s1.logins && s1.logins[l] == Ticket(id, s.users[id].version) && token !in s1.sessions
    ensures var s1 := Run(Step(s, ReadLogin(l, id)), between);
      var end := Step(s1, WriteSession(l, token));
      && token in end.sessions
      && (Authenticates(end, end.sessions[token]) <==> Untouched(Step(s, ReadLogin(l, id)), between, id))
  {
    StepKeepsInv(s, ReadLogin(l, id));
    GoodUntilTouched(Step(s, ReadLogin(l, id)), between, Ticket(id, s.users[id].version));
    WrittenSession(Run(Step(s, ReadLogin(l, id)), between), l, token);
  }

  /** Signing out removes that session and no other. */
  lemma DroppedSessionIsGone(s: State, token: nat, other: nat)
    ensures token !in Step(s, DropSession(token)).sessions
    ensures other != token && other in s.sessions ==>
      other in Step(s, DropSession(token)).sessions && Step(s, DropSession(token)).sessions[other] == s.sessions[other]
  {
  }

  // ----- Where a role comes from -----

  /** The role that a step gives the user. */
  function RoleGiven(s: State, e: Event, id: nat): Option<Role> {
    if e.SignUp? && id == s.nextUser then Some(Admin)
    else if e.Commit? && e.t in s.txs && s.txs[e.t].phase == Inserted(id) then
      match s.txs[e.t].request
      case AddMember(role) => Some(role)
      case SsoLogin(_) => Some(Member)
    else if e.WriteUpdate? && e.k in s.updates && s.updates[e.k].id == id && WritesRow(s, s.updates[e.k]) then
      Some(s.updates[e.k].role)
    else None
  }

  /** The last role that the run gives the user. */
  function LastRoleGiven(s: State, events: seq<Event>, id: nat): Option<Role>
    decreases |events|
  {
    if events == [] then None
    else
      var later := LastRoleGiven(Step(s, events[0]), events[1..], id);
      if later.Some? then later else RoleGiven(s, events[0], id)
  }

  /** The user's role after the step is the one the step gives, or else the one before. */
  predicate RoleIsGiven(before: map<nat, User>, after: map<nat, User>, given: Option<Role>, id: nat) {
    id in after ==> given == Some(after[id].role) || (given.None? && id in before && before[id].role == after[id].role)
  }

  lemma OnlyInsertsAddRows(s: State, e: Event)
    requires IsTxEvent(e) && e.t in s.txs && !(e.Commit? && s.txs[e.t].phase.Inserted?)
    ensures TxStep(s, e.t, e).users == s.users
  {
  }

  lemma TxStepGivesRole(s: State, e: Event, id: nat)
    requires IsTxEvent(e) && e.t in s.txs
    ensures RoleIsGiven(s.users, Step(s, e).users, RoleGiven(s, e, id), id)
  {
    if e.Commit? && s.txs[e.t].phase.Inserted? {
      CommittedRow(s, e.t, s.txs[e.t].workspace, s.txs[e.t].request, s.txs[e.t].phase.id);
    } else {
      OnlyInsertsAddRows(s, e);
    }
  }

  lemma UserStepGivesRole(s: State, e: Event, id: nat)
    requires !e.SignUp? && !e.Begin? && !IsTxEvent(e)
    ensures RoleIsGiven(s.users, UserStep(s, e).users, RoleGiven(s, e, id), id)
  {
    if e.WriteUpdate? && e.k in s.updates && s.updates[e.k].id in s.users {
      UpdatedRow(s, e.k);
    }
  }

  lemma StepGivesRole(s: State, e: Event, id: nat)
    ensures RoleIsGiven(s.users, Step(s, e).users, RoleGiven(s, e, id), id)
  {
    if e.SignUp? {
      SignedUpRows(s);
    } else if IsTxEvent(e) && e.t in s.txs {
      TxStepGivesRole(s, e, id);
    } else if !e.Begin? && !IsTxEvent(e) {
      UserStepGivesRole(s, e, id);
    }
  }

  lemma {:induction false} RoleFollows(s: State, events: seq<Event>, id: nat)
    requires id in Run(s, events).users
    ensures LastRoleGiven(s, events, id).None? ==>
      id in s.users && s.users[id].role == Run(s, events).users[id].role
    ensures LastRoleGiven(s, events, id).Some? ==> LastRoleGiven(s, events, id).value == Run(s, events).users[id].role
    decreases |events|
  {
    if events != [] {
      RoleFollows(Step(s, events[0]), events[1..], id);
      if LastRoleGiven(Step(s, events[0]), events[1..], id).None? {
        StepGivesRole(s, events[0], id);
      }
    }
  }

  /**
   On every run, a member's role is the last one given: by signing up, by being added with that role, by
   a first sign-in, which gives the ordinary one, or by an update that took effect.
   */
  lemma RoleIsTheLastOneGiven(events: seq<Event>, id: nat)
    requires id in Run(INITIAL, events).users
    ensures LastRoleGiven(INITIAL, events, id) == Some(Run(INITIAL, events).users[id].role)
  {
    RoleFollows(INITIAL, events, id);
  }

  /** The step makes the user an admin: a signup, an addition as admin, or an update to admin. */
  predicate MakesAdmin(s: State, e: Event, id: nat) {
    || (e.SignUp? && id == s.nextUser)
    || (e.Commit? && e.t in s.txs && s.txs[e.t].phase == Inserted(id) && s.txs[e.t].request == AddMember(Admin))
    || (e.WriteUpdate? && e.k in s.updates && s.updates[e.k].id == id && s.updates[e.k].role == Admin)
  }

  predicate MakesAdminAt(events: seq<Event>, i: nat, id: nat)
    requires i < |events|
  {
    MakesAdmin(Run(INITIAL, events[..i]), events[i], id)
  }

  lemma {:induction false} RunOfPrefix(s: State, events: seq<Event>, i: nat)
    requires i < |events|
    ensures Run(s, events[..i + 1]) == Step(Run(s, events[..i]), events[i])
    decreases i
  {
    if i > 0 {
      assert events[..i + 1][1..] == events[1..][..i] && events[..i][1..] == events[1..][..i - 1];
      RunOfPrefix(Step(s, events[0]), events[1..], i - 1);
    } else {
      assert events[..1][1..] == [];
    }
  }

  lemma {:induction false} PrefixAdminsWereMade(events: seq<Event>, n: nat, id: nat)
    requires n <= |events| && id in Run(INITIAL, events[..n]).users
    requires Run(INITIAL, events[..n]).users[id].role == Admin
    ensures exists i :: 0 <= i < n && MakesAdminAt(events, i, id)
    decreases n
  {
    if n > 0 {
      var s := Run(INITIAL, events[..n - 1]);
      RunOfPrefix(INITIAL, events, n - 1);
      StepGivesRole(s, events[n - 1], id);
      if RoleGiven(s, events[n - 1], id).None? {
        PrefixAdminsWereMade(events, n - 1, id);
      } else {
        assert MakesAdminAt(events, n - 1, id);
      }
    }
  }

  /** Everybody who is an admin signed up, was added as one, or had an update to admin written. */
  lemma EveryAdminWasMade(events: seq<Event>, id: nat)
    requires id in Run(INITIAL, events).users && Run(INITIAL, events).users[id].role == Admin
    ensures exists i :: 0 <= i < |events| && MakesAdminAt(events, i, id)
  {
    assert events[..|events|] == events;
    PrefixAdminsWereMade(events, |events|, id);
  }

  // ----- Six seats -----

  lemma StepKeepsSix(s: State, e: Event)
    requires forall w :: w in s.limits ==> s.limits[w] == 6
    ensures forall w :: w in Step(s, e).limits ==> Step(s, e).limits[w] == 6
  {
    if IsTxEvent(e) && e.t in s.txs {
      TxStepKeepsLimits(s, e);
    }
  }

  lemma {:induction false} RunKeepsSix(s: State, events: seq<Event>, workspace: nat)
    requires forall w :: w in s.limits ==> s.limits[w] == 6
    ensures workspace in Run(s, events).limits ==> Run(s, events).limits[workspace] == 6
    decreases |events|
  {
    if events != [] {
      StepKeepsSix(s, events[0]);
      RunKeepsSix(Step(s, events[0]), events[1..], workspace);
    }
  }

  /** However many additions and first sign-ins race, a workspace has an owner and at most five others. */
  lemma AtMostSixMembers(events: seq<Event>, workspace: nat)
    requires workspace in Run(INITIAL, events).limits
    ensures 1 <= SeatCount(Run(INITIAL, events).users, workspace) <= 6
  {
    SeatLimitHolds(events, workspace);
    RunKeepsSix(INITIAL, events, workspace);
  }
}
