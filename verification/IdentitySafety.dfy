/** What holds over every interleaving of member, owner and session requests. */
module IdentitySafety {
  import opened Prelude
  import opened Identity

  // ----- Seats and owners -----

  /** No workspace ever has more members than its limit, however many creations race; and never none. */
  lemma SeatLimitHolds(events: seq<Event>, workspace: nat)
    requires workspace in Run(INITIAL, events).limits
    ensures 1 <= SeatCount(Run(INITIAL, events).users, workspace) <= Run(INITIAL, events).limits[workspace]
    ensures HasSoleOwner(Run(INITIAL, events).users, workspace)
  {
    RunKeepsInv(INITIAL, events);
    var s := Run(INITIAL, events);
    var o :| SoleOwner(s.users, workspace, o);
    assert o in Seats(s.users, workspace);
  }

  /** Two creations that both found room are never in the same workspace at once. */
  lemma CreationsTakeTurns(events: seq<Event>, t: nat, q: nat)
    requires t in Run(INITIAL, events).txs && q in Run(INITIAL, events).txs && t != q
    requires HoldsLock(Run(INITIAL, events).txs[t].phase) && HoldsLock(Run(INITIAL, events).txs[q].phase)
    ensures Run(INITIAL, events).txs[t].workspace != Run(INITIAL, events).txs[q].workspace
  {
    RunKeepsInv(INITIAL, events);
    var s := Run(INITIAL, events);
    assert TxInv(s, t, s.txs[t]) && TxInv(s, q, s.txs[q]);
  }

  /** The owner row `o` is an admin and, if the workspace is known, its only owner. */
  lemma StepKeepsTheOwner(s: State, e: Event, workspace: nat, o: nat)
    requires Inv(s) && workspace in s.limits && SoleOwner(s.users, workspace, o)
    ensures workspace in Step(s, e).limits && SoleOwner(Step(s, e).users, workspace, o)
  {
    StepKeepsInv(s, e);
    StepKeepsOwnerRow(s, e, o);
    LimitsAreKept(s, e, workspace);
    var p :| SoleOwner(Step(s, e).users, workspace, p);
  }

  lemma TxStepKeepsLimits(s: State, e: Event)
    requires IsTxEvent(e) && e.t in s.txs
    ensures TxStep(s, e.t, e).limits == s.limits
  {
    assert End(s, e.t).limits == s.limits && Committed(s, e.t).limits == s.limits;
  }

  lemma LimitsAreKept(s: State, e: Event, w: nat)
    requires w in s.limits
    ensures w in Step(s, e).limits
  {
    if IsTxEvent(e) && e.t in s.txs {
      TxStepKeepsLimits(s, e);
    }
  }

  lemma UserStepKeepsOwnerRow(s: State, e: Event, o: nat)
    requires o in s.users && s.users[o].owner
    ensures o in UserStep(s, e).users && UserStep(s, e).users[o].owner
      && UserStep(s, e).users[o].workspace == s.users[o].workspace
  {
  }

  lemma StepKeepsOwnerRow(s: State, e: Event, o: nat)
    requires RowsInv(s) && TxsInv(s) && o in s.users && s.users[o].owner
    ensures o in Step(s, e).users && Step(s, e).users[o].owner && Step(s, e).users[o].workspace == s.users[o].workspace
  {
    if e.SignUp? {
      assert o != s.nextUser;
    } else if IsTxEvent(e) {
      if e.t in s.txs {
        TxStepLeavesSettled(s, e, o);
      }
    } else {
      UserStepKeepsOwnerRow(s, e, o);
    }
  }

  /** Ownership never moves: whoever owns a workspace owns it, as an admin, for ever after. */
  lemma {:induction false} OwnershipIsPermanent(s: State, events: seq<Event>, workspace: nat, o: nat)
    requires Inv(s) && workspace in s.limits && SoleOwner(s.users, workspace, o)
    ensures SoleOwner(Run(s, events).users, workspace, o)
    decreases |events|
  {
    if events != [] {
      StepKeepsInv(s, events[0]);
      StepKeepsTheOwner(s, events[0], workspace, o);
      OwnershipIsPermanent(Step(s, events[0]), events[1..], workspace, o);
    }
  }

  /** The steps of one member creation that is not disturbed. */
  function Creation(t: nat, workspace: nat, role: Role): seq<Event> {
    [Begin(t, workspace, AddMember(role)), Lock(t), Count(t), Insert(t), Commit(t)]
  }

  lemma RunFirst(s: State, e: Event, rest: seq<Event>)
    ensures Run(s, [e] + rest) == Run(Step(s, e), rest)
  {
    assert ([e] + rest)[1..] == rest;
  }

  lemma RunCreation(s: State, t: nat, workspace: nat, role: Role)
    ensures Run(s, Creation(t, workspace, role)) ==
      Step(Step(Step(Step(Step(s, Begin(t, workspace, AddMember(role))), Lock(t)), Count(t)), Insert(t)), Commit(t))
  {
    var s1 := Step(s, Begin(t, workspace, AddMember(role)));
    var s3 := Step(Step(s1, Lock(t)), Count(t));
    RunFirst(s, Begin(t, workspace, AddMember(role)), [Lock(t), Count(t), Insert(t), Commit(t)]);
    RunFirst(s1, Lock(t), [Count(t), Insert(t), Commit(t)]);
    RunFirst(Step(s1, Lock(t)), Count(t), [Insert(t), Commit(t)]);
    RunFirst(s3, Insert(t), [Commit(t)]);
    RunFirst(Step(s3, Insert(t)), Commit(t), []);
  }

  /** A transaction that has the lock adds its member exactly when there is room. */
  lemma LockedCreation(s: State, t: nat)
    requires InPhase(s, t, Locked) && s.txs[t].request.AddMember? && s.nextUser !in s.users
    ensures Step(Step(Step(s, Count(t)), Insert(t)), Commit(t)).users ==
      if HasRoom(s, s.txs[t].workspace) then s.users[s.nextUser := NewMember(s.txs[t])] else s.users
  {
    var s1 := Step(s, Count(t));
    if HasRoom(s, s.txs[t].workspace) {
      var s2 := Step(s1, Insert(t));
      assert InPhase(s1, t, Counted) && InPhase(s2, t, Inserted(s.nextUser)) && s2.users == s.users;
      assert s2.txs[t].workspace == s.txs[t].workspace && s2.txs[t].request == s.txs[t].request;
    } else {
      assert t !in s1.txs && s1.users == s.users;
    }
  }

  /** An undisturbed creation adds its member exactly when there was room, and otherwise nobody. */
  lemma CreationSucceedsIffThereIsRoom(s: State, t: nat, workspace: nat, role: Role)
    requires Inv(s) && t !in s.txs && t !in s.logins && workspace in s.limits && workspace !in s.locks
    ensures s.nextUser !in s.users
    ensures Run(s, Creation(t, workspace, role)).users ==
      if SeatCount(s.users, workspace) < s.limits[workspace]
      then s.users[s.nextUser := User(workspace, role, false, 1)]
      else s.users
  {
    RunCreation(s, t, workspace, role);
    OwnerTakesASeat(s.users, workspace);
    BegunAndLocked(s, t, workspace, role);
    LockedCreation(Step(Step(s, Begin(t, workspace, AddMember(role))), Lock(t)), t);
  }

  lemma OwnerTakesASeat(users: map<nat, User>, workspace: nat)
    requires HasSoleOwner(users, workspace)
    ensures SeatCount(users, workspace) > 0
  {
    var o :| SoleOwner(users, workspace, o);
    assert o in Seats(users, workspace);
  }

  lemma BegunAndLocked(s: State, t: nat, workspace: nat, role: Role)
    requires t !in s.txs && t !in s.logins && workspace in s.limits && workspace !in s.locks
    ensures Step(Step(s, Begin(t, workspace, AddMember(role))), Lock(t)) ==
      s.(txs := s.txs[t := Tx(workspace, AddMember(role), Locked)], locks := s.locks[workspace := t])
  {
    var begun := s.(txs := s.txs[t := Tx(workspace, AddMember(role), Begun)]);
    assert Step(s, Begin(t, workspace, AddMember(role))) == begun;
    assert begun.txs[t := Tx(workspace, AddMember(role), Locked)] == s.txs[t := Tx(workspace, AddMember(role), Locked)];
  }

  // ----- Sessions -----

  /** An update that takes effect on the user, or the user's deletion. */
  predicate Touches(s: State, e: Event, id: nat) {
    || (e.WriteUpdate? && e.k in s.updates && WritesRow(s, s.updates[e.k]) && s.updates[e.k].id == id)
    || (e.Delete? && e.id == id && Deletable(s, e.workspace, e.actor, id))
  }

  /** The ticket has been overtaken: its user is gone or has a later version. */
  predicate Overtaken(s: State, ticket: Ticket) {
    && ticket.user < s.nextUser && ticket.user !in s.pending
    && (ticket.user in s.users ==> s.users[ticket.user].version > ticket.version)
  }

  lemma TouchOvertakes(s: State, e: Event, ticket: Ticket)
    requires RowsInv(s) && Seen(s, ticket) && Touches(s, e, ticket.user)
    ensures Overtaken(Step(s, e), ticket)
  {
  }

  /** A transaction commits only the row it inserted, and inserts only new ones. */
  lemma TxStepLeavesSettled(s: State, e: Event, id: nat)
    requires RowsInv(s) && IsTxEvent(e) && e.t in s.txs && TxInv(s, e.t, s.txs[e.t])
    requires id < s.nextUser && id !in s.pending
    ensures var next := TxStep(s, e.t, e);
      id < next.nextUser && id !in next.pending && (id in next.users <==> id in s.users)
        && (id in s.users ==> next.users[id] == s.users[id])
  {
    if e.Commit? && s.txs[e.t].phase.Inserted? {
      assert s.txs[e.t].phase.id != id;
    }
  }

  lemma UserStepKeepsOvertaken(s: State, e: Event, ticket: Ticket)
    requires Overtaken(s, ticket)
    ensures Overtaken(UserStep(s, e), ticket)
  {
  }

  lemma OvertakenStays(s: State, e: Event, ticket: Ticket)
    requires RowsInv(s) && TxsInv(s) && Overtaken(s, ticket)
    ensures Overtaken(Step(s, e), ticket)
  {
    if e.SignUp? || e.Begin? {
    } else if IsTxEvent(e) {
      if e.t in s.txs {
        TxStepLeavesSettled(s, e, ticket.user);
      }
    } else {
      UserStepKeepsOvertaken(s, e, ticket);
    }
  }

  lemma {:induction false} OvertakenForever(s: State, events: seq<Event>, ticket: Ticket)
    requires Inv(s) && Overtaken(s, ticket)
    ensures !Authenticates(Run(s, events), ticket)
    decreases |events|
  {
    if events != [] {
      StepKeepsInv(s, events[0]);
      OvertakenStays(s, events[0], ticket);
      OvertakenForever(Step(s, events[0]), events[1..], ticket);
    }
  }

  /**
   Revocation is permanent. Take any state a run reaches and any ticket that was read by then, be it
   in a session, in a sign-in that has yet to write its session, or in an SSO transaction. Once an
   update or deletion of its user takes effect, no session with that ticket ever authenticates again.
   */
  lemma RevocationIsPermanent(before: seq<Event>, touch: Event, after: seq<Event>, ticket: Ticket)
    requires Read(Run(INITIAL, before), ticket) && Touches(Run(INITIAL, before), touch, ticket.user)
    ensures !Authenticates(Run(Step(Run(INITIAL, before), touch), after), ticket)
  {
    RunKeepsInv(INITIAL, before);
    var s := Run(INITIAL, before);
    ReadIsSeen(s, ticket);
    TouchOvertakes(s, touch, ticket);
    StepKeepsInv(s, touch);
    OvertakenForever(Step(s, touch), after, ticket);
  }

  /** Somebody holds this ticket. */
  ghost predicate Read(s: State, ticket: Ticket) {
    || (exists l :: l in s.logins && s.logins[l] == ticket)
    || (exists k :: k in s.sessions && s.sessions[k] == ticket)
    || (exists t :: t in s.txs && s.txs[t].phase == Found(ticket))
  }

  lemma ReadIsSeen(s: State, ticket: Ticket)
    requires Inv(s) && Read(s, ticket)
    ensures Seen(s, ticket)
  {
    if t :| t in s.txs && s.txs[t].phase == Found(ticket) {
      assert TxInv(s, t, s.txs[t]);
    }
  }

  predicate Untouched(s: State, events: seq<Event>, id: nat)
    decreases |events|
  {
    events == [] || (!Touches(s, events[0], id) && Untouched(Step(s, events[0]), events[1..], id))
  }

  lemma UntouchedTicketStaysGood(s: State, e: Event, ticket: Ticket)
    requires RowsInv(s) && TxsInv(s) && Authenticates(s, ticket) && !Touches(s, e, ticket.user)
    ensures Authenticates(Step(s, e), ticket)
  {
    if e.SignUp? || e.Begin? {
      assert ticket.user != s.nextUser;
    } else if IsTxEvent(e) {
      if e.t in s.txs {
        TxStepLeavesSettled(s, e, ticket.user);
      }
    } else {
      UntouchedByUserStep(s, e, ticket);
    }
  }

  lemma UntouchedByUserStep(s: State, e: Event, ticket: Ticket)
    requires Authenticates(s, ticket) && !Touches(s, e, ticket.user)
    ensures Authenticates(UserStep(s, e), ticket)
  {
  }

  /** A ticket that is good now is good after a run exactly when nothing in the run touched its user. */
  lemma {:induction false} GoodUntilTouched(s: State, events: seq<Event>, ticket: Ticket)
    requires Inv(s) && Authenticates(s, ticket)
    ensures Authenticates(Run(s, events), ticket) <==> Untouched(s, events, ticket.user)
    decreases |events|
  {
    if events != [] {
      StepKeepsInv(s, events[0]);
      if Touches(s, events[0], ticket.user) {
        TouchOvertakes(s, events[0], ticket);
        OvertakenForever(Step(s, events[0]), events[1..], ticket);
      } else {
        UntouchedTicketStaysGood(s, events[0], ticket);
        GoodUntilTouched(Step(s, events[0]), events[1..], ticket);
      }
    }
  }

  /** A user whose version has reached the column's maximum can no longer be updated, so keeps its sessions. */
  lemma ExhaustedVersionCannotBeRevokedByUpdate(s: State, k: nat, ticket: Ticket)
    requires Authenticates(s, ticket)
    requires k in s.updates && s.updates[k].id == ticket.user
      && s.users[ticket.user].workspace == s.updates[k].workspace
    ensures Authenticates(Step(s, WriteUpdate(k)), ticket) <==> ticket.version >= MAX_VERSION
  {
  }
}
