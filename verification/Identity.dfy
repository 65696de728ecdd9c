/**
 Members, seats, owners and sessions of the workspaces, as a state machine whose steps are the single
 statements of any number of concurrent requests: adding a member, signing in through SSO with or
 without just-in-time provisioning, updating and deleting members, signing up and signing in.
 */
module Identity {
  import opened Prelude

  const DEFAULT_USER_LIMIT: nat := 6
  const MAX_VERSION: int := 2147483647

  datatype Role = Admin | Member

  datatype User = User(workspace: nat, role: Role, owner: bool, version: int)

  /** What a session stores: whose it is and the session version that was read for it. */
  datatype Ticket = Ticket(user: nat, version: int)

  datatype Request = AddMember(role: Role) | SsoLogin(jit: bool)

  /** How far a transaction that takes the workspace's advisory lock has come. */
  datatype Phase = Begun | Locked | Counted | Inserted(id: nat) | Found(ticket: Ticket)

  datatype Tx = Tx(workspace: nat, request: Request, phase: Phase)

  /** A member update that passed its checks and is about to write. */
  datatype Update = Update(workspace: nat, id: nat, role: Role)

  datatype State = State(
    users: map<nat, User>,          // committed rows
    pending: map<nat, nat>,         // uncommitted rows, each with the transaction that inserted it
    limits: map<nat, nat>,
    locks: map<nat, nat>,
    txs: map<nat, Tx>,
    updates: map<nat, Update>,
    logins: map<nat, Ticket>,
    sessions: map<nat, Ticket>,
    nextUser: nat,
    nextWorkspace: nat)

  datatype Event =
    | SignUp
    | Begin(t: nat, workspace: nat, request: Request)
    | Lock(t: nat)
    | Find(t: nat, id: nat)
    | Count(t: nat)
    | Insert(t: nat)
    | Commit(t: nat)
    | Abort(t: nat)
    | Delete(workspace: nat, actor: nat, id: nat)
    | CheckUpdate(k: nat, workspace: nat, actor: nat, id: nat, role: Role)
    | WriteUpdate(k: nat)
    | ReadLogin(l: nat, id: nat)
    | WriteSession(l: nat, token: nat)
    | DropSession(token: nat)

  const INITIAL := State(map[], map[], map[], map[], map[], map[], map[], map[], 0, 0)

  /** The committed members of a workspace: what the seat count sees. */
  function Seats(users: map<nat, User>, workspace: nat): set<nat> {
    set id | id in users && users[id].workspace == workspace
  }

  function SeatCount(users: map<nat, User>, workspace: nat): nat {
    |Seats(users, workspace)|
  }

  /** The row a member-adding transaction inserts. */
  function NewMember(tx: Tx): User {
    User(tx.workspace, if tx.request.AddMember? then tx.request.role else Member, false, 1)
  }

  predicate HoldsLock(p: Phase) {
    !p.Begun?
  }

  predicate InPhase(s: State, t: nat, p: Phase) {
    t in s.txs && s.txs[t].phase == p
  }

  /** Ends a transaction; its advisory lock goes with it. */
  function End(s: State, t: nat): State
    requires t in s.txs
  {
    var tx := s.txs[t];
    s.(txs := s.txs - {t},
       locks := if HoldsLock(tx.phase) then s.locks - {tx.workspace} else s.locks,
       pending := if tx.phase.Inserted? then s.pending - {tx.phase.id} else s.pending)
  }

  function Advance(s: State, t: nat, p: Phase): State
    requires t in s.txs
  {
    s.(txs := s.txs[t := s.txs[t].(phase := p)])
  }

  /** A whole signup transaction: a new workspace with its owner. */
  function SignedUp(s: State): State {
    s.(users := s.users[s.nextUser := User(s.nextWorkspace, Admin, true, 1)],
       limits := s.limits[s.nextWorkspace := DEFAULT_USER_LIMIT],
       nextUser := s.nextUser + 1, nextWorkspace := s.nextWorkspace + 1)
  }

  /** A committed insert becomes visible; a provisioned SSO user goes on to be signed in. */
  function Committed(s: State, t: nat): State
    requires t in s.txs
  {
    var tx, ended := s.txs[t], End(s, t);
    match tx.phase
    case Inserted(id) =>
      ended.(users := s.users[id := NewMember(tx)],
             logins := if tx.request.SsoLogin? then s.logins[t := Ticket(id, 1)] else s.logins)
    case Found(ticket) => ended.(logins := s.logins[t := ticket])
    case _ => ended
  }

  predicate Deletable(s: State, workspace: nat, actor: nat, id: nat) {
    id != actor && id in s.users && s.users[id].workspace == workspace && !s.users[id].owner
  }

  predicate PassesUpdateChecks(s: State, workspace: nat, actor: nat, id: nat, role: Role) {
    && id in s.users && s.users[id].workspace == workspace
    && !(s.users[id].owner && role != Admin)
    && !(id == actor && role != Admin)
  }

  /** Whether the update statement still finds its row and can count the version up. */
  predicate WritesRow(s: State, u: Update) {
    u.id in s.users && s.users[u.id].workspace == u.workspace && s.users[u.id].version < MAX_VERSION
  }

  function Updated(s: State, u: Update): map<nat, User>
    requires WritesRow(s, u)
  {
    s.users[u.id := s.users[u.id].(role := u.role, version := s.users[u.id].version + 1)]
  }

  function TicketFor(s: State, id: nat): Ticket
    requires id in s.users
  {
    Ticket(id, s.users[id].version)
  }

  /** Whether counting the members leaves room; with no member at all the limit reads as NULL and fails. */
  predicate HasRoom(s: State, workspace: nat) {
    workspace in s.limits && 0 < SeatCount(s.users, workspace) < s.limits[workspace]
  }

  function TxStep(s: State, t: nat, e: Event): State
    requires t in s.txs
  {
    var tx := s.txs[t];
    match e
    case Lock(_) =>
      if tx.phase.Begun? && tx.workspace !in s.locks
      then Advance(s, t, Locked).(locks := s.locks[tx.workspace := t]) else s
    case Find(_, id) =>
      if tx.phase.Locked? && tx.request.SsoLogin? && id in s.users && s.users[id].workspace == tx.workspace
      then Advance(s, t, Found(TicketFor(s, id))) else s
    case Count(_) =>
      if tx.phase.Locked? && (tx.request.SsoLogin? ==> tx.request.jit)
      then (if HasRoom(s, tx.workspace) then Advance(s, t, Counted) else End(s, t)) else s
    case Insert(_) =>
      if tx.phase.Counted? 
      then Advance(s, t, Inserted(s.nextUser)).(pending := s.pending[s.nextUser := t], nextUser := s.nextUser + 1)
        else s
    case Commit(_) =>
      if tx.phase.Inserted? || tx.phase.Found? then Committed(s, t) else s
    case Abort(_) => End(s, t)
    case _ => s
  }

  function UserStep(s: State, e: Event): State {
    match e
    case Delete(workspace, actor, id) =>
      if Deletable(s, workspace, actor, id) then s.(users := s.users - {id}) else s
    case CheckUpdate(k, workspace, actor, id, role) =>
      if k !in s.updates && PassesUpdateChecks(s, workspace, actor, id, role)
      then s.(updates := s.updates[k := Update(workspace, id, role)]) else s
    case WriteUpdate(k) =>
      if k in s.updates && WritesRow(s, s.updates[k])
      then s.(users := Updated(s, s.updates[k]), updates := s.updates - {k})
      else s.(updates := s.updates - {k})
    case ReadLogin(l, id) =>
      if l !in s.logins && l !in s.txs && id in s.users then s.(logins := s.logins[l := TicketFor(s, id)]) else s
    case WriteSession(l, token) =>
      if l in s.logins && token !in s.sessions
      then s.(sessions := s.sessions[token := s.logins[l]], logins := s.logins - {l}) else s
    case DropSession(token) => s.(sessions := s.sessions - {token})
    case _ => s
  }

  predicate IsTxEvent(e: Event) {
    e.Lock? || e.Find? || e.Count? || e.Insert? || e.Commit? || e.Abort?
  }

  /** One step; an event that cannot happen leaves the state alone. */
  function Step(s: State, e: Event): State {
    if e.SignUp? then SignedUp(s)
    else if e.Begin? then
      (if e.t in s.txs || e.t in s.logins || e.workspace !in s.limits then s
       else s.(txs := s.txs[e.t := Tx(e.workspace, e.request, Begun)]))
    else if IsTxEvent(e) then (if e.t in s.txs then TxStep(s, e.t, e) else s)
    else UserStep(s, e)
  }

  function Run(s: State, events: seq<Event>): State
    decreases |events|
  {
    if events == [] then s else Run(Step(s, events[0]), events[1..])
  }

  /** The check every authenticated request makes. */
  predicate Authenticates(s: State, ticket: Ticket) {
    ticket.user in s.users && s.users[ticket.user].version == ticket.version
  }

  // ----- The invariant -----

  ghost predicate RowsInv(s: State) {
    && (forall id :: id in s.users ==> id < s.nextUser && s.users[id].workspace in s.limits && s.users[id].version >= 1)
    && (forall w :: w in s.limits ==> w < s.nextWorkspace)
    && (forall id :: id in s.pending ==> id < s.nextUser && id !in s.users)
  }

  /** What a transaction in its phase can rely on: its lock, its pending row, and room for it. */
  ghost predicate TxInv(s: State, t: nat, tx: Tx) {
    && tx.workspace in s.limits
    && (HoldsLock(tx.phase) ==> tx.workspace in s.locks && s.locks[tx.workspace] == t)
    && (tx.phase.Inserted? ==> tx.phase.id in s.pending && s.pending[tx.phase.id] == t)
    && (tx.phase.Counted? || tx.phase.Inserted? ==> SeatCount(s.users, tx.workspace) < s.limits[tx.workspace])
    && (tx.phase.Found? ==> Seen(s, tx.phase.ticket))
  }

  ghost predicate TxsInv(s: State) {
    forall t :: t in s.txs ==> TxInv(s, t, s.txs[t])
  }

  ghost predicate SeatsInv(s: State) {
    forall w :: w in s.limits ==> SeatCount(s.users, w) <= s.limits[w]
  }

  /** `o` is the one owner of the workspace, and an admin. */
  ghost predicate SoleOwner(users: map<nat, User>, workspace: nat, o: nat) {
    && o in users && users[o].workspace == workspace && users[o].owner && users[o].role == Admin
    && (forall id :: id in users && users[id].workspace == workspace && users[id].owner ==> id == o)
  }

  ghost predicate HasSoleOwner(users: map<nat, User>, workspace: nat) {
    exists o :: SoleOwner(users, workspace, o)
  }

  ghost predicate OwnersInv(s: State) {
    && (forall w :: w in s.limits ==> HasSoleOwner(s.users, w))
    && (forall k :: k in s.updates ==> UpdateInv(s, s.updates[k]))
  }

  ghost predicate UpdateInv(s: State, u: Update) {
    && u.id < s.nextUser && u.id !in s.pending
    && (u.id in s.users && s.users[u.id].owner ==> u.role == Admin)
  }

  /** A ticket that was read at some time: never ahead of its user's version, never about a pending row. */
  ghost predicate Seen(s: State, ticket: Ticket) {
    && ticket.user < s.nextUser && ticket.user !in s.pending
    && (ticket.user in s.users ==> ticket.version <= s.users[ticket.user].version)
  }

  ghost predicate TicketsInv(s: State) {
    && (forall l :: l in s.logins ==> Seen(s, s.logins[l]))
    && (forall k :: k in s.sessions ==> Seen(s, s.sessions[k]))
  }

  ghost predicate Inv(s: State) {
    RowsInv(s) && TxsInv(s) && SeatsInv(s) && OwnersInv(s) && TicketsInv(s)
  }

  // ----- Every step keeps it -----

  lemma SeatAdded(users: map<nat, User>, id: nat, u: User, w: nat)
    requires id !in users
    ensures SeatCount(users[id := u], w) == SeatCount(users, w) + (if u.workspace == w then 1 else 0)
  {
    assert Seats(users[id := u], w) == Seats(users, w) + (if u.workspace == w then {id} else {});
  }

  lemma FewerRowsFewerSeats(before: map<nat, User>, after: map<nat, User>, w: nat)
    requires forall id :: id in after ==> id in before && after[id].workspace == before[id].workspace
    ensures SeatCount(after, w) <= SeatCount(before, w)
  {
    assert Seats(after, w) <= Seats(before, w);
    SubsetSize(Seats(after, w), Seats(before, w));
  }

  lemma AdvanceKeepsInv(s: State, t: nat, p: Phase)
    requires Inv(s) && t in s.txs && TxInv(s, t, s.txs[t].(phase := p))
    ensures Inv(Advance(s, t, p))
  {
    AdvanceKeepsTxs(s, t, p);
    TxOnlyStepKeepsTheRest(s, Advance(s, t, p));
  }

  lemma AdvanceKeepsTxs(s: State, t: nat, p: Phase)
    requires TxsInv(s) && t in s.txs && TxInv(s, t, s.txs[t].(phase := p))
    ensures TxsInv(Advance(s, t, p))
  {
  }

  /** Another transaction keeps its lock and its row: no two hold the same ones. */
  lemma EndLeavesOthers(s: State, t: nat, q: nat)
    requires RowsInv(s) && t in s.txs && TxInv(s, t, s.txs[t]) && q in s.txs && TxInv(s, q, s.txs[q]) && q != t
    ensures TxInv(End(s, t), q, s.txs[q])
  {
  }

  /** A step that leaves members, limits, updates, logins and sessions alone keeps all but `TxsInv`. */
  lemma TxOnlyStepKeepsTheRest(s: State, next: State)
    requires Inv(s)
    requires next == s.(txs := next.txs, locks := next.locks, pending := next.pending, nextUser := next.nextUser)
    requires next.nextUser >= s.nextUser
    requires forall id :: id in next.pending ==> id in s.pending || s.nextUser <= id < next.nextUser
    ensures RowsInv(next) && SeatsInv(next) && OwnersInv(next) && TicketsInv(next)
  {
  }

  lemma EndKeepsInv(s: State, t: nat)
    requires Inv(s) && t in s.txs
    ensures Inv(End(s, t))
  {
    var next := End(s, t);
    forall q | q in next.txs ensures TxInv(next, q, next.txs[q]) {
      EndLeavesOthers(s, t, q);
    }
    TxOnlyStepKeepsTheRest(s, next);
  }

  lemma SeatsAfterSignUp(s: State)
    requires Inv(s)
    ensures TxsInv(SignedUp(s)) && SeatsInv(SignedUp(s))
  {
    var u, next := User(s.nextWorkspace, Admin, true, 1), SignedUp(s);
    forall w ensures SeatCount(next.users, w) == SeatCount(s.users, w) + (if u.workspace == w then 1 else 0) {
      SeatAdded(s.users, s.nextUser, u, w);
    }
    assert Seats(s.users, s.nextWorkspace) == {};
  }

  lemma SignUpKeepsInv(s: State)
    requires Inv(s)
    ensures Inv(SignedUp(s))
  {
    SeatsAfterSignUp(s);
    OwnersAfterSignUp(s);
  }

  lemma OwnersAfterSignUp(s: State)
    requires Inv(s)
    ensures OwnersInv(SignedUp(s))
  {
    var next := SignedUp(s);
    forall w | w in next.limits ensures HasSoleOwner(next.users, w) {
      if w in s.limits {
        var o :| SoleOwner(s.users, w, o);
        assert SoleOwner(next.users, w, o);
      } else {
        assert SoleOwner(next.users, w, s.nextUser);
      }
    }
  }

  /** The owners survive any change of rows that keeps every owner's row an owner's, adds none and keeps workspaces. */
  lemma OwnersSurvive(before: map<nat, User>, after: map<nat, User>, workspace: nat)
    requires HasSoleOwner(before, workspace)
    requires forall id :: id in before && before[id].owner ==>
      id in after && after[id].owner && after[id].workspace == before[id].workspace
        && (before[id].role == Admin ==> after[id].role == Admin)
    requires forall id :: id in after && after[id].owner ==> id in before && before[id].owner
    ensures HasSoleOwner(after, workspace)
  {
    var o :| SoleOwner(before, workspace, o);
    assert SoleOwner(after, workspace, o);
  }

  lemma InsertKeepsTxs(s: State, t: nat)
    requires Inv(s) && t in s.txs && s.txs[t].phase.Counted?
    ensures TxsInv(TxStep(s, t, Insert(t)))
  {
    var next := TxStep(s, t, Insert(t));
    assert TxInv(s, t, s.txs[t]);
    forall q | q in next.txs ensures TxInv(next, q, next.txs[q]) {
      if q != t {
        InsertLeavesOthers(s, t, q);
      }
    }
  }

  lemma InsertLeavesOthers(s: State, t: nat, q: nat)
    requires RowsInv(s) && t in s.txs && s.txs[t].phase.Counted? && q in s.txs && q != t && TxInv(s, q, s.txs[q])
    ensures TxInv(TxStep(s, t, Insert(t)), q, s.txs[q])
  {
  }

  lemma InsertKeepsInv(s: State, t: nat)
    requires Inv(s) && t in s.txs && s.txs[t].phase.Counted?
    ensures Inv(TxStep(s, t, Insert(t)))
  {
    InsertKeepsTxs(s, t);
    TxOnlyStepKeepsTheRest(s, TxStep(s, t, Insert(t)));
  }

  lemma BeginKeepsInv(s: State, t: nat, tx: Tx)
    requires Inv(s) && t !in s.txs && tx.workspace in s.limits && tx.phase == Begun
    ensures Inv(s.(txs := s.txs[t := tx]))
  {
    TxOnlyStepKeepsTheRest(s, s.(txs := s.txs[t := tx]));
  }

  lemma LockKeepsTxs(s: State, t: nat)
    requires Inv(s) && t in s.txs
    ensures TxsInv(TxStep(s, t, Lock(t)))
  {
  }

  lemma LockKeepsInv(s: State, t: nat)
    requires Inv(s) && t in s.txs
    ensures Inv(TxStep(s, t, Lock(t)))
  {
    LockKeepsTxs(s, t);
    TxOnlyStepKeepsTheRest(s, TxStep(s, t, Lock(t)));
  }

  /** A commit fills a seat that was still free: nobody else in the workspace holds the lock. */
  lemma CommitKeepsSeats(s: State, t: nat, id: nat)
    requires Inv(s) && InPhase(s, t, Inserted(id))
    ensures TxsInv(Committed(s, t)) && SeatsInv(Committed(s, t))
  {
    var u, next := NewMember(s.txs[t]), Committed(s, t);
    forall w ensures SeatCount(next.users, w) == SeatCount(s.users, w) + (if u.workspace == w then 1 else 0) {
      SeatAdded(s.users, id, u, w);
    }
    forall q | q in next.txs ensures TxInv(next, q, next.txs[q]) {
      EndLeavesOthers(s, t, q);
    }
  }

  /** A committed member is never an owner. */
  lemma MemberKeepsOwners(users: map<nat, User>, id: nat, u: User, w: nat)
    requires id !in users && !u.owner && HasSoleOwner(users, w)
    ensures HasSoleOwner(users[id := u], w)
  {
    OwnersSurvive(users, users[id := u], w);
  }

  lemma CommitKeepsUpdate(s: State, t: nat, id: nat, u: Update)
    requires InPhase(s, t, Inserted(id)) && UpdateInv(s, u)
    ensures UpdateInv(Committed(s, t), u)
  {
  }

  lemma CommitKeepsOwners(s: State, t: nat, id: nat)
    requires Inv(s) && InPhase(s, t, Inserted(id))
    ensures OwnersInv(Committed(s, t))
  {
    var next := Committed(s, t);
    assert TxInv(s, t, s.txs[t]) && id !in s.users;
    forall w | w in next.limits ensures HasSoleOwner(next.users, w) {
      MemberKeepsOwners(s.users, id, NewMember(s.txs[t]), w);
    }
    forall k | k in next.updates ensures UpdateInv(next, next.updates[k]) {
      CommitKeepsUpdate(s, t, id, s.updates[k]);
    }
  }

  lemma CommitKeepsRows(s: State, t: nat, id: nat)
    requires Inv(s) && InPhase(s, t, Inserted(id))
    ensures RowsInv(Committed(s, t))
  {
    assert TxInv(s, t, s.txs[t]);
  }

  lemma CommitKeepsTickets(s: State, t: nat, id: nat)
    requires Inv(s) && InPhase(s, t, Inserted(id))
    ensures TicketsInv(Committed(s, t))
  {
  }

  lemma SignInKeepsInv(s: State, l: nat, ticket: Ticket)
    requires Inv(s) && Seen(s, ticket)
    ensures Inv(s.(logins := s.logins[l := ticket]))
  {
  }

  lemma CommitKeepsInv(s: State, t: nat)
    requires Inv(s) && t in s.txs && (s.txs[t].phase.Inserted? || s.txs[t].phase.Found?)
    ensures Inv(Committed(s, t))
  {
    match s.txs[t].phase
    case Inserted(id) =>
      CommitKeepsSeats(s, t, id);
      CommitKeepsRows(s, t, id);
      CommitKeepsOwners(s, t, id);
      CommitKeepsTickets(s, t, id);
    case Found(ticket) =>
      EndKeepsInv(s, t);
      SignInKeepsInv(End(s, t), t, ticket);
  }

  /** Rows may disappear, change role and count their version up; owners stay, and stay admins. */
  ghost predicate RowsEvolve(before: map<nat, User>, after: map<nat, User>) {
    && after.Keys <= before.Keys
    && (forall id :: id in after ==> after[id] == before[id].(role := after[id].role, version := after[id].version))
    && (forall id :: id in after ==> after[id].version >= before[id].version)
    && (forall id :: id in before && before[id].owner ==> id in after)
    && (forall id :: id in after && before[id].owner && before[id].role == Admin ==> after[id].role == Admin)
  }

  lemma EvolvedRowsKeepTxs(s: State, after: map<nat, User>)
    requires Inv(s) && RowsEvolve(s.users, after)
    ensures RowsInv(s.(users := after)) && TxsInv(s.(users := after)) && SeatsInv(s.(users := after))
  {
    forall w ensures SeatCount(after, w) <= SeatCount(s.users, w) {
      FewerRowsFewerSeats(s.users, after, w);
    }
  }

  lemma EvolvedRowsKeepOwners(s: State, after: map<nat, User>)
    requires Inv(s) && RowsEvolve(s.users, after)
    ensures OwnersInv(s.(users := after)) && TicketsInv(s.(users := after))
  {
    forall w | w in s.limits ensures HasSoleOwner(after, w) {
      OwnersSurvive(s.users, after, w);
    }
  }

  lemma EvolveKeepsInv(s: State, after: map<nat, User>)
    requires Inv(s) && RowsEvolve(s.users, after)
    ensures Inv(s.(users := after))
  {
    EvolvedRowsKeepTxs(s, after);
    EvolvedRowsKeepOwners(s, after);
  }

  lemma UpdateEvolvesRows(s: State, u: Update)
    requires WritesRow(s, u) && UpdateInv(s, u)
    ensures RowsEvolve(s.users, Updated(s, u))
  {
  }

  lemma DoneUpdateKeepsInv(s: State, k: nat)
    requires Inv(s)
    ensures Inv(s.(updates := s.updates - {k}))
  {
  }

  lemma AppliedUpdateKeepsInv(s: State, k: nat)
    requires Inv(s) && k in s.updates && WritesRow(s, s.updates[k])
    ensures Inv(s.(users := Updated(s, s.updates[k])))
  {
    UpdateEvolvesRows(s, s.updates[k]);
    EvolveKeepsInv(s, Updated(s, s.updates[k]));
  }

  lemma WriteUpdateKeepsInv(s: State, k: nat)
    requires Inv(s) && k in s.updates
    ensures Inv(UserStep(s, WriteUpdate(k)))
  {
    if WritesRow(s, s.updates[k]) {
      AppliedUpdateKeepsInv(s, k);
      DoneUpdateKeepsInv(s.(users := Updated(s, s.updates[k])), k);
    } else {
      DoneUpdateKeepsInv(s, k);
    }
  }

  lemma CheckUpdateKeepsInv(s: State, k: nat, u: Update)
    requires Inv(s) && UpdateInv(s, u)
    ensures Inv(s.(updates := s.updates[k := u]))
  {
  }

  /** Logins and sessions matter to the tickets only. */
  lemma TicketChangeKeepsInv(s: State, logins: map<nat, Ticket>, sessions: map<nat, Ticket>)
    requires Inv(s)
    requires forall l :: l in logins ==> Seen(s, logins[l])
    requires forall k :: k in sessions ==> Seen(s, sessions[k])
    ensures Inv(s.(logins := logins, sessions := sessions))
  {
    var next := s.(logins := logins, sessions := sessions);
    forall t | t in next.txs ensures TxInv(next, t, next.txs[t]) {
      assert TxInv(s, t, s.txs[t]);
    }
  }

  lemma WriteSessionKeepsInv(s: State, l: nat, token: nat)
    requires Inv(s)
    ensures Inv(UserStep(s, WriteSession(l, token)))
  {
    if l in s.logins && token !in s.sessions {
      TicketChangeKeepsInv(s, s.logins - {l}, s.sessions[token := s.logins[l]]);
    }
  }

  lemma DropSessionKeepsInv(s: State, token: nat)
    requires Inv(s)
    ensures Inv(UserStep(s, DropSession(token)))
  {
    TicketChangeKeepsInv(s, s.logins, s.sessions - {token});
  }

  lemma FindKeepsInv(s: State, t: nat, id: nat)
    requires Inv(s) && t in s.txs
    ensures Inv(TxStep(s, t, Find(t, id)))
  {
    if TxStep(s, t, Find(t, id)) != s {
      assert TxInv(s, t, s.txs[t]);
      AdvanceKeepsInv(s, t, Found(TicketFor(s, id)));
    }
  }

  lemma CountKeepsInv(s: State, t: nat)
    requires Inv(s) && t in s.txs
    ensures Inv(TxStep(s, t, Count(t)))
  {
    if HasRoom(s, s.txs[t].workspace) {
      if s.txs[t].phase.Locked? {
        assert TxInv(s, t, s.txs[t]);
        AdvanceKeepsInv(s, t, Counted);
      }
    } else {
      EndKeepsInv(s, t);
    }
  }

  lemma LateTxStepKeepsInv(s: State, e: Event)
    requires Inv(s) && (e.Insert? || e.Commit? || e.Abort?) && e.t in s.txs
    ensures Inv(TxStep(s, e.t, e))
  {
    var phase := s.txs[e.t].phase;
    if e.Insert? {
      if phase.Counted? { InsertKeepsInv(s, e.t); }
    } else if e.Commit? {
      if phase.Inserted? || phase.Found? { CommitKeepsInv(s, e.t); }
    } else {
      EndKeepsInv(s, e.t);
    }
  }

  lemma TxStepKeepsInv(s: State, e: Event)
    requires Inv(s) && IsTxEvent(e) && e.t in s.txs
    ensures Inv(TxStep(s, e.t, e))
  {
    match e
    case Lock(t) => LockKeepsInv(s, t);
    case Find(t, id) => FindKeepsInv(s, t, id);
    case Count(t) => CountKeepsInv(s, t);
    case _ => LateTxStepKeepsInv(s, e);
  }

  lemma DeleteKeepsInv(s: State, workspace: nat, actor: nat, id: nat)
    requires Inv(s)
    ensures Inv(UserStep(s, Delete(workspace, actor, id)))
  {
    if Deletable(s, workspace, actor, id) {
      EvolveKeepsInv(s, s.users - {id});
    }
  }

  lemma UserStepKeepsInv(s: State, e: Event)
    requires Inv(s)
    ensures Inv(UserStep(s, e))
  {
    match e
    case Delete(workspace, actor, id) =>
      DeleteKeepsInv(s, workspace, actor, id);
    case CheckUpdate(k, workspace, actor, id, role) =>
      if PassesUpdateChecks(s, workspace, actor, id, role) { CheckUpdateKeepsInv(s, k, Update(workspace, id, role)); }
    case WriteUpdate(k) => if k in s.updates { WriteUpdateKeepsInv(s, k); } else { DoneUpdateKeepsInv(s, k); }
    case ReadLogin(l, id) =>
      if id in s.users { SignInKeepsInv(s, l, TicketFor(s, id)); }
    case WriteSession(l, token) => WriteSessionKeepsInv(s, l, token);
    case DropSession(token) => DropSessionKeepsInv(s, token);
    case _ =>
  }

  lemma StepKeepsInv(s: State, e: Event)
    requires Inv(s)
    ensures Inv(Step(s, e))
  {
    if e.SignUp? {
      SignUpKeepsInv(s);
    } else if e.Begin? {
      if Step(s, e) != s { BeginKeepsInv(s, e.t, Tx(e.workspace, e.request, Begun)); }
    } else if IsTxEvent(e) {
      if e.t in s.txs { TxStepKeepsInv(s, e); }
    } else {
      UserStepKeepsInv(s, e);
    }
  }

  lemma {:induction false} RunKeepsInv(s: State, events: seq<Event>)
    requires Inv(s)
    ensures Inv(Run(s, events))
    decreases |events|
  {
    if events != [] {
      StepKeepsInv(s, events[0]);
      RunKeepsInv(Step(s, events[0]), events[1..]);
    }
  }
}
