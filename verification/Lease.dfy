/**
 The collector lease: any number of workers, in any number of processes, compete for one lock key
 per workspace, service and account. A worker that takes the key collects, renews every 30 seconds
 and finally releases; a worker that finds the key taken either retries, or (compute inventory)
 waits until it is gone and then settles for a collection that finished in the meantime.

 Every event below is one atomic step of one worker, one Redis command or one SQL statement; a run is
 any sequence of enabled events, so crashes, delays and interleavings are all included. Times are
 seconds on one clock.
 */
module Lease {
  import opened Prelude
  import opened Redis

  const LEASE_TTL := 120
  const RENEWAL_PERIOD := 30

  datatype LockKey = LockKey(workspace: int, service: string, account: int)
  type Token = nat

  datatype Phase =
    | Trying                                // about to send SETNX
    | Waiting                               // polling until the key is gone
    | Checking                              // saw it gone, about to read the last sync time
    | Collecting                            // inside collect
    | Leaving(ok: bool)                     // collect has returned, the release is still to be sent
    | Returned(ok: bool, coalesced: bool)
    | Crashed

  datatype Worker = Worker(
    key: LockKey,
    coalesces: bool,          // waits and settles for another worker's success
    token: Token,
    callStart: int,           // when the original call began
    waitStart: int,           // when the current attempt began
    phase: Phase,
    lastOk: int,              // last time the key was taken or renewed
    cancelledAt: Option<int>, // when the collection context was cancelled
    committed: bool)          // recorded a successful collection

  datatype State = State(
    now: int,
    locks: map<LockKey, Entry<Token>>,
    lastSync: map<LockKey, int>,       // the account's last_sync_at; absent when null
    commits: set<(LockKey, int)>,      // every success ever recorded
    nextToken: Token,
    workers: map<int, Worker>)

  const INITIAL := State(0, map[], map[], {}, 0, map[])

  datatype Event =
    | Call(w: int, key: LockKey, coalesces: bool)
    | TryLock(w: int)
    | GiveUp(w: int)
    | Poll(w: int)
    | Check(w: int)
    | Tick(w: int)
    | Cancel(w: int)
    | Commit(w: int)
    | Finish(w: int, ok: bool)
    | Release(w: int, delivered: bool)
    | Crash(w: int)
    | ClearSync(key: LockKey)
    | Advance(seconds: nat)

  /** The worker took the key in its current attempt and is not done with it. */
  predicate Holding(p: Phase) {
    p.Collecting? || p.Leaving?
  }

  predicate Enabled(s: State, e: Event) {
    match e
    case Call(w, _, _) => w !in s.workers
    case TryLock(w) => w in s.workers && s.workers[w].phase.Trying?
    case GiveUp(w) =>
      w in s.workers && (s.workers[w].phase.Trying? || s.workers[w].phase.Waiting? || s.workers[w].phase.Checking?)
    case Poll(w) => w in s.workers && s.workers[w].phase.Waiting?
    case Check(w) => w in s.workers && s.workers[w].phase.Checking?
    case Tick(w) => w in s.workers && Holding(s.workers[w].phase) && s.workers[w].cancelledAt.None?
    case Cancel(w) => w in s.workers && Holding(s.workers[w].phase) && s.workers[w].cancelledAt.None?
    case Commit(w) => w in s.workers && s.workers[w].phase.Collecting?
    case Finish(w, ok) =>
      w in s.workers && s.workers[w].phase.Collecting? && (ok && s.workers[w].coalesces ==> s.workers[w].committed)
    case Release(w, _) => w in s.workers && s.workers[w].phase.Leaving?
    case Crash(w) => w in s.workers && !s.workers[w].phase.Returned?
    case ClearSync(_) => true
    case Advance(_) => true
  }

  function Set(s: State, w: int, worker: Worker): State {
    s.(workers := s.workers[w := worker])
  }

  function Step(s: State, e: Event): State
    requires Enabled(s, e)
  {
    match e
    case Call(w, key, coalesces) =>
      var worker := Worker(key, coalesces, s.nextToken, s.now, s.now, Trying, s.now, None, false);
      Set(s, w, worker).(nextToken := s.nextToken + 1)
    case TryLock(w) =>
      var x := s.workers[w];
      if Live(s.locks, x.key, s.now) then Set(s, w, x.(phase := if x.coalesces then Waiting else Trying))
      else
        Set(s, w, x.(phase := Collecting, lastOk := s.now))
          .(locks := SetIfAbsent(s.locks, x.key, x.token, LEASE_TTL, s.now))
    case GiveUp(w) => Set(s, w, s.workers[w].(phase := Returned(false, false)))
    case Poll(w) =>
      var x := s.workers[w];
      if Live(s.locks, x.key, s.now) then s else Set(s, w, x.(phase := Checking))
    case Check(w) =>
      var x := s.workers[w];
      if x.key in s.lastSync && s.lastSync[x.key] > x.waitStart then Set(s, w, x.(phase := Returned(true, true)))
      else Set(s, w, x.(phase := Trying, token := s.nextToken, waitStart := s.now)).(nextToken := s.nextToken + 1)
    case Tick(w) =>
      var x := s.workers[w];
      var locks := CompareAndExpire(s.locks, x.key, x.token, LEASE_TTL, s.now);
      if Holds(s.locks, x.key, x.token, s.now) then Set(s, w, x.(lastOk := s.now)).(locks := locks)
      else Set(s, w, x.(cancelledAt := Some(s.now))).(locks := locks)
    case Cancel(w) => Set(s, w, s.workers[w].(cancelledAt := Some(s.now)))
    case Commit(w) =>
      var x := s.workers[w];
      Set(s, w, x.(committed := true)).(lastSync := s.lastSync[x.key := s.now], commits := s.commits + {(x.key, s.now)})
    case Finish(w, ok) => Set(s, w, s.workers[w].(phase := Leaving(ok)))
    case Release(w, delivered) =>
      var x := s.workers[w];
      Set(s, w, x.(phase := Returned(x.phase.ok, false)))
        .(locks := if delivered then CompareAndDelete(s.locks, x.key, x.token, s.now) else s.locks)
    case Crash(w) => Set(s, w, s.workers[w].(phase := Crashed))
    case ClearSync(key) => s.(lastSync := map k | k in s.lastSync && k != key :: s.lastSync[k])
    case Advance(seconds) => s.(now := s.now + seconds)
  }

  // ----- Runs -----

  /** The states a list of events leads through from `s`; None as soon as one is not enabled. */
  function Run(s: State, events: seq<Event>): Option<State>
    decreases |events|
  {
    if events == [] then Some(s)
    else if !Enabled(s, events[0]) then None
    else Run(Step(s, events[0]), events[1..])
  }

  // ----- The invariant -----

  /** Less than one lease term has passed since the worker last took or renewed the key. */
  predicate Fresh(s: State, x: Worker) {
    s.now < x.lastOk + LEASE_TTL
  }

  ghost predicate WorkerInv(s: State, x: Worker) {
    && x.token < s.nextToken
    && x.callStart <= x.waitStart <= s.now && x.lastOk <= s.now
    && (Holding(x.phase) && Fresh(s, x) ==>
          Holds(s.locks, x.key, x.token, s.now) && s.locks[x.key].expires == x.lastOk + LEASE_TTL)
    && ((x.phase.Leaving? || (x.phase.Returned? && !x.phase.coalesced)) && x.phase.ok && x.coalesces ==> x.committed)
    && (x.phase.Returned? && x.phase.coalesced ==>
          x.phase.ok && exists t :: (x.key, t) in s.commits && x.callStart < t <= s.now)
  }

  ghost predicate TokensInv(s: State) {
    && (forall v, w :: v in s.workers && w in s.workers && v != w ==> s.workers[v].token != s.workers[w].token)
    && (forall k :: k in s.locks ==> s.locks[k].value < s.nextToken)
  }

  ghost predicate CommitsInv(s: State) {
    && (forall k :: k in s.lastSync ==> (k, s.lastSync[k]) in s.commits)
    && (forall c :: c in s.commits ==> c.1 <= s.now)
  }

  ghost predicate Inv(s: State) {
    (forall w :: w in s.workers ==> WorkerInv(s, s.workers[w])) && TokensInv(s) && CommitsInv(s)
  }

  /** A step gives its worker no token but a new one. */
  lemma TokensStayOrAreNew(s: State, e: Event, w: int)
    requires Enabled(s, e) && w in Step(s, e).workers
    ensures s.nextToken <= Step(s, e).nextToken
    ensures var token := Step(s, e).workers[w].token;
      || (w in s.workers && token == s.workers[w].token)
      || (Actor(e) == Some(w) && token == s.nextToken && s.nextToken < Step(s, e).nextToken)
  {
  }

  lemma LockValuesAreTokens(s: State, e: Event, k: LockKey)
    requires Enabled(s, e) && k in Step(s, e).locks
    ensures var value := Step(s, e).locks[k].value;
      (k in s.locks && value == s.locks[k].value) || (e.TryLock? && value == s.workers[e.w].token)
  {
  }

  lemma StepKeepsTokens(s: State, e: Event)
    requires Inv(s) && Enabled(s, e)
    ensures TokensInv(Step(s, e))
  {
    var s' := Step(s, e);
    forall v, w | v in s'.workers && w in s'.workers && v != w ensures s'.workers[v].token != s'.workers[w].token {
      TokensStayOrAreNew(s, e, v);
      TokensStayOrAreNew(s, e, w);
      assert v in s.workers ==> WorkerInv(s, s.workers[v]);
      assert w in s.workers ==> WorkerInv(s, s.workers[w]);
    }
    forall k | k in s'.locks ensures s'.locks[k].value < s'.nextToken {
      LockValuesAreTokens(s, e, k);
      assert e.TryLock? ==> WorkerInv(s, s.workers[e.w]);
    }
  }

  lemma StepKeepsCommits(s: State, e: Event)
    requires CommitsInv(s) && Enabled(s, e)
    ensures CommitsInv(Step(s, e))
  {
  }

  lemma StepKeepsInv(s: State, e: Event)
    requires Inv(s) && Enabled(s, e)
    ensures Inv(Step(s, e))
  {
    var s' := Step(s, e);
    StepKeepsTokens(s, e);
    StepKeepsCommits(s, e);
    forall w | w in s'.workers ensures WorkerInv(s', s'.workers[w]) {
      assert w in s.workers ==> WorkerInv(s, s.workers[w]);
      StepKeepsWorker(s, e, w);
    }
  }

  /** The worker whose step an event is. */
  function Actor(e: Event): Option<int> {
    match e
    case Call(w, _, _) => Some(w)
    case ClearSync(_) => None
    case Advance(_) => None
    case _ => Some(e.w)
  }

  lemma StepKeepsWorker(s: State, e: Event, w: int)
    requires Inv(s) && Enabled(s, e) && w in Step(s, e).workers
    ensures WorkerInv(Step(s, e), Step(s, e).workers[w])
  {
    assert w in s.workers ==> WorkerInv(s, s.workers[w]);
    if e.Advance? {
      AdvanceKeepsWorker(s, e, w);
    } else if Actor(e) == Some(w) {
      if e.TryLock? || e.Tick? || e.Release? {
        LockStepKeepsActor(s, e, w);
      } else {
        LocalStepKeepsActor(s, e, w);
      }
    } else {
      StepKeepsOthers(s, e, w);
    }
  }

  lemma AdvanceKeepsWorker(s: State, e: Event, w: int)
    requires e.Advance? && w in s.workers && WorkerInv(s, s.workers[w])
    ensures WorkerInv(Step(s, e), s.workers[w])
  {
  }

  lemma LockStepKeepsActor(s: State, e: Event, w: int)
    requires Inv(s) && Enabled(s, e) && (e.TryLock? || e.Tick? || e.Release?) && e.w == w
    ensures WorkerInv(Step(s, e), Step(s, e).workers[w])
  {
    assert WorkerInv(s, s.workers[w]);
  }

  lemma LocalStepKeepsActor(s: State, e: Event, w: int)
    requires Inv(s) && Enabled(s, e) && Actor(e) == Some(w) && !(e.TryLock? || e.Tick? || e.Release?)
    ensures WorkerInv(Step(s, e), Step(s, e).workers[w])
  {
    if w in s.workers {
      var x := s.workers[w];
      assert WorkerInv(s, x);
      if e.Check? && x.key in s.lastSync {
        assert (x.key, s.lastSync[x.key]) in s.commits;
      }
    }
  }

  lemma StepKeepsOthers(s: State, e: Event, w: int)
    requires Inv(s) && Enabled(s, e) && w in s.workers && Actor(e) != Some(w) && !e.Advance?
    ensures Step(s, e).workers[w] == s.workers[w] && WorkerInv(Step(s, e), s.workers[w])
  {
    var x := s.workers[w];
    assert WorkerInv(s, x);
    OthersLeaveAHeldKeyAlone(s, e, w);
    assert s.commits <= Step(s, e).commits;
  }

  /** No step of anyone else changes a key while it holds this worker's token. */
  lemma OthersLeaveAHeldKeyAlone(s: State, e: Event, w: int)
    requires Inv(s) && Enabled(s, e) && w in s.workers && Actor(e) != Some(w) && !e.Advance?
    ensures var x := s.workers[w];
      Holds(s.locks, x.key, x.token, s.now) ==>
        && Holds(Step(s, e).locks, x.key, x.token, s.now)
        && Step(s, e).locks[x.key] == s.locks[x.key]
  {
    if e.TryLock? || e.Tick? || e.Release? {
      assert s.workers[e.w].token != s.workers[w].token;
    }
  }

  lemma {:induction false} RunKeepsInv(s: State, events: seq<Event>)
    requires Inv(s) && Run(s, events).Some?
    ensures Inv(Run(s, events).value)
    decreases |events|
  {
    if events != [] {
      StepKeepsInv(s, events[0]);
      RunKeepsInv(Step(s, events[0]), events[1..]);
    }
  }

  predicate Reachable(s: State, events: seq<Event>) {
    Run(INITIAL, events) == Some(s)
  }

  lemma ReachableInv(s: State, events: seq<Event>)
    requires Reachable(s, events)
    ensures Inv(s)
  {
    RunKeepsInv(INITIAL, events);
  }
}
