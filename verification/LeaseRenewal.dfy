/**
 What each command of the lease achieves: who gets in, what a renewal renews, when a waiting call
 settles for another's success, and how long a key can stay taken.
 */
module LeaseRenewal {
  import opened Prelude
  import opened Redis
  import opened Lease
  import opened LeaseSafety

  /** The key is taken with this token until this time. */
  predicate TakenUntil(s: State, key: LockKey, token: Token, until: int) {
    key in s.locks && s.locks[key] == Entry(token, until)
  }

  predicate IsTaken(s: State, key: LockKey) {
    key in s.locks && s.now < s.locks[key].expires
  }

  // ----- One command -----

  /** A call enters collect exactly when the key is free, and then holds it for two minutes from now. */
  lemma EntersIffFree(s: State, w: int)
    requires Enabled(s, TryLock(w))
    ensures var x, s' := s.workers[w], Step(s, TryLock(w));
      && (s'.workers[w].phase == Collecting <==> !IsTaken(s, x.key))
      && (!IsTaken(s, x.key) ==> s'.locks == s.locks[x.key := Entry(x.token, s.now + 120)])
      && (IsTaken(s, x.key) ==>
            s'.locks == s.locks && s'.workers[w].phase == if x.coalesces then Waiting else Trying)
  {
  }

  /**
   A renewal that finds the key holding the worker's token extends it to two minutes from now and lets
   the collection go on; any other changes nothing in the store and cancels the collection.
   */
  lemma RenewsIffHeld(s: State, w: int)
    requires Enabled(s, Tick(w))
    ensures var x, s' := s.workers[w], Step(s, Tick(w));
      if IsTaken(s, x.key) && s.locks[x.key].value == x.token
      then
        && s'.locks == s.locks[x.key := Entry(x.token, s.now + 120)]
        && s'.workers[w] == x.(lastOk := s.now)
      else s'.locks == s.locks && s'.workers[w] == x.(cancelledAt := Some(s.now))
  {
  }

  /** A delivered release frees the key exactly when it still holds the worker's token. */
  lemma FreesIffHeld(s: State, w: int, delivered: bool)
    requires Enabled(s, Release(w, delivered))
    ensures var x, s' := s.workers[w], Step(s, Release(w, delivered));
      && s'.workers[w].phase == Returned(x.phase.ok, false)
      && (delivered && IsTaken(s, x.key) && s.locks[x.key].value == x.token ==> s'.locks == s.locks - {x.key})
      && (!(delivered && IsTaken(s, x.key) && s.locks[x.key].value == x.token) ==> s'.locks == s.locks)
  {
  }

  /** A waiting call goes on exactly when it finds the key free. */
  lemma SeesFreeKeyIff(s: State, w: int)
    requires Enabled(s, Poll(w))
    ensures Step(s, Poll(w)).workers[w].phase == if IsTaken(s, s.workers[w].key) then Waiting else Checking
    ensures Step(s, Poll(w)).locks == s.locks
  {
  }

  /**
   It then settles for the account's last success exactly when that is later than the attempt; else it
   starts over with a token of its own and a new start.
   */
  lemma SettlesIffRefreshed(s: State, w: int)
    requires Enabled(s, Check(w))
    ensures var x, s' := s.workers[w], Step(s, Check(w));
      if x.key in s.lastSync && x.waitStart < s.lastSync[x.key]
      then s'.workers[w].phase == Returned(true, true)
      else
        s'.workers[w] == x.(phase := Trying, token := s.nextToken, waitStart := s.now) && s'.nextToken > s.nextToken
  {
  }

  /** A recorded success is the account's last one and lets a compute collection return success. */
  lemma RecordsItsSuccess(s: State, w: int)
    requires Enabled(s, Commit(w))
    ensures var x, s' := s.workers[w], Step(s, Commit(w));
      && s'.lastSync == s.lastSync[x.key := s.now] && (x.key, s.now) in s'.commits
      && s'.workers[w] == x.(committed := true) && Enabled(s', Finish(w, true))
    ensures s.workers[w].coalesces && !s.workers[w].committed ==> !Enabled(s, Finish(w, true))
  {
  }

  /** A call that gives up fails; one that collected returns what its collection did. */
  lemma ReturnsWhatItDid(s: State, w: int, ok: bool)
    ensures Enabled(s, GiveUp(w)) ==> Step(s, GiveUp(w)) == Set(s, w, s.workers[w].(phase := Returned(false, false)))
    ensures Enabled(s, Finish(w, ok)) ==> Step(s, Finish(w, ok)) == Set(s, w, s.workers[w].(phase := Leaving(ok)))
    ensures Enabled(s, Crash(w)) ==> Step(s, Crash(w)).locks == s.locks && Step(s, Crash(w)).workers[w].phase.Crashed?
    ensures Enabled(s, Cancel(w)) ==>
      Step(s, Cancel(w)) == Set(s, w, s.workers[w].(cancelledAt := Some(s.now)))
  {
  }

  /** No call is ever stuck: until it has returned or its process has crashed it can send its next command. */
  lemma NextCommandIsPossible(s: State, w: int, key: LockKey, coalesces: bool)
    ensures w !in s.workers ==> Enabled(s, Call(w, key, coalesces))
    ensures w in s.workers ==>
      match s.workers[w].phase
      case Trying => Enabled(s, TryLock(w)) && Enabled(s, GiveUp(w))
      case Waiting => Enabled(s, Poll(w)) && Enabled(s, GiveUp(w))
      case Checking => Enabled(s, Check(w)) && Enabled(s, GiveUp(w))
      case Collecting => Enabled(s, Commit(w)) && Enabled(s, Finish(w, false))
      case Leaving(_) => Enabled(s, Release(w, true)) && Enabled(s, Release(w, false))
      case _ => true
    ensures w in s.workers && Holding(s.workers[w].phase) && s.workers[w].cancelledAt.None? ==>
      Enabled(s, Tick(w)) && Enabled(s, Cancel(w))
    ensures w in s.workers && !s.workers[w].phase.Returned? ==> Enabled(s, Crash(w))
  {
  }

  // ----- Who keeps ticking keeps the key -----

  /** No more than `gap` seconds pass at any state of the run since the worker's last renewal. */
  ghost predicate TicksWithin(s: State, events: seq<Event>, w: int, last: int, gap: nat)
    decreases |events|
  {
    && s.now - last <= gap
    && (events != [] ==>
          && Enabled(s, events[0])
          && TicksWithin(Step(s, events[0]), events[1..], w, if events[0] == Tick(w) then s.now else last, gap))
  }

  /** The worker took the key, and holds it for a full term from `last` unless it has returned. */
  predicate KeepsTheKey(s: State, w: int, last: int) {
    && w in s.workers
    && (Holding(s.workers[w].phase) || s.workers[w].phase.Crashed? || s.workers[w].phase.Returned?)
    && (!s.workers[w].phase.Returned? ==> TakenUntil(s, s.workers[w].key, s.workers[w].token, last + LEASE_TTL))
  }

  lemma TickingStepKeepsTheKey(s: State, e: Event, w: int, last: int)
    requires Inv(s) && Enabled(s, e) && KeepsTheKey(s, w, last) && s.now < last + LEASE_TTL
    ensures KeepsTheKey(Step(s, e), w, if e == Tick(w) then s.now else last)
    ensures Step(s, e).workers[w].key == s.workers[w].key
  {
    if Actor(e) != Some(w) && !e.Advance? {
      OthersLeaveAHeldKeyAlone(s, e, w);
    }
  }

  lemma {:induction false} TickingRunKeepsTheKey(s: State, events: seq<Event>, w: int, last: int, gap: nat)
    requires Inv(s) && KeepsTheKey(s, w, last) && TicksWithin(s, events, w, last, gap) && gap < LEASE_TTL
    ensures Run(s, events).Some?
    ensures var end := Run(s, events).value;
      && Inv(end) && w in end.workers && end.workers[w].key == s.workers[w].key
      && (!end.workers[w].phase.Returned? ==> Holds(end.locks, s.workers[w].key, end.workers[w].token, end.now))
    decreases |events|
  {
    if events != [] {
      StepKeepsInv(s, events[0]);
      TickingStepKeepsTheKey(s, events[0], w, last);
      TickingRunKeepsTheKey(Step(s, events[0]), events[1..], w, if events[0] == Tick(w) then s.now else last, gap);
    }
  }

  /**
   A worker that takes the key and sends a renewal at least every `gap` seconds, for any gap below the
   term and so for the server's 30, holds it at every state until it returns, whatever everybody else
   does; no other call enters collect for that key.
   */
  lemma WhoTicksKeepsTheKey(before: seq<Event>, w: int, events: seq<Event>, gap: nat, v: int)
    requires Run(INITIAL, before).Some? && gap < LEASE_TTL
    requires var s := Run(INITIAL, before).value;
      && Enabled(s, TryLock(w)) && !IsTaken(s, s.workers[w].key)
      && TicksWithin(Step(s, TryLock(w)), events, w, s.now, gap)
    ensures var s := Run(INITIAL, before).value;
      var key, end := s.workers[w].key, Run(Step(s, TryLock(w)), events);
      && end.Some? && w in end.value.workers
      && (!end.value.workers[w].phase.Returned? ==>
            && Holds(end.value.locks, key, end.value.workers[w].token, end.value.now)
            && (Enabled(end.value, TryLock(v)) && end.value.workers[v].key == key ==>
                  !Step(end.value, TryLock(v)).workers[v].phase.Collecting?))
  {
    var s := Run(INITIAL, before).value;
    RunKeepsInv(INITIAL, before);
    StepKeepsInv(s, TryLock(w));
    TickingRunKeepsTheKey(Step(s, TryLock(w)), events, w, s.now, gap);
  }

  // ----- How long a key stays taken -----

  /** The worker took the key, and took or last renewed it exactly one term before it expires. */
  predicate IsTaker(s: State, key: LockKey, w: int) {
    && w in s.workers && s.workers[w].key == key
    && (Holding(s.workers[w].phase) || s.workers[w].phase.Crashed? || s.workers[w].phase.Returned?)
    && TakenUntil(s, key, s.workers[w].token, s.workers[w].lastOk + LEASE_TTL)
  }

  ghost predicate HasATaker(s: State, key: LockKey) {
    key in s.locks ==> exists w :: IsTaker(s, key, w)
  }

  lemma TakerStays(s: State, e: Event, key: LockKey, w: int)
    requires Enabled(s, e) && IsTaker(s, key, w) && key in Step(s, e).locks && Step(s, e).locks[key] == s.locks[key]
    ensures IsTaker(Step(s, e), key, w)
  {
  }

  lemma NewTaker(s: State, e: Event, key: LockKey)
    requires Enabled(s, e) && key in Step(s, e).locks && !(key in s.locks && Step(s, e).locks[key] == s.locks[key])
    ensures (e.TryLock? || e.Tick?) && IsTaker(Step(s, e), key, e.w)
  {
    LockWritesAreOwn(s, e, key);
  }

  lemma StepKeepsTaker(s: State, e: Event, key: LockKey)
    requires Enabled(s, e) && HasATaker(s, key)
    ensures HasATaker(Step(s, e), key)
  {
    if key in Step(s, e).locks {
      if key in s.locks && Step(s, e).locks[key] == s.locks[key] {
        var w :| IsTaker(s, key, w);
        TakerStays(s, e, key, w);
      } else {
        NewTaker(s, e, key);
      }
    }
  }

  lemma {:induction false} RunKeepsTaker(s: State, events: seq<Event>, key: LockKey)
    requires HasATaker(s, key) && Run(s, events).Some?
    ensures HasATaker(Run(s, events).value, key)
    decreases |events|
  {
    if events != [] {
      StepKeepsTaker(s, events[0], key);
      RunKeepsTaker(Step(s, events[0]), events[1..], key);
    }
  }

  /**
   No key stays taken for longer than two minutes after its taker last took or renewed it, whether
   that worker crashed or its release was lost.
   */
  lemma TakenKeyWasRenewedLately(s: State, events: seq<Event>, key: LockKey)
    requires Reachable(s, events) && IsTaken(s, key)
    ensures exists w :: IsTaker(s, key, w) && s.now - s.workers[w].lastOk < 120
  {
    RunKeepsTaker(INITIAL, events, key);
  }

  // ----- Waiting calls settle -----

  /** The account's last success is at `t` or later. */
  predicate RefreshedSince(s: State, key: LockKey, t: int) {
    key in s.lastSync && t <= s.lastSync[key] <= s.now
  }

  lemma {:induction false} SuccessStays(s: State, events: seq<Event>, key: LockKey, t: int)
    requires Run(s, events).Some? && RefreshedSince(s, key, t) && ClearSync(key) !in events
    ensures RefreshedSince(Run(s, events).value, key, t)
    decreases |events|
  {
    if events != [] {
      SuccessStays(Step(s, events[0]), events[1..], key, t);
    }
  }

  lemma {:induction false} OwnStateStays(s: State, events: seq<Event>, w: int)
    requires Run(s, events).Some? && w in s.workers && (s.workers[w].phase.Waiting? || s.workers[w].phase.Checking?)
    requires forall e :: e in events && Actor(e) == Some(w) ==> e.Poll?
    ensures var end := Run(s, events).value;
      w in end.workers && end.workers[w].key == s.workers[w].key && end.workers[w].waitStart == s.workers[w].waitStart
    decreases |events|
  {
    if events != [] {
      assert events[0] in events;
      OwnStateStays(Step(s, events[0]), events[1..], w);
    }
  }

  /**
   A success recorded while a call waits answers it: if another worker commits for the same account
   later than the attempt began, then whenever the call next finds the key free and reads the last
   success, it returns that success without collecting.
   */
  lemma WaitingCallSettles(s: State, v: int, w: int, events: seq<Event>)
    requires Enabled(s, Commit(v)) && w in s.workers && w != v && s.workers[v].key == s.workers[w].key
    requires (s.workers[w].phase.Waiting? || s.workers[w].phase.Checking?) && s.workers[w].waitStart < s.now
    requires Run(Step(s, Commit(v)), events).Some? && ClearSync(s.workers[w].key) !in events
    requires forall e :: e in events && Actor(e) == Some(w) ==> e.Poll?
    requires Enabled(Run(Step(s, Commit(v)), events).value, Check(w))
    ensures Step(Run(Step(s, Commit(v)), events).value, Check(w)).workers[w].phase == Returned(true, true)
  {
    SuccessStays(Step(s, Commit(v)), events, s.workers[w].key, s.now);
    OwnStateStays(Step(s, Commit(v)), events, w);
  }
}
