/** What the lease guarantees over whole runs, and how much timeliness it needs. */
module LeaseSafety {
  import opened Prelude
  import opened Redis
  import opened Lease

  // ----- Who may change a lock key -----

  /**
   A step that changes a key either takes it while no live entry is there, or extends or deletes it
   while it holds the acting worker's own token.
   */
  lemma LockWritesAreOwn(s: State, e: Event, key: LockKey)
    requires Enabled(s, e)
    ensures var s' := Step(s, e);
      || ((key in s.locks) == (key in s'.locks) && (key in s.locks ==> s.locks[key] == s'.locks[key]))
      || (e.TryLock? && key == s.workers[e.w].key && !Live(s.locks, key, s.now))
      || ((e.Tick? || e.Release?) && key == s.workers[e.w].key && Holds(s.locks, key, s.workers[e.w].token, s.now))
  {
  }

  /** At any moment at most one worker per key is inside collect with a lease younger than its term. */
  lemma AtMostOneFreshCollector(s: State, events: seq<Event>, v: int, w: int)
    requires Reachable(s, events)
    requires v in s.workers && w in s.workers && s.workers[v].key == s.workers[w].key
    requires s.workers[v].phase.Collecting? && Fresh(s, s.workers[v])
    requires s.workers[w].phase.Collecting? && Fresh(s, s.workers[w])
    ensures v == w
  {
    ReachableInv(s, events);
    assert WorkerInv(s, s.workers[v]) && WorkerInv(s, s.workers[w]);
  }

  // ----- A lost lease -----

  /** The worker once held the key and its token is no longer there. */
  predicate Lost(s: State, w: int) {
    && w in s.workers
    && (Holding(s.workers[w].phase) || s.workers[w].phase.Returned? || s.workers[w].phase.Crashed?)
    && !Holds(s.locks, s.workers[w].key, s.workers[w].token, s.now)
  }

  lemma LostStepStaysLost(s: State, e: Event, w: int)
    requires Inv(s) && Enabled(s, e) && Lost(s, w)
    ensures Lost(Step(s, e), w)
    ensures Step(s, e).workers[w].token == s.workers[w].token && Step(s, e).workers[w].lastOk == s.workers[w].lastOk
    ensures e == Tick(w) ==> Step(s, e).workers[w].cancelledAt == Some(s.now) && Step(s, e).locks == s.locks
  {
    if (e.TryLock? || e.Tick? || e.Release?) && e.w != w {
      assert s.workers[e.w].token != s.workers[w].token;
    }
  }

  /**
   A worker that lost its lease never holds the key nor renews again, whatever follows; the first
   tick that finds it so cancels its collection and touches nothing.
   */
  lemma {:induction false} LostForever(s: State, events: seq<Event>, w: int)
    requires Inv(s) && Lost(s, w) && Run(s, events).Some?
    ensures Lost(Run(s, events).value, w)
    ensures Run(s, events).value.workers[w].lastOk == s.workers[w].lastOk
    ensures Enabled(s, Tick(w)) ==>
      Step(s, Tick(w)).workers[w].cancelledAt == Some(s.now) && Step(s, Tick(w)).locks == s.locks
    decreases |events|
  {
    if Enabled(s, Tick(w)) {
      LostStepStaysLost(s, Tick(w), w);
    }
    if events != [] {
      StepKeepsInv(s, events[0]);
      LostStepStaysLost(s, events[0], w);
      LostForever(Step(s, events[0]), events[1..], w);
    }
  }

  // ----- Coalesced returns -----

  /**
   A compute call that reports success either recorded a successful collection itself, or some
   collection of the same account recorded success after the call began, through any number of
   retries.
   */
  lemma SuccessIsHonest(s: State, events: seq<Event>, w: int)
    requires Reachable(s, events)
    requires w in s.workers && s.workers[w].coalesces && s.workers[w].phase.Returned? && s.workers[w].phase.ok
    ensures s.workers[w].committed
      || exists t :: (s.workers[w].key, t) in s.commits && s.workers[w].callStart < t <= s.now
  {
    ReachableInv(s, events);
    assert WorkerInv(s, s.workers[w]);
  }

  // ----- Timeliness -----

  ghost predicate NoOverlap(s: State) {
    forall v, w :: v in s.workers && w in s.workers && v != w ==>
      s.workers[v].phase.Collecting? && s.workers[w].phase.Collecting? ==> s.workers[v].key != s.workers[w].key
  }

  /**
   When each worker last sent a command that takes or renews its key, whatever came of it. A schedule
   is about these commands, so that what they achieve has to be proved.
   */
  type Sent = map<int, int>

  function After(sent: Sent, s: State, e: Event): Sent {
    if e.TryLock? || e.Tick? then sent[e.w := s.now] else sent
  }

  /** Nobody is inside collect for longer than `gap` since the last such command. */
  ghost predicate RenewsWithin(s: State, sent: Sent, gap: nat) {
    forall w :: w in s.workers && s.workers[w].phase.Collecting? ==> w in sent && s.now - sent[w] <= gap
  }

  /**
   Everybody inside collect sent such a command within the last renewal period, or has been
   cancelled for at most `grace` seconds.
   */
  ghost predicate OnSchedule(s: State, sent: Sent, grace: nat) {
    forall w :: w in s.workers && s.workers[w].phase.Collecting? ==>
      match s.workers[w].cancelledAt
      case None => w in sent && s.now - sent[w] <= RENEWAL_PERIOD
      case Some(c) => s.now - c <= grace
  }

  ghost predicate Throughout(s: State, events: seq<Event>, sent: Sent, p: (State, Sent) -> bool)
    decreases |events|
  {
    && p(s, sent)
    && (events != [] ==>
          Enabled(s, events[0]) && Throughout(Step(s, events[0]), events[1..], After(sent, s, events[0]), p))
  }

  /** On every run throughout which `p` holds no two collections of one key overlap. */
  ghost predicate PreventsOverlap(p: (State, Sent) -> bool) {
    forall s, events :: Reachable(s, events) && Throughout(INITIAL, events, map[], p) ==> NoOverlap(s)
  }

  /** A renewal gap of `gap` seconds rules out overlapping collections. */
  ghost predicate GapIsSafe(gap: nat) {
    PreventsOverlap((s, sent) => RenewsWithin(s, sent, gap))
  }

  /** The last command of everybody inside collect took or renewed the key. */
  ghost predicate SentIsRenewed(s: State, sent: Sent) {
    forall w :: w in s.workers && s.workers[w].phase.Collecting? ==> w in sent && sent[w] == s.workers[w].lastOk
  }

  lemma PunctualStepRenews(s: State, e: Event, sent: Sent, gap: nat)
    requires Inv(s) && Enabled(s, e) && gap < LEASE_TTL && RenewsWithin(s, sent, gap) && SentIsRenewed(s, sent)
    ensures SentIsRenewed(Step(s, e), After(sent, s, e))
  {
    if e.Tick? {
      assert WorkerInv(s, s.workers[e.w]);
    }
  }

  lemma {:induction false} PunctualRunRenews(s: State, events: seq<Event>, sent: Sent, gap: nat)
    requires Inv(s) && gap < LEASE_TTL && SentIsRenewed(s, sent)
    requires Throughout(s, events, sent, (x, a) => RenewsWithin(x, a, gap))
    ensures Run(s, events).Some?
    ensures var end := Run(s, events).value;
      forall w :: w in end.workers && end.workers[w].phase.Collecting? ==> Fresh(end, end.workers[w])
    decreases |events|
  {
    assert RenewsWithin(s, sent, gap);
    if events != [] {
      StepKeepsInv(s, events[0]);
      PunctualStepRenews(s, events[0], sent, gap);
      PunctualRunRenews(Step(s, events[0]), events[1..], After(sent, s, events[0]), gap);
    }
  }

  /**
   Two collections of one key never overlap, on every run whose collectors renew within `gap` seconds,
   exactly when `gap` is below the lease term of 120 seconds.
   */
  lemma GapIsSafeIffBelowTerm(gap: nat)
    ensures GapIsSafe(gap) <==> gap < 120
  {
    var p := (s: State, sent: Sent) => RenewsWithin(s, sent, gap);
    if gap < LEASE_TTL {
      forall s, events | Reachable(s, events) && Throughout(INITIAL, events, map[], p) ensures NoOverlap(s) {
        PunctualRunRenews(INITIAL, events, map[], gap);
        FreshCollectorsDoNotOverlap(s, events);
      }
    } else {
      assert forall i :: 0 <= i < |OVERLAP| ==> p(OVERLAP[i], OVERLAP_SENT[i]);
      OverlapHappens(p);
    }
  }

  // Two workers inside collect for one key: the first takes it at time 0, is cancelled after one
  // renewal period and is still inside when the second finds the key expired.

  const KEY := LockKey(1, "compute", 1)
  const FIRST := Worker(KEY, true, 0, 0, 0, Collecting, 0, None, false)
  const SECOND := Worker(KEY, true, 1, LEASE_TTL, LEASE_TTL, Collecting, LEASE_TTL, None, false)
  const LEFT_OVER := FIRST.(cancelledAt := Some(RENEWAL_PERIOD))

  const OVERLAP_EVENTS: seq<Event> := [
    Call(1, KEY, true), TryLock(1), Advance(RENEWAL_PERIOD), Cancel(1), Advance(LEASE_TTL - RENEWAL_PERIOD),
    Call(2, KEY, true), TryLock(2)]

  const OVERLAP: seq<State> := [
    INITIAL,
    State(0, map[], map[], {}, 1, map[1 := FIRST.(phase := Trying)]),
    State(0, map[KEY := Entry(0, LEASE_TTL)], map[], {}, 1, map[1 := FIRST]),
    State(RENEWAL_PERIOD, map[KEY := Entry(0, LEASE_TTL)], map[], {}, 1, map[1 := FIRST]),
    State(RENEWAL_PERIOD, map[KEY := Entry(0, LEASE_TTL)], map[], {}, 1, map[1 := LEFT_OVER]),
    State(LEASE_TTL, map[KEY := Entry(0, LEASE_TTL)], map[], {}, 1, map[1 := LEFT_OVER]),
    State(LEASE_TTL, map[KEY := Entry(0, LEASE_TTL)], map[], {}, 2, map[1 := LEFT_OVER, 2 := SECOND.(phase := Trying)]),
    State(LEASE_TTL, map[KEY := Entry(1, LEASE_TTL + LEASE_TTL)], map[], {}, 2, map[1 := LEFT_OVER, 2 := SECOND])]

  const OVERLAP_SENT: seq<Sent> := [
    map[], map[], map[1 := 0], map[1 := 0], map[1 := 0], map[1 := 0], map[1 := 0], map[1 := 0, 2 := LEASE_TTL]]

  /** A trace checked step by step is a run. */
  lemma {:induction false} TraceIsARun(states: seq<State>, events: seq<Event>, sent: seq<Sent>,
      p: (State, Sent) -> bool)
    requires |states| == |sent| == |events| + 1 && forall i :: 0 <= i < |states| ==> p(states[i], sent[i])
    requires forall i ::
      0 <= i < |events| ==> Enabled(states[i], events[i]) && Step(states[i], events[i]) == states[i + 1]
    requires forall i :: 0 <= i < |events| ==> After(sent[i], states[i], events[i]) == sent[i + 1]
    ensures Run(states[0], events) == Some(states[|events|]) && Throughout(states[0], events, sent[0], p)
    decreases |events|
  {
    if events != [] {
      TraceIsARun(states[1..], events[1..], sent[1..], p);
    }
  }

  lemma OverlapSends()
    ensures forall i :: 0 <= i < 7 ==> After(OVERLAP_SENT[i], OVERLAP[i], OVERLAP_EVENTS[i]) == OVERLAP_SENT[i + 1]
  {
  }

  lemma OverlapBegins()
    ensures forall i :: 0 <= i < 2 ==>
      Enabled(OVERLAP[i], OVERLAP_EVENTS[i]) && Step(OVERLAP[i], OVERLAP_EVENTS[i]) == OVERLAP[i + 1]
  {
    var x, e := OVERLAP, OVERLAP_EVENTS;
    assert Step(x[0], e[0]) == x[1];
    assert Step(x[1], e[1]) == x[2];
  }

  lemma OverlapGoesOn()
    ensures forall i :: 2 <= i < 4 ==>
      Enabled(OVERLAP[i], OVERLAP_EVENTS[i]) && Step(OVERLAP[i], OVERLAP_EVENTS[i]) == OVERLAP[i + 1]
  {
    var x, e := OVERLAP, OVERLAP_EVENTS;
    assert Step(x[2], e[2]) == x[3];
    assert Step(x[3], e[3]) == x[4];
  }

  lemma OverlapEnds()
    ensures forall i :: 4 <= i < 7 ==>
      Enabled(OVERLAP[i], OVERLAP_EVENTS[i]) && Step(OVERLAP[i], OVERLAP_EVENTS[i]) == OVERLAP[i + 1]
  {
    var x, e := OVERLAP, OVERLAP_EVENTS;
    assert Step(x[4], e[4]) == x[5];
    assert Step(x[5], e[5]) == x[6];
    assert Step(x[6], e[6]) == x[7];
  }

  lemma OverlapHappens(p: (State, Sent) -> bool)
    requires forall i :: 0 <= i < |OVERLAP| ==> p(OVERLAP[i], OVERLAP_SENT[i])
    ensures !PreventsOverlap(p)
  {
    var x := OVERLAP;
    OverlapBegins();
    OverlapGoesOn();
    OverlapEnds();
    OverlapSends();
    TraceIsARun(OVERLAP, OVERLAP_EVENTS, OVERLAP_SENT, p);
    assert Reachable(x[7], OVERLAP_EVENTS);
    assert 1 in x[7].workers && 2 in x[7].workers;
    assert !NoOverlap(x[7]);
  }

  lemma FreshCollectorsDoNotOverlap(s: State, events: seq<Event>)
    requires Reachable(s, events)
    requires forall w :: w in s.workers && s.workers[w].phase.Collecting? ==> Fresh(s, s.workers[w])
    ensures NoOverlap(s)
  {
    forall v, w | v in s.workers && w in s.workers && s.workers[v].phase.Collecting? && s.workers[w].phase.Collecting?
      && s.workers[v].key == s.workers[w].key
      ensures v == w
    {
      AtMostOneFreshCollector(s, events, v, w);
    }
  }

  /** Renewal every 30 seconds, and cancelled collections that leave within `grace` seconds. */
  ghost predicate GraceIsSafe(grace: nat) {
    PreventsOverlap((s, sent) => OnSchedule(s, sent, grace))
  }

  /** On a schedule, a collection not cancelled has just renewed, and a cancelled one had when it was. */
  predicate RenewedLately(s: State, sent: Sent, w: int) {
    w in s.workers ==>
      var x := s.workers[w];
      && (x.phase.Trying? || x.phase.Waiting? || x.phase.Checking? ==> x.cancelledAt.None?)
      && (x.phase.Collecting? && x.cancelledAt.None? ==> w in sent && sent[w] == x.lastOk)
      && (x.phase.Collecting? && x.cancelledAt.Some? ==> x.cancelledAt.value - x.lastOk <= RENEWAL_PERIOD)
  }

  lemma ScheduledStepRenews(s: State, e: Event, sent: Sent, grace: nat, w: int)
    requires Enabled(s, e) && OnSchedule(s, sent, grace) && RenewedLately(s, sent, w)
    ensures RenewedLately(Step(s, e), After(sent, s, e), w)
  {
    if Actor(e) == Some(w) {
    } else {
      assert w in Step(s, e).workers ==> w in s.workers && Step(s, e).workers[w] == s.workers[w];
    }
  }

  lemma {:induction false} ScheduledRunRenews(s: State, events: seq<Event>, sent: Sent, grace: nat)
    requires forall w :: RenewedLately(s, sent, w)
    requires Throughout(s, events, sent, (x, a) => OnSchedule(x, a, grace))
    requires grace < LEASE_TTL - RENEWAL_PERIOD
    ensures Run(s, events).Some?
    ensures var end := Run(s, events).value;
      forall w :: w in end.workers && end.workers[w].phase.Collecting? ==> Fresh(end, end.workers[w])
    decreases |events|
  {
    assert OnSchedule(s, sent, grace) && forall w :: w in s.workers ==> RenewedLately(s, sent, w);
    if events != [] {
      forall w ensures RenewedLately(Step(s, events[0]), After(sent, s, events[0]), w) {
        ScheduledStepRenews(s, events[0], sent, grace, w);
      }
      ScheduledRunRenews(Step(s, events[0]), events[1..], After(sent, s, events[0]), grace);
    }
  }

  /**
   With the server's own numbers: sending a renewal every 30 seconds under a 120-second term, collections
   of one key never overlap exactly when a cancelled one leaves within less than 90 seconds.
   */
  lemma GraceIsSafeIffBelowRest(grace: nat)
    ensures GraceIsSafe(grace) <==> grace < 90
  {
    var p := (s: State, sent: Sent) => OnSchedule(s, sent, grace);
    if grace < LEASE_TTL - RENEWAL_PERIOD {
      forall s, events | Reachable(s, events) && Throughout(INITIAL, events, map[], p) ensures NoOverlap(s) {
        ScheduledRunRenews(INITIAL, events, map[], grace);
        FreshCollectorsDoNotOverlap(s, events);
      }
    } else {
      assert forall i :: 0 <= i < |OVERLAP| ==> p(OVERLAP[i], OVERLAP_SENT[i]);
      OverlapHappens(p);
    }
  }
}
