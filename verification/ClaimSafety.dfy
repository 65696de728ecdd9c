/** What claiming guarantees over whole runs, and where it depends on reads that do not fail. */
module ClaimSafety {
  import opened Prelude
  import opened Redis
  import opened Claims

  /** Every step of the run is harmless where it happens. */
  predicate HarmlessRun(s: State, events: seq<Event>)
    decreases |events|
  {
    events != [] ==> Enabled(s, events[0]) && HarmlessStep(s, events[0]) && HarmlessRun(Step(s, events[0]), events[1..])
  }

  lemma {:induction false} HarmlessRunKeepsInv(s: State, events: seq<Event>)
    requires Inv(s) && HarmlessRun(s, events)
    ensures Run(s, events).Some? && Inv(Run(s, events).value)
    decreases |events|
  {
    if events != [] {
      StepKeepsInv(s, events[0]);
      HarmlessRunKeepsInv(Step(s, events[0]), events[1..]);
    }
  }

  predicate Reachable(s: State, events: seq<Event>) {
    HarmlessRun(INITIAL, events) && Run(INITIAL, events) == Some(s)
  }

  /** Requests that never delete a claim make every run harmless, however many reads fail. */
  lemma {:induction false} RunsWithoutCleaningAreHarmless(s: State, events: seq<Event>)
    requires Run(s, events).Some?
    requires forall r :: r in s.requests ==> !s.requests[r].cleans
    requires forall e :: e in events && e.Arrive? ==> !e.cleans
    ensures HarmlessRun(s, events)
    decreases |events|
  {
    if events != [] {
      var s' := Step(s, events[0]);
      assert events[0] in events;
      forall r | r in s'.requests ensures !s'.requests[r].cleans {
        assert r in s.requests || events[0].Arrive?;
      }
      RunsWithoutCleaningAreHarmless(s', events[1..]);
    }
  }

  // ----- The claim -----

  /**
   For a job claimed at time t that has not made its final save, the scope key names that job until
   t + 600, crashed or not; from then on it never does.
   */
  lemma ClaimLastsItsTerm(s: State, events: seq<Event>, j: JobId)
    requires Reachable(s, events) && j in s.jobs
    ensures !s.jobs[j].finalSave && s.now < s.jobs[j].claimedAt + CLAIM_TTL ==>
      Holds(s.scopes, s.jobs[j].scope, j, s.now)
    ensures s.now >= s.jobs[j].claimedAt + CLAIM_TTL ==> !Holds(s.scopes, s.jobs[j].scope, j, s.now)
  {
    HarmlessRunKeepsInv(INITIAL, events);
    assert ClaimHeld(s, j) && RecordKept(s, j);
    if s.jobs[j].scope in s.scopes {
      assert ScopeInv(s, s.jobs[j].scope);
    }
  }

  /** No step, in particular no release and no stale cleanup, removes the live claim of an unfinished job. */
  lemma NobodyRemovesAnUnfinishedClaim(s: State, events: seq<Event>, j: JobId, e: Event)
    requires Reachable(s, events) && j in s.jobs && !s.jobs[j].finalSave
    requires Enabled(s, e) && Holds(s.scopes, s.jobs[j].scope, j, s.now)
    ensures var scope := s.jobs[j].scope;
      scope in Step(s, e).scopes && Step(s, e).scopes[scope] == s.scopes[scope]
  {
    HarmlessRunKeepsInv(INITIAL, events);
    assert ClaimHeld(s, j) && RecordKept(s, j) && ScopeInv(s, s.jobs[j].scope);
    if e.Clean? {
      assert CleansWhatIsOver(s, e.r);
    }
    if e.Release? {
      assert RecordKept(s, e.j);
    }
  }

  /** The step deletes the live claim of a job that has not made its final save. */
  ghost predicate TakesAClaim(s: State, e: Event)
    requires Enabled(s, e)
  {
    exists j :: j in s.jobs && !s.jobs[j].finalSave && Holds(s.scopes, s.jobs[j].scope, j, s.now)
      && !Holds(Step(s, e).scopes, s.jobs[j].scope, j, s.now)
  }

  /**
   Exactly when a failed read costs a job its claim: the cleanup that follows it deletes the live
   claim of an unfinished job if and only if the job the request could not load is not over.
   */
  lemma FailedReadTakesAClaimIff(s: State, events: seq<Event>, r: int)
    requires Reachable(s, events) && Enabled(s, LoadFails(r)) && s.requests[r].cleans
    ensures Enabled(Step(s, LoadFails(r)), Clean(r, true))
    ensures TakesAClaim(Step(s, LoadFails(r)), Clean(r, true)) <==> !HarmlessStep(s, LoadFails(r))
  {
    HarmlessRunKeepsInv(INITIAL, events);
    assert NamesItsScope(s, r);
    var j := s.requests[r].phase.existing;
    var s1 := Step(s, LoadFails(r));
    assert ClaimHeld(s, j) && RecordKept(s, j);
    assert s1.scopes == s.scopes && s1.jobs == s.jobs && s1.now == s.now;
    if TakesAClaim(s1, Clean(r, true)) {
      var i :| i in s1.jobs && !s1.jobs[i].finalSave && Holds(s1.scopes, s1.jobs[i].scope, i, s1.now)
        && !Holds(Step(s1, Clean(r, true)).scopes, s1.jobs[i].scope, i, s1.now);
      assert i == j;
      ClaimLastsItsTerm(s, events, i);
    }
  }

  /**
   And nothing else does: on any run at all, a step that takes a claim comes after a read that
   failed on a job that was not over.
   */
  lemma TakenClaimNeedsAHarmfulRead(events: seq<Event>, e: Event)
    requires Run(INITIAL, events).Some? && Enabled(Run(INITIAL, events).value, e)
    requires TakesAClaim(Run(INITIAL, events).value, e)
    ensures !HarmlessRun(INITIAL, events)
  {
    var s := Run(INITIAL, events).value;
    if HarmlessRun(INITIAL, events) {
      var j :| j in s.jobs && !s.jobs[j].finalSave && Holds(s.scopes, s.jobs[j].scope, j, s.now)
        && !Holds(Step(s, e).scopes, s.jobs[j].scope, j, s.now);
      NobodyRemovesAnUnfinishedClaim(s, events, j, e);
    }
  }

  // ----- What holds however many reads fail -----

  /**
   On every run at all, a live scope key names a job whose record is live, and a request is answered
   with a job of the scope it asked for.
   */
  lemma LiveScopeHasLiveRecord(events: seq<Event>, scope: string, r: int)
    requires Run(INITIAL, events).Some?
    ensures var s := Run(INITIAL, events).value;
      && (Live(s.scopes, scope, s.now) ==> Live(s.records, s.scopes[scope].value, s.now))
      && (r in s.requests && s.requests[r].phase.Answered? ==>
            IsOfScope(s, s.requests[r].phase.job, s.requests[r].scope))
  {
    RunKeepsBase(INITIAL, events);
    var s := Run(INITIAL, events).value;
    if scope in s.scopes {
      assert ScopeInv(s, scope);
      assert RecordKept(s, s.scopes[scope].value);
    }
    assert r in s.requests ==> NamesItsScope(s, r);
  }

  function Progress(status: Status): nat {
    match status
    case Queued => 0
    case Running => 1
    case _ => 2
  }

  /** A status may become another: it moves on, or it is the same. */
  predicate MovesForward(before: Status, after: Status) {
    Progress(before) <= Progress(after) && (Terminal(before) ==> after == before)
  }

  lemma StepMovesForward(s: State, e: Event, j: JobId)
    requires Enabled(s, e) && j in s.jobs && RecordKept(s, j)
    ensures j in Step(s, e).jobs && j in Step(s, e).records
    ensures MovesForward(s.records[j].value, Step(s, e).records[j].value)
  {
  }

  lemma {:induction false} StatusMovesForwardFrom(s: State, events: seq<Event>, j: JobId)
    requires BaseInv(s) && Run(s, events).Some? && j in s.jobs
    ensures j in s.records && j in Run(s, events).value.records
    ensures MovesForward(s.records[j].value, Run(s, events).value.records[j].value)
    decreases |events|
  {
    assert RecordKept(s, j);
    if events != [] {
      StepMovesForward(s, events[0], j);
      StepKeepsBase(s, events[0]);
      StatusMovesForwardFrom(Step(s, events[0]), events[1..], j);
    }
  }

  /**
   On every run at all, a recorded status only moves from queued to running to one terminal status,
   and then stays.
   */
  lemma StatusOnlyMovesForward(before: seq<Event>, after: seq<Event>, j: JobId)
    requires Run(INITIAL, before).Some? && Run(Run(INITIAL, before).value, after).Some?
    requires j in Run(INITIAL, before).value.jobs
    ensures var s, s' := Run(INITIAL, before).value, Run(Run(INITIAL, before).value, after).value;
      j in s.records && j in s'.records && MovesForward(s.records[j].value, s'.records[j].value)
  {
    RunKeepsBase(INITIAL, before);
    StatusMovesForwardFrom(Run(INITIAL, before).value, after, j);
  }

  // ----- Overlap -----

  predicate Active(job: Job) {
    job.phase.Launched? || job.phase.Working?
  }

  ghost predicate NoOverlap(s: State) {
    forall i, j :: i in s.jobs && j in s.jobs && i != j ==>
      Active(s.jobs[i]) && Active(s.jobs[j]) ==> s.jobs[i].scope != s.jobs[j].scope
  }

  /** Every job still running was claimed at most `bound` seconds ago. */
  ghost predicate FinishedWithin(s: State, bound: nat) {
    forall j :: j in s.jobs && Active(s.jobs[j]) ==> s.now - s.jobs[j].claimedAt <= bound
  }

  ghost predicate Throughout(s: State, events: seq<Event>, bound: nat)
    decreases |events|
  {
    FinishedWithin(s, bound)
      && (events != [] ==> Enabled(s, events[0]) && Throughout(Step(s, events[0]), events[1..], bound))
  }

  lemma {:induction false} ThroughoutIncludesTheEnd(s: State, events: seq<Event>, bound: nat)
    requires Throughout(s, events, bound)
    ensures Run(s, events).Some? && FinishedWithin(Run(s, events).value, bound)
    decreases |events|
  {
    if events != [] {
      ThroughoutIncludesTheEnd(Step(s, events[0]), events[1..], bound);
    }
  }

  ghost predicate BoundIsSafe(bound: nat) {
    forall s, events :: Reachable(s, events) && Throughout(INITIAL, events, bound) ==> NoOverlap(s)
  }

  /**
   Two jobs of one scope never run at once, on every run whose jobs finish within `bound` seconds
   of their claim, exactly when `bound` is below the claim's 600 seconds. The EDS and OSS runs, cut
   off after 300, are on the safe side; the inventory and security-group runs may use all 600.
   */
  lemma BoundIsSafeIffBelowTerm(bound: nat)
    ensures BoundIsSafe(bound) <==> bound < 600
  {
    if bound < CLAIM_TTL {
      forall s, events | Reachable(s, events) && Throughout(INITIAL, events, bound) ensures NoOverlap(s) {
        ThroughoutIncludesTheEnd(INITIAL, events, bound);
        HarmlessRunKeepsInv(INITIAL, events);
        forall i, j | i in s.jobs && j in s.jobs && Active(s.jobs[i]) && Active(s.jobs[j])
          && s.jobs[i].scope == s.jobs[j].scope
          ensures i == j
        {
          assert ClaimHeld(s, i) && ClaimHeld(s, j) && RecordKept(s, i) && RecordKept(s, j);
        }
      }
    } else {
      OverlapHappens(bound);
    }
  }

  const SCOPE := "s"
  const FIRST := Job(SCOPE, 0, Launched, false)

  const OVERLAP_EVENTS: seq<Event> := [
    Arrive(1, SCOPE, false), ReadScope(1), Claim(1), Advance(CLAIM_TTL), Arrive(2, SCOPE, false), ReadScope(2),
      Claim(2)]

  const OVERLAP: seq<State> := [
    INITIAL,
    State(0, map[], map[], map[], map[1 := Request(SCOPE, false, Reading)], 0),
    State(0, map[], map[], map[], map[1 := Request(SCOPE, false, Claiming)], 0),
    State(0, map[SCOPE := Entry(0, CLAIM_TTL)], map[0 := Entry(Queued, RECORD_TTL)], map[0 := FIRST],
      map[1 := Request(SCOPE, false, Answered(0))], 1),
    State(CLAIM_TTL, map[SCOPE := Entry(0, CLAIM_TTL)], map[0 := Entry(Queued, RECORD_TTL)], map[0 := FIRST],
      map[1 := Request(SCOPE, false, Answered(0))], 1),
    State(CLAIM_TTL, map[SCOPE := Entry(0, CLAIM_TTL)], map[0 := Entry(Queued, RECORD_TTL)], map[0 := FIRST],
      map[1 := Request(SCOPE, false, Answered(0)), 2 := Request(SCOPE, false, Reading)], 1),
    State(CLAIM_TTL, map[SCOPE := Entry(0, CLAIM_TTL)], map[0 := Entry(Queued, RECORD_TTL)], map[0 := FIRST],
      map[1 := Request(SCOPE, false, Answered(0)), 2 := Request(SCOPE, false, Claiming)], 1),
    State(CLAIM_TTL, map[SCOPE := Entry(1, CLAIM_TTL + CLAIM_TTL)],
      map[0 := Entry(Queued, RECORD_TTL), 1 := Entry(Queued, CLAIM_TTL + RECORD_TTL)],
      map[0 := FIRST, 1 := FIRST.(claimedAt := CLAIM_TTL)],
      map[1 := Request(SCOPE, false, Answered(0)), 2 := Request(SCOPE, false, Answered(1))], 2)]

  /** A trace checked step by step is a run. */
  lemma {:induction false} TraceIsARun(states: seq<State>, events: seq<Event>)
    requires |states| == |events| + 1
    requires forall i ::
      0 <= i < |events| ==> Enabled(states[i], events[i]) && Step(states[i], events[i]) == states[i + 1]
    ensures Run(states[0], events) == Some(states[|events|])
    ensures forall bound ::
      (forall i :: 0 <= i < |states| ==> FinishedWithin(states[i], bound)) ==> Throughout(states[0], events, bound)
    ensures (forall i :: 0 <= i < |events| ==> HarmlessStep(states[i], events[i])) ==> HarmlessRun(states[0], events)
    decreases |events|
  {
    if events != [] {
      TraceIsARun(states[1..], events[1..]);
      forall bound | forall i :: 0 <= i < |states| ==> FinishedWithin(states[i], bound)
        ensures Throughout(states[0], events, bound)
      {
        assert forall i :: 0 <= i < |states[1..]| ==> FinishedWithin(states[1..][i], bound);
      }
    }
  }

  lemma OverlapBegins()
    ensures forall i :: 0 <= i < 4 ==>
      Enabled(OVERLAP[i], OVERLAP_EVENTS[i]) && HarmlessStep(OVERLAP[i], OVERLAP_EVENTS[i])
        && Step(OVERLAP[i], OVERLAP_EVENTS[i]) == OVERLAP[i + 1]
  {
    var x, e := OVERLAP, OVERLAP_EVENTS;
    assert Step(x[0], e[0]) == x[1];
    assert Step(x[1], e[1]) == x[2];
    assert Step(x[2], e[2]) == x[3];
    assert Step(x[3], e[3]) == x[4];
  }

  lemma OverlapEnds()
    ensures forall i :: 4 <= i < 7 ==>
      Enabled(OVERLAP[i], OVERLAP_EVENTS[i]) && HarmlessStep(OVERLAP[i], OVERLAP_EVENTS[i])
        && Step(OVERLAP[i], OVERLAP_EVENTS[i]) == OVERLAP[i + 1]
  {
    var x, e := OVERLAP, OVERLAP_EVENTS;
    assert Step(x[4], e[4]) == x[5];
    assert Step(x[5], e[5]) == x[6];
    assert Step(x[6], e[6]) == x[7];
  }

  lemma OverlapIsBounded(bound: nat)
    requires bound >= CLAIM_TTL
    ensures forall i :: 0 <= i < |OVERLAP| ==> FinishedWithin(OVERLAP[i], bound)
  {
  }

  lemma OverlapHappens(bound: nat)
    requires bound >= CLAIM_TTL
    ensures exists s, events :: Reachable(s, events) && Throughout(INITIAL, events, bound) && !NoOverlap(s)
  {
    var x := OVERLAP;
    OverlapBegins();
    OverlapEnds();
    OverlapIsBounded(bound);
    TraceIsARun(OVERLAP, OVERLAP_EVENTS);
    assert Reachable(x[7], OVERLAP_EVENTS);
    assert 0 in x[7].jobs && 1 in x[7].jobs;
    assert !NoOverlap(x[7]);
  }

  const LOST_EVENTS: seq<Event> := [
    Arrive(1, SCOPE, true), ReadScope(1), Claim(1),
    Arrive(2, SCOPE, true), ReadScope(2), LoadFails(2), Clean(2, true), Claim(2)]

  const QUEUED := map[0 := Entry(Queued, RECORD_TTL)]
  const WAITING := map[1 := Request(SCOPE, true, Answered(0))]

  const LOST: seq<State> := [
    INITIAL,
    State(0, map[], map[], map[], map[1 := Request(SCOPE, true, Reading)], 0),
    State(0, map[], map[], map[], map[1 := Request(SCOPE, true, Claiming)], 0),
    State(0, map[SCOPE := Entry(0, CLAIM_TTL)], QUEUED, map[0 := FIRST], WAITING, 1),
    State(0, map[SCOPE := Entry(0, CLAIM_TTL)], QUEUED, map[0 := FIRST], WAITING[2 := Request(SCOPE, true, Reading)],
      1),
    State(0, map[SCOPE := Entry(0, CLAIM_TTL)], QUEUED, map[0 := FIRST],
      WAITING[2 := Request(SCOPE, true, Loading(0))], 1),
    State(0, map[SCOPE := Entry(0, CLAIM_TTL)], QUEUED, map[0 := FIRST],
      WAITING[2 := Request(SCOPE, true, Cleaning(0))], 1),
    State(0, map[], QUEUED, map[0 := FIRST], WAITING[2 := Request(SCOPE, true, Claiming)], 1),
    State(0, map[SCOPE := Entry(1, CLAIM_TTL)], QUEUED[1 := Entry(Queued, RECORD_TTL)], map[0 := FIRST, 1 := FIRST],
      WAITING[2 := Request(SCOPE, true, Answered(1))], 2)]

  /**
   Without the assumption on reads the inventory refresh loses its claim: one failed read of a
   running job's record lets a second job run on the same scope at the same moment.
   */
  lemma FailedReadLosesAClaim()
    ensures exists s, events :: Run(INITIAL, events) == Some(s) && s.now == 0 && !NoOverlap(s)
  {
    FirstClaim();
    SecondRead();
    SecondClaim();
    TraceIsARun(LOST, LOST_EVENTS);
    var s := LOST[8];
    assert 0 in s.jobs && 1 in s.jobs;
    assert !NoOverlap(s);
  }

  lemma FirstClaim()
    ensures forall i :: 0 <= i < 4 ==> Enabled(LOST[i], LOST_EVENTS[i]) && Step(LOST[i], LOST_EVENTS[i]) == LOST[i + 1]
  {
    var x, e := LOST, LOST_EVENTS;
    assert Step(x[0], e[0]) == x[1];
    assert Step(x[1], e[1]) == x[2];
    assert Step(x[2], e[2]) == x[3];
    assert Step(x[3], e[3]) == x[4];
  }

  lemma SecondRead()
    ensures forall i :: 4 <= i < 6 ==> Enabled(LOST[i], LOST_EVENTS[i]) && Step(LOST[i], LOST_EVENTS[i]) == LOST[i + 1]
  {
    var x, e := LOST, LOST_EVENTS;
    assert Step(x[4], e[4]) == x[5];
    assert Step(x[5], e[5]) == x[6];
  }

  lemma SecondClaim()
    ensures forall i :: 6 <= i < 8 ==> Enabled(LOST[i], LOST_EVENTS[i]) && Step(LOST[i], LOST_EVENTS[i]) == LOST[i + 1]
  {
    var x, e := LOST, LOST_EVENTS;
    assert CompareAndDelete(x[6].scopes, SCOPE, 0, 0) == map[];
    assert Step(x[6], e[6]) == x[7];
    assert Step(x[7], e[7]) == x[8];
  }
}
