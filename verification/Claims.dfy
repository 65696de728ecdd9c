/**
 Claiming a refresh scope: many requests, in any number of processes, compete for one scope key; the
 winner's job runs in the background, keeps a record of its status, and finally releases the scope.

 Each event is one Redis command, one script or one local step of one request or job, so a run
 covers every interleaving, delay and crash. A failed save is a step whose flag is false. `cleans`
 distinguishes the inventory refresh, which deletes a claim it believes stale, from the EDS, OSS and
 security-group refreshes, which do not. Times are seconds on one clock.
 */
module Claims {
  import opened Prelude
  import opened Redis

  const CLAIM_TTL := 600
  const RECORD_TTL := 3600

  datatype Status = Queued | Running | Partial | Completed | Failed
  type JobId = nat

  datatype JobPhase =
    | Launched   // claimed, the background run has not saved its start
    | Working
    | Saved      // the final save was attempted, the release is still to be sent
    | Done
    | Dead       // its process crashed

  datatype Job = Job(scope: string, claimedAt: int, phase: JobPhase, finalSave: bool)

  datatype RequestPhase =
    | Reading
    | Loading(existing: JobId)
    | Cleaning(existing: JobId)
    | Claiming
    | Answered(job: JobId)

  datatype Request = Request(scope: string, cleans: bool, phase: RequestPhase)

  datatype State = State(
    now: int,
    scopes: map<string, Entry<JobId>>,
    records: map<JobId, Entry<Status>>,
    jobs: map<JobId, Job>,
    requests: map<int, Request>,
    nextJob: JobId)

  const INITIAL := State(0, map[], map[], map[], map[], 0)

  datatype Event =
    | Arrive(r: int, scope: string, cleans: bool)
    | ReadScope(r: int)
    | ReadScopeFails(r: int)
    | Load(r: int)
    | LoadFails(r: int)
    | Clean(r: int, delivered: bool)
    | Claim(r: int)
    | Start(j: JobId, saved: bool)
    | Final(j: JobId, status: Status, saved: bool)
    | Release(j: JobId, delivered: bool)
    | CrashJob(j: JobId)
    | Advance(seconds: nat)

  predicate Terminal(status: Status) {
    status.Partial? || status.Completed? || status.Failed?
  }

  predicate Enabled(s: State, e: Event) {
    match e
    case Arrive(r, _, _) => r !in s.requests
    case ReadScope(r) => r in s.requests && s.requests[r].phase.Reading?
    case ReadScopeFails(r) => r in s.requests && s.requests[r].phase.Reading?
    case Load(r) => r in s.requests && s.requests[r].phase.Loading?
    case LoadFails(r) => r in s.requests && s.requests[r].phase.Loading?
    case Clean(r, _) => r in s.requests && s.requests[r].phase.Cleaning?
    case Claim(r) => r in s.requests && s.requests[r].phase.Claiming?
    case Start(j, _) => j in s.jobs && s.jobs[j].phase.Launched?
    case Final(j, status, _) => j in s.jobs && s.jobs[j].phase.Working? && Terminal(status)
    case Release(j, _) => j in s.jobs && s.jobs[j].phase.Saved?
    case CrashJob(j) => j in s.jobs && !s.jobs[j].phase.Done?
    case Advance(_) => true
  }

  function Move(s: State, r: int, phase: RequestPhase): State
    requires r in s.requests
  {
    s.(requests := s.requests[r := s.requests[r].(phase := phase)])
  }

  /** Where a request goes when the job it found is not one to wait for. */
  function AfterStale(r: Request, existing: JobId): RequestPhase {
    if r.cleans then Cleaning(existing) else Claiming
  }

  function Step(s: State, e: Event): State
    requires Enabled(s, e)
  {
    match e
    case Arrive(r, scope, cleans) => s.(requests := s.requests[r := Request(scope, cleans, Reading)])
    case ReadScope(r) =>
      var q := s.requests[r];
      Move(s, r, if Live(s.scopes, q.scope, s.now) then Loading(s.scopes[q.scope].value) else Claiming)
    case ReadScopeFails(r) => Move(s, r, Claiming)
    case Load(r) =>
      var q := s.requests[r];
      var existing := q.phase.existing;
      if Live(s.records, existing, s.now) && !Terminal(s.records[existing].value) then Move(s, r, Answered(existing))
      else Move(s, r, AfterStale(q, existing))
    case LoadFails(r) => Move(s, r, AfterStale(s.requests[r], s.requests[r].phase.existing))
    case Clean(r, delivered) =>
      var q := s.requests[r];
      Move(s, r, Claiming).(scopes :=
        if delivered then CompareAndDelete(s.scopes, q.scope, q.phase.existing, s.now) else s.scopes)
    case Claim(r) =>
      var q := s.requests[r];
      if Live(s.scopes, q.scope, s.now) then Move(s, r, Answered(s.scopes[q.scope].value))
      else
        Move(s, r, Answered(s.nextJob)).(
          scopes := SetWithExpiry(s.scopes, q.scope, s.nextJob, CLAIM_TTL, s.now),
          records := SetWithExpiry(s.records, s.nextJob, Queued, RECORD_TTL, s.now),
          jobs := s.jobs[s.nextJob := Job(q.scope, s.now, Launched, false)],
          nextJob := s.nextJob + 1)
    case Start(j, saved) =>
      s.(jobs := s.jobs[j := s.jobs[j].(phase := Working)],
         records := if saved then SetWithExpiry(s.records, j, Running, RECORD_TTL, s.now) else s.records)
    case Final(j, status, saved) =>
      s.(jobs := s.jobs[j := s.jobs[j].(phase := Saved, finalSave := true)],
         records := if saved then SetWithExpiry(s.records, j, status, RECORD_TTL, s.now) else s.records)
    case Release(j, delivered) =>
      s.(jobs := s.jobs[j := s.jobs[j].(phase := Done)],
         scopes := if delivered then CompareAndDelete(s.scopes, s.jobs[j].scope, j, s.now) else s.scopes)
    case CrashJob(j) => s.(jobs := s.jobs[j := s.jobs[j].(phase := Dead)])
    case Advance(seconds) => s.(now := s.now + seconds)
  }

  function Run(s: State, events: seq<Event>): Option<State>
    decreases |events|
  {
    if events == [] then Some(s)
    else if !Enabled(s, events[0]) then None
    else Run(Step(s, events[0]), events[1..])
  }

  // ----- What holds on every run -----

  ghost predicate RecordKept(s: State, j: JobId)
    requires j in s.jobs
  {
    var job := s.jobs[j];
    && j < s.nextJob && job.claimedAt <= s.now
    && j in s.records && s.records[j].expires >= job.claimedAt + RECORD_TTL
    && (!job.finalSave ==> !Terminal(s.records[j].value))
    && (job.phase.Launched? ==> s.records[j].value.Queued?)
    && (job.phase.Launched? || job.phase.Working? ==> !job.finalSave)
    && (job.phase.Saved? || job.phase.Done? ==> job.finalSave)
  }

  ghost predicate ScopeInv(s: State, scope: string) {
    scope in s.scopes ==>
      var j := s.scopes[scope].value;
      j in s.jobs && s.jobs[j].scope == scope && s.scopes[scope].expires == s.jobs[j].claimedAt + CLAIM_TTL
  }

  predicate IsOfScope(s: State, j: JobId, scope: string) {
    j in s.jobs && s.jobs[j].scope == scope
  }

  /** The job a request has to do with is one of its own scope. */
  predicate NamesItsScope(s: State, r: int) {
    r in s.requests ==>
      match s.requests[r].phase
      case Loading(existing) => IsOfScope(s, existing, s.requests[r].scope)
      case Cleaning(existing) => IsOfScope(s, existing, s.requests[r].scope)
      case Answered(job) => IsOfScope(s, job, s.requests[r].scope)
      case _ => true
  }

  ghost predicate BaseInv(s: State) {
    && (forall j :: j in s.jobs ==> RecordKept(s, j))
    && (forall scope :: scope in s.scopes ==> ScopeInv(s, scope))
    && (forall r :: r in s.requests ==> NamesItsScope(s, r))
  }

  /** The request whose step an event is. */
  function Actor(e: Event): Option<int> {
    match e
    case Arrive(r, _, _) => Some(r)
    case ReadScope(r) => Some(r)
    case ReadScopeFails(r) => Some(r)
    case Load(r) => Some(r)
    case LoadFails(r) => Some(r)
    case Clean(r, _) => Some(r)
    case Claim(r) => Some(r)
    case _ => None
  }

  lemma StepKeepsRecord(s: State, e: Event, j: JobId)
    requires Enabled(s, e) && j in Step(s, e).jobs && (j in s.jobs ==> RecordKept(s, j))
    ensures RecordKept(Step(s, e), j)
  {
  }

  lemma StepKeepsScope(s: State, e: Event, scope: string)
    requires Enabled(s, e) && scope in Step(s, e).scopes && (scope in s.scopes ==> ScopeInv(s, scope))
    requires forall j :: j in s.jobs ==> j < s.nextJob
    ensures ScopeInv(Step(s, e), scope)
  {
  }

  /** Jobs keep their scope. */
  lemma StepKeepsScopeOfJob(s: State, e: Event, j: JobId, scope: string)
    requires Enabled(s, e) && IsOfScope(s, j, scope) && j < s.nextJob
    ensures IsOfScope(Step(s, e), j, scope)
  {
  }

  lemma StepLeavesOtherRequests(s: State, e: Event, r: int)
    requires Enabled(s, e) && Actor(e) != Some(r)
    ensures (r in Step(s, e).requests <==> r in s.requests)
    ensures r in s.requests ==> Step(s, e).requests[r] == s.requests[r]
  {
  }

  lemma OtherStepKeepsNames(s: State, e: Event, r: int)
    requires BaseInv(s) && Enabled(s, e) && Actor(e) != Some(r) && r in s.requests
    ensures NamesItsScope(Step(s, e), r)
  {
    StepLeavesOtherRequests(s, e, r);
    assert NamesItsScope(s, r);
    var scope, phase := s.requests[r].scope, s.requests[r].phase;
    if phase.Loading? || phase.Cleaning? {
      assert RecordKept(s, phase.existing);
      StepKeepsScopeOfJob(s, e, phase.existing, scope);
    } else if phase.Answered? {
      assert RecordKept(s, phase.job);
      StepKeepsScopeOfJob(s, e, phase.job, scope);
    }
  }

  lemma OwnStepKeepsNames(s: State, e: Event, r: int)
    requires BaseInv(s) && Enabled(s, e) && Actor(e) == Some(r) && r in Step(s, e).requests
    ensures NamesItsScope(Step(s, e), r)
  {
    if r in s.requests {
      assert NamesItsScope(s, r);
      if s.requests[r].scope in s.scopes {
        assert ScopeInv(s, s.requests[r].scope);
      }
    }
  }

  /** Whatever reads and saves fail, every step keeps records, scopes and requests consistent. */
  lemma StepKeepsBase(s: State, e: Event)
    requires BaseInv(s) && Enabled(s, e)
    ensures BaseInv(Step(s, e))
  {
    var s' := Step(s, e);
    assert forall j :: j in s.jobs ==> RecordKept(s, j) && j < s.nextJob;
    forall j | j in s'.jobs ensures RecordKept(s', j) {
      StepKeepsRecord(s, e, j);
    }
    forall scope | scope in s'.scopes ensures ScopeInv(s', scope) {
      StepKeepsScope(s, e, scope);
    }
    forall r | r in s'.requests ensures NamesItsScope(s', r) {
      if Actor(e) == Some(r) {
        OwnStepKeepsNames(s, e, r);
      } else {
        StepLeavesOtherRequests(s, e, r);
        OtherStepKeepsNames(s, e, r);
      }
    }
  }

  lemma {:induction false} RunKeepsBase(s: State, events: seq<Event>)
    requires BaseInv(s) && Run(s, events).Some?
    ensures BaseInv(Run(s, events).value)
    decreases |events|
  {
    if events != [] {
      StepKeepsBase(s, events[0]);
      RunKeepsBase(Step(s, events[0]), events[1..]);
    }
  }

  // ----- What holds while reads do no harm -----

  /** Until its final save, and for ten minutes at most, the scope key names the job. */
  ghost predicate ClaimHeld(s: State, j: JobId)
    requires j in s.jobs
  {
    var job := s.jobs[j];
    !job.finalSave && s.now < job.claimedAt + CLAIM_TTL ==> Holds(s.scopes, job.scope, j, s.now)
  }

  /** The job has made its final save, or its claim has had its full term. */
  predicate IsOver(s: State, j: JobId) {
    j in s.jobs && (s.jobs[j].finalSave || s.now >= s.jobs[j].claimedAt + CLAIM_TTL)
  }

  /** A request about to delete a claim has seen that its job is over, one way or the other. */
  predicate CleansWhatIsOver(s: State, r: int) {
    r in s.requests && s.requests[r].phase.Cleaning? ==> IsOver(s, s.requests[r].phase.existing)
  }

  ghost predicate Inv(s: State) {
    && BaseInv(s)
    && (forall j :: j in s.jobs ==> ClaimHeld(s, j))
    && (forall r :: r in s.requests ==> CleansWhatIsOver(s, r))
  }

  /**
   The failing read that matters: a cleaning request could not load a job that is not over. Any
   other failed read, and every failed read of a request that does not clean, is harmless.
   */
  predicate HarmlessStep(s: State, e: Event) {
    e.LoadFails? && e.r in s.requests && s.requests[e.r].phase.Loading? && s.requests[e.r].cleans ==>
      IsOver(s, s.requests[e.r].phase.existing)
  }

  lemma StepKeepsClaim(s: State, e: Event, j: JobId)
    requires Inv(s) && Enabled(s, e) && j in Step(s, e).jobs
    ensures ClaimHeld(Step(s, e), j)
  {
    if j in s.jobs {
      var job := s.jobs[j];
      assert ClaimHeld(s, j) && RecordKept(s, j);
      if e.Clean? {
        assert CleansWhatIsOver(s, e.r);
        assert s.requests[e.r].phase.existing == j ==> job.finalSave || s.now >= job.claimedAt + CLAIM_TTL;
      }
      if e.Release? {
        assert RecordKept(s, e.j);
      }
    }
  }

  /** A job that is over stays over. */
  lemma StepKeepsOver(s: State, e: Event, j: JobId)
    requires Enabled(s, e) && IsOver(s, j) && j < s.nextJob
    ensures IsOver(Step(s, e), j)
  {
  }

  lemma LoadedIsOver(s: State, r: int)
    requires BaseInv(s) && Enabled(s, Load(r))
    ensures CleansWhatIsOver(Step(s, Load(r)), r)
  {
    assert NamesItsScope(s, r);
    assert RecordKept(s, s.requests[r].phase.existing);
  }

  lemma StepKeepsCleaning(s: State, e: Event, r: int)
    requires Inv(s) && Enabled(s, e) && HarmlessStep(s, e) && r in Step(s, e).requests
    ensures CleansWhatIsOver(Step(s, e), r)
  {
    if Actor(e) != Some(r) {
      StepLeavesOtherRequests(s, e, r);
      assert CleansWhatIsOver(s, r);
      if s.requests[r].phase.Cleaning? {
        assert RecordKept(s, s.requests[r].phase.existing);
        StepKeepsOver(s, e, s.requests[r].phase.existing);
      }
    } else if e.Load? {
      LoadedIsOver(s, r);
    }
  }

  lemma StepKeepsInv(s: State, e: Event)
    requires Inv(s) && Enabled(s, e) && HarmlessStep(s, e)
    ensures Inv(Step(s, e))
  {
    var s' := Step(s, e);
    StepKeepsBase(s, e);
    forall j | j in s'.jobs ensures ClaimHeld(s', j) { StepKeepsClaim(s, e, j); }
    forall r | r in s'.requests ensures CleansWhatIsOver(s', r) { StepKeepsCleaning(s, e, r); }
  }
}
