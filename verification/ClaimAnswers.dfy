/**
 Which job a refresh request is answered with, what each command of a request and of a run writes, and
 what a request that nobody disturbs comes to.
 */
module ClaimAnswers {
  import opened Prelude
  import opened Redis
  import opened Claims
  import opened ClaimSafety

  /** A record that can be read says the job is queued or running. */
  predicate IsUnderway(s: State, j: JobId) {
    && j in s.records && s.now < s.records[j].expires
    && (s.records[j].value == Queued || s.records[j].value == Running)
  }

  /** The job that holds the scope. */
  predicate NamesJob(s: State, scope: string, j: JobId) {
    scope in s.scopes && s.now < s.scopes[scope].expires && s.scopes[scope].value == j
  }

  predicate IsFree(s: State, scope: string) {
    scope in s.scopes ==> s.now >= s.scopes[scope].expires
  }

  // ----- One command -----

  /** Reading the scope finds the job that holds it, or nothing and goes on to claim. */
  lemma FindsTheHolder(s: State, r: int)
    requires Enabled(s, ReadScope(r))
    ensures var scope, phase := s.requests[r].scope, Step(s, ReadScope(r)).requests[r].phase;
      && (IsFree(s, scope) <==> phase == Claiming)
      && (phase != Claiming ==> phase.Loading? && NamesJob(s, scope, phase.existing))
      && Step(s, ReadScope(r)).scopes == s.scopes
  {
  }

  /**
   A request settles for the job it found exactly when that job's record can be read and says queued or
   running; otherwise the inventory refresh goes on to delete the claim, the others to claim themselves.
   */
  lemma SettlesIffUnderway(s: State, r: int)
    requires Enabled(s, Load(r))
    ensures var q, s' := s.requests[r], Step(s, Load(r));
      && s'.requests[r].scope == q.scope && s'.jobs == s.jobs && s'.scopes == s.scopes && s'.records == s.records
      && s'.requests[r].phase ==
        (if IsUnderway(s, q.phase.existing) then Answered(q.phase.existing)
         else if q.cleans then Cleaning(q.phase.existing)
         else Claiming)
  {
  }

  /** A failed read is taken for nothing found, or for a job not underway. */
  lemma FailedReadsGoOn(s: State, r: int)
    ensures Enabled(s, ReadScopeFails(r)) ==>
      Step(s, ReadScopeFails(r)) == s.(requests := s.requests[r := s.requests[r].(phase := Claiming)])
    ensures Enabled(s, LoadFails(r)) ==>
      Step(s, LoadFails(r)) == s.(requests := s.requests[r := s.requests[r].(phase :=
        if s.requests[r].cleans then Cleaning(s.requests[r].phase.existing) else Claiming)])
  {
  }

  /** The stale claim is deleted exactly when the scope still names the job that was found stale. */
  lemma DeletesIffStillNamed(s: State, r: int, delivered: bool)
    requires Enabled(s, Clean(r, delivered))
    ensures var scope, existing, s' := s.requests[r].scope, s.requests[r].phase.existing, Step(s, Clean(r, delivered));
      && s'.requests[r].phase == Claiming
      && (delivered && NamesJob(s, scope, existing) ==> s'.scopes == s.scopes - {scope})
      && (!(delivered && NamesJob(s, scope, existing)) ==> s'.scopes == s.scopes)
  {
  }

  /**
   A claim starts a job exactly when the scope is free: the scope then names it for ten minutes and its
   record says queued for an hour. Otherwise the request is answered with the job that holds the scope.
   */
  lemma StartsAJobIffFree(s: State, r: int)
    requires Enabled(s, Claim(r))
    ensures var scope, s', j := s.requests[r].scope, Step(s, Claim(r)), s.nextJob;
      if IsFree(s, scope)
      then
        && s'.requests[r].phase == Answered(j) && s'.nextJob > j
        && s'.scopes == s.scopes[scope := Entry(j, s.now + 600)]
        && s'.records == s.records[j := Entry(Queued, s.now + 3600)]
        && s'.jobs == s.jobs[j := Job(scope, s.now, Launched, false)]
      else
        && s'.requests[r].phase.Answered? && NamesJob(s, scope, s'.requests[r].phase.job)
        && s'.scopes == s.scopes && s'.records == s.records && s'.jobs == s.jobs && s'.nextJob == s.nextJob
  {
  }

  /** A delivered release frees the scope exactly when it still names the job. */
  lemma FreesIffStillNamed(s: State, j: JobId, delivered: bool)
    requires Enabled(s, Release(j, delivered))
    ensures var scope, s' := s.jobs[j].scope, Step(s, Release(j, delivered));
      && (delivered && NamesJob(s, scope, j) ==> s'.scopes == s.scopes - {scope})
      && (!(delivered && NamesJob(s, scope, j)) ==> s'.scopes == s.scopes)
      && s'.records == s.records && s'.jobs == s.jobs[j := s.jobs[j].(phase := Done)]
  {
  }

  /** The two saves of a run: each puts its status on record for another hour. */
  lemma SavesLastAnHour(s: State, j: JobId, status: Status)
    requires j in s.jobs
    ensures Enabled(s, Start(j, true)) ==>
      Step(s, Start(j, true)).records == s.records[j := Entry(Running, s.now + 3600)]
    ensures Enabled(s, Final(j, status, true)) ==>
      Step(s, Final(j, status, true)).records == s.records[j := Entry(status, s.now + 3600)]
    ensures Enabled(s, Start(j, false)) ==> Step(s, Start(j, false)).records == s.records
    ensures Enabled(s, Final(j, status, false)) ==> Step(s, Final(j, status, false)).records == s.records
  {
  }

  /** No run is ever stuck: it can save its start, its outcome and release, or crash, whatever happened. */
  lemma NextCommandIsPossible(s: State, j: JobId, status: Status, delivered: bool)
    requires j in s.jobs
    ensures match s.jobs[j].phase
      case Launched => Enabled(s, Start(j, delivered))
      case Working => Terminal(status) ==> Enabled(s, Final(j, status, delivered))
      case Saved => Enabled(s, Release(j, delivered))
      case _ => true
    ensures !s.jobs[j].phase.Done? ==> Enabled(s, CrashJob(j))
    ensures Enabled(s, Start(j, delivered)) ==> Step(s, Start(j, delivered)).jobs[j].phase == Working
    ensures Enabled(s, Final(j, status, delivered)) ==>
      Step(s, Final(j, status, delivered)).jobs[j] == s.jobs[j].(phase := Saved, finalSave := true)
  {
  }

  // ----- Runs -----

  /**
   Once a job's final save is delivered, no request that loads it afterwards settles for it, however
   much later and whatever reads, saves and releases fail in between.
   */
  lemma FinishedJobIsNotSettledFor(before: seq<Event>, j: JobId, status: Status, after: seq<Event>, r: int)
    requires Run(INITIAL, before).Some? && Enabled(Run(INITIAL, before).value, Final(j, status, true))
    requires Run(Step(Run(INITIAL, before).value, Final(j, status, true)), after).Some?
    requires Enabled(Run(Step(Run(INITIAL, before).value, Final(j, status, true)), after).value, Load(r))
    ensures var s := Run(Step(Run(INITIAL, before).value, Final(j, status, true)), after).value;
      Step(s, Load(r)).requests[r].phase != Answered(j)
  {
    var s := Run(INITIAL, before).value;
    RunKeepsBase(INITIAL, before);
    StepKeepsBase(s, Final(j, status, true));
    StatusMovesForwardFrom(Step(s, Final(j, status, true)), after, j);
    SettlesIffUnderway(Run(Step(s, Final(j, status, true)), after).value, r);
  }

  /**
   Until a job's final save every request that loads it within an hour of its claim settles for it, so
   starts nothing.
   */
  lemma UnfinishedJobIsSettledFor(events: seq<Event>, r: int)
    requires Run(INITIAL, events).Some? && Enabled(Run(INITIAL, events).value, Load(r))
    ensures var s := Run(INITIAL, events).value;
      var j := s.requests[r].phase.existing;
      && j in s.jobs
      && (!s.jobs[j].finalSave && s.now < s.jobs[j].claimedAt + 3600 ==>
            Step(s, Load(r)).requests[r].phase == Answered(j) && Step(s, Load(r)).jobs == s.jobs)
  {
    var s := Run(INITIAL, events).value;
    RunKeepsBase(INITIAL, events);
    assert NamesItsScope(s, r);
    assert RecordKept(s, s.requests[r].phase.existing);
    SettlesIffUnderway(s, r);
  }

  // ----- A request that nobody disturbs -----

  /** How many commands a request sends at most from here. */
  function CommandsLeft(p: RequestPhase): nat {
    match p
    case Reading => 4
    case Loading(_) => 3
    case Cleaning(_) => 2
    case Claiming => 1
    case Answered(_) => 0
  }

  /** The request's next command, when nothing fails. */
  function Next(s: State, r: int): (e: Event)
    requires r in s.requests && !s.requests[r].phase.Answered?
    ensures Enabled(s, e)
  {
    match s.requests[r].phase
    case Reading => ReadScope(r)
    case Loading(_) => Load(r)
    case Cleaning(_) => Clean(r, true)
    case Claiming => Claim(r)
  }

  /** The state in which the request is answered. */
  function Undisturbed(s: State, r: int): (end: State)
    requires r in s.requests
    ensures r in end.requests && end.requests[r].phase.Answered?
    decreases CommandsLeft(s.requests[r].phase)
  {
    if s.requests[r].phase.Answered? then s else Undisturbed(Step(s, Next(s, r)), r)
  }

  /** The answer is a job started by the request itself. */
  predicate StartsAJob(s: State, r: int, end: State)
    requires r in end.requests
  {
    && end.requests[r].phase == Answered(s.nextJob) && s.nextJob in end.jobs 
    && NamesJob(end, end.requests[r].scope, s.nextJob) && IsUnderway(end, s.nextJob)
  }

  /** The answer is this job, and nothing was started or written. */
  predicate SettlesFor(s: State, r: int, end: State, j: JobId)
    requires r in end.requests
  {
    end.requests[r].phase == Answered(j) && end.jobs == s.jobs && end.scopes == s.scopes && end.records == s.records
  }

  lemma ClaimOutcome(s: State, r: int)
    requires r in s.requests && s.requests[r].phase.Claiming?
    ensures var end, scope := Undisturbed(s, r), s.requests[r].scope;
      && (IsFree(s, scope) ==> StartsAJob(s, r, end))
      && (!IsFree(s, scope) ==> SettlesFor(s, r, end, s.scopes[scope].value))
  {
  }

  lemma LoadOutcome(s: State, r: int, j: JobId)
    requires r in s.requests && s.requests[r].phase == Loading(j) && NamesJob(s, s.requests[r].scope, j)
    ensures var end := Undisturbed(s, r);
      if IsUnderway(s, j) || !s.requests[r].cleans then SettlesFor(s, r, end, j) else StartsAJob(s, r, end)
  {
    SettlesIffUnderway(s, r);
    var s1 := Step(s, Load(r));
    if IsUnderway(s, j) {
    } else if s.requests[r].cleans {
      DeletesIffStillNamed(s1, r, true);
      ClaimOutcome(Step(s1, Clean(r, true)), r);
    } else {
      ClaimOutcome(s1, r);
    }
  }

  /**
   What an undisturbed request comes to. With the scope free it starts a job; with a job underway it is
   answered with that job. With a finished job still holding the scope the inventory refresh starts a
   new job, while the EDS, OSS and security-group refreshes answer with the finished one and refresh
   nothing, for as long as the claim stands.
   */
  lemma UndisturbedRequest(s: State, r: int)
    requires r in s.requests && s.requests[r].phase.Reading?
    ensures var scope, end := s.requests[r].scope, Undisturbed(s, r);
      if IsFree(s, scope) then StartsAJob(s, r, end)
      else
        var j := s.scopes[scope].value;
        if IsUnderway(s, j) || !s.requests[r].cleans then SettlesFor(s, r, end, j) else StartsAJob(s, r, end)
  {
    FindsTheHolder(s, r);
    var s1 := Step(s, ReadScope(r));
    if IsFree(s, s.requests[r].scope) {
      ClaimOutcome(s1, r);
    } else {
      LoadOutcome(s1, r, s.scopes[s.requests[r].scope].value);
    }
  }
}
