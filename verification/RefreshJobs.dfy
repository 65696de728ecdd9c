/**
 The record of one inventory refresh, filled in step by step by its background run, and why that run
 takes exactly the steps of the claim machine.
 */
module RefreshJobs {
  import opened Prelude
  import opened Redis
  import opened Claims

  datatype Failure = Failure(account: int, message: string, code: string)

  /** The error columns of a cloud account; the message is empty after a healthy collection. */
  datatype SyncError = SyncError(message: string, code: string)

  predicate FailedAccount(errors: map<int, SyncError>, selected: seq<int>, id: int) {
    id in errors && id in selected && errors[id].message != ""
  }

  function FailureOf(errors: map<int, SyncError>, id: int): Failure
    requires id in errors
  {
    Failure(id, errors[id].message, errors[id].code)
  }

  /** `failed` is the list of the selected unhealthy accounts, by ascending id. */
  ghost predicate ListsFailures(failed: seq<Failure>, errors: map<int, SyncError>, selected: seq<int>) {
    && (forall f :: f in failed ==>
          && f.account in errors && f.account in selected && f.message == errors[f.account].message && f.message != ""
          && f.code == errors[f.account].code)
    && (forall id :: FailedAccount(errors, selected, id) ==> FailureOf(errors, id) in failed)
    && (forall i, j :: 0 <= i < j < |failed| ==> failed[i].account < failed[j].account)
  }

  lemma EmptyListMeansHealthy(errors: map<int, SyncError>, selected: seq<int>)
    ensures ListsFailures([], errors, selected) ==> !exists id :: FailedAccount(errors, selected, id)
  {
  }

  /** What reading the accounts after a run gave: their error columns, or a part of the list and an error. */
  datatype Read = Accounts(errors: map<int, SyncError>) | Broken(partial: seq<Failure>)

  const UNREADABLE := "Could not read refresh results"

  class InventoryJob {
    const accountIDs: seq<int>
    var status: Status
    var startedAt: Option<int>
    var completedAt: Option<int>
    var durationMS: int
    var failedAccounts: seq<Failure>
    var error: Option<string>

    constructor (accountIDs: seq<int>)
      ensures this.accountIDs == accountIDs && status == Queued && startedAt == None && completedAt == None
      ensures durationMS == 0 && failedAccounts == [] && error == None
    {
      this.accountIDs := accountIDs;
      status, startedAt, completedAt, durationMS, failedAccounts, error := Queued, None, None, 0, [], None;
    }

    method Start(started: int)
      requires status == Queued
      modifies this
      ensures status == Running && startedAt == Some(started)
      ensures unchanged(`completedAt) && unchanged(`durationMS) && unchanged(`failedAccounts) && unchanged(`error)
    {
      status, startedAt := Running, Some(started);
    }

    /**
     Ends the run. `read` is what reading the accounts after it gave. The job is completed exactly when
     the run and the read succeeded and every selected account is healthy; it is partial exactly when
     they succeeded and some account is not. A read that broke off leaves what it had read so far.
     */
    method Finish(completed: int, runError: Option<string>, read: Read)
      requires status == Running && startedAt.Some? && failedAccounts == []
      modifies this
      ensures completedAt == Some(completed) && startedAt == old(startedAt)
        && durationMS == completed - old(startedAt).value
      ensures Terminal(status)
      ensures status == Failed <==> runError.Some? || read.Broken?
      ensures error == (if runError.Some? then runError else if read.Broken? then Some(UNREADABLE) else old(error))
      ensures status == Partial <==>
        runError.None? && read.Accounts? && exists id :: FailedAccount(read.errors, accountIDs, id)
      ensures runError.Some? ==> failedAccounts == []
      ensures runError.None? && read.Broken? ==> failedAccounts == read.partial
      ensures runError.None? && read.Accounts? ==> ListsFailures(failedAccounts, read.errors, accountIDs)
    {
      completedAt := Some(completed);
      durationMS := completed - startedAt.value;
      if runError.Some? {
        status, error := Failed, runError;
      } else if read.Broken? {
        failedAccounts := read.partial;
        status, error := Failed, Some(UNREADABLE);
      } else {
        failedAccounts := FailedRefreshAccounts(read.errors, accountIDs);
        if |failedAccounts| > 0 {
          assert failedAccounts[0] in failedAccounts;
          assert FailedAccount(read.errors, accountIDs, failedAccounts[0].account);
          status := Partial;
        } else {
          EmptyListMeansHealthy(read.errors, accountIDs);
          status := Completed;
        }
      }
    }
  }

  /** The steps of the claim machine that a background run stands for. */
  function RunEvents(j: JobId, started: bool, took: nat, status: Status, finished: bool, released: bool): seq<Event> {
    [Claims.Start(j, started), Advance(took), Final(j, status, finished), Release(j, released)]
  }

  /** The claim machine just after the job was claimed, as the run finds it. */
  ghost predicate Finds(s: State, now: int, scopes: map<string, Entry<JobId>>, records: map<JobId, Entry<Status>>,
      j: JobId, scope: string) {
    s.now == now && s.scopes == scopes && s.records == records
    && j in s.jobs && s.jobs[j].phase.Launched? && s.jobs[j].scope == scope
  }

  lemma RunOfFour(s: State, a: Event, b: Event, c: Event, d: Event)
    requires Enabled(s, a) && Enabled(Step(s, a), b) && Enabled(Step(Step(s, a), b), c)
    requires Enabled(Step(Step(Step(s, a), b), c), d)
    ensures Run(s, [a, b, c, d]) == Some(Step(Step(Step(Step(s, a), b), c), d))
  {
    assert [a, b, c, d][1..] == [b, c, d] && [b, c, d][1..] == [c, d] && [c, d][1..] == [d];
    assert Run(Step(Step(Step(s, a), b), c), [d]) == Some(Step(Step(Step(Step(s, a), b), c), d));
    assert Run(Step(Step(s, a), b), [c, d]) == Some(Step(Step(Step(Step(s, a), b), c), d));
  }

  /** What the four steps make of the stores. */
  lemma RunEventsWrite(s: State, j: JobId, started: bool, took: nat, status: Status, finished: bool, released: bool)
    requires j in s.jobs && s.jobs[j].phase.Launched? && Terminal(status)
    ensures Run(s, RunEvents(j, started, took, status, finished, released)).Some?
    ensures var end := Run(s, RunEvents(j, started, took, status, finished, released)).value;
      var running := if started then SetWithExpiry(s.records, j, Running, RECORD_TTL, s.now) else s.records;
      && end.now == s.now + took
      && end.records == (if finished then SetWithExpiry(running, j, status, RECORD_TTL, s.now + took) else running)
      && end.scopes == (if released then CompareAndDelete(s.scopes, s.jobs[j].scope, j, s.now + took) else s.scopes)
      && j in end.jobs && end.jobs[j].phase.Done?
  {
    var s1 := Step(s, Claims.Start(j, started));
    var s2 := Step(s1, Advance(took));
    var s3 := Step(s2, Final(j, status, finished));
    RunOfFour(s, Claims.Start(j, started), Advance(took), Final(j, status, finished), Release(j, released));
  }

  /** The stores a background run writes to, on the clock they share. */
  class RefreshRunner {
    var now: int
    var scopes: map<string, Entry<JobId>>
    var records: map<JobId, Entry<Status>>

    constructor (now: int, scopes: map<string, Entry<JobId>>, records: map<JobId, Entry<Status>>)
      ensures this.now == now && this.scopes == scopes && this.records == records
    {
      this.now, this.scopes, this.records := now, scopes, records;
    }

    method Save(j: JobId, status: Status, delivered: bool)
      modifies this`records
      ensures records == if delivered then SetWithExpiry(old(records), j, status, RECORD_TTL, now) else old(records)
    {
      if delivered {
        records := SetWithExpiry(records, j, status, RECORD_TTL, now);
      }
    }

    /**
     One background run, left alone: it saves the record as running, collects for `took` seconds, saves
     the outcome and releases the scope. Whatever saves are delivered, it leaves the stores as the four
     steps of the claim machine do, with the status that the job ended in.
     */
    method RunInventoryRefresh(
      ghost s: State, job: InventoryJob, j: JobId, scope: string, started: bool, took: nat,
      runError: Option<string>, read: Read, finished: bool, released: bool)
      requires Finds(s, now, scopes, records, j, scope)
      requires job.status == Queued && job.failedAccounts == []
      modifies this, job
      ensures job.status == Failed <==> runError.Some? || read.Broken?
      ensures Run(s, RunEvents(j, started, took, job.status, finished, released)).Some?
      ensures var end := Run(s, RunEvents(j, started, took, job.status, finished, released)).value;
        now == end.now && scopes == end.scopes && records == end.records && j in end.jobs && end.jobs[j].phase.Done?
    {
      job.Start(now);
      Save(j, job.status, started);
      now := now + took;
      job.Finish(now, runError, read);
      Save(j, job.status, finished);
      if released {
        scopes := CompareAndDelete(scopes, scope, j, now);
      }
      RunEventsWrite(s, j, started, took, job.status, finished, released);
    }
  }

  /** The selected accounts whose last collection left an error, by ascending id. */
  method FailedRefreshAccounts(errors: map<int, SyncError>, selected: seq<int>) returns (failed: seq<Failure>)
    ensures ListsFailures(failed, errors, selected)
    ensures forall i, j :: 0 <= i < j < |failed| ==> failed[i].account < failed[j].account
  {
    failed := [];
    var remaining := errors.Keys;
    while remaining != {}
      invariant remaining <= errors.Keys
      invariant forall i :: 0 <= i < |failed| ==> failed[i].account !in remaining
      invariant forall i, r :: 0 <= i < |failed| && r in remaining ==> failed[i].account < r
      invariant forall i, j :: 0 <= i < j < |failed| ==> failed[i].account < failed[j].account
      invariant forall f ::
        f in failed ==> FailedAccount(errors, selected, f.account) && f == FailureOf(errors, f.account)
      invariant forall id :: FailedAccount(errors, selected, id) && id !in remaining ==> FailureOf(errors, id) in failed
      decreases remaining
    {
      ghost var least := LeastElement(remaining);
      var next :| next in remaining && forall x :: x in remaining ==> next <= x;
      remaining := remaining - {next};
      if next in selected && errors[next].message != "" {
        failed := failed + [FailureOf(errors, next)];
      }
    }
  }
}
