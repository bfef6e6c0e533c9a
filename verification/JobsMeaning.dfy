/** What the transactions of the job queue do to each run and to the events, and which runs a claim may take. */
module JobsMeaning {
  import Backoff
  import opened Jobs
  import opened Options

  /** The handler ran and returned. */
  predicate Served(f: Fortune) { f.definition.Some? && f.handled }

  /** The success and its event were both reported. */
  predicate Completes(f: Fortune) { Served(f) && f.completed.reported && f.completedLogged.reported }

  /** The worker gives the run up: it does not know its code, or the attempt was the last one allowed. */
  predicate GivesUp(k: Ticket, f: Fortune) { f.definition.None? || k.run.attempts >= k.run.maxAttempts }

  /** The run after the worker's update to Succeeded, if there was one that took effect. */
  function AfterSuccess(f: Fortune, before: JobRun): JobRun
  {
    if Served(f) && f.completed.applied then
      before.(status := Succeeded, finishedAt := Some(f.completedAt), lockedBy := None, lockedUntil := None)
    else before
  }

  /** What an execution leaves of its run: the failure, if there was one, is written over whatever stood there. */
  ghost predicate Leaves(k: Ticket, f: Fortune, before: JobRun, after: JobRun)
  {
    var run := AfterSuccess(f, before).(lockedBy := None, lockedUntil := None);
    if Completes(f) || !f.failed.applied then after == AfterSuccess(f, before)
    else if GivesUp(k, f) then
      after == run.(status := DeadLettered, nextAttemptAt := f.failedAt, finishedAt := Some(f.failedAt))
    else
      var policy := f.definition.value;
      var wait := Backoff.Seconds(k.run.attempts, policy.baseSeconds, policy.maxSeconds);
      after == run.(status := Retry, nextAttemptAt := f.failedAt + wait * 1_000_000)
  }

  /** The events an execution adds: the success that was reported, and the failure that was. */
  function Told(k: Ticket, f: Fortune): seq<Event>
  {
    (if Served(f) && f.completed.reported && f.completedLogged.applied
     then [Event(k.run.tenant, k.id, Completed)] else [])
    + (if !Completes(f) && f.failed.reported && f.failedLogged.applied
       then [Event(k.run.tenant, k.id, if GivesUp(k, f) then DeadLetteredRun else RetryScheduled)] else [])
  }

  lemma FailureExactly(t: Tables, k: Ticket, policy: Policy, failed: Luck, logged: Luck, now: int)
    ensures var after := AfterFailing(t, k, policy, failed, logged, now);
      && after.runs.Keys == t.runs.Keys
      && (forall id :: id in t.runs && id != k.id ==> after.runs[id] == t.runs[id])
      && (k.id in t.runs && failed.applied ==> after.runs[k.id] == AsFailed(t.runs[k.id], k.run, policy, now))
      && (k.id in t.runs && !failed.applied ==> after.runs[k.id] == t.runs[k.id])
      && after.events == t.events + if !failed.reported || !logged.applied then []
           else
             [Event(k.run.tenant, k.id,
                 if k.run.attempts >= k.run.maxAttempts then DeadLetteredRun else RetryScheduled)]
  {
    hide AsFailed;
    assert t.events + [] == t.events;
  }

  lemma SuccessExactly(t: Tables, k: Ticket, completed: Luck, logged: Luck, now: int)
    ensures var after := AfterCompleting(t, k, completed, logged, now);
      && after.runs.Keys == t.runs.Keys
      && (forall id :: id in t.runs && id != k.id ==> after.runs[id] == t.runs[id])
      && (k.id in t.runs && completed.applied ==> after.runs[k.id] == AsSucceeded(t.runs[k.id], now))
      && (k.id in t.runs && !completed.applied ==> after.runs[k.id] == t.runs[k.id])
      && after.events == t.events + if !completed.reported || !logged.applied then []
           else [Event(k.run.tenant, k.id, Completed)]
  {
    hide AsSucceeded;
    assert t.events + [] == t.events;
  }

  /** An execution changes its own run and no other, and adds exactly the events that it tells. */
  lemma ExecutionExactly(t: Tables, k: Ticket, f: Fortune)
    requires PossibleFortune(f)
    ensures var after := Executed(t, k, f);
      && after.runs.Keys == t.runs.Keys
      && (forall id :: id in t.runs && id != k.id ==> after.runs[id] == t.runs[id])
      && (k.id in t.runs ==> Leaves(k, f, t.runs[k.id], after.runs[k.id]))
      && after.events == t.events + Told(k, f)
  {
    hide Backoff.Seconds, AfterFailing, AfterCompleting;
    if f.definition.None? {
      FailureExactly(t, k.(run := Exhausted(k.run)), Policy(1, 1), f.failed, f.failedLogged, f.failedAt);
    } else if f.handled {
      var completed := AfterCompleting(t, k, f.completed, f.completedLogged, f.completedAt);
      SuccessExactly(t, k, f.completed, f.completedLogged, f.completedAt);
      FailureExactly(completed, k, f.definition.value, f.failed, f.failedLogged, f.failedAt);
    } else {
      FailureExactly(t, k, f.definition.value, f.failed, f.failedLogged, f.failedAt);
    }
  }

  /** An execution that leaves by exception: neither its success nor its failure was reported with its event. */
  predicate Throws(f: Fortune) { !Completes(f) && !(f.failed.reported && f.failedLogged.reported) }

  /** A batch is executed run by run, up to and with the first execution that throws. */
  lemma {:induction false} BatchExactly(t: Tables, batch: seq<Ticket>, fortunes: seq<Fortune>, n: nat)
      returns (tables: seq<Tables>)
    requires |batch| == |fortunes| && n <= |batch| && forall i :: 0 <= i < n ==> !Throws(fortunes[i])
    requires n < |batch| ==> Throws(fortunes[n])
    ensures |tables| == (if n < |batch| then n + 1 else n) + 1
    ensures tables[0] == t && tables[|tables| - 1] == Through(t, batch, fortunes)
    ensures forall i :: 0 <= i < |tables| - 1 ==> tables[i + 1] == Executed(tables[i], batch[i], fortunes[i])
    decreases n
  {
    hide Executed;
    if batch == [] {
      tables := [t];
    } else {
      var next := Executed(t, batch[0], fortunes[0]);
      if n == 0 {
        tables := [t, next];
      } else {
        assert !Throws(fortunes[0]);
        var rest := BatchExactly(next, batch[1..], fortunes[1..], n - 1);
        tables := [t] + rest;
      }
    }
  }

  /** After an execution that returns, the event told last names the state that the run is left in. */
  lemma EventNamesState(t: Tables, k: Ticket, f: Fortune)
    requires PossibleFortune(f) && !Throws(f) && k.id in t.runs
    ensures k.id in Executed(t, k, f).runs && Told(k, f) != []
    ensures var kind, status := Told(k, f)[|Told(k, f)| - 1].kind, Executed(t, k, f).runs[k.id].status;
      && (kind == Completed <==> status == Succeeded)
      && (kind == DeadLetteredRun <==> status == DeadLettered)
      && (kind == RetryScheduled <==> status == Retry)
  {
    ExecutionExactly(t, k, f);
    hide Backoff.Seconds, Executed;
  }

  /** The first retry waits for the base: the worker's copy counts the attempt that is ending. */
  lemma RetryWaits(k: Ticket, f: Fortune, before: JobRun, after: JobRun)
    requires Leaves(k, f, before, after) && !Completes(f) && f.failed.applied && !GivesUp(k, f)
    ensures var policy := f.definition.value;
      && after.nextAttemptAt <= f.failedAt + policy.maxSeconds * 1_000_000
      && (k.run.attempts == 1 ==>
            var wait := if policy.baseSeconds < policy.maxSeconds then policy.baseSeconds else policy.maxSeconds;
            after.nextAttemptAt == f.failedAt + wait * 1_000_000)
  {
    var policy := f.definition.value;
    Backoff.FirstWait(policy.baseSeconds, policy.maxSeconds);
    if k.run.attempts > 0 { Backoff.SecondsDouble(k.run.attempts, policy.baseSeconds, policy.maxSeconds); }
  }

  /** A new run waits from now on, unclaimed and with five attempts unless the request says otherwise. */
  lemma RequestExactly(r: Request, now: int)
    ensures var run := NewRun(r, now);
      && run.tenant == r.tenant && run.code == r.code && run.key == r.key && run.payload == r.payload
      && run.scheduleId == r.scheduleId && run.status == Queued && run.attempts == 0
      && run.maxAttempts == (match r.maxAttempts case Some(n) => n case None => 5)
      && run.nextAttemptAt == now && run.createdAt == now
      && run.lockedBy == None && run.lockedUntil == None && run.startedAt == None && run.finishedAt == None
  {
  }

  /** A claim gives the runs it takes to the worker, counts an attempt, and leaves the others. */
  lemma ClaimExactly(runs: Runs, ids: set<Id>, worker: string, lockSeconds: nat, now: int)
    ensures ClaimAll(runs, ids, worker, lockSeconds, now).Keys == runs.Keys
    ensures forall id :: id in runs && id in ids ==>
      ClaimAll(runs, ids, worker, lockSeconds, now)[id] == runs[id].(status := Running,
        attempts := runs[id].attempts + 1, lockedBy := Some(worker), lockedUntil := Some(now + lockSeconds * 1_000_000),
        startedAt := if runs[id].startedAt == None then Some(now) else runs[id].startedAt)
    ensures forall id :: id in runs && id !in ids ==> ClaimAll(runs, ids, worker, lockSeconds, now)[id] == runs[id]
  {
  }

  /** The run waits, for now or an earlier time, has attempts left, and is of the tenant asked for. */
  predicate Open(run: JobRun, now: int, tenant: Option<string>)
  {
    && (run.status == Queued || run.status == Retry) && !(run.nextAttemptAt > now)
    && run.maxAttempts > run.attempts && (tenant == None || tenant == Some(run.tenant))
  }

  predicate Sooner(a: JobRun, b: JobRun)
  {
    if a.nextAttemptAt == b.nextAttemptAt then a.createdAt < b.createdAt else a.nextAttemptAt < b.nextAttemptAt
  }

  /**
   * What a claim takes: open runs that nobody has locked, no more than the limit; and what it leaves open and unlocked
   * is left because the limit is reached with runs none of which is later.
   */
  lemma ChoiceExactly(runs: Runs, now: int, limit: nat, tenant: Option<string>, locked: set<Id>, ids: set<Id>)
    ensures Choice(runs, now, limit, tenant, locked, ids) <==>
      && (forall id :: id in ids ==> id in runs && id !in locked && Open(runs[id], now, tenant)) && |ids| <= limit
      && forall other :: other in runs && other !in ids && other !in locked && Open(runs[other], now, tenant) ==>
           |ids| == limit && forall id :: id in ids ==> !Sooner(runs[other], runs[id])
  {
    forall run: JobRun ensures Eligible(run, now, tenant) <==> Open(run, now, tenant) {}
    hide Eligible, Open;
  }
}
