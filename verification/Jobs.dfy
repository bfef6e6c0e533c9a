/**
 * The job queue: rows of the run table, the transactions that change them, and the execution of a claimed run.
 * Times are whole microseconds.
 */
module Jobs {
  import Backoff
  import opened Options
  import opened Sequences

  datatype Status = Queued | Running | Succeeded | Retry | DeadLettered | Cancelled

  type Id = nat

  datatype JobRun = JobRun(
    tenant: string, code: string, scheduleId: Option<Id>, key: string, payload: string,
    status: Status, attempts: nat, maxAttempts: int,
    lockedBy: Option<string>, lockedUntil: Option<int>,
    nextAttemptAt: int, startedAt: Option<int>, finishedAt: Option<int>, createdAt: int)

  type Runs = map<Id, JobRun>

  datatype Request = Request(tenant: string, code: string, key: string, payload: string, scheduleId: Option<Id>,
      maxAttempts: Option<int>)

  /** Backoff of a job definition, in seconds. */
  datatype Policy = Policy(baseSeconds: nat, maxSeconds: nat)

  function NewRun(r: Request, now: int): JobRun
  {
    JobRun(r.tenant, r.code, r.scheduleId, r.key, r.payload, Queued, 0,
        if r.maxAttempts.Some? then r.maxAttempts.value else 5,
           None, None, now, None, None, now)
  }

  predicate SameKey(a: JobRun, b: JobRun) { a.tenant == b.tenant && a.key == b.key }

  /** The unique constraint on tenant and idempotency key. */
  ghost predicate KeysUnique(runs: Runs)
  {
    forall i, j :: i in runs && j in runs && SameKey(runs[i], runs[j]) ==> i == j
  }

  predicate Due(run: JobRun, now: int) {
    run.status in {Queued, Retry} && run.nextAttemptAt <= now && run.attempts < run.maxAttempts
  }

  function AsClaimed(run: JobRun, worker: string, lockSeconds: nat, now: int): JobRun
  {
    run.(status := Running, attempts := run.attempts +
        1, lockedBy := Some(worker), lockedUntil := Some(now + lockSeconds * Backoff.SECOND),
         startedAt := if run.startedAt.Some? then run.startedAt else Some(now))
  }

  function ClaimAll(runs: Runs, ids: set<Id>, worker: string, lockSeconds: nat, now: int): Runs
  {
    map id | id in runs :: if id in ids then AsClaimed(runs[id], worker, lockSeconds, now) else runs[id]
  }

  /** A claimed run as the worker knows it. */
  datatype Ticket = Ticket(id: Id, run: JobRun)

  function AsSucceeded(run: JobRun, now: int): JobRun {
    run.(status := Succeeded, finishedAt := Some(now), lockedBy := None, lockedUntil := None)
  }

  function AsFailed(run: JobRun, known: JobRun, policy: Policy, now: int): JobRun
  {
    if known.attempts >= known.maxAttempts then
      run.(status := DeadLettered, lockedBy := None, lockedUntil := None, nextAttemptAt := now, finishedAt := Some(now))
    else
      run.(status := Retry, lockedBy := None, lockedUntil := None,
           nextAttemptAt := now +
               Backoff.Seconds(known.attempts, policy.baseSeconds, policy.maxSeconds) * Backoff.SECOND)
  }

  /** The worker's copy of a run whose job code it does not know: as if its attempts were used up. */
  function Exhausted(run: JobRun): JobRun { run.(attempts := if run.maxAttempts > 0 then run.maxAttempts else 0) }

  function Update(runs: Runs, id: Id, f: JobRun -> JobRun): Runs {
    if id in runs then runs[id := f(runs[id])] else runs
  }

  function SucceededWrite(runs: Runs, id: Id, now: int): Runs {
    Update(runs, id, (run: JobRun) => AsSucceeded(run, now))
  }

  function FailedWrite(runs: Runs, t: Ticket, policy: Policy, now: int): Runs {
    Update(runs, t.id, (run: JobRun) => AsFailed(run, t.run, policy, now))
  }

  // ---- the queue as it runs -----------------------------------------------------------------------

  /** How one transaction ended: whether it took effect, and whether the caller was told so. */
  datatype Luck = Luck(applied: bool, reported: bool)

  predicate Possible(luck: Luck) { luck.reported ==> luck.applied }

  datatype Kind = Completed | DeadLetteredRun | RetryScheduled | ManualRetryEnqueued(source: Id)

  datatype Event = Event(tenant: string, id: Id, kind: Kind)

  /** The two tables. */
  datatype Tables = Tables(runs: Runs, events: seq<Event>)

  function Logged(t: Tables, event: Event, luck: Luck): Tables {
    if luck.applied then t.(events := t.events + [event]) else t
  }

  /** How the execution of one run goes, as far as the worker does not decide it. */
  datatype Fortune = Fortune(definition: Option<Policy>, handled: bool, completed: Luck, completedLogged: Luck,
      failed: Luck, failedLogged: Luck,
                             completedAt: int, failedAt: int)

  predicate PossibleFortune(f: Fortune)
  {
    Possible(f.completed) && Possible(f.completedLogged) && Possible(f.failed) && Possible(f.failedLogged) &&
        f.completedAt <= f.failedAt
  }

  function AfterCompleting(t: Tables, k: Ticket, completed: Luck, logged: Luck, now: int): Tables
  {
    var updated := if completed.applied then t.(runs := SucceededWrite(t.runs, k.id, now)) else t;
    if completed.reported then Logged(updated, Event(k.run.tenant, k.id, Completed), logged) else updated
  }

  function AfterFailing(t: Tables, k: Ticket, policy: Policy, failed: Luck, logged: Luck, now: int): Tables
  {
    var updated := if failed.applied then t.(runs := FailedWrite(t.runs, k, policy, now)) else t;
    var kind := if k.run.attempts >= k.run.maxAttempts then DeadLetteredRun else RetryScheduled;
    if failed.reported then Logged(updated, Event(k.run.tenant, k.id, kind), logged) else updated
  }

  /** The tables after one run was executed. */
  function Executed(t: Tables, k: Ticket, f: Fortune): Tables
  {
    if f.definition.None? then
        AfterFailing(t, k.(run := Exhausted(k.run)), Policy(1, 1), f.failed, f.failedLogged, f.failedAt)
    else if f.handled then
      var completed := AfterCompleting(t, k, f.completed, f.completedLogged, f.completedAt);
      if f.completed.reported && f.completedLogged.reported then completed
      else AfterFailing(completed, k, f.definition.value, f.failed, f.failedLogged, f.failedAt)
    else AfterFailing(t, k, f.definition.value, f.failed, f.failedLogged, f.failedAt)
  }

  /** The execution ends without an exception, so that the worker goes on with its batch. */
  predicate Returns(f: Fortune)
  {
    (f.definition.Some? && f.handled && f.completed.reported && f.completedLogged.reported) ||
        (f.failed.reported && f.failedLogged.reported)
  }

  /** The tables after executing a batch in turn, up to the first execution that throws. */
  ghost function Through(t: Tables, batch: seq<Ticket>, fortunes: seq<Fortune>): Tables
    requires |batch| == |fortunes|
    decreases |batch|
  {
    if batch == [] then t
    else
      var next := Executed(t, batch[0], fortunes[0]);
      if Returns(fortunes[0]) then Through(next, batch[1..], fortunes[1..]) else next
  }

  predicate Eligible(run: JobRun, now: int, tenant: Option<string>) {
    Due(run, now) && (tenant.Some? ==> run.tenant == tenant.value)
  }

  predicate NoLater(a: JobRun, b: JobRun)
  {
    a.nextAttemptAt < b.nextAttemptAt || (a.nextAttemptAt == b.nextAttemptAt && a.createdAt <= b.createdAt)
  }

  /**
   * The choice the claim query makes: up to the limit, earliest first, skipping what other transactions have locked.
   */
  ghost predicate Choice(runs: Runs, now: int, limit: nat, tenant: Option<string>, locked: set<Id>, ids: set<Id>)
  {
    && (forall id :: id in ids ==> id in runs && id !in locked && Eligible(runs[id], now, tenant))
    && |ids| <= limit
    && (forall other :: other in runs && other !in ids && other !in locked && Eligible(runs[other], now, tenant)
          ==> |ids| == limit && forall id :: id in ids ==> NoLater(runs[id], runs[other]))
  }

  function Picked(ids: seq<Id>): set<Id> { set id | id in ids }

  function Tickets(runs: Runs, ids: seq<Id>): seq<Ticket>
    requires forall i :: 0 <= i < |ids| ==> ids[i] in runs
  {
    seq(|ids|, i requires 0 <= i < |ids| => Ticket(ids[i], runs[ids[i]]))
  }

  class JobQueue {
    var tables: Tables

    constructor ()
      ensures tables == Tables(map[], [])
    {
      tables := Tables(map[], []);
    }

    /** One transaction: inserts a run unless the tenant already has one with this key, and then returns that one. */
    method EnqueueJob(r: Request, now: int, newId: Id) returns (id: Id, created: bool)
      requires KeysUnique(tables.runs) && newId !in tables.runs
      modifies this
      ensures KeysUnique(tables.runs) && tables.events == old(tables.events)
      ensures id in tables.runs && tables.runs[id].tenant == r.tenant && tables.runs[id].key == r.key
      ensures created <==> forall i :: i in old(tables.runs) ==>
        old(tables.runs)[i].tenant != r.tenant || old(tables.runs)[i].key != r.key
      ensures tables.runs == if created then old(tables.runs)[id := NewRun(r, now)] else old(tables.runs)
      ensures created ==> id == newId
    {
      if existing :| existing in tables.runs && SameKey(tables.runs[existing], NewRun(r, now)) {
        return existing, false;
      }
      tables := tables.(runs := tables.runs[newId := NewRun(r, now)]);
      return newId, true;
    }

    method ClaimDueRuns(now: int, limit: nat, worker: string, lockSeconds: nat, tenant: Option<string>, locked: set<Id>,
        picked: seq<Id>)
      returns (batch: seq<Ticket>)
      requires Choice(tables.runs, now, limit, tenant, locked, Picked(picked)) && Once(picked)
      modifies this
      ensures tables == old(tables).(runs := ClaimAll(old(tables.runs), Picked(picked), worker, lockSeconds, now))
      ensures (forall i :: 0 <= i < |picked| ==> picked[i] in tables.runs) && batch == Tickets(tables.runs, picked)
    {
      assert forall i :: 0 <= i < |picked| ==> picked[i] in Picked(picked);
      tables := tables.(runs := ClaimAll(tables.runs, Picked(picked), worker, lockSeconds, now));
      batch := Tickets(tables.runs, picked);
    }

    method RecordRunEvent(event: Event, luck: Luck) returns (thrown: bool)
      modifies this
      ensures tables == Logged(old(tables), event, luck) && thrown == !luck.reported
    {
      if luck.applied { tables := tables.(events := tables.events + [event]); }
      thrown := !luck.reported;
    }

    /** Two transactions: the run, then its event. */
    method CompleteRun(k: Ticket, completed: Luck, logged: Luck, now: int) returns (thrown: bool)
      modifies this
      ensures tables == AfterCompleting(old(tables), k, completed, logged, now)
      ensures thrown == !(completed.reported && logged.reported)
    {
      if completed.applied && k.id in tables.runs {
        var run := tables.runs[k.id];
        tables := tables.(runs := tables.runs[k.id := run.(status := Succeeded, finishedAt := Some(now),
            lockedBy := None, lockedUntil := None)]);
      }
      if !completed.reported { return true; }
      thrown := RecordRunEvent(Event(k.run.tenant, k.id, Completed), logged);
    }

    method RetryOrDeadLetterRun(k: Ticket, policy: Policy, failed: Luck, logged: Luck, now: int) returns (thrown: bool)
      modifies this
      ensures tables == AfterFailing(old(tables), k, policy, failed, logged, now)
      ensures thrown == !(failed.reported && logged.reported)
    {
      hide Backoff.Seconds;
      var exhausted := k.run.attempts >= k.run.maxAttempts;
      var delay := if exhausted then 0 else Backoff.Seconds(k.run.attempts, policy.baseSeconds, policy.maxSeconds);
      if failed.applied && k.id in tables.runs {
        var run := tables.runs[k.id];
        run := run.(status := if exhausted then DeadLettered else Retry, lockedBy := None, lockedUntil := None,
                    nextAttemptAt := now +
                        delay * Backoff.SECOND, finishedAt := if exhausted then Some(now) else run.finishedAt);
        tables := tables.(runs := tables.runs[k.id := run]);
      }
      if !failed.reported { return true; }
      thrown := RecordRunEvent(Event(k.run.tenant, k.id, if exhausted then DeadLetteredRun else RetryScheduled),
          logged);
    }

    /** Runs the handler of one claimed run, if its job code has one, and writes back how it went. */
    method ExecuteRun(k: Ticket, f: Fortune) returns (thrown: bool)
      requires PossibleFortune(f)
      modifies this
      ensures tables == Executed(old(tables), k, f)
      ensures thrown <==>
        && !(f.definition.Some? && f.handled && f.completed.reported && f.completedLogged.reported)
        && !(f.failed.reported && f.failedLogged.reported)
    {
      if f.definition.None? {
        thrown := RetryOrDeadLetterRun(k.(run := Exhausted(k.run)), Policy(1, 1), f.failed, f.failedLogged, f.failedAt);
        return;
      }
      if f.handled {
        var failed := CompleteRun(k, f.completed, f.completedLogged, f.completedAt);
        if !failed { return false; }
      }
      thrown := RetryOrDeadLetterRun(k, f.definition.value, f.failed, f.failedLogged, f.failedAt);
    }

    /** The runs of one batch in turn; an execution that throws leaves the rest of the batch Running. */
    method ExecuteBatch(batch: seq<Ticket>, fortunes: seq<Fortune>) returns (thrown: bool)
      requires |batch| == |fortunes| && forall i :: 0 <= i < |fortunes| ==> PossibleFortune(fortunes[i])
      modifies this
      ensures tables == Through(old(tables), batch, fortunes)
      ensures thrown <==> exists i :: 0 <= i < |fortunes| && !Returns(fortunes[i])
    {
      var i := 0;
      while i < |batch|
        invariant 0 <= i <= |batch|
        invariant Through(old(tables), batch, fortunes) == Through(tables, batch[i..], fortunes[i..])
        invariant forall j :: 0 <= j < i ==> Returns(fortunes[j])
      {
        assert batch[i..][1..] == batch[i + 1..] && fortunes[i..][1..] == fortunes[i + 1..];
        thrown := ExecuteRun(batch[i], fortunes[i]);
        if thrown { return; }
        i := i + 1;
      }
      thrown := false;
    }

    /** A new run for a dead-lettered one, which itself stays as it is; an error for any other run. */
    method RetryDeadLetteredRun(k: Ticket, retryKey: string, now: int, newId: Id, logged: Luck)
        returns (id: Option<Id>, thrown: bool)
      requires KeysUnique(tables.runs) && newId !in tables.runs
      modifies this
      ensures KeysUnique(tables.runs)
      ensures forall i :: i in old(tables.runs) ==> i in tables.runs && tables.runs[i] == old(tables.runs)[i]
      ensures k.run.status != DeadLettered ==> id == None && thrown && tables == old(tables)
      ensures k.run.status == DeadLettered ==>
        && id.Some? && id.value in tables.runs && tables.runs[id.value].key == retryKey &&
            tables.runs[id.value].tenant == k.run.tenant
        && tables.runs.Keys <= old(tables.runs).Keys + {newId} && thrown == !logged.reported
        && tables.events ==
            old(tables.events) +
                if logged.applied then [Event(k.run.tenant, id.value, ManualRetryEnqueued(k.id))] else []
      ensures newId in tables.runs ==>
        && k.run.status == DeadLettered
        && tables.runs[newId] ==
            NewRun(Request(k.run.tenant, k.run.code, retryKey, k.run.payload, k.run.scheduleId,
                Some(k.run.maxAttempts)), now)
    {
      if k.run.status != DeadLettered { return None, true; }
      var request := Request(k.run.tenant, k.run.code, retryKey, k.run.payload, k.run.scheduleId,
          Some(k.run.maxAttempts));
      var found, created := EnqueueJob(request, now, newId);
      thrown := RecordRunEvent(Event(k.run.tenant, found, ManualRetryEnqueued(k.id)), logged);
      id := Some(found);
    }
  }
}
