/**
 * Any number of workers over one run table, each step one transaction or one handler call, in any interleaving, with
 * crashes and with transactions that fail or whose success goes unreported.
 */
module JobProtocol {
  import Backoff
  import opened Jobs
  import opened Options
  import opened Sequences

  datatype Phase =
    | Claimed     // nothing done yet
    | Handled     // the handler returned a result
    | Completing  // the run was marked Succeeded; its event is still to be written
    | Failing     // something failed, or the job code is unknown
    | Failed      // the run was marked Retry or DeadLettered; its event is still to be written

  /** A worker's hold on a run it claimed, with the row as the claim returned it. */
  datatype Hold = Hold(ticket: Ticket, worker: string, phase: Phase, rejected: bool)

  /**
   * The table, the clock, the holds, and records that no program keeps: how often each run was handled, which runs a
   * handler has served without an error, and which were rejected for an unknown job code.
   */
  datatype State = State(now: int, runs: Runs,
      holds: map<nat, Hold>, handled: map<Id, nat>, served: set<Id>, rejected: set<Id>)

  datatype Step =
    | Tick(to: int)
    | Enqueue(id: Id, request: Request)
    | Claim(worker: string, lockSeconds: nat, batch: map<nat, Id>)
    | Reject(hold: nat)
    | Handle(hold: nat, ok: bool)
    | Complete(hold: nat, luck: Luck)
    | LogCompleted(hold: nat, ok: bool)
    | Fail(hold: nat, policy: Policy, luck: Luck)
    | LogFailed(hold: nat)
    | Crash(hold: nat)

  function Handlings(s: State, id: Id): nat { if id in s.handled then s.handled[id] else 0 }

  /** The row a failing hold acts on: its copy of the run, with the attempts used up if the job code is unknown. */
  function Known(h: Hold): Ticket { if h.rejected then h.ticket.(run := Exhausted(h.ticket.run)) else h.ticket }

  function Claims(runs: Runs, batch: map<nat, Id>, worker: string): map<nat, Hold>
    requires forall k :: k in batch ==> batch[k] in runs
  {
    map k | k in batch :: Hold(Ticket(batch[k], runs[batch[k]]), worker, Claimed, false)
  }

  ghost predicate Enabled(s: State, step: Step)
  {
    match step
    case Tick(to) => to >= s.now
    case Enqueue(id, r) => id !in s.runs && forall i :: i in s.runs ==> !SameKey(s.runs[i], NewRun(r, s.now))
    case Claim(_, _, batch) =>
      && (forall k :: k in batch ==> k !in s.holds && batch[k] in s.runs && Due(s.runs[batch[k]], s.now))
      && (forall k, j :: k in batch && j in batch && batch[k] == batch[j] ==> k == j)
    case Reject(k) => k in s.holds && s.holds[k].phase == Claimed
    case Handle(k, _) => k in s.holds && s.holds[k].phase == Claimed
    case Complete(k, luck) => k in s.holds && s.holds[k].phase == Handled && Possible(luck)
    case LogCompleted(k, _) => k in s.holds && s.holds[k].phase == Completing
    case Fail(k, _, luck) => k in s.holds && s.holds[k].phase == Failing && Possible(luck)
    case LogFailed(k) => k in s.holds && s.holds[k].phase == Failed
    case Crash(k) => k in s.holds
  }

  function Move(s: State, k: nat, phase: Phase): State
    requires k in s.holds
  {
    s.(holds := s.holds[k := s.holds[k].(phase := phase)])
  }

  function Release(s: State, k: nat): State { s.(holds := s.holds - {k}) }

  function After(s: State, step: Step): State
    requires Enabled(s, step)
  {
    match step
    case Tick(to) => s.(now := to)
    case Enqueue(id, r) => s.(runs := s.runs[id := NewRun(r, s.now)])
    case Claim(worker, lockSeconds, batch) =>
      var runs := ClaimAll(s.runs, batch.Values, worker, lockSeconds, s.now);
      s.(runs := runs, holds := s.holds + Claims(runs, batch, worker))
    case Reject(k) =>
      s.(holds := s.holds[k := s.holds[k].(phase := Failing, rejected := true)], rejected := s.rejected +
          {s.holds[k].ticket.id})
    case Handle(k, ok) =>
      var id := s.holds[k].ticket.id;
      Move(s, k, if ok then Handled else Failing).(handled := s.handled[id := Handlings(s, id) + 1],
          served := if ok then s.served + {id} else s.served)
    case Complete(k, luck) =>
      var runs := if luck.applied then SucceededWrite(s.runs, s.holds[k].ticket.id, s.now) else s.runs;
      Move(s, k, if luck.reported then Completing else Failing).(runs := runs)
    case LogCompleted(k, ok) => if ok then Release(s, k) else Move(s, k, Failing)
    case Fail(k, policy, luck) =>
      var runs := if luck.applied then FailedWrite(s.runs, Known(s.holds[k]), policy, s.now) else s.runs;
      (if luck.reported then Move(s, k, Failed) else Release(s, k)).(runs := runs)
    case LogFailed(k) => Release(s, k)
    case Crash(k) => Release(s, k)
  }

  ghost predicate Run(states: seq<State>, steps: seq<Step>)
  {
    |states| == |steps| + 1 &&
        forall i :: 0 <= i < |steps| ==> Enabled(states[i], steps[i]) && states[i + 1] == After(states[i], steps[i])
  }

  ghost predicate Initial(s: State) {
    s.runs == map[] && s.holds == map[] && s.handled == map[] && s.served == {} && s.rejected == {}
  }

  // ---- what every step keeps ----------------------------------------------------------------------

  /** The hold may still write to its run. */
  predicate Active(h: Hold) { h.phase != Failed }

  ghost predicate RunOk(s: State, id: Id)
    requires id in s.runs
  {
    var run := s.runs[id];
    && (run.attempts == 0 || run.attempts <= run.maxAttempts) && Handlings(s, id) <= run.attempts
    && (run.status == Queued ==> run.attempts == 0)
    && (run.status == Retry ==> run.attempts < run.maxAttempts)
    && (run.status == Running ==> run.lockedBy.Some? && run.attempts > 0)
    && (run.status == Succeeded ==> id in s.served)
    && (run.status == DeadLettered ==> run.attempts == run.maxAttempts || id in s.rejected)
    && run.status != Cancelled
  }

  ghost predicate HoldOk(s: State, k: nat)
    requires k in s.holds
  {
    var h := s.holds[k];
    Active(h) && h.ticket.id in s.runs ==>
      var id, run := h.ticket.id, s.runs[h.ticket.id];
      && run.attempts == h.ticket.run.attempts > 0 && run.maxAttempts == h.ticket.run.maxAttempts >= run.attempts
      && (run.status == Running || (run.status == Succeeded && h.phase in {Completing, Failing}))
      && (h.phase == Completing ==> run.status == Succeeded)
      && (run.status == Running ==> run.lockedBy == Some(h.worker))
      && (h.phase == Claimed ==> Handlings(s, id) < run.attempts)
      && (h.phase == Handled ==> id in s.served)
      && (h.rejected ==> id in s.rejected && h.phase == Failing)
  }

  ghost predicate Rivals(s: State, k: nat, j: nat)
  {
    k in s.holds && j in s.holds && s.holds[k].ticket.id == s.holds[j].ticket.id && Active(s.holds[k]) &&
        Active(s.holds[j])
  }

  ghost predicate Safe(s: State)
  {
    && (forall id :: id in s.runs ==> RunOk(s, id))
    && (forall k :: k in s.holds ==> s.holds[k].ticket.id in s.runs && HoldOk(s, k))
    && (forall k, j :: Rivals(s, k, j) ==> k == j)
    && s.handled.Keys <= s.runs.Keys
  }

  lemma StepSafe(s: State, step: Step)
    requires Safe(s) && Enabled(s, step)
    ensures Safe(After(s, step))
  {
    if step.Claim? {
      ClaimSafe(s, step);
    } else if step.Tick? || step.Enqueue? {
      QuietSafe(s, step);
    } else {
      HolderSafe(s, step, step.hold);
    }
  }

  lemma QuietSafe(s: State, step: Step)
    requires Safe(s) && Enabled(s, step) && (step.Tick? || step.Enqueue?)
    ensures Safe(After(s, step))
  {
    var s' := After(s, step);
    forall id | id in s'.runs ensures RunOk(s', id) { if id in s.runs { assert RunOk(s, id); } }
    forall k | k in s'.holds ensures s'.holds[k].ticket.id in s'.runs && HoldOk(s', k) { assert HoldOk(s, k); }
    forall k, j | Rivals(s', k, j) ensures k == j { assert Rivals(s, k, j); }
  }

  lemma ClaimSafe(s: State, step: Step)
    requires Safe(s) && Enabled(s, step) && step.Claim?
    ensures Safe(After(s, step))
  {
    hide RunOk, HoldOk;
    var s' := After(s, step);
    forall id | id in s'.runs ensures RunOk(s', id) { ClaimedRun(s, step, id); }
    forall k | k in s'.holds ensures s'.holds[k].ticket.id in s'.runs && HoldOk(s', k) { ClaimedHold(s, step, k); }
    forall k | k in s.holds && Active(s.holds[k]) ensures s.holds[k].ticket.id !in step.batch.Values {
      HeldNotDue(s, k);
    }
    forall k, j | Rivals(s', k, j) ensures k == j {
      if k in s.holds && j in s.holds { assert Rivals(s, k, j); }
    }
  }

  lemma HeldNotDue(s: State, k: nat)
    requires Safe(s) && k in s.holds && Active(s.holds[k])
    ensures !Due(s.runs[s.holds[k].ticket.id], s.now)
  {
    assert HoldOk(s, k);
  }

  lemma ClaimedRun(s: State, step: Step, id: Id)
    requires Safe(s) && Enabled(s, step) && step.Claim? && id in s.runs
    ensures RunOk(After(s, step), id)
  {
    hide HoldOk;
    assert RunOk(s, id);
  }

  lemma ClaimedHold(s: State, step: Step, k: nat)
    requires Safe(s) && Enabled(s, step) && step.Claim? && k in After(s, step).holds
    ensures After(s, step).holds[k].ticket.id in s.runs && HoldOk(After(s, step), k)
  {
    if k in step.batch {
      assert RunOk(s, step.batch[k]);
    } else {
      assert HoldOk(s, k);
      if Active(s.holds[k]) { HeldNotDue(s, k); }
    }
  }

  predicate ByHolder(step: Step) { !step.Claim? && !step.Tick? && !step.Enqueue? }

  lemma HolderSafe(s: State, step: Step, j: nat)
    requires Safe(s) && Enabled(s, step) && ByHolder(step) && step.hold == j
    ensures Safe(After(s, step))
  {
    hide RunOk, HoldOk;
    var s' := After(s, step);
    forall id | id in s'.runs ensures RunOk(s', id) { HolderRun(s, step, j, id); }
    forall k | k in s'.holds ensures s'.holds[k].ticket.id in s'.runs && HoldOk(s', k) {
      if k == j { OwnHold(s, step, j); } else { OtherHold(s, step, j, k); }
    }
    forall k, i | Rivals(s', k, i) ensures k == i { assert Rivals(s, k, i); }
  }

  /** A holder's step leaves every other run and every other hold as they are. */
  lemma Untouched(s: State, step: Step, j: nat)
    requires Enabled(s, step) && ByHolder(step) && step.hold == j
    ensures var s', own := After(s, step), s.holds[j].ticket.id;
      && s'.runs.Keys == s.runs.Keys && (forall id :: id in s.runs && id != own ==> s'.runs[id] == s.runs[id])
      && (forall id :: id != own ==> Handlings(s', id) == Handlings(s, id))
      && s.served <= s'.served && s.rejected <= s'.rejected && s'.holds.Keys <= s.holds.Keys
      && (forall k :: k in s'.holds && k != j ==> s'.holds[k] == s.holds[k])
      && (!Active(s.holds[j]) ==> s'.runs == s.runs && s'.handled == s.handled)
  {
    hide Backoff.Seconds;
  }

  lemma HolderRun(s: State, step: Step, j: nat, id: Id)
    requires Safe(s) && Enabled(s, step) && ByHolder(step) && step.hold == j && id in After(s, step).runs
    ensures RunOk(After(s, step), id)
  {
    hide Backoff.Seconds;
    if id == s.holds[j].ticket.id { OwnRun(s, step, j); } else {
      hide After, HoldOk;
      Untouched(s, step, j);
      assert RunOk(s, id);
    }
  }

  lemma OwnRun(s: State, step: Step, j: nat)
    requires Safe(s) && Enabled(s, step) && ByHolder(step) && step.hold == j
    ensures RunOk(After(s, step), s.holds[j].ticket.id)
  {
    hide Backoff.Seconds;
    assert HoldOk(s, j) && RunOk(s, s.holds[j].ticket.id);
  }

  lemma OwnHold(s: State, step: Step, j: nat)
    requires Safe(s) && Enabled(s, step) && ByHolder(step) && step.hold == j && j in After(s, step).holds
    ensures After(s, step).holds[j].ticket.id in After(s, step).runs && HoldOk(After(s, step), j)
  {
    hide Backoff.Seconds;
    assert HoldOk(s, j);
  }

  lemma OtherHold(s: State, step: Step, j: nat, k: nat)
    requires Safe(s) && Enabled(s, step) && ByHolder(step) && step.hold == j && k != j && k in After(s, step).holds
    ensures After(s, step).holds[k].ticket.id in After(s, step).runs && HoldOk(After(s, step), k)
  {
    hide After, RunOk;
    Untouched(s, step, j);
    assert HoldOk(s, k);
    assert !Active(s.holds[k]) || s.holds[k].ticket.id != s.holds[j].ticket.id || !Active(s.holds[j]) by {
      assert !Rivals(s, k, j);
    }
  }

  lemma StartSafe(s: State)
    requires Initial(s)
    ensures Safe(s)
  {
  }

  lemma {:induction false} RunSafe(states: seq<State>, steps: seq<Step>, n: nat)
    requires Run(states, steps) && Initial(states[0]) && n <= |steps|
    ensures Safe(states[n])
    decreases n
  {
    hide Safe, Enabled, After;
    if n == 0 { StartSafe(states[0]); } else { RunSafe(states, steps, n - 1); StepSafe(states[n - 1], steps[n - 1]); }
  }

  // ---- main results: limits and ownership -----------------------------------------------------------

  /**
   * In every reachable state a run has at most its allowed attempts, its handler ran at most once per attempt, a run
   * that waits has attempts left if it was allowed any, a Succeeded run was served by its handler, and a dead-lettered
   * one used up its attempts or has an unknown job code.
   */
  lemma RunsWithinLimits(states: seq<State>, steps: seq<Step>, n: nat, id: Id)
    requires Run(states, steps) && Initial(states[0]) && n <= |steps| && id in states[n].runs
    ensures var s, run := states[n], states[n].runs[id];
      && Handlings(s, id) <= run.attempts && (run.attempts == 0 || run.attempts <= run.maxAttempts)
      && (run.status in {Queued, Retry} && run.maxAttempts > 0 ==> run.attempts < run.maxAttempts)
      && (run.status == Succeeded ==> id in s.served)
      && (run.status == DeadLettered ==> run.attempts == run.maxAttempts || id in s.rejected)
  {
    hide Enabled, After;
    RunSafe(states, steps, n);
    assert RunOk(states[n], id);
  }

  /** A waiting run becomes due at some time exactly if it was allowed any attempts. */
  lemma DueExactly(states: seq<State>, steps: seq<Step>, n: nat, id: Id)
    requires Run(states, steps) && Initial(states[0]) && n <= |steps| && id in states[n].runs
    requires states[n].runs[id].status in {Queued, Retry}
    ensures (exists now :: Due(states[n].runs[id], now)) <==> states[n].runs[id].maxAttempts > 0
  {
    hide Enabled, After;
    RunSafe(states, steps, n);
    assert RunOk(states[n], id);
    var run := states[n].runs[id];
    if run.maxAttempts > 0 { assert Due(run, run.nextAttemptAt); }
  }

  /** No two holds of a reachable state may write to one run, and the row of a Running run names its holder. */
  lemma OneOwner(states: seq<State>, steps: seq<Step>, n: nat, k: nat, j: nat)
    requires Run(states, steps) && Initial(states[0]) && n <= |steps| && k in states[n].holds && j in states[n].holds
    requires states[n].holds[k].ticket.id == states[n].holds[j].ticket.id && Active(states[n].holds[k]) &&
             Active(states[n].holds[j])
    ensures k == j && states[n].holds[k].ticket.id in states[n].runs
    ensures var run := states[n].runs[states[n].holds[k].ticket.id];
      run.status == Running ==> run.lockedBy == Some(states[n].holds[k].worker)
  {
    hide Enabled, After;
    RunSafe(states, steps, n);
    assert Rivals(states[n], k, j) && HoldOk(states[n], k);
  }

  /** A Running run changes only by a step of the worker that its row names. */
  lemma OnlyOwnerWrites(states: seq<State>, steps: seq<Step>, n: nat, id: Id)
    requires Run(states, steps) && Initial(states[0]) && n < |steps| && id in states[n].runs &&
             states[n].runs[id].status == Running
    requires id !in states[n + 1].runs || states[n + 1].runs[id] != states[n].runs[id]
    ensures steps[n].Complete? || steps[n].Fail?
    ensures steps[n].hold in states[n].holds && states[n].holds[steps[n].hold].ticket.id == id
    ensures states[n].runs[id].lockedBy == Some(states[n].holds[steps[n].hold].worker)
  {
    RunSafe(states, steps, n);
    Changes(states[n], steps[n], id);
    if steps[n].Complete? || steps[n].Fail? { assert HoldOk(states[n], steps[n].hold); }
  }

  /** How a row can change: a claim takes it if it is due, and its holder writes back. */
  lemma Changes(s: State, step: Step, id: Id)
    requires Safe(s) && Enabled(s, step) && id in s.runs
    ensures id in After(s, step).runs
    ensures After(s, step).runs[id] != s.runs[id] ==>
      (step.Claim? && Due(s.runs[id], s.now)) || ((step.Complete? || step.Fail?) && s.holds[step.hold].ticket.id == id)
  {
    hide Backoff.Seconds;
  }

  predicate Held(s: State, id: Id) { exists k :: k in s.holds && s.holds[k].ticket.id == id && Active(s.holds[k]) }

  /** There is no takeover: a Running run whose worker crashed stays Running, with its lock long past, for ever. */
  lemma {:induction false} AbandonedForEver(states: seq<State>, steps: seq<Step>, m: nat, n: nat, id: Id)
    requires Run(states, steps) && Initial(states[0]) && m <= n <= |steps|
    requires id in states[m].runs && states[m].runs[id].status == Running && !Held(states[m], id)
    ensures id in states[n].runs && states[n].runs[id] == states[m].runs[id] && !Held(states[n], id)
    decreases n
  {
    hide Enabled, After, Safe, Held;
    if m < n {
      AbandonedForEver(states, steps, m, n - 1, id);
      RunSafe(states, steps, n - 1);
      StaysAbandoned(states[n - 1], steps[n - 1], id);
    }
  }

  lemma StaysAbandoned(s: State, step: Step, id: Id)
    requires Safe(s) && Enabled(s, step) && id in s.runs && s.runs[id].status == Running && !Held(s, id)
    ensures id in After(s, step).runs && After(s, step).runs[id] == s.runs[id] && !Held(After(s, step), id)
  {
    hide Backoff.Seconds;
    Changes(s, step, id);
    if step.Complete? || step.Fail? { assert Active(s.holds[step.hold]); }
    forall k | k in After(s, step).holds && After(s, step).holds[k].ticket.id == id
      ensures !Active(After(s, step).holds[k])
    {
      if k in s.holds { assert !Active(s.holds[k]); }
    }
  }

  // ---- main results: terminal states ------------------------------------------------------------------

  /** A dead-lettered run never changes again. */
  lemma {:induction false} DeadLetteredForEver(states: seq<State>, steps: seq<Step>, m: nat, n: nat, id: Id)
    requires Run(states, steps) && Initial(states[0]) && m <= n <= |steps|
    requires id in states[m].runs && states[m].runs[id].status == DeadLettered
    ensures id in states[n].runs && states[n].runs[id] == states[m].runs[id]
    decreases n
  {
    hide Enabled, After, Safe;
    if m < n {
      DeadLetteredForEver(states, steps, m, n - 1, id);
      RunSafe(states, steps, n - 1);
      DeadLetteredStays(states[n - 1], steps[n - 1], id);
    }
  }

  lemma DeadLetteredStays(s: State, step: Step, id: Id)
    requires Safe(s) && Enabled(s, step) && id in s.runs && s.runs[id].status == DeadLettered
    ensures id in After(s, step).runs && After(s, step).runs[id] == s.runs[id]
  {
    Changes(s, step, id);
    if step.Complete? || step.Fail? { assert HoldOk(s, step.hold); }
  }

  /** The holder of the run is about to write a failure. */
  predicate Doomed(s: State, id: Id) {
    exists k :: k in s.holds && s.holds[k].ticket.id == id && s.holds[k].phase == Failing
  }

  /** The step is a failed insert of the completion event of the run. */
  predicate EventLost(s: State, step: Step, id: Id) {
    step.LogCompleted? && !step.ok && step.hold in s.holds && s.holds[step.hold].ticket.id == id
  }

  /**
   * A run that Succeeded, and whose holder was told so, stays as it is unless the insert of its completion event fails.
   */
  lemma {:induction false} SucceededUnlessEventLost(states: seq<State>, steps: seq<Step>, m: nat, n: nat, id: Id)
    requires Run(states, steps) && Initial(states[0]) && m <= n <= |steps|
    requires id in states[m].runs && states[m].runs[id].status == Succeeded && !Doomed(states[m], id)
    requires forall i :: m <= i < n ==> !EventLost(states[i], steps[i], id)
    ensures id in states[n].runs && states[n].runs[id] == states[m].runs[id] && !Doomed(states[n], id)
    decreases n
  {
    hide Enabled, After, Safe, Doomed, EventLost;
    if m < n {
      SucceededUnlessEventLost(states, steps, m, n - 1, id);
      RunSafe(states, steps, n - 1);
      SucceededStays(states[n - 1], steps[n - 1], id);
    }
  }

  lemma SucceededStays(s: State, step: Step, id: Id)
    requires Safe(s) && Enabled(s, step) && id in s.runs && s.runs[id].status == Succeeded && !Doomed(s, id) &&
             !EventLost(s, step, id)
    ensures id in After(s, step).runs && After(s, step).runs[id] == s.runs[id] && !Doomed(After(s, step), id)
  {
    hide Backoff.Seconds;
    Changes(s, step, id);
    forall k | k in s.holds && s.holds[k].ticket.id == id ensures s.holds[k].phase in {Completing, Failed} {
      assert HoldOk(s, k);
    }
    var s' := After(s, step);
    forall k | k in s'.holds && s'.holds[k].ticket.id == id ensures s'.holds[k].phase != Failing {
      if k !in s.holds { assert step.Claim?; }
    }
  }

  /**
   * And if that insert does fail, the worker's next write undoes the success, whatever the state: the run is to be
   * retried, or is dead-lettered if this was its last attempt.
   */
  lemma EventLostUndoesSuccess(states: seq<State>, steps: seq<Step>, n: nat, k: nat, policy: Policy, luck: Luck)
    requires Run(states, steps) && Initial(states[0]) && n <= |steps|
    requires k in states[n].holds && states[n].holds[k].phase == Completing && Possible(luck) && luck.applied
    ensures var s, id := states[n], states[n].holds[k].ticket.id;
      && id in s.runs && s.runs[id].status == Succeeded
      && Enabled(s, LogCompleted(k, false)) && Enabled(After(s, LogCompleted(k, false)), Fail(k, policy, luck))
      && var last := After(After(s, LogCompleted(k, false)), Fail(k, policy, luck));
         id in last.runs && last.runs[id].status ==
           if s.runs[id].attempts == s.runs[id].maxAttempts then DeadLettered else Retry
  {
    RunSafe(states, steps, n);
    assert HoldOk(states[n], k);
  }

  // ---- main results: idempotency keys and the executing worker ------------------------------------------

  /** No tenant ever has two runs with one idempotency key. */
  lemma {:induction false} KeysStayUnique(states: seq<State>, steps: seq<Step>, n: nat)
    requires Run(states, steps) && Initial(states[0]) && n <= |steps|
    ensures KeysUnique(states[n].runs)
    ensures var runs := states[n].runs;
      forall i, j :: i in runs && j in runs && runs[i].tenant == runs[j].tenant && runs[i].key == runs[j].key ==> i == j
    decreases n
  {
    hide Enabled, After;
    if n > 0 {
      KeysStayUnique(states, steps, n - 1);
      StepKeysUnique(states[n - 1], steps[n - 1]);
    }
  }

  lemma StepKeysUnique(s: State, step: Step)
    requires KeysUnique(s.runs) && Enabled(s, step)
    ensures KeysUnique(After(s, step).runs)
  {
    hide Backoff.Seconds;
    var s' := After(s, step);
    forall i, j | i in s'.runs && j in s'.runs && SameKey(s'.runs[i], s'.runs[j]) ensures i == j {
      if i in s.runs && j in s.runs { assert SameKey(s.runs[i], s.runs[j]); }
    }
  }

  /** The state after these steps, if each is enabled in its turn. */
  ghost function Performed(s: State, steps: seq<Step>): Option<State>
    decreases |steps|
  {
    if steps == [] then Some(s) else if Enabled(s, steps[0]) then Performed(After(s, steps[0]), steps[1..]) else None
  }

  function FailScript(k: nat, policy: Policy, f: Fortune): seq<Step>
  {
    [Tick(f.failedAt), Fail(k, policy, f.failed)] + if f.failed.reported then [LogFailed(k)] else []
  }

  /** What a worker does that executes one run. */
  function Script(k: nat, f: Fortune): seq<Step>
  {
    if f.definition.None? then [Reject(k)] + FailScript(k, Policy(1, 1), f)
    else if !f.handled then [Handle(k, false)] + FailScript(k, f.definition.value, f)
    else
      [Handle(k, true), Tick(f.completedAt), Complete(k, f.completed)]
      + (if f.completed.reported then [LogCompleted(k, f.completedLogged.reported)] else [])
      + (if f.completed.reported && f.completedLogged.reported then [] else FailScript(k, f.definition.value, f))
  }

  lemma Perform(s: State, step: Step, steps: seq<Step>)
    requires Enabled(s, step)
    ensures Performed(s, [step] + steps) == Performed(After(s, step), steps)
  {
    hide Enabled, After;
    assert ([step] + steps)[1..] == steps;
  }

  lemma FailPerformed(s: State, t: Tables, k: nat, policy: Policy, f: Fortune)
    requires PossibleFortune(f) && k in s.holds && s.holds[k].phase == Failing && s.now <= f.failedAt &&
             t.runs == s.runs
    ensures var last := Performed(s, FailScript(k, policy, f));
      && last.Some? &&
          last.value.runs == AfterFailing(t, Known(s.holds[k]), policy, f.failed, f.failedLogged, f.failedAt).runs
      && last.value.holds == s.holds - {k} && last.value.now == f.failedAt
  {
    hide Backoff.Seconds, Performed;
    var late := After(s, Tick(f.failedAt));
    var written := After(late, Fail(k, policy, f.failed));
    var rest := if f.failed.reported then [LogFailed(k)] else [];
    assert FailScript(k, policy, f) == [Tick(f.failedAt)] + ([Fail(k, policy, f.failed)] + rest);
    Perform(s, Tick(f.failedAt), [Fail(k, policy, f.failed)] + rest);
    Perform(late, Fail(k, policy, f.failed), rest);
    if f.failed.reported {
      assert rest == [LogFailed(k)] + [];
      Perform(written, LogFailed(k), []);
      Nothing(After(written, LogFailed(k)));
    } else {
      Nothing(written);
    }
  }

  lemma Nothing(s: State)
    ensures Performed(s, []) == Some(s)
  {
  }

  /**
   * Executing a claimed run is a sequence of steps of this protocol, with the same effect on the table; the hold is
   * then released.
   */
  lemma ExecutionIsSteps(s: State, t: Tables, k: nat, f: Fortune)
    requires PossibleFortune(f) && k in s.holds && s.holds[k].phase == Claimed && !s.holds[k].rejected &&
             t.runs == s.runs
    requires s.now <= f.completedAt <= f.failedAt
    ensures var last := Performed(s, Script(k, f));
      && last.Some? && last.value.runs == Executed(t, s.holds[k].ticket, f).runs
      && last.value.holds == s.holds - {k} && last.value.now <= f.failedAt
  {
    hide Backoff.Seconds, Performed, AfterFailing, FailScript;
    if f.definition.None? {
      Perform(s, Reject(k), FailScript(k, Policy(1, 1), f));
      FailPerformed(After(s, Reject(k)), t, k, Policy(1, 1), f);
    } else if !f.handled {
      Perform(s, Handle(k, false), FailScript(k, f.definition.value, f));
      FailPerformed(After(s, Handle(k, false)), t, k, f.definition.value, f);
    } else {
      HandledIsSteps(s, t, k, f);
    }
  }

  lemma HandledIsSteps(s: State, t: Tables, k: nat, f: Fortune)
    requires PossibleFortune(f) && k in s.holds && s.holds[k].phase == Claimed && !s.holds[k].rejected &&
             t.runs == s.runs
    requires s.now <= f.completedAt <= f.failedAt && f.definition.Some? && f.handled
    ensures var last := Performed(s, Script(k, f));
      && last.Some? && last.value.runs == Executed(t, s.holds[k].ticket, f).runs
      && last.value.holds == s.holds - {k} && last.value.now <= f.failedAt
  {
    hide Backoff.Seconds, Performed, AfterFailing, FailScript;
    var handled := After(s, Handle(k, true));
    var late := After(handled, Tick(f.completedAt));
    var written := After(late, Complete(k, f.completed));
    var failing := FailScript(k, f.definition.value, f);
    var rest := if f.completed.reported && f.completedLogged.reported then [] else failing;
    var log := if f.completed.reported then [LogCompleted(k, f.completedLogged.reported)] else [];
    var tables := AfterCompleting(t, s.holds[k].ticket, f.completed, f.completedLogged, f.completedAt);
    assert Script(k, f) == [Handle(k, true)] + ([Tick(f.completedAt)] + ([Complete(k, f.completed)] + (log + rest)));
    Perform(s, Handle(k, true), [Tick(f.completedAt)] + ([Complete(k, f.completed)] + (log + rest)));
    Perform(handled, Tick(f.completedAt), [Complete(k, f.completed)] + (log + rest));
    Perform(late, Complete(k, f.completed), log + rest);
    if f.completed.reported {
      Perform(written, LogCompleted(k, f.completedLogged.reported), rest);
      var logged := After(written, LogCompleted(k, f.completedLogged.reported));
      if f.completedLogged.reported {
        Nothing(logged);
      } else {
        FailPerformed(logged, tables, k, f.definition.value, f);
      }
    } else {
      assert log + rest == failing;
      FailPerformed(written, tables, k, f.definition.value, f);
    }
  }

  // ---- whole iterations of a worker ---------------------------------------------------------------------

  lemma {:induction false} PerformBoth(s: State, a: seq<Step>, b: seq<Step>)
    requires Performed(s, a).Some?
    ensures Performed(s, a + b) == Performed(Performed(s, a).value, b)
    decreases |a|
  {
    hide Enabled, After;
    if a == [] {
      assert a + b == b;
    } else {
      assert (a + b)[1..] == a[1..] + b;
      PerformBoth(After(s, a[0]), a[1..], b);
    }
  }

  /** The claim of these runs, in this order, under hold numbers from `first` on. */
  function Batch(picked: seq<Id>, first: nat): (batch: map<nat, Id>)
    ensures forall k :: k in batch <==> first <= k < first + |picked|
    ensures forall k :: k in batch ==> batch[k] == picked[k - first]
    decreases |picked|
  {
    if picked == [] then map[] else Batch(picked[1..], first + 1)[first := picked[0]]
  }

  lemma BatchTakes(picked: seq<Id>, first: nat)
    requires Once(picked)
    ensures Batch(picked, first).Values == Picked(picked)
    ensures var b := Batch(picked, first); forall k, j :: k in b && j in b && b[k] == b[j] ==> k == j
  {
    var batch := Batch(picked, first);
    forall id | id in Picked(picked) ensures id in batch.Values {
      var i :| 0 <= i < |picked| && picked[i] == id;
      assert batch[first + i] == id;
    }
  }

  predicate HoldsTicket(s: State, k: nat, ticket: Ticket)
  {
    k in s.holds && s.holds[k].ticket == ticket && s.holds[k].phase == Claimed && !s.holds[k].rejected
  }

  predicate HoldsBatch(s: State, first: nat, batch: seq<Ticket>) {
    forall i :: 0 <= i < |batch| ==> HoldsTicket(s, first + i, batch[i])
  }

  lemma ClaimEnabled(s: State, worker: string, lockSeconds: nat, picked: seq<Id>, first: nat)
    requires forall i :: 0 <= i < |picked| ==> picked[i] in s.runs && Due(s.runs[picked[i]], s.now)
    requires Once(picked) && forall k :: k in s.holds ==> k < first
    ensures Enabled(s, Claim(worker, lockSeconds, Batch(picked, first)))
  {
    hide Due, Batch;
    BatchTakes(picked, first);
  }

  lemma ClaimTakes(s: State, worker: string, lockSeconds: nat, picked: seq<Id>, first: nat)
    requires (forall i :: 0 <= i < |picked| ==> picked[i] in s.runs) && Once(picked)
    requires Enabled(s, Claim(worker, lockSeconds, Batch(picked, first)))
    ensures var s' := After(s, Claim(worker, lockSeconds, Batch(picked, first)));
      && s'.runs == ClaimAll(s.runs, Picked(picked), worker, lockSeconds, s.now) && s'.now == s.now
      && s'.holds == s.holds + Claims(s'.runs, Batch(picked, first), worker)
      && HoldsBatch(s', first, Tickets(s'.runs, picked))
  {
    hide Due, AsClaimed, Batch;
    BatchTakes(picked, first);
    var batch := Batch(picked, first);
    var s' := After(s, Claim(worker, lockSeconds, batch));
    var tickets := Tickets(s'.runs, picked);
    forall i | 0 <= i < |tickets| ensures HoldsTicket(s', first + i, tickets[i]) {
      assert first + i in batch && batch[first + i] == picked[i];
      assert first + i in Claims(s'.runs, batch, worker);
    }
  }

  /** A claim that a worker makes is a claim of this protocol: same table, and the runs handed out are the new holds. */
  lemma ClaimIsStep(s: State, worker: string, lockSeconds: nat, limit: nat, tenant: Option<string>, locked: set<Id>,
      picked: seq<Id>, first: nat)
    requires Choice(s.runs, s.now, limit, tenant, locked, Picked(picked)) && Once(picked)
    requires forall k :: k in s.holds ==> k < first
    ensures forall i :: 0 <= i < |picked| ==> picked[i] in s.runs
    ensures Enabled(s, Claim(worker, lockSeconds, Batch(picked, first)))
    ensures var s' := After(s, Claim(worker, lockSeconds, Batch(picked, first)));
      && s'.runs == ClaimAll(s.runs, Picked(picked), worker, lockSeconds, s.now) && s'.now == s.now
      && s'.holds == s.holds + Claims(s'.runs, Batch(picked, first), worker)
      && HoldsBatch(s', first, Tickets(s'.runs, picked))
  {
    hide Enabled, After, Batch, Due, ClaimAll;
    assert forall i :: 0 <= i < |picked| ==> picked[i] in Picked(picked);
    ClaimEnabled(s, worker, lockSeconds, picked, first);
    ClaimTakes(s, worker, lockSeconds, picked, first);
  }

  lemma HoldsRest(s: State, last: State, first: nat, batch: seq<Ticket>)
    requires batch != [] && HoldsBatch(s, first, batch) && last.holds == s.holds - {first}
    ensures HoldsTicket(s, first, batch[0]) && HoldsBatch(last, first + 1, batch[1..])
  {
    assert HoldsTicket(s, first + 0, batch[0]);
    forall i | 0 <= i < |batch[1..]| ensures HoldsTicket(last, first + 1 + i, batch[1..][i]) {
      assert HoldsTicket(s, first + (i + 1), batch[i + 1]);
    }
  }

  /** Each execution of a batch begins after the one before has ended. */
  predicate InTurn(now: int, fortunes: seq<Fortune>)
    decreases |fortunes|
  {
    fortunes == []
    || (PossibleFortune(fortunes[0]) && now <= fortunes[0].completedAt && InTurn(fortunes[0].failedAt, fortunes[1..]))
  }

  lemma LaterInTurn(now: int, earlier: int, fortunes: seq<Fortune>)
    requires InTurn(now, fortunes) && earlier <= now
    ensures InTurn(earlier, fortunes)
  {
  }

  lemma {:induction false} BatchIsSteps(s: State, t: Tables, first: nat, batch: seq<Ticket>, fortunes: seq<Fortune>)
      returns (steps: seq<Step>)
    requires |batch| == |fortunes| && InTurn(s.now, fortunes) && HoldsBatch(s, first, batch) && t.runs == s.runs
    ensures Performed(s, steps).Some? && Performed(s, steps).value.runs == Through(t, batch, fortunes).runs
    decreases |batch|
  {
    hide Performed, Script, Executed, HoldsBatch;
    steps := [];
    if batch == [] {
      Nothing(s);
    } else {
      HoldsRest(s, s.(holds := s.holds - {first}), first, batch);
      ExecutionIsSteps(s, t, first, fortunes[0]);
      steps := Script(first, fortunes[0]);
      if Returns(fortunes[0]) {
        var last := Performed(s, steps).value;
        HoldsRest(s, last, first, batch);
        LaterInTurn(fortunes[0].failedAt, last.now, fortunes[1..]);
        var rest := BatchIsSteps(last, Executed(t, batch[0], fortunes[0]), first + 1, batch[1..], fortunes[1..]);
        PerformBoth(s, steps, rest);
        steps := steps + rest;
      }
    }
  }

  /**
   * A worker's claim and the execution of its batch, up to the first execution that throws, is a sequence of steps of
   * this protocol with the same effect on the table.
   */
  lemma IterationIsSteps(s: State, worker: string, lockSeconds: nat, limit: nat, tenant: Option<string>,
      locked: set<Id>, picked: seq<Id>, fortunes: seq<Fortune>, events: seq<Event>, first: nat)
    returns (steps: seq<Step>)
    requires Choice(s.runs, s.now, limit, tenant, locked, Picked(picked)) && Once(picked)
    requires (forall k :: k in s.holds ==> k < first) && |picked| == |fortunes| && InTurn(s.now, fortunes)
    ensures forall i :: 0 <= i < |picked| ==> picked[i] in s.runs
    ensures var claimed := ClaimAll(s.runs, Picked(picked), worker, lockSeconds, s.now);
      && Performed(s, steps).Some?
      && Performed(s, steps).value.runs == Through(Tables(claimed, events), Tickets(claimed, picked), fortunes).runs
  {
    hide Choice, Enabled, After, Performed, AsClaimed;
    ClaimIsStep(s, worker, lockSeconds, limit, tenant, locked, picked, first);
    var claim := Claim(worker, lockSeconds, Batch(picked, first));
    var s' := After(s, claim);
    var rest := BatchIsSteps(s', Tables(s'.runs, events), first, Tickets(s'.runs, picked), fortunes);
    Perform(s, claim, rest);
    steps := [claim] + rest;
  }
}
