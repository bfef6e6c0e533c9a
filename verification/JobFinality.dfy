/** When the state of a job run lasts: exact conditions on the state, and runs in which they are not met. */
module JobFinality {
  import Backoff
  import opened Jobs
  import opened JobProtocol
  import opened Options

  /** Some run from s ends with another status of the job run. */
  ghost predicate CanChange(s: State, id: Id)
    requires id in s.runs
  {
    exists states, steps :: Departs(s, id, states, steps)
  }

  ghost predicate Departs(s: State, id: Id, states: seq<State>, steps: seq<Step>)
    requires id in s.runs
  {
    && Run(states, steps) && states[0] == s
    && (id !in states[|steps|].runs || states[|steps|].runs[id].status != s.runs[id].status)
  }

  predicate HeldBy(s: State, k: nat, id: Id) { k in s.holds && s.holds[k].ticket.id == id && Active(s.holds[k]) }

  ghost predicate HeldBySome(s: State, id: Id) { exists k :: HeldBy(s, k, id) }

  lemma {:induction false} SafeFrom(states: seq<State>, steps: seq<Step>, n: nat)
    requires Run(states, steps) && Safe(states[0]) && n <= |steps|
    ensures Safe(states[n])
    decreases n
  {
    hide Safe, Enabled, After;
    if n > 0 {
      SafeFrom(states, steps, n - 1);
      StepSafe(states[n - 1], steps[n - 1]);
    }
  }

  /** A run that no claim takes and nobody holds stays as it is. */
  lemma UnheldStep(s: State, step: Step, id: Id)
    requires Safe(s) && Enabled(s, step) && id in s.runs && s.runs[id].status !in {Queued, Retry} && !HeldBySome(s, id)
    ensures id in After(s, step).runs && After(s, step).runs[id] == s.runs[id] && !HeldBySome(After(s, step), id)
  {
    hide Safe, Backoff.Seconds;
    var s' := After(s, step);
    Changes(s, step, id);
    if step.Complete? || step.Fail? { assert !HeldBy(s, step.hold, id); }
    forall k ensures !HeldBy(s', k, id) { assert !HeldBy(s, k, id); }
  }

  lemma {:induction false} UnheldRun(states: seq<State>, steps: seq<Step>, n: nat, id: Id)
    requires Run(states, steps) && Safe(states[0]) && n <= |steps| && id in states[0].runs
    requires states[0].runs[id].status !in {Queued, Retry} && !HeldBySome(states[0], id)
    ensures id in states[n].runs && states[n].runs[id] == states[0].runs[id] && !HeldBySome(states[n], id)
    decreases n
  {
    hide Enabled, After, HeldBySome, Safe;
    if n > 0 {
      UnheldRun(states, steps, n - 1, id);
      SafeFrom(states, steps, n - 1);
      UnheldStep(states[n - 1], steps[n - 1], id);
    }
  }

  lemma Then(s: State, step: Step, states: seq<State>, steps: seq<Step>)
    requires Enabled(s, step) && Run(states, steps) && states[0] == After(s, step)
    ensures Run([s] + states, [step] + steps)
  {
    hide Enabled, After;
    var longer, more := [s] + states, [step] + steps;
    forall i | 0 <= i < |more| ensures Enabled(longer[i], more[i]) && longer[i + 1] == After(longer[i], more[i]) {
      if i > 0 { assert longer[i] == states[i - 1] && more[i] == steps[i - 1]; }
    }
  }

  /** How a holder can come to write a failure: the step it takes next on that way. */
  function TowardsFailure(h: Hold, k: nat): Step
  {
    match h.phase
    case Claimed => Handle(k, false)
    case Handled => Complete(k, Luck(false, false))
    case Completing => LogCompleted(k, false)
    case _ => Fail(k, Policy(1, 1), Luck(true, true))
  }

  /** Steps that an active holder is away from having written a failure. */
  function Distance(h: Hold): nat { if h.phase == Failing then 0 else 1 }

  /** Whoever may still write to a run may write a failure. */
  lemma HolderMayFail(s: State, k: nat, id: Id) returns (states: seq<State>, steps: seq<Step>)
    requires Safe(s) && HeldBy(s, k, id)
    ensures Run(states, steps) && states[0] == s && id in states[|steps|].runs
    ensures states[|steps|].runs[id].status in {Retry, DeadLettered}
    decreases Distance(s.holds[k])
  {
    hide Safe, RunOk, HoldOk, Backoff.Seconds;
    var step := TowardsFailure(s.holds[k], k);
    var next := After(s, step);
    HolderFails(s, k, id);
    if s.holds[k].phase == Failing {
      Then(s, step, [next], []);
      states, steps := [s] + [next], [step] + [];
    } else {
      StepSafe(s, step);
      var rest, more := HolderMayFail(next, k, id);
      Then(s, step, rest, more);
      states, steps := [s] + rest, [step] + more;
    }
  }

  lemma HolderFails(s: State, k: nat, id: Id)
    requires Safe(s) && HeldBy(s, k, id)
    ensures Enabled(s, TowardsFailure(s.holds[k], k)) && id in s.runs
    ensures var next := After(s, TowardsFailure(s.holds[k], k));
      if s.holds[k].phase == Failing then id in next.runs && next.runs[id].status in {Retry, DeadLettered}
      else HeldBy(next, k, id) && next.holds[k].phase == Failing
  {
    hide Backoff.Seconds;
    assert HoldOk(s, k);
  }

  // ---- main results -------------------------------------------------------------------------------------

  /**
   * The run is held by a worker that has marked it Succeeded and has its event to write, or that is to write a failure.
   */
  ghost predicate Endangered(s: State, id: Id)
  {
    exists k :: HeldBy(s, k, id) && s.holds[k].phase in {Completing, Failing}
  }

  lemma SucceededHolders(s: State, id: Id)
    requires Safe(s) && id in s.runs && s.runs[id].status == Succeeded
    ensures HeldBySome(s, id) <==> Endangered(s, id)
  {
    forall k | HeldBy(s, k, id) ensures s.holds[k].phase in {Completing, Failing} { assert HoldOk(s, k); }
  }

  lemma LastsUnlessHeld(s: State, id: Id)
    requires Safe(s) && id in s.runs && s.runs[id].status in {Running, Succeeded, DeadLettered}
    ensures !CanChange(s, id) <==> !HeldBySome(s, id)
  {
    hide Safe, HeldBy, Run;
    if HeldBySome(s, id) {
      var k :| HeldBy(s, k, id);
      DeadLetteredUnheld(s, k, id);
      var states, steps := HolderMayFail(s, k, id);
      assert Departs(s, id, states, steps);
    } else {
      forall states, steps ensures !Departs(s, id, states, steps) {
        if Departs(s, id, states, steps) { UnheldRun(states, steps, |steps|, id); }
      }
    }
  }

  lemma DeadLetteredUnheld(s: State, k: nat, id: Id)
    requires Safe(s) && HeldBy(s, k, id)
    ensures id in s.runs && s.runs[id].status in {Running, Succeeded}
  {
    assert HoldOk(s, k);
  }

  /**
   * A Succeeded run keeps its status in every run from here if and only if no worker that holds it has its completion
   * event still to write or is about to write a failure.
   */
  lemma SucceededIsFinalExactly(s: State, id: Id)
    requires Safe(s) && id in s.runs && s.runs[id].status == Succeeded
    ensures !CanChange(s, id) <==> !Endangered(s, id)
  {
    LastsUnlessHeld(s, id);
    SucceededHolders(s, id);
  }

  /** A Running run stays Running for ever if and only if no worker holds it any more: nobody takes it over. */
  lemma RunningLastsExactly(s: State, id: Id)
    requires Safe(s) && id in s.runs && s.runs[id].status == Running
    ensures !CanChange(s, id) <==> !HeldBySome(s, id)
  {
    LastsUnlessHeld(s, id);
  }

  // ---- runs in which the conditions fail ------------------------------------------------------------------

  const REQUEST := Request("t", "code", "key", "{}", None, Some(3))

  /** One run is enqueued and claimed; then its worker crashes. */
  function Crashed(n: nat): State
  {
    var run := NewRun(REQUEST, 0);
    var claimed := AsClaimed(run, "w", 60, 0);
    var start := State(0, map[], map[], map[], {}, {});
    if n == 0 then start
    else if n == 1 then start.(runs := map[0 := run])
    else if n == 2 then
        start.(runs := map[0 := claimed], holds := map[0 := Hold(Ticket(0, claimed), "w", Claimed, false)])
    else start.(runs := map[0 := claimed])
  }

  function CrashStep(n: nat): Step
  {
    if n == 0 then Enqueue(0, REQUEST) else if n == 1 then Claim("w", 60, map[0 := 0]) else Crash(0)
  }

  ghost predicate CrashLeads(n: nat) {
    Enabled(Crashed(n), CrashStep(n)) && Crashed(n + 1) == After(Crashed(n), CrashStep(n))
  }

  lemma CrashFollows(n: nat)
    requires n < 3
    ensures CrashLeads(n)
  {
    hide Backoff.Seconds, Due;
    if n == 1 {
      ClaimFollows();
    } else {
      hide ClaimAll, Claims;
    }
  }

  lemma ClaimFollows()
    ensures CrashLeads(1)
  {
    hide Backoff.Seconds, Due;
    var s := Crashed(1);
    var batch: map<nat, Id> := map[0 := 0];
    assert batch[0] == 0 && batch.Values == {0};
    var runs := ClaimAll(s.runs, batch.Values, "w", 60, s.now);
    assert runs == Crashed(2).runs;
    assert s.holds + Claims(runs, batch, "w") == Crashed(2).holds;
    NewRunDue();
  }

  lemma NewRunDue()
    ensures Due(NewRun(REQUEST, 0), 0)
  {
  }

  /**
   * A run is abandoned: it is Running, nobody holds it, and by RunningLastsExactly it stays so, however late it gets.
   */
  lemma WorkerCrashAbandons() returns (states: seq<State>, steps: seq<Step>)
    ensures |steps| == 3 && Run(states, steps) && Initial(states[0])
    ensures 0 in states[3].runs && states[3].runs[0].status == Running && !HeldBySome(states[3], 0)
    ensures !CanChange(states[3], 0)
  {
    hide Enabled, After, CrashStep, CanChange;
    states := seq(4, (n: nat) => Crashed(n));
    steps := seq(3, (n: nat) => CrashStep(n));
    forall n | 0 <= n < 3 ensures Enabled(states[n], steps[n]) && states[n + 1] == After(states[n], steps[n]) {
      CrashFollows(n);
      assert CrashLeads(n);
    }
    RunSafe(states, steps, 3);
    RunningLastsExactly(states[3], 0);
  }

  /** A claimed run is served; its update to Succeeded takes effect but is reported as failed, or its event is lost. */
  function Undone(eventLost: bool, n: nat): State
  {
    var claimed := Crashed(2);
    var hold := claimed.holds[0];
    var served := claimed.(holds := map[0 := hold.(phase := Handled)], handled := map[0 := 1], served := {0});
    var succeeded := served.(runs := map[0 := AsSucceeded(served.runs[0], 0)]);
    var failing := succeeded.(holds := map[0 := hold.(phase := Failing)]);
    if n <= 2 then Crashed(n)
    else if n == 3 then served
    else if n == 4 then if eventLost then succeeded.(holds := map[0 := hold.(phase := Completing)]) else failing
    else if n == 5 && eventLost then failing
    else
      var written := AsFailed(failing.runs[0], hold.ticket.run, Policy(1, 1), 0);
      failing.(runs := map[0 := written], holds := map[0 := hold.(phase := Failed)])
  }

  function UndoneStep(eventLost: bool, n: nat): Step
  {
    if n <= 1 then CrashStep(n)
    else if n == 2 then Handle(0, true)
    else if n == 3 then Complete(0, Luck(true, eventLost))
    else if n == 4 && eventLost then LogCompleted(0, false)
    else Fail(0, Policy(1, 1), Luck(true, true))
  }

  ghost predicate UndoneLeads(eventLost: bool, n: nat)
  {
    && Enabled(Undone(eventLost, n), UndoneStep(eventLost, n))
    && Undone(eventLost, n + 1) == After(Undone(eventLost, n), UndoneStep(eventLost, n))
  }

  lemma UndoneFollows(eventLost: bool, n: nat)
    requires n < if eventLost then 6 else 5
    ensures UndoneLeads(eventLost, n)
  {
    hide Backoff.Seconds;
    if n <= 1 { CrashFollows(n); }
  }

  /**
   * A Succeeded run is undone in either way: because the insert of its event fails, and, with no event insert at all,
   * because its update took effect but was reported as failed.
   */
  lemma SuccessUndone(eventLost: bool) returns (states: seq<State>, steps: seq<Step>)
    ensures |steps| == (if eventLost then 6 else 5) && Run(states, steps) && Initial(states[0])
    ensures 0 in states[4].runs && states[4].runs[0].status == Succeeded
    ensures 0 in states[|steps|].runs && states[|steps|].runs[0].status == Retry
  {
    hide Enabled, After, UndoneStep, Undone, Initial;
    var last := if eventLost then 6 else 5;
    states := seq(last + 1, (n: nat) => Undone(eventLost, n));
    steps := seq(last, (n: nat) => UndoneStep(eventLost, n));
    forall n | 0 <= n < last ensures Enabled(states[n], steps[n]) && states[n + 1] == After(states[n], steps[n]) {
      UndoneFollows(eventLost, n);
      assert UndoneLeads(eventLost, n);
    }
    UndoneEnds(eventLost);
  }

  lemma UndoneEnds(eventLost: bool)
    ensures Initial(Undone(eventLost, 0))
    ensures 0 in Undone(eventLost, 4).runs && Undone(eventLost, 4).runs[0].status == Succeeded
    ensures var last := Undone(eventLost, if eventLost then 6 else 5);
      0 in last.runs && last.runs[0].status == Retry
  {
    hide Backoff.Seconds;
  }
}
