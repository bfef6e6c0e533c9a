/** When an outcome of the outbox is final: the exact condition on the state, and runs in which it is not met. */
module OutboxFinality {
  import Backoff
  import opened Options
  import opened Outbox
  import opened OutboxProtocol

  /** Some run from s ends with another status of the row. */
  ghost predicate CanChange(c: Config, s: State, id: Id)
    requires id in s.rows
  {
    exists states, steps :: Departs(c, s, id, states, steps)
  }

  ghost predicate Departs(c: Config, s: State, id: Id, states: seq<State>, steps: seq<Step>)
    requires id in s.rows
  {
    && Run(c, states, steps) && states[0] == s
    && (id !in states[|steps|].rows || states[|steps|].rows[id].status != s.rows[id].status)
  }

  predicate HeldBy(s: State, k: nat, id: Id) { k in s.holds && s.holds[k].ticket.id == id }

  ghost predicate HeldBySome(s: State, id: Id) { exists k :: HeldBy(s, k, id) }

  /** The hold has been refused at the last attempt it knows of: all it can still write is Failed. */
  predicate Spent(h: Hold) { h.phase == Refused && h.ticket.attempts + 1 >= h.ticket.maxAttempts }

  predicate HeldUnspentBy(s: State, k: nat, id: Id) { HeldBy(s, k, id) && !Spent(s.holds[k]) }

  ghost predicate HeldUnspent(s: State, id: Id) { exists k :: HeldUnspentBy(s, k, id) }

  // ---- a final row that no hold can overwrite -----------------------------------------------------------

  lemma SafeFrom(c: Config, states: seq<State>, steps: seq<Step>, n: nat)
    requires ValidConfig(c) && Run(c, states, steps) && Safe(c, states[0]) && n <= |steps|
    ensures Safe(c, states[n])
    decreases n
  {
    hide Safe, Enabled, After;
    if n > 0 {
      SafeFrom(c, states, steps, n - 1);
      StepSafe(c, states[n - 1], steps[n - 1]);
    }
  }

  lemma SentStep(c: Config, s: State, step: Step, id: Id)
    requires Enabled(c, s, step) && id in s.rows && s.rows[id].status == Sent && !HeldBySome(s, id)
    ensures id in After(c, s, step).rows && After(c, s, step).rows[id] == s.rows[id] &&
            !HeldBySome(After(c, s, step), id)
  {
    hide Backoff.PowerOfTwo;
    var s' := After(c, s, step);
    if step.WriteSent? || step.WriteSentFails? || step.WriteFailure? { assert !HeldBy(s, step.hold, id); }
    forall k ensures !HeldBy(s', k, id) {
      assert !HeldBy(s, k, id);
    }
  }

  lemma {:induction false} SentRun(c: Config, states: seq<State>, steps: seq<Step>, n: nat, id: Id)
    requires Run(c, states, steps) && n <= |steps| && id in states[0].rows
    requires states[0].rows[id].status == Sent && !HeldBySome(states[0], id)
    ensures id in states[n].rows && states[n].rows[id] == states[0].rows[id] && !HeldBySome(states[n], id)
    decreases n
  {
    hide Enabled, After, HeldBySome;
    if n > 0 {
      SentRun(c, states, steps, n - 1, id);
      SentStep(c, states[n - 1], steps[n - 1], id);
    }
  }

  lemma FailedStep(c: Config, s: State, step: Step, id: Id)
    requires Enabled(c, s, step) && id in s.rows && s.rows[id].status == Failed && !HeldUnspent(s, id)
    ensures id in After(c, s, step).rows && After(c, s, step).rows[id].status == Failed &&
            !HeldUnspent(After(c, s, step), id)
  {
    hide Backoff.PowerOfTwo;
    var s' := After(c, s, step);
    if step.WriteSent? || step.WriteSentFails? || step.WriteFailure? || step.Push? {
      assert !HeldUnspentBy(s, step.hold, id);
    }
    forall k ensures !HeldUnspentBy(s', k, id) {
      assert !HeldUnspentBy(s, k, id);
    }
  }

  lemma {:induction false} FailedRun(c: Config, states: seq<State>, steps: seq<Step>, n: nat, id: Id)
    requires Run(c, states, steps) && n <= |steps| && id in states[0].rows
    requires states[0].rows[id].status == Failed && !HeldUnspent(states[0], id)
    ensures id in states[n].rows && states[n].rows[id].status == Failed && !HeldUnspent(states[n], id)
    decreases n
  {
    hide Enabled, After, HeldUnspent;
    if n > 0 {
      FailedRun(c, states, steps, n - 1, id);
      FailedStep(c, states[n - 1], steps[n - 1], id);
    }
  }

  // ---- runs that overwrite it ---------------------------------------------------------------------------

  lemma Then(c: Config, s: State, step: Step, states: seq<State>, steps: seq<Step>)
    requires Enabled(c, s, step) && Run(c, states, steps) && states[0] == After(c, s, step)
    ensures Run(c, [s] + states, [step] + steps)
  {
    hide Enabled, After;
    var longer, more := [s] + states, [step] + steps;
    forall i | 0 <= i < |more| ensures Enabled(c, longer[i], more[i]) && longer[i + 1] == After(c, longer[i], more[i]) {
      if i > 0 { assert longer[i] == states[i - 1] && more[i] == steps[i - 1]; }
    }
  }

  /** A refused hold may write its failure. */
  lemma RefusedWrites(c: Config, s: State, k: nat, id: Id) returns (states: seq<State>, steps: seq<Step>)
    requires Safe(c, s) && HeldBy(s, k, id) && s.holds[k].phase == Refused
    ensures Run(c, states, steps) && states[0] == s && id in states[|steps|].rows
    ensures states[|steps|].rows[id].status == if Spent(s.holds[k]) then Failed else Retry
  {
    hide Backoff.PowerOfTwo;
    assert HoldOk(s, k);
    var step := WriteFailure(k);
    Then(c, s, step, [After(c, s, step)], []);
    states, steps := [s] + [After(c, s, step)], [step] + [];
  }

  /** A hold that is not yet refused may be, after which it writes its failure. */
  lemma MayFail(c: Config, s: State, k: nat, id: Id) returns (states: seq<State>, steps: seq<Step>)
    requires ValidConfig(c) && Safe(c, s) && HeldBy(s, k, id)
    ensures Run(c, states, steps) && states[0] == s && id in states[|steps|].rows
    ensures states[|steps|].rows[id].status in {Failed, Retry}
  {
    if s.holds[k].phase == Refused {
      states, steps := RefusedWrites(c, s, k, id);
    } else {
      var step := if s.holds[k].phase == Unpushed then Push(k, false) else WriteSentFails(k, false);
      StepSafe(c, s, step);
      var rest, more := RefusedWrites(c, After(c, s, step), k, id);
      Then(c, s, step, rest, more);
      states, steps := [s] + rest, [step] + more;
    }
  }

  /** A hold that is not yet refused may have its message accepted, after which it writes Sent. */
  lemma MaySend(c: Config, s: State, k: nat, id: Id) returns (states: seq<State>, steps: seq<Step>)
    requires ValidConfig(c) && Safe(c, s) && HeldBy(s, k, id) && s.holds[k].phase != Refused
    ensures Run(c, states, steps) && states[0] == s && id in states[|steps|].rows &&
            states[|steps|].rows[id].status == Sent
    decreases if s.holds[k].phase == Accepted then 0 else 1
  {
    if s.holds[k].phase == Accepted {
      assert HoldOk(s, k);
      var step := WriteSent(k);
      Then(c, s, step, [After(c, s, step)], []);
      states, steps := [s] + [After(c, s, step)], [step] + [];
    } else {
      var step := Push(k, true);
      StepSafe(c, s, step);
      var rest, more := MaySend(c, After(c, s, step), k, id);
      Then(c, s, step, rest, more);
      states, steps := [s] + rest, [step] + more;
    }
  }

  // ---- main results -------------------------------------------------------------------------------------

  /** A Sent row keeps its status in every run from here if and only if no dispatcher holds the message. */
  lemma SentIsFinalExactly(c: Config, s: State, id: Id)
    requires ValidConfig(c) && Safe(c, s) && id in s.rows && s.rows[id].status == Sent
    ensures !CanChange(c, s, id) <==> !HeldBySome(s, id)
  {
    hide Safe, Run, HeldBy;
    if HeldBySome(s, id) {
      var k :| HeldBy(s, k, id);
      var states, steps := MayFail(c, s, k, id);
      assert Departs(c, s, id, states, steps);
    } else {
      forall states, steps ensures !Departs(c, s, id, states, steps) {
        if Departs(c, s, id, states, steps) { SentRun(c, states, steps, |steps|, id); }
      }
    }
  }

  /** A Failed row does if and only if every dispatcher that holds the message has been refused at its last attempt. */
  lemma FailedIsFinalExactly(c: Config, s: State, id: Id)
    requires ValidConfig(c) && Safe(c, s) && id in s.rows && s.rows[id].status == Failed
    ensures !CanChange(c, s, id) <==> !HeldUnspent(s, id)
  {
    hide Safe, Run;
    if HeldUnspent(s, id) {
      var k :| HeldUnspentBy(s, k, id);
      if s.holds[k].phase == Refused {
        var states, steps := RefusedWrites(c, s, k, id);
        assert Departs(c, s, id, states, steps);
      } else {
        var states, steps := MaySend(c, s, k, id);
        assert Departs(c, s, id, states, steps);
      }
    } else {
      forall states, steps ensures !Departs(c, s, id, states, steps) {
        if Departs(c, s, id, states, steps) { FailedRun(c, states, steps, |steps|, id); }
      }
    }
  }

  /** Every write comes while the hold's lease lasts. */
  ghost predicate OnTime(c: Config, s: State, step: Step)
  {
    step.WriteSent? || step.WriteSentFails? || step.WriteFailure? ==>
        step.hold in s.holds && Live(c, s, s.holds[step.hold])
  }

  /** A dispatcher's update to Sent takes effect but is reported as failed, and it goes on to write the failure. */
  function Unreported(c: Config, n: nat): State
  {
    var row, ticket := Row("t", Pending, 0, 3, 0, None, 0), Ticket(0, "t", 0, 3);
    var hold, claimed := Hold(ticket, 0, Unpushed), Claimed(row, 0);
    var start := State(0, map[], map[], map[], {});
    var pushed := State(0, map[0 := claimed], map[0 := hold.(phase := Accepted)], map[0 := 1], {0});
    var sent := pushed.(rows := map[0 := AsSent(claimed, ticket, 0)], holds := map[0 := hold.(phase := Refused)]);
    if n == 0 then start
    else if n == 1 then start.(rows := map[0 := row])
    else if n == 2 then start.(rows := map[0 := claimed], holds := map[0 := hold])
    else if n == 3 then pushed
    else if n == 4 then sent
    else sent.(rows := map[0 := AsFailure(sent.rows[0], ticket, 0, c)], holds := map[])
  }

  function UnreportedStep(n: nat): Step
  {
    if n == 0 then Insert(0, "t", 3, 0)
    else if n == 1 then Claim(map[0 := 0])
    else if n == 2 then Push(0, true)
    else if n == 3 then WriteSentFails(0, true)
    else WriteFailure(0)
  }

  ghost predicate LeadsOnTime(c: Config, n: nat)
  {
    && Enabled(c, Unreported(c, n), UnreportedStep(n))
    && Unreported(c, n + 1) == After(c, Unreported(c, n), UnreportedStep(n))
    && OnTime(c, Unreported(c, n), UnreportedStep(n))
  }

  lemma UnreportedLeads(c: Config, n: nat)
    requires ValidConfig(c) && n < 5
    ensures LeadsOnTime(c, n)
  {
    hide Backoff.PowerOfTwo;
    if n == 1 { ClaimAlone(c, Unreported(c, 1), 0, Unreported(c, 1).rows[0], 0); }
  }

  /**
   * Keeping to the leases is not enough: a Sent row is undone, under every setting, although every write is in time.
   */
  lemma UnreportedWriteUndoesSent(c: Config) returns (states: seq<State>, steps: seq<Step>)
    requires ValidConfig(c)
    ensures |steps| == 5 && Run(c, states, steps) && Initial(states[0])
    ensures forall n :: 0 <= n < |steps| ==> OnTime(c, states[n], steps[n])
    ensures 0 in states[4].rows && states[4].rows[0].status == Sent
    ensures 0 in states[5].rows && states[5].rows[0].status == Retry
  {
    hide Unreported, UnreportedStep, Enabled, After, Initial, OnTime;
    states := seq(6, (n: nat) => Unreported(c, n));
    steps := seq(5, (n: nat) => UnreportedStep(n));
    forall n | 0 <= n < 5
      ensures Enabled(c, states[n], steps[n]) && states[n + 1] == After(c, states[n], steps[n]) &&
              OnTime(c, states[n], steps[n])
    {
      UnreportedLeads(c, n);
      assert LeadsOnTime(c, n);
    }
    UnreportedEnds(c);
  }

  lemma UnreportedEnds(c: Config)
    ensures Initial(Unreported(c, 0))
    ensures 0 in Unreported(c, 4).rows && Unreported(c, 4).rows[0].status == Sent
    ensures 0 in Unreported(c, 5).rows && Unreported(c, 5).rows[0].status == Retry
  {
    hide Backoff.PowerOfTwo;
  }
}
