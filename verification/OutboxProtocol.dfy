/**
 * Any number of dispatchers over one outbox table, each step one statement or one push, in any interleaving, with
 * crashes, takeovers and late write-backs.
 */
module OutboxProtocol {
  import Backoff
  import opened Options
  import opened Outbox
  import opened Sequences

  datatype Phase = Unpushed | Accepted | Refused

  /** A dispatcher's hold on a message it claimed: what it read, when, and how far its dispatch has come. */
  datatype Hold = Hold(ticket: Ticket, claimedAt: int, phase: Phase)

  /**
   * The table, the clock, the live holds, and two records that no program keeps: how often each message was pushed,
   * and which messages a transport has accepted.
   */
  datatype State = State(now: int, rows: Table, holds: map<nat, Hold>, pushes: map<Id, nat>, accepted: set<Id>)

  datatype Step =
    | Tick(to: int)
    | Insert(id: Id, tenant: string, maxAttempts: nat, stamp: int)
    | Claim(batch: map<nat, Id>)
    | Push(hold: nat, ok: bool)
    | WriteSent(hold: nat)
    | WriteSentFails(hold: nat, applied: bool)
    | WriteFailure(hold: nat)
    | Crash(hold: nat)

  function Pushes(s: State, id: Id): nat { if id in s.pushes then s.pushes[id] else 0 }

  function Claims(t: Table, batch: map<nat, Id>, now: int): map<nat, Hold>
    requires forall k :: k in batch ==> batch[k] in t
  {
    map k | k in batch :: Hold(TicketOf(batch[k], t[batch[k]]), now, Unpushed)
  }

  /** The step may be taken in s. Holds are numbered afresh by every claim. */
  ghost predicate Enabled(c: Config, s: State, step: Step)
  {
    match step
    case Tick(to) => to >= s.now
    case Insert(id, _, maxAttempts, stamp) => id !in s.rows && maxAttempts > 0 && stamp <= s.now
    case Claim(batch) =>
      && (forall k :: k in batch ==> k !in s.holds && batch[k] in s.rows && Claimable(s.rows[batch[k]], s.now, c))
      && (forall k, j :: k in batch && j in batch && batch[k] == batch[j] ==> k == j)
    case Push(k, _) => k in s.holds && s.holds[k].phase == Unpushed
    case WriteSent(k) => k in s.holds && s.holds[k].phase == Accepted
    case WriteSentFails(k, _) => k in s.holds && s.holds[k].phase == Accepted
    case WriteFailure(k) => k in s.holds && s.holds[k].phase == Refused
    case Crash(k) => k in s.holds
  }

  function After(c: Config, s: State, step: Step): State
    requires Enabled(c, s, step)
  {
    match step
    case Tick(to) => s.(now := to)
    case Insert(id, tenant, maxAttempts, stamp) =>
      s.(rows := s.rows[id := Row(tenant, Pending, 0, maxAttempts, stamp, None, stamp)])
    case Claim(batch) =>
      s.(rows := ClaimAll(s.rows, batch.Values, s.now), holds := s.holds + Claims(s.rows, batch, s.now))
    case Push(k, ok) =>
      var id := s.holds[k].ticket.id;
      s.(pushes := s.pushes[id := Pushes(s, id) + 1],
         accepted := if ok then s.accepted + {id} else s.accepted,
         holds := s.holds[k := s.holds[k].(phase := if ok then Accepted else Refused)])
    case WriteSent(k) => s.(rows := SentWrite(s.rows, s.holds[k].ticket, s.now), holds := s.holds - {k})
    case WriteSentFails(k, applied) =>
      s.(rows := if applied then SentWrite(s.rows, s.holds[k].ticket, s.now) else s.rows,
         holds := s.holds[k := s.holds[k].(phase := Refused)])
    case WriteFailure(k) => s.(rows := FailureWrite(s.rows, s.holds[k].ticket, s.now, c), holds := s.holds - {k})
    case Crash(k) => s.(holds := s.holds - {k})
  }

  /** States linked by steps that were enabled. */
  ghost predicate Run(c: Config, states: seq<State>, steps: seq<Step>)
  {
    |states| == |steps| + 1 &&
        forall i :: 0 <= i < |steps| ==>
            Enabled(c, states[i], steps[i]) && states[i + 1] == After(c, states[i], steps[i])
  }

  ghost predicate Initial(s: State) { s.rows == map[] && s.holds == map[] && s.pushes == map[] && s.accepted == {} }

  // ---- what every step keeps ------------------------------------------------------------------

  function Pushed(h: Hold): nat { if h.phase == Unpushed then 0 else 1 }

  ghost predicate RowOk(c: Config, s: State, id: Id)
    requires id in s.rows
  {
    var row := s.rows[id];
    && row.attempts <= row.maxAttempts && row.attempts <= Pushes(s, id)
    && (row.status == Sent ==> id in s.accepted)
    && (row.status == Failed ==> row.attempts == row.maxAttempts)
    && (!Final(row) ==> row.attempts < row.maxAttempts)
    && (row.status == Processing ==> row.lastAttemptAt.Some? && row.lastAttemptAt.value <= s.now)
    && (row.status == Pending ==> row.nextAttemptAt <= s.now)
    && (row.status == Retry ==> row.nextAttemptAt <= s.now + c.maxBackoffSeconds * SECOND)
  }

  ghost predicate HoldOk(s: State, k: nat)
    requires k in s.holds
  {
    var h := s.holds[k];
    && h.ticket.id in s.rows && h.ticket.tenant == s.rows[h.ticket.id].tenant &&
        h.ticket.maxAttempts == s.rows[h.ticket.id].maxAttempts
    && h.ticket.attempts < h.ticket.maxAttempts && h.ticket.attempts + Pushed(h) <= Pushes(s, h.ticket.id)
    && (h.phase == Accepted ==> h.ticket.id in s.accepted) && h.claimedAt <= s.now
  }

  ghost predicate Safe(c: Config, s: State)
  {
    && (forall id :: id in s.rows ==> RowOk(c, s, id))
    && (forall k :: k in s.holds ==> HoldOk(s, k))
  }

  lemma StepSafe(c: Config, s: State, step: Step)
    requires ValidConfig(c) && Safe(c, s) && Enabled(c, s, step)
    ensures Safe(c, After(c, s, step))
  {
    match step
    case Claim(_) => ClaimSafe(c, s, step);
    case Push(j, _) => PushSafe(c, s, step, j);
    case WriteSent(j) => WriteSafe(c, s, step, j);
    case WriteSentFails(j, _) => WriteSafe(c, s, step, j);
    case WriteFailure(j) => WriteSafe(c, s, step, j);
    case Tick(_) => QuietSafe(c, s, step);
    case Insert(_, _, _, _) => QuietSafe(c, s, step);
    case Crash(_) => QuietSafe(c, s, step);
  }

  lemma QuietSafe(c: Config, s: State, step: Step)
    requires Safe(c, s) && Enabled(c, s, step) && (step.Tick? || step.Insert? || step.Crash?)
    ensures Safe(c, After(c, s, step))
  {
    var s' := After(c, s, step);
    forall id | id in s'.rows ensures RowOk(c, s', id) { if id in s.rows { assert RowOk(c, s, id); } }
    forall k | k in s'.holds ensures HoldOk(s', k) { assert HoldOk(s, k); }
  }

  lemma ClaimSafe(c: Config, s: State, step: Step)
    requires Safe(c, s) && Enabled(c, s, step) && step.Claim?
    ensures Safe(c, After(c, s, step))
  {
    hide RowOk, HoldOk;
    var s' := After(c, s, step);
    forall id | id in s'.rows ensures RowOk(c, s', id) { ClaimedRowOk(c, s, step, id); }
    forall k | k in s'.holds ensures HoldOk(s', k) { ClaimedHoldOk(c, s, step, k); }
  }

  lemma ClaimedRowOk(c: Config, s: State, step: Step, id: Id)
    requires Safe(c, s) && Enabled(c, s, step) && step.Claim? && id in s.rows
    ensures RowOk(c, After(c, s, step), id)
  {
    hide HoldOk;
    assert RowOk(c, s, id);
  }

  lemma ClaimedHoldOk(c: Config, s: State, step: Step, k: nat)
    requires Safe(c, s) && Enabled(c, s, step) && step.Claim? && k in After(c, s, step).holds
    ensures HoldOk(After(c, s, step), k)
  {
    if k in step.batch { assert RowOk(c, s, step.batch[k]); } else { assert HoldOk(s, k); }
  }

  lemma PushSafe(c: Config, s: State, step: Step, j: nat)
    requires ValidConfig(c) && Safe(c, s) && Enabled(c, s, step) && step.Push? && step.hold == j
    ensures Safe(c, After(c, s, step))
  {
    var s' := After(c, s, step);
    assert HoldOk(s, j);
    forall id | id in s'.rows ensures RowOk(c, s', id) { assert RowOk(c, s, id); }
    forall k | k in s'.holds ensures HoldOk(s', k) { assert HoldOk(s, k); }
  }

  lemma WriteSafe(c: Config, s: State, step: Step, j: nat)
    requires ValidConfig(c) && Safe(c, s) && Enabled(c, s, step)
    requires (step.WriteSent? || step.WriteSentFails? || step.WriteFailure?) && step.hold == j
    ensures Safe(c, After(c, s, step))
  {
    hide Backoff.PowerOfTwo;
    var s' := After(c, s, step);
    assert HoldOk(s, j);
    forall id | id in s'.rows ensures RowOk(c, s', id) { assert RowOk(c, s, id); }
    forall k | k in s'.holds ensures HoldOk(s', k) { assert HoldOk(s, k); }
  }

  lemma {:induction false} RunSafe(c: Config, states: seq<State>, steps: seq<Step>, n: nat)
    requires ValidConfig(c) && Run(c, states, steps) && Initial(states[0]) && n <= |steps|
    ensures Safe(c, states[n])
    decreases n
  {
    hide Safe, Enabled, After;
    if n == 0 {
      StartSafe(c, states[0]);
    } else {
      RunSafe(c, states, steps, n - 1);
      StepSafe(c, states[n - 1], steps[n - 1]);
    }
  }

  lemma StartSafe(c: Config, s: State)
    requires Initial(s)
    ensures Safe(c, s)
  {
  }

  // ---- main results: at-least-once delivery -----------------------------------------------------

  /** The longest a message can wait, from now, before a claim may take it. */
  function LongestWait(c: Config): int {
    (if c.leaseSeconds < c.maxBackoffSeconds then c.maxBackoffSeconds else c.leaseSeconds) * SECOND + 1
  }

  /**
   * In every reachable state every message ever inserted is still there, and unless it is Sent or Failed it has
   * attempts left and is claimable at every time from LongestWait on, whatever became of the dispatchers holding it.
   */
  lemma NoMessageIsLost(c: Config, states: seq<State>, steps: seq<Step>, m: nat, n: nat, id: Id, t: int)
    requires ValidConfig(c) && Run(c, states, steps) && Initial(states[0]) && m <= n <= |steps|
    requires id in states[m].rows && t >= states[n].now + LongestWait(c)
    ensures id in states[n].rows && (Final(states[n].rows[id]) || Claimable(states[n].rows[id], t, c))
  {
    hide Enabled, After;
    RowsStay(c, states, steps, m, n, id);
    RunSafe(c, states, steps, n);
    assert RowOk(c, states[n], id);
  }

  lemma {:induction false} RowsStay(c: Config, states: seq<State>, steps: seq<Step>, m: nat, n: nat, id: Id)
    requires Run(c, states, steps) && m <= n <= |steps| && id in states[m].rows
    ensures id in states[n].rows
    decreases n
  {
    if m < n { RowsStay(c, states, steps, m, n - 1, id); RowStays(c, states[n - 1], steps[n - 1], id); }
  }

  lemma RowStays(c: Config, s: State, step: Step, id: Id)
    requires Enabled(c, s, step) && id in s.rows
    ensures id in After(c, s, step).rows && After(c, s, step).rows[id].maxAttempts == s.rows[id].maxAttempts
  {
  }

  /**
   * In every reachable state no row records more attempts than the message was pushed, a Sent message was accepted
   * by the transport, and a Failed one was pushed at least as often as it was allowed attempts.
   */
  lemma RecordsAreHonest(c: Config, states: seq<State>, steps: seq<Step>, n: nat, id: Id)
    requires ValidConfig(c) && Run(c, states, steps) && Initial(states[0]) && n <= |steps| && id in states[n].rows
    ensures var s, row := states[n], states[n].rows[id];
      && row.attempts <= row.maxAttempts && row.attempts <= Pushes(s, id)
      && (row.status == Sent ==> id in s.accepted && Pushes(s, id) >= 1)
      && (row.status == Failed ==> Pushes(s, id) >= row.maxAttempts > 0)
      && (!Final(row) ==> row.attempts < row.maxAttempts)
  {
    hide Enabled, After;
    RunSafe(c, states, steps, n);
    assert RowOk(c, states[n], id);
    RunCounts(c, states, steps, n, id);
  }

  ghost predicate Counted(s: State)
  {
    && (forall id :: id in s.accepted ==> Pushes(s, id) >= 1)
    && (forall id :: id in s.rows ==> s.rows[id].maxAttempts > 0)
  }

  lemma {:induction false} RunCounts(c: Config, states: seq<State>, steps: seq<Step>, n: nat, id: Id)
    requires ValidConfig(c) && Run(c, states, steps) && Initial(states[0]) && n <= |steps|
    ensures Counted(states[n])
    decreases n
  {
    hide Counted;
    if n == 0 { StartCounted(states[0]); } else {
      RunCounts(c, states, steps, n - 1, id);
      RunSafe(c, states, steps, n - 1);
      StepCounted(c, states[n - 1], steps[n - 1]);
    }
  }

  lemma StartCounted(s: State)
    requires Initial(s)
    ensures Counted(s)
  {
  }

  lemma StepCounted(c: Config, s: State, step: Step)
    requires Counted(s) && Enabled(c, s, step)
    ensures Counted(After(c, s, step))
  {
  }

  // ---- main results: what the lease buys ----------------------------------------------------------

  /** The lease of a hold has not run out. */
  predicate Live(c: Config, s: State, h: Hold) { s.now <= h.claimedAt + c.leaseSeconds * SECOND }

  /** Dispatchers write back within their lease or never, and a write that reports an error has had no effect. */
  ghost predicate Disciplined(c: Config, s: State, step: Step)
  {
    match step
    case WriteSent(k) => k in s.holds && Live(c, s, s.holds[k])
    case WriteSentFails(_, applied) => !applied
    case WriteFailure(k) => k in s.holds && Live(c, s, s.holds[k])
    case _ => true
  }

  ghost predicate LiveOk(c: Config, s: State, k: nat)
    requires k in s.holds
  {
    var h := s.holds[k];
    Live(c, s, h) ==>
      && h.ticket.id in s.rows && s.rows[h.ticket.id].status == Processing
      && s.rows[h.ticket.id].lastAttemptAt == Some(h.claimedAt) && s.rows[h.ticket.id].attempts == h.ticket.attempts
      && s.rows[h.ticket.id].tenant == h.ticket.tenant
  }

  /** Two live holds on one message. */
  ghost predicate Rivals(c: Config, s: State, k: nat, j: nat)
  {
    k in s.holds && j in s.holds && s.holds[k].ticket.id == s.holds[j].ticket.id && Live(c, s, s.holds[k]) &&
        Live(c, s, s.holds[j])
  }

  /** Live holds know their row as it is, and no two of them are on one message. */
  ghost predicate Leased(c: Config, s: State)
  {
    && (forall k :: k in s.holds ==> LiveOk(c, s, k))
    && (forall k, j :: Rivals(c, s, k, j) ==> k == j)
  }

  lemma StepLeased(c: Config, s: State, step: Step)
    requires Leased(c, s) && Enabled(c, s, step) && Disciplined(c, s, step)
    ensures Leased(c, After(c, s, step))
  {
    hide Backoff.PowerOfTwo, Claimable;
    if step.Claim? {
      ClaimLeased(c, s, step);
    } else if step.WriteSent? || step.WriteFailure? {
      WriteLeased(c, s, step, step.hold);
    } else {
      QuietLeased(c, s, step);
    }
  }

  lemma QuietLeased(c: Config, s: State, step: Step)
    requires Leased(c, s) && Enabled(c, s, step) && Disciplined(c, s, step)
    requires step.Tick? || step.Insert? || step.Push? || step.WriteSentFails? || step.Crash?
    ensures Leased(c, After(c, s, step))
  {
    var s' := After(c, s, step);
    forall k | k in s'.holds ensures LiveOk(c, s', k) { assert LiveOk(c, s, k); }
    forall k, j | Rivals(c, s', k, j) ensures k == j { assert Rivals(c, s, k, j); }
  }

  lemma WriteLeased(c: Config, s: State, step: Step, j: nat)
    requires Leased(c, s) && Enabled(c, s, step) && Disciplined(c, s, step) &&
             (step.WriteSent? || step.WriteFailure?) && step.hold == j
    ensures Leased(c, After(c, s, step))
  {
    hide Backoff.PowerOfTwo;
    var s' := After(c, s, step);
    forall k | k in s'.holds ensures LiveOk(c, s', k) {
      assert LiveOk(c, s, k);
      if Live(c, s, s.holds[k]) { assert !Rivals(c, s, k, j); }
    }
    forall k, i | Rivals(c, s', k, i) ensures k == i { assert Rivals(c, s, k, i); }
  }

  lemma ClaimLeased(c: Config, s: State, step: Step)
    requires Leased(c, s) && Enabled(c, s, step) && step.Claim?
    ensures Leased(c, After(c, s, step))
  {
    var s' := After(c, s, step);
    var batch := step.batch;
    forall k | k in s.holds && Live(c, s, s.holds[k]) ensures s.holds[k].ticket.id !in batch.Values {
      assert LiveOk(c, s, k);
    }
    forall k | k in s'.holds ensures LiveOk(c, s', k) {
      if k !in batch { assert LiveOk(c, s, k); }
    }
    forall k, j | Rivals(c, s', k, j) ensures k == j {
      if k !in batch && j !in batch { assert Rivals(c, s, k, j); }
    }
  }

  /** A run whose dispatchers keep to their leases. */
  ghost predicate DisciplinedRun(c: Config, states: seq<State>, steps: seq<Step>)
  {
    Run(c, states, steps) && forall i :: 0 <= i < |steps| ==> Disciplined(c, states[i], steps[i])
  }

  lemma {:induction false} RunLeased(c: Config, states: seq<State>, steps: seq<Step>, n: nat)
    requires DisciplinedRun(c, states, steps) && Initial(states[0]) && n <= |steps|
    ensures Leased(c, states[n])
    decreases n
  {
    hide Leased, Enabled, After, Disciplined;
    if n == 0 {
      StartLeased(c, states[0]);
    } else {
      RunLeased(c, states, steps, n - 1);
      StepLeased(c, states[n - 1], steps[n - 1]);
    }
  }

  lemma StartLeased(c: Config, s: State)
    requires Initial(s)
    ensures Leased(c, s)
  {
  }

  /** At most one live hold on any message, in every reachable state of a disciplined run. */
  lemma OneLiveHolder(c: Config, states: seq<State>, steps: seq<Step>, n: nat, k: nat, j: nat)
    requires DisciplinedRun(c, states, steps) && Initial(states[0]) && n <= |steps|
    requires k in states[n].holds && j in states[n].holds &&
             states[n].holds[k].ticket.id == states[n].holds[j].ticket.id
    requires Live(c, states[n], states[n].holds[k]) && Live(c, states[n], states[n].holds[j])
    ensures k == j && states[n].holds[k].ticket.id in states[n].rows &&
            states[n].rows[states[n].holds[k].ticket.id].status == Processing
  {
    hide Enabled, After, Disciplined;
    RunLeased(c, states, steps, n);
    assert LiveOk(c, states[n], k);
    assert Rivals(c, states[n], k, j);
  }

  /** In a disciplined run a Sent or Failed row never changes again. */
  lemma {:induction false} OutcomesAreFinal(c: Config, states: seq<State>, steps: seq<Step>, m: nat, n: nat, id: Id)
    requires ValidConfig(c) && DisciplinedRun(c, states, steps) && Initial(states[0]) && m <= n <= |steps|
    requires id in states[m].rows && Final(states[m].rows[id])
    ensures id in states[n].rows && states[n].rows[id] == states[m].rows[id]
    decreases n
  {
    hide Leased, Enabled, After, Disciplined;
    if m < n {
      OutcomesAreFinal(c, states, steps, m, n - 1, id);
      RunLeased(c, states, steps, n - 1);
      FinalRowStays(c, states[n - 1], steps[n - 1], id);
    }
  }

  lemma FinalRowStays(c: Config, s: State, step: Step, id: Id)
    requires Leased(c, s) && Enabled(c, s, step) && Disciplined(c, s, step) && id in s.rows && Final(s.rows[id])
    ensures id in After(c, s, step).rows && After(c, s, step).rows[id] == s.rows[id]
  {
    hide Backoff.PowerOfTwo;
    if step.WriteSent? || step.WriteFailure? { assert LiveOk(c, s, step.hold); }
  }

  /**
   * In a disciplined run a completed dispatch adds exactly one to the attempts of its row, and nothing else changes
   * them.
   */
  lemma DispatchCountsOnce(c: Config, states: seq<State>, steps: seq<Step>, n: nat, id: Id)
    requires DisciplinedRun(c, states, steps) && Initial(states[0]) && n < |steps| && id in states[n].rows
    ensures id in states[n + 1].rows
    ensures var step := steps[n];
      states[n + 1].rows[id].attempts ==
        states[n].rows[id].attempts +
            (if (step.WriteSent? || step.WriteFailure?) && states[n].holds[step.hold].ticket.id == id then 1 else 0)
  {
    RunLeased(c, states, steps, n);
    CountStep(c, states[n], steps[n], id);
  }

  lemma CountStep(c: Config, s: State, step: Step, id: Id)
    requires Leased(c, s) && Enabled(c, s, step) && Disciplined(c, s, step) && id in s.rows
    ensures id in After(c, s, step).rows
    ensures After(c, s, step).rows[id].attempts ==
        s.rows[id].attempts +
            (if (step.WriteSent? || step.WriteFailure?) && s.holds[step.hold].ticket.id == id then 1 else 0)
  {
    hide Backoff.PowerOfTwo;
    if step.WriteSent? || step.WriteFailure? { assert LiveOk(c, s, step.hold); }
  }

  /** A dispatcher outlives its lease: another takes over and has the message accepted, then the first is refused. */
  function Late(c: Config, n: nat): State
  {
    var late := c.leaseSeconds * SECOND + 1;
    var ticket := Ticket(0, "t", 0, 3);
    var row := Row("t", Pending, 0, 3, 0, None, 0);
    var hold, other := Hold(ticket, 0, Unpushed), Hold(ticket, late, Unpushed);
    var claimed := State(0, map[0 := Claimed(row, 0)], map[0 := hold], map[], {});
    var taken := State(late, map[0 := Claimed(row, late)], map[0 := hold, 1 := other], map[], {});
    var sent := State(late, map[0 := AsSent(Claimed(row, late), ticket, late)], map[0 := hold], map[0 := 1], {0});
    if n == 0 then State(0, map[], map[], map[], {})
    else if n == 1 then State(0, map[0 := row], map[], map[], {})
    else if n == 2 then claimed
    else if n == 3 then claimed.(now := late)
    else if n == 4 then taken
    else if n == 5 then
        taken.(holds := map[0 := hold, 1 := other.(phase := Accepted)], pushes := map[0 := 1], accepted := {0})
    else if n == 6 then sent
    else if n == 7 then sent.(holds := map[0 := hold.(phase := Refused)], pushes := map[0 := 2])
    else State(late, map[0 := AsFailure(sent.rows[0], ticket, late, c)], map[], map[0 := 2], {0})
  }

  function LateStep(c: Config, n: nat): Step
  {
    if n == 0 then Insert(0, "t", 3, 0)
    else if n == 1 then Claim(map[0 := 0])
    else if n == 2 then Tick(c.leaseSeconds * SECOND + 1)
    else if n == 3 then Claim(map[1 := 0])
    else if n == 4 then Push(1, true)
    else if n == 5 then WriteSent(1)
    else if n == 6 then Push(0, false)
    else WriteFailure(0)
  }

  ghost predicate Leads(c: Config, n: nat)
  {
    Enabled(c, Late(c, n), LateStep(c, n)) && Late(c, n + 1) == After(c, Late(c, n), LateStep(c, n))
  }

  lemma TakenOver(c: Config, n: nat)
    requires ValidConfig(c) && n < 4
    ensures Leads(c, n)
  {
    hide Backoff.PowerOfTwo;
    if n == 1 { ClaimAlone(c, Late(c, 1), 0, Late(c, 1).rows[0], 0); }
    if n == 3 { ClaimAlone(c, Late(c, 3), 0, Late(c, 3).rows[0], 1); }
  }

  lemma Overwritten(c: Config, n: nat)
    requires ValidConfig(c) && 4 <= n < 8
    ensures Leads(c, n)
  {
    hide Backoff.PowerOfTwo;
  }

  /** Claiming the one message there is. */
  lemma ClaimAlone(c: Config, s: State, id: Id, row: Row, k: nat)
    requires s.rows == map[id := row] && k !in s.holds && Claimable(row, s.now, c)
    ensures Enabled(c, s, Claim(map[k := id]))
    ensures After(c, s, Claim(map[k := id])) ==
      s.(rows := map[id := Claimed(row, s.now)], holds := s.holds[k := Hold(TicketOf(id, row), s.now, Unpushed)])
  {
    var batch := map[k := id];
    assert batch[k] == id && batch.Values == {id};
    assert s.holds + Claims(s.rows, batch, s.now) == s.holds[k := Hold(TicketOf(id, row), s.now, Unpushed)];
  }

  /**
   * Without the discipline an outcome is not final: a dispatcher that outlives its lease turns a Sent message back
   * into one to retry, under every setting.
   */
  lemma LateWriteUndoesSent(c: Config) returns (states: seq<State>, steps: seq<Step>)
    requires ValidConfig(c)
    ensures |steps| == 8 && Run(c, states, steps) && Initial(states[0])
    ensures 0 in states[6].rows && states[6].rows[0].status == Sent
    ensures 0 in states[8].rows && states[8].rows[0].status == Retry
  {
    hide Late, LateStep, Enabled, After, Initial;
    states := seq(9, (n: nat) => Late(c, n));
    steps := seq(8, (n: nat) => LateStep(c, n));
    forall n | 0 <= n < 8 ensures Enabled(c, states[n], steps[n]) && states[n + 1] == After(c, states[n], steps[n]) {
      if n < 4 { TakenOver(c, n); } else { Overwritten(c, n); }
      assert Leads(c, n);
    }
    LateEnds(c);
  }

  lemma LateEnds(c: Config)
    ensures Initial(Late(c, 0))
    ensures 0 in Late(c, 6).rows && Late(c, 6).rows[0].status == Sent && 0 in Late(c, 8).rows &&
            Late(c, 8).rows[0].status == Retry
  {
    hide Backoff.PowerOfTwo;
  }

  // ---- the dispatcher takes these steps -------------------------------------------------------------

  /** The state after these steps, if each is enabled in its turn. */
  ghost function Performed(c: Config, s: State, steps: seq<Step>): Option<State>
    decreases |steps|
  {
    if steps == [] then Some(s)
    else if Enabled(c, s, steps[0]) then Performed(c, After(c, s, steps[0]), steps[1..]) else None
  }

  function FailScript(k: nat, f: Fortune): seq<Step> {
    [Tick(f.failedAt)] + [if f.failureWritten then WriteFailure(k) else Crash(k)]
  }

  /** What a dispatcher does with one message it holds. */
  function Script(k: nat, f: Fortune): seq<Step>
  {
    if !f.pushAccepted then [Push(k, false)] + FailScript(k, f)
    else if f.sentReported then [Push(k, true), Tick(f.sentAt), WriteSent(k)]
    else [Push(k, true), Tick(f.sentAt), WriteSentFails(k, f.sentWritten)] + FailScript(k, f)
  }

  lemma Perform(c: Config, s: State, step: Step, steps: seq<Step>)
    requires Enabled(c, s, step)
    ensures Performed(c, s, [step] + steps) == Performed(c, After(c, s, step), steps)
  {
    hide Enabled, After;
    assert ([step] + steps)[1..] == steps;
  }

  lemma PerformLast(c: Config, s: State, step: Step)
    requires Enabled(c, s, step)
    ensures Performed(c, s, [step]) == Some(After(c, s, step))
  {
    hide Enabled, After;
    assert [step][1..] == [];
  }

  lemma FailPerformed(c: Config, s: State, k: nat, f: Fortune)
    requires k in s.holds && s.holds[k].phase == Refused && s.now <= f.failedAt
    ensures var last := Performed(c, s, FailScript(k, f));
      && last.Some? && last.value.holds == s.holds - {k} && last.value.now == f.failedAt
      && last.value.rows == if f.failureWritten then FailureWrite(s.rows, s.holds[k].ticket, f.failedAt, c) else s.rows
  {
    hide Backoff.PowerOfTwo, Performed;
    Perform(c, s, Tick(f.failedAt), [if f.failureWritten then WriteFailure(k) else Crash(k)]);
    PerformLast(c, s.(now := f.failedAt), if f.failureWritten then WriteFailure(k) else Crash(k));
  }

  /**
   * Dispatching a claimed message is a sequence of steps of this protocol, with the same effect on the table; the hold
   * is then gone.
   */
  lemma DispatchIsSteps(c: Config, s: State, k: nat, f: Fortune)
    requires PossibleFortune(f) && k in s.holds && s.holds[k].phase == Unpushed && s.now <= f.sentAt
    ensures var last := Performed(c, s, Script(k, f));
      && last.Some? && last.value.rows == Dispatched(s.rows, s.holds[k].ticket, f, c)
      && last.value.holds == s.holds - {k} && last.value.now <= f.failedAt
  {
    hide Backoff.PowerOfTwo, Performed, FailScript, SentWrite, FailureWrite;
    var pushed := After(c, s, Push(k, f.pushAccepted));
    if !f.pushAccepted {
      Perform(c, s, Push(k, false), FailScript(k, f));
      FailPerformed(c, pushed, k, f);
    } else {
      var late := pushed.(now := f.sentAt);
      var write := if f.sentReported then WriteSent(k) else WriteSentFails(k, f.sentWritten);
      var rest := if f.sentReported then [] else FailScript(k, f);
      assert Script(k, f) == [Push(k, true)] + ([Tick(f.sentAt)] + ([write] + rest));
      Perform(c, s, Push(k, true), [Tick(f.sentAt)] + ([write] + rest));
      Perform(c, pushed, Tick(f.sentAt), [write] + rest);
      Perform(c, late, write, rest);
      if f.sentReported {
        PerformLast(c, late, write);
        assert [write] + rest == [write];
      } else {
        FailPerformed(c, After(c, late, write), k, f);
      }
    }
  }

  lemma {:induction false} PerformBoth(c: Config, s: State, a: seq<Step>, b: seq<Step>)
    requires Performed(c, s, a).Some?
    ensures Performed(c, s, a + b) == Performed(c, Performed(c, s, a).value, b)
    decreases |a|
  {
    hide Enabled, After;
    if a == [] {
      assert a + b == b;
    } else {
      assert (a + b)[1..] == a[1..] + b;
      PerformBoth(c, After(c, s, a[0]), a[1..], b);
    }
  }

  /** The claim of these rows, in this order, under hold numbers from `first` on. */
  function Batch(picked: seq<Id>, first: nat): (batch: map<nat, Id>)
    ensures forall k :: k in batch <==> first <= k < first + |picked|
    ensures forall k :: k in batch ==> batch[k] == picked[k - first]
    decreases |picked|
  {
    if picked == [] then map[] else Batch(picked[1..], first + 1)[first := picked[0]]
  }

  lemma BatchTakes(picked: seq<Id>, first: nat)
    requires Once(picked)
    ensures Batch(picked, first).Values == Picked(picked)
    ensures var b := Batch(picked, first); forall k, j :: k in b && j in b && b[k] == b[j] ==> k == j
  {
    var batch := Batch(picked, first);
    forall id | id in Picked(picked) ensures id in batch.Values {
      var i :| 0 <= i < |picked| && picked[i] == id;
      assert batch[first + i] == id;
    }
  }

  /**
   * A claim that the dispatcher makes is a claim of this protocol: same table, and the tickets handed out are the new
   * holds.
   */
  lemma ClaimIsStep(c: Config, s: State, tenant: Option<string>, locked: set<Id>, picked: seq<Id>, first: nat)
    requires Choice(s.rows, s.now, c, tenant, locked, Picked(picked)) && Once(picked)
    requires forall k :: k in s.holds ==> k < first
    ensures forall i :: 0 <= i < |picked| ==> picked[i] in s.rows
    ensures Enabled(c, s, Claim(Batch(picked, first)))
    ensures var s' := After(c, s, Claim(Batch(picked, first)));
      && s'.rows == ClaimAll(s.rows, Picked(picked), s.now) && s'.now == s.now
      && s'.holds == s.holds + Claims(s.rows, Batch(picked, first), s.now)
      && HoldsBatch(s', first, Tickets(s.rows, picked))
  {
    hide Enabled, After, Batch, Claimable, ClaimAll;
    assert forall i :: 0 <= i < |picked| ==> picked[i] in Picked(picked);
    ClaimEnabled(c, s, picked, first);
    ClaimTakes(c, s, picked, first);
  }

  lemma ClaimEnabled(c: Config, s: State, picked: seq<Id>, first: nat)
    requires forall i :: 0 <= i < |picked| ==> picked[i] in s.rows && Claimable(s.rows[picked[i]], s.now, c)
    requires Once(picked) && forall k :: k in s.holds ==> k < first
    ensures Enabled(c, s, Claim(Batch(picked, first)))
  {
    hide Claimable, Batch;
    BatchTakes(picked, first);
  }

  lemma ClaimTakes(c: Config, s: State, picked: seq<Id>, first: nat)
    requires (forall i :: 0 <= i < |picked| ==> picked[i] in s.rows) && Once(picked) &&
             Enabled(c, s, Claim(Batch(picked, first)))
    ensures var s' := After(c, s, Claim(Batch(picked, first)));
      && s'.rows == ClaimAll(s.rows, Picked(picked), s.now) && s'.now == s.now
      && s'.holds == s.holds + Claims(s.rows, Batch(picked, first), s.now)
      && HoldsBatch(s', first, Tickets(s.rows, picked))
  {
    hide Claimable, ClaimAll, Batch;
    BatchTakes(picked, first);
    var batch, tickets := Batch(picked, first), Tickets(s.rows, picked);
    var s' := After(c, s, Claim(batch));
    forall i | 0 <= i < |tickets| ensures HoldsTicket(s', first + i, tickets[i]) {
      assert first + i in batch && batch[first + i] == picked[i];
      assert first + i in Claims(s.rows, batch, s.now);
    }
  }

  predicate HoldsTicket(s: State, k: nat, ticket: Ticket) {
    k in s.holds && s.holds[k].ticket == ticket && s.holds[k].phase == Unpushed
  }

  /** Each dispatch of a batch begins after the one before has ended. */
  predicate InTurn(now: int, fortunes: seq<Fortune>)
    decreases |fortunes|
  {
    fortunes == []
    || (PossibleFortune(fortunes[0]) && now <= fortunes[0].sentAt && InTurn(fortunes[0].failedAt, fortunes[1..]))
  }

  predicate HoldsBatch(s: State, first: nat, batch: seq<Ticket>) {
    forall i :: 0 <= i < |batch| ==> HoldsTicket(s, first + i, batch[i])
  }

  lemma HoldsRest(s: State, last: State, first: nat, batch: seq<Ticket>)
    requires batch != [] && HoldsBatch(s, first, batch) && last.holds == s.holds - {first}
    ensures HoldsTicket(s, first, batch[0]) && HoldsBatch(last, first + 1, batch[1..])
  {
    assert HoldsTicket(s, first + 0, batch[0]);
    forall i | 0 <= i < |batch[1..]| ensures HoldsTicket(last, first + 1 + i, batch[1..][i]) {
      assert HoldsTicket(s, first + (i + 1), batch[i + 1]);
    }
  }

  lemma {:induction false} BatchIsSteps(c: Config, s: State, first: nat, batch: seq<Ticket>, fortunes: seq<Fortune>)
      returns (steps: seq<Step>)
    requires |batch| == |fortunes| && InTurn(s.now, fortunes) && HoldsBatch(s, first, batch)
    ensures Performed(c, s, steps).Some? && Performed(c, s, steps).value.rows == Through(s.rows, batch, fortunes, c)
    decreases |batch|
  {
    hide Performed, Script, Dispatched, HoldsBatch;
    steps := [];
    if batch == [] {
      NonePerformed(c, s);
    } else {
      HoldsRest(s, s.(holds := s.holds - {first}), first, batch);
      DispatchIsSteps(c, s, first, fortunes[0]);
      steps := Script(first, fortunes[0]);
      if Written(fortunes[0]) {
        var last := Performed(c, s, steps).value;
        HoldsRest(s, last, first, batch);
        LaterInTurn(fortunes[0].failedAt, last.now, fortunes[1..]);
        var rest := BatchIsSteps(c, last, first + 1, batch[1..], fortunes[1..]);
        PerformBoth(c, s, steps, rest);
        steps := steps + rest;
      }
    }
  }

  lemma NonePerformed(c: Config, s: State)
    ensures Performed(c, s, []) == Some(s)
  {
  }

  lemma LaterInTurn(now: int, earlier: int, fortunes: seq<Fortune>)
    requires InTurn(now, fortunes) && earlier <= now
    ensures InTurn(earlier, fortunes)
  {
  }

  /**
   * A whole turn of the dispatcher, its claim and its dispatches up to the first that throws, is a sequence of steps of
   * this protocol.
   */
  lemma TurnIsSteps(c: Config, s: State, tenant: Option<string>, locked: set<Id>, picked: seq<Id>,
      fortunes: seq<Fortune>, first: nat)
    returns (steps: seq<Step>)
    requires Choice(s.rows, s.now, c, tenant, locked, Picked(picked)) && Once(picked)
    requires (forall k :: k in s.holds ==> k < first) && |picked| == |fortunes| && InTurn(s.now, fortunes)
    ensures forall i :: 0 <= i < |picked| ==> picked[i] in s.rows
    ensures Performed(c, s, steps).Some?
    ensures Performed(c, s, steps).value.rows
      == Through(ClaimAll(s.rows, Picked(picked), s.now), Tickets(s.rows, picked), fortunes, c)
  {
    hide Choice, Enabled, After, Performed;
    ClaimIsStep(c, s, tenant, locked, picked, first);
    var claim := Claim(Batch(picked, first));
    var rest := BatchIsSteps(c, After(c, s, claim), first, Tickets(s.rows, picked), fortunes);
    Perform(c, s, claim, rest);
    steps := [claim] + rest;
  }
}
