/**
 * The message outbox: rows of the table, the statements that change them, and the dispatcher that runs them.
 * Times are whole microseconds.
 */
module Outbox {
  import Backoff
  import opened Options
  import opened Sequences

  datatype Status = Pending | Processing | Retry | Sent | Failed

  datatype Row = Row(tenant: string, status: Status, attempts: nat, maxAttempts: nat, nextAttemptAt: int,
      lastAttemptAt: Option<int>, createdAt: int)

  type Id = nat

  type Table = map<Id, Row>

  /** Settings, each a positive number; lease and backoff in seconds. */
  datatype Config = Config(batchSize: nat, leaseSeconds: nat, baseBackoffSeconds: nat, maxBackoffSeconds: nat)

  predicate ValidConfig(c: Config)
  {
    c.batchSize > 0 && c.leaseSeconds > 0 && c.baseBackoffSeconds > 0 && c.maxBackoffSeconds > 0
  }

  const SECOND := Backoff.SECOND

  /** Seconds before the retry that follows this attempt. */
  function BackoffSeconds(attempt: nat, c: Config): nat {
    Backoff.Seconds(attempt, c.baseBackoffSeconds, c.maxBackoffSeconds)
  }

  predicate Final(row: Row) { row.status == Sent || row.status == Failed }

  /** Due, or abandoned by a dispatcher whose lease has run out; and with attempts left. */
  predicate Claimable(row: Row, now: int, c: Config)
  {
    && ((row.status in {Pending, Retry} && row.nextAttemptAt <= now)
        || (row.status == Processing && row.lastAttemptAt.Some? &&
            row.lastAttemptAt.value < now - c.leaseSeconds * SECOND))
    && row.attempts < row.maxAttempts
  }

  /** Rows are claimed in this order: by due time, then by age. */
  predicate NoLater(a: Row, b: Row)
  {
    a.nextAttemptAt < b.nextAttemptAt || (a.nextAttemptAt == b.nextAttemptAt && a.createdAt <= b.createdAt)
  }

  function Claimed(row: Row, now: int): Row { row.(status := Processing, lastAttemptAt := Some(now)) }

  function ClaimAll(t: Table, ids: set<Id>, now: int): Table
  {
    map id | id in t :: if id in ids then Claimed(t[id], now) else t[id]
  }

  /** What a dispatcher remembers of a row it claimed. */
  datatype Ticket = Ticket(id: Id, tenant: string, attempts: nat, maxAttempts: nat)

  function TicketOf(id: Id, row: Row): Ticket { Ticket(id, row.tenant, row.attempts, row.maxAttempts) }

  function AsSent(row: Row, k: Ticket, now: int): Row {
    row.(status := Sent, attempts := k.attempts + 1, nextAttemptAt := now)
  }

  function AsFailure(row: Row, k: Ticket, now: int, c: Config): Row
  {
    if k.attempts + 1 >= k.maxAttempts then row.(status := Failed, attempts := k.attempts + 1, nextAttemptAt := now)
    else
      row.(status := Retry, attempts := k.attempts + 1, nextAttemptAt := now +
          BackoffSeconds(k.attempts + 1, c) * SECOND)
  }

  /** An update by message and tenant; no row matches a wrong tenant. */
  function Update(t: Table, k: Ticket, f: Row -> Row): Table
  {
    if k.id in t && t[k.id].tenant == k.tenant then t[k.id := f(t[k.id])] else t
  }

  function SentWrite(t: Table, k: Ticket, now: int): Table { Update(t, k, (row: Row) => AsSent(row, k, now)) }

  function FailureWrite(t: Table, k: Ticket, now: int, c: Config): Table {
    Update(t, k, (row: Row) => AsFailure(row, k, now, c))
  }

  // ---- the dispatcher as it runs --------------------------------------------------------------

  /** How one dispatch goes, as far as the dispatcher does not decide it. */
  datatype Fortune = Fortune(
    pushAccepted: bool,
    sentWritten: bool,     // the update to Sent took effect
    sentReported: bool,    // ... and returned without an error
    failureWritten: bool,  // the update to Retry or Failed took effect
    failureReported: bool, // ... and returned without an error
    sentAt: int,
    failedAt: int)

  predicate PossibleFortune(f: Fortune) {
    (f.sentReported ==> f.sentWritten) && (f.failureReported ==> f.failureWritten) && f.sentAt <= f.failedAt
  }

  /** The outcome was written and the dispatcher knows it; otherwise the dispatch throws. */
  predicate Written(f: Fortune) { (f.pushAccepted && f.sentReported) || f.failureReported }

  /** The table after one dispatch. */
  function Dispatched(t: Table, k: Ticket, f: Fortune, c: Config): Table
  {
    var afterSent := if f.pushAccepted && f.sentWritten then SentWrite(t, k, f.sentAt) else t;
    if f.pushAccepted && f.sentReported then afterSent
    else if f.failureWritten then FailureWrite(afterSent, k, f.failedAt, c)
    else afterSent
  }

  predicate Eligible(row: Row, now: int, c: Config, tenant: Option<string>)
  {
    Claimable(row, now, c) && (tenant.Some? ==> row.tenant == tenant.value)
  }

  /**
   * The choice the claim query makes: a batch of eligible rows, earliest first, skipping those that other
   * transactions have locked; short of a batch only when no more are eligible.
   */
  ghost predicate Choice(t: Table, now: int, c: Config, tenant: Option<string>, locked: set<Id>, ids: set<Id>)
  {
    && (forall id :: id in ids ==> id in t && id !in locked && Eligible(t[id], now, c, tenant))
    && |ids| <= c.batchSize
    && (forall other :: other in t && other !in ids && other !in locked && Eligible(t[other], now, c, tenant)
          ==> |ids| == c.batchSize && forall id :: id in ids ==> NoLater(t[id], t[other]))
  }

  function Picked(ids: seq<Id>): set<Id> { set id | id in ids }

  function Tickets(t: Table, ids: seq<Id>): seq<Ticket>
    requires forall i :: 0 <= i < |ids| ==> ids[i] in t
  {
    seq(|ids|, i requires 0 <= i < |ids| => TicketOf(ids[i], t[ids[i]]))
  }

  /** The table after dispatching tickets in turn, up to the first dispatch that throws. */
  ghost function Through(t: Table, batch: seq<Ticket>, fortunes: seq<Fortune>, c: Config): Table
    requires |batch| == |fortunes|
  {
    if batch == [] then t
    else
      var next := Dispatched(t, batch[0], fortunes[0], c);
      if Written(fortunes[0]) then Through(next, batch[1..], fortunes[1..], c) else next
  }

  datatype Wait = Idle | Delay(milliseconds: nat)

  class Dispatcher {
    const config: Config
    const pollMs: nat
    var rows: Table
    var stopped: bool
    var running: bool
    var timer: Wait

    constructor (config: Config, pollMs: nat, rows: Table)
      ensures this.config == config && this.pollMs == pollMs && this.rows == rows
      ensures !stopped && !running && timer == Delay(10)
    {
      this.config, this.pollMs, this.rows := config, pollMs, rows;
      stopped, running, timer := false, false, Delay(10);
    }

    /** The claim statement; the database picks the rows. */
    method ClaimOutboxRows(now: int, tenant: Option<string>, locked: set<Id>, picked: seq<Id>)
        returns (batch: seq<Ticket>)
      requires Choice(rows, now, config, tenant, locked, Picked(picked)) && Once(picked)
      modifies this`rows
      ensures rows == ClaimAll(old(rows), Picked(picked), now)
      ensures forall i :: 0 <= i < |picked| ==> picked[i] in old(rows)
      ensures batch == Tickets(old(rows), picked)
    {
      assert forall i :: 0 <= i < |picked| ==> picked[i] in Picked(picked);
      batch := Tickets(rows, picked);
      rows := ClaimAll(rows, Picked(picked), now);
    }

    /** Pushes one message and writes back how it went; an error of the last write leaves the call by exception. */
    method DispatchOutboxRow(k: Ticket, f: Fortune) returns (sent: bool, thrown: bool)
      requires PossibleFortune(f)
      modifies this`rows
      ensures rows == Dispatched(old(rows), k, f, config)
      ensures sent == (f.pushAccepted && f.sentReported) && thrown == (!sent && !f.failureReported)
    {
      sent, thrown := false, false;
      var nextAttempts := k.attempts + 1;
      if f.pushAccepted {
        if f.sentWritten && k.id in rows && rows[k.id].tenant == k.tenant {
          rows := rows[k.id := rows[k.id].(status := Sent, attempts := nextAttempts, nextAttemptAt := f.sentAt)];
        }
        if f.sentReported { sent := true; return; }
      }
      thrown := !f.failureReported;
      var exhausted := nextAttempts >= k.maxAttempts;
      var delay := if exhausted then 0 else BackoffSeconds(nextAttempts, config);
      if f.failureWritten && k.id in rows && rows[k.id].tenant == k.tenant {
        rows := rows[k.id := rows[k.id].(status := if exhausted then Failed else Retry, attempts := nextAttempts,
                                               nextAttemptAt := f.failedAt + delay * SECOND)];
      }
    }

    /** The rows of one batch in turn; a dispatch that throws leaves the rest of the batch Processing. */
    method DispatchBatch(batch: seq<Ticket>, fortunes: seq<Fortune>) returns (thrown: bool)
      requires |batch| == |fortunes| && forall i :: 0 <= i < |fortunes| ==> PossibleFortune(fortunes[i])
      modifies this`rows
      ensures rows == Through(old(rows), batch, fortunes, config)
      ensures thrown <==> exists i :: 0 <= i < |fortunes| && !Written(fortunes[i])
    {
      hide Dispatched;
      var i := 0;
      while i < |batch|
        invariant 0 <= i <= |batch|
        invariant Through(old(rows), batch, fortunes, config) == Through(rows, batch[i..], fortunes[i..], config)
        invariant forall j :: 0 <= j < i ==> Written(fortunes[j])
      {
        assert batch[i..][1..] == batch[i + 1..] && fortunes[i..][1..] == fortunes[i + 1..];
        var _, threw := DispatchOutboxRow(batch[i], fortunes[i]);
        if threw { return true; }
        i := i + 1;
      }
      thrown := false;
    }

    method Schedule(delayMs: nat)
      modifies this`timer
      ensures timer == if stopped then old(timer) else Delay(delayMs)
    {
      if stopped { return; }
      timer := Delay(delayMs);
    }

    /**
     * One turn of the worker loop when its timer fires. It never overlaps itself, and unless it was stopped it always
     * leaves a next turn scheduled: soon after work, and at the polling interval after an empty claim or an error.
     */
    method RunLoop(now: int, tenant: Option<string>, locked: set<Id>, claimFails: bool, picked: seq<Id>,
        fortunes: seq<Fortune>, stoppedMeanwhile: bool)
      requires Choice(rows, now, config, tenant, locked, Picked(picked)) && Once(picked) && |picked| == |fortunes|
      requires forall i :: 0 <= i < |fortunes| ==> PossibleFortune(fortunes[i])
      modifies this
      ensures running == old(running) && stopped == (old(stopped) || (stoppedMeanwhile && !old(running)))
      ensures old(stopped) || old(running) ==> rows == old(rows) && timer == old(timer)
      ensures !old(stopped) && !old(running) && !stopped ==>
        var thrown := exists i :: 0 <= i < |fortunes| && !Written(fortunes[i]);
        timer == Delay(if claimFails || picked == [] || thrown then pollMs else 25)
      ensures forall i :: 0 <= i < |picked| ==> picked[i] in old(rows)
      ensures !old(stopped) && !old(running) && !claimFails ==>
        rows == Through(ClaimAll(old(rows), Picked(picked), now), Tickets(old(rows), picked), fortunes, config)
      ensures !old(stopped) && !old(running) && claimFails ==> rows == old(rows)
    {
      assert forall i :: 0 <= i < |picked| ==> picked[i] in Picked(picked);
      if stopped || running { return; }
      running := true;
      timer := Idle;
      if claimFails {
        stopped := stopped || stoppedMeanwhile;
        Schedule(pollMs);
        running := false;
        return;
      }
      var batch := ClaimOutboxRows(now, tenant, locked, picked);
      if batch == [] {
        stopped := stopped || stoppedMeanwhile;
        Schedule(pollMs);
        running := false;
        return;
      }
      var thrown := DispatchBatch(batch, fortunes);
      stopped := stopped || stoppedMeanwhile;
      Schedule(if thrown then pollMs else 25);
      running := false;
    }
  }
}
