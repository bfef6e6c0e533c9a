/** What the statements of the outbox do to each row, and which rows its claim may take, said of the rows. */
module OutboxMeaning {
  import Backoff
  import opened Options
  import opened Outbox

  /** The attempt that is ending is the last one allowed, as the dispatcher knows the row. */
  predicate LastAttempt(k: Ticket) { k.attempts + 1 >= k.maxAttempts }

  /** A dispatch that the transport accepted and whose update to Sent was reported. */
  predicate Delivered(f: Fortune) { f.pushAccepted && f.sentReported }

  /** What a dispatch leaves of its row: how it was, or Sent, or failed with the wait of the attempt that is ending. */
  predicate Leaves(k: Ticket, f: Fortune, c: Config, before: Row, after: Row)
  {
    if !Delivered(f) && f.failureWritten then
      if LastAttempt(k) then
        after == before.(status := Failed, attempts := k.attempts + 1, nextAttemptAt := f.failedAt)
      else
        var wait := Backoff.Seconds(k.attempts + 1, c.baseBackoffSeconds, c.maxBackoffSeconds);
        after == before.(status := Retry, attempts := k.attempts + 1, nextAttemptAt := f.failedAt + wait * 1_000_000)
    else if f.pushAccepted && f.sentWritten then
      after == before.(status := Sent, attempts := k.attempts + 1, nextAttemptAt := f.sentAt)
    else after == before
  }

  /** A dispatch changes the row of its message and tenant and no other. */
  lemma DispatchExactly(t: Table, k: Ticket, f: Fortune, c: Config)
    requires PossibleFortune(f)
    ensures var after := Dispatched(t, k, f, c);
      && after.Keys == t.Keys
      && (forall id :: id in t && (id != k.id || t[id].tenant != k.tenant) ==> after[id] == t[id])
      && (k.id in t && t[k.id].tenant == k.tenant ==> Leaves(k, f, c, t[k.id], after[k.id]))
  {
    hide Backoff.Seconds;
  }

  /** The first retry waits for the base, the next ones twice as long each, none longer than the maximum. */
  lemma RetryWaits(k: Ticket, f: Fortune, c: Config, before: Row, after: Row)
    requires Leaves(k, f, c, before, after) && !Delivered(f) && f.failureWritten && !LastAttempt(k)
    ensures after.nextAttemptAt <= f.failedAt + c.maxBackoffSeconds * 1_000_000
    ensures k.attempts == 0 ==>
      var wait := if c.baseBackoffSeconds < c.maxBackoffSeconds then c.baseBackoffSeconds else c.maxBackoffSeconds;
      after.nextAttemptAt == f.failedAt + wait * 1_000_000
  {
    Backoff.FirstWait(c.baseBackoffSeconds, c.maxBackoffSeconds);
    Backoff.SecondsDouble(k.attempts + 1, c.baseBackoffSeconds, c.maxBackoffSeconds);
  }

  /** A dispatch that leaves by exception: neither its success nor its failure was reported. */
  predicate Throws(f: Fortune) { !Delivered(f) && !f.failureReported }

  /** A batch is dispatched ticket by ticket, up to and with the first dispatch that throws. */
  lemma {:induction false} BatchExactly(t: Table, batch: seq<Ticket>, fortunes: seq<Fortune>, c: Config, n: nat)
      returns (tables: seq<Table>)
    requires |batch| == |fortunes| && n <= |batch| && forall i :: 0 <= i < n ==> !Throws(fortunes[i])
    requires n < |batch| ==> Throws(fortunes[n])
    ensures |tables| == (if n < |batch| then n + 1 else n) + 1
    ensures tables[0] == t && tables[|tables| - 1] == Through(t, batch, fortunes, c)
    ensures forall i :: 0 <= i < |tables| - 1 ==> tables[i + 1] == Dispatched(tables[i], batch[i], fortunes[i], c)
    decreases n
  {
    hide Dispatched;
    if batch == [] {
      tables := [t];
    } else {
      var next := Dispatched(t, batch[0], fortunes[0], c);
      if n == 0 {
        tables := [t, next];
      } else {
        assert !Throws(fortunes[0]);
        var rest := BatchExactly(next, batch[1..], fortunes[1..], c, n - 1);
        tables := [t] + rest;
      }
    }
  }

  /** A claim marks the rows it takes as Processing from now on, and leaves the others. */
  lemma ClaimExactly(t: Table, ids: set<Id>, now: int)
    ensures ClaimAll(t, ids, now).Keys == t.Keys
    ensures forall id :: id in t && id in ids ==>
      ClaimAll(t, ids, now)[id] == t[id].(status := Processing, lastAttemptAt := Some(now))
    ensures forall id :: id in t && id !in ids ==> ClaimAll(t, ids, now)[id] == t[id]
  {
  }

  /**
   * The row waits for now or an earlier time, or was taken up longer ago than a lease lasts; of the tenant asked for.
   */
  predicate Open(row: Row, now: int, c: Config, tenant: Option<string>)
  {
    && row.attempts < row.maxAttempts && (tenant == None || tenant == Some(row.tenant))
    && match row.status
       case Pending => row.nextAttemptAt <= now
       case Retry => row.nextAttemptAt <= now
       case Processing => row.lastAttemptAt.Some? && now - row.lastAttemptAt.value > c.leaseSeconds * 1_000_000
       case _ => false
  }

  predicate Sooner(a: Row, b: Row)
  {
    if a.nextAttemptAt == b.nextAttemptAt then a.createdAt < b.createdAt else a.nextAttemptAt < b.nextAttemptAt
  }

  /**
   * What a claim takes: open rows that nobody has locked, no more than a batch; and what it leaves open and unlocked is
   * left because the batch is full of rows none of which is later.
   */
  lemma ChoiceExactly(t: Table, now: int, c: Config, tenant: Option<string>, locked: set<Id>, ids: set<Id>)
    ensures Choice(t, now, c, tenant, locked, ids) <==>
      && (forall id :: id in ids ==> id in t && id !in locked && Open(t[id], now, c, tenant)) && |ids| <= c.batchSize
      && forall other :: other in t && other !in ids && other !in locked && Open(t[other], now, c, tenant) ==>
           |ids| == c.batchSize && forall id :: id in ids ==> !Sooner(t[other], t[id])
  {
    forall row: Row ensures Eligible(row, now, c, tenant) <==> Open(row, now, c, tenant) {}
    hide Eligible, Open;
  }
}
