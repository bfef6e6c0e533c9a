/**
 * How long a due message waits behind others when one dispatcher works alone: every turn claims a batch, pushes it and
 * writes each outcome back, and new messages arrive in between.
 */
module OutboxWaiting {
  import Backoff
  import opened Options
  import opened Outbox

  /** One turn of the dispatcher, and the messages inserted before the next. */
  datatype Turn = Turn(now: int, picked: seq<Id>, fortunes: seq<Fortune>, inserts: Table)

  /** The dispatch wrote its outcome, at a time that is not before the claim. */
  predicate Timely(f: Fortune, now: int) { PossibleFortune(f) && Written(f) && f.sentAt >= now && f.failedAt >= now }

  predicate Inserted(row: Row, since: int) {
    row.status == Pending && row.attempts == 0 && row.nextAttemptAt == row.createdAt > since
  }

  /** A turn that neither crashes nor throws; messages inserted meanwhile are stamped later than `since`. */
  ghost predicate Completes(c: Config, tenant: Option<string>, t: Table, turn: Turn, since: int)
  {
    && Choice(t, turn.now, c, tenant, {}, Picked(turn.picked)) && since <= turn.now
    && |turn.fortunes| == |turn.picked| && (forall i :: 0 <= i < |turn.fortunes| ==> Timely(turn.fortunes[i], turn.now))
    && (forall i :: 0 <= i < |turn.picked| ==> turn.picked[i] in t)
    && turn.inserts.Keys !! t.Keys && (forall id :: id in turn.inserts ==> Inserted(turn.inserts[id], since))
  }

  ghost function Next(c: Config, tenant: Option<string>, t: Table, turn: Turn, since: int): Table
    requires Completes(c, tenant, t, turn, since)
  {
    Through(ClaimAll(t, Picked(turn.picked), turn.now), Tickets(t, turn.picked), turn.fortunes, c) + turn.inserts
  }

  /** Turns in succession, each on the table that the one before left. */
  ghost predicate Work(c: Config, tenant: Option<string>, tables: seq<Table>, turns: seq<Turn>, since: int)
  {
    && |tables| == |turns| + 1
    && (forall i :: 0 <= i < |turns| ==>
        Completes(c, tenant, tables[i], turns[i], since) &&
            tables[i + 1] == Next(c, tenant, tables[i], turns[i], since))
    && (forall i :: 0 < i < |turns| ==> turns[i - 1].now <= turns[i].now)
  }

  /** The unfinished messages that may be ordered before m. */
  function Ahead(t: Table, m: Id): set<Id>
    requires m in t
  {
    set id | id in t && id != m && !Final(t[id]) && NoLater(t[id], t[m])
  }

  /** The messages that a claim at this time must take before m. */
  function Preferred(c: Config, tenant: Option<string>, t: Table, now: int, m: Id): set<Id>
    requires m in t
  {
    set id | id in t && Eligible(t[id], now, c, tenant) && !NoLater(t[m], t[id])
  }

  // ---- what one turn does -------------------------------------------------------------------------

  /** Finished, or put off until after this time. */
  predicate Settled(row: Row, now: int) { Final(row) || (row.status == Retry && row.nextAttemptAt > now) }

  ghost predicate Matching(t: Table, batch: seq<Ticket>)
  {
    forall i :: 0 <= i < |batch| ==> batch[i].id in t && t[batch[i].id].tenant == batch[i].tenant
  }

  ghost predicate Names(batch: seq<Ticket>, id: Id) { exists i :: 0 <= i < |batch| && batch[i].id == id }

  lemma DispatchSettles(c: Config, t: Table, k: Ticket, f: Fortune, now: int, id: Id)
    requires ValidConfig(c) && Timely(f, now) && k.id in t && t[k.id].tenant == k.tenant && id in t
    ensures var d := Dispatched(t, k, f, c);
      d.Keys == t.Keys && d[id].tenant == t[id].tenant && (if id == k.id then Settled(d[id], now) else d[id] == t[id])
  {
    hide Backoff.Seconds;
    Backoff.SecondsPositive(k.attempts + 1, c.baseBackoffSeconds, c.maxBackoffSeconds);
  }

  lemma {:induction false} BatchSettles(c: Config, t: Table, batch: seq<Ticket>, fortunes: seq<Fortune>, now: int,
      id: Id)
    requires ValidConfig(c) && |batch| == |fortunes| && Matching(t, batch) && id in t
    requires forall i :: 0 <= i < |fortunes| ==> Timely(fortunes[i], now)
    ensures var d := Through(t, batch, fortunes, c);
      d.Keys == t.Keys && (if Names(batch, id) then Settled(d[id], now) else d[id] == t[id])
    decreases |batch|
  {
    hide Dispatched;
    if batch != [] {
      var d := Dispatched(t, batch[0], fortunes[0], c);
      DispatchSettles(c, t, batch[0], fortunes[0], now, id);
      forall i | 0 <= i < |batch[1..]|
        ensures batch[1..][i].id in d && d[batch[1..][i].id].tenant == batch[1..][i].tenant
      {
        DispatchSettles(c, t, batch[0], fortunes[0], now, batch[i + 1].id);
      }
      BatchSettles(c, d, batch[1..], fortunes[1..], now, id);
      if Names(batch, id) && id != batch[0].id {
        var i :| 0 <= i < |batch| && batch[i].id == id;
        assert batch[1..][i - 1].id == id;
      }
      if Names(batch[1..], id) {
        var i :| 0 <= i < |batch[1..]| && batch[1..][i].id == id;
        assert batch[i + 1].id == id;
      }
    }
  }

  /** After a turn a message is settled if it was picked, as it was if not, and newly inserted otherwise. */
  lemma TurnSettles(c: Config, tenant: Option<string>, t: Table, turn: Turn, since: int, id: Id)
    requires ValidConfig(c) && Completes(c, tenant, t, turn, since) && id in Next(c, tenant, t, turn, since)
    ensures var row := Next(c, tenant, t, turn, since)[id];
      if id !in t then Inserted(row, since)
      else if id in Picked(turn.picked) then Settled(row, turn.now) else row == t[id]
  {
    hide Through, Choice;
    var claimed := ClaimAll(t, Picked(turn.picked), turn.now);
    var batch := Tickets(t, turn.picked);
    if id in t {
      BatchSettles(c, claimed, batch, turn.fortunes, turn.now, id);
      NamesPicked(t, turn.picked, id);
    } else {
      BatchKeys(c, claimed, batch, turn.fortunes);
    }
  }

  lemma NamesPicked(t: Table, picked: seq<Id>, id: Id)
    requires forall i :: 0 <= i < |picked| ==> picked[i] in t
    ensures Names(Tickets(t, picked), id) <==> id in Picked(picked)
  {
    if id in picked {
      var i :| 0 <= i < |picked| && picked[i] == id;
      assert Tickets(t, picked)[i].id == id;
    }
  }

  lemma {:induction false} BatchKeys(c: Config, t: Table, batch: seq<Ticket>, fortunes: seq<Fortune>)
    requires |batch| == |fortunes|
    ensures Through(t, batch, fortunes, c).Keys == t.Keys
    decreases |batch|
  {
    if batch != [] { BatchKeys(c, Dispatched(t, batch[0], fortunes[0], c), batch[1..], fortunes[1..]); }
  }

  lemma TurnKeeps(c: Config, tenant: Option<string>, t: Table, turn: Turn, since: int, id: Id)
    requires ValidConfig(c) && Completes(c, tenant, t, turn, since) && id in t
    ensures id in Next(c, tenant, t, turn, since)
  {
    hide Through, Choice;
    BatchSettles(c, ClaimAll(t, Picked(turn.picked), turn.now), Tickets(t, turn.picked), turn.fortunes, turn.now, id);
  }

  /** A turn that passes a due message over takes a whole batch of those ahead of it, and lets nobody in ahead. */
  lemma PassedOver(c: Config, tenant: Option<string>, t: Table, turn: Turn, since: int, m: Id)
    requires ValidConfig(c) && Completes(c, tenant, t, turn, since)
    requires m in t && Eligible(t[m], turn.now, c, tenant) && m !in Picked(turn.picked) && t[m].nextAttemptAt <= since
    ensures m in Next(c, tenant, t, turn, since) && Next(c, tenant, t, turn, since)[m] == t[m]
    ensures |Ahead(Next(c, tenant, t, turn, since), m)| + c.batchSize <= |Ahead(t, m)|
  {
    hide Next, Claimable;
    var t', picked := Next(c, tenant, t, turn, since), Picked(turn.picked);
    TurnKeeps(c, tenant, t, turn, since, m);
    TurnSettles(c, tenant, t, turn, since, m);
    forall id | id in picked ensures id in Ahead(t, m) { Unfinished(t[id], turn.now, c); }
    forall id | id in Ahead(t', m) ensures id in Ahead(t, m) - picked { TurnSettles(c, tenant, t, turn, since, id); }
    AtMost(Ahead(t', m), Ahead(t, m) - picked);
    AtMost(picked, Ahead(t, m));
  }

  lemma Unfinished(row: Row, now: int, c: Config)
    requires Claimable(row, now, c)
    ensures !Final(row)
  {
  }

  lemma {:induction false} AtMost(a: set<Id>, b: set<Id>)
    requires a <= b
    ensures |a| <= |b| && |b - a| == |b| - |a|
  {
    if a != {} {
      var x :| x in a;
      AtMost(a - {x}, b - {x});
      assert b - {x} - (a - {x}) == b - a;
    }
  }

  // ---- main results ---------------------------------------------------------------------------------

  /**
   * A due message with r unfinished messages ordered before it is claimed within r / batchSize + 1 turns, whatever
   * the pushes return and whatever is inserted meanwhile.
   */
  lemma {:induction false} BoundedWaiting(c: Config, tenant: Option<string>, tables: seq<Table>, turns: seq<Turn>,
      since: int, m: Id) returns (i: nat)
    requires ValidConfig(c) && Work(c, tenant, tables, turns, since)
    requires m in tables[0] && |turns| == |Ahead(tables[0], m)| / c.batchSize + 1
    requires Eligible(tables[0][m], turns[0].now, c, tenant) && tables[0][m].nextAttemptAt <= since
    ensures i < |turns| && m in Picked(turns[i].picked)
  {
    i := ClaimedInTime(c, tenant, tables, turns, since, m);
  }

  lemma {:induction false} ClaimedInTime(c: Config, tenant: Option<string>, tables: seq<Table>, turns: seq<Turn>,
      since: int, m: Id) returns (i: nat)
    requires ValidConfig(c) && Work(c, tenant, tables, turns, since)
    requires m in tables[0] && |turns| * c.batchSize > |Ahead(tables[0], m)|
    requires |turns| > 0 && Eligible(tables[0][m], turns[0].now, c, tenant) && tables[0][m].nextAttemptAt <= since
    ensures i < |turns| && m in Picked(turns[i].picked)
    decreases |turns|
  {
    hide Completes, Next;
    if m in Picked(turns[0].picked) { return 0; }
    PassedOver(c, tenant, tables[0], turns[0], since, m);
    assert (|turns| - 1) * c.batchSize > |Ahead(tables[1], m)|;
    assert |turns| > 1;
    StillEligible(tables[0][m], turns[0].now, turns[1].now, c, tenant);
    i := ClaimedInTime(c, tenant, tables[1..], turns[1..], since, m);
    i := i + 1;
  }

  lemma StillEligible(row: Row, now: int, later: int, c: Config, tenant: Option<string>)
    requires Eligible(row, now, c, tenant) && now <= later
    ensures Eligible(row, later, c, tenant)
  {
  }

  /** A turn that could take a whole batch before m does so: m waits, and the others it waits for stay preferred. */
  lemma TakesFirst(c: Config, tenant: Option<string>, t: Table, turn: Turn, since: int, m: Id, later: int)
    requires ValidConfig(c) && Completes(c, tenant, t, turn, since) && m in t && later >= turn.now
    requires |Preferred(c, tenant, t, turn.now, m)| >= c.batchSize
    ensures m !in Picked(turn.picked) && m in Next(c, tenant, t, turn, since)
    ensures Next(c, tenant, t, turn, since)[m] == t[m]
    ensures |Preferred(c, tenant, Next(c, tenant, t, turn, since), later, m)| >= |Preferred(c, tenant, t, turn.now,
            m)| - c.batchSize
  {
    hide Next, Claimable;
    var t', picked, first := Next(c, tenant, t, turn, since), Picked(turn.picked), Preferred(c, tenant, t, turn.now, m);
    if m in picked {
      forall id | id in first ensures id in picked - {m} { }
      AtMost(first, picked - {m});
      assert false;
    }
    TurnKeeps(c, tenant, t, turn, since, m);
    TurnSettles(c, tenant, t, turn, since, m);
    var left := first - picked;
    forall id | id in left ensures id in Preferred(c, tenant, t', later, m) {
      TurnKeeps(c, tenant, t, turn, since, id);
      TurnSettles(c, tenant, t, turn, since, id);
      StillEligible(t[id], turn.now, later, c, tenant);
    }
    AtMost(left, Preferred(c, tenant, t', later, m));
    AtMost(first * picked, first);
    AtMost(first * picked, picked);
    assert left == first - first * picked;
  }

  /**
   * Nobody jumps the queue: with p eligible messages strictly before it, a message is in none of the first p /
   * batchSize claims.
   */
  lemma {:induction false} NoJumping(c: Config, tenant: Option<string>, tables: seq<Table>, turns: seq<Turn>,
      since: int, m: Id, i: nat)
    requires ValidConfig(c) && Work(c, tenant, tables, turns, since) && i < |turns|
    requires m in tables[0] && i < |Preferred(c, tenant, tables[0], turns[0].now, m)| / c.batchSize
    ensures m !in Picked(turns[i].picked)
  {
    hide Completes, Next, Preferred;
    var p := |Preferred(c, tenant, tables[0], turns[0].now, m)|;
    assert (i + 1) * c.batchSize <= p by { Divided(i, p, c.batchSize); }
    PassedAll(c, tenant, tables, turns, since, m, i);
  }

  lemma Divided(i: nat, p: nat, n: nat)
    requires n > 0 && i < p / n
    ensures (i + 1) * n <= p
  {
    var q := p / n;
    assert p == q * n + p % n;
    assert (i + 1) * n <= q * n;
  }

  lemma {:induction false} PassedAll(c: Config, tenant: Option<string>, tables: seq<Table>, turns: seq<Turn>,
      since: int, m: Id, i: nat)
    requires ValidConfig(c) && Work(c, tenant, tables, turns, since) && i < |turns|
    requires m in tables[0] && (i + 1) * c.batchSize <= |Preferred(c, tenant, tables[0], turns[0].now, m)|
    ensures m !in Picked(turns[i].picked)
    decreases i
  {
    hide Completes, Next, Preferred;
    assert c.batchSize <= (i + 1) * c.batchSize;
    TakesFirst(c, tenant, tables[0], turns[0], since, m, if i > 0 then turns[1].now else turns[0].now);
    if i > 0 {
      assert i * c.batchSize <= |Preferred(c, tenant, tables[1], turns[1].now, m)|;
      PassedAll(c, tenant, tables[1..], turns[1..], since, m, i - 1);
      assert turns[1..][i - 1] == turns[i];
    }
  }
}
