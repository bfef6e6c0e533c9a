/**
 * What one tick does to the book, schedule by schedule and run by run, and that no occurrence is passed over unfired.
 */
module SchedulerRuns {
  import opened Options
  import opened Scheduler
  import opened Sequences

  // ---- which schedules a tick takes up --------------------------------------------------------------------

  /** The schedule and its job are enabled, its occurrence is now or past, and it is of the tenant asked for. */
  predicate Open(b: Book, id: Id, now: int, tenant: Option<string>)
  {
    && id in b.schedules && b.schedules[id].enabled
    && b.schedules[id].code in b.definitions && b.definitions[b.schedules[id].code].enabled
    && b.schedules[id].nextRunAt.Some? && !(b.schedules[id].nextRunAt.value > now)
    && (tenant == None || tenant == Some(b.schedules[id].tenant))
  }

  predicate Sooner(s: Schedule, t: Schedule)
  {
    if s.nextRunAt == t.nextRunAt then s.createdAt < t.createdAt
    else s.nextRunAt.Some? && t.nextRunAt.Some? && s.nextRunAt.value < t.nextRunAt.value
  }

  /**
   * What a tick takes up: open schedules that nobody has locked, each once, earliest first and no more than the limit;
   * and what it leaves open and unlocked is left because the limit is reached with schedules none of which is later.
   */
  lemma ChoiceExactly(b: Book, now: int, limit: nat, tenant: Option<string>, locked: set<Id>, ids: seq<Id>)
    ensures Choice(b, now, limit, tenant, locked, ids) <==>
      && Once(ids) && |ids| <= limit && (forall id :: id in ids ==> id !in locked && Open(b, id, now, tenant))
      && (forall i, j :: 0 <= i < j < |ids| ==>
            ids[i] in ids && ids[j] in ids && !Sooner(b.schedules[ids[j]], b.schedules[ids[i]]))
      && forall other :: Open(b, other, now, tenant) && other !in ids && other !in locked ==>
           |ids| == limit && forall id :: id in ids ==> !Sooner(b.schedules[other], b.schedules[id])
  {
    forall id: Id ensures Eligible(b, id, now, tenant) <==> Open(b, id, now, tenant) {}
  }

  /** The expression of a schedule: its own unless that is missing or empty, then its job's default, then none. */
  lemma ExpressionExactly(b: Book, id: Id)
    requires id in b.schedules && b.schedules[id].code in b.definitions
    ensures var own, other := b.schedules[id].expression, b.definitions[b.schedules[id].code].defaultSchedule;
      && (own.Some? && |own.value| > 0 ==> Some(Expression(b, id)) == own)
      && (own == None || own == Some("") ==> Expression(b, id) == match other case Some(s) => s case None => "")
  {
  }

  // ---- one tick -------------------------------------------------------------------------------------------

  /** The first point of the grid from `at` that is after both `at` and now. */
  ghost predicate FirstAfter(at: int, now: int, interval: nat, next: int)
  {
    && (exists n :: n > 0 && next == at + n * interval)
    && next > now && (next - interval <= at || next - interval <= now)
  }

  lemma NextIsFirst(at: int, now: int, interval: nat)
    requires interval > 0
    ensures FirstAfter(at, now, interval, NextRunAt(at, now, interval))
  {
    NextIsLeast(at, now, interval);
    hide NextRunAt;
    var next := NextRunAt(at, now, interval);
    var n :| n > 0 && next == at + n * interval;
    assert next - interval == at + (n - 1) * interval;
    assert at + (n - 1) * interval > at && at + (n - 1) * interval > now ==> next <= at + (n - 1) * interval;
  }

  /** A due schedule as a tick leaves it: moved on to the first occurrence after now, or disabled if it names none. */
  ghost predicate Turned(b: Book, b': Book, id: Id, now: int)
    requires Due(b, id, now) && id in b'.schedules
  {
    var before, after := b.schedules[id], b'.schedules[id];
    match Interval(Expression(b, id))
    case None => after == before.(enabled := false)
    case Some(interval) =>
      && Fire(before.tenant, id, before.nextRunAt.value) in b'.fires
      && after.nextRunAt.Some? && FirstAfter(before.nextRunAt.value, now, interval, after.nextRunAt.value)
      && after == before.(lastRunAt := before.nextRunAt, nextRunAt := after.nextRunAt)
  }

  /** A run of one of these schedules, at the occurrence it is due for. */
  ghost predicate OfDue(b: Book, ids: seq<Id>, now: int, f: Fire)
    requires AllDue(b, ids, now)
  {
    && f.schedule in ids && Interval(Expression(b, f.schedule)).Some?
    && b.schedules[f.schedule].tenant == f.tenant && b.schedules[f.schedule].nextRunAt == Some(f.at)
  }

  lemma OneTurned(b: Book, id: Id, now: int)
    requires Due(b, id, now) && TickOne(b, id, now).Some?
    ensures var b' := TickOne(b, id, now).value;
      && id in b'.schedules && Turned(b, b', id, now) && b'.definitions == b.definitions && b.fires <= b'.fires
      && b'.schedules.Keys == b.schedules.Keys
      && (forall other :: other in b.schedules && other != id ==> b'.schedules[other] == b.schedules[other])
      && (forall f :: f in b'.fires <==>
            f in b.fires || (Interval(Expression(b, id)).Some? && f == RunOf(b, id)))
  {
    hide Interval, NextRunAt;
    if Interval(Expression(b, id)).Some? {
      NextIsFirst(b.schedules[id].nextRunAt.value, now, Interval(Expression(b, id)).value);
    }
  }

  /**
   * A tick that takes effect: every schedule taken up is moved on with its run inserted, or disabled without one; every
   * other is as it was, and so is every run; and there is no new run besides.
   */
  lemma {:induction false} TickFiresExactly(b: Book, ids: seq<Id>, now: int)
    requires AllDue(b, ids, now) && Ticked(b, ids, now).Some?
    ensures var b' := Ticked(b, ids, now).value;
      && b'.definitions == b.definitions && b'.schedules.Keys == b.schedules.Keys && b.fires <= b'.fires
      && (forall id :: id in ids ==> Due(b, id, now) && Turned(b, b', id, now))
      && (forall id :: id in b.schedules && id !in ids ==> b'.schedules[id] == b.schedules[id])
      && (forall f :: f in b'.fires <==> f in b.fires || OfDue(b, ids, now, f))
    decreases |ids|
  {
    hide Interval, NextRunAt, TickOne, FirstAfter, Expression;
    if ids != [] {
      var id, rest := ids[0], ids[1..];
      AllDueRest(b, ids, now);
      OneTurned(b, id, now);
      var next := TickOne(b, id, now).value;
      TickFiresExactly(next, rest, now);
      var b' := Ticked(b, ids, now).value;
      assert Ticked(next, rest, now).value == b';
      assert forall other :: other in ids <==> other == id || other in rest;
      assert id !in rest;
      forall other | other in rest ensures Due(b, other, now) && Turned(b, b', other, now) {
        RestTurned(b, id, other, now, b');
      }
      FiresSplit(b, ids, now, b');
    }
  }

  lemma RestTurned(b: Book, id: Id, other: Id, now: int, b': Book)
    requires Due(b, id, now) && Due(b, other, now) && other != id && TickOne(b, id, now).Some? && other in b'.schedules
    requires Due(TickOne(b, id, now).value, other, now) && Turned(TickOne(b, id, now).value, b', other, now)
    ensures Turned(b, b', other, now)
  {
    OtherKept(b, id, other, now);
    hide Interval, NextRunAt, TickOne, Due, Expression;
  }

  lemma FiresSplit(b: Book, ids: seq<Id>, now: int, b': Book)
    requires AllDue(b, ids, now) && ids != [] && TickOne(b, ids[0], now).Some?
    requires var next := TickOne(b, ids[0], now).value;
      AllDue(next, ids[1..], now) && forall f :: f in b'.fires <==> f in next.fires || OfDue(next, ids[1..], now, f)
    ensures forall f :: f in b'.fires <==> f in b.fires || OfDue(b, ids, now, f)
  {
    hide Interval, NextRunAt, TickOne, Expression;
    var id, rest := ids[0], ids[1..];
    var next := TickOne(b, id, now).value;
    OneTurned(b, id, now);
    assert forall other :: other in ids <==> other == id || other in rest;
    assert id !in rest;
    forall f ensures OfDue(b, ids, now, f) <==>
      OfDue(next, rest, now, f) || (Interval(Expression(b, id)).Some? && f == RunOf(b, id))
    {
      if f.schedule in rest { OtherKept(b, id, f.schedule, now); }
    }
  }

  // ---- ticks in succession --------------------------------------------------------------------------------

  /**
   * Ticks in succession, by any number of workers with clocks of their own; a tick that is refused or fails changes
   * nothing.
   */
  datatype Tick = Tick(now: int, due: seq<Id>, commits: bool)

  ghost predicate Ticks(books: seq<Book>, ticks: seq<Tick>)
  {
    |books| == |ticks| + 1 && forall i :: 0 <= i < |ticks| ==>
      && AllDue(books[i], ticks[i].due, ticks[i].now)
      && books[i + 1] == AfterTick(books[i], ticks[i])
  }

  ghost function AfterTick(b: Book, t: Tick): Book
    requires AllDue(b, t.due, t.now)
  {
    var ticked := Ticked(b, t.due, t.now);
    if t.commits && ticked.Some? then ticked.value else b
  }

  /** The occurrences of a schedule that have fired, in order. */
  function Occurrences(fires: seq<Fire>, id: Id): seq<int>
  {
    if fires == [] then []
    else
      var last := fires[|fires| - 1];
      Occurrences(fires[..|fires| - 1], id) + if last.schedule == id then [last.at] else []
  }

  predicate OnGrid(at: int, first: int, interval: nat)
    requires interval > 0
  {
    at >= first && (at - first) % interval == 0
  }

  /** The occurrences are increasing, on the grid, before the next one and not after the latest tick. */
  ghost predicate Cadence(b: Book, id: Id, first: int, interval: nat, latest: int)
    requires interval > 0
  {
    && id in b.schedules && b.schedules[id].code in b.definitions && Interval(Expression(b, id)) == Some(interval)
    && b.schedules[id].nextRunAt.Some? && OnGrid(b.schedules[id].nextRunAt.value, first, interval)
    && Fires(Occurrences(b.fires, id), first, interval, latest)
    && forall i :: 0 <= i < |Occurrences(b.fires, id)| ==> Occurrences(b.fires, id)[i] < b.schedules[id].nextRunAt.value
  }

  ghost predicate Fires(ats: seq<int>, first: int, interval: nat, latest: int)
    requires interval > 0
  {
    && (forall i :: 0 <= i < |ats| ==> OnGrid(ats[i], first, interval) && ats[i] <= latest)
    && (forall i, j :: 0 <= i < j < |ats| ==> ats[i] < ats[j])
  }

  lemma {:induction false} OccurrenceFired(fires: seq<Fire>, id: Id, at: int)
    requires exists tenant :: Fire(tenant, id, at) in fires
    ensures at in Occurrences(fires, id)
  {
    var last := fires[|fires| - 1];
    if last.schedule != id || last.at != at {
      var tenant :| Fire(tenant, id, at) in fires;
      assert Fire(tenant, id, at) in fires[..|fires| - 1];
      OccurrenceFired(fires[..|fires| - 1], id, at);
    }
  }

  lemma FiresOnce(fires: seq<Fire>, fire: Fire, id: Id)
    requires fire.schedule == id ==> fire.at !in Occurrences(fires, id)
    ensures Occurrences(Inserted(fires, fire), id) ==
            Occurrences(fires, id) + if fire.schedule == id then [fire.at] else []
  {
    if fire in fires {
      if fire.schedule == id { OccurrenceFired(fires, id, fire.at); }
    } else {
      assert (fires + [fire])[..|fires|] == fires;
    }
  }

  lemma StepInCadence(b: Book, taken: Id, now: int, id: Id, first: int, interval: nat, latest: int)
    requires interval > 0 && Due(b, taken, now) && TickOne(b, taken, now).Some? && now <= latest &&
             Cadence(b, id, first, interval, latest)
    ensures Cadence(TickOne(b, taken, now).value, id, first, interval, latest)
  {
    hide Interval, NextRunAt, Occurrences;
    var b' := TickOne(b, taken, now).value;
    if Interval(Expression(b, taken)).Some? {
      var at := b.schedules[taken].nextRunAt.value;
      FiresOnce(b.fires, Fire(b.schedules[taken].tenant, taken, at), id);
      if taken == id {
        NextIsLeast(at, now, interval);
        var n :| n > 0 && NextRunAt(at, now, interval) == at + n * interval;
        GridStep(at, first, interval, n);
      }
    }
  }

  lemma GridStep(at: int, first: int, interval: nat, n: int)
    requires interval > 0 && n > 0 && OnGrid(at, first, interval)
    ensures OnGrid(at + n * interval, first, interval)
  {
    var q := (at - first) / interval;
    assert at + n * interval - first == (q + n) * interval;
    Multiple(q + n, interval);
  }

  lemma Multiple(q: int, interval: nat)
    requires interval > 0
    ensures (q * interval) % interval == 0
  {
    var m := q * interval;
    var d := m / interval;
    assert m == d * interval + m % interval;
    assert (d + 1) * interval == d * interval + interval;
    if d < q {
      Scaled(d + 1, q, interval);
    } else {
      Scaled(q, d, interval);
    }
  }

  lemma {:induction false} TickInCadence(b: Book, ids: seq<Id>, now: int, id: Id, first: int, interval: nat,
      latest: int)
    requires interval > 0 && AllDue(b, ids, now) && Ticked(b, ids, now).Some? && now <= latest &&
             Cadence(b, id, first, interval, latest)
    ensures Cadence(Ticked(b, ids, now).value, id, first, interval, latest)
    decreases |ids|
  {
    hide Cadence, TickOne, Due;
    if ids != [] {
      AllDueRest(b, ids, now);
      StepInCadence(b, ids[0], now, id, first, interval, latest);
      TickInCadence(TickOne(b, ids[0], now).value, ids[1..], now, id, first, interval, latest);
    }
  }

  lemma {:induction false} RunInCadence(books: seq<Book>, ticks: seq<Tick>, n: nat, id: Id, first: int, interval: nat,
      latest: int)
    requires interval > 0 && Ticks(books, ticks) && n <= |ticks| && Cadence(books[0], id, first, interval, latest)
    requires forall i :: 0 <= i < |ticks| ==> ticks[i].now <= latest
    ensures Cadence(books[n], id, first, interval, latest)
    decreases n
  {
    hide Cadence, Ticked, AllDue;
    if n > 0 {
      RunInCadence(books, ticks, n - 1, id, first, interval, latest);
      var t := ticks[n - 1];
      if t.commits && Ticked(books[n - 1], t.due, t.now).Some? {
        TickInCadence(books[n - 1], t.due, t.now, id, first, interval, latest);
      }
    }
  }

  lemma {:induction false} Spaced(ats: seq<int>, first: int, interval: nat, latest: int, k: nat)
    requires interval > 0 && Fires(ats, first, interval, latest) && k < |ats|
    ensures ats[k] >= first + k * interval
    decreases k
  {
    if k > 0 {
      Spaced(ats, first, interval, latest, k - 1);
      Apart(ats[k - 1], ats[k], first, interval);
      assert k * interval == (k - 1) * interval + interval;
    }
  }

  lemma Apart(a: int, b: int, first: int, interval: nat)
    requires interval > 0 && OnGrid(a, first, interval) && OnGrid(b, first, interval) && a < b
    ensures b >= a + interval
  {
    var p, q := (a - first) / interval, (b - first) / interval;
    assert a - first == p * interval && b - first == q * interval;
    if q <= p { Scaled(q, p, interval); }
    Scaled(p + 1, q, interval);
    assert (p + 1) * interval == p * interval + interval;
  }

  /** A schedule that was moved on has fired the occurrence that it was moved on from. */
  ghost predicate MoveFired(before: Book, after: Book, ats: seq<int>, id: Id)
  {
    id in before.schedules && id in after.schedules &&
        (after.schedules[id].nextRunAt != before.schedules[id].nextRunAt ==>
            before.schedules[id].nextRunAt.Some? && before.schedules[id].nextRunAt.value in ats)
  }

  lemma TickMoves(b: Book, t: Tick, id: Id)
    requires AllDue(b, t.due, t.now) && id in b.schedules
    ensures var b' := AfterTick(b, t);
      && id in b'.schedules && b.fires <= b'.fires
      && (b'.schedules[id].nextRunAt != b.schedules[id].nextRunAt ==>
            b.schedules[id].nextRunAt.Some? &&
                Fire(b.schedules[id].tenant, id, b.schedules[id].nextRunAt.value) in b'.fires)
  {
    hide Interval, FirstAfter, Ticked;
    if t.commits && Ticked(b, t.due, t.now).Some? { TickFiresExactly(b, t.due, t.now); }
  }

  lemma {:induction false} RunKeeps(books: seq<Book>, ticks: seq<Tick>, m: nat, n: nat, id: Id)
    requires Ticks(books, ticks) && m <= n <= |ticks| && id in books[m].schedules
    ensures id in books[n].schedules && books[m].fires <= books[n].fires
    decreases n - m
  {
    hide AllDue, AfterTick;
    if m < n {
      RunKeeps(books, ticks, m, n - 1, id);
      TickMoves(books[n - 1], ticks[n - 1], id);
    }
  }

  lemma MoveFires(books: seq<Book>, ticks: seq<Tick>, m: nat, n: nat, id: Id)
    requires Ticks(books, ticks) && m < n <= |ticks| && id in books[0].schedules
    ensures MoveFired(books[m], books[m + 1], Occurrences(books[n].fires, id), id)
  {
    hide AllDue, AfterTick, Occurrences;
    RunKeeps(books, ticks, 0, m, id);
    TickMoves(books[m], ticks[m], id);
    RunKeeps(books, ticks, m + 1, n, id);
    var before := books[m].schedules[id];
    if books[m + 1].schedules[id].nextRunAt != before.nextRunAt {
      assert Fire(before.tenant, id, before.nextRunAt.value) in books[n].fires;
      OccurrenceFired(books[n].fires, id, before.nextRunAt.value);
    }
  }

  /**
   * Whatever workers tick, and however late: the occurrences of a schedule with a fixed interval that have fired are
   * strictly increasing, congruent to its first one, none after the latest tick, and at most one for each interval
   * that has begun; and every occurrence that the schedule was ever moved on from is among them.
   */
  lemma FiresOnTheGrid(books: seq<Book>, ticks: seq<Tick>, n: nat, id: Id, first: int, interval: nat, latest: int)
    requires Ticks(books, ticks) && n <= |ticks| && (forall i :: 0 <= i < |ticks| ==> ticks[i].now <= latest)
    requires id in books[0].schedules && books[0].schedules[id].code in books[0].definitions
    requires books[0].schedules[id].nextRunAt == Some(first) && Interval(Expression(books[0], id)) == Some(interval)
    requires Occurrences(books[0].fires, id) == []
    ensures interval > 0
    ensures var ats := Occurrences(books[n].fires, id);
      && (forall i :: 0 <= i < |ats| ==> first <= ats[i] <= latest && (ats[i] - first) % interval == 0)
      && (forall i, j :: 0 <= i < j < |ats| ==> ats[i] < ats[j])
      && (ats != [] ==> |ats| <= (latest - first) / interval + 1)
    ensures forall m :: 0 <= m < n ==> MoveFired(books[m], books[m + 1], Occurrences(books[n].fires, id), id)
  {
    hide Interval, Ticked, AllDue, Occurrences;
    assert OnGrid(first, first, interval);
    forall m | 0 <= m < n ensures MoveFired(books[m], books[m + 1], Occurrences(books[n].fires, id), id) {
      MoveFires(books, ticks, m, n, id);
    }
    RunInCadence(books, ticks, n, id, first, interval, latest);
    var ats := Occurrences(books[n].fires, id);
    if ats != [] {
      var k := |ats| - 1;
      Spaced(ats, first, interval, latest, k);
      AtMost(k, latest - first, interval);
    }
  }

  lemma AtMost(k: nat, span: int, interval: nat)
    requires interval > 0 && k * interval <= span
    ensures k <= span / interval
  {
    var q := span / interval;
    assert span == q * interval + span % interval;
    assert (q + 1) * interval == q * interval + interval;
    if k > q { Scaled(q + 1, k, interval); }
  }

  /**
   * A tick that fires a schedule leaves it not due at any time up to that tick's: one run, however many were missed,
   * and one there is if the expression is accepted.
   */
  lemma OneRunPerTick(b: Book, id: Id, now: int, earlier: int)
    requires Due(b, id, now) && TickOne(b, id, now).Some? && earlier <= now
    ensures !Due(TickOne(b, id, now).value, id, earlier)
    ensures Interval(Expression(b, id)).Some? ==>
              Fire(b.schedules[id].tenant, id, b.schedules[id].nextRunAt.value) in TickOne(b, id, now).value.fires
  {
    hide Interval, NextRunAt;
    var interval := Interval(Expression(b, id));
    if interval.Some? { NextIsLeast(b.schedules[id].nextRunAt.value, now, interval.value); }
  }

  /** No key is ever inserted twice, even if a schedule is set back. */
  lemma {:induction false} KeysOnce(b: Book, ids: seq<Id>, now: int)
    requires AllDue(b, ids, now) && Ticked(b, ids, now).Some? && Once(b.fires)
    ensures var fires := Ticked(b, ids, now).value.fires;
      b.fires <= fires && Once(fires)
    decreases |ids|
  {
    hide Interval, NextRunAt;
    if ids != [] { AllDueRest(b, ids, now); KeysOnce(TickOne(b, ids[0], now).value, ids[1..], now); }
  }
}
