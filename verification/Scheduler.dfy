/** The scheduler: interval schedules, and the tick that turns due schedules into runs. Times are whole milliseconds. */
module Scheduler {
  import Lexer
  import opened Sequences
  import opened Options
  import Texts

  // ---- schedule expressions and the next occurrence -------------------------------------------------

  const MAX_SAFE_INTEGER: int := 9_007_199_254_740_991
  /** The last time a date can hold. */
  const MAX_DATE: int := 8_640_000_000_000_000

  function UnitMilliseconds(c: char): nat
  {
    match Texts.Lower(c)
    case 's' => 1_000
    case 'm' => 60_000
    case 'h' => 3_600_000
    case 'd' => 86_400_000
    case _ => 0
  }

  /** The interval an expression names, in milliseconds, if it is one the scheduler accepts. */
  function Interval(expression: string): (r: Option<nat>)
    ensures r.Some? ==> 0 < r.value <= MAX_SAFE_INTEGER
  {
    var s := Texts.Trim(expression);
    if |s| < 11 || Texts.LowerAll(s[..9]) != "interval:" || UnitMilliseconds(s[|s| - 1]) == 0
       || (exists i :: 9 <= i < |s| - 1 && !Lexer.IsDigit(s[i])) then None
    else
      var interval := Lexer.WholeValue(s[9..|s| - 1]) * UnitMilliseconds(s[|s| - 1]);
      if 0 < interval <= MAX_SAFE_INTEGER then Some(interval) else None
  }

  /**
   * The expression reads, blanks around it aside, as the word in any case, digits and one of the four units in any
   * case.
   */
  predicate Reads(expression: string, word: string, digits: string, unit: char)
  {
    && Texts.Trim(expression) == word + digits + [unit]
    && Texts.LowerAll(word) == "interval:" && Texts.AllDigits(digits) && Texts.Lower(unit) in {'s', 'm', 'h', 'd'}
  }

  /** Seconds, minutes, hours and days. */
  function SecondsIn(unit: char): nat
  {
    if unit in {'s', 'S'} then 1 else if unit in {'m', 'M'} then 60 else if unit in {'h', 'H'} then 60 * 60
    else 24 * 60 * 60
  }

  /** What is accepted, and the interval it names: a positive number of units that is a safe integer of milliseconds. */
  ghost predicate Means(expression: string, digits: string, unit: char, interval: nat)
  {
    && (exists word :: Reads(expression, word, digits, unit))
    && interval == Lexer.WholeValue(digits) * (1_000 * SecondsIn(unit)) && 0 < interval <= MAX_SAFE_INTEGER
  }

  lemma UnitsAgree(unit: char)
    requires Texts.Lower(unit) in {'s', 'm', 'h', 'd'}
    ensures UnitMilliseconds(unit) == 1_000 * SecondsIn(unit)
  {
  }

  lemma IntervalExactly(expression: string, interval: nat)
    ensures Interval(expression) == Some(interval) <==> exists digits, unit :: Means(expression, digits, unit, interval)
  {
    var s := Texts.Trim(expression);
    if Interval(expression) == Some(interval) {
      var word, digits, unit := s[..9], s[9..|s| - 1], s[|s| - 1];
      assert s == word + digits + [unit];
      assert Reads(expression, word, digits, unit);
      UnitsAgree(unit);
      assert Means(expression, digits, unit, interval);
    }
    if exists digits, unit :: Means(expression, digits, unit, interval) {
      var digits, unit :| Means(expression, digits, unit, interval);
      var word :| Reads(expression, word, digits, unit);
      UnitsAgree(unit);
      assert |word| == |Texts.LowerAll(word)| == 9;
      assert s[..9] == word && s[9..|s| - 1] == digits && s[|s| - 1] == unit;
      assert forall i :: 9 <= i < |s| - 1 ==> s[i] == digits[i - 9];
    }
  }

  function NextRunAt(at: int, now: int, interval: nat): int
    requires interval > 0
  {
    var elapsed := (now - at) / interval + 1;
    at + (if elapsed < 1 then 1 else elapsed) * interval
  }

  /** The next occurrence is on the grid, after the last one and after now, and the first such. */
  lemma NextIsLeast(at: int, now: int, interval: nat)
    requires interval > 0
    ensures exists n :: n > 0 && NextRunAt(at, now, interval) == at + n * interval
    ensures NextRunAt(at, now, interval) > at && NextRunAt(at, now, interval) > now
    ensures forall k: int :: at + k * interval > at && at + k * interval > now ==>
            NextRunAt(at, now, interval) <= at + k * interval
  {
    var q := (now - at) / interval;
    var n := if q + 1 < 1 then 1 else q + 1;
    assert now - at == q * interval + (now - at) % interval;
    assert NextRunAt(at, now, interval) == at + n * interval;
    forall k: int | at + k * interval > at && at + k * interval > now ensures at + n * interval <= at + k * interval {
      assert k > 0 by { if k <= 0 { Scaled(k, 0, interval); } }
      assert k > q by { if k <= q { Scaled(k, q, interval); } }
      Scaled(n, k, interval);
    }
    Scaled(1, n, interval);
    Scaled(q + 1, n, interval);
  }

  lemma Scaled(a: int, b: int, n: nat)
    requires a <= b
    ensures a * n <= b * n
  {
  }

  // ---- the tick -----------------------------------------------------------------------------------------

  type Id = nat

  datatype Schedule = Schedule(
    tenant: string, code: string, expression: Option<string>, enabled: bool,
    nextRunAt: Option<int>, lastRunAt: Option<int>, createdAt: int)

  datatype Definition = Definition(enabled: bool, defaultSchedule: Option<string>)

  /** A run of a schedule. Tenant, schedule and occurrence make up its idempotency key. */
  datatype Fire = Fire(tenant: string, schedule: Id, at: int)

  datatype Book = Book(schedules: map<Id, Schedule>, definitions: map<string, Definition>, fires: seq<Fire>)

  predicate Due(b: Book, id: Id, now: int)
  {
    id in b.schedules && b.schedules[id].code in b.definitions
    && b.schedules[id].enabled && b.definitions[b.schedules[id].code].enabled
    && b.schedules[id].nextRunAt.Some? && b.schedules[id].nextRunAt.value <= now
  }

  /** The schedule's own expression, or else its job's default; an empty one counts as none. */
  function Expression(b: Book, id: Id): string
    requires id in b.schedules && b.schedules[id].code in b.definitions
  {
    var own := b.schedules[id].expression;
    var other := b.definitions[b.schedules[id].code].defaultSchedule;
    if own.Some? && own.value != "" then own.value else if other.Some? then other.value else ""
  }

  function Disabled(b: Book, id: Id): Book
    requires id in b.schedules
  {
    b.(schedules := b.schedules[id := b.schedules[id].(enabled := false)])
  }

  /** The run is inserted unless its key exists. */
  function Inserted(fires: seq<Fire>, fire: Fire): seq<Fire> { if fire in fires then fires else fires + [fire] }

  function Fired(b: Book, id: Id, at: int, next: int): Book
    requires id in b.schedules
  {
    b.(fires := Inserted(b.fires, Fire(b.schedules[id].tenant, id, at)),
       schedules := b.schedules[id := b.schedules[id].(lastRunAt := Some(at), nextRunAt := Some(next))])
  }

  /** One due schedule; none if its next occurrence is not a date, which the database refuses. */
  function TickOne(b: Book, id: Id, now: int): Option<Book>
    requires Due(b, id, now)
  {
    var interval := Interval(Expression(b, id));
    var at := b.schedules[id].nextRunAt.value;
    if interval.None? then Some(Disabled(b, id))
    else if NextRunAt(at, now, interval.value) > MAX_DATE then None
    else Some(Fired(b, id, at, NextRunAt(at, now, interval.value)))
  }

  predicate NoLater(b: Book, i: Id, j: Id)
  {
    && i in b.schedules && j in b.schedules && b.schedules[i].nextRunAt.Some? && b.schedules[j].nextRunAt.Some?
    && (b.schedules[i].nextRunAt.value < b.schedules[j].nextRunAt.value
        || (b.schedules[i].nextRunAt == b.schedules[j].nextRunAt &&
            b.schedules[i].createdAt <= b.schedules[j].createdAt))
  }

  predicate Eligible(b: Book, id: Id, now: int, tenant: Option<string>) {
    Due(b, id, now) && (tenant.Some? ==> b.schedules[id].tenant == tenant.value)
  }

  /** What the selection returns: due schedules, earliest first up to the limit, skipping locked ones, each once. */
  ghost predicate Choice(b: Book, now: int, limit: nat, tenant: Option<string>, locked: set<Id>, ids: seq<Id>)
  {
    && Once(ids) && |ids| <= limit
    && (forall id :: id in ids ==> id !in locked && Eligible(b, id, now, tenant))
    && (forall i, j :: 0 <= i < j < |ids| ==> NoLater(b, ids[i], ids[j]))
    && (forall other :: Eligible(b, other, now, tenant) && other !in ids && other !in locked ==>
          |ids| == limit && forall id :: id in ids ==> NoLater(b, id, other))
  }

  lemma TickOneKeepsDue(b: Book, id: Id, other: Id, now: int)
    requires Due(b, id, now) && other != id && TickOne(b, id, now).Some?
    ensures Due(TickOne(b, id, now).value, other, now) <==> Due(b, other, now)
  {
    hide Interval, NextRunAt;
  }

  ghost predicate AllDue(b: Book, ids: seq<Id>, now: int) { Once(ids) && forall id :: id in ids ==> Due(b, id, now) }

  lemma AllDueRest(b: Book, ids: seq<Id>, now: int)
    requires AllDue(b, ids, now) && ids != [] && TickOne(b, ids[0], now).Some?
    ensures AllDue(TickOne(b, ids[0], now).value, ids[1..], now)
  {
    hide Due, TickOne;
    forall id | id in ids[1..] ensures Due(TickOne(b, ids[0], now).value, id, now) {
      TickOneKeepsDue(b, ids[0], id, now);
    }
  }

  /** The book after the due schedules in turn; none if one of them is refused. */
  ghost function Ticked(b: Book, ids: seq<Id>, now: int): Option<Book>
    requires AllDue(b, ids, now)
    decreases |ids|
  {
    if ids == [] then Some(b)
    else if TickOne(b, ids[0], now).None? then None
    else AllDueRest(b, ids, now); Ticked(TickOne(b, ids[0], now).value, ids[1..], now)
  }

  /** The run that a due schedule is to have, by its key. */
  function RunOf(b: Book, id: Id): Fire
    requires id in b.schedules && b.schedules[id].nextRunAt.Some?
  {
    Fire(b.schedules[id].tenant, id, b.schedules[id].nextRunAt.value)
  }

  /** Those of the schedules taken up whose expression is accepted and whose run there is not yet. */
  ghost function Missing(b: Book, ids: seq<Id>, now: int): set<Id>
    requires AllDue(b, ids, now)
  {
    set id | id in ids && Interval(Expression(b, id)).Some? && RunOf(b, id) !in b.fires
  }

  /** Those whose expression is not accepted. */
  ghost function Invalid(b: Book, ids: seq<Id>, now: int): set<Id>
    requires AllDue(b, ids, now)
  {
    set id | id in ids && Interval(Expression(b, id)).None?
  }

  lemma OtherKept(b: Book, id: Id, other: Id, now: int)
    requires Due(b, id, now) && Due(b, other, now) && other != id && TickOne(b, id, now).Some?
    ensures var next := TickOne(b, id, now).value;
      && Due(next, other, now) && next.schedules[other] == b.schedules[other] && next.definitions == b.definitions
      && Expression(next, other) == Expression(b, other) &&
          (RunOf(b, other) in next.fires <==> RunOf(b, other) in b.fires)
  {
    hide Interval, NextRunAt;
  }

  lemma MissingOn(b: Book, ids: seq<Id>, now: int)
    requires AllDue(b, ids, now) && ids != [] && TickOne(b, ids[0], now).Some?
    ensures AllDue(TickOne(b, ids[0], now).value, ids[1..], now)
    ensures Missing(TickOne(b, ids[0], now).value, ids[1..], now) == Missing(b, ids, now) - {ids[0]}
    ensures Invalid(TickOne(b, ids[0], now).value, ids[1..], now) == Invalid(b, ids, now) - {ids[0]}
  {
    AllDueRest(b, ids, now);
    hide Interval, TickOne, Due, Expression;
    assert forall other :: other in ids <==> other == ids[0] || other in ids[1..];
    forall other | other in ids[1..] ensures other != ids[0] {}
    var next := TickOne(b, ids[0], now).value;
    forall other | other in ids[1..]
      ensures Due(next, other, now) && Due(b, other, now)
      ensures Expression(next, other) == Expression(b, other) && RunOf(next, other) == RunOf(b, other)
      ensures RunOf(next, other) in next.fires <==> RunOf(b, other) in b.fires
    {
      OtherKept(b, ids[0], other, now);
    }
  }

  lemma OneFired(b: Book, id: Id, now: int)
    requires Due(b, id, now) && TickOne(b, id, now).Some?
    ensures |TickOne(b, id, now).value.fires| == |b.fires|
      + if Interval(Expression(b, id)).Some? && RunOf(b, id) !in b.fires then 1 else 0
  {
    hide Interval, NextRunAt;
  }

  /** One schedule on: what is taken up first is no longer missing or invalid, and the rest is as it was. */
  lemma OneOn(b: Book, ids: seq<Id>, now: int)
    requires AllDue(b, ids, now) && ids != [] && TickOne(b, ids[0], now).Some?
    ensures var next := TickOne(b, ids[0], now).value;
      && AllDue(next, ids[1..], now)
      && |next.fires| == |b.fires| + |Missing(b, ids, now)| - |Missing(next, ids[1..], now)|
      && |Invalid(next, ids[1..], now)| + (if Interval(Expression(b, ids[0])).None? then 1 else 0)
        == |Invalid(b, ids, now)|
  {
    hide Interval, TickOne, Expression;
    MissingOn(b, ids, now);
    OneFired(b, ids[0], now);
    assert ids[0] in Missing(b, ids, now)
      <==> Interval(Expression(b, ids[0])).Some? && RunOf(b, ids[0]) !in b.fires;
    assert ids[0] in Invalid(b, ids, now) <==> Interval(Expression(b, ids[0])).None?;
  }

  datatype TickResult = TickResult(schedulesClaimed: nat, runsCreated: nat, invalidSchedules: nat)

  class SchedulerStore {
    var book: Book

    constructor (book: Book)
      ensures this.book == book
    {
      this.book := book;
    }

    /**
     * One tick, a single transaction: it works on its own copy of the book, and if a statement is refused or the
     * commit fails then nothing has changed.
     */
    method RunSchedulerTick(now: int, limit: nat, tenant: Option<string>, locked: set<Id>, due: seq<Id>, commits: bool)
      returns (thrown: bool, result: TickResult)
      requires Choice(book, now, limit, tenant, locked, due)
      modifies this
      ensures AllDue(old(book), due, now)
      ensures thrown <==> !commits || Ticked(old(book), due, now).None?
      ensures book == if thrown then old(book) else Ticked(old(book), due, now).value
      ensures !thrown ==> result.schedulesClaimed == |due| && result.runsCreated == |Missing(old(book), due, now)|
      ensures !thrown ==> result.invalidSchedules == |Invalid(old(book), due, now)|
    {
      hide Interval, NextRunAt, Due, Choice, TickOne;
      assert AllDue(book, due, now) by { ChoiceDue(book, now, limit, tenant, locked, due); }
      result := TickResult(0, 0, 0);
      var b := book;
      var i: nat, created: nat, invalid: nat := 0, 0, 0;
      while i < |due|
        invariant 0 <= i <= |due| && book == old(book)
        invariant AllDue(b, due[i..], now)
        invariant Ticked(book, due, now) == Ticked(b, due[i..], now)
        invariant created + |Missing(b, due[i..], now)| == |Missing(book, due, now)|
        invariant invalid + |Invalid(b, due[i..], now)| == |Invalid(book, due, now)|
      {
        var id := due[i];
        assert due[i..][0] == id && due[i..][1..] == due[i + 1..];
        assert Due(b, id, now);
        var next, ran, refused := TickedOne(b, id, now);
        if next.None? { return true, result; }
        AllDueRest(b, due[i..], now);
        OneOn(b, due[i..], now);
        created, invalid := created + ran, invalid + refused;
        b := next.value;
        i := i + 1;
      }
      if !commits { return true, result; }
      book := b;
      return false, TickResult(|due|, created, invalid);
    }

    /** The body of the loop: what becomes of the book, and how many runs were inserted and schedules disabled. */
    static method TickedOne(b: Book, id: Id, now: int) returns (next: Option<Book>, ran: nat, refused: nat)
      requires Due(b, id, now)
      ensures next == TickOne(b, id, now) && (next.Some? ==> |next.value.fires| == |b.fires| + ran)
      ensures ran == (if Interval(Expression(b, id)).Some? && RunOf(b, id) !in b.fires then 1 else 0)
      ensures refused == (if Interval(Expression(b, id)).None? then 1 else 0)
    {
      hide Interval, NextRunAt;
      var schedule := b.schedules[id];
      var interval := Interval(Expression(b, id));
      var at := schedule.nextRunAt.value;
      if interval.None? { return Some(b.(schedules := b.schedules[id := schedule.(enabled := false)])), 0, 1; }
      var nextRunAt := NextRunAt(at, now, interval.value);
      var fires := b.fires;
      if Fire(schedule.tenant, id, at) !in fires {
        fires, ran := fires + [Fire(schedule.tenant, id, at)], 1;
      } else {
        ran := 0;
      }
      refused := 0;
      if nextRunAt > MAX_DATE { return None, ran, refused; }
      var moved := schedule.(lastRunAt := Some(at), nextRunAt := Some(nextRunAt));
      next := Some(b.(fires := fires, schedules := b.schedules[id := moved]));
    }
  }

  lemma ChoiceDue(b: Book, now: int, limit: nat, tenant: Option<string>, locked: set<Id>, ids: seq<Id>)
    requires Choice(b, now, limit, tenant, locked, ids)
    ensures AllDue(b, ids, now)
  {
  }

  // ---- main results ---------------------------------------------------------------------------------------

  /** The next occurrence of a due schedule is out of the range of dates. */
  predicate Refused(b: Book, id: Id, now: int)
  {
    && Due(b, id, now) && Interval(Expression(b, id)).Some?
    && NextRunAt(b.schedules[id].nextRunAt.value, now, Interval(Expression(b, id)).value) > MAX_DATE
  }

  /**
   * A tick goes through exactly if none of the schedules it takes up is refused: one that is holds up all the others.
   */
  lemma {:induction false} TickGoesThroughExactly(b: Book, ids: seq<Id>, now: int)
    requires AllDue(b, ids, now)
    ensures Ticked(b, ids, now).Some? <==> forall i :: 0 <= i < |ids| ==> !Refused(b, ids[i], now)
    decreases |ids|
  {
    hide Interval, NextRunAt;
    if ids != [] && TickOne(b, ids[0], now).Some? {
      AllDueRest(b, ids, now);
      var next := TickOne(b, ids[0], now).value;
      TickGoesThroughExactly(next, ids[1..], now);
      forall i | 1 <= i < |ids| ensures Refused(b, ids[i], now) <==> Refused(next, ids[1..][i - 1], now) {
        TickOneKeepsDue(b, ids[0], ids[i], now);
      }
      assert forall i :: 0 <= i < |ids[1..]| ==> ids[1..][i] == ids[i + 1];
    }
  }

  lemma LastDigit(w: string, c: char)
    requires Lexer.IsDigit(c)
    ensures Lexer.WholeValue(w + [c]) == 10 * Lexer.WholeValue(w) + (c as nat - '0' as nat)
  {
    assert (w + [c])[..|w|] == w;
  }

  lemma HundredMillion()
    ensures Lexer.WholeValue("100000000") == 100_000_000
  {
    hide Lexer.WholeValue;
    assert Lexer.WholeValue("") == 0 by { NoDigits(); }
    LastDigit("", '1');
    LastDigit("1", '0');
    LastDigit("10", '0');
    LastDigit("100", '0');
    LastDigit("1000", '0');
    LastDigit("10000", '0');
    LastDigit("100000", '0');
    LastDigit("1000000", '0');
    LastDigit("10000000", '0');
    assert "" + ['1'] == "1" && "1" + ['0'] == "10" && "10" + ['0'] == "100" && "100" + ['0'] == "1000";
    assert "1000" + ['0'] == "10000" && "10000" + ['0'] == "100000" && "100000" + ['0'] == "1000000";
    assert "1000000" + ['0'] == "10000000" && "10000000" + ['0'] == "100000000";
  }

  lemma NoDigits()
    ensures Lexer.WholeValue("") == 0
  {
  }

  lemma Accepted(digits: string, unit: char)
    requires Texts.AllDigits(digits) && Texts.Lower(unit) in {'s', 'm', 'h', 'd'}
    requires 0 < Lexer.WholeValue(digits) * UnitMilliseconds(unit) <= MAX_SAFE_INTEGER
    ensures Interval("interval:" + digits + [unit]) == Some(Lexer.WholeValue(digits) * UnitMilliseconds(unit))
  {
    hide Interval, Lexer.WholeValue;
    var s := "interval:" + digits + [unit];
    assert s[0] == 'i' && s[|s| - 1] == unit;
    assert Texts.TrimStart(s) == s && Texts.TrimEnd(s) == s;
    assert Texts.LowerAll("interval:") == "interval:";
    assert Reads(s, "interval:", digits, unit);
    UnitsAgree(unit);
    assert Means(s, digits, unit, Lexer.WholeValue(digits) * UnitMilliseconds(unit));
    IntervalExactly(s, Lexer.WholeValue(digits) * UnitMilliseconds(unit));
  }

  /** A hundred million days are an interval that is accepted. */
  lemma LongIntervalAccepted()
    ensures Interval("interval:100000000d") == Some(MAX_DATE)
  {
    hide Interval, Lexer.WholeValue;
    HundredMillion();
    Accepted("100000000", 'd');
    assert "interval:" + "100000000" + ['d'] == "interval:100000000d";
  }

  /** So a schedule with an accepted expression can be refused: it is due, and its next occurrence is not a date. */
  lemma AcceptedYetRefused(b: Book, id: Id, now: int)
    requires Due(b, id, now) && Expression(b, id) == "interval:100000000d" && b.schedules[id].nextRunAt.value > 0
    ensures Refused(b, id, now) && TickOne(b, id, now) == None
  {
    LongIntervalAccepted();
    hide Interval, NextRunAt;
    NextIsLeast(b.schedules[id].nextRunAt.value, now, MAX_DATE);
    var at := b.schedules[id].nextRunAt.value;
    var n :| n > 0 && NextRunAt(at, now, MAX_DATE) == at + n * MAX_DATE;
  }

  /** A tick, in the year 2023, that does nothing for a schedule in good order because of one that is refused. */
  lemma RefusalHoldsUpOthers() returns (b: Book, now: int)
    ensures AllDue(b, [0, 1], now) && Due(b, 1, now) && Interval(Expression(b, 1)).Some? && !Refused(b, 1, now)
    ensures Refused(b, 0, now) && Ticked(b, [0, 1], now) == None && Ticked(b, [1], now).Some?
  {
    now := 1_700_000_000_000;
    var late := Schedule("t", "job", Some("interval:100000000d"), true, Some(now), None, 0);
    var daily := Schedule("t", "job", Some("interval:1d"), true, Some(now), None, 0);
    b := Book(map[0 := late, 1 := daily], map["job" := Definition(true, None)], []);
    DailyAccepted();
    hide Interval, NextRunAt;
    AcceptedYetRefused(b, 0, now);
    assert NextRunAt(now, now, 86_400_000) <= MAX_DATE by { DailyNext(now); }
    TickGoesThroughExactly(b, [1], now);
    TickGoesThroughExactly(b, [0, 1], now);
    assert [0, 1][0] == 0;
  }

  lemma DigitOne()
    ensures Texts.AllDigits("1") && Lexer.WholeValue("1") == 1
  {
    LastDigit("", '1');
    assert "" + ['1'] == "1";
  }

  lemma DailyAccepted()
    ensures Interval("interval:1d") == Some(86_400_000)
  {
    hide Interval, Lexer.WholeValue, Texts.AllDigits;
    DigitOne();
    Accepted("1", 'd');
    assert "interval:" + "1" + ['d'] == "interval:1d";
  }

  lemma DailyNext(now: int)
    ensures NextRunAt(now, now, 86_400_000) == now + 86_400_000
  {
  }

  /** A refused schedule is refused at every later tick too. */
  lemma RefusedForEver(b: Book, id: Id, now: int, later: int)
    requires Refused(b, id, now) && now <= later
    ensures Refused(b, id, later)
  {
    hide Interval;
    var at, interval := b.schedules[id].nextRunAt.value, Interval(Expression(b, id)).value;
    hide NextRunAt;
    NextIsLeast(at, now, interval);
    NextIsLeast(at, later, interval);
    var n :| n > 0 && NextRunAt(at, later, interval) == at + n * interval;
    assert at + n * interval > at && at + n * interval > now;
  }
}
