/** The exponential backoff of the outbox and of job runs. Times are whole microseconds. */
module Backoff {
  const SECOND: int := 1_000_000

  function PowerOfTwo(n: nat): (r: nat)
    ensures r > 0
  {
    if n == 0 then 1 else 2 * PowerOfTwo(n - 1)
  }

  /** Doubling with every attempt, up to the maximum. */
  function Seconds(attempt: nat, base: nat, maximum: nat): nat
  {
    var value := base * PowerOfTwo(if attempt > 0 then attempt - 1 else 0);
    if value < maximum then value else maximum
  }

  /** Each wait is the double of the one before until the maximum is reached, and the maximum from then on. */
  lemma SecondsDouble(attempt: nat, base: nat, maximum: nat)
    requires attempt > 0
    ensures var wait, next := Seconds(attempt, base, maximum), Seconds(attempt + 1, base, maximum);
      wait <= maximum && next == if 2 * wait < maximum then 2 * wait else maximum
  {
    var power := PowerOfTwo(attempt - 1);
    assert PowerOfTwo(attempt) == 2 * power;
    assert base * (2 * power) == 2 * (base * power);
  }

  /** The first wait is the base, or the maximum if that is less. */
  lemma FirstWait(base: nat, maximum: nat)
    ensures Seconds(0, base, maximum) == Seconds(1, base, maximum) == if base < maximum then base else maximum
  {
    assert PowerOfTwo(0) == 1;
  }

  lemma SecondsPositive(attempt: nat, base: nat, maximum: nat)
    requires base > 0 && maximum > 0
    ensures Seconds(attempt, base, maximum) > 0
  {
    var power := PowerOfTwo(if attempt > 0 then attempt - 1 else 0);
    assert base * power > 0;
  }
}
