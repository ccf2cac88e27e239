/** Deadlines on a fixed grid. Instants are counted in nanoseconds from the earliest one the platform can
    represent: signed 64-bit seconds and a nanosecond part. */
module Timer {
  import opened Wrappers
  import opened Measure

  const NANOS: int := 1_000_000_000
  const TWO_TO_THE_128: int := TWO_TO_THE_64 * TWO_TO_THE_64

  /** Every instant is below this. */
  const END_OF_TIME: int := TWO_TO_THE_64 * NANOS

  datatype Duration = Duration(secs: nat, nanos: nat)

  predicate IsDuration(d: Duration) {
    d.secs < TWO_TO_THE_64 && d.nanos < NANOS
  }

  /** A period, which is never zero. */
  predicate IsPeriod(d: Duration) {
    IsDuration(d) && (d.secs > 0 || d.nanos > 0)
  }

  predicate IsInstant(t: int) {
    0 <= t < END_OF_TIME
  }

  function Nanos(d: Duration): (n: nat)
    ensures IsPeriod(d) ==> n > 0
  {
    d.secs * NANOS + d.nanos
  }

  function CheckedAdd(t: int, nanos: nat): Option<int> {
    if t + nanos < END_OF_TIME then Some(t + nanos) else None
  }

  /** Where the first grid point after `now` falls, counted in periods. */
  function Tick(start: int, period: nat, now: int): (n: nat)
    requires period > 0
    ensures n >= 1
  {
    (if now < start then 0 else now - start) / period + 1
  }

  // ---------------------------------------------------------------- the arithmetic

  lemma MulMono(a: nat, b: nat, c: nat, d: nat)
    requires a <= c && b <= d
    ensures a * b <= c * d
  {
    assert c * d - a * b == (c - a) * d + a * (d - b);
    assert (c - a) * d >= 0 && a * (d - b) >= 0;
  }

  /** The tick's distance from now: strictly ahead, and by at most a period once the grid has started; before, it is the
      first after the start. */
  lemma TickIsNext(start: int, period: nat, now: int)
    requires period > 0
    ensures now < start + period * Tick(start, period, now)
    ensures now >= start ==> start + period * (Tick(start, period, now) - 1) <= now
    ensures now < start ==> Tick(start, period, now) == 1
  {
    if now >= start {
      var elapsed := now - start;
      assert elapsed == period * (elapsed / period) + elapsed % period;
      assert Tick(start, period, now) - 1 == elapsed / period;
      assert period * Tick(start, period, now) == period * (elapsed / period) + period;
    }
  }

  lemma TickIsSmall(start: int, period: nat, now: int)
    requires period > 0 && IsInstant(start) && IsInstant(now)
    ensures Tick(start, period, now) <= END_OF_TIME
  {
    var elapsed := if now < start then 0 else now - start;
    assert elapsed == period * (elapsed / period) + elapsed % period;
    MulMono(1, elapsed / period, period, elapsed / period);
  }

  /** The product that is not checked cannot overflow 128 bits. */
  lemma ProductFits(period: Duration, n: nat)
    requires IsDuration(period) && n <= END_OF_TIME
    ensures period.nanos * n < TWO_TO_THE_128
  {
    MulMono(period.nanos, n, NANOS, END_OF_TIME);
  }

  /** Seconds and carried nanoseconds make up the whole product. */
  lemma ProductSplits(period: Duration, n: nat)
    ensures Nanos(period) * n == (period.secs * n + period.nanos * n / NANOS) * NANOS + period.nanos * n % NANOS
  {
    var low := period.nanos * n;
    assert low == low / NANOS * NANOS + low % NANOS;
    assert Nanos(period) * n == period.secs * NANOS * n + period.nanos * n;
    assert period.secs * NANOS * n == period.secs * n * NANOS;
  }

  /** The deadline a timer moves to. */
  function NextDeadline(start: int, period: nat, now: int): int
    requires period > 0
  {
    var tick := CheckedAdd(start, period * Tick(start, period, now));
    if tick.Some? then tick.value else if now + period < END_OF_TIME then now + period else now
  }

  ghost predicate OnGrid(start: int, period: nat, t: int) {
    exists n: nat :: t == start + period * n
  }

  /** While the next grid point can be represented, the deadline is that point: after now, and by at most a
      period once the grid has started. */
  lemma NextIsOnGrid(start: int, period: nat, now: int)
    requires period > 0 && start + period * Tick(start, period, now) < END_OF_TIME
    ensures var next := NextDeadline(start, period, now);
            && OnGrid(start, period, next) && now < next
            && (now >= start ==> next <= now + period)
  {
    TickIsNext(start, period, now);
  }

  /** The deadline is later than now exactly when the next grid point or the instant a period from now can be
      represented. Off the grid it is a period from now, or now itself if that cannot be represented; once the grid has
      started, the former is never chosen. */
  lemma NextIsLaterIff(start: int, period: nat, now: int)
    requires period > 0 && IsInstant(start) && IsInstant(now)
    ensures now < NextDeadline(start, period, now) <==>
            start + period * Tick(start, period, now) < END_OF_TIME || now + period < END_OF_TIME
    ensures now >= start && now + period < END_OF_TIME ==> start + period * Tick(start, period, now) < END_OF_TIME
    ensures now >= start && start + period * Tick(start, period, now) >= END_OF_TIME ==>
            NextDeadline(start, period, now) == now
    ensures start + period * Tick(start, period, now) >= END_OF_TIME && now + period < END_OF_TIME ==>
            NextDeadline(start, period, now) == now + period
  {
    TickIsNext(start, period, now);
    if now >= start {
      assert period * Tick(start, period, now) == period * (Tick(start, period, now) - 1) + period;
    }
  }

  /** From one grid point to a later one is at least a period. */
  lemma GridSteps(start: int, period: nat, a: int, b: int)
    requires OnGrid(start, period, a) && OnGrid(start, period, b) && a < b
    ensures a + period <= b
  {
    var m: nat :| a == start + period * m;
    var n: nat :| b == start + period * n;
    if n <= m {
      MulMono(period, n, period, m);
    } else {
      MulMono(period, 1, period, n - m);
      assert period * n == period * m + period * (n - m);
    }
  }

  // ---------------------------------------------------------------- the timer

  class GridTimer {
    const start: int
    const period: Duration
    var deadline: int

    ghost predicate Valid()
      reads this
    {
      IsInstant(start) && IsPeriod(period) && IsInstant(deadline)
    }

    constructor (start: int, period: Duration)
      requires IsInstant(start) && IsPeriod(period)
      ensures Valid() && this.start == start && this.period == period && deadline == start
    {
      this.start, this.period, deadline := start, period, start;
    }

    method Due(now: int) returns (r: bool)
      ensures r == (now >= deadline)
    {
      r := now >= deadline;
    }

    method Advance(now: int)
      requires Valid() && IsInstant(now)
      modifies this`deadline
      ensures Valid() && deadline == NextDeadline(start, Nanos(period), now)
      ensures now + Nanos(period) < END_OF_TIME ==>
            now < deadline && (now >= start ==> OnGrid(start, Nanos(period), deadline))
    {
      NextIsLaterIff(start, Nanos(period), now);
      if start + Nanos(period) * Tick(start, Nanos(period), now) < END_OF_TIME {
        NextIsOnGrid(start, Nanos(period), now);
      }
      deadline := Next(now);
    }

    method Next(now: int) returns (r: int)
      requires Valid() && IsInstant(now)
      ensures IsInstant(r) && r == NextDeadline(start, Nanos(period), now)
    {
      var n := (if now < start then 0 else now - start) / Nanos(period) + 1;
      TickIsSmall(start, Nanos(period), now);
      TickIsNext(start, Nanos(period), now);
      var offset := Mul(n);
      var fallback := CheckedAdd(now, Nanos(period));
      r := if fallback.Some? then fallback.value else now;
      if offset.Some? {
        var tick := CheckedAdd(start, Nanos(offset.value));
        if tick.Some? {
          r := tick.value;
        }
      }
    }

    /** Period times `n`, or nothing if its seconds do not fit 64 bits. */
    method Mul(n: nat) returns (r: Option<Duration>)
      requires Valid() && n <= END_OF_TIME
      ensures r.Some? <==> Nanos(period) * n < END_OF_TIME
      ensures r.Some? ==> IsDuration(r.value) && Nanos(r.value) == Nanos(period) * n
    {
      ProductFits(period, n);
      ProductSplits(period, n);
      var nanos := period.nanos * n;
      assert nanos < TWO_TO_THE_128;
      var secs := period.secs * n;
      if secs >= TWO_TO_THE_128 {
        return None;
      }
      secs := secs + nanos / NANOS;
      if secs >= TWO_TO_THE_128 || secs >= TWO_TO_THE_64 {
        return None;
      }
      r := Some(Duration(secs, nanos % NANOS));
    }
  }
}
