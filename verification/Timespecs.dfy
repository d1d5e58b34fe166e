/** Clock arithmetic of the I/O multiplexer: struct timespec values, their
    order, their millisecond alignment and their adjustment after a clock jump. */
module Timespecs {
  const SEC_TO_NSEC := 1_000_000_000
  const MSEC_TO_NSEC := 1_000_000

  datatype Timespec = Timespec(sec: int, nsec: int)

  /** The normal form POSIX asks of a struct timespec. */
  predicate Normal(t: Timespec) {
    0 <= t.nsec < SEC_TO_NSEC
  }

  predicate MsAligned(t: Timespec) {
    t.nsec % MSEC_TO_NSEC == 0
  }

  /** A time the multiplexer keeps: normal and cut to whole milliseconds. */
  predicate Kept(t: Timespec) {
    Normal(t) && MsAligned(t)
  }

  /** An expiry that the timer set can hold: a full second of nanoseconds does no
      harm. */
  predicate Timely(t: Timespec) {
    0 <= t.nsec <= SEC_TO_NSEC && MsAligned(t)
  }

  function Nanos(t: Timespec): int {
    t.sec * SEC_TO_NSEC + t.nsec
  }

  /** C++ integer division, which cuts toward zero. */
  function TruncDiv(a: int, b: int): int
    requires b > 0
  {
    if a >= 0 then a / b else -((-a) / b)
  }

  function Align(t: Timespec): (r: Timespec)
    ensures MsAligned(r)
    ensures Normal(t) ==> Kept(r) && Nanos(t) - MSEC_TO_NSEC < Nanos(r) <= Nanos(t)
    ensures Kept(t) ==> r == t
  {
    t.(nsec := TruncDiv(t.nsec, MSEC_TO_NSEC) * MSEC_TO_NSEC)
  }

  /** timecmp: the order of m_tmrset. */
  predicate Before(x: Timespec, y: Timespec) {
    x.sec < y.sec || (x.sec == y.sec && x.nsec < y.nsec)
  }

  /** The order of the timer set agrees with real time, for a key and every
      clock value. */
  ghost predicate InTime(key: Timespec) {
    forall x | Normal(x) :: Before(x, key) <==> Nanos(x) < Nanos(key)
  }

  lemma OrderIsTime(key: Timespec)
    ensures InTime(key) <==> 0 <= key.nsec <= SEC_TO_NSEC
  {
    var next, last := Timespec(key.sec + 1, 0), Timespec(key.sec - 1, SEC_TO_NSEC - 1);
    if key.nsec > SEC_TO_NSEC {
      assert Normal(next) && !Before(next, key) && Nanos(next) < Nanos(key);
    } else if key.nsec < 0 {
      assert Normal(last) && Before(last, key) && !(Nanos(last) < Nanos(key));
    }
  }

  /** A registered time is cut to milliseconds toward zero before it becomes a
      key.  So the nanoseconds with which it is in time reach almost a
      millisecond beyond either end of a second, and no further: any other
      registration fires too early or too late for some clock. */
  lemma RegisteredInTime(t: Timespec)
    ensures InTime(Align(t)) <==> -MSEC_TO_NSEC < t.nsec < SEC_TO_NSEC + MSEC_TO_NSEC
    ensures Timely(Align(t)) <==> InTime(Align(t))
  {
    OrderIsTime(Align(t));
  }

  /** Two such times stand in their real order. */
  lemma TimelyOrder(x: Timespec, y: Timespec)
    requires Timely(x) && Timely(y) && !Before(y, x)
    ensures Nanos(x) <= Nanos(y)
  {
  }

  /** The amount of a clock jump, split into a direction and a timespec
      (CompensateTimers). */
  function Jump(diff: int): (r: (bool, Timespec))
    ensures Normal(r.1) && r.1.sec >= 0
    ensures diff == if r.0 then Nanos(r.1) else -Nanos(r.1)
    ensures diff % MSEC_TO_NSEC == 0 ==> MsAligned(r.1)
  {
    var size := if diff >= 0 then diff else -diff;
    (diff >= 0, Timespec(size / SEC_TO_NSEC, size % SEC_TO_NSEC))
  }

  lemma WholeSum(x: int, y: int)
    ensures x % MSEC_TO_NSEC == 0 && y % MSEC_TO_NSEC == 0 ==>
      && (x + y) % MSEC_TO_NSEC == 0 && (x + y - SEC_TO_NSEC) % MSEC_TO_NSEC == 0
      && (x - y) % MSEC_TO_NSEC == 0 && (x - y + SEC_TO_NSEC) % MSEC_TO_NSEC == 0
  {
  }

  /** CTimer::compensate. */
  function Shift(t: Timespec, advance: bool, jump: Timespec): (r: Timespec)
    ensures Nanos(r) == if advance then Nanos(t) + Nanos(jump) else Nanos(t) - Nanos(jump)
    ensures Normal(t) && Normal(jump) ==> Normal(r)
    ensures Timely(t) && Kept(jump) ==> Timely(r)
    ensures MsAligned(t) && MsAligned(jump) ==> MsAligned(r)
  {
    WholeSum(t.nsec, jump.nsec);
    if advance then
      var nsec := t.nsec + jump.nsec;
      if nsec >= SEC_TO_NSEC then Timespec(t.sec + 1 + jump.sec, nsec - SEC_TO_NSEC)
      else Timespec(t.sec + jump.sec, nsec)
    else
      var nsec := t.nsec - jump.nsec;
      if nsec < 0 then Timespec(t.sec - 1 - jump.sec, nsec + SEC_TO_NSEC)
      else Timespec(t.sec - jump.sec, nsec)
  }

  /** A jump moves two kept expiries by the same amount, so their order stays. */
  lemma ShiftKeepsOrder(x: Timespec, y: Timespec, diff: int)
    requires Normal(x) && Normal(y)
    ensures var (advance, jump) := Jump(diff);
      Before(Shift(x, advance, jump), Shift(y, advance, jump)) <==> Before(x, y)
  {
  }

  /** The time left until the earliest expiry (the tail of HandleTimers). */
  function Delay(now: Timespec, expiry: Timespec): (r: Timespec)
    ensures Normal(now) && 0 <= expiry.nsec <= SEC_TO_NSEC ==>
      0 <= r.nsec <= SEC_TO_NSEC && Nanos(r) == if Nanos(now) < Nanos(expiry) then Nanos(expiry) - Nanos(now) else 0
    ensures Normal(now) && Normal(expiry) ==> Normal(r)
    ensures MsAligned(now) && MsAligned(expiry) ==> MsAligned(r)
  {
    if Before(now, expiry) then
      var sec, nsec := expiry.sec - now.sec, expiry.nsec - now.nsec;
      if nsec < 0 then Timespec(sec - 1, nsec + SEC_TO_NSEC) else Timespec(sec, nsec)
    else Timespec(0, 0)
  }

  /** Conversion of a long to the int that epoll_wait takes. */
  function ToInt32(n: int): (r: int)
    ensures -0x8000_0000 <= r < 0x8000_0000 && (r - n) % 0x1_0000_0000 == 0
    ensures -0x8000_0000 <= n < 0x8000_0000 ==> r == n
  {
    (n + 0x8000_0000) % 0x1_0000_0000 - 0x8000_0000
  }

  /** epollTimer of MainLoop. */
  function EpollMillis(delay: Timespec): int {
    ToInt32(delay.sec * 1000 + TruncDiv(delay.nsec, MSEC_TO_NSEC))
  }

  /** The timeout given to epoll_wait is the delay to the nanosecond exactly
      when the delay is shorter than 2^31 milliseconds; beyond that the int
      wraps and the sleep is a different one. */
  lemma SleepIsExact(now: Timespec, expiry: Timespec)
    requires Kept(now) && Timely(expiry)
    ensures var wait := if Nanos(now) < Nanos(expiry) then Nanos(expiry) - Nanos(now) else 0;
      EpollMillis(Delay(now, expiry)) * MSEC_TO_NSEC == wait <==> wait < 0x8000_0000 * MSEC_TO_NSEC
  {
  }
}
