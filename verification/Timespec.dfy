/** Time arithmetic on (seconds, nanoseconds) pairs, and the proof that it refines
    plain integer nanoseconds. */
module Timespec {
  const NSECS := 1000000000
  const MSECS := 1000

  datatype Time = Time(sec: int, nsec: int)

  /** What the monotonic clock returns: the nanosecond part is always in range. */
  predicate Normal(t: Time) {
    0 <= t.nsec < NSECS
  }

  type Instant = t: Time | Normal(t) witness Time(0, 0)

  function Nanos(t: Time): int {
    t.sec * NSECS + t.nsec
  }

  /** Division and remainder truncating towards zero, as in C. */
  function TruncDiv(a: int, b: int): int
    requires b > 0
  {
    if a >= 0 then a / b else -(-a / b)
  }

  function TruncMod(a: int, b: int): int
    requires b > 0
  {
    a - b * TruncDiv(a, b)
  }

  function FromInterval(interval: int, units: int): Time
    requires 0 < units <= NSECS
  {
    Time(TruncDiv(interval, units), TruncMod(interval, units) * (NSECS / units))
  }

  function Add(a: Time, b: Time): Time {
    var sec, nsec := a.sec + b.sec, a.nsec + b.nsec;
    if nsec >= NSECS then Time(sec + 1, nsec - NSECS) else Time(sec, nsec)
  }

  function Subtract(a: Time, b: Time): Time {
    var sec, nsec := a.sec - b.sec, a.nsec - b.nsec;
    if nsec < 0 then Time(sec - 1, nsec + NSECS) else Time(sec, nsec)
  }

  predicate Le(a: Time, b: Time) {
    if a.sec < b.sec then true
    else if a.sec > b.sec then false
    else a.nsec <= b.nsec
  }

  predicate Eq(a: Time, b: Time) {
    a.sec == b.sec && a.nsec == b.nsec
  }

  function Earliest(a: Time, b: Time): Time {
    if Le(a, b) then a else b
  }

  /** On normalised times the pair arithmetic is integer arithmetic on nanoseconds, stays
      normalised, and the lexicographic comparison is the comparison of the integers. */
  lemma RefinesNanoseconds(a: Time, b: Time)
    requires Normal(a) && Normal(b)
    ensures Normal(Add(a, b)) && Nanos(Add(a, b)) == Nanos(a) + Nanos(b)
    ensures Normal(Subtract(a, b)) && Nanos(Subtract(a, b)) == Nanos(a) - Nanos(b)
    ensures Le(a, b) <==> Nanos(a) <= Nanos(b)
    ensures Eq(a, b) <==> Nanos(a) == Nanos(b)
    ensures Normal(Earliest(a, b))
    ensures Nanos(Earliest(a, b)) == if Nanos(a) <= Nanos(b) then Nanos(a) else Nanos(b)
  {
  }

  /** A millisecond interval converts to exactly that many nanoseconds, whatever its sign;
      it is normalised exactly when its remainder is not negative. */
  lemma MillisecondsExact(interval: int)
    ensures Nanos(FromInterval(interval, MSECS)) == interval * 1000000
    ensures Normal(FromInterval(interval, MSECS)) <==> (interval >= 0 || interval % MSECS == 0)
  {
  }
}
