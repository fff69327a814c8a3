/** The part of Go's `time` package the metadata code relies on: building an instant from
    seconds and nanoseconds, the zero instant, and the strict "after" order. */
module Timestamp {

  const NanosPerSecond: int := 1000000000

  /** An instant as seconds since the Unix epoch plus a nanosecond offset. */
  datatype Time = Time(sec: int, nsec: int)

  /** The shape `time.Unix` always produces: the nanosecond part is below one second. */
  predicate Normalized(t: Time) {
    0 <= t.nsec < NanosPerSecond
  }

  /** Nanoseconds since the Unix epoch; the single number an instant stands for. */
  function Nanos(t: Time): int {
    t.sec * NanosPerSecond + t.nsec
  }

  /** Go's zero `time.Time`: January 1 of year 1, 00:00:00 UTC, in Unix seconds. */
  const Zero: Time := Time(-62135596800, 0)

  /** Go's integer division, which truncates toward zero (Dafny's `/` is Euclidean). */
  function GoDiv(a: int, b: int): (q: int)
    requires b > 0
    ensures a >= 0 ==> 0 <= a - q * b < b
    ensures a < 0 ==> -b < a - q * b <= 0
  {
    if a >= 0 then a / b else -((-a) / b)
  }

  /** `time.Unix(sec, nsec)`: a nanosecond count outside [0, 1e9) is carried into the seconds,
      with the same steps as the Go library (truncating division, then one correction). */
  function Unix(sec: int, nsec: int): (t: Time)
    ensures Normalized(t)
    ensures Nanos(t) == sec * NanosPerSecond + nsec
  {
    if 0 <= nsec < NanosPerSecond then Time(sec, nsec)
    else
      var n := GoDiv(nsec, NanosPerSecond);
      var s := sec + n;
      var ns := nsec - n * NanosPerSecond;
      if ns < 0 then Time(s - 1, ns + NanosPerSecond) else Time(s, ns)
  }

  /** `t.After(u)`: compares seconds first, then nanoseconds. */
  predicate After(t: Time, u: Time) {
    t.sec > u.sec || (t.sec == u.sec && t.nsec > u.nsec)
  }

  /** On normalized instants, `After` is exactly "later on the nanosecond time line". */
  lemma AfterIsLater(t: Time, u: Time)
    requires Normalized(t) && Normalized(u)
    ensures After(t, u) <==> Nanos(t) > Nanos(u)
  {
  }

  /** Go's `int64(x)` conversion of a float: truncation toward zero. */
  function Truncate(x: real): (n: int)
    ensures x >= 0.0 ==> n as real <= x < n as real + 1.0
    ensures x < 0.0 ==> n as real - 1.0 < x <= n as real
  {
    if x >= 0.0 then x.Floor else -((-x).Floor)
  }

  lemma FloorShift(n: int, x: real)
    ensures (n as real + x).Floor == n + x.Floor
  {
  }

  /** The metadata timestamp decoding: whole seconds by `math.Floor`, the fraction scaled to
      nanoseconds and truncated, both handed to `time.Unix`. */
  function FromSeconds(ts: real): (t: Time)
    ensures Normalized(t)
    ensures t.sec == ts.Floor
    ensures Nanos(t) == (ts * 1000000000.0).Floor
  {
    var sec := ts.Floor;
    var frac := ts - sec as real;
    var nsec := Truncate(frac * 1000000000.0);
    FloorShift(sec * NanosPerSecond, frac * 1000000000.0);
    assert ts * 1000000000.0 == (sec * NanosPerSecond) as real + frac * 1000000000.0;
    Unix(sec, nsec)
  }

  /** A fractional second is split by flooring, not rounding: 1000.5 s is 500 ms past second 1000. */
  lemma FromSecondsHalf()
    ensures FromSeconds(1000.5) == Time(1000, 500000000)
  {
  }

  /** Decoding preserves order: a later timestamp never decodes to an earlier instant, and an
      instant decoded strictly after another came from a strictly larger timestamp. */
  lemma FromSecondsMonotone(a: real, b: real)
    ensures a <= b ==> !After(FromSeconds(a), FromSeconds(b))
    ensures a <= b ==> Nanos(FromSeconds(a)) <= Nanos(FromSeconds(b))
  {
  }

  /** A timestamp decodes to an instant after Go's zero time exactly when it is at least one
      nanosecond past it: anything closer truncates back onto the zero time. */
  lemma FromSecondsAfterZero(ts: real)
    ensures After(FromSeconds(ts), Zero) <==> ts >= -62135596800.0 + 0.000000001
  {
  }
}
