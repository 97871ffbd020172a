/** Numeric helpers shared by the editor plugins: the JavaScript `Math` functions the
    source calls, its `%` operator on numbers, `clamp` from utils/numbers, and the
    percentage <-> seconds conversions that the plugins write inline. Seconds and
    percentages are exact reals here. */
module Base {

  datatype Option<T> = None | Some(value: T)

  function Min(a: real, b: real): real { if a <= b then a else b }

  function Max(a: real, b: real): real { if a >= b then a else b }

  /** clamp(x, lo, hi) of utils/numbers, taken as Math.min(Math.max(x, lo), hi). */
  function Clamp(x: real, lo: real, hi: real): (r: real)
    ensures lo <= hi ==> lo <= r <= hi
    ensures lo <= x <= hi ==> r == x
    ensures lo <= hi && x < lo ==> r == lo
    ensures lo <= hi && hi < x ==> r == hi
  {
    Min(Max(x, lo), hi)
  }

  /** Math.trunc: drops the fraction, rounding toward zero. */
  function Trunc(x: real): (n: int)
    ensures 0.0 <= x ==> 0 <= n && n as real <= x < n as real + 1.0
    ensures x < 0.0 ==> n <= 0 && n as real - 1.0 < x <= n as real
  {
    if x >= 0.0 then x.Floor else -((-x).Floor)
  }

  /** Math.round: the nearest integer, halves rounded up. */
  function Round(x: real): (n: int)
    ensures x - 0.5 < n as real <= x + 0.5
  {
    (x + 0.5).Floor
  }

  /** Math.ceil. */
  function Ceil(x: real): (n: int)
    ensures x <= n as real < x + 1.0
  {
    -((-x).Floor)
  }

  /** JavaScript's `x % 60` on numbers (the only remainder the source takes): the
      remainder of the division truncated toward zero, so it has the sign of the
      dividend, unlike Dafny's Euclidean `%`. */
  function Rem60(x: real): (r: real)
    ensures 0.0 <= x ==> 0.0 <= r < 60.0
    ensures x < 0.0 ==> -60.0 < r <= 0.0
    ensures (x - r).Floor as real == x - r && (x - r).Floor % 60 == 0
  {
    var n := Trunc(x / 60.0);
    WholeMinutes(n);
    x - 60.0 * n as real
  }

  /** 60 times a whole number is a whole number that 60 divides. */
  lemma WholeMinutes(n: int)
    ensures (60.0 * n as real).Floor as real == 60.0 * n as real && (60.0 * n as real).Floor % 60 == 0
  {
    assert 60.0 * n as real == (60 * n) as real;
  }

  lemma MulMonotonic(a: real, b: real, c: real)
    requires a <= b && 0.0 <= c
    ensures a * c <= b * c && c * a <= c * b
  {
    assert b * c - a * c == (b - a) * c;
  }

  lemma MulStrict(a: real, b: real, c: real)
    requires a < b && 0.0 < c
    ensures a * c < b * c && c * a < c * b
  {
    assert b * c - a * c == (b - a) * c;
  }

  /** Scaling by a non-negative factor keeps order, for products given by name. */
  lemma ScaledMonotonic(c: real, a: real, b: real, x: real, y: real)
    requires 0.0 <= c && a <= b && x == c * a && y == c * b
    ensures x <= y
  {
    MulMonotonic(a, b, c);
  }

  /** The percentage of the timeline at which `time` lies, as the plugins compute it:
      clamp((100 / duration) * time, 0, 100). */
  function PercentOf(time: real, duration: real): (p: real)
    requires duration > 0.0
    ensures 0.0 <= p <= 100.0
    ensures 0.0 <= time <= duration ==> p * duration == 100.0 * time
    ensures time <= 0.0 ==> p == 0.0
    ensures duration <= time ==> p == 100.0
  {
    Clamp((100.0 / duration) * time, 0.0, 100.0)
  }

  /** The time in seconds at `percentage` of the timeline: duration * (percentage / 100). */
  function TimeAt(duration: real, percentage: real): (t: real)
    requires 0.0 <= duration
    ensures 0.0 <= percentage <= 100.0 ==> 0.0 <= t <= duration
  {
    duration * (percentage / 100.0)
  }

  /** Converting a time inside the media to a percentage and back gives the time again. */
  lemma PercentRoundTrip(time: real, duration: real)
    requires 0.0 < duration && 0.0 <= time <= duration
    ensures TimeAt(duration, PercentOf(time, duration)) == time
  {
    var p := PercentOf(time, duration);
    assert p * duration == 100.0 * time;
  }

  /** Converting a percentage of the timeline to a time and back gives the percentage again. */
  lemma TimeAtRoundTrip(duration: real, percentage: real)
    requires 0.0 < duration && 0.0 <= percentage <= 100.0
    ensures PercentOf(TimeAt(duration, percentage), duration) == percentage
  {
    var t := TimeAt(duration, percentage);
    assert (100.0 / duration) * t == (100.0 / duration) * duration * (percentage / 100.0);
    assert (100.0 / duration) * duration == 100.0;
  }

  /** Math.round is monotonic. */
  lemma RoundMonotonic(x: real, y: real)
    requires x <= y
    ensures Round(x) <= Round(y)
  {
    assert (x + 0.5).Floor as real <= x + 0.5 <= y + 0.5 < (y + 0.5).Floor as real + 1.0;
  }

  /** TimeAt is monotonic in the percentage. */
  lemma TimeAtMonotonic(duration: real, p: real, q: real)
    requires 0.0 <= duration && p <= q
    ensures TimeAt(duration, p) <= TimeAt(duration, q)
  {
    ScaledMonotonic(duration, p / 100.0, q / 100.0, TimeAt(duration, p), TimeAt(duration, q));
  }
}
