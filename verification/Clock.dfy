/**
 `struct timeval` readings and the millisecond arithmetic the event queue and the
 transfer deadlines do on them.
 */
module Clock {

  datatype TimeVal = TimeVal(sec: int, usec: int)

  /** What `gettimeofday` returns. */
  predicate Reading(t: TimeVal)
  {
    0 <= t.usec < 1000000
  }

  /** What the program computes: one microsecond value more than a reading has. */
  predicate Stamp(t: TimeVal)
  {
    0 <= t.usec <= 1000000
  }

  /** The field-wise comparison the program uses everywhere. */
  predicate Before(a: TimeVal, b: TimeVal)
  {
    a.sec < b.sec || (a.sec == b.sec && a.usec < b.usec)
  }

  function Micros(t: TimeVal): int
  {
    t.sec * 1000000 + t.usec
  }

  /** `now` plus `ms`, with the single carry of the program: exactly 1000000 stays. */
  function AddMs(now: TimeVal, ms: nat): TimeVal
  {
    var usec := now.usec + ms % 1000 * 1000;
    var sec := now.sec + ms / 1000;
    if usec > 1000000 then TimeVal(sec + 1, usec - 1000000) else TimeVal(sec, usec)
  }

  /** One carry suffices, and the total is right even where the carry is skipped. */
  lemma AddMsIsExact(now: TimeVal, ms: nat)
    requires Reading(now)
    ensures Stamp(AddMs(now, ms))
    ensures Micros(AddMs(now, ms)) == Micros(now) + 1000 * ms
    ensures Reading(AddMs(now, ms)) <==> now.usec + ms % 1000 * 1000 != 1000000
    ensures !Before(AddMs(now, ms), now)
  {
    var r, q := ms % 1000, ms / 1000;
    assert ms == 1000 * q + r;
    assert q >= 0;
  }

  /** The field-wise order of stamps agrees with the order of their totals. */
  lemma OrderAgrees(a: TimeVal, b: TimeVal)
    requires Stamp(a) && Stamp(b)
    ensures Before(a, b) ==> Micros(a) <= Micros(b)
    ensures Micros(a) < Micros(b) ==> Before(a, b)
  {
  }

  /** Against a clock reading the two orders are the same: a stamp is due or it is not. */
  lemma DueAgrees(t: TimeVal, now: TimeVal)
    requires Stamp(t) && Reading(now)
    ensures !Before(now, t) <==> Micros(t) <= Micros(now)
  {
  }
}
