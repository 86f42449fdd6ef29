/** `struct timeval` arithmetic: the macro of util.h and the `timersub`/`timercmp` macros it is used with. */
module Time {

  datatype Timeval = Timeval(sec: int, usec: int)

  predicate Normal(t: Timeval) { 0 <= t.usec < 1_000_000 }

  /** The instant `t` denotes, in microseconds. */
  function Micros(t: Timeval): int { t.sec * 1_000_000 + t.usec }

  /** timeval_add_usec: carries at most one second out of the microsecond field. */
  function AddUsec(t: Timeval, y: nat): (r: Timeval)
    requires Normal(t)
    ensures Normal(r)
    ensures Micros(r) == Micros(t) + y
  {
    var sec := t.sec + y / 1_000_000;
    var usec := t.usec + y % 1_000_000;
    if usec >= 1_000_000 then Timeval(sec + 1, usec - 1_000_000) else Timeval(sec, usec)
  }

  /** timersub: borrows one second when the microsecond field goes negative. */
  function Sub(a: Timeval, b: Timeval): (r: Timeval)
    requires Normal(a) && Normal(b)
    ensures Normal(r)
    ensures Micros(r) == Micros(a) - Micros(b)
  {
    var sec := a.sec - b.sec;
    var usec := a.usec - b.usec;
    if usec < 0 then Timeval(sec - 1, usec + 1_000_000) else Timeval(sec, usec)
  }

  /** timercmp(a, b, >). */
  predicate After(a: Timeval, b: Timeval) {
    if a.sec == b.sec then a.usec > b.usec else a.sec > b.sec
  }

  /** The field-wise comparison orders normalised instants exactly. */
  lemma AfterIsLater(a: Timeval, b: Timeval)
    requires Normal(a) && Normal(b)
    ensures After(a, b) <==> Micros(a) > Micros(b)
  {
  }
}
