/** control_node_serial/src/time_ref.c: subtraction of struct timeval by pointer, carrying into `y`. */
module TimeRef {
  const MICRO := 1_000_000

  class Timeval {
    var sec: int
    var usec: int

    constructor (s: int, us: int)
      ensures sec == s && usec == us
    {
      sec, usec := s, us;
    }

    /** The instant in microseconds. */
    function Total(): (t: int)
      reads this
    {
      sec * MICRO + usec
    }

    /** The two fields. */
    function Pair(): (p: (int, int))
      reads this
    {
      (sec, usec)
    }

    predicate Normalised()
      reads this
    {
      0 <= usec < MICRO
    }

    /** timerclear(), and what memset() or a static definition leaves. */
    method Clear()
      modifies this
      ensures sec == 0 && usec == 0
    {
      sec, usec := 0, 0;
    }
  }

  /** A time of day in microseconds. */
  function Instant(clock: (int, int)): (t: int)
  {
    clock.0 * MICRO + clock.1
  }

  /** A difference of whole seconds that the two carries leave as one second in the microsecond field. */
  predicate Ragged(d: int)
  {
    d != 0 && d % MICRO == 0 && d <= MICRO
  }

  /** The difference is always exact and `y` keeps its value under the carry. For normalised times the result
      is normalised and the returned flag tells whether it is negative; in general the flag is wrong only for
      equal instants whose microseconds differ by whole seconds in the way of `Ragged`. The bounds on the
      microseconds are those of the C `int` products. */
  method TimevalSubstract(result: Timeval, x: Timeval, y: Timeval) returns (negative: int)
    requires result != x && result != y
    requires y.usec - x.usec < 2147 * MICRO && x.usec - y.usec < 2148 * MICRO
    modifies result, y
    ensures x.sec == old(x.sec) && x.usec == old(x.usec)
    ensures y.Total() == old(y.Total())
    ensures result.Total() == old(x.Total()) - old(y.Total())
    ensures 0 <= result.usec <= MICRO && (result.usec == MICRO <==> Ragged(old(x.usec - y.usec)))
    ensures old(x.Normalised() && y.Normalised()) ==> result.Normalised()
    ensures negative == 0 || negative == 1
    ensures negative == 1 <==> || old(x.Total() < y.Total())
                               || (old(x.Total() == y.Total()) && Ragged(old(x.usec - y.usec)))
  {
    if x.usec < y.usec {
      var nsec := (y.usec - x.usec) / MICRO + 1;
      y.usec := y.usec - MICRO * nsec;
      y.sec := y.sec + nsec;
    }
    if x.usec - y.usec > MICRO {
      var nsec := (x.usec - y.usec) / MICRO;
      y.usec := y.usec + MICRO * nsec;
      y.sec := y.sec - nsec;
    }
    result.sec := x.sec - y.sec;
    result.usec := x.usec - y.usec;
    negative := if x.sec < y.sec then 1 else 0;
  }

  /** Equal instants for which the flag says negative: (1, 0) minus (0, 1000000). */
  method RaggedExample() returns (negative: int)
    ensures negative == 1
  {
    var result := new Timeval(0, 0);
    var x := new Timeval(1, 0);
    var y := new Timeval(0, MICRO);
    negative := TimevalSubstract(result, x, y);
  }
}
