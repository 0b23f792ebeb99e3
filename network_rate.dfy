/** Transfer rates derived from the cumulative byte counters of all network
    interfaces (main.py lines 140-146 and 163-164). */
module NetworkRate {

  /** `psutil.net_io_counters()`: bytes sent and received since boot. */
  datatype NetCounters = NetCounters(bytesSent: nat, bytesRecv: nat)

  /** The floor on the elapsed time between two samples, in seconds. */
  const MinElapsed: real := 0.000001

  /** `max(now - last, 1e-6)`: the interval used to turn a counter delta into
      a rate; never below the floor, so always positive. */
  function Elapsed(now: real, last: real): (e: real)
    ensures e >= MinElapsed && e > 0.0
    ensures e >= now - last
    ensures e == now - last || e == MinElapsed
  {
    if now - last > MinElapsed then now - last else MinElapsed
  }

  /** `max((current - previous) / elapsed, 0.0)`: never negative, zero when
      the counter went back (a reset), and otherwise the rate that covers
      exactly the counted bytes in the elapsed time. */
  function Rate(current: int, previous: int, elapsed: real): (r: real)
    requires elapsed > 0.0
    ensures r >= 0.0
    ensures current <= previous ==> r == 0.0
    ensures current >= previous ==> r * elapsed == (current - previous) as real
  {
    var perSec := (current - previous) as real / elapsed;
    if perSec > 0.0 then perSec else 0.0
  }

  /** A larger counter over the same interval never gives a smaller rate. */
  lemma RateMonotone(c1: int, c2: int, previous: int, elapsed: real)
    requires elapsed > 0.0 && c1 <= c2
    ensures Rate(c1, previous, elapsed) <= Rate(c2, previous, elapsed)
  {
  }

  /** 2048 more bytes received over two seconds is 1024 bytes per second. */
  lemma TwoKilobytesInTwoSeconds(previous: nat, last: real)
    ensures Rate(previous + 2048, previous, Elapsed(last + 2.0, last)) == 1024.0
  {
  }
}
