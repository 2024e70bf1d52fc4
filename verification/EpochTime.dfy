/**
 Epoch arithmetic: epoch k covers the half-open interval of length `interval` that ends at
 `EpochToTime(k)`. Times are milliseconds.
 */
module EpochTime {

  datatype Grid = Grid(base: int, interval: int)

  /** The epoch a time belongs to; -1 before the base time or when there is no interval. */
  function TimeToEpoch(g: Grid, time: int): int {
    if g.interval == 0 then -1
    else if time - g.base < 0 then -1
    else (time - g.base) / g.interval + 1
  }

  function EpochToTime(g: Grid, id: int): int {
    g.base + id * g.interval
  }

  /** A time is in epoch e exactly when it lies between the end of epoch e-1 and the end of epoch e. */
  lemma EpochContains(g: Grid, time: int, e: int)
    requires 0 < g.interval && g.base <= time
    ensures TimeToEpoch(g, time) == e <==> EpochToTime(g, e - 1) <= time < EpochToTime(g, e)
  {
    var x, q := time - g.base, (time - g.base) / g.interval;
    assert x == q * g.interval + x % g.interval;
    if e - 1 < q {
      Scale(e, q, g.interval);
    } else if q < e - 1 {
      Scale(q + 1, e - 1, g.interval);
    }
    assert (q + 1) * g.interval == q * g.interval + g.interval;
    assert e * g.interval == (e - 1) * g.interval + g.interval;
  }

  lemma Scale(a: int, b: int, k: int)
    requires 0 <= k
    ensures a <= b ==> a * k <= b * k
  {
    if a <= b { assert (b - a) * k >= 0; }
  }

  /** The end of epoch e has passed exactly when the current epoch is a later one. */
  lemma EndedExactly(g: Grid, time: int, e: int)
    requires 0 < g.interval && g.base <= time
    ensures EpochToTime(g, e) <= time <==> e < TimeToEpoch(g, time)
    ensures 1 <= TimeToEpoch(g, time)
  {
    var n := TimeToEpoch(g, time);
    EpochContains(g, time, n);
    assert 0 <= (time - g.base) / g.interval;
    Scale(e, n - 1, g.interval);
    Scale(n, e, g.interval);
  }

  /** A later time never belongs to an earlier epoch. */
  lemma EpochIsMonotone(g: Grid, time: int, later: int)
    requires 0 < g.interval && g.base <= time <= later
    ensures TimeToEpoch(g, time) <= TimeToEpoch(g, later)
  {
    EpochContains(g, time, TimeToEpoch(g, time));
    EndedExactly(g, later, TimeToEpoch(g, time) - 1);
  }
}
