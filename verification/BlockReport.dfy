/**
 The block-report scheduler of the datanode. Its clock values are 64-bit integers that may wrap
 around; the lemmas relate them to the true, unbounded times they stand for.
 */
module BlockReport {
  import opened Common

  const TWO63 := 0x8000_0000_0000_0000
  const TWO64 := 0x1_0000_0000_0000_0000

  /** The signed 64-bit value of an unbounded integer. */
  function Wrap(x: int): int {
    (x + TWO63) % TWO64 - TWO63
  }

  predicate IsLong(x: int) {
    -TWO63 <= x < TWO63
  }

  /** The narrowing conversion to a signed 32-bit value. */
  function LowInt(x: int): int {
    (x + 0x8000_0000) % 0x1_0000_0000 - 0x8000_0000
  }

  /** It keeps the low 32 bits and lies in the range of such values. */
  lemma LowIntIs(x: int)
    ensures -0x8000_0000 <= LowInt(x) < 0x8000_0000 && (x - LowInt(x)) % 0x1_0000_0000 == 0
    ensures -0x8000_0000 <= x < 0x8000_0000 ==> LowInt(x) == x
  {
  }

  /** Division of the Java kind, towards zero. */
  function Quotient(a: int, b: int): int
    requires 0 < b
  {
    if 0 <= a then a / b else -((-a) / b)
  }

  /** The due test on the stored values. */
  predicate Due(next: int, now: int) {
    Wrap(next - now) <= 0
  }

  /** Two true times whose distance fits 64 bits. */
  predicate InRange(next: int, now: int) {
    IsLong(next - now)
  }

  /** The next report time as the scheduler computes it from stored values. */
  function Rescheduled(next: int, now: int, interval: int): int
    requires 0 < interval
  {
    Wrap(next + Wrap(Quotient(Wrap(Wrap(now - next) + interval), interval) * interval))
  }

  /** The true time that a reschedule moves to: only the distance is computed in 64 bits. */
  function TrueRescheduled(next: int, now: int, interval: int): int
    requires 0 < interval
  {
    next + Quotient(Wrap(now - next + interval), interval) * interval
  }

  // ----- wrap-around arithmetic -----

  lemma WrapShift(x: int, k: int)
    ensures Wrap(x + k * TWO64) == Wrap(x)
  {
    assert (x + TWO63 + k * TWO64) % TWO64 == (x + TWO63) % TWO64;
  }

  lemma WrapIs(x: int) returns (k: int)
    ensures Wrap(x) == x + k * TWO64
    ensures IsLong(Wrap(x)) && (IsLong(x) ==> Wrap(x) == x)
  {
    k := -((x + TWO63) / TWO64);
  }

  lemma WrapSum(a: int, b: int)
    ensures Wrap(Wrap(a) + b) == Wrap(a + b) && Wrap(Wrap(a) - Wrap(b)) == Wrap(a - b)
  {
    var j := WrapIs(a);
    var k := WrapIs(b);
    WrapShift(a + b, j);
    WrapShift(a - b, j - k);
    assert Wrap(a) - Wrap(b) == a - b + (j - k) * TWO64;
  }

  /**
   The due tests: for true times less than 2^64 apart, the test on stored values agrees with the comparison
   of the true times if and only if they are less than 2^63 apart (or exactly 2^63 overdue).
   */
  lemma DueExactly(next: int, now: int)
    requires -TWO64 < next - now < TWO64
    ensures (Due(Wrap(next), Wrap(now)) <==> next <= now) <==> InRange(next, now)
  {
    WrapSum(next, now);
    var d := next - now;
    var k := WrapIs(d);
  }

  // ----- one reschedule -----

  lemma QuotientIs(a: int, b: int) returns (rem: int)
    requires 0 < b
    ensures a == Quotient(a, b) * b + rem && -b < rem < b
    ensures (0 <= a ==> 0 <= rem) && (a <= 0 ==> rem <= 0)
    ensures rem == 0 <==> a % b == 0
  {
    if 0 <= a {
      rem := a % b;
    } else {
      var q := (-a) / b;
      rem := -((-a) % b);
      assert -a == b * q - rem;
      assert (-q) * b == -(b * q);
      NegMod(a, -q, b, -rem);
    }
  }

  lemma NegMod(a: int, q: int, b: int, r: int)
    requires 0 < b && a == q * b - r && 0 <= r < b
    ensures r == 0 <==> a % b == 0
  {
    if r == 0 {
      ModIs(a, q, b, 0);
    } else {
      assert (q - 1) * b == q * b - b;
      ModIs(a, q - 1, b, b - r);
    }
  }

  lemma MultipleMod(q: int, b: int)
    requires 0 < b
    ensures (q * b) % b == 0
  {
    ModIs(q * b, q, b, 0);
  }

  lemma ModIs(a: int, q: int, b: int, r: int)
    requires 0 < b && a == q * b + r && 0 <= r < b
    ensures a % b == r
  {
    var q', r' := a / b, a % b;
    assert a == b * q' + r';
    SmallMultiple(q - q', b, r' - r);
  }

  lemma SmallMultiple(k: int, b: int, d: int)
    requires 0 < b && k * b == d && -b < d < b
    ensures d == 0
  {
    assert 1 <= k ==> b <= k * b;
    assert k <= -1 ==> k * b <= -b;
  }

  lemma RoundedDown(a: nat, b: int)
    requires 0 < b
    ensures 0 <= (a / b) * b <= a
  {
    assert a == b * (a / b) + a % b;
  }

  lemma StepIsLong(w: int, interval: int)
    requires 0 < interval && IsLong(w)
    ensures IsLong(Quotient(w, interval) * interval)
  {
    if 0 <= w {
      RoundedDown(w, interval);
    } else {
      RoundedDown(-w, interval);
      assert (-((-w) / interval)) * interval == -((-w) / interval * interval);
    }
  }

  /** Stored values stand for true times: the 64-bit computation is the true move, wrapped. */
  lemma RescheduleIsTrue(next: int, now: int, interval: int)
    requires 0 < interval && IsLong(now - next)
    ensures Rescheduled(Wrap(next), Wrap(now), interval) == Wrap(TrueRescheduled(next, now, interval))
  {
    assert Wrap(Wrap(now) - Wrap(next)) == now - next by {
      WrapSum(now, next);
      var k := WrapIs(now - next);
    }
    var w := Wrap(now - next + interval);
    var step := Quotient(w, interval) * interval;
    assert Wrap(step) == step by {
      var k := WrapIs(now - next + interval);
      StepIsLong(w, interval);
      var k' := WrapIs(step);
    }
    WrapSum(next, step);
  }

  /**
   The grid: a reschedule keeps the report time on the original schedule. It lies strictly after now if
   and only if the overdue time plus one interval fits 64 bits; it then lies at most one interval after
   now if and only if the old time was not more than one interval ahead, or was a whole number of
   intervals away.
   */
  lemma RescheduleExactly(next: int, now: int, interval: int)
    requires 0 < interval < TWO63 && IsLong(now - next)
    ensures
      var next' := TrueRescheduled(next, now, interval);
      && (next' - next) % interval == 0
      && (now < next' <==> now - next + interval < TWO63)
      && (now < next' ==> (next' <= now + interval <==> next <= now + interval || (now - next) % interval == 0))
  {
    var d := now - next;
    var k := WrapIs(d + interval);
    var rem := QuotientIs(Wrap(d + interval), interval);
    MultipleMod(Quotient(Wrap(d + interval), interval), interval);
    ShiftMod(d, interval);
  }

  /** A report overdue by almost 2^63 is moved further into the past. */
  lemma LongOverdueMovesBack()
    ensures TrueRescheduled(0, TWO63 - 1, 1000) < 0
  {
    RescheduleExactly(0, TWO63 - 1, 1000);
    assert Wrap(TWO63 + 999) == 999 - TWO63;
  }

  lemma ShiftMod(a: int, b: int)
    requires 0 < b
    ensures (a + b) % b == a % b
  {
    ModIs(a + b, a / b + 1, b, a % b);
  }

  // ----- every run of reschedules -----

  function TrueRun(next: int, nows: seq<int>, interval: int): int
    requires 0 < interval
  {
    if nows == [] then next
    else TrueRescheduled(TrueRun(next, nows[..|nows| - 1], interval), nows[|nows| - 1], interval)
  }

  function StoredRun(next: int, nows: seq<int>, interval: int): int
    requires 0 < interval
  {
    if nows == [] then next
    else Rescheduled(StoredRun(next, nows[..|nows| - 1], interval), nows[|nows| - 1], interval)
  }

  ghost predicate InReach(next: int, nows: seq<int>, interval: int)
    requires 0 < interval
  {
    nows == [] ||
    var init := nows[..|nows| - 1];
    var d := nows[|nows| - 1] - TrueRun(next, init, interval);
    InReach(next, init, interval) && IsLong(d)
  }

  /**
   Over any number of reschedules, with the clock wrapping around as often as it likes: the stored
   time is the wrapped true time, and the true time is congruent to the original schedule.
   */
  lemma {:induction false} ScheduleStaysOnGrid(next: int, nows: seq<int>, interval: int)
    requires 0 < interval < TWO63 && InReach(next, nows, interval)
    ensures StoredRun(Wrap(next), Wraps(nows), interval) == Wrap(TrueRun(next, nows, interval))
    ensures (TrueRun(next, nows, interval) - next) % interval == 0
  {
    if nows != [] {
      var init, now := nows[..|nows| - 1], nows[|nows| - 1];
      ScheduleStaysOnGrid(next, init, interval);
      var t := TrueRun(next, init, interval);
      assert Wraps(nows)[..|nows| - 1] == Wraps(init);
      RescheduleIsTrue(t, now, interval);
      RescheduleExactly(t, now, interval);
      SumMod(TrueRescheduled(t, now, interval) - t, t - next, interval);
    }
  }

  function Wraps(xs: seq<int>): seq<int> {
    seq(|xs|, i requires 0 <= i < |xs| => Wrap(xs[i]))
  }

  lemma SumMod(a: int, b: int, k: int)
    requires 0 < k && a % k == 0 && b % k == 0
    ensures (a + b) % k == 0
  {
    ModIs(a + b, a / k + b / k, k, 0);
  }

  class Scheduler {
    var nextBlockReportTime: int
    var nextHeartbeatTime: int
    var resetBlockReportTime: bool
    const heartbeatIntervalMs: int
    const blockReportIntervalMs: int

    ghost predicate Valid()
      reads this
    {
      0 < blockReportIntervalMs < TWO63 && IsLong(nextBlockReportTime) && IsLong(nextHeartbeatTime)
    }

    /** The clock is read once for each of the two times. */
    constructor (heartbeatInterval: int, blockReportInterval: int, reportNow: int, heartbeatNow: int)
      requires 0 < blockReportInterval < TWO63 && IsLong(reportNow) && IsLong(heartbeatNow)
      ensures Valid() && nextBlockReportTime == reportNow && nextHeartbeatTime == heartbeatNow && resetBlockReportTime
      ensures heartbeatIntervalMs == heartbeatInterval && blockReportIntervalMs == blockReportInterval
    {
      heartbeatIntervalMs, blockReportIntervalMs := heartbeatInterval, blockReportInterval;
      nextBlockReportTime, nextHeartbeatTime, resetBlockReportTime := reportNow, heartbeatNow, true;
    }

    /** Whatever true times the stored values stand for, the answer is theirs if their distance fits 64 bits. */
    method IsHeartbeatDue(startTime: int, ghost trueNext: int, ghost trueStart: int) returns (due: bool)
      ensures due <==> Due(nextHeartbeatTime, startTime)
      ensures nextHeartbeatTime == Wrap(trueNext) && startTime == Wrap(trueStart) && InRange(trueNext, trueStart) ==>
                (due <==> trueNext <= trueStart)
    {
      if InRange(trueNext, trueStart) { DueExactly(trueNext, trueStart); }
      due := Wrap(nextHeartbeatTime - startTime) <= 0;
    }

    method IsBlockReportDue(now: int, ghost trueNext: int, ghost trueNow: int) returns (due: bool)
      ensures due <==> Due(nextBlockReportTime, now)
      ensures nextBlockReportTime == Wrap(trueNext) && now == Wrap(trueNow) && InRange(trueNext, trueNow) ==>
                (due <==> trueNext <= trueNow)
    {
      if InRange(trueNext, trueNow) { DueExactly(trueNext, trueNow); }
      due := Wrap(nextBlockReportTime - now) <= 0;
    }

    /** The next heartbeat is one interval after the true time the clock stands for, however often it wrapped around. */
    method ScheduleNextHeartbeat(now: int, ghost trueNow: int) returns (next: int)
      requires Valid()
      modifies this`nextHeartbeatTime
      ensures Valid() && next == nextHeartbeatTime
      ensures now == Wrap(trueNow) ==> nextHeartbeatTime == Wrap(trueNow + heartbeatIntervalMs)
    {
      WrapSum(trueNow, heartbeatIntervalMs);
      ghost var k := WrapIs(now + heartbeatIntervalMs);
      nextHeartbeatTime := Wrap(now + heartbeatIntervalMs);
      next := nextHeartbeatTime;
    }

    /**
     Sends the report at the next heartbeat, or after a random part of `delay`. The random source takes
     the low 32 bits of `delay` as its bound and refuses one that is not positive.
     */
    method ScheduleBlockReport(delay: int, now: int, random: nat) returns (next: Option<int>)
      requires Valid() && IsLong(now) && (0 < LowInt(delay) ==> random < LowInt(delay))
      modifies this`nextBlockReportTime, this`resetBlockReportTime
      ensures Valid()
      ensures next.None? <==> 0 < delay && LowInt(delay) <= 0
      ensures next.None? ==> unchanged(this)
      ensures next.Some? ==>
                && next.value == nextBlockReportTime == Wrap(if delay > 0 then now + random else now)
                && resetBlockReportTime
    {
      if delay > 0 {
        if LowInt(delay) <= 0 {
          return None;
        }
        ghost var k := WrapIs(now + random);
        nextBlockReportTime := Wrap(now + random);
      } else {
        ghost var k := WrapIs(now);
        nextBlockReportTime := now;
      }
      resetBlockReportTime := true;
      next := Some(nextBlockReportTime);
    }

    /** After a reset a random start within one interval, from then on the fixed grid. */
    method ScheduleNextBlockReport(now: int, random: nat) returns (ok: bool)
      requires Valid() && IsLong(now)
      requires 0 < LowInt(blockReportIntervalMs) ==> random < LowInt(blockReportIntervalMs)
      modifies this`nextBlockReportTime, this`resetBlockReportTime
      ensures Valid()
      ensures ok <==> old(resetBlockReportTime) ==> 0 < LowInt(blockReportIntervalMs)
      ensures !ok ==> unchanged(this)
      ensures ok ==> !resetBlockReportTime
      ensures ok && old(resetBlockReportTime) ==> nextBlockReportTime == Wrap(now + random)
      ensures ok && !old(resetBlockReportTime) ==>
                nextBlockReportTime == Rescheduled(old(nextBlockReportTime), now, blockReportIntervalMs)
    {
      ok := true;
      if resetBlockReportTime {
        if LowInt(blockReportIntervalMs) <= 0 {
          return false;
        }
        ghost var k := WrapIs(now + random);
        nextBlockReportTime := Wrap(now + random);
        resetBlockReportTime := false;
      } else {
        var behind := Wrap(Wrap(now - nextBlockReportTime) + blockReportIntervalMs);
        var step := Wrap(Quotient(behind, blockReportIntervalMs) * blockReportIntervalMs);
        ghost var k := WrapIs(nextBlockReportTime + step);
        nextBlockReportTime := Wrap(nextBlockReportTime + step);
      }
    }
  }
}
