/**
 Projecting a PG's history: walking back from the current map, find since when the up set, the
 primary and the whole interval have been what they are now. The walk stops early once all three are known.
 */
module PgHistory {
  import opened Common

  datatype Mapping = Mapping(up: seq<int>, upPrimary: int, acting: seq<int>, actingPrimary: int, pgNum: nat)

  /** The part of a PG's history the projection fills in. */
  datatype History = History(created: nat, interval: nat, up: nat, primary: nat)

  /** The maps at hand: the current epoch and mapping, older mappings, and the two tests on mappings. */
  datatype Maps = Maps(
    epoch: nat,
    now: Mapping,
    older: map<nat, Mapping>,
    primaryChanged: (Mapping, Mapping) -> bool,
    isSplit: (nat, nat) -> bool)

  datatype Change = Up | Primary | Interval | Split

  predicate HaveMap(m: Maps, e: nat) {
    e in m.older
  }

  /** The mapping in force before epoch e; a missing map counts as unchanged. */
  function Before(m: Maps, e: nat): Mapping {
    if 0 < e && HaveMap(m, e - 1) then m.older[e - 1] else m.now
  }

  /** The mapping before epoch e differs from the current one in the given respect. */
  predicate Differs(m: Maps, c: Change, e: nat) {
    var b := Before(m, e);
    match c
    case Up => b.up != m.now.up || b.upPrimary != m.now.upPrimary
    case Interval => b.actingPrimary != m.now.actingPrimary || b.upPrimary != m.now.upPrimary
                     || b.acting != m.now.acting || b.up != m.now.up
    case Primary => m.primaryChanged(b, m.now)
    case Split => m.isSplit(b.pgNum, m.now.pgNum)
  }

  /** The largest epoch in (from, to] with such a change, 0 if there is none. */
  function Latest(m: Maps, c: Change, from: nat, to: nat): nat {
    if to <= from then 0 else if Differs(m, c, to) then to else Latest(m, c, from, to - 1)
  }

  lemma {:induction false} LatestIs(m: Maps, c: Change, from: nat, to: nat)
    ensures var l := Latest(m, c, from, to); l == 0 || (from < l <= to && Differs(m, c, l))
    ensures forall e | from < e <= to && Differs(m, c, e) :: e <= Latest(m, c, from, to)
  {
    if from < to && !Differs(m, c, to) { LatestIs(m, c, from, to - 1); }
  }

  /** Looking further back matters only if nothing has been found yet. */
  lemma {:induction false} LatestFurther(m: Maps, c: Change, from: nat, e: nat, to: nat)
    requires from <= e <= to
    ensures Latest(m, c, e, to) != 0 ==> Latest(m, c, from, to) == Latest(m, c, e, to)
    ensures Latest(m, c, e, to) == 0 ==> Latest(m, c, from, to) == Latest(m, c, from, e)
  {
    if e < to && !Differs(m, c, to) { LatestFurther(m, c, from, e, to - 1); }
  }

  // ----- what the projection finds -----

  /** The input value, or the latest change in range if that is newer. */
  function Since(m: Maps, c: Change, input: nat, from: nat): nat {
    Max(input, Latest(m, c, from, m.epoch))
  }

  /** The epoch down to which the up set and the primary are known to be constant. */
  function BothSince(m: Maps, h: History, from: nat): nat {
    Min(Since(m, Up, h.up, from), Since(m, Primary, h.primary, from))
  }

  function LastSplit(m: Maps, from: nat): nat {
    Latest(m, Split, from, m.epoch)
  }

  /** When the interval should have begun: at the last change of mapping or the last split. */
  function IntervalSince(m: Maps, h: History, from: nat): nat {
    Max(Since(m, Interval, h.interval, from), LastSplit(m, from))
  }

  /** The walk stops before it reaches the last split. */
  predicate StopsBeforeSplit(m: Maps, h: History, from: nat) {
    LastSplit(m, from) < Min(m.epoch, Min(Since(m, Interval, h.interval, from), BothSince(m, h, from)))
  }

  /** When the walk says the interval began; the split branch overwrites the value on every step further back. */
  function IntervalFound(m: Maps, h: History, from: nat): nat {
    if LastSplit(m, from) == 0 || StopsBeforeSplit(m, h, from) then Since(m, Interval, h.interval, from)
    else Max(from + 1, Min(LastSplit(m, from), BothSince(m, h, from)))
  }

  /** Once a PG has split between a map and now, it has split between every older map and now. */
  ghost predicate SplitsPersist(m: Maps, from: nat) {
    forall e, e' | from < e' < e <= m.epoch && Differs(m, Split, e) :: Differs(m, Split, e')
  }

  /**
   The interval found is the right one if and only if no split lies in range, or the walk stops before it
   meets the last split, or it meets it with nothing newer found and stops right there.
   */
  lemma IntervalRightExactly(m: Maps, h: History, from: nat)
    ensures IntervalFound(m, h, from) == IntervalSince(m, h, from) <==>
            var split := LastSplit(m, from);
            || split == 0
            || StopsBeforeSplit(m, h, from)
            || (Since(m, Interval, h.interval, from) <= split && (split == from + 1 || split <= BothSince(m, h, from)))
  {
    LatestIs(m, Split, from, m.epoch);
  }

  /** With a constant number of PGs the interval is the latest change in range, or the input if that is newer. */
  lemma NoSplitIsExact(m: Maps, h: History, from: nat)
    requires forall e | from < e <= m.epoch :: !Differs(m, Split, e)
    ensures IntervalFound(m, h, from) == Since(m, Interval, h.interval, from)
  {
    LatestIs(m, Split, from, m.epoch);
  }

  /** The up set has been the current one since the epoch found, as far back as the walk was asked to look. */
  lemma UpIsConstantSince(m: Maps, h: History, from: nat, e: nat)
    requires Max(from, Since(m, Up, h.up, from)) <= e < m.epoch && HaveMap(m, e)
    ensures m.older[e].up == m.now.up && m.older[e].upPrimary == m.now.upPrimary
  {
    LatestIs(m, Up, from, m.epoch);
    assert !Differs(m, Up, e + 1);
  }

  /** Since the epoch found the whole placement has been the current one, as far back as the walk was asked to look. */
  lemma PlacementIsConstantSince(m: Maps, h: History, from: nat, e: nat)
    requires Max(from, Since(m, Interval, h.interval, from)) <= e < m.epoch && HaveMap(m, e)
    ensures
      var b := m.older[e];
      b.up == m.now.up && b.upPrimary == m.now.upPrimary && b.acting == m.now.acting && b.actingPrimary == m.now.actingPrimary
  {
    LatestIs(m, Interval, from, m.epoch);
    assert !Differs(m, Interval, e + 1);
  }

  /** The primary has not changed and the PG has not split since the epochs found. */
  lemma NoChangeSince(m: Maps, h: History, from: nat, e: nat)
    requires from <= e < m.epoch && HaveMap(m, e)
    ensures Since(m, Primary, h.primary, from) <= e ==> !m.primaryChanged(m.older[e], m.now)
    ensures LastSplit(m, from) <= e ==> !m.isSplit(m.older[e].pgNum, m.now.pgNum)
  {
    LatestIs(m, Primary, from, m.epoch);
    LatestIs(m, Split, from, m.epoch);
    assert e + 1 <= Latest(m, Primary, from, m.epoch) || !Differs(m, Primary, e + 1);
    assert e + 1 <= Latest(m, Split, from, m.epoch) || !Differs(m, Split, e + 1);
  }

  /** And each epoch found is one at which the change really happened, unless it is the input. */
  lemma ChangedAtSince(m: Maps, h: History, from: nat)
    ensures
      var up, primary := Since(m, Up, h.up, from), Since(m, Primary, h.primary, from);
      var interval, split := Since(m, Interval, h.interval, from), LastSplit(m, from);
      && (up > h.up ==>
            && from < up <= m.epoch && HaveMap(m, up - 1)
            && (m.older[up - 1].up != m.now.up || m.older[up - 1].upPrimary != m.now.upPrimary))
      && (interval > h.interval ==>
            && from < interval <= m.epoch && HaveMap(m, interval - 1)
            && var b := m.older[interval - 1];
               b.up != m.now.up || b.upPrimary != m.now.upPrimary || b.acting != m.now.acting || b.actingPrimary != m.now.actingPrimary)
      && (primary > h.primary ==> from < primary <= m.epoch && m.primaryChanged(Before(m, primary), m.now))
      && (split > 0 ==> from < split <= m.epoch && m.isSplit(Before(m, split).pgNum, m.now.pgNum))
  {
    LatestIs(m, Up, from, m.epoch);
    LatestIs(m, Primary, from, m.epoch);
    LatestIs(m, Interval, from, m.epoch);
    LatestIs(m, Split, from, m.epoch);
  }

  /** A split can move the interval back: the PG split in epoch 3, but the walk answers 2. */
  lemma SplitMovesIntervalBack(a: Mapping, b: Mapping)
    requires a.pgNum == 8 && b == a.(pgNum := 16)
    ensures
      var m := Maps(3, b, map[1 := a, 2 := a], (x, y) => false, (x, y) => x < y);
      var h := History(1, 1, 1, 1);
      && SplitsPersist(m, 1) && IntervalSince(m, h, 1) == 3 && IntervalFound(m, h, 1) == 2
  {
    var m := Maps(3, b, map[1 := a, 2 := a], (x, y) => false, (x, y) => x < y);
    assert Before(m, 3) == a && Before(m, 2) == a;
    assert Differs(m, Split, 3) && Differs(m, Split, 2);
    LatestIs(m, Up, 1, 3);
    LatestIs(m, Primary, 1, 3);
    LatestIs(m, Interval, 1, 3);
  }

  // ----- the walk -----

  /** One step of the walk, at epoch e. */
  function Step(m: Maps, h: History, e: nat): History {
    var interval := if Differs(m, Interval, e) && e > h.interval then e else h.interval;
    History(h.created,
            if Differs(m, Split, e) then e else interval,
            if Differs(m, Up, e) && e > h.up then e else h.up,
            if Differs(m, Primary, e) && e > h.primary then e else h.primary)
  }

  predicate AllKnown(h: History, e: nat) {
    h.interval >= e && h.up >= e && h.primary >= e
  }

  /** What the walk knows of the up set and the primary after the epochs in (e, epoch]. */
  ghost predicate WalkedUp(m: Maps, start: History, h: History, e: nat) {
    && h.created == start.created
    && h.up == Max(start.up, Latest(m, Up, e, m.epoch))
    && h.primary == Max(start.primary, Latest(m, Primary, e, m.epoch))
  }

  /** And of the interval. */
  ghost predicate Walked(m: Maps, start: History, h: History, e: nat) {
    && WalkedUp(m, start, h, e)
    && h.interval == if Latest(m, Split, e, m.epoch) == 0 then Max(start.interval, Latest(m, Interval, e, m.epoch)) else e + 1
  }

  lemma StepWalks(m: Maps, start: History, h: History, from: nat, e: nat)
    requires from < e <= m.epoch && WalkedUp(m, start, h, e)
    ensures WalkedUp(m, start, Step(m, h, e), e - 1)
    ensures SplitsPersist(m, from) && Walked(m, start, h, e) ==> Walked(m, start, Step(m, h, e), e - 1)
  {
    LatestIs(m, Up, e, m.epoch);
    LatestIs(m, Primary, e, m.epoch);
    LatestIs(m, Interval, e, m.epoch);
    LatestIs(m, Split, e, m.epoch);
    LatestFurther(m, Up, e - 1, e, m.epoch);
    LatestFurther(m, Primary, e - 1, e, m.epoch);
    LatestFurther(m, Interval, e - 1, e, m.epoch);
    LatestFurther(m, Split, e - 1, e, m.epoch);
  }

  /** In terms of the final values: the walk stops at epoch e if it gets there. */
  predicate StopsAt(m: Maps, h: History, from: nat, e: nat) {
    (e <= LastSplit(m, from) || e <= Since(m, Interval, h.interval, from)) && e <= BothSince(m, h, from)
  }

  lemma StopsExactly(m: Maps, start: History, h: History, from: nat, e: nat)
    requires from < e <= m.epoch && WalkedUp(m, start, h, e - 1)
    ensures AllKnown(h, e) ==> h.up == Since(m, Up, start.up, from) && h.primary == Since(m, Primary, start.primary, from)
    ensures Walked(m, start, h, e - 1) ==> (AllKnown(h, e) <==> StopsAt(m, start, from, e))
  {
    KnownEnough(m, Up, start.up, from, e);
    KnownEnough(m, Primary, start.primary, from, e);
    KnownEnough(m, Interval, start.interval, from, e);
    LatestIs(m, Split, e - 1, m.epoch);
    LatestIs(m, Split, from, m.epoch);
    LatestFurther(m, Split, from, e - 1, m.epoch);
    LatestIs(m, Split, from, e - 1);
  }

  /** A value that has reached epoch e is final. */
  lemma KnownEnough(m: Maps, c: Change, input: nat, from: nat, e: nat)
    requires from < e <= m.epoch
    ensures Max(input, Latest(m, c, e - 1, m.epoch)) >= e <==> Since(m, c, input, from) >= e
    ensures Since(m, c, input, from) >= e ==> Max(input, Latest(m, c, e - 1, m.epoch)) == Since(m, c, input, from)
  {
    LatestIs(m, c, e - 1, m.epoch);
    LatestFurther(m, c, from, e - 1, m.epoch);
    LatestIs(m, c, from, e - 1);
  }

  /** The interval when the walk stops early at epoch e. */
  lemma StoppedInterval(m: Maps, start: History, h: History, from: nat, e: nat)
    requires from < e <= m.epoch && Walked(m, start, h, e - 1) && StopsAt(m, start, from, e)
    requires forall k | e < k <= m.epoch :: !StopsAt(m, start, from, k)
    ensures h.interval == IntervalFound(m, start, from) && h.interval > 0
  {
    var split := LastSplit(m, from);
    KnownEnough(m, Interval, start.interval, from, e);
    LatestIs(m, Split, e - 1, m.epoch);
    LatestIs(m, Split, from, m.epoch);
    LatestFurther(m, Split, from, e - 1, m.epoch);
    LatestIs(m, Split, from, e - 1);
    if e <= split {
      assert split + 1 <= m.epoch ==> !StopsAt(m, start, from, split + 1);
      var stop := Min(split, BothSince(m, start, from));
      assert e < stop ==> !StopsAt(m, start, from, stop);
    }
  }

  /** The interval when the walk goes all the way down. */
  lemma UnstoppedInterval(m: Maps, start: History, h: History, from: nat)
    requires from <= m.epoch && Walked(m, start, h, from)
    requires forall k | from < k <= m.epoch :: !StopsAt(m, start, from, k)
    ensures h.interval == IntervalFound(m, start, from)
  {
    var split := LastSplit(m, from);
    LatestIs(m, Split, from, m.epoch);
    if split != 0 {
      assert split + 1 <= m.epoch ==> !StopsAt(m, start, from, split + 1);
      var stop := Min(split, BothSince(m, start, from));
      assert from < stop ==> !StopsAt(m, start, from, stop);
    }
  }

  /** One round of the walk: what the maps of epochs e-1 and now say about epoch e. */
  method CompareMaps(m: Maps, h: History, e: nat) returns (h': History)
    requires 0 < e
    ensures h' == Step(m, h, e)
  {
    h' := h;
    if Differs(m, Interval, e) && e > h'.interval {
      h' := h'.(interval := e);
    }
    if Differs(m, Split, e) {
      h' := h'.(interval := e);
    }
    if Differs(m, Up, e) && e > h'.up {
      h' := h'.(up := e);
    }
    if Differs(m, Primary, e) && e > h'.primary {
      h' := h'.(primary := e);
    }
  }

  /**
   The walk itself. It fails only on a missing map in range; otherwise the three epochs are the ones
   described above, in spite of the early stop.
   */
  method ProjectPgHistory(m: Maps, start: History, from: nat) returns (ok: bool, h: History)
    ensures (forall e | from <= e < m.epoch :: HaveMap(m, e)) ==> ok
    ensures h.created == start.created
    ensures
      var nothing := h.created == Min(from, m.epoch);
      var up, primary := Since(m, Up, start.up, from), Since(m, Primary, start.primary, from);
      var interval := IntervalFound(m, start, from);
      ok ==>
        && h.up == (if up == 0 && nothing then h.created else up)
        && h.primary == (if primary == 0 && nothing then h.created else primary)
        && (SplitsPersist(m, from) ==> h.interval == if interval == 0 && nothing then h.created else interval)
  {
    h := start;
    var e: nat := m.epoch;
    while e > from
      invariant Min(from, m.epoch) <= e <= m.epoch
      invariant WalkedUp(m, start, h, e)
      invariant SplitsPersist(m, from) ==> Walked(m, start, h, e)
      invariant SplitsPersist(m, from) ==> forall k | e < k <= m.epoch :: !StopsAt(m, start, from, k)
    {
      if !HaveMap(m, e - 1) {
        return false, h;
      }
      StepWalks(m, start, h, from, e);
      h := CompareMaps(m, h, e);
      StopsExactly(m, start, h, from, e);
      if AllKnown(h, e) {
        if SplitsPersist(m, from) { StoppedInterval(m, start, h, from, e); }
        break;
      }
      e := e - 1;
    }
    if e <= from <= m.epoch && SplitsPersist(m, from) {
      UnstoppedInterval(m, start, h, from);
    }
    if e == h.created {
      if h.interval == 0 { h := h.(interval := e); }
      if h.up == 0 { h := h.(up := e); }
      if h.primary == 0 { h := h.(primary := e); }
    }
    ok := true;
  }
}
