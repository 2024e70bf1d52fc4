/**
 Rebuilding the past intervals of all PGs in one sweep over the map history, instead of one loop
 per PG over its own range of epochs. The maps, the ancestor of a PG and the test for a new interval are
 functions of the world outside.
 */
module PastIntervals {
  import opened Common

  /** Where a map places a PG. */
  datatype Place = Place(up: seq<int>, upPrimary: int, acting: seq<int>, primary: int)

  /** The state of one PG in the pass; `since` is 0 until its first map has been seen. */
  datatype PiState = PiState(since: nat, was: Place)

  /**
   `place(e, pgid)` is the placement by the map of epoch e, `ancestor(pgid, e)` the PG it came from in that
   map, and `check` decides on a new interval between two maps and records it.
   */
  datatype World<!P> = World(
    place: (nat, int) -> Place,
    ancestor: (int, nat) -> int,
    check: (int, PiState, Place, nat, nat, P) -> (bool, P))

  datatype Progress<P> = Progress(pi: PiState, past: P)

  /** What one map does to one PG; `last` is the map before, if there is one. */
  function Advance<P>(w: World<P>, pgid: int, s: Progress<P>, cur: nat, last: Option<nat>): Progress<P>
    requires s.pi.since != 0 ==> last.Some?
  {
    var id := if s.pi.since != 0 then w.ancestor(pgid, last.value) else pgid;
    var now := w.place(cur, id);
    if s.pi.since == 0 then s.(pi := PiState(cur, now))
    else
      var (isNew, past) := w.check(id, s.pi, now, cur, last.value, s.past);
      Progress(if isNew then PiState(cur, now) else s.pi, past)
  }

  const NOWHERE := Place([], 0, [], 0)

  /** The pass for one PG alone, over the epochs from `start` to `e`. */
  function Solo<P>(w: World<P>, pgid: int, past: P, start: nat, e: nat): (s: Progress<P>)
    requires 1 <= start <= e
    ensures start <= s.pi.since <= e
  {
    if e == start then Advance(w, pgid, Progress(PiState(0, NOWHERE), past), start, None)
    else Advance(w, pgid, Solo(w, pgid, past, start, e - 1), e, Some(e - 1))
  }

  /** Where the map of epoch e places the PG, or what it came from in the map before. */
  function PlacedBy<P>(w: World<P>, pgid: int, start: nat, e: nat): Place
    requires 1 <= start <= e
  {
    w.place(e, if e == start then pgid else w.ancestor(pgid, e - 1))
  }

  /** The test at epoch e: the answer, and the past intervals recorded by then. */
  function Tested<P>(w: World<P>, pgid: int, past: P, start: nat, e: nat): (bool, P)
    requires 1 <= start < e
  {
    var before := Solo(w, pgid, past, start, e - 1);
    w.check(w.ancestor(pgid, e - 1), before.pi, PlacedBy(w, pgid, start, e), e, e - 1, before.past)
  }

  /** `since` is the first epoch of the range, or the last one in it at which the test found a new interval. */
  ghost predicate LastNew<P>(w: World<P>, pgid: int, past: P, start: nat, end: nat, since: nat)
    requires 1 <= start <= end
  {
    && start <= since <= end
    && (start < since ==> Tested(w, pgid, past, start, since).0)
    && (forall e | since < e <= end :: !Tested(w, pgid, past, start, e).0)
  }

  /** What the tests over the range have recorded. */
  ghost predicate Recorded<P>(w: World<P>, pgid: int, past: P, start: nat, end: nat, result: P)
    requires 1 <= start <= end
  {
    result == if start == end then past else Tested(w, pgid, past, start, end).1
  }

  /**
   What a PG's own pass finds: since when the interval has lasted, the placement by the map of that epoch, and the
   past intervals as every test in turn recorded them.
   */
  lemma {:induction false} SoloFinds<P>(w: World<P>, pgid: int, past: P, start: nat, end: nat)
    requires 1 <= start <= end
    ensures
      var s := Solo(w, pgid, past, start, end);
      && LastNew(w, pgid, past, start, end, s.pi.since)
      && s.pi.was == PlacedBy(w, pgid, start, s.pi.since)
      && Recorded(w, pgid, past, start, end, s.past)
  {
    if start < end {
      SoloFinds(w, pgid, past, start, end - 1);
      LastNewStep(w, pgid, past, start, end, Solo(w, pgid, past, start, end - 1).pi.since);
    }
  }

  lemma LastNewStep<P>(w: World<P>, pgid: int, past: P, start: nat, end: nat, since: nat)
    requires 1 <= start < end && LastNew(w, pgid, past, start, end - 1, since)
    ensures LastNew(w, pgid, past, start, end, if Tested(w, pgid, past, start, end).0 then end else since)
  {
  }

  /** There is only one such epoch. */
  lemma LastNewIsUnique<P>(w: World<P>, pgid: int, past: P, start: nat, end: nat, a: nat, b: nat)
    requires 1 <= start <= end && LastNew(w, pgid, past, start, end, a) && LastNew(w, pgid, past, start, end, b)
    ensures a == b
  {
  }

  datatype Pg<P> = Pg(sameIntervalSince: nat, past: P)

  /** The outcome of calculating a PG's range: nothing to do, or the epochs it needs. */
  datatype Range = Nothing(end: nat) | Needs(start: nat, end: nat)

  /** The result for one PG: its own pass, and its interval start if that was cleared. */
  function Rebuilt<P>(w: World<P>, pgid: int, pg: Pg<P>, range: Range): Pg<P>
    requires range.Needs? ==> 1 <= range.start <= range.end
  {
    match range
    case Nothing(end) => if pg.sameIntervalSince == 0 then pg.(sameIntervalSince := end) else pg
    case Needs(start, end) =>
      var s := Solo(w, pgid, pg.past, start, end);
      Pg(if pg.sameIntervalSince == 0 then s.pi.since else pg.sameIntervalSince, s.past)
  }

  /** How far a PG has come when the sweep has handled all epochs below `cur`. */
  function SoFar<P>(w: World<P>, pgid: int, past: P, range: Range, cur: nat): Progress<P>
    requires range.Needs? && 1 <= range.start <= range.end
  {
    if cur <= range.start then Progress(PiState(0, NOWHERE), past)
    else Solo(w, pgid, past, range.start, if cur <= range.end then cur - 1 else range.end)
  }

  /** One epoch of the sweep moves a PG on exactly as its own pass would. */
  lemma SweepStep<P>(w: World<P>, pgid: int, past: P, range: Range, cur: nat, last: Option<nat>)
    requires range.Needs? && 1 <= range.start <= range.end
    requires range.start < cur ==> last == Some(cur - 1)
    ensures
      var s := SoFar(w, pgid, past, range, cur);
      if range.start <= cur <= range.end
      then (s.pi.since != 0 ==> last.Some?) && SoFar(w, pgid, past, range, cur + 1) == Advance(w, pgid, s, cur, last)
      else SoFar(w, pgid, past, range, cur + 1) == s
  {
  }

  /**
   What the pass owes a PG: a known interval start stays; one that was cleared becomes the end of an empty range, or
   the epoch of the last new interval in the range; and the past intervals are those the tests over the range recorded.
   */
  ghost predicate Right<P>(w: World<P>, id: int, pg: Pg<P>, range: Range, result: Pg<P>)
    requires range.Needs? ==> 1 <= range.start <= range.end
  {
    && (pg.sameIntervalSince != 0 ==> result.sameIntervalSince == pg.sameIntervalSince)
    && match range
       case Nothing(end) => result.past == pg.past && (pg.sameIntervalSince == 0 ==> result.sameIntervalSince == end)
       case Needs(start, end) =>
         && Recorded(w, id, pg.past, start, end, result.past)
         && (pg.sameIntervalSince == 0 ==> LastNew(w, id, pg.past, start, end, result.sameIntervalSince))
  }

  lemma RebuiltIsRight<P>(w: World<P>, id: int, pg: Pg<P>, range: Range)
    requires range.Needs? ==> 1 <= range.start <= range.end
    ensures Right(w, id, pg, range, Rebuilt(w, id, pg, range))
  {
    if range.Needs? { SoloFinds(w, id, pg.past, range.start, range.end); }
  }

  /**
   The single sweep over all epochs leaves every PG with the same past intervals and the same interval
   start as a loop over only its own range would, for any set of PGs and ranges, and these are the right ones.
   */
  method BuildPastIntervalsParallel<P>(w: World<P>, pgs: map<int, Pg<P>>, ranges: map<int, Range>, oldest: nat, newest: nat)
    returns (result: map<int, Pg<P>>)
    requires ranges.Keys == pgs.Keys
    requires forall id | id in ranges && ranges[id].Needs? :: 1 <= ranges[id].start <= ranges[id].end
    ensures result.Keys == pgs.Keys
    ensures forall id | id in pgs :: result[id] == Rebuilt(w, id, pgs[id], ranges[id])
    ensures forall id | id in pgs :: Right(w, id, pgs[id], ranges[id], result[id])
  {
    var pis, endEpoch, curEpoch;
    result, pis, curEpoch, endEpoch := CollectRanges(w, pgs, ranges, oldest, newest);
    if pis != map[] {
      assert curEpoch <= endEpoch by {
        assert pis.Keys != {};
        var id := Inhabited(pis.Keys);
      }
      pis := Sweep(w, pgs, ranges, pis, curEpoch, endEpoch);
      result := FixSince(w, pgs, ranges, pis, result);
    }
    forall id | id in pgs ensures Right(w, id, pgs[id], ranges[id], result[id]) {
      RebuiltIsRight(w, id, pgs[id], ranges[id]);
    }
  }

  /** Last loop: interval starts that were cleared are filled in. */
  method FixSince<P>(w: World<P>, pgs: map<int, Pg<P>>, ranges: map<int, Range>, pis: map<int, Progress<P>>, start: map<int, Pg<P>>)
    returns (result: map<int, Pg<P>>)
    requires ranges.Keys == pgs.Keys == start.Keys
    requires forall id | id in ranges && ranges[id].Needs? :: 1 <= ranges[id].start <= ranges[id].end
    requires forall id :: id in pis <==> id in pgs && ranges[id].Needs?
    requires forall id | id in pis :: pis[id] == Solo(w, id, pgs[id].past, ranges[id].start, ranges[id].end) && start[id] == pgs[id]
    requires forall id | id in pgs && ranges[id].Nothing? :: start[id] == Rebuilt(w, id, pgs[id], ranges[id])
    ensures result.Keys == pgs.Keys
    ensures forall id | id in pgs :: result[id] == Rebuilt(w, id, pgs[id], ranges[id])
  {
    result := start;
    var todo := pis.Keys;
    while todo != {}
      invariant todo <= pis.Keys && result.Keys == pgs.Keys
      invariant forall id | id in pgs && id !in todo :: result[id] == Rebuilt(w, id, pgs[id], ranges[id])
      invariant forall id | id in todo :: result[id] == pgs[id]
    {
      ghost var some := Inhabited(todo);
      var id :| id in todo;
      var p := pis[id];
      var since := pgs[id].sameIntervalSince;
      if since == 0 {
        assert p.pi.since != 0;
        since := p.pi.since;
      }
      result := result[id := Pg(since, p.past)];
      todo := todo - {id};
    }
  }

  /** First loop: which PGs take part, and the range of epochs that covers them all. */
  method CollectRanges<P>(w: World<P>, pgs: map<int, Pg<P>>, ranges: map<int, Range>, oldest: nat, newest: nat)
    returns (result: map<int, Pg<P>>, pis: map<int, Progress<P>>, curEpoch: nat, endEpoch: nat)
    requires ranges.Keys == pgs.Keys
    requires forall id | id in ranges && ranges[id].Needs? :: 1 <= ranges[id].start <= ranges[id].end
    ensures result.Keys == pgs.Keys
    ensures forall id :: id in pis <==> id in pgs && ranges[id].Needs?
    ensures forall id | id in pgs && ranges[id].Nothing? :: result[id] == Rebuilt(w, id, pgs[id], ranges[id])
    ensures forall id | id in pis :: result[id] == pgs[id] && pis[id] == Progress(PiState(0, NOWHERE), pgs[id].past)
    ensures forall id | id in pis :: curEpoch <= ranges[id].start && ranges[id].end <= endEpoch
  {
    result, pis, curEpoch, endEpoch := pgs, map[], newest, oldest;
    var todo := pgs.Keys;
    while todo != {}
      invariant todo <= pgs.Keys && result.Keys == pgs.Keys
      invariant forall id :: id in pis <==> id in pgs && id !in todo && ranges[id].Needs?
      invariant forall id | id in todo :: result[id] == pgs[id]
      invariant forall id | id in pgs && id !in todo && ranges[id].Nothing? :: result[id] == Rebuilt(w, id, pgs[id], ranges[id])
      invariant forall id | id in pis :: result[id] == pgs[id] && pis[id] == Progress(PiState(0, NOWHERE), pgs[id].past)
      invariant forall id | id in pis :: curEpoch <= ranges[id].start && ranges[id].end <= endEpoch
    {
      ghost var some := Inhabited(todo);
      var id :| id in todo;
      match ranges[id] {
        case Nothing(end) =>
          if pgs[id].sameIntervalSince == 0 {
            result := result[id := pgs[id].(sameIntervalSince := end)];
          }
        case Needs(start, end) =>
          pis := pis[id := Progress(PiState(0, NOWHERE), pgs[id].past)];
          if start < curEpoch { curEpoch := start; }
          if end > endEpoch { endEpoch := end; }
      }
      todo := todo - {id};
    }
  }

  ghost predicate AllSoFar<P>(w: World<P>, pgs: map<int, Pg<P>>, ranges: map<int, Range>, pis: map<int, Progress<P>>, todo: set<int>, cur: nat)
    requires forall id | id in pis :: id in pgs && id in ranges && ranges[id].Needs? && 1 <= ranges[id].start <= ranges[id].end
  {
    forall id | id in pis ::
      pis[id] == SoFar(w, id, pgs[id].past, ranges[id], if id in todo then cur else cur + 1)
  }

  /** The sweep: every epoch once, and at every epoch all PGs whose range contains it. */
  method Sweep<P>(w: World<P>, pgs: map<int, Pg<P>>, ranges: map<int, Range>, start: map<int, Progress<P>>, first: nat, end: nat)
    returns (pis: map<int, Progress<P>>)
    requires forall id | id in start :: id in pgs && id in ranges && ranges[id].Needs? && 1 <= ranges[id].start <= ranges[id].end
    requires forall id | id in start :: start[id] == Progress(PiState(0, NOWHERE), pgs[id].past)
    requires forall id | id in start :: first <= ranges[id].start && ranges[id].end <= end
    ensures pis.Keys == start.Keys
    ensures forall id | id in pis :: pis[id] == Solo(w, id, pgs[id].past, ranges[id].start, ranges[id].end)
  {
    pis := start;
    var curMap: Option<nat>, lastMap: Option<nat> := None, None;
    var cur := first;
    while cur <= end
      invariant first <= cur && pis.Keys == start.Keys
      invariant first < cur ==> curMap == Some(cur - 1)
      invariant AllSoFar(w, pgs, ranges, pis, pis.Keys, cur)
    {
      lastMap := curMap;
      curMap := Some(cur);
      pis := SweepEpoch(w, pgs, ranges, pis, cur, lastMap);
      cur := cur + 1;
    }
    SweptAll(w, pgs, ranges, pis, cur);
  }

  lemma SweptAll<P>(w: World<P>, pgs: map<int, Pg<P>>, ranges: map<int, Range>, pis: map<int, Progress<P>>, cur: nat)
    requires forall id | id in pis :: id in pgs && id in ranges && ranges[id].Needs? && 1 <= ranges[id].start <= ranges[id].end < cur
    requires AllSoFar(w, pgs, ranges, pis, pis.Keys, cur)
    ensures forall id | id in pis :: pis[id] == Solo(w, id, pgs[id].past, ranges[id].start, ranges[id].end)
  {
    forall id | id in pis ensures pis[id] == Solo(w, id, pgs[id].past, ranges[id].start, ranges[id].end) {
      assert pis[id] == SoFar(w, id, pgs[id].past, ranges[id], cur);
    }
  }

  /** One epoch of the sweep. */
  method SweepEpoch<P>(w: World<P>, pgs: map<int, Pg<P>>, ranges: map<int, Range>, start: map<int, Progress<P>>, cur: nat, last: Option<nat>)
    returns (pis: map<int, Progress<P>>)
    requires forall id | id in start :: id in pgs && id in ranges && ranges[id].Needs? && 1 <= ranges[id].start <= ranges[id].end
    requires forall id | id in start :: ranges[id].start < cur ==> last == Some(cur - 1)
    requires AllSoFar(w, pgs, ranges, start, start.Keys, cur)
    ensures pis.Keys == start.Keys && AllSoFar(w, pgs, ranges, pis, pis.Keys, cur + 1)
  {
    pis := start;
    var todo := pis.Keys;
    while todo != {}
      invariant todo <= pis.Keys == start.Keys
      invariant AllSoFar(w, pgs, ranges, pis, todo, cur)
    {
      ghost var some := Inhabited(todo);
      var id :| id in todo;
      SweepStep(w, id, pgs[id].past, ranges[id], cur, last);
      var p := ranges[id];
      if !(cur < p.start || cur > p.end) {
        pis := pis[id := Advance(w, id, pis[id], cur, last)];
      }
      todo := todo - {id};
    }
  }
}
