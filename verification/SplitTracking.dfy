/**
 Tracking of PG splits. `pending` maps each child that is waiting for its parent to the parent,
 `rev` maps each parent to its waiting children, and `inProgress` holds the children being created.

 Which PGs a PG splits into is not part of this model: a placement seed x that appears when the number of
 PGs grows past `old` belongs to the parent `anc(x, old)`, for some function `anc`.
 */
module SplitTracking {

  datatype Spg = Spg(pool: int, shard: int, ps: nat)

  datatype Splits = Splits(pending: map<Spg, Spg>, rev: map<Spg, set<Spg>>, inProgress: set<Spg>)

  function RevOf(rev: map<Spg, set<Spg>>, p: Spg): set<Spg> {
    if p in rev then rev[p] else {}
  }

  function Tracked(s: Splits): set<Spg> {
    s.pending.Keys + s.inProgress
  }

  /** `pending` and `rev` are inverse to each other, and no parent keeps an empty set. */
  ghost predicate Inverse(pending: map<Spg, Spg>, rev: map<Spg, set<Spg>>) {
    && (forall c | c in pending :: pending[c] in rev && c in rev[pending[c]])
    && (forall p | p in rev :: rev[p] != {} && forall c | c in rev[p] :: c in pending && pending[c] == p)
  }

  /** A child has its parent's pool and a larger seed, so that parents form no cycle. */
  ghost predicate Ranked(pending: map<Spg, Spg>) {
    forall c | c in pending :: pending[c].pool == c.pool && pending[c].ps < c.ps
  }

  ghost predicate Inv(s: Splits) {
    Inverse(s.pending, s.rev) && Ranked(s.pending) && s.pending.Keys !! s.inProgress
  }

  // ----- the operations -----

  ghost predicate CanStart(s: Splits, parent: Spg, children: set<Spg>) {
    && children !! Tracked(s)
    && forall c | c in children :: c.pool == parent.pool && parent.ps < c.ps
  }

  function Started(s: Splits, parent: Spg, children: set<Spg>): Splits {
    if children == {} then s
    else Splits(s.pending + (map c | c in children :: parent),
                s.rev[parent := RevOf(s.rev, parent) + children], s.inProgress)
  }

  predicate CanMark(s: Splits, parent: Spg, children: set<Spg>) {
    parent in s.rev && children <= s.rev[parent]
  }

  function Marked(s: Splits, parent: Spg, children: set<Spg>): Splits
    requires CanMark(s, parent, children)
  {
    Splits(s.pending - children,
           if s.rev[parent] == children then s.rev - {parent} else s.rev[parent := s.rev[parent] - children],
           s.inProgress + children)
  }

  predicate CanComplete(s: Splits, pgs: set<Spg>) {
    pgs <= s.inProgress
  }

  function Completed(s: Splits, pgs: set<Spg>): Splits {
    s.(inProgress := s.inProgress - pgs)
  }

  /** p is a proper ancestor of c along pending parents. */
  predicate IsDesc(pending: map<Spg, Spg>, c: Spg, p: Spg)
    decreases c.ps
  {
    c in pending && (pending[c] == p || (pending[c].ps < c.ps && IsDesc(pending, pending[c], p)))
  }

  function Desc(pending: map<Spg, Spg>, p: Spg): set<Spg> {
    set c | c in pending && IsDesc(pending, c, p)
  }

  function Cancelled(s: Splits, parent: Spg): Splits {
    var gone := Desc(s.pending, parent);
    Splits(s.pending - gone, s.rev - (gone + {parent}), s.inProgress)
  }

  // ----- growing pools -----

  /** Two maps as far as splitting sees them: the number of PGs of each pool, and the ancestor function. */
  datatype Growth = Growth(oldNum: map<int, nat>, newNum: map<int, nat>, anc: (nat, nat) -> nat)

  function ParentOf(g: Growth, c: Spg): Spg {
    if c.pool in g.oldNum then c.(ps := g.anc(c.ps, g.oldNum[c.pool])) else c
  }

  /** The children a PG of the old map splits into. */
  function Kids(g: Growth, i: Spg): set<Spg> {
    if i.pool in g.oldNum && i.pool in g.newNum && i.ps < g.oldNum[i.pool]
    then set x | g.oldNum[i.pool] <= x < g.newNum[i.pool] && g.anc(x, g.oldNum[i.pool]) == i.ps :: i.(ps := x)
    else {}
  }

  function AllKids(g: Growth, d: set<Spg>): set<Spg> {
    set i, c | i in d && c in Kids(g, i) :: c
  }

  predicate Alive(g: Growth, i: Spg) {
    i.pool in g.newNum
  }

  /** What the assertions of `expand_pg_num` ask for. */
  ghost predicate CanExpand(s: Splits, g: Growth) {
    forall i | i in Tracked(s) && Alive(g, i) ::
      && i.pool in g.oldNum
      && (i.ps < g.oldNum[i.pool] || i.ps < g.newNum[i.pool])
      && Kids(g, i) !! Tracked(s)
  }

  /** The pending entries after the PGs in `d` were split and the entries in `x` dropped. */
  function MidPending(s: Splits, g: Growth, d: set<Spg>, x: set<Spg>): map<Spg, Spg> {
    map c | c in (s.pending.Keys - x) + AllKids(g, d) :: if c in s.pending then s.pending[c] else ParentOf(g, c)
  }

  /** The child sets at that point: dropping an entry drops its parent's whole set. */
  function MidRev(s: Splits, g: Growth, d: set<Spg>, x: set<Spg>): map<Spg, set<Spg>> {
    map q | q in (s.rev.Keys - Parents(s, x)) + Splitters(g, d) ::
      RevOf(s.rev, q) + if q in d then Kids(g, q) else {}
  }

  function Splitters(g: Growth, d: set<Spg>): set<Spg> {
    set i | i in d && Kids(g, i) != {}
  }

  function Parents(s: Splits, x: set<Spg>): set<Spg> {
    set c | c in x && c in s.pending :: s.pending[c]
  }

  function Survivors(s: Splits, g: Growth): set<Spg> {
    set i | i in Tracked(s) && Alive(g, i)
  }

  function LiveInProgress(s: Splits, g: Growth): set<Spg> {
    set i | i in s.inProgress && Alive(g, i)
  }

  function DeadPending(s: Splits, g: Growth): set<Spg> {
    set i | i in s.pending && !Alive(g, i)
  }

  function Expanded(s: Splits, g: Growth): Splits {
    Splits(MidPending(s, g, Survivors(s, g), DeadPending(s, g)), MidRev(s, g, Survivors(s, g), DeadPending(s, g)),
           LiveInProgress(s, g))
  }

  // ----- what each operation does to every PG -----

  lemma StartedMembers(s: Splits, parent: Spg, children: set<Spg>, i: Spg)
    ensures
      var s' := Started(s, parent, children);
      && (i in s'.pending <==> i in s.pending || i in children)
      && (i in s'.pending ==> s'.pending[i] == if i in children then parent else s.pending[i])
      && (i in s'.inProgress <==> i in s.inProgress)
      && RevOf(s'.rev, i) == RevOf(s.rev, i) + if i == parent then children else {}
  {
  }

  lemma MarkedMembers(s: Splits, parent: Spg, children: set<Spg>, i: Spg)
    requires CanMark(s, parent, children)
    ensures
      var s' := Marked(s, parent, children);
      && (i in s'.pending <==> i in s.pending && i !in children)
      && (i in s'.pending ==> s'.pending[i] == s.pending[i])
      && (i in s'.inProgress <==> i in s.inProgress || i in children)
      && RevOf(s'.rev, i) == if i == parent then s.rev[parent] - children else RevOf(s.rev, i)
  {
  }

  lemma CompletedMembers(s: Splits, pgs: set<Spg>, i: Spg)
    ensures
      var s' := Completed(s, pgs);
      s'.pending == s.pending && s'.rev == s.rev && (i in s'.inProgress <==> i in s.inProgress && i !in pgs)
  {
  }

  lemma CancelledMembers(s: Splits, parent: Spg, i: Spg)
    ensures
      var s' := Cancelled(s, parent);
      && (i in s'.pending <==> i in s.pending && !IsDesc(s.pending, i, parent))
      && (i in s'.pending ==> s'.pending[i] == s.pending[i])
      && s'.inProgress == s.inProgress
      && RevOf(s'.rev, i) == if i == parent || IsDesc(s.pending, i, parent) then {} else RevOf(s.rev, i)
  {
    assert i in Desc(s.pending, parent) <==> IsDesc(s.pending, i, parent);
  }

  /** A chain of pending parents leads from c up to p. */
  ghost predicate Chain(pending: map<Spg, Spg>, path: seq<Spg>, c: Spg, p: Spg) {
    && |path| >= 2 && path[0] == c && path[|path| - 1] == p
    && forall k | 0 <= k < |path| - 1 :: path[k] in pending && pending[path[k]] == path[k + 1]
  }

  /** The descendants are those from which such a chain leads up to the parent. */
  lemma {:induction false} DescIsChain(pending: map<Spg, Spg>, c: Spg, p: Spg)
    requires Ranked(pending)
    ensures IsDesc(pending, c, p) <==> exists path :: Chain(pending, path, c, p)
    decreases c.ps
  {
    if c in pending { DescIsChain(pending, pending[c], p); }
    if IsDesc(pending, c, p) {
      if pending[c] == p {
        assert Chain(pending, [c, p], c, p);
      } else {
        var path :| Chain(pending, path, pending[c], p);
        assert Chain(pending, [c] + path, c, p);
      }
    }
    if path :| Chain(pending, path, c, p) {
      assert path[0] in pending && pending[c] == path[1];
      if |path| > 2 {
        var rest := path[1..];
        forall k | 0 <= k < |rest| - 1 ensures rest[k] in pending && pending[rest[k]] == rest[k + 1] {
          assert rest[k] == path[k + 1];
        }
        assert Chain(pending, rest, pending[c], p);
      }
    }
  }

  /** Every PG that is new in a grown pool is a child of its one parent, if that existed before, and of no other PG. */
  lemma KidsExactly(g: Growth, c: Spg, i: Spg)
    ensures c in Kids(g, i) <==>
            && c.pool in g.oldNum && c.pool in g.newNum && g.oldNum[c.pool] <= c.ps < g.newNum[c.pool]
            && i == c.(ps := g.anc(c.ps, g.oldNum[c.pool])) && i.ps < g.oldNum[c.pool]
  {
  }

  /** An expansion forgets the PGs of deleted pools, keeps the others, and makes the children of those pending. */
  lemma ExpandedMembers(s: Splits, g: Growth, i: Spg)
    requires CanExpand(s, g)
    ensures
      var s' := Expanded(s, g);
      && (i in s'.inProgress <==> i in s.inProgress && Alive(g, i))
      && (i in s'.pending <==> (i in s.pending && Alive(g, i)) || exists j :: j in Tracked(s) && Alive(g, j) && i in Kids(g, j))
      && (i in s'.pending && i in s.pending ==> s'.pending[i] == s.pending[i])
      && (forall j | j in Tracked(s) && Alive(g, j) && i in Kids(g, j) :: s'.pending[i] == j)
  {
    forall j | j in Tracked(s) && Alive(g, j) && i in Kids(g, j)
      ensures i in AllKids(g, Survivors(s, g)) && i !in s.pending && ParentOf(g, i) == j
    {
      assert j in Survivors(s, g);
      KidFacts(s, g, j, i);
    }
    if i in AllKids(g, Survivors(s, g)) {
      var j :| j in Survivors(s, g) && i in Kids(g, j);
      assert j in Tracked(s) && Alive(g, j);
    }
  }

  // ----- every operation keeps the invariant -----

  lemma StartedKeeps(s: Splits, parent: Spg, children: set<Spg>)
    requires Inv(s) && CanStart(s, parent, children)
    ensures Inv(Started(s, parent, children))
  {
    var s' := Started(s, parent, children);
    if children != {} {
      forall c | c in s'.pending
        ensures s'.pending[c] in s'.rev && c in s'.rev[s'.pending[c]]
      {
        assert c in children || c in s.pending;
      }
      forall p, c | p in s'.rev && c in s'.rev[p]
        ensures c in s'.pending && s'.pending[c] == p
      {
        if c in children {
          assert p == parent || c in s.pending;
        }
      }
    }
  }

  lemma MarkedKeeps(s: Splits, parent: Spg, children: set<Spg>)
    requires Inv(s) && CanMark(s, parent, children)
    ensures Inv(Marked(s, parent, children))
  {
    var s' := Marked(s, parent, children);
    forall c | c in s'.pending
      ensures s'.pending[c] in s'.rev && c in s'.rev[s'.pending[c]]
    {
      assert c in s.rev[s.pending[c]] && c !in children;
    }
    forall p | p in s'.rev ensures s'.rev[p] != {} {
      if p == parent {
        var c :| c in s.rev[parent] && c !in children;
        assert c in s'.rev[p];
      }
    }
  }

  lemma {:induction false} DescRank(pending: map<Spg, Spg>, c: Spg, p: Spg)
    requires Ranked(pending) && IsDesc(pending, c, p)
    ensures p.ps < c.ps && p.pool == c.pool
    decreases c.ps
  {
    if pending[c] != p { DescRank(pending, pending[c], p); }
  }

  /** Cancelling removes exactly the pending descendants, and leaves the two maps inverse to each other. */
  lemma CancelledKeeps(s: Splits, parent: Spg)
    requires Inv(s)
    ensures Inv(Cancelled(s, parent))
  {
    var gone, s' := Desc(s.pending, parent), Cancelled(s, parent);
    forall c | c in s'.pending
      ensures s'.pending[c] in s'.rev && c in s'.rev[s'.pending[c]]
    {
      assert s.pending[c] in s.rev && c in s.rev[s.pending[c]] && !IsDesc(s.pending, c, parent);
    }
    forall p, c | p in s'.rev && c in s'.rev[p]
      ensures c in s'.pending && s'.pending[c] == p
    {
      assert c in s.pending && s.pending[c] == p && !IsDesc(s.pending, p, parent);
      assert p in gone <==> p in s.pending && IsDesc(s.pending, p, parent);
      assert c in gone <==> IsDesc(s.pending, c, parent);
    }
  }

  lemma KidsApart(g: Growth, i: Spg, j: Spg, c: Spg)
    requires c in Kids(g, i) && c in Kids(g, j)
    ensures i == j && ParentOf(g, c) == i && i.ps < c.ps && i.pool == c.pool
  {
  }

  lemma KidFacts(s: Splits, g: Growth, i: Spg, c: Spg)
    requires CanExpand(s, g) && i in Survivors(s, g) && c in Kids(g, i)
    ensures ParentOf(g, c) == i && i.ps < c.ps && i.pool == c.pool && c !in Tracked(s) && Alive(g, c)
  {
    KidsApart(g, i, i, c);
  }

  lemma ExpandedEntry(s: Splits, g: Growth, c: Spg)
    requires Inv(s) && CanExpand(s, g) && c in Expanded(s, g).pending
    ensures
      var s' := Expanded(s, g);
      var p := s'.pending[c];
      && p in s'.rev && c in s'.rev[p] && p.pool == c.pool && p.ps < c.ps && c !in s'.inProgress
  {
    var d, x := Survivors(s, g), DeadPending(s, g);
    if c in s.pending {
      assert c !in AllKids(g, d) by {
        forall i | i in d ensures c !in Kids(g, i) {}
      }
      assert Alive(g, s.pending[c]) && c in s.rev[s.pending[c]];
      forall y | y in x ensures s.pending[y] != s.pending[c] {}
    } else {
      var i :| i in d && c in Kids(g, i);
      KidFacts(s, g, i, c);
    }
  }

  lemma ExpandedParent(s: Splits, g: Growth, p: Spg, c: Spg)
    requires Inv(s) && CanExpand(s, g) && p in Expanded(s, g).rev && c in Expanded(s, g).rev[p]
    ensures c in Expanded(s, g).pending && Expanded(s, g).pending[c] == p
  {
    if p in s.rev && c in s.rev[p] {
      AliveParent(s, g, p);
    } else {
      KidFacts(s, g, p, c);
      assert c in AllKids(g, Survivors(s, g));
    }
  }

  lemma ExpandedNotEmpty(s: Splits, g: Growth, p: Spg)
    requires Inv(s) && p in Expanded(s, g).rev
    ensures Expanded(s, g).rev[p] != {}
  {
    if p in s.rev {
      var c :| c in s.rev[p];
      assert c in Expanded(s, g).rev[p];
    } else {
      var c :| c in Kids(g, p);
      assert c in Expanded(s, g).rev[p];
    }
  }

  /** The loop over deleted pools breaks the inverse on the way and restores it at its end. */
  lemma ExpandedKeeps(s: Splits, g: Growth)
    requires Inv(s) && CanExpand(s, g)
    ensures Inv(Expanded(s, g))
  {
    var s' := Expanded(s, g);
    forall c | c in s'.pending
      ensures s'.pending[c] in s'.rev && c in s'.rev[s'.pending[c]]
      ensures s'.pending[c].pool == c.pool && s'.pending[c].ps < c.ps && c !in s'.inProgress
    {
      ExpandedEntry(s, g, c);
    }
    forall p | p in s'.rev
      ensures s'.rev[p] != {} && forall c | c in s'.rev[p] :: c in s'.pending && s'.pending[c] == p
    {
      ExpandedNotEmpty(s, g, p);
      forall c | c in s'.rev[p] ensures c in s'.pending && s'.pending[c] == p {
        ExpandedParent(s, g, p, c);
      }
    }
  }

  lemma AliveParent(s: Splits, g: Growth, p: Spg)
    requires Inv(s) && p in Expanded(s, g).rev && p in s.rev
    ensures forall c | c in s.rev[p] :: Alive(g, c)
  {
    forall c | c in s.rev[p] && !Alive(g, c) ensures p in Parents(s, DeadPending(s, g)) && !Alive(g, p) {
      assert c in DeadPending(s, g) && s.pending[c] == p;
    }
  }

  // ----- every reachable state -----

  datatype Event =
    | StartSplit(parent: Spg, children: set<Spg>)
    | MarkInProgress(parent: Spg, children: set<Spg>)
    | Cancel(parent: Spg)
    | Expand(growth: Growth)
    | CompleteSplit(pgs: set<Spg>)

  ghost function Next(s: Splits, ev: Event): Splits {
    match ev
    case StartSplit(p, cs) => if CanStart(s, p, cs) then Started(s, p, cs) else s
    case MarkInProgress(p, cs) => if CanMark(s, p, cs) then Marked(s, p, cs) else s
    case Cancel(p) => Cancelled(s, p)
    case Expand(g) => if CanExpand(s, g) then Expanded(s, g) else s
    case CompleteSplit(pgs) => if CanComplete(s, pgs) then Completed(s, pgs) else s
  }

  ghost function Run(evs: seq<Event>): Splits {
    if evs == [] then Splits(map[], map[], {}) else Next(Run(evs[..|evs| - 1]), evs[|evs| - 1])
  }

  /**
   In every reachable state the two maps are mutually inverse with no empty child set, pending and
   in-progress PGs are disjoint, and children rank above their parents.
   */
  lemma {:induction false} TrackingIsConsistent(evs: seq<Event>)
    ensures Inv(Run(evs))
  {
    if evs != [] {
      var s, ev := Run(evs[..|evs| - 1]), evs[|evs| - 1];
      TrackingIsConsistent(evs[..|evs| - 1]);
      match ev
      case StartSplit(p, cs) => if CanStart(s, p, cs) { StartedKeeps(s, p, cs); }
      case MarkInProgress(p, cs) => if CanMark(s, p, cs) { MarkedKeeps(s, p, cs); }
      case Cancel(p) => CancelledKeeps(s, p);
      case Expand(g) => if CanExpand(s, g) { ExpandedKeeps(s, g); }
      case CompleteSplit(pgs) =>
    }
  }

  // ----- runs along consecutive maps -----

  /** Every tracked PG exists in a map with these numbers of PGs. */
  ghost predicate Bounded(s: Splits, nums: map<int, nat>) {
    forall i | i in Tracked(s) :: i.pool in nums && i.ps < nums[i.pool]
  }

  /** Numbers of PGs never shrink; pools may come and go. */
  ghost predicate Grows(g: Growth) {
    forall p | p in g.oldNum && p in g.newNum :: g.oldNum[p] <= g.newNum[p]
  }

  /** Children are new in the new map, so none of them can be tracked yet. */
  lemma BoundedCanExpand(s: Splits, g: Growth)
    requires Bounded(s, g.oldNum)
    ensures CanExpand(s, g)
  {
    forall i | i in Tracked(s) && Alive(g, i) ensures Kids(g, i) !! Tracked(s) {
      forall c | c in Kids(g, i) ensures c !in Tracked(s) {
        assert c.pool == i.pool && g.oldNum[i.pool] <= c.ps;
      }
    }
  }

  lemma ExpandedIsBounded(s: Splits, g: Growth)
    requires Bounded(s, g.oldNum) && Grows(g)
    ensures Bounded(Expanded(s, g), g.newNum)
  {
    forall i | i in Tracked(Expanded(s, g)) ensures i.pool in g.newNum && i.ps < g.newNum[i.pool] {
      if i !in Tracked(s) {
        var j :| j in Survivors(s, g) && i in Kids(g, j);
      }
    }
  }

  /** The tracking state together with the numbers of PGs of the current map. */
  datatype Tracker = Tracker(splits: Splits, nums: map<int, nat>)

  /** Splits are started for PGs of the current map, and each expansion leads from the current map to the next. */
  ghost predicate Follows(t: Tracker, ev: Event) {
    match ev
    case StartSplit(p, cs) => CanStart(t.splits, p, cs) && forall c | c in cs :: c.pool in t.nums && c.ps < t.nums[c.pool]
    case Expand(g) => g.oldNum == t.nums && Grows(g)
    case _ => true
  }

  /** Along consecutive maps an expansion just happens: whether its assertions hold is not looked at. */
  ghost function Follow(t: Tracker, ev: Event): Tracker {
    if !Follows(t, ev) then t
    else if ev.Expand? then Tracker(Expanded(t.splits, ev.growth), ev.growth.newNum)
    else t.(splits := Next(t.splits, ev))
  }

  ghost function FollowAll(nums: map<int, nat>, evs: seq<Event>): Tracker {
    if evs == [] then Tracker(Splits(map[], map[], {}), nums)
    else Follow(FollowAll(nums, evs[..|evs| - 1]), evs[|evs| - 1])
  }

  lemma FollowKeeps(t: Tracker, ev: Event)
    requires Inv(t.splits) && Bounded(t.splits, t.nums)
    ensures Inv(Follow(t, ev).splits) && Bounded(Follow(t, ev).splits, Follow(t, ev).nums)
  {
    var s := t.splits;
    if Follows(t, ev) {
      match ev
      case StartSplit(p, cs) => StartedKeeps(s, p, cs);
      case MarkInProgress(p, cs) => if CanMark(s, p, cs) { MarkedKeeps(s, p, cs); }
      case Cancel(p) => CancelledKeeps(s, p);
      case CompleteSplit(pgs) =>
      case Expand(g) =>
        BoundedCanExpand(s, g);
        ExpandedKeeps(s, g);
        ExpandedIsBounded(s, g);
    }
  }

  /**
   Along consecutive maps every expansion meets its assertions: in every reachable state the two maps are
   inverse and every tracked PG exists in the current map, so that no child of the next map is tracked already.
   */
  lemma {:induction false} ExpansionsMeetTheirAssertions(nums: map<int, nat>, evs: seq<Event>, g: Growth)
    ensures Inv(FollowAll(nums, evs).splits) && Bounded(FollowAll(nums, evs).splits, FollowAll(nums, evs).nums)
    ensures g.oldNum == FollowAll(nums, evs).nums ==> CanExpand(FollowAll(nums, evs).splits, g)
  {
    if evs != [] {
      ExpansionsMeetTheirAssertions(nums, evs[..|evs| - 1], g);
      FollowKeeps(FollowAll(nums, evs[..|evs| - 1]), evs[|evs| - 1]);
    }
    if g.oldNum == FollowAll(nums, evs).nums { BoundedCanExpand(FollowAll(nums, evs).splits, g); }
  }
}
