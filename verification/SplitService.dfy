/**
 The split-tracking methods of the OSD service, proved against the functions of `SplitTracking`.
 Loops over C++ sets and maps visit their elements in an order that is left open here.
 */
module SplitService {
  import opened SplitTracking

  // ----- lemmas for the recursion of the cancel operation -----

  function Children(pending: map<Spg, Spg>, p: Spg): set<Spg> {
    set c | c in pending && pending[c] == p
  }

  ghost predicate LocalInverse(pending: map<Spg, Spg>, rev: map<Spg, set<Spg>>, q: Spg) {
    RevOf(rev, q) == Children(pending, q) && (q in rev ==> rev[q] != {})
  }

  /** In the middle of a cancellation the maps are inverse for all PGs but the ancestors being cancelled. */
  ghost predicate InverseFrom(pending: map<Spg, Spg>, rev: map<Spg, set<Spg>>, rank: nat) {
    forall q: Spg | rank <= q.ps :: LocalInverse(pending, rev, q)
  }

  lemma InverseIsLocal(pending: map<Spg, Spg>, rev: map<Spg, set<Spg>>)
    requires Inverse(pending, rev)
    ensures InverseFrom(pending, rev, 0)
  {
    forall q: Spg ensures LocalInverse(pending, rev, q) {
      forall c ensures c in RevOf(rev, q) <==> c in Children(pending, q) {}
    }
  }

  /** The PGs in d and all their descendants. */
  function Under(pending: map<Spg, Spg>, d: set<Spg>): set<Spg> {
    set c | c in pending && (c in d || exists p | p in d :: IsDesc(pending, c, p))
  }

  /** Whatever lies under the children of p is what lies under p. */
  lemma {:induction false} DescThroughChild(pending: map<Spg, Spg>, c: Spg, p: Spg)
    requires Ranked(pending) && IsDesc(pending, c, p)
    ensures c in Under(pending, Children(pending, p))
    decreases c.ps
  {
    var d := Children(pending, p);
    if pending[c] != p {
      var q := pending[c];
      DescThroughChild(pending, q, p);
      if q in d {
        assert IsDesc(pending, c, q);
      } else {
        var i :| i in d && IsDesc(pending, q, i);
        assert IsDesc(pending, c, i);
      }
    }
  }

  lemma {:induction false} DescUp(pending: map<Spg, Spg>, c: Spg, i: Spg, p: Spg)
    requires Ranked(pending) && IsDesc(pending, c, i) && i in pending && pending[i] == p
    ensures IsDesc(pending, c, p)
    decreases c.ps
  {
    if pending[c] != i { DescUp(pending, pending[c], i, p); }
  }

  lemma UnderChildrenIsDesc(pending: map<Spg, Spg>, p: Spg)
    requires Ranked(pending)
    ensures Under(pending, Children(pending, p)) == Desc(pending, p)
  {
    var d := Children(pending, p);
    forall c | c in Under(pending, d) ensures c in Desc(pending, p) {
      if c !in d {
        var i :| i in d && IsDesc(pending, c, i);
        DescUp(pending, c, i, p);
      }
    }
    forall c | c in Desc(pending, p) ensures c in Under(pending, d) {
      DescThroughChild(pending, c, p);
    }
  }

  /** Subtrees of two different children are apart. */
  lemma {:induction false} SubtreesApart(pending: map<Spg, Spg>, c: Spg, i: Spg, j: Spg)
    requires Ranked(pending) && i in pending && j in pending && pending[i] == pending[j] && i != j
    requires IsDesc(pending, c, i)
    ensures c != j && !IsDesc(pending, c, j)
    decreases c.ps
  {
    var p := pending[i];
    if pending[c] == i {
      if IsDesc(pending, i, j) { DescRank(pending, p, j); }
    } else {
      SubtreesApart(pending, pending[c], i, j);
      DescRank(pending, pending[c], i);
    }
  }

  lemma {:induction false} DescShrinks(pending: map<Spg, Spg>, x: set<Spg>, c: Spg, i: Spg)
    requires Ranked(pending) && Desc(pending, i) !! x
    ensures IsDesc(pending - x, c, i) <==> IsDesc(pending, c, i)
    decreases c.ps
  {
    if c in pending && pending[c] != i {
      DescShrinks(pending, x, pending[c], i);
    }
    assert IsDesc(pending, c, i) ==> c in Desc(pending, i);
  }

  /** Before child i is cancelled, with the subtrees of `d` gone, the maps are inverse from i's rank on. */
  lemma BeforeChild(pending: map<Spg, Spg>, rev: map<Spg, set<Spg>>, parent: Spg, d: set<Spg>, i: Spg)
    requires Ranked(pending) && InverseFrom(pending, rev, parent.ps)
    requires d <= Children(pending, parent) && i in Children(pending, parent) && i !in d
    ensures InverseFrom(pending - (Under(pending, d) + {i}), rev - Under(pending, d), i.ps)
  {
    var under := Under(pending, d);
    forall q: Spg | i.ps <= q.ps
      ensures LocalInverse(pending - (under + {i}), rev - under, q)
    {
      assert LocalInverse(pending, rev, q);
      forall c | c in pending && pending[c] == q
        ensures c in under <==> q in under
        ensures c != i
      {
        if q in under {
          if q in d { assert IsDesc(pending, c, q); } else {
            var j :| j in d && IsDesc(pending, q, j);
            assert IsDesc(pending, c, j);
          }
        }
        if c in under {
          assert pending[c] != parent;
          var j :| j in d && IsDesc(pending, c, j);
          assert q == j || IsDesc(pending, q, j);
        }
      }
      assert Children(pending - (under + {i}), q) == if q in under then {} else Children(pending, q);
    }
  }

  /** Cancelling child i on top of `d` removes exactly what lies under d and i. */
  lemma OneMoreChild(pending: map<Spg, Spg>, parent: Spg, d: set<Spg>, i: Spg)
    requires Ranked(pending)
    requires d <= Children(pending, parent) && i in Children(pending, parent) && i !in d
    ensures
      var before := pending - (Under(pending, d) + {i});
      && Desc(before, i) + {i} + Under(pending, d) == Under(pending, d + {i})
      && Ranked(before)
  {
    var under := Under(pending, d);
    var before := pending - (under + {i});
    forall c | c in Desc(pending, i) ensures c !in under && c != i {
      DescRank(pending, c, i);
      forall j | j in d ensures c != j && !IsDesc(pending, c, j) { SubtreesApart(pending, c, i, j); }
    }
    forall c ensures IsDesc(before, c, i) <==> IsDesc(pending, c, i) {
      DescShrinks(pending, under + {i}, c, i);
    }
    assert Desc(before, i) == Desc(pending, i);
    forall c ensures c in Under(pending, d + {i}) <==> c in Desc(pending, i) + {i} + under {
      if c in pending && exists p | p in d + {i} :: IsDesc(pending, c, p) {
        var p :| p in d + {i} && IsDesc(pending, c, p);
        assert p == i || p in d;
      }
    }
  }

  lemma ChildNotUnder(pending: map<Spg, Spg>, parent: Spg, d: set<Spg>, i: Spg)
    requires Ranked(pending)
    requires d <= Children(pending, parent) && i in Children(pending, parent) && i !in d
    ensures i !in Under(pending, d) && parent !in Under(pending, d)
  {
    forall j | j in d ensures !IsDesc(pending, i, j) && !IsDesc(pending, parent, j) && parent != j {
      if IsDesc(pending, i, j) { DescRank(pending, i, j); }
      if IsDesc(pending, parent, j) { DescRank(pending, parent, j); }
    }
  }

  /** The state with the subtrees of d gone. */
  function Without(s: Splits, d: set<Spg>): Splits {
    var under := Under(s.pending, d);
    Splits(s.pending - under, s.rev - under, s.inProgress)
  }

  /** A partial cancellation of the children of a PG. */
  ghost predicate Cancelling(s: Splits, parent: Spg, todo: set<Spg>, done: set<Spg>, now: Splits) {
    && Ready(s, parent.ps) && Children(s.pending, parent) == todo + done && todo !! done
    && now == Without(s, done)
  }

  /** A state in which the recursion may be entered for a PG of rank `rank`. */
  ghost predicate Ready(s: Splits, rank: nat) {
    Ranked(s.pending) && InverseFrom(s.pending, s.rev, rank) && s.pending.Keys !! s.inProgress
  }

  /** Child i with the subtrees of d gone: what holds before the recursion into it. */
  lemma ChildStep(s: Splits, parent: Spg, d: set<Spg>, i: Spg, t: Splits, u: Splits)
    requires Ready(s, parent.ps) && t == Without(s, d) && u == t.(pending := t.pending - {i})
    requires d <= Children(s.pending, parent) && i in Children(s.pending, parent) && i !in d
    ensures i in t.pending && i !in t.inProgress
    ensures Ready(u, i.ps) && |u.pending| < |s.pending|
    ensures Cancelled(u, i) == Without(s, d + {i})
  {
    ChildNotUnder(s.pending, parent, d, i);
    ChildReady(s, parent, d, i, u);
    FewerPending(s.pending, u.pending, i);
    Advance(s, parent, d, i);
  }

  lemma ChildReady(s: Splits, parent: Spg, d: set<Spg>, i: Spg, u: Splits)
    requires Ready(s, parent.ps) && u == Without(s, d).(pending := s.pending - Under(s.pending, d) - {i})
    requires d <= Children(s.pending, parent) && i in Children(s.pending, parent) && i !in d
    ensures Ready(u, i.ps)
  {
    BeforeChild(s.pending, s.rev, parent, d, i);
    assert u.pending == s.pending - (Under(s.pending, d) + {i});
  }

  lemma FewerPending(pending: map<Spg, Spg>, rest: map<Spg, Spg>, i: Spg)
    requires i in pending && i !in rest && rest.Keys <= pending.Keys
    ensures |rest| < |pending|
  {
    assert rest.Keys <= pending.Keys - {i};
    KeysBound(rest, pending - {i});
    assert pending.Keys == (pending - {i}).Keys + {i};
  }

  lemma KeysBound(small: map<Spg, Spg>, big: map<Spg, Spg>)
    requires small.Keys <= big.Keys
    ensures |small| <= |big|
  {
    assert |big.Keys| == |small.Keys| + |big.Keys - small.Keys|;
  }

  /** The state after one more child was cancelled, in terms of the state at the start of the loop. */
  lemma Advance(s: Splits, parent: Spg, d: set<Spg>, i: Spg)
    requires Ranked(s.pending) && d <= Children(s.pending, parent) && i in Children(s.pending, parent) && i !in d
    ensures
      var under := Under(s.pending, d);
      var after := Cancelled(Splits(s.pending - under - {i}, s.rev - under, s.inProgress), i);
      && after.pending == s.pending - Under(s.pending, d + {i})
      && after.rev == s.rev - Under(s.pending, d + {i})
  {
    var under := Under(s.pending, d);
    OneMoreChild(s.pending, parent, d, i);
    assert s.pending - under - {i} == s.pending - (under + {i});
    var gone := Desc(s.pending - (under + {i}), i);
    assert gone + {i} + under == Under(s.pending, d + {i});
    assert s.rev - under - (gone + {i}) == s.rev - (gone + {i} + under);
    assert s.pending - (under + {i}) - gone == s.pending - (gone + {i} + under);
  }

  lemma WithoutNone(s: Splits)
    ensures Without(s, {}) == s
  {
    assert Under(s.pending, {}) == {};
    assert s.pending - {} == s.pending && s.rev - {} == s.rev;
  }

  lemma RevIsChildren(s: Splits, parent: Spg)
    requires Ready(s, parent.ps)
    ensures RevOf(s.rev, parent) == Children(s.pending, parent)
  {
    assert LocalInverse(s.pending, s.rev, parent);
  }

  lemma NothingToCancel(s: Splits, parent: Spg)
    requires Ready(s, parent.ps) && Children(s.pending, parent) == {} && parent !in s.rev
    ensures Cancelled(s, parent) == s
  {
    UnderChildrenIsDesc(s.pending, parent);
    assert Under(s.pending, {}) == {};
    assert s.pending - {} == s.pending && s.rev - ({} + {parent}) == s.rev;
  }

  lemma AllCancelled(s: Splits, parent: Spg)
    requires Ready(s, parent.ps)
    ensures
      var t := Without(s, Children(s.pending, parent));
      Cancelled(s, parent) == t.(rev := t.rev - {parent})
  {
    UnderChildrenIsDesc(s.pending, parent);
    var under := Desc(s.pending, parent);
    assert s.rev - under - {parent} == s.rev - (under + {parent});
  }

  lemma StartOneMore(s: Splits, parent: Spg, done: set<Spg>, i: Spg)
    requires i !in done
    ensures
      var t := Started(s, parent, done);
      Started(s, parent, done + {i}) ==
        Splits(t.pending[i := parent], t.rev[parent := RevOf(t.rev, parent) + {i}], s.inProgress)
  {
    var t, u := Started(s, parent, done), Started(s, parent, done + {i});
    assert u.pending == t.pending[i := parent];
    assert RevOf(s.rev, parent) + (done + {i}) == RevOf(t.rev, parent) + {i};
  }

  /** The children in `done` moved from pending to in progress; the parent's set may be empty by now. */
  function Moved(s: Splits, parent: Spg, done: set<Spg>): Splits
    requires parent in s.rev
  {
    Splits(s.pending - done, s.rev[parent := s.rev[parent] - done], s.inProgress + done)
  }

  lemma MarkNone(s: Splits, parent: Spg)
    requires parent in s.rev
    ensures Moved(s, parent, {}) == s
  {
    assert s.rev[parent] - {} == s.rev[parent] && s.pending - {} == s.pending;
    assert s.rev[parent := s.rev[parent]] == s.rev;
  }

  lemma MarkOneMore(s: Splits, parent: Spg, done: set<Spg>, i: Spg)
    requires parent in s.rev
    ensures
      var t := Moved(s, parent, done);
      Moved(s, parent, done + {i}) ==
        Splits(t.pending - {i}, t.rev[parent := t.rev[parent] - {i}], t.inProgress + {i})
  {
    assert s.rev[parent] - done - {i} == s.rev[parent] - (done + {i});
    assert s.pending - done - {i} == s.pending - (done + {i});
    assert s.inProgress + done + {i} == s.inProgress + (done + {i});
  }

  lemma MovedAll(s: Splits, parent: Spg, children: set<Spg>)
    requires CanMark(s, parent, children)
    ensures
      var t := Moved(s, parent, children);
      Marked(s, parent, children) == if t.rev[parent] == {} then t.(rev := t.rev - {parent}) else t
  {
    var t := Moved(s, parent, children);
    if s.rev[parent] - children == {} {
      assert forall c | c in s.rev[parent] :: c in children || c in s.rev[parent] - children;
      assert s.rev[parent] == children;
    }
    assert t.rev - {parent} == s.rev - {parent};
  }

  // ----- lemmas for the loops of the expand operation -----

  /** The PGs the walk may meet: the survivors and the children that appear on the way. */
  function Walked(s: Splits, g: Growth): set<Spg> {
    Survivors(s, g) + AllKids(g, Survivors(s, g))
  }

  /** The state when `d` have been split and `x` dropped. */
  function Stage(s: Splits, g: Growth, d: set<Spg>, x: set<Spg>, ip: set<Spg>): Splits {
    Splits(MidPending(s, g, d, x), MidRev(s, g, d, x), ip)
  }

  lemma KidHasNoKids(s: Splits, g: Growth, i: Spg)
    requires CanExpand(s, g) && i in AllKids(g, Survivors(s, g))
    ensures Kids(g, i) == {} && i !in Tracked(s) && Alive(g, i)
    ensures i.pool in g.oldNum && g.oldNum[i.pool] <= i.ps < g.newNum[i.pool]
  {
    var j :| j in Survivors(s, g) && i in Kids(g, j);
    KidFacts(s, g, j, i);
  }

  lemma WalkedFacts(s: Splits, g: Growth, i: Spg)
    requires CanExpand(s, g) && i in Walked(s, g)
    ensures i.pool in g.oldNum && Alive(g, i) && (i.ps < g.oldNum[i.pool] || i.ps < g.newNum[i.pool])
    ensures forall c | c in Kids(g, i) :: c !in Tracked(s) && c.pool == i.pool && i.ps < c.ps && ParentOf(g, c) == i
  {
    if i !in Survivors(s, g) {
      KidHasNoKids(s, g, i);
    } else {
      forall c | c in Kids(g, i) ensures c !in Tracked(s) && c.pool == i.pool && i.ps < c.ps && ParentOf(g, c) == i {
        KidFacts(s, g, i, c);
      }
    }
  }

  lemma SameMap<K, V>(a: map<K, V>, b: map<K, V>)
    requires forall k :: k in a <==> k in b
    requires forall k | k in a :: a[k] == b[k]
    ensures a == b
  {
  }

  lemma MidPendingAt(s: Splits, g: Growth, d: set<Spg>, x: set<Spg>, c: Spg)
    ensures c in MidPending(s, g, d, x) <==> (c in s.pending && c !in x) || c in AllKids(g, d)
    ensures c in MidPending(s, g, d, x) ==>
              MidPending(s, g, d, x)[c] == if c in s.pending then s.pending[c] else ParentOf(g, c)
  {
  }

  lemma AllKidsMore(g: Growth, d: set<Spg>, i: Spg)
    ensures AllKids(g, d + {i}) == AllKids(g, d) + Kids(g, i)
  {
  }

  lemma KidsAreNew(g: Growth, d: set<Spg>, i: Spg, c: Spg)
    requires c in Kids(g, i) && i !in d
    ensures c !in AllKids(g, d)
  {
    if c in AllKids(g, d) {
      var j :| j in d && c in Kids(g, j);
      KidsApart(g, i, j, c);
    }
  }

  /** Splitting one more PG is a step from one intermediate state to the next. */
  lemma MidPendingSplits(s: Splits, g: Growth, d: set<Spg>, x: set<Spg>, i: Spg)
    requires CanExpand(s, g) && i in Walked(s, g) && i !in d && d <= Walked(s, g)
    ensures MidPending(s, g, d + {i}, x) == MidPending(s, g, d, x) + (map c | c in Kids(g, i) :: i)
    ensures Kids(g, i) !! MidPending(s, g, d, x).Keys
  {
    var mid, mid' := MidPending(s, g, d, x), MidPending(s, g, d + {i}, x);
    var target := mid + (map c | c in Kids(g, i) :: i);
    WalkedFacts(s, g, i);
    AllKidsMore(g, d, i);
    forall c
      ensures c in mid' <==> c in target
      ensures c in mid' ==> mid'[c] == target[c]
      ensures c in Kids(g, i) ==> c !in mid
    {
      MidPendingAt(s, g, d, x, c);
      MidPendingAt(s, g, d + {i}, x, c);
      if c in Kids(g, i) { KidsAreNew(g, d, i, c); }
    }
    SameMap(mid', target);
  }

  lemma MidRevAt(s: Splits, g: Growth, d: set<Spg>, x: set<Spg>, q: Spg)
    ensures q in MidRev(s, g, d, x) <==> (q in s.rev && q !in Parents(s, x)) || (q in d && Kids(g, q) != {})
    ensures q in MidRev(s, g, d, x) ==> MidRev(s, g, d, x)[q] == RevOf(s.rev, q) + if q in d then Kids(g, q) else {}
  {
  }

  lemma MidRevSplits(s: Splits, g: Growth, d: set<Spg>, x: set<Spg>, i: Spg)
    requires i !in d && i !in Parents(s, x)
    ensures
      var rev := MidRev(s, g, d, x);
      MidRev(s, g, d + {i}, x) == if Kids(g, i) == {} then rev else rev[i := RevOf(rev, i) + Kids(g, i)]
  {
    var kids, rev, rev' := Kids(g, i), MidRev(s, g, d, x), MidRev(s, g, d + {i}, x);
    var target := if kids == {} then rev else rev[i := RevOf(rev, i) + kids];
    forall q
      ensures q in rev' <==> q in target
      ensures q in rev' ==> rev'[q] == target[q]
    {
      MidRevAt(s, g, d, x, q);
      MidRevAt(s, g, d + {i}, x, q);
      if q == i { OneUnion(s.rev, rev, i); }
    }
    SameMap(rev', target);
  }

  lemma OneUnion(was: map<Spg, set<Spg>>, rev: map<Spg, set<Spg>>, i: Spg)
    requires i in rev ==> rev[i] == RevOf(was, i) + {}
    requires i !in rev ==> i !in was
    ensures RevOf(rev, i) == RevOf(was, i)
  {
  }

  lemma LiveIsNoDeadParent(s: Splits, g: Growth, x: set<Spg>, i: Spg)
    requires Ranked(s.pending) && x <= DeadPending(s, g) && Alive(g, i)
    ensures i !in Parents(s, x)
  {
  }

  /** One more split is one step of the walk, whichever loop makes it. */
  lemma MidSplits(s: Splits, g: Growth, d: set<Spg>, x: set<Spg>, ip: set<Spg>, i: Spg)
    requires Inv(s) && CanExpand(s, g) && i in Walked(s, g) && i !in d && d <= Walked(s, g)
    requires x <= DeadPending(s, g) && ip <= s.inProgress
    ensures
      var t := Splits(MidPending(s, g, d, x), MidRev(s, g, d, x), ip);
      && CanStart(t, i, Kids(g, i))
      && Started(t, i, Kids(g, i)) == Splits(MidPending(s, g, d + {i}, x), MidRev(s, g, d + {i}, x), ip)
  {
    WalkedFacts(s, g, i);
    LiveIsNoDeadParent(s, g, x, i);
    MidPendingSplits(s, g, d, x, i);
    MidRevSplits(s, g, d, x, i);
    if Kids(g, i) == {} {
      assert MidPending(s, g, d, x) + (map c | c in Kids(g, i) :: i) == MidPending(s, g, d, x);
    }
  }

  /** Dropping one more entry of a deleted pool. */
  lemma MidDrops(s: Splits, g: Growth, d: set<Spg>, x: set<Spg>, i: Spg)
    requires i in s.pending && i !in x && s.pending[i] !in d && i !in AllKids(g, d)
    ensures i in MidPending(s, g, d, x) && MidPending(s, g, d, x)[i] == s.pending[i]
    ensures MidPending(s, g, d, x + {i}) == MidPending(s, g, d, x) - {i}
    ensures MidRev(s, g, d, x + {i}) == MidRev(s, g, d, x) - {s.pending[i]}
  {
    var p, rev, rev' := s.pending[i], MidRev(s, g, d, x), MidRev(s, g, d, x + {i});
    assert Parents(s, x + {i}) == Parents(s, x) + {p};
    var target := rev - {p};
    forall q
      ensures q in rev' <==> q in target
      ensures q in rev' ==> rev'[q] == target[q]
    {
      MidRevAt(s, g, d, x, q);
      MidRevAt(s, g, d, x + {i}, q);
    }
    SameMap(rev', target);
    SameMap(MidPending(s, g, d, x + {i}), MidPending(s, g, d, x) - {i});
  }

  lemma DeadIsApart(s: Splits, g: Growth, d: set<Spg>, i: Spg)
    requires Ranked(s.pending) && CanExpand(s, g) && i in DeadPending(s, g) && d <= Walked(s, g)
    ensures s.pending[i] !in d && i !in AllKids(g, d)
  {
    forall j | j in d ensures Alive(g, j) && i !in Kids(g, j) { WalkedFacts(s, g, j); }
  }

  /** Of the entries there are now, `todo` have still to be met; of those of s, `d` have been split and `x` dropped. */
  ghost predicate Meeting(s: Splits, g: Growth, todo: set<Spg>, d: set<Spg>, x: set<Spg>, entries: set<Spg>) {
    && (forall i | i in todo :: i in entries && i !in d && i !in x)
    && (forall i | i in s.pending :: i in d || i in x || i in todo)
    && (forall i | i in entries :: i in d || i in todo)
    && (forall i | i in d :: i in LiveInProgress(s, g) || i in entries)
  }

  lemma MeetDead(s: Splits, g: Growth, todo: set<Spg>, d: set<Spg>, x: set<Spg>, entries: set<Spg>, i: Spg)
    requires Meeting(s, g, todo, d, x, entries) && i in todo
    ensures Meeting(s, g, todo - {i}, d, x + {i}, entries - {i})
  {
  }

  lemma MeetLive(s: Splits, g: Growth, todo: set<Spg>, d: set<Spg>, x: set<Spg>, entries: set<Spg>, i: Spg, kids: set<Spg>)
    requires Meeting(s, g, todo, d, x, entries) && i in todo
    requires forall c | c in kids :: c !in d + {i} && c !in x
    ensures Meeting(s, g, todo - {i} + kids, d + {i}, x, entries + kids)
  {
  }

  ghost predicate Placed(s: Splits, g: Growth, todo: set<Spg>) {
    forall i | i in todo :: if Alive(g, i) then i in Walked(s, g) else i in DeadPending(s, g)
  }

  /**
   The second loop on its way: `todo` are the entries its iterator has still to meet. An entry that is inserted
   has the pool of the one the iterator stands on and a larger seed, so that the iterator meets it later.
   */
  ghost predicate Walking(s: Splits, g: Growth, todo: set<Spg>, d: set<Spg>, x: set<Spg>, now: Splits) {
    && Inv(s) && CanExpand(s, g) && Meeting(s, g, todo, d, x, now.pending.Keys)
    && Placed(s, g, todo)
    && LiveInProgress(s, g) <= d <= Walked(s, g) && x <= DeadPending(s, g)
    && now == Stage(s, g, d, x, LiveInProgress(s, g))
  }

  /** A walk that met every entry, also those inserted on the way, split every survivor and dropped every dead one. */
  lemma WalkIsComplete(s: Splits, g: Growth, d: set<Spg>, x: set<Spg>, now: Splits)
    requires Walking(s, g, {}, d, x, now)
    ensures now == Expanded(s, g) && AllKids(g, d) <= d
  {
    forall i | i in Survivors(s, g) ensures i in d {
      assert i in s.pending || i in LiveInProgress(s, g);
    }
    forall i | i in DeadPending(s, g) ensures i in x {
      if i in d { WalkedFacts(s, g, i); }
    }
    assert x == DeadPending(s, g);
    MidIgnoresKids(s, g, d, x);
    forall i | i in AllKids(g, d) ensures i in d {
      MidPendingAt(s, g, d, x, i);
    }
  }

  /** Everything the second loop finds at first is a survivor, a new child or a dead entry. */
  lemma MetIsWalked(s: Splits, g: Growth, live: set<Spg>, all: set<Spg>)
    requires Inv(s) && CanExpand(s, g) && live == LiveInProgress(s, g)
    requires all == MidPending(s, g, live, {}).Keys
    ensures all !! live && live <= Walked(s, g) && s.pending.Keys <= all
    ensures forall i | i in all :: if Alive(g, i) then i in Walked(s, g) else i in DeadPending(s, g)
  {
    forall i | i in all
      ensures i !in live && if Alive(g, i) then i in Walked(s, g) else i in DeadPending(s, g)
    {
      if i !in s.pending {
        assert i in AllKids(g, live);
        var j :| j in live && i in Kids(g, j);
        assert j in Survivors(s, g);
        KidFacts(s, g, j, i);
      }
    }
  }

  /** One more entry split: its children are new, still to be met, and among those the walk may meet. */
  lemma WalkSplits(s: Splits, g: Growth, todo: set<Spg>, d: set<Spg>, x: set<Spg>, now: Splits, now': Splits, i: Spg)
    requires Walking(s, g, todo, d, x, now) && i in todo && Alive(g, i)
    requires now' == Stage(s, g, d + {i}, x, LiveInProgress(s, g))
    ensures Walking(s, g, todo - {i} + Kids(g, i), d + {i}, x, now')
  {
    SplitKeys(s, g, d, x, i);
    assert Placed(s, g, todo - {i} + Kids(g, i));
    MeetLive(s, g, todo, d, x, now.pending.Keys, i, Kids(g, i));
  }

  lemma SplitKeys(s: Splits, g: Growth, d: set<Spg>, x: set<Spg>, i: Spg)
    requires CanExpand(s, g) && i in Walked(s, g) && i !in d && d <= Walked(s, g) && x <= DeadPending(s, g)
    requires forall k | k in d :: k in LiveInProgress(s, g) || k in MidPending(s, g, d, x)
    ensures MidPending(s, g, d + {i}, x).Keys == MidPending(s, g, d, x).Keys + Kids(g, i)
    ensures Placed(s, g, Kids(g, i)) && forall c | c in Kids(g, i) :: c !in d + {i} && c !in x
  {
    MidPendingSplits(s, g, d, x, i);
    forall c | c in Kids(g, i) ensures c in Walked(s, g) && Alive(g, c) && c !in d + {i} && c !in x {
      NewKid(s, g, d, x, i, c);
    }
  }

  lemma NewKid(s: Splits, g: Growth, d: set<Spg>, x: set<Spg>, i: Spg, c: Spg)
    requires CanExpand(s, g) && i in Walked(s, g) && c in Kids(g, i) && x <= DeadPending(s, g)
    requires c !in MidPending(s, g, d, x)
    requires forall k | k in d :: k in LiveInProgress(s, g) || k in MidPending(s, g, d, x)
    ensures c in Walked(s, g) && Alive(g, c) && c !in d + {i} && c !in x
  {
    WalkedFacts(s, g, i);
    if i !in Survivors(s, g) { KidHasNoKids(s, g, i); }
  }

  /** One more entry of a deleted pool dropped. */
  lemma WalkDrops(s: Splits, g: Growth, todo: set<Spg>, d: set<Spg>, x: set<Spg>, now: Splits, now': Splits, i: Spg)
    requires Walking(s, g, todo, d, x, now) && i in todo && !Alive(g, i)
    requires now' == Stage(s, g, d, x + {i}, LiveInProgress(s, g))
    ensures Walking(s, g, todo - {i}, d, x + {i}, now')
  {
    DropKeys(s, g, d, x, i);
    assert Placed(s, g, todo - {i});
    MeetDead(s, g, todo, d, x, now.pending.Keys, i);
  }

  lemma DropKeys(s: Splits, g: Growth, d: set<Spg>, x: set<Spg>, i: Spg)
    requires Ranked(s.pending) && CanExpand(s, g) && i in DeadPending(s, g) && i !in x && d <= Walked(s, g)
    ensures MidPending(s, g, d, x + {i}).Keys == MidPending(s, g, d, x).Keys - {i}
  {
    DeadIsApart(s, g, d, i);
    MidDrops(s, g, d, x, i);
  }

  /** What has still to be met gets less with every entry, although entries are inserted. */
  lemma LessToMeet(s: Splits, g: Growth, todo: set<Spg>, d: set<Spg>, x: set<Spg>, now: Splits, i: Spg)
    requires Walking(s, g, todo, d, x, now) && i in todo
    ensures i in ToMeet(s, g, d, x)
    ensures ToMeet(s, g, d + {i}, x) == ToMeet(s, g, d, x + {i}) == ToMeet(s, g, d, x) - {i}
  {
  }

  function ToMeet(s: Splits, g: Growth, d: set<Spg>, x: set<Spg>): set<Spg> {
    Walked(s, g) + DeadPending(s, g) - d - x
  }

  /** Before anything is done nothing has changed. */
  lemma MidOfNothing(s: Splits, g: Growth)
    ensures MidPending(s, g, {}, {}) == s.pending && MidRev(s, g, {}, {}) == s.rev
  {
    assert AllKids(g, {}) == {} && Parents(s, {}) == {};
    forall q | q in s.rev ensures MidRev(s, g, {}, {})[q] == s.rev[q] {}
  }

  /** The children that appear on the way change nothing when the walk meets them. */
  lemma MidIgnoresKids(s: Splits, g: Growth, d: set<Spg>, x: set<Spg>)
    requires CanExpand(s, g) && Survivors(s, g) <= d <= Walked(s, g)
    ensures MidPending(s, g, d, x) == MidPending(s, g, Survivors(s, g), x)
    ensures MidRev(s, g, d, x) == MidRev(s, g, Survivors(s, g), x)
  {
    var live := Survivors(s, g);
    forall i | i in d && i !in live ensures Kids(g, i) == {} { KidHasNoKids(s, g, i); }
    assert AllKids(g, d) == AllKids(g, live);
    var rev, rev' := MidRev(s, g, live, x), MidRev(s, g, d, x);
    assert rev.Keys == rev'.Keys;
    forall q | q in rev ensures rev[q] == rev'[q] {}
  }

  // ----- the service -----

  class OSDService {
    var pendingSplits: map<Spg, Spg>
    var revPendingSplits: map<Spg, set<Spg>>
    var inProgressSplits: set<Spg>

    ghost function View(): Splits
      reads this
    {
      Splits(pendingSplits, revPendingSplits, inProgressSplits)
    }

    ghost predicate Valid()
      reads this
    {
      Inv(View())
    }

    constructor ()
      ensures Valid() && View() == Splits(map[], map[], {})
    {
      pendingSplits, revPendingSplits, inProgressSplits := map[], map[], {};
    }

    method StartSplit(parent: Spg, children: set<Spg>)
      requires CanStart(View(), parent, children)
      modifies this
      ensures View() == Started(old(View()), parent, children)
      ensures old(Valid()) ==> Valid()
    {
      ghost var s := View();
      if Valid() { StartedKeeps(s, parent, children); }
      var todo := children;
      while todo != {}
        invariant todo <= children
        invariant View() == Started(s, parent, children - todo)
      {
        var i :| i in todo;
        ghost var done := children - todo;
        StartOneMore(s, parent, done, i);
        assert i !in pendingSplits && i !in inProgressSplits;
        pendingSplits := pendingSplits[i := parent];
        revPendingSplits := revPendingSplits[parent := RevOf(revPendingSplits, parent) + {i}];
        todo := todo - {i};
        assert children - todo == done + {i};
      }
      assert children - {} == children;
    }

    method MarkSplitInProgress(parent: Spg, children: set<Spg>)
      requires Valid() && CanMark(View(), parent, children)
      modifies this
      ensures Valid() && View() == Marked(old(View()), parent, children)
    {
      ghost var s := View();
      MarkedKeeps(s, parent, children);
      var todo := children;
      MarkNone(s, parent);
      assert children - todo == {};
      while todo != {}
        invariant todo <= children && View() == Moved(s, parent, children - todo)
      {
        var i :| i in todo;
        ghost var done := children - todo;
        MarkOneMore(s, parent, done, i);
        assert i in revPendingSplits[parent] && i in pendingSplits && i !in inProgressSplits && pendingSplits[i] == parent;
        pendingSplits := pendingSplits - {i};
        revPendingSplits := revPendingSplits[parent := revPendingSplits[parent] - {i}];
        inProgressSplits := inProgressSplits + {i};
        todo := todo - {i};
        assert children - todo == done + {i};
      }
      assert children - {} == children;
      MovedAll(s, parent, children);
      if revPendingSplits[parent] == {} {
        revPendingSplits := revPendingSplits - {parent};
      }
    }

    method CancelPendingSplitsForParent(parent: Spg)
      requires Valid()
      modifies this
      ensures Valid() && View() == Cancelled(old(View()), parent)
    {
      CancelledKeeps(View(), parent);
      InverseIsLocal(pendingSplits, revPendingSplits);
      CancelRecursively(parent);
    }

    /** The recursion: exactly the descendants go, and each call leaves fewer pending splits. */
    method CancelRecursively(parent: Spg)
      requires Ready(View(), parent.ps)
      modifies this
      ensures View() == Cancelled(old(View()), parent)
      decreases |pendingSplits|, 3
    {
      ghost var s := View();
      RevIsChildren(s, parent);
      if parent !in revPendingSplits {
        NothingToCancel(s, parent);
        return;
      }
      CancelChildren(parent, revPendingSplits[parent]);
      AllCancelled(s, parent);
      revPendingSplits := revPendingSplits - {parent};
    }

    method CancelChildren(parent: Spg, children: set<Spg>)
      requires Ready(View(), parent.ps) && children == Children(pendingSplits, parent)
      modifies this
      ensures View() == Without(old(View()), children)
      decreases |pendingSplits|, 2
    {
      ghost var s := View();
      var todo := children;
      ghost var done: set<Spg> := {};
      WithoutNone(s);
      while todo != {}
        invariant Cancelling(s, parent, todo, done, View())
        decreases todo
      {
        var i :| i in todo;
        CancelNext(s, parent, todo, done, i);
        todo, done := todo - {i}, done + {i};
      }
      assert done == children;
    }

    method CancelNext(ghost s: Splits, parent: Spg, ghost todo: set<Spg>, ghost done: set<Spg>, i: Spg)
      requires Cancelling(s, parent, todo, done, View()) && i in todo
      modifies this
      ensures Cancelling(s, parent, todo - {i}, done + {i}, View())
      decreases |s.pending|, 1
    {
      CancelChild(s, parent, done, i);
      assert (todo - {i}) + (done + {i}) == todo + done;
    }

    method CancelChild(ghost s: Splits, parent: Spg, ghost done: set<Spg>, i: Spg)
      requires Ready(s, parent.ps) && View() == Without(s, done)
      requires done <= Children(s.pending, parent) && i in Children(s.pending, parent) && i !in done
      modifies this
      ensures View() == Without(s, done + {i})
      decreases |s.pending|, 0
    {
      ghost var t := View();
      ChildStep(s, parent, done, i, t, t.(pending := t.pending - {i}));
      assert i in pendingSplits && i !in inProgressSplits;
      pendingSplits := pendingSplits - {i};
      CancelRecursively(i);
    }

    method CompleteSplit(pgs: set<Spg>)
      requires Valid() && CanComplete(View(), pgs)
      modifies this
      ensures Valid() && View() == Completed(old(View()), pgs)
    {
      ghost var s := View();
      var todo := pgs;
      while todo != {}
        invariant todo <= pgs && View() == s.(inProgress := s.inProgress - (pgs - todo))
      {
        var i :| i in todo;
        assert i !in pendingSplits && i in inProgressSplits;
        inProgressSplits := inProgressSplits - {i};
        todo := todo - {i};
      }
    }

    method Splitting(pgid: Spg) returns (answer: bool)
      ensures answer <==> pgid in Tracked(View())
    {
      answer := pgid in inProgressSplits || pgid in pendingSplits;
    }

    method MaybeSplitPgid(g: Growth, pgid: Spg)
      requires pgid.pool in g.oldNum && pgid.pool in g.newNum
      requires pgid.ps < g.oldNum[pgid.pool] || pgid.ps < g.newNum[pgid.pool]
      requires CanStart(View(), pgid, Kids(g, pgid))
      modifies this
      ensures View() == Started(old(View()), pgid, Kids(g, pgid))
    {
      if pgid.ps < g.oldNum[pgid.pool] {
        StartSplit(pgid, Kids(g, pgid));
      } else {
        assert pgid.ps < g.newNum[pgid.pool];
      }
    }

    method ExpandPgNum(g: Growth)
      requires Valid() && CanExpand(View(), g)
      modifies this
      ensures Valid() && View() == Expanded(old(View()), g)
    {
      ghost var s := View();
      ExpandedKeeps(s, g);
      ExpandInProgress(g);
      ExpandPending(g, s);
    }

    /** First loop: in-progress PGs of deleted pools are forgotten, the others split. */
    method ExpandInProgress(g: Growth)
      requires Valid() && CanExpand(View(), g)
      modifies this
      ensures
        var s := old(View());
        var live := LiveInProgress(s, g);
        View() == Stage(s, g, live, {}, live)
    {
      ghost var s := View();
      MidOfNothing(s, g);
      ghost var d: set<Spg> := {};
      var todo := inProgressSplits;
      while todo != {}
        invariant todo <= s.inProgress && forall i :: i in d <==> i in s.inProgress && i !in todo && Alive(g, i)
        invariant View() == Stage(s, g, d, {}, todo + d)
      {
        var i :| i in todo;
        if !Alive(g, i) {
          inProgressSplits := inProgressSplits - {i};
        } else {
          SplitMet(g, s, d, {}, i);
          d := d + {i};
        }
        todo := todo - {i};
      }
      assert d == LiveInProgress(s, g) == {} + d;
    }

    /** A surviving PG met by either loop. */
    method SplitMet(g: Growth, ghost s: Splits, ghost d: set<Spg>, ghost x: set<Spg>, i: Spg)
      requires Inv(s) && CanExpand(s, g) && i in Walked(s, g) && i !in d && d <= Walked(s, g)
      requires x <= DeadPending(s, g) && inProgressSplits <= s.inProgress
      requires View() == Stage(s, g, d, x, inProgressSplits)
      modifies this
      ensures View() == Stage(s, g, d + {i}, x, old(inProgressSplits))
    {
      WalkedFacts(s, g, i);
      MidSplits(s, g, d, x, inProgressSplits, i);
      MaybeSplitPgid(g, i);
    }

    /** A pending entry of a deleted pool. */
    method DropMet(g: Growth, ghost s: Splits, ghost d: set<Spg>, ghost x: set<Spg>, i: Spg)
      requires Inv(s) && CanExpand(s, g) && d <= Walked(s, g) && i in DeadPending(s, g) && i !in x
      requires View() == Stage(s, g, d, x, inProgressSplits)
      modifies this
      ensures View() == Stage(s, g, d, x + {i}, old(inProgressSplits))
    {
      DeadIsApart(s, g, d, i);
      MidDrops(s, g, d, x, i);
      revPendingSplits := revPendingSplits - {pendingSplits[i]};
      pendingSplits := pendingSplits - {i};
    }

    /** Second loop: pending entries of deleted pools are dropped, the others split. */
    method ExpandPending(g: Growth, ghost s: Splits)
      requires Inv(s) && CanExpand(s, g)
      requires
        var live := LiveInProgress(s, g);
        View() == Stage(s, g, live, {}, live)
      modifies this
      ensures View() == Expanded(s, g)
    {
      ghost var d, x: set<Spg> := inProgressSplits, {};
      var todo := pendingSplits.Keys;
      MetIsWalked(s, g, d, todo);
      while todo != {}
        invariant Walking(s, g, todo, d, x, View())
        decreases ToMeet(s, g, d, x)
      {
        var i :| i in todo;
        LessToMeet(s, g, todo, d, x, View(), i);
        if !Alive(g, i) {
          DropNext(g, s, todo, d, x, i);
          x := x + {i};
          todo := todo - {i};
        } else {
          SplitNext(g, s, todo, d, x, i);
          d := d + {i};
          todo := todo - {i} + Kids(g, i);
        }
      }
      WalkIsComplete(s, g, d, x, View());
    }

    method SplitNext(g: Growth, ghost s: Splits, ghost todo: set<Spg>, ghost d: set<Spg>, ghost x: set<Spg>, i: Spg)
      requires Walking(s, g, todo, d, x, View()) && i in todo && Alive(g, i)
      modifies this
      ensures Walking(s, g, todo - {i} + Kids(g, i), d + {i}, x, View())
    {
      ghost var now := View();
      SplitMet(g, s, d, x, i);
      WalkSplits(s, g, todo, d, x, now, View(), i);
    }

    method DropNext(g: Growth, ghost s: Splits, ghost todo: set<Spg>, ghost d: set<Spg>, ghost x: set<Spg>, i: Spg)
      requires Walking(s, g, todo, d, x, View()) && i in todo && !Alive(g, i)
      modifies this
      ensures Walking(s, g, todo - {i}, d, x + {i}, View())
    {
      ghost var now := View();
      DropMet(g, s, d, x, i);
      WalkDrops(s, g, todo, d, x, now, View(), i);
    }
  }
}
