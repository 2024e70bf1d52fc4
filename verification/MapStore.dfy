/**
 The store of OSD maps: full maps and incrementals by epoch, and the range [oldest, newest] the
 superblock claims to hold. Maps and incrementals are abstract; `History` is the one canonical history
 that all honest messages are taken from.
 */
module MapStore {
  import opened Common

  datatype History<!M, !I> = History(at: nat -> M, inc: nat -> I, apply: (M, I) -> M, empty: M)

  function Base<M, I>(h: History<M, I>, e: nat): M {
    if e == 0 then h.empty else h.at(e)
  }

  /** Every map of the history is its predecessor with the incremental applied. */
  ghost predicate Coherent<M, I>(h: History<M, I>) {
    forall e: nat :: h.apply(Base(h, e), h.inc(e + 1)) == h.at(e + 1)
  }

  datatype Maps<M, I> = Maps(full: map<nat, M>, inc: map<nat, I>, oldest: nat, newest: nat, maxOldest: nat)

  /** A map message; `first` and `last` are its smallest and largest epoch, 0 if it is empty. */
  datatype MOSDMap<M, I> = MOSDMap(first: nat, last: nat, maps: map<nat, M>, incs: map<nat, I>, oldestMap: nat)

  ghost predicate Honest<M, I>(h: History<M, I>, full: map<nat, M>, inc: map<nat, I>) {
    (forall e | e in full :: full[e] == h.at(e)) && (forall e | e in inc :: inc[e] == h.inc(e))
  }

  /**
   A message holds canonical maps for all of [first, last]. If it reaches back to the oldest map its
   sender knows of, it starts with a full map, which is what makes skipping epochs possible.
   */
  ghost predicate WellFormed<M, I>(h: History<M, I>, m: MOSDMap<M, I>) {
    && Honest(h, m.maps, m.incs)
    && (forall e | m.first <= e <= m.last && e != 0 :: e in m.maps || e in m.incs)
    && (m.last != 0 ==> 1 <= m.first <= m.last)
    && (m.last != 0 && m.first <= m.oldestMap ==> m.first in m.maps)
  }

  // ----- handling one message -----

  function Start<M, I>(s: Maps<M, I>, m: MOSDMap<M, I>): nat {
    Max(s.newest + 1, m.first)
  }

  predicate Skips<M, I>(s: Maps<M, I>, m: MOSDMap<M, I>) {
    s.newest + 1 < m.first
  }

  /** The message brings something new, without a gap or with one that cannot be filled any more. */
  predicate Usable<M, I>(s: Maps<M, I>, m: MOSDMap<M, I>) {
    s.newest < m.last && (Skips(s, m) ==> s.newest + 1 < m.oldestMap && m.first <= m.oldestMap)
  }

  /** The last epoch before the first incremental whose checksum fails. */
  function LastGood<M, I>(m: MOSDMap<M, I>, bad: set<nat>, e: nat): nat
    decreases m.last + 1 - e
  {
    if m.last < e then m.last
    else if e !in m.maps && e in bad && 0 < e then e - 1
    else LastGood(m, bad, e + 1)
  }

  /** How far one trim moves the oldest epoch; it stops early unless epochs are being skipped. */
  function TrimmedOldest(oldest: nat, min: nat, target: nat, received: nat, skip: bool): nat {
    if min <= oldest then oldest
    else if skip then min
    else Min(min, oldest + Max(1, Max(target, received)))
  }

  /**
   A trim that moved the oldest epoch from `oldest` to `result`: it never passes `min`; when epochs are skipped it
   reaches `min`; otherwise it reaches `min` or has removed at least `target` and at least `received` epochs, and it
   removes no more than that takes.
   */
  predicate TrimsRight(oldest: nat, min: nat, target: nat, received: nat, skip: bool, result: nat) {
    && oldest <= result && (min <= oldest ==> result == oldest)
    && (oldest < min ==>
          && result <= min
          && (result == min || (!skip && target <= result - oldest && received <= result - oldest))
          && (!skip && oldest + 1 < result ==> result - oldest <= target || result - oldest <= received))
  }

  lemma TrimmedOldestIs(oldest: nat, min: nat, target: nat, received: nat, skip: bool)
    ensures TrimsRight(oldest, min, target, received, skip, TrimmedOldest(oldest, min, target, received, skip))
  {
  }

  function Received<M, I>(m: MOSDMap<M, I>, last: nat): nat {
    if m.first <= last then last - m.first + 1 else 0
  }

  function Dropped<T>(m: map<nat, T>, from: nat, to: nat): map<nat, T> {
    map e | e in m && !(from <= e < to) :: m[e]
  }

  lemma DroppedNone<T>(m: map<nat, T>, from: nat)
    ensures Dropped(m, from, from) == m
  {
  }

  lemma DroppedStep<T>(m: map<nat, T>, from: nat, e: nat)
    requires from <= e
    ensures Dropped(m, from, e) - {e} == Dropped(m, from, e + 1)
  {
  }

  /** The incrementals written; the one whose checksum fails is among them. */
  function NewIncs<M, I>(m: MOSDMap<M, I>, start: nat, last: nat): map<nat, I> {
    map e | e in m.incs && start <= e <= Min(last + 1, m.last) && e !in m.maps :: m.incs[e]
  }

  /** Configuration and environment of one message. */
  datatype Env = Env(bad: set<nat>, cacheLow: nat, target: nat)

  /** The message leads to new maps in the store. */
  predicate Stores<M, I>(s: Maps<M, I>, m: MOSDMap<M, I>, env: Env) {
    Usable(s, m) && s.newest < LastGood(m, env.bad, Start(s, m))
  }

  function Trimmed<M, I>(s: Maps<M, I>, m: MOSDMap<M, I>, env: Env): nat {
    if s.oldest == 0 then 0
    else TrimmedOldest(s.oldest, Min(m.oldestMap, env.cacheLow), env.target,
                       Received(m, LastGood(m, env.bad, Start(s, m))), Skips(s, m))
  }

  function OldestAfter<M, I>(s: Maps<M, I>, m: MOSDMap<M, I>, env: Env): nat {
    if s.oldest == 0 || Skips(s, m) then m.first else Trimmed(s, m, env)
  }

  function Canonical<M, I>(h: History<M, I>, from: nat, to: nat): map<nat, M> {
    map e | from <= e <= to :: h.at(e)
  }

  /** The store after one message, in terms of the canonical history. */
  function Handled<M, I>(h: History<M, I>, s: Maps<M, I>, m: MOSDMap<M, I>, env: Env): Maps<M, I> {
    var maxOldest := Max(s.maxOldest, m.oldestMap);
    if !Stores(s, m, env) then s.(maxOldest := maxOldest)
    else
      var start, trimmed := Start(s, m), Trimmed(s, m, env);
      var last := LastGood(m, env.bad, start);
      Maps(Dropped(s.full, s.oldest, trimmed) + Canonical(h, start, last),
           Dropped(s.inc, s.oldest, trimmed) + NewIncs(m, start, last),
           OldestAfter(s, m, env), last, maxOldest)
  }

  /** Every epoch of the claimed range is there and is the canonical one. */
  ghost predicate Inv<M, I>(h: History<M, I>, s: Maps<M, I>) {
    && Honest(h, s.full, s.inc)
    && (s.newest == 0 ==> s.oldest == 0)
    && (s.newest != 0 ==> 1 <= s.oldest <= s.newest)
    && (forall e | s.oldest <= e <= s.newest && e != 0 :: e in s.full)
    && s.oldest <= Max(s.maxOldest, 1)
  }

  lemma {:induction false} LastGoodRange<M, I>(m: MOSDMap<M, I>, bad: set<nat>, e: nat)
    requires e <= m.last + 1
    ensures e <= LastGood(m, bad, e) + 1 <= m.last + 1
    ensures forall k | e <= k <= LastGood(m, bad, e) :: k in m.maps || k !in bad || k == 0
    ensures LastGood(m, bad, e) < m.last ==>
              LastGood(m, bad, e) + 1 !in m.maps && LastGood(m, bad, e) + 1 in bad
    decreases m.last + 1 - e
  {
    if e <= m.last && !(e !in m.maps && e in bad && 0 < e) {
      LastGoodRange(m, bad, e + 1);
    }
  }

  /** A skipping message starts with a full map, so its first map is always stored. */
  lemma SkipStoresFirst<M, I>(h: History<M, I>, s: Maps<M, I>, m: MOSDMap<M, I>, bad: set<nat>)
    requires WellFormed(h, m) && Usable(s, m) && Skips(s, m)
    ensures m.first <= LastGood(m, bad, m.first)
  {
    LastGoodRange(m, bad, m.first + 1);
  }

  /** The range that is left after a message: trimming never overtakes what has just been stored. */
  lemma OldestStaysBelow<M, I>(h: History<M, I>, s: Maps<M, I>, m: MOSDMap<M, I>, env: Env)
    requires Inv(h, s) && WellFormed(h, m) && env.cacheLow <= Start(s, m) && Stores(s, m, env)
    ensures
      var oldest := OldestAfter(s, m, env);
      && 1 <= oldest <= LastGood(m, env.bad, Start(s, m))
      && oldest <= Max(Max(s.maxOldest, m.oldestMap), 1)
      && (oldest < Start(s, m) ==> s.oldest != 0 && !Skips(s, m) && s.oldest <= oldest == Trimmed(s, m, env))
  {
    LastGoodRange(m, env.bad, Start(s, m));
    if Skips(s, m) { SkipStoresFirst(h, s, m, env.bad); }
  }

  lemma HonestUnion<M, I>(h: History<M, I>, s: Maps<M, I>, m: MOSDMap<M, I>, env: Env)
    requires Honest(h, s.full, s.inc) && Honest(h, m.maps, m.incs)
    ensures Honest(h, Handled(h, s, m, env).full, Handled(h, s, m, env).inc)
  {
  }

  /** One message keeps the store canonical, whatever is trimmed, skipped or cut off by a checksum. */
  lemma HandledKeeps<M, I>(h: History<M, I>, s: Maps<M, I>, m: MOSDMap<M, I>, env: Env)
    requires Inv(h, s) && WellFormed(h, m) && env.cacheLow <= Start(s, m)
    ensures Inv(h, Handled(h, s, m, env)) && s.newest <= Handled(h, s, m, env).newest
  {
    HonestUnion(h, s, m, env);
    if Stores(s, m, env) {
      OldestStaysBelow(h, s, m, env);
      var s' := Handled(h, s, m, env);
      forall e | s'.oldest <= e <= s'.newest && e != 0 ensures e in s'.full {
        if e < Start(s, m) {
          assert e in s.full;
          assert e in Dropped(s.full, s.oldest, Trimmed(s, m, env));
        } else {
          assert e in Canonical(h, Start(s, m), s'.newest);
        }
      }
    }
  }

  /**
   Exactly when a message leads to new maps: it reaches beyond the newest one, without a gap or with one that cannot be
   filled any more, and its first new epoch comes as a full map or with a good checksum. Otherwise nothing is stored.
   */
  lemma StoresExactly<M, I>(h: History<M, I>, s: Maps<M, I>, m: MOSDMap<M, I>, env: Env)
    requires Inv(h, s) && WellFormed(h, m)
    ensures
      var start := Max(s.newest + 1, m.first);
      s.newest < Handled(h, s, m, env).newest <==>
        && s.newest < m.last
        && (m.first <= s.newest + 1 || (s.newest + 1 < m.oldestMap && m.first <= m.oldestMap))
        && (start in m.maps || start !in env.bad)
    ensures s.newest == Handled(h, s, m, env).newest ==> Handled(h, s, m, env) == s.(maxOldest := Max(s.maxOldest, m.oldestMap))
    ensures Stores(s, m, env) <==> s.newest < Handled(h, s, m, env).newest
  {
    if s.newest < m.last {
      LastGoodRange(m, env.bad, Start(s, m));
      if Usable(s, m) && Skips(s, m) { SkipStoresFirst(h, s, m, env.bad); }
    }
  }

  /**
   The range claimed after a message that leads to new maps: it ends right before the first bad checksum, and begins
   with the message if there were no maps or epochs were skipped, and where the trim ended otherwise.
   */
  lemma HandledRange<M, I>(h: History<M, I>, s: Maps<M, I>, m: MOSDMap<M, I>, env: Env) returns (trimmed: nat)
    requires Inv(h, s) && WellFormed(h, m) && env.cacheLow <= Start(s, m) && Stores(s, m, env)
    ensures trimmed == Trimmed(s, m, env)
    ensures
      var s' := Handled(h, s, m, env);
      && s.newest < s'.newest <= m.last && m.first <= s'.newest && s'.maxOldest == Max(s.maxOldest, m.oldestMap)
      && (forall e | s.newest < e <= s'.newest && m.first <= e :: e in m.maps || e !in env.bad)
      && (s'.newest < m.last ==> s'.newest + 1 !in m.maps && s'.newest + 1 in env.bad)
      && s'.oldest == (if s.oldest == 0 || s.newest + 1 < m.first then m.first else trimmed)
      && (if s.oldest == 0 then trimmed == 0
          else TrimsRight(s.oldest, Min(m.oldestMap, env.cacheLow), env.target,
                          s'.newest - m.first + 1, s.newest + 1 < m.first, trimmed))
  {
    trimmed := Trimmed(s, m, env);
    var last := LastGood(m, env.bad, Start(s, m));
    LastGoodRange(m, env.bad, Start(s, m));
    OldestStaysBelow(h, s, m, env);
    TrimmedOldestIs(s.oldest, Min(m.oldestMap, env.cacheLow), env.target, Received(m, last), Skips(s, m));
  }

  /** What is in the store then: the maps the message brought, and what was there before except the epochs trimmed. */
  lemma HandledContents<M, I>(h: History<M, I>, s: Maps<M, I>, m: MOSDMap<M, I>, env: Env)
    requires Stores(s, m, env)
    ensures
      var s', trimmed := Handled(h, s, m, env), Trimmed(s, m, env);
      && (forall e :: e in s'.full <==>
            (e in s.full && !(s.oldest <= e < trimmed)) || (s.newest < e <= s'.newest && m.first <= e))
      && (forall e :: e in s'.inc <==>
            || (e in s.inc && !(s.oldest <= e < trimmed))
            || (e in m.incs && e !in m.maps && s.newest < e && m.first <= e <= Min(s'.newest + 1, m.last)))
  {
  }

  // ----- every run -----

  datatype Event<M, I> = Event(msg: MOSDMap<M, I>, env: Env)

  /** The messages of `evs`, handled one after the other from the state `s0` found at start-up. */
  ghost function Run<M, I>(h: History<M, I>, s0: Maps<M, I>, evs: seq<Event<M, I>>): Maps<M, I> {
    if evs == [] then s0
    else
      var s, ev := Run(h, s0, evs[..|evs| - 1]), evs[|evs| - 1];
      if WellFormed(h, ev.msg) && ev.env.cacheLow <= Start(s, ev.msg) then Handled(h, s, ev.msg, ev.env) else s
  }

  /**
   Store safety: after every sequence of honest messages, each epoch in [oldest, newest] has a full
   map and it is the canonical map of that epoch.
   */
  lemma {:induction false} StoreIsCanonical<M, I>(h: History<M, I>, s0: Maps<M, I>, evs: seq<Event<M, I>>)
    requires Inv(h, s0)
    ensures Inv(h, Run(h, s0, evs))
    ensures forall e | Run(h, s0, evs).oldest <= e <= Run(h, s0, evs).newest && e != 0 ::
              e in Run(h, s0, evs).full && Run(h, s0, evs).full[e] == h.at(e)
  {
    if evs != [] {
      var s, ev := Run(h, s0, evs[..|evs| - 1]), evs[|evs| - 1];
      StoreIsCanonical(h, s0, evs[..|evs| - 1]);
      if WellFormed(h, ev.msg) && ev.env.cacheLow <= Start(s, ev.msg) { HandledKeeps(h, s, ev.msg, ev.env); }
    }
  }

  /** The newest epoch never decreases along a run. */
  lemma {:induction false} NewestNeverDecreases<M, I>(h: History<M, I>, s0: Maps<M, I>, evs: seq<Event<M, I>>, n: nat)
    requires Inv(h, s0) && n <= |evs|
    ensures Run(h, s0, evs[..n]).newest <= Run(h, s0, evs).newest
    decreases |evs|
  {
    if n == |evs| {
      assert evs[..n] == evs;
    } else {
      var s, ev := Run(h, s0, evs[..|evs| - 1]), evs[|evs| - 1];
      assert evs[..|evs| - 1][..n] == evs[..n];
      NewestNeverDecreases(h, s0, evs[..|evs| - 1], n);
      StoreIsCanonical(h, s0, evs[..|evs| - 1]);
      if WellFormed(h, ev.msg) && ev.env.cacheLow <= Start(s, ev.msg) { HandledKeeps(h, s, ev.msg, ev.env); }
    }
  }

  /** Exactly when a message whose checksums are good takes the store to its last epoch. */
  lemma ReachesLastExactly<M, I>(h: History<M, I>, s: Maps<M, I>, m: MOSDMap<M, I>, env: Env)
    requires Inv(h, s) && WellFormed(h, m) && env.cacheLow <= Start(s, m) && s.newest < m.last
    requires forall e | Start(s, m) <= e <= m.last :: e in m.maps || e !in env.bad
    ensures Handled(h, s, m, env).newest == m.last <==>
            m.first <= s.newest + 1 || (s.newest + 1 < m.oldestMap && m.first <= m.oldestMap)
    ensures Handled(h, s, m, env).newest == m.last ==>
              m.last in Handled(h, s, m, env).full && Handled(h, s, m, env).full[m.last] == h.at(m.last)
  {
    LastGoodRange(m, env.bad, Start(s, m));
    HandledKeeps(h, s, m, env);
  }

  // ----- the imperative form -----

  class OSD<M, I> {
    var full: map<nat, M>
    var inc: map<nat, I>
    var oldestMap: nat
    var newestMap: nat
    var maxOldestMap: nat

    ghost function View(): Maps<M, I>
      reads this
    {
      Maps(full, inc, oldestMap, newestMap, maxOldestMap)
    }

    constructor ()
      ensures View() == Maps<M, I>.Maps(map[], map[], 0, 0, 0)
    {
      full, inc, oldestMap, newestMap, maxOldestMap := map[], map[], 0, 0, 0;
    }

    /** Removes old epochs one by one; `min` is the smaller of the sender's oldest map and the cache's lower bound. */
    method TrimMaps(min: nat, target: nat, received: nat, skip: bool)
      modifies this
      ensures oldestMap == TrimmedOldest(old(oldestMap), min, target, received, skip)
      ensures TrimsRight(old(oldestMap), min, target, received, skip, oldestMap)
      ensures forall e :: e in full <==> e in old(full) && !(old(oldestMap) <= e < oldestMap)
      ensures forall e :: e in inc <==> e in old(inc) && !(old(oldestMap) <= e < oldestMap)
      ensures full == Dropped(old(full), old(oldestMap), oldestMap) && inc == Dropped(old(inc), old(oldestMap), oldestMap)
      ensures newestMap == old(newestMap) && maxOldestMap == old(maxOldestMap)
    {
      ghost var o := oldestMap;
      TrimmedOldestIs(o, min, target, received, skip);
      DroppedNone(full, o);
      DroppedNone(inc, o);
      if min <= oldestMap {
        return;
      }
      var num := 0;
      var e := oldestMap;
      while e < min
        invariant o <= e == oldestMap <= min && newestMap == old(newestMap) && maxOldestMap == old(maxOldestMap)
        invariant full == Dropped(old(full), o, e) && inc == Dropped(old(inc), o, e)
        invariant !skip ==> num == e - o && (num < 1 || num < target || num < received)
      {
        DroppedStep(old(full), o, e);
        DroppedStep(old(inc), o, e);
        full, inc := full - {e}, inc - {e};
        oldestMap := e + 1;
        num := num + 1;
        if num >= target && num >= received {
          if !skip {
            return;
          }
          num := 0;
        }
        e := e + 1;
      }
    }

    /** Handles a message; only `apply` and `empty` of the history are used by the code. */
    method HandleOsdMap(ghost h: History<M, I>, apply: (M, I) -> M, empty: M, m: MOSDMap<M, I>, env: Env)
      requires Coherent(h) && h.apply == apply && h.empty == empty
      requires Inv(h, View()) && WellFormed(h, m) && env.cacheLow <= Start(View(), m)
      modifies this
      ensures View() == Handled(h, old(View()), m, env)
      ensures Inv(h, View())
    {
      ghost var s := View();
      HandledKeeps(h, s, m, env);
      if maxOldestMap < m.oldestMap {
        maxOldestMap := m.oldestMap;
        assert maxOldestMap >= oldestMap;
      }
      RaisedFirst(h, s, View(), m, env);
      if m.last <= newestMap {
        return;
      }
      var skipMaps := false;
      if m.first > newestMap + 1 {
        if m.oldestMap <= newestMap + 1 {
          return;
        }
        if m.oldestMap < m.first {
          return;
        }
        skipMaps := true;
      }
      StoreUsable(h, apply, empty, m, env, skipMaps);
    }

    method StoreUsable(ghost h: History<M, I>, apply: (M, I) -> M, empty: M, m: MOSDMap<M, I>, env: Env, skipMaps: bool)
      requires Coherent(h) && h.apply == apply && h.empty == empty
      requires Inv(h, View()) && WellFormed(h, m) && env.cacheLow <= Start(View(), m)
      requires Usable(View(), m) && skipMaps == Skips(View(), m) && m.oldestMap <= maxOldestMap
      modifies this
      ensures View() == Handled(h, old(View()), m, env)
    {
      ghost var s := View();
      var start := Max(newestMap + 1, m.first);
      BaseIsThere(h, s, m);
      var newFull, newInc, last := StoreMaps(h, apply, empty, m, env.bad, start);
      if last <= newestMap {
        return;
      }
      OldestStaysBelow(h, s, m, env);
      Commit(m, env, newFull, newInc, last, skipMaps);
    }

    /** Trims, then writes the new maps and the superblock. */
    method Commit(m: MOSDMap<M, I>, env: Env, newFull: map<nat, M>, newInc: map<nat, I>, last: nat, skipMaps: bool)
      requires m.first <= last && skipMaps == Skips(View(), m)
      modifies this
      ensures
        var s := old(View());
        var trimmed := if s.oldest == 0 then 0
                       else TrimmedOldest(s.oldest, Min(m.oldestMap, env.cacheLow), env.target, Received(m, last), skipMaps);
        View() == Maps(Dropped(s.full, s.oldest, trimmed) + newFull, Dropped(s.inc, s.oldest, trimmed) + newInc,
                       if s.oldest == 0 || skipMaps then m.first else trimmed, last, s.maxOldest)
    {
      if oldestMap != 0 {
        TrimMaps(Min(m.oldestMap, env.cacheLow), env.target, last - m.first + 1, skipMaps);
      } else {
        assert full == Dropped(full, 0, 0) && inc == Dropped(inc, 0, 0);
      }
      full, inc := full + newFull, inc + newInc;
      if oldestMap == 0 || skipMaps {
        oldestMap := m.first;
      }
      newestMap := last;
    }

    /** The loop over the epochs of the message: full maps are taken over, incrementals applied to the map before. */
    method StoreMaps(ghost h: History<M, I>, apply: (M, I) -> M, empty: M, m: MOSDMap<M, I>, bad: set<nat>, start: nat)
      returns (newFull: map<nat, M>, newInc: map<nat, I>, last: nat)
      requires Coherent(h) && h.apply == apply && h.empty == empty && WellFormed(h, m)
      requires Honest(h, full, inc) && 0 < start && m.first <= start <= m.last
      requires start in m.maps || start == 1 || start - 1 in full
      ensures last == LastGood(m, bad, start)
      ensures newFull == Canonical(h, start, last)
      ensures newInc == NewIncs(m, start, last)
    {
      newFull, newInc, last := map[], map[], m.last;
      var e := start;
      while e <= m.last
        invariant Storing(h, m, bad, start, e, newFull, newInc)
      {
        var good;
        newFull, newInc, good := StoreOne(h, apply, empty, m, bad, newFull, newInc, start, e);
        if !good {
          StoredSome(m, bad, start, e);
          last := e - 1;
          return;
        }
        StoredOne(h, m, bad, start, e, newFull, newInc);
        e := e + 1;
      }
      StoredAll(h, m, bad, start, newFull, newInc);
    }

    /** One epoch of the message; `good` is false when the checksum of its incremental fails. */
    method StoreOne(ghost h: History<M, I>, apply: (M, I) -> M, empty: M, m: MOSDMap<M, I>, bad: set<nat>,
                    f: map<nat, M>, i: map<nat, I>, ghost start: nat, e: nat)
      returns (newFull: map<nat, M>, newInc: map<nat, I>, good: bool)
      requires Coherent(h) && h.apply == apply && h.empty == empty && WellFormed(h, m)
      requires Honest(h, full, inc) && 0 < start && m.first <= start <= e <= m.last
      requires start in m.maps || start == 1 || start - 1 in full
      requires f == Canonical(h, start, e - 1) && i == IncsUpTo(m, start, e)
      ensures newInc == IncsUpTo(m, start, e + 1)
      ensures good <==> e in m.maps || e !in bad
      ensures newFull == if good then Canonical(h, start, e) else f
    {
      newFull, newInc, good := f, i, true;
      IncsStep(m, start, e);
      CanonicalStep(h, start, e);
      if e in m.maps {
        newFull := newFull[e := m.maps[e]];
      } else {
        newInc := newInc[e := m.incs[e]];
        var o := Encode(h, apply, empty, f, start, e, m.incs[e]);
        if e in bad {
          good := false;
          return;
        }
        newFull := newFull[e := o];
      }
    }

    /** The map of epoch e, built from the map before it and the incremental. */
    method Encode(ghost h: History<M, I>, apply: (M, I) -> M, empty: M, newFull: map<nat, M>, ghost start: nat, e: nat, bl: I)
      returns (o: M)
      requires Coherent(h) && h.apply == apply && h.empty == empty && Honest(h, full, inc)
      requires 0 < start <= e && bl == h.inc(e) && newFull == Canonical(h, start, e - 1)
      requires e != start || e == 1 || e - 1 in full
      ensures o == h.at(e)
    {
      NextMap(h, e);
      o := empty;
      if e > 1 {
        o := if e - 1 in newFull then newFull[e - 1] else full[e - 1];
      }
      o := apply(o, bl);
    }
  }

  /** The loop over the epochs of a message before epoch e. */
  ghost predicate Storing<M, I>(h: History<M, I>, m: MOSDMap<M, I>, bad: set<nat>, start: nat, e: nat,
                                f: map<nat, M>, i: map<nat, I>)
  {
    && 0 < start <= e <= m.last + 1 && LastGood(m, bad, start) == LastGood(m, bad, e)
    && f == Canonical(h, start, e - 1) && i == IncsUpTo(m, start, e)
  }

  lemma StoredOne<M, I>(h: History<M, I>, m: MOSDMap<M, I>, bad: set<nat>, start: nat, e: nat,
                        f: map<nat, M>, i: map<nat, I>)
    requires 0 < start <= e <= m.last && LastGood(m, bad, start) == LastGood(m, bad, e)
    requires e in m.maps || e !in bad
    requires f == Canonical(h, start, e) && i == IncsUpTo(m, start, e + 1)
    ensures Storing(h, m, bad, start, e + 1, f, i)
  {
  }

  lemma StoredSome<M, I>(m: MOSDMap<M, I>, bad: set<nat>, start: nat, e: nat)
    requires 0 < start <= e <= m.last && LastGood(m, bad, start) == LastGood(m, bad, e)
    requires e !in m.maps && e in bad
    ensures LastGood(m, bad, start) == e - 1 && IncsUpTo(m, start, e + 1) == NewIncs(m, start, e - 1)
  {
    IncsStep(m, start, e);
  }

  lemma StoredAll<M, I>(h: History<M, I>, m: MOSDMap<M, I>, bad: set<nat>, start: nat, f: map<nat, M>, i: map<nat, I>)
    requires Storing(h, m, bad, start, m.last + 1, f, i) && start <= m.last
    ensures m.last == LastGood(m, bad, start) && f == Canonical(h, start, m.last) && i == NewIncs(m, start, m.last)
  {
    IncsStep(m, start, m.last);
  }

  lemma CanonicalStep<M, I>(h: History<M, I>, start: nat, e: nat)
    requires 0 < start <= e
    ensures Canonical(h, start, e) == Canonical(h, start, e - 1)[e := h.at(e)]
  {
  }

  lemma IncsStep<M, I>(m: MOSDMap<M, I>, start: nat, e: nat)
    requires start <= e <= m.last
    ensures IncsUpTo(m, start, e + 1) ==
            if e in m.incs && e !in m.maps then IncsUpTo(m, start, e)[e := m.incs[e]] else IncsUpTo(m, start, e)
    ensures 0 < e ==> IncsUpTo(m, start, e + 1) == NewIncs(m, start, e - 1)
    ensures e == m.last ==> IncsUpTo(m, start, e + 1) == NewIncs(m, start, e)
  {
  }

  lemma RaisedFirst<M, I>(h: History<M, I>, s: Maps<M, I>, r: Maps<M, I>, m: MOSDMap<M, I>, env: Env)
    requires Inv(h, s) && r == s.(maxOldest := Max(s.maxOldest, m.oldestMap))
    ensures Inv(h, r) && Start(r, m) == Start(s, m) && Handled(h, r, m, env) == Handled(h, s, m, env)
  {
    assert Trimmed(r, m, env) == Trimmed(s, m, env);
  }

  function IncsUpTo<M, I>(m: MOSDMap<M, I>, start: nat, end: nat): map<nat, I> {
    map e | e in m.incs && start <= e < end && e !in m.maps :: m.incs[e]
  }

  lemma NextMap<M, I>(h: History<M, I>, e: nat)
    requires Coherent(h) && 0 < e
    ensures h.apply(if e == 1 then h.empty else h.at(e - 1), h.inc(e)) == h.at(e)
  {
    assert h.apply(Base(h, e - 1), h.inc((e - 1) + 1)) == h.at((e - 1) + 1);
  }

  /** The map the first new incremental builds on is in the store, or no map is needed. */
  lemma BaseIsThere<M, I>(h: History<M, I>, s: Maps<M, I>, m: MOSDMap<M, I>)
    requires Inv(h, s) && WellFormed(h, m) && Usable(s, m)
    ensures var start := Start(s, m); start in m.maps || start == 1 || start - 1 in s.full
  {
  }
}
