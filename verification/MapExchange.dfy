/**
 Sending maps to a peer: `build_incremental_map_msg` walks down from the newest epoch wanted and
 collects incrementals until it reaches the peer's epoch or has to fall back on a full map.
 */
module MapExchange {
  import opened Common
  import opened MapStore

  /** An incremental is used only above the oldest map known anywhere. */
  predicate SendsInc<M, I>(s: Maps<M, I>, e: nat) {
    s.maxOldest < e && e in s.inc
  }

  /** The smallest epoch in the message for (since, e], or None if a map is missing. */
  function Lowest<M, I>(s: Maps<M, I>, since: nat, e: nat): Option<nat> {
    if e <= since then Some(since + 1)
    else if SendsInc(s, e) then Lowest(s, since, e - 1)
    else if e in s.full then Some(e)
    else None
  }

  function MapsFrom<M, I>(s: Maps<M, I>, low: nat): map<nat, M> {
    if !SendsInc(s, low) && low in s.full then map[low := s.full[low]] else map[]
  }

  function IncsFrom<M, I>(s: Maps<M, I>, low: nat, to: nat): map<nat, I> {
    map e | e in s.inc && low <= e <= to && s.maxOldest < e :: s.inc[e]
  }

  function Built<M, I>(s: Maps<M, I>, since: nat, to: nat): Option<MOSDMap<M, I>> {
    if to <= since then Some(MOSDMap(0, 0, map[], map[], s.maxOldest))
    else
      match Lowest(s, since, to)
      case None => None
      case Some(low) => Some(MOSDMap(low, to, MapsFrom(s, low), IncsFrom(s, low, to), s.maxOldest))
  }

  lemma {:induction false} LowestRange<M, I>(s: Maps<M, I>, since: nat, e: nat)
    requires since < e && Lowest(s, since, e).Some?
    ensures since < Lowest(s, since, e).value <= e
    ensures forall k | Lowest(s, since, e).value < k <= e :: SendsInc(s, k)
    ensures
      var low := Lowest(s, since, e).value;
      (low == since + 1 && SendsInc(s, low)) || (!SendsInc(s, low) && low in s.full)
  {
    if SendsInc(s, e) && since < e - 1 {
      LowestRange(s, since, e - 1);
    }
  }

  /**
   Every message built for (since, to] is contiguous, ends at `to`, starts at since+1 or with a full
   map, and is one that `handle_osd_map` can rely on.
   */
  lemma BuiltIsWellFormed<M, I>(h: History<M, I>, s: Maps<M, I>, since: nat, to: nat)
    requires Inv(h, s) && since < to && Built(s, since, to).Some?
    ensures
      var m := Built(s, since, to).value;
      && WellFormed(h, m) && m.last == to && since < m.first <= to
      && (m.first == since + 1 || m.first in m.maps)
      && (forall e :: m.first <= e <= m.last <==> e in m.maps || e in m.incs)
  {
    LowestRange(s, since, to);
    var m := Built(s, since, to).value;
    forall e ensures m.first <= e <= m.last <==> e in m.maps || e in m.incs {
      assert m.first < e <= to ==> SendsInc(s, e);
    }
  }

  lemma {:induction false} WalkNeverFails<M, I>(h: History<M, I>, s: Maps<M, I>, since: nat, e: nat)
    requires Inv(h, s) && e <= s.newest && (s.oldest <= e || e <= since)
    ensures Lowest(s, since, e).Some?
  {
    if since < e && SendsInc(s, e) {
      WalkNeverFails(h, s, since, e - 1);
    }
  }

  /** For any epoch the sender holds, the walk never runs into a missing map, however far back it starts. */
  lemma BuildNeverFails<M, I>(h: History<M, I>, s: Maps<M, I>, since: nat, to: nat)
    requires Inv(h, s) && s.oldest <= to <= s.newest
    ensures Built(s, since, to).Some?
  {
    WalkNeverFails(h, s, since, to);
  }

  /**
   Round trip: a peer whose newest map is `since` and that receives the message built for it, with
   all checksums good, ends holding the sender's map at `to` if and only if the message starts right after
   its newest map, or starts with a full map at or below an oldest map beyond the peer's reach.
   */
  lemma RoundTrip<M, I>(h: History<M, I>, s: Maps<M, I>, peer: Maps<M, I>, to: nat, env: Env)
    requires Inv(h, s) && Inv(h, peer) && s.oldest <= to <= s.newest && peer.newest < to
    requires env.cacheLow <= peer.newest + 1 && env.bad == {}
    ensures Built(s, peer.newest, to).Some?
    ensures
      var m := Built(s, peer.newest, to).value;
      var peer' := Handled(h, peer, m, env);
      && Inv(h, peer')
      && (m.first == peer.newest + 1 ==> peer'.newest == to && to in peer'.full && peer'.full[to] == s.full[to])
      && (peer'.newest == to <==> m.first == peer.newest + 1 || (peer.newest + 1 < s.maxOldest && m.first <= s.maxOldest))
  {
    BuildNeverFails(h, s, peer.newest, to);
    BuiltIsWellFormed(h, s, peer.newest, to);
    var m := Built(s, peer.newest, to).value;
    ReachesLastExactly(h, peer, m, env);
    HandledKeeps(h, peer, m, env);
  }

  /** The loop that collects the message, from `to` downwards. */
  method BuildIncrementalMapMsg<M, I>(s: Maps<M, I>, since: nat, to: nat) returns (m: Option<MOSDMap<M, I>>)
    ensures m == Built(s, since, to)
  {
    var maps: map<nat, M>, incs: map<nat, I> := map[], map[];
    var e: nat := to;
    while e > since
      invariant e <= to && (since < to ==> since <= e) && (to <= since ==> e == to)
      invariant maps == map[] && incs == IncsFrom(s, e + 1, to)
      invariant since < to ==> Lowest(s, since, to) == Lowest(s, since, e)
      invariant forall k | e < k <= to :: SendsInc(s, k)
    {
      if e > s.maxOldest && e in s.inc {
        incs := incs[e := s.inc[e]];
      } else if e in s.full {
        maps := maps[e := s.full[e]];
        assert IncsFrom(s, e, to) == incs;
        return Some(MOSDMap(e, to, maps, incs, s.maxOldest));
      } else {
        return None;
      }
      e := e - 1;
    }
    if to <= since {
      assert incs == map[];
      return Some(MOSDMap(0, 0, maps, incs, s.maxOldest));
    }
    return Some(MOSDMap(since + 1, to, maps, incs, s.maxOldest));
  }

  /** What `send_incremental_map` sends to a peer that is behind: (since, to] within the two limits. */
  function Sent<M, I>(s: Maps<M, I>, since: nat, to: nat, shareMax: nat, messageMax: nat): Option<MOSDMap<M, I>>
    requires since < to
  {
    if since < s.oldest then
      if to in s.full then Some(MOSDMap(to, to, map[to := s.full[to]], map[], s.maxOldest)) else None
    else
      var from := if to - since > shareMax then to - shareMax else since;
      Built(s, from, if to - from > messageMax then from + messageMax else to)
  }

  /**
   Where a message for (since, to] ends by the two limits: it covers the last `shareMax` epochs, or what is missing
   if that is less, and of these the first `messageMax`.
   */
  predicate EndsByLimits(since: nat, to: nat, shareMax: nat, messageMax: nat, last: nat) {
    var low := if since + shareMax < to then to - shareMax else since;
    last == if to <= low + messageMax then to else low + messageMax
  }

  /**
   For every peer that is behind and every map the sender holds, the first attempt succeeds: the
   message is well formed, never longer than the limits allow, of epochs the peer does not have, and the
   latest map itself when the peer is out of reach. Otherwise the limits say where it ends.
   */
  lemma SentIsWellFormed<M, I>(h: History<M, I>, s: Maps<M, I>, since: nat, to: nat, shareMax: nat, messageMax: nat)
    requires Inv(h, s) && since < to && s.oldest <= to <= s.newest && 0 < shareMax && 0 < messageMax
    ensures Sent(s, since, to, shareMax, messageMax).Some?
    ensures
      var m := Sent(s, since, to, shareMax, messageMax).value;
      && WellFormed(h, m) && since < m.first <= m.last <= to && m.oldestMap == s.maxOldest
      && m.last - m.first < messageMax && m.last - m.first < shareMax
      && (since < s.oldest ==> m.first == m.last == to && to in m.maps)
      && (s.oldest <= since ==> EndsByLimits(since, to, shareMax, messageMax, m.last))
  {
    if s.oldest <= since {
      var from := if to - since > shareMax then to - shareMax else since;
      var end := if to - from > messageMax then from + messageMax else to;
      BuildNeverFails(h, s, from, end);
      BuiltIsWellFormed(h, s, from, end);
    }
  }

  // ----- what the peer makes of it -----

  /** The sender and a peer that is behind it; what is sent to it and how it handles that. */
  ghost predicate Behind<M, I>(h: History<M, I>, s: Maps<M, I>, peer: Maps<M, I>, to: nat, shareMax: nat, messageMax: nat) {
    && Inv(h, s) && Inv(h, peer) && peer.newest < to && s.oldest <= to <= s.newest
    && 0 < shareMax && 0 < messageMax
  }

  ghost function SentTo<M, I>(h: History<M, I>, s: Maps<M, I>, peer: Maps<M, I>, to: nat, shareMax: nat, messageMax: nat): MOSDMap<M, I>
    requires Behind(h, s, peer, to, shareMax, messageMax)
  {
    SentIsWellFormed(h, s, peer.newest, to, shareMax, messageMax);
    Sent(s, peer.newest, to, shareMax, messageMax).value
  }

  /**
   A message sent to a peer takes it further, with all checksums good, if and only if the message starts right
   after its newest map, or reaches back to an oldest map beyond its reach; otherwise the peer keeps what it has.
   */
  lemma SentAdvancesExactly<M, I>(h: History<M, I>, s: Maps<M, I>, peer: Maps<M, I>, to: nat,
                                  shareMax: nat, messageMax: nat, env: Env)
    requires Behind(h, s, peer, to, shareMax, messageMax)
    requires env.bad == {} && env.cacheLow <= Start(peer, SentTo(h, s, peer, to, shareMax, messageMax))
    ensures
      var m := SentTo(h, s, peer, to, shareMax, messageMax);
      var peer' := Handled(h, peer, m, env);
      && Inv(h, peer')
      && (peer.newest < peer'.newest <==>
            m.first == peer.newest + 1 || (peer.newest + 1 < s.maxOldest && m.first <= s.maxOldest))
      && peer'.newest == (if peer.newest < peer'.newest then m.last else peer.newest)
      && (peer.newest < peer'.newest ==>
            if peer.newest < s.oldest then peer'.newest == to
            else EndsByLimits(peer.newest, to, shareMax, messageMax, peer'.newest))
      && (peer'.newest == peer.newest ==> peer' == peer.(maxOldest := Max(peer.maxOldest, s.maxOldest)))
  {
    SentIsWellFormed(h, s, peer.newest, to, shareMax, messageMax);
    var m := SentTo(h, s, peer, to, shareMax, messageMax);
    LastGoodRange(m, env.bad, Start(peer, m));
    HandledKeeps(h, peer, m, env);
    ReachesLastExactly(h, peer, m, env);
  }

  /** The incrementals above the oldest map known anywhere are all there. */
  ghost predicate IncsComplete<M, I>(s: Maps<M, I>, since: nat, to: nat) {
    forall e | since < e <= to && s.maxOldest < e :: e in s.inc
  }

  /** With all incrementals at hand the walk ends right after `since`, or at the oldest map known anywhere. */
  lemma {:induction false} LowestWithIncs<M, I>(s: Maps<M, I>, since: nat, e: nat)
    requires since < e && Lowest(s, since, e).Some? && IncsComplete(s, since, e)
    ensures Lowest(s, since, e).value ==
            if s.maxOldest <= since then since + 1 else if e <= s.maxOldest then e else s.maxOldest
  {
    if SendsInc(s, e) && since < e - 1 {
      LowestWithIncs(s, since, e - 1);
    }
  }

  /** Where the message begins when all incrementals are at hand. */
  lemma FirstWithIncs<M, I>(h: History<M, I>, s: Maps<M, I>, since: nat, to: nat, shareMax: nat, messageMax: nat)
    requires Inv(h, s) && since < to && s.oldest <= to <= s.newest && 0 < shareMax && 0 < messageMax
    requires IncsComplete(s, since, to)
    ensures Sent(s, since, to, shareMax, messageMax).Some?
    ensures
      var first := Sent(s, since, to, shareMax, messageMax).value.first;
      var from := if to - since > shareMax then to - shareMax else since;
      if since < s.oldest then first == to
      else if s.maxOldest <= from then first == from + 1
      else from < first <= s.maxOldest
  {
    if s.oldest <= since {
      var from := if to - since > shareMax then to - shareMax else since;
      var end := if to - from > messageMax then from + messageMax else to;
      BuildNeverFails(h, s, from, end);
      LowestWithIncs(s, from, end);
    }
  }

  /**
   The epoch a peer ends at by lag and limits, for a sender that has its incrementals. A peer within the sender's
   maps that lags by no more than the share limit gets as far as the message limit allows; one that lags more stays where
   it is, unless the shortened range still begins below the oldest map known anywhere. A peer out of reach gets to `to` if
   it lacks only that map, or that map is not newer than the oldest, and stays where it is otherwise.
   */
  lemma AdvancesByLag<M, I>(h: History<M, I>, s: Maps<M, I>, peer: Maps<M, I>, to: nat,
                            shareMax: nat, messageMax: nat, env: Env)
    requires Behind(h, s, peer, to, shareMax, messageMax) && IncsComplete(s, peer.newest, to)
    requires env.bad == {} && env.cacheLow <= Start(peer, SentTo(h, s, peer, to, shareMax, messageMax))
    ensures
      var newest := Handled(h, peer, SentTo(h, s, peer, to, shareMax, messageMax), env).newest;
      if peer.newest < s.oldest
      then newest == if to == peer.newest + 1 || to <= s.maxOldest then to else peer.newest
      else if to - peer.newest <= shareMax
      then newest == if to - peer.newest <= messageMax then to else peer.newest + messageMax
      else newest == if s.maxOldest <= to - shareMax then peer.newest
                     else if shareMax <= messageMax then to else to - shareMax + messageMax
  {
    SentAdvancesExactly(h, s, peer, to, shareMax, messageMax, env);
    FirstWithIncs(h, s, peer.newest, to, shareMax, messageMax);
  }

  /** The latest full map is dropped by a peer that misses more than this one map, if the map is newer than the oldest. */
  lemma LatestMapIsDropped<M, I>(h: History<M, I>, s: Maps<M, I>, peer: Maps<M, I>, to: nat,
                                 shareMax: nat, messageMax: nat, env: Env)
    requires Behind(h, s, peer, to, shareMax, messageMax)
    requires peer.newest < s.oldest && peer.newest + 1 < to && s.maxOldest < to
    ensures Handled(h, peer, SentTo(h, s, peer, to, shareMax, messageMax), env) ==
            peer.(maxOldest := Max(peer.maxOldest, s.maxOldest))
  {
    SentIsWellFormed(h, s, peer.newest, to, shareMax, messageMax);
  }

  /** A range shortened by the share limit is dropped by a peer that could still be served from its next map on. */
  lemma ShortenedIsDropped<M, I>(h: History<M, I>, s: Maps<M, I>, peer: Maps<M, I>, to: nat,
                                 shareMax: nat, messageMax: nat, env: Env)
    requires Behind(h, s, peer, to, shareMax, messageMax)
    requires s.oldest <= peer.newest && shareMax < to - peer.newest && s.maxOldest <= peer.newest + 1
    ensures Handled(h, peer, SentTo(h, s, peer, to, shareMax, messageMax), env) ==
            peer.(maxOldest := Max(peer.maxOldest, s.maxOldest))
  {
    ShortenedFirst(h, s, peer.newest, to, shareMax, messageMax);
    var m := SentTo(h, s, peer, to, shareMax, messageMax);
    assert Skips(peer, m) && !Usable(peer, m);
  }

  lemma ShortenedFirst<M, I>(h: History<M, I>, s: Maps<M, I>, since: nat, to: nat, shareMax: nat, messageMax: nat)
    requires Inv(h, s) && since < to && s.oldest <= to <= s.newest && 0 < shareMax < to - since && 0 < messageMax
    requires s.oldest <= since
    ensures
      var m := Sent(s, since, to, shareMax, messageMax);
      m.Some? && to - shareMax < m.value.first && m.value.oldestMap == s.maxOldest
  {
    var from := to - shareMax;
    var end := if to - from > messageMax then from + messageMax else to;
    BuildNeverFails(h, s, from, end);
    LowestRange(s, from, end);
  }
}
