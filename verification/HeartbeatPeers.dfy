/**
 Choosing the heartbeat peers of an OSD: the peers its PGs need, its two neighbours among the up
 OSDs, and as many further up OSDs, found by walking around the ring of ids, as the minimum asks for.
 */
module HeartbeatPeers {
  import opened Common

  // ----- the ring of up OSDs -----

  lemma {:induction false} HasLeast(s: set<int>)
    requires s != {}
    ensures exists x :: x in s && forall y | y in s :: x <= y
    decreases s
  {
    var x := Inhabited(s);
    var rest := s - {x};
    forall y | y in s ensures y == x || y in rest {}
    if rest != {} {
      HasLeast(rest);
      var m :| m in rest && forall y | y in rest :: m <= y;
      var least := if x < m then x else m;
      forall y | y in s ensures least <= y { assert y == x || y in rest; }
      assert least in s;
    } else {
      forall y | y in s ensures x <= y { assert y == x || y in rest; }
      assert x in s;
    }
  }

  function Least(s: set<int>): (x: int)
    requires s != {}
    ensures x in s && forall y | y in s :: x <= y
  {
    HasLeast(s);
    var x :| x in s && forall y | y in s :: x <= y;
    x
  }

  lemma HasGreatest(s: set<int>)
    requires s != {}
    ensures exists x :: x in s && forall y | y in s :: y <= x
  {
    var negated := set y | y in s :: -y;
    var z := Inhabited(s);
    assert -z in negated;
    var m := Least(negated);
    var x :| x in s && -x == m;
    forall y | y in s ensures y <= x { assert -y in negated; }
  }

  function Greatest(s: set<int>): (x: int)
    requires s != {}
    ensures x in s && forall y | y in s :: y <= x
  {
    HasGreatest(s);
    var x :| x in s && forall y | y in s :: y <= x;
    x
  }

  function Above(up: set<int>, n: int): set<int> { set u | u in up && n < u }

  function Below(up: set<int>, n: int): set<int> { set u | u in up && u < n }

  /** The next up OSD after n, wrapping around; -1 if no other OSD is up. */
  function NextUp(up: set<int>, n: int): int {
    if Above(up, n) != {} then Least(Above(up, n)) else if Below(up, n) != {} then Least(Below(up, n)) else -1
  }

  function PreviousUp(up: set<int>, n: int): int {
    if Below(up, n) != {} then Greatest(Below(up, n)) else if Above(up, n) != {} then Greatest(Above(up, n)) else -1
  }

  /** The up OSDs met when walking from `start` until just before n. */
  function Arc(up: set<int>, start: int, n: int): set<int> {
    set u | u in up && if start <= n then start <= u < n else start <= u || u < n
  }

  /** Going up the ring of ids from a, wrapping around, b comes before c. */
  predicate Between(a: int, b: int, c: int) {
    if a < c then a < b < c else a < b || b < c
  }

  /** No other up OSD lies between u and v going up the ring. */
  ghost predicate Follows(up: set<int>, u: int, v: int) {
    u != v && forall w | w in up && w != u && w != v :: !Between(u, w, v)
  }

  /** The next up OSD after n by the order of the ring. */
  ghost predicate IsNext(up: set<int>, n: int, v: int) {
    v in up && Follows(up, n, v)
  }

  /** The previous one: going down the ring from n nothing comes before it. */
  ghost predicate IsPrevious(up: set<int>, n: int, v: int) {
    v in up && Follows(up, v, n)
  }

  lemma NoneUp(up: set<int>, n: int)
    requires Above(up, n) == {} && Below(up, n) == {}
    ensures forall u | u in up :: u == n
  {
    forall u | u in up ensures u == n {
      assert u !in Above(up, n) && u !in Below(up, n);
    }
  }

  /** `NextUp` is the next up OSD by the order of the ring, and -1 exactly when no other OSD is up. */
  lemma NextIsUp(up: set<int>, n: int)
    requires forall u | u in up :: 0 <= u
    ensures NextUp(up, n) == -1 <==> forall u | u in up :: u == n
    ensures NextUp(up, n) != -1 ==> IsNext(up, n, NextUp(up, n))
  {
    var v := NextUp(up, n);
    if Above(up, n) == {} && Below(up, n) == {} {
      NoneUp(up, n);
    } else {
      forall w | w in up && w != n && w != v ensures !Between(n, w, v) {
        assert w in Above(up, n) || w in Below(up, n);
      }
    }
  }

  /** And `PreviousUp` the previous one. */
  lemma PreviousIsUp(up: set<int>, n: int)
    requires forall u | u in up :: 0 <= u
    ensures PreviousUp(up, n) == -1 <==> forall u | u in up :: u == n
    ensures PreviousUp(up, n) != -1 ==> IsPrevious(up, n, PreviousUp(up, n))
  {
    var v := PreviousUp(up, n);
    if Above(up, n) == {} && Below(up, n) == {} {
      NoneUp(up, n);
    } else {
      forall w | w in up && w != n && w != v ensures !Between(v, w, n) {
        assert w in Above(up, n) || w in Below(up, n);
      }
    }
  }

  /** There is only one next and only one previous OSD. */
  lemma NeighboursAreUnique(up: set<int>, n: int, v: int, w: int)
    ensures IsNext(up, n, v) && IsNext(up, n, w) ==> v == w
    ensures IsPrevious(up, n, v) && IsPrevious(up, n, w) ==> v == w
  {
  }

  /** The two functions find exactly the neighbours. */
  lemma NeighboursFound(up: set<int>, n: int, v: int)
    requires forall u | u in up :: 0 <= u
    ensures IsNext(up, n, v) <==> 0 <= v && v == NextUp(up, n)
    ensures IsPrevious(up, n, v) <==> 0 <= v && v == PreviousUp(up, n)
  {
    NextIsUp(up, n);
    PreviousIsUp(up, n);
    NeighboursAreUnique(up, n, v, NextUp(up, n));
    NeighboursAreUnique(up, n, v, PreviousUp(up, n));
  }

  /** Going to the next up OSD and back to the previous one leads to where one started. */
  lemma PreviousOfNext(up: set<int>, n: int)
    requires (forall u | u in up :: 0 <= u) && n in up && exists u :: u in up && u != n
    ensures PreviousUp(up, NextUp(up, n)) == n
  {
    var v := NextUp(up, n);
    NextIsUp(up, n);
    PreviousIsUp(up, v);
    NeighboursAreUnique(up, v, n, PreviousUp(up, v));
  }

  /** One step of the walk adds one OSD, until the walk comes full circle, when all have been met. */
  lemma WalkStep(up: set<int>, start: int, n: int)
    requires (forall u | u in up :: 0 <= u) && start in up && n in up
    ensures n !in Arc(up, start, n)
    ensures
      var next := NextUp(up, n);
      if next == start || next < 0 then Arc(up, start, n) + {n} == up
      else next in up && Arc(up, start, next) == Arc(up, start, n) + {n}
  {
    var next := NextUp(up, n);
    NextIsUp(up, n);
    forall u | u in up
      ensures next > n ==> u <= n || next <= u
      ensures next < n && next >= 0 ==> next <= u <= n
    {
      assert u in Above(up, n) || u in Below(up, n) || u == n;
    }
  }

  // ----- one update pass -----

  /**
   What a pass sees: the up OSDs and the epoch of the map, whether the OSD is active, what each PG
   wants, the configured minimum, and which attempt to open a connection succeeds.
   */
  datatype Env = Env(
    up: set<int>,
    epoch: int,
    active: bool,
    pgPeers: seq<set<int>>,
    minPeers: int,
    opens: (int, nat) -> bool)

  class Osd {
    const whoami: int
    var peers: map<int, int>    // heartbeat peers with the epoch in which they were last wanted
    var attempts: nat
    ghost var failed: set<int>  // peers whose connection could not be opened in this pass
    ghost var passStart: nat    // the number of attempts before this pass

    ghost predicate Valid()
      reads this
    {
      whoami !in peers
    }

    /** Every failure on record is an attempt of this pass that did not open. */
    ghost predicate Tallied(env: Env)
      reads this`failed, this`attempts, this`passStart
    {
      passStart <= attempts && forall p | p in failed :: exists k :: passStart <= k < attempts && !env.opens(p, k)
    }

    constructor (id: int)
      ensures Valid() && whoami == id && peers == map[]
    {
      whoami, peers, attempts, failed, passStart := id, map[], 0, {}, 0;
    }

    method AddPeer(env: Env, p: int)
      requires Valid() && Tallied(env)
      modifies this
      ensures Valid() && Tallied(env) && passStart == old(passStart)
      ensures
        var tries := p != whoami && p !in old(peers);
        var opens := env.opens(p, old(attempts));
        && attempts == old(attempts) + (if tries then 1 else 0)
        && failed == old(failed) + (if tries && !opens then {p} else {})
        && peers == if p == whoami || (tries && !opens) then old(peers) else old(peers)[p := env.epoch]
    {
      if p == whoami {
        return;
      }
      if p !in peers {
        var connected := env.opens(p, attempts);
        attempts := attempts + 1;
        assert forall q | q in failed :: exists k :: passStart <= k < attempts && !env.opens(q, k);
        if !connected {
          failed := failed + {p};
          assert !env.opens(p, attempts - 1);
          return;
        }
      }
      peers := peers[p := env.epoch];
    }

    method RemovePeer(n: int)
      requires n in peers
      modifies this`peers
      ensures peers == old(peers) - {n}
    {
      peers := peers - {n};
    }

    /** p is satisfied: it is a peer of the current epoch, or cannot be one, or was tried in vain. */
    ghost predicate Met(env: Env, p: int)
      reads this
    {
      p == whoami || p in failed || (p in peers && peers[p] == env.epoch)
    }

    /** Peers were only added or refreshed. */
    twostate predicate Grown(env: Env)
      reads this
    {
      && old(peers).Keys <= peers.Keys && old(failed) <= failed
      && (forall p | p in peers :: (p in old(peers) && peers[p] == old(peers)[p]) || peers[p] == env.epoch)
      && (forall p | p in peers && p !in old(peers) :: p in env.up)
      && (forall p | p in failed && p !in old(failed) :: p in env.up && p !in old(peers))
    }

    method AddAll(env: Env, wanted: set<int>)
      requires Valid() && Tallied(env) && wanted <= env.up
      modifies this
      ensures Valid() && Tallied(env) && passStart == old(passStart) && Grown(env)
      ensures forall p | p in wanted :: Met(env, p)
      ensures forall p | old(Met(env, p)) :: Met(env, p)
    {
      var todo := wanted;
      while todo != {}
        invariant todo <= wanted && Valid() && Tallied(env) && passStart == old(passStart) && Grown(env)
        invariant forall p | p in wanted && p !in todo :: Met(env, p)
        invariant forall p | old(Met(env, p)) :: Met(env, p)
      {
        ghost var some := Inhabited(todo);
        var p :| p in todo;
        AddPeer(env, p);
        todo := todo - {p};
      }
    }

    method AddPgPeers(env: Env)
      requires Valid() && Tallied(env)
      modifies this
      ensures Valid() && Tallied(env) && passStart == old(passStart) && Grown(env)
      ensures env.active ==> forall i, p | 0 <= i < |env.pgPeers| && p in env.pgPeers[i] && p in env.up :: Met(env, p)
    {
      if env.active {
        for i := 0 to |env.pgPeers|
          invariant Valid() && Tallied(env) && passStart == old(passStart) && Grown(env)
          invariant forall j, p | 0 <= j < i && p in env.pgPeers[j] && p in env.up :: Met(env, p)
        {
          AddAll(env, env.pgPeers[i] * env.up);
        }
      }
    }

    /** Removes peers that are down and collects those nobody wanted in this epoch. */
    method RemoveDown(env: Env, wanted: set<int>) returns (extras: set<int>)
      requires Valid()
      modifies this`peers
      ensures Valid()
      ensures forall p :: p in peers <==> p in old(peers) && p in env.up
      ensures forall p | p in peers :: peers[p] == old(peers)[p]
      ensures forall p :: p in extras <==> p in wanted || (p in peers && peers[p] < env.epoch)
    {
      extras := wanted;
      var todo := peers.Keys;
      while todo != {}
        invariant todo <= old(peers).Keys && Valid()
        invariant forall p :: p in peers <==> p in old(peers) && (p in todo || p in env.up)
        invariant forall p | p in peers :: peers[p] == old(peers)[p]
        invariant forall p :: p in extras <==> p in wanted || (p in peers && p !in todo && peers[p] < env.epoch)
      {
        ghost var some := Inhabited(todo);
        var p :| p in todo;
        if p !in env.up {
          RemovePeer(p);
        } else if peers[p] < env.epoch {
          extras := extras + {p};
        }
        todo := todo - {p};
      }
    }

    /** Walks around the ring and tries further OSDs until there are enough peers or all have been met. */
    method AddRandom(env: Env, want: set<int>, surplus: set<int>) returns (extras: set<int>)
      requires Valid() && Tallied(env) && forall u | u in env.up :: 0 <= u
      requires forall p | p in peers :: p in env.up
      requires forall p | p in want || p in surplus :: p == whoami || p in peers || p in failed
      modifies this
      ensures Valid() && Tallied(env) && passStart == old(passStart) && Grown(env)
      ensures |old(peers)| >= env.minPeers ==> peers == old(peers) && extras == surplus
      ensures |old(peers)| < env.minPeers ==> |peers| <= env.minPeers
      ensures |peers| < env.minPeers ==> forall u | u in env.up :: u == whoami || u in peers || u in failed
    {
      extras := surplus;
      NextIsUp(env.up, whoami);
      var start := NextUp(env.up, whoami);
      var n := start;
      ghost var left := env.up;
      while n >= 0
        invariant n >= 0 ==> start in env.up && n in env.up && left == env.up - Arc(env.up, start, n)
        invariant n < 0 ==> forall u | u in env.up :: u == whoami || u in peers || u in failed
        invariant Valid() && Tallied(env) && passStart == old(passStart) && Grown(env)
        invariant |old(peers)| >= env.minPeers ==> peers == old(peers) && extras == surplus && n == start
        invariant |old(peers)| < env.minPeers ==> |peers| <= env.minPeers
        invariant n >= 0 ==> forall u | u in Arc(env.up, start, n) || u in extras || u in want ::
                               u == whoami || u in peers || u in failed
        decreases n >= 0, left
      {
        if |peers| >= env.minPeers {
          break;
        }
        WalkStep(env.up, start, n);
        if n !in extras && n !in want && n != whoami {
          extras := extras + {n};
          ghost var before := peers;
          AddPeer(env, n);
          assert peers.Keys <= before.Keys + {n};
          OneMore(before.Keys, peers.Keys, n);
        }
        n := NextUp(env.up, n);
        if n == start {
          break;
        }
        left := if n >= 0 then env.up - Arc(env.up, start, n) else {};
      }
    }

    /** Removes surplus peers, but never below the minimum. */
    method TrimExtras(env: Env, want: set<int>, extras: set<int>)
      requires Valid()
      requires |peers| > env.minPeers ==> forall p | p in extras && p !in want :: p in peers
      modifies this`peers
      ensures Valid() && peers.Keys <= old(peers).Keys
      ensures forall p | p in peers :: peers[p] == old(peers)[p]
      ensures forall p | p in old(peers) && p !in peers :: p in extras && p !in want
      ensures |old(peers)| <= env.minPeers ==> peers == old(peers)
      ensures |old(peers)| >= env.minPeers ==> |peers| >= env.minPeers
      ensures |peers| > env.minPeers ==> forall p | p in extras && p !in want :: p !in peers
    {
      var todo := extras;
      while |peers| > env.minPeers && todo != {}
        invariant todo <= extras && Valid() && peers.Keys <= old(peers).Keys
        invariant forall p | p in peers :: peers[p] == old(peers)[p]
        invariant forall p | p in old(peers) && p !in peers :: p in extras && p !in want
        invariant |old(peers)| <= env.minPeers ==> peers == old(peers)
        invariant |old(peers)| >= env.minPeers ==> |peers| >= env.minPeers
        invariant |old(peers)| > env.minPeers ==> forall p | p in todo && p !in want :: p in peers
        invariant forall p | p in extras && p !in todo && p !in want :: |old(peers)| > env.minPeers ==> p !in peers
        decreases todo
      {
        ghost var some := Inhabited(todo);
        var p :| p in todo;
        if p !in want {
          ghost var before := peers;
          RemovePeer(p);
          assert before.Keys == peers.Keys + {p};
        }
        todo := todo - {p};
      }
    }

    /**
     One update pass. Whichever connections fail to open, it ends with only up peers other than the
     OSD itself; every neighbour and, on an active OSD, every up PG peer is kept unless its connection failed; there
     are enough peers or every other up OSD has been tried; and no up peer is given up below the minimum.
     */
    method UpdateHeartbeatPeers(env: Env)
      requires Valid() && forall u | u in env.up :: 0 <= u
      requires forall p | p in peers :: peers[p] <= env.epoch
      modifies this
      ensures Valid() && forall p | p in peers :: p in env.up && p != whoami && peers[p] <= env.epoch
      ensures forall p | p in failed :: p !in old(peers) && exists k :: old(attempts) <= k < attempts && !env.opens(p, k)
      ensures forall v | IsNext(env.up, whoami, v) :: v in peers || v in failed
      ensures forall v | IsPrevious(env.up, whoami, v) :: v in peers || v in failed
      ensures env.active ==> forall i, p | 0 <= i < |env.pgPeers| && p in env.pgPeers[i] && p in env.up ::
                p == whoami || p in peers || p in failed
      ensures |peers| >= env.minPeers || forall u | u in env.up :: u == whoami || u in peers || u in failed
      ensures forall p | p in old(peers) && p in env.up && p !in peers :: old(peers)[p] < env.epoch && |peers| >= env.minPeers
      ensures |peers| > env.minPeers ==> forall p | p in peers ::
                peers[p] == env.epoch || IsNext(env.up, whoami, p) || IsPrevious(env.up, whoami, p)
    {
      failed, passStart := {}, attempts;
      var want := Gather(env);
      Settle(env, want);
    }

    /** Adds the peers of the PGs and the two neighbours. */
    method Gather(env: Env) returns (want: set<int>)
      requires Valid() && Tallied(env) && forall u | u in env.up :: 0 <= u
      requires forall p | p in peers :: peers[p] <= env.epoch
      modifies this
      ensures Valid() && Tallied(env) && passStart == old(passStart) && forall p | p in peers :: peers[p] <= env.epoch
      ensures forall p | p in old(peers) :: p in peers && (peers[p] == old(peers)[p] || peers[p] == env.epoch)
      ensures forall p | p in failed && p !in old(failed) :: p !in old(peers)
      ensures env.active ==> forall i, p | 0 <= i < |env.pgPeers| && p in env.pgPeers[i] && p in env.up :: Met(env, p)
      ensures forall p | p in want :: p in env.up && p != whoami && Met(env, p)
      ensures forall p :: p in want <==> IsNext(env.up, whoami, p) || IsPrevious(env.up, whoami, p)
    {
      AddPgPeers(env);
      NextIsUp(env.up, whoami);
      PreviousIsUp(env.up, whoami);
      want := {};
      var next := NextUp(env.up, whoami);
      if next >= 0 {
        want := want + {next};
      }
      var prev := PreviousUp(env.up, whoami);
      if prev >= 0 && prev != next {
        want := want + {prev};
      }
      forall p ensures p in want <==> IsNext(env.up, whoami, p) || IsPrevious(env.up, whoami, p) {
        NeighboursFound(env.up, whoami, p);
      }
      AddAll(env, want);
    }

    /** Brings the number of peers to the minimum from either side. */
    method Settle(env: Env, want: set<int>)
      requires Valid() && Tallied(env) && forall u | u in env.up :: 0 <= u
      requires forall p | p in peers :: peers[p] <= env.epoch
      requires forall p | p in want :: p in env.up && p != whoami && Met(env, p)
      modifies this
      ensures Valid() && Tallied(env) && passStart == old(passStart) && forall p | p in peers :: p in env.up && peers[p] <= env.epoch
      ensures forall p | p in failed && p !in old(failed) :: p !in old(peers)
      ensures forall p | p in env.up && old(Met(env, p)) :: p == whoami || p in peers || p in failed
      ensures |peers| >= env.minPeers || forall u | u in env.up :: u == whoami || u in peers || u in failed
      ensures forall p | p in old(peers) && p in env.up && p !in peers :: old(peers)[p] < env.epoch && |peers| >= env.minPeers
      ensures |peers| > env.minPeers ==> forall p | p in peers :: peers[p] == env.epoch || p in want
    {
      var extras := RemoveDown(env, want);
      var few := |peers| < env.minPeers;
      extras := AddRandom(env, want, extras);
      assert !few ==> forall p | p in extras && p !in want :: p in peers && peers[p] < env.epoch;
      TrimExtras(env, want, extras);
    }
  }

  lemma OneMore(s: set<int>, t: set<int>, p: int)
    requires t <= s + {p}
    ensures |t| <= |s| + 1
  {
    if p in s {
      assert t <= s;
      Smaller(t, s);
    } else {
      Smaller(t, s + {p});
    }
  }

  lemma Smaller(s: set<int>, t: set<int>)
    requires s <= t
    ensures |s| <= |t|
  {
    assert t == s + (t - s);
  }
}
