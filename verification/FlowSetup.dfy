/**
 Setting up one TCP flow per receive ring. A kernel hook remembers for each ring the source port
 of the first barrier packet it saw there; the client keeps opening connections until the server
 has accepted four of them, each because its port is the one remembered for some ring.
 */
module FlowSetup {
  import opened Common

  const BASE_IRQ := 33

  /** A packet from the barrier client as the hook sees it: the processor, the ring register, the source port. */
  datatype Packet = Packet(cpu: int, queueIndex: nat, port: int)

  /** One attempt of the client: its socket, its port, and the packets hooked until the server answers. */
  datatype Attempt = Attempt(fd: int, port: int, packets: seq<Packet>)

  predicate Counts(p: Packet, ring: int) {
    p.cpu == 1 && p.queueIndex == ring && p.port != 0
  }

  /** The port of the first packet that counts for a ring, 0 if there is none. */
  function FirstPort(packets: seq<Packet>, ring: int): int {
    if packets == [] then 0
    else if Counts(packets[0], ring) then packets[0].port
    else FirstPort(packets[1..], ring)
  }

  lemma {:induction false} FirstPortAppend(ps: seq<Packet>, qs: seq<Packet>, ring: int)
    ensures FirstPort(ps + qs, ring) == if FirstPort(ps, ring) != 0 then FirstPort(ps, ring) else FirstPort(qs, ring)
  {
    if ps == [] {
      assert ps + qs == qs;
    } else {
      assert (ps + qs)[1..] == ps[1..] + qs;
      FirstPortAppend(ps[1..], qs, ring);
    }
  }

  /** The k-th packet is the first one from processor 1 with a port on the ring. */
  ghost predicate FirstOn(packets: seq<Packet>, ring: int, k: int) {
    && 0 <= k < |packets| && packets[k].cpu == 1 && packets[k].queueIndex == ring && packets[k].port != 0
    && forall j | 0 <= j < k :: packets[j].cpu != 1 || packets[j].queueIndex != ring || packets[j].port == 0
  }

  /** The port of a ring is that of the first packet on it, and 0 exactly when there is no such packet. */
  lemma {:induction false} FirstPortIs(packets: seq<Packet>, ring: int)
    ensures FirstPort(packets, ring) != 0 <==> exists k :: FirstOn(packets, ring, k)
    ensures FirstPort(packets, ring) != 0 ==>
              exists k :: FirstOn(packets, ring, k) && packets[k].port == FirstPort(packets, ring)
  {
    if packets != [] {
      var rest := packets[1..];
      FirstPortIs(rest, ring);
      if Counts(packets[0], ring) {
        assert FirstOn(packets, ring, 0);
      } else {
        if FirstPort(rest, ring) != 0 {
          var k :| FirstOn(rest, ring, k) && rest[k].port == FirstPort(rest, ring);
          assert FirstOn(packets, ring, k + 1);
        }
        if k :| FirstOn(packets, ring, k) {
          assert FirstOn(rest, ring, k - 1);
        }
      }
    }
  }

  /** All packets hooked during the first n attempts. */
  function Hooked(attempts: seq<Attempt>, n: nat): seq<Packet>
    requires n <= |attempts|
  {
    if n == 0 then [] else Hooked(attempts, n - 1) + attempts[n - 1].packets
  }

  /** Once a ring has a port it keeps it. */
  lemma {:induction false} PortIsKept(attempts: seq<Attempt>, m: nat, n: nat, ring: int)
    requires m <= n <= |attempts| && FirstPort(Hooked(attempts, m), ring) != 0
    ensures FirstPort(Hooked(attempts, n), ring) == FirstPort(Hooked(attempts, m), ring)
  {
    if m < n {
      PortIsKept(attempts, m, n - 1, ring);
      FirstPortAppend(Hooked(attempts, n - 1), attempts[n - 1].packets, ring);
    }
  }

  class RingPorts {
    const sports: array<int>
    ghost var packets: seq<Packet>  // hooked since the last clear

    ghost predicate Valid()
      reads this, sports
    {
      sports.Length == RINGS && forall r | 0 <= r < RINGS :: sports[r] == FirstPort(packets, r)
    }

    constructor ()
      ensures Valid() && packets == [] && fresh(sports)
    {
      sports := new int[RINGS](i => 0);
      packets := [];
    }

    method Clear()
      requires sports.Length == RINGS
      modifies this, sports
      ensures Valid() && packets == []
    {
      for i := 0 to RINGS
        invariant forall r | 0 <= r < i :: sports[r] == 0
      {
        sports[i] := 0;
      }
      packets := [];
    }

    /** The hook, in the two-processor configuration the module is built with. */
    method Hook(p: Packet)
      requires Valid() && p.queueIndex < RINGS
      modifies this, sports
      ensures Valid() && packets == old(packets) + [p]
    {
      ghost var before := packets;
      if p.cpu == 0 || p.cpu == 1 {
        if p.cpu == 1 && sports[p.queueIndex] == 0 {
          sports[p.queueIndex] := p.port;
        }
      }
      packets := packets + [p];
      forall r | 0 <= r < RINGS ensures sports[r] == FirstPort(packets, r) {
        FirstPortAppend(before, [p], r);
        assert FirstPort([p], r) == if Counts(p, r) then p.port else 0;
      }
    }

    method HookAll(ps: seq<Packet>)
      requires Valid() && forall p | p in ps :: p.queueIndex < RINGS
      modifies this, sports
      ensures Valid() && packets == old(packets) + ps
    {
      for i := 0 to |ps|
        invariant Valid() && packets == old(packets) + ps[..i]
      {
        assert ps[i] in ps;
        Hook(ps[i]);
        assert ps[..i + 1] == ps[..i] + [ps[i]];
      }
      assert ps[..|ps|] == ps;
    }

    /** Which ring, as an interrupt number, the port is remembered for; -1 if none. */
    method ValidateConnection(port: int) returns (valid: bool, rxQueue: int)
      requires Valid()
      ensures valid <==> exists r :: 0 <= r < RINGS && FirstPort(packets, r) == port
      ensures valid ==> BASE_IRQ <= rxQueue < BASE_IRQ + RINGS && FirstPort(packets, rxQueue - BASE_IRQ) == port
      ensures valid ==> forall r | 0 <= r < rxQueue - BASE_IRQ :: FirstPort(packets, r) != port
      ensures !valid ==> rxQueue == -1
    {
      valid, rxQueue := false, -1;
      for i := BASE_IRQ to BASE_IRQ + RINGS
        invariant !valid && rxQueue == -1
        invariant forall r | 0 <= r < i - BASE_IRQ :: FirstPort(packets, r) != port
      {
        if port == sports[i - BASE_IRQ] {
          assert FirstPort(packets, i - BASE_IRQ) == port;
          return true, i;
        }
      }
    }
  }

  /** `n` attempts were made and `owner[r]` is the one that got ring r. */
  ghost predicate Flows(attempts: seq<Attempt>, n: nat, owner: map<int, nat>, fds: seq<int>) {
    && n <= |attempts| && |fds| == RINGS
    && forall r | r in owner ::
         && 0 <= r < RINGS && owner[r] < n
         && attempts[owner[r]].port == FirstPort(Hooked(attempts, n), r)
         && fds[r] == attempts[owner[r]].fd
  }

  ghost predicate PortsNotReused(attempts: seq<Attempt>) {
    && (forall i | 0 <= i < |attempts| :: attempts[i].port != 0)
    && (forall i, j | 0 <= i < j < |attempts| :: attempts[i].port != attempts[j].port)
  }

  ghost predicate QueueIndexInRange(attempts: seq<Attempt>) {
    forall i, p | 0 <= i < |attempts| && p in attempts[i].packets :: p.queueIndex < RINGS
  }

  lemma FlowsGrow(attempts: seq<Attempt>, n: nat, owner: map<int, nat>, fds: seq<int>)
    requires n < |attempts| && Flows(attempts, n, owner, fds) && PortsNotReused(attempts)
    ensures Flows(attempts, n + 1, owner, fds)
  {
    forall r | r in owner
      ensures attempts[owner[r]].port == FirstPort(Hooked(attempts, n + 1), r)
    {
      PortIsKept(attempts, n, n + 1, r);
    }
  }

  /** No attempt got two rings. */
  ghost predicate OneEach(owner: map<int, nat>) {
    forall r, r' | r in owner && r' in owner && r != r' :: owner[r] != owner[r']
  }

  /** An attempt whose port is remembered for a ring gets that ring, which had no owner before. */
  lemma FlowTaken(attempts: seq<Attempt>, n: nat, owner: map<int, nat>, fds: seq<int>, r: int)
    requires n < |attempts| && Flows(attempts, n, owner, fds) && OneEach(owner) && PortsNotReused(attempts)
    requires 0 <= r < RINGS && FirstPort(Hooked(attempts, n + 1), r) == attempts[n].port
    ensures r !in owner && OneEach(owner[r := n])
    ensures Flows(attempts, n + 1, owner[r := n], fds[r := attempts[n].fd])
  {
    FlowsGrow(attempts, n, owner, fds);
    forall k | k in owner ensures k != r {
      assert attempts[owner[k]].port != attempts[n].port;
    }
    FlowAdded(attempts, n, owner, fds, r);
  }

  lemma FlowAdded(attempts: seq<Attempt>, n: nat, owner: map<int, nat>, fds: seq<int>, r: int)
    requires n < |attempts| && Flows(attempts, n + 1, owner, fds) && OneEach(owner)
    requires forall k | k in owner :: owner[k] < n && k != r
    requires 0 <= r < RINGS && FirstPort(Hooked(attempts, n + 1), r) == attempts[n].port
    ensures OneEach(owner[r := n])
    ensures Flows(attempts, n + 1, owner[r := n], fds[r := attempts[n].fd])
  {
  }

  lemma FourOfFour(s: set<int>)
    requires |s| == RINGS && forall r | r in s :: 0 <= r < RINGS
    ensures s == {0, 1, 2, 3}
  {
    var all := {0, 1, 2, 3};
    forall r | r in s ensures r in all {}
    assert |all - s| == |all| - |s|;
    assert all - s == {};
  }

  lemma AllOwned(attempts: seq<Attempt>, n: nat, owner: map<int, nat>, fds: seq<int>)
    requires Flows(attempts, n, owner, fds) && |owner| == RINGS
    ensures forall r | 0 <= r < RINGS :: r in owner
  {
    FourOfFour(owner.Keys);
  }

  /** The client loop after n attempts. */
  ghost predicate Progress(ports: RingPorts, attempts: seq<Attempt>, n: nat, owner: map<int, nat>, clientFds: array<int>)
    reads ports, ports.sports, clientFds
  {
    && n <= |attempts| && clientFds.Length == RINGS && clientFds != ports.sports
    && ports.Valid() && ports.packets == Hooked(attempts, n)
    && Flows(attempts, n, owner, clientFds[..]) && OneEach(owner)
  }

  /** One round of the client loop: the hook sees the packets of attempt n, then the server answers. */
  method TryConnection(ports: RingPorts, attempts: seq<Attempt>, n: nat, clientFds: array<int>, ghost owner: map<int, nat>)
    returns (accepted: bool, ghost owner': map<int, nat>)
    requires n < |attempts| && PortsNotReused(attempts) && QueueIndexInRange(attempts)
    requires Progress(ports, attempts, n, owner, clientFds)
    modifies ports, ports.sports, clientFds
    ensures Progress(ports, attempts, n + 1, owner', clientFds)
    ensures accepted <==> exists r :: 0 <= r < RINGS && FirstPort(ports.packets, r) == attempts[n].port
    ensures |owner'| == |owner| + if accepted then 1 else 0
  {
    var a := attempts[n];
    ghost var fds := clientFds[..];
    ports.HookAll(a.packets);
    var valid, rxQueue := ports.ValidateConnection(a.port);
    accepted, owner' := false, owner;
    if rxQueue > 0 {
      FlowTaken(attempts, n, owner, fds, rxQueue - BASE_IRQ);
      clientFds[rxQueue - BASE_IRQ] := a.fd;
      assert clientFds[..] == fds[rxQueue - BASE_IRQ := a.fd];
      accepted, owner' := true, owner[rxQueue - BASE_IRQ := n];
    } else {
      FlowsGrow(attempts, n, owner, fds);
    }
  }

  /** The socket kept for ring r is that of the attempt whose port the hook saw first on r. */
  ghost predicate Owned(ports: RingPorts, attempts: seq<Attempt>, n: nat, owner: map<int, nat>, clientFds: array<int>, r: int)
    requires Progress(ports, attempts, n, owner, clientFds) && 0 <= r < RINGS
    reads ports, ports.sports, clientFds
  {
    && r in owner
    && attempts[owner[r]].port == ports.sports[r] == FirstPort(Hooked(attempts, n), r)
    && clientFds[r] == attempts[owner[r]].fd
  }

  /**
   The client loop over the attempts the environment offers. When it has counted four accepted
   connections, every ring has its own socket: the socket of the attempt whose port was the first
   one the hook saw on that ring. The attempts that got rings 0 to 3 are four different ones, however many
   redundant attempts were made in between.
   */
  method SetupRxQueueFlows(ports: RingPorts, attempts: seq<Attempt>)
    returns (count: nat, clientFds: array<int>, tried: nat, ghost owner: map<int, nat>)
    requires ports.sports.Length == RINGS
    requires PortsNotReused(attempts) && QueueIndexInRange(attempts)
    modifies ports, ports.sports
    ensures fresh(clientFds) && tried <= |attempts| && (tried < |attempts| ==> count == RINGS)
    ensures Progress(ports, attempts, tried, owner, clientFds) && count == |owner| <= RINGS
    ensures count == RINGS ==> forall r | 0 <= r < RINGS :: Owned(ports, attempts, tried, owner, clientFds, r)
  {
    ports.Clear();
    clientFds := new int[RINGS](i => 0);
    count, tried, owner := 0, 0, map[];
    while count < RINGS && tried < |attempts|
      invariant tried <= |attempts| && count == |owner| <= RINGS && fresh(clientFds)
      invariant Progress(ports, attempts, tried, owner, clientFds)
      decreases |attempts| - tried
    {
      var accepted;
      accepted, owner := TryConnection(ports, attempts, tried, clientFds, owner);
      if accepted {
        count := count + 1;
      }
      tried := tried + 1;
    }
    if count == RINGS {
      AllOwned(attempts, tried, owner, clientFds[..]);
      forall r | 0 <= r < RINGS ensures Owned(ports, attempts, tried, owner, clientFds, r) {
        assert r in owner;
      }
    }
  }
}
