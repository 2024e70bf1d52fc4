/**
 The sender's lease. A netfilter hook lets heartbeat packets out only while the clock is not past the
 valid time. The datanode's service loop renews the valid time when a transmission was signalled as complete
 or a heartbeat call was answered; transmissions are signalled by a kernel probe through a semaphore.
 */
module Lease {

  const LEASE := 30000
  const HEARTBEAT_PORT := 5001

  datatype Protocol = Tcp | Udp | Other

  /** The verdict of the hook: everything passes while the gate is open, heartbeats only then. */
  predicate Accepts(validTime: int, now: int, protocol: Protocol, dport: int) {
    validTime == 0 || now <= validTime || !(protocol == Udp && dport == HEARTBEAT_PORT)
  }

  predicate Open(validTime: int, now: int) {
    Accepts(validTime, now, Udp, HEARTBEAT_PORT)
  }

  /** Packets other than heartbeats always pass; heartbeats pass until the valid time, or if none is set. */
  lemma AcceptsExactly(validTime: int, now: int, protocol: Protocol, dport: int)
    ensures protocol != Udp || dport != 5001 ==> Accepts(validTime, now, protocol, dport)
    ensures Accepts(validTime, now, Udp, 5001) <==> validTime == 0 || now <= validTime
    ensures Open(validTime, now) <==> Accepts(validTime, now, Udp, 5001)
  {
  }

  /** Where the service loop is; `start` and `t` are the clock readings it holds. */
  datatype Pc =
    | Stopped
    | Starting(t: int)               // about to write the first valid time
    | Idle
    | Iterating(start: int)
    | Ready(start: int, t: int)      // about to send
    | Waiting(start: int, t: int)    // for the completion signal
    | Renewing(start: int, t: int)   // signal received, about to write the valid time
    | Calling(start: int)            // the heartbeat call to the name node
    | Answered(start: int)           // about to write the valid time

  /** An accepted heartbeat: when it passed, whether the gate was unset, and the base of the last renewal. */
  datatype Passed = Passed(time: int, unset: bool, base: int)

  datatype Node = Node(
    now: nat,
    validTime: int,
    base: int,          // the clock reading behind the last write of the valid time
    sem: nat,
    inFlight: nat,      // accepted packets whose transmission is not complete
    signals: nat,
    successes: nat,
    pc: Pc,
    passed: seq<Passed>)

  datatype Event =
    | Tick(d: nat)
    | StartService
    | StopService
    | Step          // the loop's next step, when it depends on nothing else
    | WaitOk
    | WaitTimeout
    | RpcAnswered
    | RpcFailed
    | TransmitDone
    | Clear

  function Begin(): Node {
    Node(0, 0, 0, 0, 0, 0, 0, Stopped, [])
  }

  function Write(s: Node, base: int): Node {
    s.(validTime := base + LEASE, base := base)
  }

  /** A heartbeat packet meets the hook. */
  function Transmit(s: Node): Node {
    if Open(s.validTime, s.now)
    then s.(inFlight := s.inFlight + 1, passed := s.passed + [Passed(s.now, s.validTime == 0, s.base)])
    else s
  }

  function Next(s: Node, ev: Event): Node {
    match ev
    case Tick(d) => s.(now := s.now + d)
    case StartService => if s.pc == Stopped then s.(pc := Starting(s.now)) else s
    case StopService => s.(pc := Stopped)
    case Step =>
      (match s.pc
       case Starting(t) => Write(s, t).(pc := Idle)
       case Idle => s.(pc := Iterating(s.now))
       case Iterating(start) => s.(pc := Ready(start, s.now))
       case Ready(start, t) => Transmit(s).(pc := Waiting(start, t))
       case Renewing(start, t) => Write(s, t).(pc := Calling(start))
       case Answered(start) => Write(s, start).(pc := Idle)
       case _ => s)
    case WaitOk =>
      if s.pc.Waiting? && s.sem > 0
      then s.(sem := s.sem - 1, successes := s.successes + 1, pc := Renewing(s.pc.start, s.pc.t)) else s
    case WaitTimeout =>
      if s.pc.Waiting? && s.sem == 0 then s.(pc := Calling(s.pc.start)) else s
    case RpcAnswered => if s.pc.Calling? then s.(pc := Answered(s.pc.start)) else s
    case RpcFailed => if s.pc.Calling? then s.(pc := Idle) else s
    case TransmitDone =>
      if s.inFlight > 0 then s.(inFlight := s.inFlight - 1, signals := s.signals + 1, sem := s.sem + 1) else s
    case Clear => s.(validTime := 0)
  }

  function Run(s: Node, evs: seq<Event>): Node {
    if evs == [] then s else Next(Run(s, evs[..|evs| - 1]), evs[|evs| - 1])
  }

  // ----- every run -----

  /** The clock readings a loop position holds lie in the past. */
  ghost predicate Past(pc: Pc, now: int) {
    match pc
    case Starting(t) => 0 <= t <= now
    case Iterating(start) => 0 <= start <= now
    case Ready(start, t) => 0 <= start <= t <= now
    case Waiting(start, t) => 0 <= start <= t <= now
    case Renewing(start, t) => 0 <= start <= t <= now
    case Calling(start) => 0 <= start <= now
    case Answered(start) => 0 <= start <= now
    case _ => true
  }

  /**
   A heartbeat that is sent passes the gate, with its time and the base of the last renewal, and is in flight if and
   only if the gate is open; otherwise it leaves no trace.
   */
  lemma HeartbeatPassesExactly(s: Node)
    requires s.pc.Ready?
    ensures
      var s', passes := Next(s, Step), s.validTime == 0 || s.now <= s.validTime;
      && s'.pc == Waiting(s.pc.start, s.pc.t)
      && s'.passed == s.passed + (if passes then [Passed(s.now, s.validTime == 0, s.base)] else [])
      && s'.inFlight == s.inFlight + (if passes then 1 else 0)
      && s' == s.(pc := s'.pc, passed := s'.passed, inFlight := s'.inFlight)
  {
  }

  ghost predicate Inv(s: Node) {
    && Past(s.pc, s.now) && 0 <= s.base <= s.now
    && (s.validTime == 0 || s.validTime == s.base + LEASE)
    && s.successes + s.sem == s.signals
    && s.signals + s.inFlight == |s.passed|
    && (forall k | 0 <= k < |s.passed| ::
          s.passed[k].unset || s.passed[k].base <= s.passed[k].time <= s.passed[k].base + LEASE)
  }

  lemma TransmitKeeps(s: Node)
    requires Inv(s)
    ensures Inv(Transmit(s))
  {
    var s' := Transmit(s);
    forall k | 0 <= k < |s'.passed|
      ensures s'.passed[k].unset || s'.passed[k].base <= s'.passed[k].time <= s'.passed[k].base + LEASE
    {
      assert k < |s.passed| ==> s'.passed[k] == s.passed[k];
    }
  }

  lemma StepKeeps(s: Node)
    requires Inv(s)
    ensures Inv(Next(s, Step))
  {
    match s.pc
    case Ready(start, t) => TransmitKeeps(s);
    case _ => assert Next(s, Step).passed == s.passed;
  }

  lemma EventKeeps(s: Node, ev: Event)
    requires Inv(s)
    ensures Inv(Next(s, ev))
  {
    if ev == Step { StepKeeps(s); } else { assert Next(s, ev).passed == s.passed; }
  }

  lemma {:induction false} InvHolds(evs: seq<Event>)
    ensures Inv(Run(Begin(), evs))
  {
    if evs != [] {
      InvHolds(evs[..|evs| - 1]);
      EventKeeps(Run(Begin(), evs[..|evs| - 1]), evs[|evs| - 1]);
    }
  }

  /**
   Over every run: a heartbeat packet that passes the gate leaves no later than 30000 ms after the
   base time of the last renewal, unless no valid time is set.
   */
  lemma LeaseBound(evs: seq<Event>, k: nat)
    requires k < |Run(Begin(), evs).passed|
    ensures
      var p := Run(Begin(), evs).passed[k];
      p.unset || p.base <= p.time <= p.base + 30000
  {
    InvHolds(evs);
  }

  /**
   Over every run: successful sends and the semaphore value add up to the completion signals, and
   signals and packets in flight to the packets that passed the gate.
   */
  lemma SignalsAreConserved(evs: seq<Event>)
    ensures
      var s := Run(Begin(), evs);
      s.successes + s.sem == s.signals && s.signals + s.inFlight == |s.passed|
  {
    InvHolds(evs);
  }

  /** The lease has run out and nothing is under way that could renew it. */
  ghost predicate Dead(s: Node) {
    && s.validTime != 0 && s.validTime < s.now
    && s.inFlight == 0 && s.sem == 0
    && !s.pc.Starting? && !s.pc.Renewing? && !s.pc.Answered?
  }

  predicate Revives(ev: Event) {
    ev == RpcAnswered || ev == StartService || ev == Clear
  }

  /**
   Once the lease has expired with no transmission in flight and a zero semaphore, the gate stays shut
   and no heartbeat passes in any run, until a call is answered, the service is started again, or the
   valid time is cleared.
   */
  lemma {:induction false} DeadStaysDead(s: Node, evs: seq<Event>)
    requires Dead(s) && forall ev | ev in evs :: !Revives(ev)
    ensures Dead(Run(s, evs)) && !Open(Run(s, evs).validTime, Run(s, evs).now)
    ensures Run(s, evs).passed == s.passed && Run(s, evs).successes == s.successes
  {
    if evs != [] {
      assert evs[|evs| - 1] in evs;
      DeadStaysDead(s, evs[..|evs| - 1]);
    }
  }

  /** Each of the three can open the gate again, an answered call only if it began less than a lease ago. */
  lemma RevivalsOpen(s: Node)
    requires Inv(s) && Dead(s)
    ensures Open(Next(s, Clear).validTime, s.now)
    ensures s.pc == Stopped ==> var r := Next(Next(s, StartService), Step); Open(r.validTime, r.now)
    ensures s.pc.Calling? ==>
              var r := Next(Next(s, RpcAnswered), Step);
              Open(r.validTime, r.now) <==> s.now <= s.pc.start + LEASE
  {
  }

  // ----- exactly when an expired lease comes back by itself -----

  ghost predicate Expired(s: Node) {
    Inv(s) && s.validTime != 0 && s.validTime < s.now
  }

  ghost predicate Quiet(evs: seq<Event>) {
    forall ev | ev in evs :: !Revives(ev)
  }

  /** A run without any of the three revivals that opens the gate before another heartbeat has passed. */
  ghost predicate Reopening(s: Node, evs: seq<Event>) {
    Quiet(evs) && Open(Run(s, evs).validTime, Run(s, evs).now) && Run(s, evs).passed == s.passed
  }

  ghost predicate Reopens(s: Node) {
    exists evs :: Reopening(s, evs)
  }

  /**
   A signal, posted or still to come, can be taken for the heartbeat of a later iteration. A write that is
   about to happen counts if its reading is fresh. A wait whose reading is stale uses up one posted signal.
   */
  predicate CanReopen(s: Node) {
    var left := s.inFlight + s.sem;
    match s.pc
    case Stopped => false
    case Starting(t) => s.now <= t + LEASE || left > 0
    case Renewing(_, t) => s.now <= t + LEASE || left > 0
    case Answered(start) => s.now <= start + LEASE || left > 0
    case Idle => left > 0
    case Iterating(_) => left > 0
    case Calling(_) => left > 0
    case Ready(_, t) => if s.now <= t + LEASE then left > 0 else s.inFlight > 0 || s.sem > 1
    case Waiting(_, t) => if s.now <= t + LEASE then left > 0 else s.inFlight > 0 || s.sem > 1
  }

  lemma {:induction false} RunFront(s: Node, ev: Event, evs: seq<Event>)
    ensures Run(s, [ev] + evs) == Run(Next(s, ev), evs)
  {
    if evs == [] {
      assert [ev][..0] == [];
      assert [ev] + [] == [ev];
    } else {
      assert ([ev] + evs)[..|evs|] == [ev] + evs[..|evs| - 1];
      RunFront(s, ev, evs[..|evs| - 1]);
    }
  }

  lemma Prepend(s: Node, ev: Event)
    requires !Revives(ev) && Next(s, ev).passed == s.passed && Reopens(Next(s, ev))
    ensures Reopens(s)
  {
    var evs :| Reopening(Next(s, ev), evs);
    RunFront(s, ev, evs);
    assert Reopening(s, [ev] + evs);
  }

  lemma OpenNow(s: Node)
    requires Open(s.validTime, s.now)
    ensures Reopens(s)
  {
    assert Reopening(s, []);
  }

  /** A fresh reading and a signal renew the lease. */
  lemma FreshWaitReopens(s: Node)
    requires Expired(s) && s.pc.Waiting? && s.now <= s.pc.t + LEASE && s.inFlight + s.sem > 0
    ensures Reopens(s)
    decreases s.inFlight
  {
    if s.sem == 0 {
      FreshWaitReopens(Next(s, TransmitDone));
      Prepend(s, TransmitDone);
    } else {
      var renewing := Next(s, WaitOk);
      OpenNow(Next(renewing, Step));
      Prepend(renewing, Step);
      Prepend(s, WaitOk);
    }
  }

  lemma IdleReopens(s: Node)
    requires Expired(s) && s.pc == Idle && s.inFlight + s.sem > 0
    ensures Reopens(s)
  {
    IteratingReopens(Next(s, Step));
    Prepend(s, Step);
  }

  lemma IteratingReopens(s: Node)
    requires Expired(s) && s.pc.Iterating? && s.inFlight + s.sem > 0
    ensures Reopens(s)
  {
    var ready := Next(s, Step);
    FreshWaitReopens(Next(ready, Step));
    Prepend(ready, Step);
    Prepend(s, Step);
  }

  lemma CallingReopens(s: Node)
    requires Expired(s) && s.pc.Calling? && s.inFlight + s.sem > 0
    ensures Reopens(s)
  {
    IdleReopens(Next(s, RpcFailed));
    Prepend(s, RpcFailed);
  }

  lemma WaitReopens(s: Node)
    requires Expired(s) && s.pc.Waiting? && CanReopen(s)
    ensures Reopens(s)
  {
    if s.now <= s.pc.t + LEASE {
      FreshWaitReopens(s);
    } else if s.sem == 0 {
      CallingReopens(Next(s, WaitTimeout));
      Prepend(s, WaitTimeout);
    } else {
      WriteReopens(Next(s, WaitOk));
      Prepend(s, WaitOk);
    }
  }

  lemma WriteReopens(s: Node)
    requires Expired(s) && (s.pc.Starting? || s.pc.Renewing? || s.pc.Answered?) && CanReopen(s)
    ensures Reopens(s)
  {
    var s' := Next(s, Step);
    StepKeeps(s);
    if Open(s'.validTime, s'.now) {
      OpenNow(s');
    } else if s'.pc == Idle {
      IdleReopens(s');
    } else {
      CallingReopens(s');
    }
    Prepend(s, Step);
  }

  /** Nothing that may happen makes a revival possible that was not. */
  lemma StuckStays(s: Node, ev: Event)
    requires Expired(s) && !CanReopen(s) && !Revives(ev)
    ensures Expired(Next(s, ev)) && !CanReopen(Next(s, ev)) && Next(s, ev).passed == s.passed
  {
    EventKeeps(s, ev);
  }

  lemma {:induction false} StuckForever(s: Node, evs: seq<Event>)
    requires Expired(s) && !CanReopen(s) && Quiet(evs)
    ensures Expired(Run(s, evs)) && !CanReopen(Run(s, evs)) && Run(s, evs).passed == s.passed
  {
    if evs != [] {
      assert evs[|evs| - 1] in evs;
      StuckForever(s, evs[..|evs| - 1]);
      StuckStays(Run(s, evs[..|evs| - 1]), evs[|evs| - 1]);
    }
  }

  /**
   An expired lease comes back without an answered call, a restart or a clear if and only if `CanReopen` holds:
   some run then opens the gate before another heartbeat has passed, and otherwise no run ever opens it.
   */
  lemma ReopensExactly(s: Node)
    requires Expired(s)
    ensures Reopens(s) <==> CanReopen(s)
    ensures !CanReopen(s) ==> forall evs | Quiet(evs) ::
              !Open(Run(s, evs).validTime, Run(s, evs).now) && Run(s, evs).passed == s.passed
  {
    if CanReopen(s) {
      match s.pc
      case Idle => IdleReopens(s);
      case Iterating(_) => IteratingReopens(s);
      case Calling(_) => CallingReopens(s);
      case Waiting(_, _) => WaitReopens(s);
      case Ready(_, _) =>
        WaitReopens(Next(s, Step));
        Prepend(s, Step);
      case _ => WriteReopens(s);
    } else {
      forall evs | Quiet(evs)
        ensures !Open(Run(s, evs).validTime, Run(s, evs).now) && Run(s, evs).passed == s.passed
      {
        StuckForever(s, evs);
      }
    }
  }

  /**
   In particular, with a packet in flight when the lease runs out the service loop, wherever it is, can take the
   packet's late signal for that of a heartbeat which the gate has dropped, and renews the lease.
   */
  lemma LateSignalRevives(s: Node)
    requires Expired(s) && s.inFlight > 0
    ensures Reopens(s) <==> s.pc != Stopped
  {
    ReopensExactly(s);
  }

  /** A service loop that is stopped after the lease has run out does not renew it, whatever is in flight. */
  lemma StoppedStaysShut(s: Node, evs: seq<Event>)
    requires Expired(s) && Quiet(evs)
    ensures
      var r := Run(Next(s, StopService), evs);
      !Open(r.validTime, r.now) && r.passed == s.passed
  {
    EventKeeps(s, StopService);
    StuckForever(Next(s, StopService), evs);
  }

  // ----- the sender's side -----

  /** How a wait on the semaphore is woken after a while: by signals, whose handlers post, or by the timeout. */
  datatype Wakeup = Interrupted(elapsed: nat, posts: nat) | Timeout(elapsed: nat)

  function Repeat(ev: Event, n: nat): seq<Event> {
    if n == 0 then [] else Repeat(ev, n - 1) + [ev]
  }

  /** What happens in the lease machine meanwhile. */
  function WakeEvents(ws: seq<Wakeup>): seq<Event> {
    if ws == [] then []
    else
      var w := ws[|ws| - 1];
      WakeEvents(ws[..|ws| - 1]) + [Tick(w.elapsed)] + if w.Interrupted? then Repeat(TransmitDone, w.posts) else []
  }

  function Posts(ws: seq<Wakeup>): nat {
    if ws == [] then 0
    else Posts(ws[..|ws| - 1]) + if ws[|ws| - 1].Interrupted? then ws[|ws| - 1].posts else 0
  }

  function Elapsed(ws: seq<Wakeup>): nat {
    if ws == [] then 0 else Elapsed(ws[..|ws| - 1]) + ws[|ws| - 1].elapsed
  }

  lemma {:induction false} RunAppend(s: Node, a: seq<Event>, b: seq<Event>)
    ensures Run(s, a + b) == Run(Run(s, a), b)
  {
    if b == [] {
      assert a + b == a;
    } else {
      assert (a + b)[..|a + b| - 1] == a + b[..|b| - 1];
      RunAppend(s, a, b[..|b| - 1]);
    }
  }

  lemma RunMore(s: Node, evs: seq<Event>, ev: Event)
    ensures Run(s, evs + [ev]) == Next(Run(s, evs), ev)
  {
    assert (evs + [ev])[..|evs|] == evs;
  }

  lemma {:induction false} RepeatedSignals(s: Node, n: nat)
    requires n <= s.inFlight
    ensures Run(s, Repeat(TransmitDone, n)) ==
            s.(inFlight := s.inFlight - n, signals := s.signals + n, sem := s.sem + n)
  {
    if n > 0 {
      RepeatedSignals(s, n - 1);
      RunMore(s, Repeat(TransmitDone, n - 1), TransmitDone);
    }
  }

  lemma {:induction false} PostsSoFar(ws: seq<Wakeup>, n: nat)
    requires n <= |ws|
    ensures Posts(ws[..n]) <= Posts(ws)
    decreases |ws|
  {
    if n == |ws| {
      assert ws[..n] == ws;
    } else {
      assert ws[..|ws| - 1][..n] == ws[..n];
      PostsSoFar(ws[..|ws| - 1], n);
    }
  }

  function Woken(s: Node, ws: seq<Wakeup>): Node
    requires Posts(ws) <= s.inFlight
  {
    var k := Posts(ws);
    s.(now := s.now + Elapsed(ws), inFlight := s.inFlight - k, signals := s.signals + k, sem := s.sem + k)
  }

  /** What the wakeups of a wait do to the machine: time passes and packets in flight become posts. */
  lemma {:induction false} WakeEffect(s: Node, ws: seq<Wakeup>)
    requires Posts(ws) <= s.inFlight
    ensures Run(s, WakeEvents(ws)) == Woken(s, ws)
  {
    if ws != [] {
      var init, w := ws[..|ws| - 1], ws[|ws| - 1];
      WakeEffect(s, init);
      var before := WakeEvents(init) + [Tick(w.elapsed)];
      RunMore(s, WakeEvents(init), Tick(w.elapsed));
      if w.Interrupted? {
        RunAppend(s, before, Repeat(TransmitDone, w.posts));
        RepeatedSignals(Run(s, before), w.posts);
      } else {
        assert before + [] == before;
      }
    }
  }

  lemma WaitRun(s: Node, trace: seq<Event>, ws: seq<Wakeup>, outcome: Event)
    requires Posts(ws) <= Run(s, trace).inFlight
    ensures Run(s, trace + WakeEvents(ws) + [outcome]) == Next(Woken(Run(s, trace), ws), outcome)
  {
    WakeEffect(Run(s, trace), ws);
    RunAppend(s, trace, WakeEvents(ws));
    RunMore(s, trace + WakeEvents(ws), outcome);
  }

  /** The loop is about to write the valid time t. */
  predicate AboutToWrite(pc: Pc, t: int) {
    match pc
    case Starting(x) => t == x + LEASE
    case Renewing(_, x) => t == x + LEASE
    case Answered(x) => t == x + LEASE
    case _ => false
  }

  predicate HasTimeout(ws: seq<Wakeup>) {
    exists i :: 0 <= i < |ws| && ws[i].Timeout?
  }

  /** The sender's semaphore, the valid time the kernel module reads, and the clock. */
  class StSender {
    var sentWait: nat
    var validTime: int
    var clock: nat
    ghost var trace: seq<Event>  // what has happened in the lease machine

    ghost function State(): Node
      reads this
    {
      Run(Begin(), trace)
    }

    /** The fields are those of the lease machine after the trace, so that all that holds of its runs holds here. */
    ghost predicate Valid()
      reads this
    {
      State().sem == sentWait && State().validTime == validTime && State().now == clock
    }

    constructor ()
      ensures Valid() && trace == []
    {
      sentWait, validTime, clock, trace := 0, 0, 0, [];
    }

    /** An event that concerns none of the fields. */
    ghost method Happens(ev: Event)
      requires Valid()
      requires Next(State(), ev).sem == sentWait && Next(State(), ev).validTime == validTime && Next(State(), ev).now == clock
      modifies this`trace
      ensures Valid() && trace == old(trace) + [ev] && State() == Next(old(State()), ev)
    {
      RunMore(Begin(), trace, ev);
      trace := trace + [ev];
    }

    method Pass(d: nat)
      requires Valid()
      modifies this`clock, this`trace
      ensures Valid() && trace == old(trace) + [Tick(d)] && State() == Next(old(State()), Tick(d))
      ensures clock == old(clock) + d
    {
      RunMore(Begin(), trace, Tick(d));
      clock := clock + d;
      trace := trace + [Tick(d)];
    }

    /** The handler of a signal for a completed packet is the completion event of the machine. */
    method ReceiveSignalFromKernel()
      requires Valid() && State().inFlight > 0
      modifies this`sentWait, this`trace
      ensures Valid() && trace == old(trace) + [TransmitDone]
      ensures State().successes + sentWait == State().signals == old(State().signals) + 1
    {
      RunMore(Begin(), trace, TransmitDone);
      sentWait := sentWait + 1;
      trace := trace + [TransmitDone];
      InvHolds(trace);
    }

    /** Writing the time the loop is about to write is its next step, and opens the gate just until then. */
    method UpdateValidTime(t: int)
      requires Valid() && AboutToWrite(State().pc, t)
      modifies this`validTime, this`trace
      ensures Valid() && trace == old(trace) + [Step] && State() == Next(old(State()), Step)
      ensures forall now :: Open(validTime, now) <==> now <= t
    {
      InvHolds(trace);
      RunMore(Begin(), trace, Step);
      validTime := t;
      trace := trace + [Step];
    }

    /** Clearing is the clear event: from now on everything passes, whatever the clock says. */
    method ClearDebugfs()
      requires Valid()
      modifies this`validTime, this`trace
      ensures Valid() && trace == old(trace) + [Clear]
      ensures forall now, protocol, dport :: Accepts(validTime, now, protocol, dport)
    {
      RunMore(Begin(), trace, Clear);
      validTime := 0;
      trace := trace + [Clear];
    }

    /**
     The wait of `safetimer_send_heartbeat`: it succeeds by consuming exactly one post and fails only when
     the timeout strikes at a zero semaphore. `used` of the wakeups were needed.
     */
    method AwaitSignal(wakeups: seq<Wakeup>) returns (ret: int, used: nat)
      requires Valid() && State().pc.Waiting? && Posts(wakeups) <= State().inFlight
      requires HasTimeout(wakeups)
      modifies this`sentWait, this`clock, this`trace
      ensures Valid() && used <= |wakeups| && (ret == 0 || ret == -1)
      ensures trace == old(trace) + WakeEvents(wakeups[..used]) + [if ret == 0 then WaitOk else WaitTimeout]
      ensures State().successes == old(State().successes) + (if ret == 0 then 1 else 0)
      ensures old(sentWait) + Posts(wakeups[..used]) == sentWait + (if ret == 0 then 1 else 0)
      ensures ret == -1 ==> sentWait == 0 && 0 < used && wakeups[used - 1].Timeout?
      ensures State().pc == if ret == 0 then Renewing(old(State().pc.start), old(State().pc.t)) else Calling(old(State().pc.start))
      ensures clock == old(clock) + Elapsed(wakeups[..used])
    {
      used := 0;
      while true
        invariant used <= |wakeups| && forall i | 0 <= i < used :: wakeups[i].Interrupted?
        invariant sentWait == old(sentWait) + Posts(wakeups[..used]) && clock == old(clock) + Elapsed(wakeups[..used])
        invariant trace == old(trace)
        decreases |wakeups| - used
      {
        if sentWait > 0 {
          sentWait := sentWait - 1;
          PostsSoFar(wakeups, used);
          WaitRun(Begin(), trace, wakeups[..used], WaitOk);
          trace := trace + WakeEvents(wakeups[..used]) + [WaitOk];
          return 0, used;
        }
        assert wakeups[..used + 1][..used] == wakeups[..used];
        var w := wakeups[used];
        used := used + 1;
        clock := clock + w.elapsed;
        match w {
          case Interrupted(_, posts) => sentWait := sentWait + posts;
          case Timeout(_) =>
            PostsSoFar(wakeups, used);
            WaitRun(Begin(), trace, wakeups[..used], WaitTimeout);
            trace := trace + WakeEvents(wakeups[..used]) + [WaitTimeout];
            return -1, used;
        }
      }
    }

    /** `safetimer_send_heartbeat`: the packet meets the gate, then its signal is awaited. */
    method SendHeartbeat(wakeups: seq<Wakeup>) returns (ret: int, used: nat)
      requires Valid() && State().pc.Ready? && HasTimeout(wakeups) && Posts(wakeups) <= Transmit(State()).inFlight
      modifies this`sentWait, this`clock, this`trace
      ensures Valid() && used <= |wakeups| && (ret == 0 || ret == -1)
      ensures trace == old(trace) + [Step] + WakeEvents(wakeups[..used]) + [if ret == 0 then WaitOk else WaitTimeout]
      ensures State().pc == if ret == 0 then Renewing(old(State().pc.start), old(State().pc.t)) else Calling(old(State().pc.start))
    {
      Happens(Step);
      ret, used := AwaitSignal(wakeups);
    }
  }

  /** The loop reads the clock twice: for the iteration and, a little later, for the heartbeat. */
  method ReadClocks(sender: StSender, d: nat) returns (startTime: nat, now: nat)
    requires sender.Valid() && sender.State().pc == Idle
    modifies sender
    ensures sender.Valid() && sender.trace == old(sender.trace) + [Step, Tick(d), Step]
    ensures startTime == old(sender.clock) && now == startTime + d && sender.validTime == old(sender.validTime)
    ensures sender.State() == Next(old(sender.State()), Tick(d)).(pc := Ready(startTime, now))
  {
    startTime := sender.clock;
    sender.Happens(Step);
    sender.Pass(d);
    now := sender.clock;
    sender.Happens(Step);
  }

  /** The heartbeat and, if its transmission was signalled, the renewal. */
  method SendAndRenew(sender: StSender, wakeups: seq<Wakeup>, now: nat) returns (ret: int, used: nat)
    requires sender.Valid() && sender.State().pc.Ready? && sender.State().pc.t == now && HasTimeout(wakeups)
    requires Posts(wakeups) <= Transmit(sender.State()).inFlight
    modifies sender
    ensures sender.Valid() && sender.State().pc == Calling(old(sender.State().pc.start)) && used <= |wakeups|
    ensures sender.trace == old(sender.trace) + SendEvents(wakeups[..used], ret)
    ensures sender.validTime == if ret == 0 then now + LEASE else old(sender.validTime)
  {
    ret, used := sender.SendHeartbeat(wakeups);
    if ret == 0 {
      sender.UpdateValidTime(now + LEASE);
    }
  }

  /** The call to the name node, which takes a while, and the renewal if it is answered. */
  method CallAndRenew(sender: StSender, d: nat, answered: bool, startTime: nat)
    requires sender.Valid() && sender.State().pc == Calling(startTime)
    modifies sender
    ensures sender.Valid() && sender.State().pc == Idle
    ensures sender.trace == old(sender.trace) + [Tick(d)] + if answered then [RpcAnswered, Step] else [RpcFailed]
    ensures sender.validTime == if answered then startTime + LEASE else old(sender.validTime)
  {
    sender.Pass(d);
    if answered {
      sender.Happens(RpcAnswered);
      sender.UpdateValidTime(startTime + LEASE);
    } else {
      sender.Happens(RpcFailed);
    }
  }

  function SendEvents(ws: seq<Wakeup>, ret: int): seq<Event> {
    [Step] + WakeEvents(ws) + if ret == 0 then [WaitOk, Step] else [WaitTimeout]
  }

  /** The events of one iteration of the service loop. */
  function IterationEvents(d1: nat, ws: seq<Wakeup>, ret: int, d2: nat, answered: bool): seq<Event> {
    [Step, Tick(d1), Step] + SendEvents(ws, ret) + [Tick(d2)] + if answered then [RpcAnswered, Step] else [RpcFailed]
  }

  /**
   One iteration of the service loop in which a heartbeat is due. It is a run of the lease machine, and the valid
   time moves only if the transmission was signalled or the call answered; an answer has the last word.
   */
  method HeartbeatIteration(sender: StSender, d1: nat, wakeups: seq<Wakeup>, d2: nat, answered: bool)
    returns (ret: int, used: nat)
    requires sender.Valid() && sender.State().pc == Idle && HasTimeout(wakeups)
    requires Posts(wakeups) <= Transmit(Next(sender.State(), Tick(d1))).inFlight
    modifies sender
    ensures sender.Valid() && sender.State().pc == Idle && used <= |wakeups|
    ensures sender.trace == old(sender.trace) + IterationEvents(d1, wakeups[..used], ret, d2, answered)
    ensures sender.validTime ==
            if answered then old(sender.clock) + LEASE
            else if ret == 0 then old(sender.clock) + d1 + LEASE
            else old(sender.validTime)
  {
    var startTime, now := ReadClocks(sender, d1);
    ret, used := SendAndRenew(sender, wakeups, now);
    CallAndRenew(sender, d2, answered, startTime);
  }
}
