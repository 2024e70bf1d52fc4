/**
 Senders, network, server and checker around one clock. A sender sleeps until the current epoch
 ends, stamps a heartbeat with the epoch it then finds itself in, sends it and starts over.
 */
module EndToEnd {
  import opened EpochTime
  import opened EpochLists
  import C = Checker
  import PR = PlainReceiver

  datatype Phase = Reading | Sleeping | Stamping

  /** `timeout` is the end of sleep of the current iteration; it is not set before the first one. */
  datatype Sender = Sender(phase: Phase, started: bool, timeout: int, stamps: seq<int>)

  datatype System = System(
    now: int,
    senders: map<string, Sender>,
    flight: set<(string, int)>,      // heartbeats on their way
    processed: set<(string, int)>,   // heartbeats the server has processed
    lists: Lists,
    checker: C.Pc,
    reports: set<(string, int)>)     // nodes reported as timed out, with the epoch

  datatype Event =
    | Tick(d: nat)
    | StartSender(ip: string)
    | StepSender(ip: string)
    | Deliver(ip: string, epoch: int)
    | StepChecker

  function Begin(g: Grid): System {
    System(g.base, map[], {}, {}, map[], C.Outer, {})
  }

  function Next(g: Grid, s: System, ev: Event): System {
    match ev
    case Tick(d) => s.(now := s.now + d)
    case StartSender(ip) =>
      if ip in s.senders then s else s.(senders := s.senders[ip := Sender(Reading, false, 0, [])])
    case StepSender(ip) =>
      if ip !in s.senders then s else SenderStep(g, s, ip)
    case Deliver(ip, e) =>
      if (ip, e) !in s.flight then s
      else s.(flight := s.flight - {(ip, e)}, processed := s.processed + {(ip, e)}, lists := Heartbeat(s.lists, ip, e))
    case StepChecker =>
      var s' := s.(checker := C.Go(g, s.checker, s.now));
      if !s.checker.Due? then s'
      else
        var e := s.checker.epoch;
        s'.(lists := s.lists - {e}, reports := s.reports + (set ip | ip in ListOf(s.lists, e) :: (ip, e)))
  }

  function SenderStep(g: Grid, s: System, ip: string): System
    requires ip in s.senders
  {
    var snd := s.senders[ip];
    match snd.phase
    case Reading =>
      var timeout := EpochToTime(g, TimeToEpoch(g, s.now));
      s.(senders := s.senders[ip := snd.(phase := Sleeping, started := true, timeout := timeout)])
    case Sleeping =>
      if snd.timeout - s.now > 0 then s
      else s.(senders := s.senders[ip := snd.(phase := Stamping)])
    case Stamping =>
      var stamp := TimeToEpoch(g, s.now);
      s.(senders := s.senders[ip := snd.(phase := Reading, stamps := snd.stamps + [stamp])],
         flight := s.flight + {(ip, stamp)})
  }

  function Run(g: Grid, evs: seq<Event>): System {
    if evs == [] then Begin(g) else Next(g, Run(g, evs[..|evs| - 1]), evs[|evs| - 1])
  }

  /**
   The timing the node can rely on in one state: its current iteration is not older than one interval
   after its waking time, and each of its heartbeats on the way can still arrive before its epoch ends.
   */
  ghost predicate Timely(g: Grid, s: System, ip: string) {
    && (ip in s.senders && s.senders[ip].started ==> s.now < s.senders[ip].timeout + g.interval)
    && (forall e | (ip, e) in s.flight :: s.now < EpochToTime(g, e))
  }

  ghost predicate AlwaysTimely(g: Grid, evs: seq<Event>, ip: string) {
    Timely(g, Run(g, evs), ip) && (evs != [] ==> AlwaysTimely(g, evs[..|evs| - 1], ip))
  }

  // ----- the invariant for one node -----

  ghost predicate Consecutive(stamps: seq<int>) {
    forall i | 0 < i < |stamps| :: stamps[i] == stamps[i - 1] + 1
  }

  function LastStamp(snd: Sender): int
    requires snd.stamps != []
  {
    snd.stamps[|snd.stamps| - 1]
  }

  /** Stamps are consecutive and were taken in the epoch they name; the waking time follows the last stamp. */
  ghost predicate SenderOk(g: Grid, now: int, snd: Sender) {
    && Consecutive(snd.stamps)
    && (forall e | e in snd.stamps :: EpochToTime(g, e - 1) <= now)
    && match snd.phase
       case Reading =>
         if snd.stamps == [] then !snd.started
         else snd.started && snd.timeout == EpochToTime(g, LastStamp(snd) - 1) <= now
       case _ =>
         && snd.started
         && (exists c :: snd.timeout == EpochToTime(g, c) && (snd.stamps != [] ==> c == LastStamp(snd)))
         && (snd.phase == Stamping ==> snd.timeout <= now)
  }

  ghost predicate Inv(g: Grid, s: System, ip: string) {
    && g.base <= s.now
    && NoDups(s.lists)
    && (ip in s.senders ==> SenderOk(g, s.now, s.senders[ip]))
    && (forall e :: (ip, e) in s.flight || (ip, e) in s.processed <==> ip in s.senders && e in s.senders[ip].stamps)
    && (forall e | In(s.lists, e, ip) :: (ip, e - 1) in s.processed && (ip, e) !in s.processed)
    && (s.checker.Due? ==> EpochToTime(g, s.checker.epoch) <= s.now)
    && (s.checker.Asleep? ==> s.checker.until == EpochToTime(g, s.checker.epoch))
    && (forall e :: (ip, e) !in s.reports)
  }

  lemma {:induction false} StampsCover(stamps: seq<int>, e: int, last: int)
    requires Consecutive(stamps) && stamps != [] && stamps[|stamps| - 1] == last
    requires e - 1 in stamps && e <= last
    ensures e in stamps
  {
    var i :| 0 <= i < |stamps| && stamps[i] == e - 1;
    if i + 1 < |stamps| {
      assert stamps[i + 1] == e;
    }
  }

  lemma NextEnd(g: Grid, e: int)
    ensures EpochToTime(g, e + 1) == EpochToTime(g, e) + g.interval
  {
  }

  lemma SameEpoch(g: Grid, a: int, b: int)
    requires 0 < g.interval && EpochToTime(g, a) < EpochToTime(g, b)
    ensures a < b
  {
    Scale(b, a, g.interval);
  }

  /** A stamp taken in time is the one after the last. */
  lemma StampIsNext(g: Grid, now: int, snd: Sender, c: int)
    requires 0 < g.interval && g.base <= now
    requires snd.timeout == EpochToTime(g, c) <= now < snd.timeout + g.interval
    ensures TimeToEpoch(g, now) == c + 1
  {
    NextEnd(g, c);
    EpochContains(g, now, c + 1);
  }

  /** A consecutive sequence holds nothing beyond its last element. */
  lemma {:induction false} StampsBounded(stamps: seq<int>, i: nat)
    requires Consecutive(stamps) && i < |stamps|
    ensures stamps[i] <= stamps[|stamps| - 1]
    decreases |stamps| - i
  {
    if i + 1 < |stamps| {
      StampsBounded(stamps, i + 1);
    }
  }

  lemma ReadKeeps(g: Grid, now: int, snd: Sender)
    requires 0 < g.interval && g.base <= now && SenderOk(g, now, snd) && snd.phase == Reading
    requires snd.started ==> now < snd.timeout + g.interval
    ensures SenderOk(g, now, snd.(phase := Sleeping, started := true, timeout := EpochToTime(g, TimeToEpoch(g, now))))
  {
    if snd.stamps != [] {
      StampIsNext(g, now, snd, LastStamp(snd) - 1);
    }
  }

  lemma StampKeeps(g: Grid, now: int, snd: Sender)
    requires 0 < g.interval && g.base <= now && SenderOk(g, now, snd) && snd.phase == Stamping
    requires now < snd.timeout + g.interval
    ensures SenderOk(g, now, snd.(phase := Reading, stamps := snd.stamps + [TimeToEpoch(g, now)]))
    ensures TimeToEpoch(g, now) !in snd.stamps
  {
    var c :| snd.timeout == EpochToTime(g, c) && (snd.stamps != [] ==> c == LastStamp(snd));
    StampIsNext(g, now, snd, c);
    EpochContains(g, now, c + 1);
    forall i | 0 <= i < |snd.stamps| ensures snd.stamps[i] != c + 1 {
      StampsBounded(snd.stamps, i);
    }
  }

  lemma SenderKeeps(g: Grid, s: System, ip: string)
    requires 0 < g.interval && Inv(g, s, ip) && Timely(g, s, ip) && ip in s.senders
    ensures Inv(g, Next(g, s, StepSender(ip)), ip)
  {
    var snd := s.senders[ip];
    match snd.phase
    case Reading => ReadKeeps(g, s.now, snd);
    case Sleeping =>
    case Stamping => SentKeeps(g, s, ip);
  }

  lemma SentKeeps(g: Grid, s: System, ip: string)
    requires 0 < g.interval && Inv(g, s, ip) && Timely(g, s, ip) && ip in s.senders
    requires s.senders[ip].phase == Stamping
    ensures Inv(g, SenderStep(g, s, ip), ip)
  {
    var snd, s' := s.senders[ip], SenderStep(g, s, ip);
    StampKeeps(g, s.now, snd);
    forall e
      ensures e in s'.senders[ip].stamps <==> e in snd.stamps || e == TimeToEpoch(g, s.now) {}
  }

  lemma DeliverKeeps(g: Grid, s: System, ip: string, x: string, e: int)
    requires 0 < g.interval && Inv(g, s, ip) && Timely(g, s, ip)
    ensures Inv(g, Next(g, s, Deliver(x, e)), ip)
  {
    var s' := Next(g, s, Deliver(x, e));
    if (x, e) in s.flight {
      HeartbeatMembers(s.lists, x, e);
      if x == ip {
        assert e + 1 in s.senders[ip].stamps ==> EpochToTime(g, e) <= s.now;
        assert (ip, e + 1) !in s.processed;
      }
      forall k | In(s'.lists, k, ip)
        ensures (ip, k - 1) in s'.processed && (ip, k) !in s'.processed
      {
        assert !(x == ip && k == e);
        assert (x == ip && k == e + 1) || In(s.lists, k, ip);
      }
    }
  }

  /** At the check of epoch e the node is not in the list of e. */
  lemma NotInDueList(g: Grid, s: System, ip: string)
    requires 0 < g.interval && Inv(g, s, ip) && Timely(g, s, ip) && s.checker.Due?
    ensures !In(s.lists, s.checker.epoch, ip)
  {
    var e := s.checker.epoch;
    if (ip, e - 1) in s.processed {
      var snd := s.senders[ip];
      var last := LastStamp(snd);
      NextEnd(g, last - 1);
      NextEnd(g, last);
      SameEpochs(g, e, last + 1, s.now);
      SameEpochs(g, e, last, s.now);
      StampsCover(snd.stamps, e, last);
      assert (ip, e) !in s.flight;
    }
  }

  lemma SameEpochs(g: Grid, a: int, b: int, now: int)
    requires 0 < g.interval
    ensures EpochToTime(g, a) <= now < EpochToTime(g, b) ==> a < b
  {
    if EpochToTime(g, a) <= now < EpochToTime(g, b) { SameEpoch(g, a, b); }
  }

  lemma CheckKeeps(g: Grid, s: System, ip: string)
    requires 0 < g.interval && Inv(g, s, ip) && Timely(g, s, ip)
    ensures Inv(g, Next(g, s, StepChecker), ip)
  {
    if s.checker.Due? {
      NotInDueList(g, s, ip);
      forall k | In(Next(g, s, StepChecker).lists, k, ip) ensures In(s.lists, k, ip) {}
    } else if s.checker.Done? {
      EndedExactly(g, s.now, s.checker.epoch + 1);
    }
  }

  lemma EventKeeps(g: Grid, s: System, ev: Event, ip: string)
    requires 0 < g.interval && Inv(g, s, ip) && Timely(g, s, ip)
    ensures Inv(g, Next(g, s, ev), ip)
  {
    match ev
    case Tick(d) =>
    case StartSender(x) =>
    case StepSender(x) => if x == ip && x in s.senders { SenderKeeps(g, s, ip); }
    case Deliver(x, e) => DeliverKeeps(g, s, ip, x, e);
    case StepChecker => CheckKeeps(g, s, ip);
  }

  /** Over every timely run: the stamps are consecutive and taken in their own epoch, and the node is never in a due list. */
  lemma {:induction false} InvHolds(g: Grid, evs: seq<Event>, ip: string)
    requires 0 < g.interval && AlwaysTimely(g, evs, ip)
    ensures Inv(g, Run(g, evs), ip)
  {
    if evs != [] {
      InvHolds(g, evs[..|evs| - 1], ip);
      EventKeeps(g, Run(g, evs[..|evs| - 1]), evs[|evs| - 1], ip);
    }
  }

  /**
   End to end: with a shared monotone clock, a node whose iterations stay within one interval after
   waking and whose heartbeats are all processed before their epoch ends is never reported, in any
   interleaving with the server, the checker and any other senders.
   */
  lemma NoFalseTimeout(g: Grid, evs: seq<Event>, ip: string, e: int)
    requires 0 < g.interval && AlwaysTimely(g, evs, ip)
    ensures (ip, e) !in Run(g, evs).reports
  {
    InvHolds(g, evs, ip);
  }

  /** And its stamps name consecutive epochs without a gap. */
  lemma StampsAreConsecutive(g: Grid, evs: seq<Event>, ip: string, i: nat)
    requires 0 < g.interval && AlwaysTimely(g, evs, ip)
    requires ip in Run(g, evs).senders && 0 < i < |Run(g, evs).senders[ip].stamps|
    ensures Run(g, evs).senders[ip].stamps[i] == Run(g, evs).senders[ip].stamps[i - 1] + 1
  {
    InvHolds(g, evs, ip);
  }

  // ----- what is sent -----

  /**
   One iteration of a sender: it wakes when the current epoch has ended and then sends one heartbeat, stamped with
   the epoch of that time. When the server gets it, the node is expected in the epoch after the stamp.
   */
  lemma HeartbeatTravels(g: Grid, s: System, ip: string, d: nat)
    requires 0 < g.interval && NoDups(s.lists) && ip in s.senders && s.senders[ip].phase == Reading
    requires EpochToTime(g, TimeToEpoch(g, s.now)) <= s.now + d
    ensures
      var asleep := Next(g, Next(g, s, StepSender(ip)), Tick(d));
      var sent := Next(g, Next(g, asleep, StepSender(ip)), StepSender(ip));
      var stamp := TimeToEpoch(g, s.now + d);
      var got := Next(g, sent, Deliver(ip, stamp));
      && ip in sent.senders && sent.senders[ip].stamps == s.senders[ip].stamps + [stamp]
      && sent.senders[ip].phase == Reading && sent.flight == s.flight + {(ip, stamp)}
      && (ip, stamp) in got.processed && In(got.lists, stamp + 1, ip) && !In(got.lists, stamp, ip)
  {
    HeartbeatMembers(s.lists, ip, TimeToEpoch(g, s.now + d));
  }

  /** A sender that starts is about to read the clock and has sent nothing. */
  lemma SenderStarts(g: Grid, s: System, ip: string)
    requires ip !in s.senders
    ensures
      var s' := Next(g, s, StartSender(ip));
      s' == s.(senders := s'.senders) && ip in s'.senders && s'.senders[ip].phase == Reading && s'.senders[ip].stamps == []
  {
  }

  /** A sender that has not slept long enough sends nothing. */
  lemma NoHeartbeatWhileAsleep(g: Grid, s: System, ip: string)
    requires ip in s.senders && s.senders[ip].phase == Sleeping && s.now < s.senders[ip].timeout
    ensures Next(g, s, StepSender(ip)) == s
  {
  }

  // ----- what is reported -----

  /** The locked regions of a run: the heartbeats the server processed and the epochs checked. */
  function Locked(g: Grid, evs: seq<Event>): seq<PR.Event> {
    if evs == [] then []
    else Locked(g, evs[..|evs| - 1]) + LockedBy(Run(g, evs[..|evs| - 1]), evs[|evs| - 1])
  }

  function LockedBy(s: System, ev: Event): seq<PR.Event> {
    match ev
    case Deliver(ip, e) => if (ip, e) in s.flight then [PR.Beat(ip, e)] else []
    case StepChecker => if s.checker.Due? then [PR.Check(s.checker.epoch)] else []
    case _ => []
  }

  /** What the checker thread sees of a run. */
  function Ticks(evs: seq<Event>): seq<C.Event> {
    if evs == [] then [] else Ticks(evs[..|evs| - 1]) + TicksBy(evs[|evs| - 1])
  }

  function TicksBy(ev: Event): seq<C.Event> {
    match ev
    case Tick(d) => [C.Tick(d)]
    case StepChecker => [C.Step]
    case _ => []
  }

  lemma ServerMore(evs: seq<PR.Event>, more: seq<PR.Event>)
    requires |more| <= 1
    ensures PR.Run(evs + more) == if more == [] then PR.Run(evs) else PR.Next(PR.Run(evs), more[0])
  {
    if more == [] { assert evs + more == evs; } else { assert (evs + more)[..|evs|] == evs; }
  }

  lemma CheckerMore(g: Grid, evs: seq<C.Event>, more: seq<C.Event>)
    requires |more| <= 1
    ensures C.Run(g, evs + more) == if more == [] then C.Run(g, evs) else C.Next(g, C.Run(g, evs), more[0])
  {
    if more == [] { assert evs + more == evs; } else { assert (evs + more)[..|evs|] == evs; }
  }

  /** The server of the system is the plain receiver, fed with the locked regions of the run. */
  lemma {:induction false} ServerIsPlainReceiver(g: Grid, evs: seq<Event>)
    ensures Run(g, evs).lists == PR.Run(Locked(g, evs))
  {
    if evs != [] {
      var init, ev := evs[..|evs| - 1], evs[|evs| - 1];
      var s := Run(g, init);
      ServerIsPlainReceiver(g, init);
      ServerStep(g, s, ev);
      assert Run(g, evs).lists == Next(g, s, ev).lists;
      ServerMore(Locked(g, init), LockedBy(s, ev));
      assert Locked(g, evs) == Locked(g, init) + LockedBy(s, ev);
    }
  }

  lemma ServerStep(g: Grid, s: System, ev: Event)
    ensures
      var more := LockedBy(s, ev);
      |more| <= 1 && Next(g, s, ev).lists == if more == [] then s.lists else PR.Next(s.lists, more[0])
  {
    match ev
    case StepSender(ip) =>
      if ip in s.senders { assert SenderStep(g, s, ip).lists == s.lists; }
    case _ =>
  }

  /** Its checker is the checker thread. */
  lemma {:induction false} CheckerIsChecker(g: Grid, evs: seq<Event>)
    ensures Run(g, evs).now == C.Run(g, Ticks(evs)).now && Run(g, evs).checker == C.Run(g, Ticks(evs)).pc
  {
    if evs != [] {
      var init, ev := evs[..|evs| - 1], evs[|evs| - 1];
      CheckerIsChecker(g, init);
      CheckerStep(g, C.Run(g, Ticks(init)), Run(g, init), ev);
      CheckerMore(g, Ticks(init), TicksBy(ev));
      assert Ticks(evs) == Ticks(init) + TicksBy(ev);
    }
  }

  lemma CheckerStep(g: Grid, c: C.State, s: System, ev: Event)
    requires c.now == s.now && c.pc == s.checker
    ensures
      var more, s' := TicksBy(ev), Next(g, s, ev);
      var c' := if more == [] then c else C.Next(g, c, more[0]);
      |more| <= 1 && c'.now == s'.now && c'.pc == s'.checker
  {
  }

  ghost predicate InLog(log: seq<C.Check>, e: int) {
    exists k :: 0 <= k < |log| && log[k].epoch == e
  }

  lemma LogGrows(log: seq<C.Check>, c: C.Check, e: int)
    ensures InLog(log + [c], e) <==> InLog(log, e) || c.epoch == e
  {
    if InLog(log, e) {
      var k :| 0 <= k < |log| && log[k].epoch == e;
      assert (log + [c])[k].epoch == e;
    }
    if c.epoch == e { assert (log + [c])[|log|].epoch == e; }
    if InLog(log + [c], e) && c.epoch != e {
      var k :| 0 <= k < |log + [c]| && (log + [c])[k].epoch == e;
      assert log[k].epoch == e;
    }
  }

  lemma {:induction false} ChecksAreLogged(g: Grid, evs: seq<Event>, e: int)
    ensures PR.Check(e) in Locked(g, evs) <==> InLog(C.Run(g, Ticks(evs)).log, e)
  {
    if evs != [] {
      var init, ev := evs[..|evs| - 1], evs[|evs| - 1];
      ChecksAreLogged(g, init, e);
      CheckerIsChecker(g, init);
      CheckerMore(g, Ticks(init), TicksBy(ev));
      LogStep(g, C.Run(g, Ticks(init)), Run(g, init), ev, e);
    }
  }

  /** One event logs and locks the same checks. */
  lemma LogStep(g: Grid, c: C.State, s: System, ev: Event, e: int)
    requires c.now == s.now && c.pc == s.checker
    ensures
      var more := TicksBy(ev);
      var log := if more == [] then c.log else C.Next(g, c, more[0]).log;
      InLog(log, e) <==> InLog(c.log, e) || PR.Check(e) in LockedBy(s, ev)
  {
    if ev == StepChecker && s.checker.Due? {
      LogGrows(c.log, C.Check(s.checker.epoch, s.now), e);
    }
  }

  lemma NotCheckedBefore(g: Grid, evs: seq<Event>)
    requires 0 < g.interval && Run(g, evs).checker.Due?
    ensures PR.Check(Run(g, evs).checker.epoch) !in Locked(g, evs)
  {
    var e := Run(g, evs).checker.epoch;
    CheckerIsChecker(g, evs);
    ChecksAreLogged(g, evs, e);
    C.InvHolds(g, Ticks(evs));
    assert C.Below(C.Run(g, Ticks(evs)).log, e);
  }

  /** A check adds to the reports exactly the members of the list of its epoch, and takes the list away. */
  lemma CheckReports(g: Grid, s: System)
    requires s.checker.Due?
    ensures
      var s', e := Next(g, s, StepChecker), s.checker.epoch;
      && (forall ip, k :: (ip, k) in s'.reports <==> (ip, k) in s.reports || (k == e && In(s.lists, e, ip)))
      && (forall ip, k :: In(s'.lists, k, ip) <==> k != e && In(s.lists, k, ip))
  {
    var s', e := Next(g, s, StepChecker), s.checker.epoch;
    forall ip, k ensures (ip, k) in s'.reports <==> (ip, k) in s.reports || (k == e && In(s.lists, e, ip)) {}
  }

  lemma {:induction false} ReportsAreChecked(g: Grid, evs: seq<Event>, ip: string, e: int)
    ensures (ip, e) in Run(g, evs).reports ==> PR.Check(e) in Locked(g, evs)
  {
    if evs != [] {
      var init, ev := evs[..|evs| - 1], evs[|evs| - 1];
      ReportsAreChecked(g, init, ip, e);
      if ev == StepChecker && Run(g, init).checker.Due? { CheckReports(g, Run(g, init)); }
    }
  }

  /**
   Over every run, timely or not: when an epoch is checked, a node is reported for it if and only if its heartbeat
   for the epoch before was processed and that for the epoch was not, or the latter was overtaken.
   */
  lemma ReportedInRun(g: Grid, evs: seq<Event>, ip: string)
    requires 0 < g.interval && Run(g, evs).checker.Due?
    ensures
      var e := Run(g, evs).checker.epoch;
      (ip, e) in Next(g, Run(g, evs), StepChecker).reports <==>
        PR.ShouldReport(Locked(g, evs), ip, e) || PR.Overtaken(Locked(g, evs), ip, e)
  {
    var s, e := Run(g, evs), Run(g, evs).checker.epoch;
    CheckReports(g, s);
    NotCheckedBefore(g, evs);
    ReportsAreChecked(g, evs, ip, e);
    ServerIsPlainReceiver(g, evs);
    PR.ReportedWhen(Locked(g, evs), e, ip);
    assert ip in PR.Report(Locked(g, evs), e) <==> In(s.lists, e, ip);
  }

  /** In particular a node that has stopped sending is reported when the epoch after its last heartbeat is checked. */
  lemma SilentNodeIsReported(g: Grid, evs: seq<Event>, ip: string)
    requires 0 < g.interval && Run(g, evs).checker.Due?
    requires
      var e := Run(g, evs).checker.epoch;
      PR.Beat(ip, e - 1) in Locked(g, evs) && forall k | PR.Beat(ip, k) in Locked(g, evs) :: k < e
    ensures (ip, Run(g, evs).checker.epoch) in Next(g, Run(g, evs), StepChecker).reports
  {
    ReportedInRun(g, evs, ip);
  }
}
