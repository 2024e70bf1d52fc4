/**
 The whole receive path: heartbeats and barrier messages enter four first-in first-out rings, a
 single thread takes messages from the heads of the rings in any order, and the barrier of epoch e
 is posted when the array of `BarrierCollector` says that all rings delivered it.

 The states carry what a reader of a run would write down beside it: the arrivals so far, how many
 of them there were when the sending of each epoch began, and the log of processed heartbeats.
 */
module BarrierFlush {
  import opened Common
  import opened BarrierCollector
  import HT = HeartbeatTable

  datatype Arrival = Arrival(ring: nat, app: int, node: string, at: int)

  /** A ring holds heartbeats, named by the index of their arrival, and barrier messages. */
  datatype Item = Beat(id: nat) | Barrier(epoch: int)

  datatype Processed = Processed(id: nat, time: int)

  datatype Net = Net(
    clock: nat,
    rings: seq<seq<Item>>,
    epoch: nat,                // the epoch whose barrier was begun last
    next: nat,                 // the next ring to send it to; RINGS when done
    arrivals: seq<Arrival>,
    marks: map<int, nat>,      // number of arrivals when the sending of an epoch began
    log: seq<Processed>,
    table: HT.Table,
    delivered: seq<Msg>,
    collector: Collector,
    posted: set<int>)

  datatype Event =
    | Tick(d: nat)
    | Arrive(ring: nat, app: int, node: string)
    | Begin
    | SendNext
    | Abort
    | Process(ring: nat)

  ghost function Start(): Net {
    Net(0, [[], [], [], []], 0, RINGS, [], map[], [], map[], [], Fresh(), {})
  }

  ghost predicate Sane(s: Net) {
    && |s.rings| == RINGS && Shaped(s.collector) && s.next <= RINGS
    && AllWellFormed(s.delivered)
    && (forall r | 0 <= r < RINGS :: SaneRing(s.rings[r], |s.arrivals|))
  }

  ghost predicate SaneRing(q: seq<Item>, n: nat) {
    forall p | 0 <= p < |q| ::
      match q[p]
      case Beat(id) => id < n
      case Barrier(e) => 0 < e
  }

  /** The first epoch of a block is begun only after the last epoch of the block before was posted. */
  ghost predicate MayBegin(s: Net) {
    s.next == RINGS && ((s.epoch + 1) % SLOTS == 0 ==> s.epoch in s.posted)
  }

  ghost function Push(s: Net, ring: nat, item: Item): seq<seq<Item>>
    requires ring < |s.rings|
  {
    s.rings[ring := s.rings[ring] + [item]]
  }

  /** What one event does; an event that is not possible does nothing. */
  ghost function Next(s: Net, ev: Event): (s': Net)
    requires Sane(s)
    ensures Sane(s')
  {
    match ev
    case Tick(d) => s.(clock := s.clock + d)
    case Arrive(ring, app, node) =>
      if ring >= RINGS then s
      else s.(arrivals := s.arrivals + [Arrival(ring, app, node, s.clock)],
              rings := Push(s, ring, Beat(|s.arrivals|)))
    case Begin =>
      if !MayBegin(s) then s
      else s.(epoch := s.epoch + 1, next := 0, marks := s.marks[s.epoch + 1 := |s.arrivals|])
    case SendNext =>
      if s.next == RINGS || s.epoch == 0 then s
      else s.(next := s.next + 1, rings := Push(s, s.next, Barrier(s.epoch)))
    case Abort => s.(next := RINGS)
    case Process(ring) =>
      if ring >= RINGS || s.rings[ring] == [] then s
      else
        var popped := s.(rings := s.rings[ring := s.rings[ring][1..]]);
        match s.rings[ring][0]
        case Beat(id) => ProcessBeat(popped, id)
        case Barrier(e) => ProcessBarrier(popped, Msg(e, ring))
  }

  ghost function ProcessBeat(s: Net, id: nat): Net
    requires id < |s.arrivals|
  {
    var a := s.arrivals[id];
    s.(log := s.log + [Processed(id, s.clock)],
       table := HT.Record(s.table, HT.Beat(a.app, a.node, s.clock)))
  }

  ghost function ProcessBarrier(s: Net, m: Msg): Net
    requires Shaped(s.collector) && WellFormed(m)
  {
    var o := Receive(s.collector, m);
    s.(collector := o.next, delivered := s.delivered + [m],
       posted := if o.completed then s.posted + {m.epoch} else s.posted)
  }

  ghost function Run(evs: seq<Event>): (s: Net)
    ensures Sane(s)
  {
    if evs == [] then Start() else Next(Run(evs[..|evs| - 1]), evs[|evs| - 1])
  }

  // ----- one ring -----

  /**
   A ring in which `sent` are the epochs whose barriers already left it, `n` the number of arrivals
   and `newest` the last epoch sent to it. Barriers are in increasing order, and whatever lies behind
   a barrier, in the ring or after the barrier left, arrived after the sending of its epoch began.
   */
  ghost predicate RingOk(q: seq<Item>, sent: set<int>, marks: map<int, nat>, n: nat, newest: int) {
    && SaneRing(q, n)
    && (forall p | 0 <= p < |q| && q[p].Barrier? :: q[p].epoch in marks && q[p].epoch <= newest)
    && (forall i, j | 0 <= i < j < |q| && q[i].Barrier? :: Behind(q[i].epoch, q[j], marks))
    && (forall e | e in sent :: e in marks && e <= newest)
    && (forall e, p | e in sent && 0 <= p < |q| :: Behind(e, q[p], marks))
  }

  ghost predicate Behind(e: int, item: Item, marks: map<int, nat>) {
    e in marks && match item case Beat(id) => marks[e] <= id case Barrier(e') => e < e'
  }

  lemma PushBeat(q: seq<Item>, sent: set<int>, marks: map<int, nat>, n: nat, newest: int)
    requires RingOk(q, sent, marks, n, newest) && forall e | e in marks :: marks[e] <= n
    ensures RingOk(q + [Beat(n)], sent, marks, n + 1, newest)
    ensures RingOk(q, sent, marks, n + 1, newest)
  {
  }

  lemma PushBarrier(q: seq<Item>, sent: set<int>, marks: map<int, nat>, n: nat, e: int)
    requires RingOk(q, sent, marks, n, e - 1) && 0 < e && e in marks
    ensures RingOk(q + [Barrier(e)], sent, marks, n, e)
  {
  }

  lemma NewMark(q: seq<Item>, sent: set<int>, marks: map<int, nat>, n: nat, newest: int, e: int)
    requires RingOk(q, sent, marks, n, newest) && newest < e
    ensures RingOk(q, sent, marks[e := n], n, e - 1)
  {
  }

  lemma PopItem(q: seq<Item>, sent: set<int>, marks: map<int, nat>, n: nat, newest: int)
    requires RingOk(q, sent, marks, n, newest) && q != []
    ensures RingOk(q[1..], if q[0].Barrier? then sent + {q[0].epoch} else sent, marks, n, newest)
  {
  }

  // ----- the invariant -----

  ghost predicate IsProcessed(log: seq<Processed>, id: nat) {
    exists k :: 0 <= k < |log| && log[k].id == id
  }

  ghost function Sent(delivered: seq<Msg>, ring: int): set<int> {
    set m | m in delivered && m.ring == ring :: m.epoch
  }

  ghost function Newest(s: Net, ring: int): int {
    if ring < s.next then s.epoch else s.epoch - 1
  }

  ghost predicate RingsOk(s: Net)
    requires Sane(s)
  {
    && (forall r | 0 <= r < RINGS :: RingOk(s.rings[r], Sent(s.delivered, r), s.marks, |s.arrivals|, Newest(s, r)))
    && (forall e | e in s.marks :: s.marks[e] <= |s.arrivals|)
    && (0 < s.epoch ==> s.epoch in s.marks)
  }

  ghost predicate Waiting(s: Net, id: nat)
    requires |s.rings| == RINGS && id < |s.arrivals|
  {
    s.arrivals[id].ring < RINGS && Beat(id) in s.rings[s.arrivals[id].ring]
  }

  ghost predicate NoneLost(s: Net)
    requires |s.rings| == RINGS
  {
    forall id | 0 <= id < |s.arrivals| :: IsProcessed(s.log, id) || Waiting(s, id)
  }

  /** The collector agrees with the set of delivered barriers, and posts are its completions. */
  ghost predicate Collected(s: Net)
    requires Sane(s)
  {
    && Respects(s.delivered, 0)
    && s.collector == Deliver(s.delivered)
    && (forall e :: e in s.posted <==> Complete(Seen(s.delivered), e))
    && (forall k | 0 <= k < Block(s.epoch) :: Complete(Seen(s.delivered), LastOf(k)))
  }

  ghost predicate Inv(s: Net) {
    Sane(s) && RingsOk(s) && NoneLost(s) && Collected(s)
  }

  // ----- every event keeps it -----

  lemma StillThere(s: Net, s': Net)
    requires |s.rings| == RINGS == |s'.rings| && NoneLost(s) && s.arrivals == s'.arrivals
    requires s.log <= s'.log
    requires forall r, id | 0 <= r < RINGS && Beat(id) in s.rings[r] :: Beat(id) in s'.rings[r] || IsProcessed(s'.log, id)
    ensures NoneLost(s')
  {
    forall id | 0 <= id < |s'.arrivals|
      ensures IsProcessed(s'.log, id) || Waiting(s', id)
    {
      if IsProcessed(s.log, id) {
        var k :| 0 <= k < |s.log| && s.log[k].id == id;
        assert s'.log[k].id == id;
      } else {
        assert Waiting(s, id);
      }
    }
  }

  lemma ArriveKeeps(s: Net, ring: nat, app: int, node: string)
    requires Inv(s)
    ensures Inv(Next(s, Arrive(ring, app, node)))
  {
    var s' := Next(s, Arrive(ring, app, node));
    if ring < RINGS {
      forall r | 0 <= r < RINGS
        ensures RingOk(s'.rings[r], Sent(s'.delivered, r), s'.marks, |s'.arrivals|, Newest(s', r))
      {
        PushBeat(s.rings[r], Sent(s.delivered, r), s.marks, |s.arrivals|, Newest(s, r));
      }
      ArrivedNoneLost(s, s', ring);
    }
  }

  lemma ArrivedNoneLost(s: Net, s': Net, ring: nat)
    requires |s.rings| == RINGS && NoneLost(s) && ring < RINGS && s'.log == s.log
    requires s'.rings == Push(s, ring, Beat(|s.arrivals|))
    requires |s'.arrivals| == |s.arrivals| + 1 && s'.arrivals[..|s.arrivals|] == s.arrivals
    requires s'.arrivals[|s.arrivals|].ring == ring
    ensures NoneLost(s')
  {
    forall id | 0 <= id < |s'.arrivals|
      ensures IsProcessed(s'.log, id) || Waiting(s', id)
    {
      if id < |s.arrivals| {
        assert s'.arrivals[id] == s.arrivals[id];
        assert IsProcessed(s.log, id) || Waiting(s, id);
      }
    }
  }

  lemma BeginKeeps(s: Net)
    requires Inv(s)
    ensures Inv(Next(s, Begin))
  {
    var s' := Next(s, Begin);
    if MayBegin(s) {
      forall r | 0 <= r < RINGS
        ensures RingOk(s'.rings[r], Sent(s'.delivered, r), s'.marks, |s'.arrivals|, Newest(s', r))
      {
        NewMark(s.rings[r], Sent(s.delivered, r), s.marks, |s.arrivals|, Newest(s, r), s.epoch + 1);
      }
      forall k | 0 <= k < Block(s'.epoch)
        ensures Complete(Seen(s.delivered), LastOf(k))
      {
        if k >= Block(s.epoch) {
          assert (s.epoch + 1) % SLOTS == 0 && LastOf(k) == s.epoch;
        }
      }
      StillThere(s, s');
    }
  }

  lemma SendKeeps(s: Net)
    requires Inv(s)
    ensures Inv(Next(s, SendNext))
  {
    var s' := Next(s, SendNext);
    if s.next != RINGS && s.epoch != 0 {
      forall r | 0 <= r < RINGS
        ensures RingOk(s'.rings[r], Sent(s'.delivered, r), s'.marks, |s'.arrivals|, Newest(s', r))
      {
        if r == s.next { PushBarrier(s.rings[r], Sent(s.delivered, r), s.marks, |s.arrivals|, s.epoch); }
      }
      StillThere(s, s');
    }
  }

  lemma QuietKeeps(s: Net, ev: Event)
    requires Inv(s) && (ev.Tick? || ev.Abort?)
    ensures Inv(Next(s, ev))
  {
    var s' := Next(s, ev);
    StillThere(s, s');
  }

  lemma PopKeeps(s: Net, s': Net, ring: nat)
    requires Inv(s) && Sane(s') && ring < RINGS && s.rings[ring] != []
    requires s'.rings == s.rings[ring := s.rings[ring][1..]]
    requires s'.epoch == s.epoch && s'.next == s.next && s'.marks == s.marks && s'.arrivals == s.arrivals
    requires match s.rings[ring][0]
             case Beat(id) => s'.delivered == s.delivered && s'.log == s.log + [Processed(id, s.clock)]
             case Barrier(e) => s'.delivered == s.delivered + [Msg(e, ring)] && s'.log == s.log
    ensures RingsOk(s') && NoneLost(s')
  {
    var q := s.rings[ring];
    forall r | 0 <= r < RINGS
      ensures RingOk(s'.rings[r], Sent(s'.delivered, r), s'.marks, |s'.arrivals|, Newest(s', r))
    {
      if r == ring {
        PopItem(q, Sent(s.delivered, r), s.marks, |s.arrivals|, Newest(s, r));
        assert q[0].Barrier? ==> Sent(s'.delivered, r) == Sent(s.delivered, r) + {q[0].epoch};
      } else {
        assert Sent(s'.delivered, r) == Sent(s.delivered, r);
      }
    }
    forall r, id | 0 <= r < RINGS && Beat(id) in s.rings[r]
      ensures Beat(id) in s'.rings[r] || IsProcessed(s'.log, id)
    {
      if r == ring {
        if q[0] == Beat(id) { assert s'.log[|s.log|].id == id; } else { PopKeepsOthers(q, Beat(id)); }
      }
    }
    StillThere(s, s');
  }

  lemma PopKeepsOthers(q: seq<Item>, item: Item)
    requires q != [] && item in q && item != q[0]
    ensures item in q[1..]
  {
    var p :| 0 <= p < |q| && q[p] == item;
    assert q[1..][p - 1] == item;
  }

  lemma SeenMore(ms: seq<Msg>, m: Msg)
    ensures Seen(ms + [m]) == Seen(ms) + {m}
  {
  }

  /** A barrier at the head of a ring is in turn: this is where the order of the rings matters. */
  lemma HeadIsInTurn(s: Net, ring: nat)
    requires Inv(s) && ring < RINGS && s.rings[ring] != [] && s.rings[ring][0].Barrier?
    ensures InTurn(Seen(s.delivered), Msg(s.rings[ring][0].epoch, ring), 0)
  {
    var e := s.rings[ring][0].epoch;
    var last := LastOf(Block(e));
    assert e <= last && Block(e) <= Block(s.epoch);
    assert last in Sent(s.delivered, ring) ==> Behind(last, s.rings[ring][0], s.marks);
    assert Complete(Seen(s.delivered), last) ==> Msg(last, ring) in s.delivered;
    assert Msg(last, ring) in s.delivered ==> last in Sent(s.delivered, ring);
  }

  lemma CollectOne(s: Net, s': Net, m: Msg)
    requires Inv(s) && Sane(s') && WellFormed(m) && InTurn(Seen(s.delivered), m, 0)
    requires s'.epoch == s.epoch && s'.delivered == s.delivered + [m]
    requires s'.collector == Receive(s.collector, m).next
    requires s'.posted == if Receive(s.collector, m).completed then s.posted + {m.epoch} else s.posted
    ensures Collected(s')
  {
    CompletesWhen(s.delivered, m, 0);
    SeenMore(s.delivered, m);
    assert s'.delivered[..|s'.delivered| - 1] == s.delivered;
    forall e ensures e in s'.posted <==> Complete(Seen(s'.delivered), e) {
      OneMoreCompletion(Seen(s.delivered), m, e);
    }
    forall k | 0 <= k < Block(s'.epoch) ensures Complete(Seen(s'.delivered), LastOf(k)) {
      assert Complete(Seen(s.delivered), LastOf(k));
    }
  }

  lemma ProcessKeeps(s: Net, ring: nat)
    requires Inv(s)
    ensures Inv(Next(s, Process(ring)))
  {
    var s' := Next(s, Process(ring));
    if ring < RINGS && s.rings[ring] != [] {
      PopKeeps(s, s', ring);
      if s.rings[ring][0].Barrier? {
        HeadIsInTurn(s, ring);
        CollectOne(s, s', Msg(s.rings[ring][0].epoch, ring));
      }
    }
  }

  lemma {:induction false} InvHolds(evs: seq<Event>)
    ensures Inv(Run(evs))
  {
    if evs == [] {
      forall e ensures !Complete(Seen([]), e) { assert Msg(e, 0) !in Seen([]); }
    } else {
      var s, ev := Run(evs[..|evs| - 1]), evs[|evs| - 1];
      InvHolds(evs[..|evs| - 1]);
      match ev
      case Tick(_) => QuietKeeps(s, ev);
      case Abort => QuietKeeps(s, ev);
      case Arrive(ring, app, node) => ArriveKeeps(s, ring, app, node);
      case Begin => BeginKeeps(s);
      case SendNext => SendKeeps(s);
      case Process(ring) => ProcessKeeps(s, ring);
    }
  }

  // ----- flush safety -----

  lemma WaitingIsLate(s: Net, e: int, id: nat)
    requires Inv(s) && e in s.posted && id < |s.arrivals| && Waiting(s, id)
    ensures e in s.marks && s.marks[e] <= id
  {
    var r := s.arrivals[id].ring;
    assert Complete(Seen(s.delivered), e);
    assert Msg(e, r) in s.delivered;
    assert e in Sent(s.delivered, r);
    var p :| 0 <= p < |s.rings[r]| && s.rings[r][p] == Beat(id);
    assert Behind(e, s.rings[r][p], s.marks);
  }

  /**
   Over every run: once the barrier of epoch `e` has been posted, every heartbeat that entered any
   ring before the sending of `e` began has been processed.
   */
  lemma FlushSafety(evs: seq<Event>, e: int)
    requires e in Run(evs).posted
    ensures e in Run(evs).marks && Run(evs).marks[e] <= |Run(evs).arrivals|
    ensures forall id | 0 <= id < Run(evs).marks[e] :: IsProcessed(Run(evs).log, id)
  {
    InvHolds(evs);
    var s := Run(evs);
    assert Complete(Seen(s.delivered), e);
    assert Msg(e, 0) in s.delivered && e in Sent(s.delivered, 0);
    forall id | 0 <= id < s.marks[e] ensures IsProcessed(s.log, id) {
      if Waiting(s, id) { WaitingIsLate(s, e, id); }
    }
  }

  /** Over every run the collector posts each epoch once, when the last of the four rings delivers it. */
  lemma PostedExactly(evs: seq<Event>, e: int)
    ensures e in Run(evs).posted <==> Complete(Seen(Run(evs).delivered), e)
    ensures Run(evs).collector.posts == |CompletedEpochs(Seen(Run(evs).delivered))|
  {
    InvHolds(evs);
    ArrayRefinesSet(Run(evs).delivered, 0);
  }

  // ----- what a send does -----

  lemma {:induction false} RunAppend(evs: seq<Event>, more: seq<Event>)
    ensures Run(evs + more) == Continue(Run(evs), more)
  {
    if more == [] {
      assert evs + more == evs;
    } else {
      assert (evs + more)[..|evs + more| - 1] == evs + more[..|more| - 1];
      RunAppend(evs, more[..|more| - 1]);
    }
  }

  /** What further events do to a state. */
  ghost function Continue(s: Net, more: seq<Event>): (s': Net)
    requires Sane(s)
    ensures Sane(s')
  {
    if more == [] then s else Next(Continue(s, more[..|more| - 1]), more[|more| - 1])
  }

  const SENDING := [Begin, SendNext, SendNext, SendNext, SendNext]

  /**
   Sending a barrier: when the last epoch was sent out, and posted if it was the last of its block, the next epoch
   is put at the end of each of the four rings, behind all heartbeats that arrived so far, and nothing else changes.
   */
  lemma SendReachesAllRings(s: Net)
    requires Sane(s) && s.next == RINGS && ((s.epoch + 1) % SLOTS == 0 ==> s.epoch in s.posted)
    ensures
      var s', e := Continue(s, SENDING), s.epoch + 1;
      && s' == s.(epoch := e, marks := s.marks[e := |s.arrivals|], rings := s'.rings)
      && |s'.rings| == RINGS && forall r | 0 <= r < RINGS :: s'.rings[r] == s.rings[r] + [Barrier(e)]
  {
    SendReachesSome(s, 4);
    assert SENDING[..5] == SENDING;
  }

  /** The first k rings got the barrier of e. */
  ghost predicate Reached(rings: seq<seq<Item>>, rings': seq<seq<Item>>, e: int, k: nat) {
    && |rings| == |rings'| == RINGS
    && forall r | 0 <= r < RINGS :: rings'[r] == if r < k then rings[r] + [Barrier(e)] else rings[r]
  }

  lemma BeginOne(s: Net)
    requires Sane(s) && s.next == RINGS && ((s.epoch + 1) % SLOTS == 0 ==> s.epoch in s.posted)
    ensures Next(s, Begin) == s.(epoch := s.epoch + 1, next := 0, marks := s.marks[s.epoch + 1 := |s.arrivals|])
  {
  }

  lemma SendOne(s: Net)
    requires Sane(s) && s.next < RINGS && 0 < s.epoch
    ensures Next(s, SendNext) == s.(next := s.next + 1, rings := s.rings[s.next := s.rings[s.next] + [Barrier(s.epoch)]])
  {
  }

  lemma ReachOne(rings: seq<seq<Item>>, mid: seq<seq<Item>>, e: int, k: nat)
    requires Reached(rings, mid, e, k) && k < RINGS
    ensures Reached(rings, mid[k := mid[k] + [Barrier(e)]], e, k + 1)
  {
  }

  /** After the first k sends. */
  lemma {:induction false} SendReachesSome(s: Net, k: nat)
    requires Sane(s) && s.next == RINGS && ((s.epoch + 1) % SLOTS == 0 ==> s.epoch in s.posted) && k <= RINGS
    ensures
      var s', e := Continue(s, SENDING[..k + 1]), s.epoch + 1;
      && s' == s.(epoch := e, next := k, marks := s.marks[e := |s.arrivals|], rings := s'.rings)
      && Reached(s.rings, s'.rings, e, k)
  {
    if k == 0 {
      assert SENDING[..1] == [] + [Begin];
      ContinueMore(s, [], Begin);
      BeginOne(s);
    } else {
      SendReachesSome(s, k - 1);
      assert SENDING[..k + 1] == SENDING[..k] + [SendNext];
      ContinueMore(s, SENDING[..k], SendNext);
      var t := Continue(s, SENDING[..k]);
      SendOne(t);
      ReachOne(s.rings, t.rings, s.epoch + 1, k - 1);
    }
  }

  /** A send that fails leaves the remaining rings without the barrier, and the next epoch can be sent. */
  lemma FailedSendGoesOn(s: Net)
    requires Sane(s) && ((s.epoch + 1) % SLOTS == 0 ==> s.epoch in s.posted)
    ensures Next(s, Abort) == s.(next := RINGS) && MayBegin(Next(s, Abort))
  {
  }

  lemma ContinueMore(s: Net, more: seq<Event>, ev: Event)
    requires Sane(s)
    ensures Continue(s, more + [ev]) == Next(Continue(s, more), ev)
  {
    assert (more + [ev])[..|more|] == more;
  }

  // ----- flush progress -----

  /** The barrier of e is in the ring or has been delivered from it. */
  ghost predicate OnItsWay(s: Net, e: int, r: int)
    requires |s.rings| == RINGS && 0 <= r < RINGS
  {
    Barrier(e) in s.rings[r] || Msg(e, r) in s.delivered
  }

  /** The barrier of e was sent to all rings when there were `n` arrivals. */
  ghost predicate SentOut(s: Net, e: int, n: nat)
    requires |s.rings| == RINGS
  {
    e <= s.epoch && e in s.marks && s.marks[e] == n && forall r | 0 <= r < RINGS :: OnItsWay(s, e, r)
  }

  lemma InRingOrPopped(q: seq<Item>, item: Item)
    requires q != [] && item in q
    ensures item == q[0] || item in q[1..]
  {
    if item != q[0] { PopKeepsOthers(q, item); }
  }

  lemma StaysOnItsWay(s: Net, ev: Event, e: int, r: int)
    requires Sane(s) && 0 <= r < RINGS && OnItsWay(s, e, r)
    ensures OnItsWay(Next(s, ev), e, r)
  {
    if ev.Process? && ev.ring == r && s.rings[r] != [] && Msg(e, r) !in s.delivered {
      InRingOrPopped(s.rings[r], Barrier(e));
    }
  }

  lemma {:induction false} StaysSentOut(s: Net, more: seq<Event>, e: int, n: nat)
    requires Sane(s) && SentOut(s, e, n)
    ensures SentOut(Continue(s, more), e, n)
  {
    if more != [] {
      var t, ev := Continue(s, more[..|more| - 1]), more[|more| - 1];
      StaysSentOut(s, more[..|more| - 1], e, n);
      forall r | 0 <= r < RINGS ensures OnItsWay(Next(t, ev), e, r) { StaysOnItsWay(t, ev, e, r); }
    }
  }

  lemma SendingSendsOut(s: Net)
    requires Sane(s) && s.next == RINGS && ((s.epoch + 1) % SLOTS == 0 ==> s.epoch in s.posted)
    ensures SentOut(Continue(s, SENDING), s.epoch + 1, |s.arrivals|)
  {
    SendReachesAllRings(s);
    var s', e := Continue(s, SENDING), s.epoch + 1;
    forall r | 0 <= r < RINGS ensures OnItsWay(s', e, r) {
      assert s'.rings[r][|s.rings[r]|] == Barrier(e);
    }
  }

  lemma LeftIsDelivered(s: Net, e: int, n: nat)
    requires |s.rings| == RINGS && SentOut(s, e, n) && forall r | 0 <= r < RINGS :: Barrier(e) !in s.rings[r]
    ensures Complete(Seen(s.delivered), e)
  {
    forall r | 0 <= r < RINGS ensures Msg(e, r) in Seen(s.delivered) { assert OnItsWay(s, e, r); }
  }

  /**
   Over every run: an epoch that was sent out after `evs` is posted as soon as its barrier has left all four rings,
   whatever else happened in between, and then every heartbeat that had arrived before has been processed.
   */
  lemma SentIsPosted(evs: seq<Event>, more: seq<Event>)
    requires
      var s := Run(evs);
      s.next == RINGS && ((s.epoch + 1) % SLOTS == 0 ==> s.epoch in s.posted)
    requires forall r | 0 <= r < RINGS :: Barrier(Run(evs).epoch + 1) !in Run(evs + SENDING + more).rings[r]
    ensures Run(evs).epoch + 1 in Run(evs + SENDING + more).posted
    ensures forall id | 0 <= id < |Run(evs).arrivals| :: IsProcessed(Run(evs + SENDING + more).log, id)
  {
    var e, all := Run(evs).epoch + 1, evs + SENDING + more;
    SentOutAlong(evs, more);
    LeftIsDelivered(Run(all), e, |Run(evs).arrivals|);
    PostedExactly(all, e);
    FlushSafety(all, e);
  }

  lemma SentOutAlong(evs: seq<Event>, more: seq<Event>)
    requires
      var s := Run(evs);
      s.next == RINGS && ((s.epoch + 1) % SLOTS == 0 ==> s.epoch in s.posted)
    ensures SentOut(Run(evs + SENDING + more), Run(evs).epoch + 1, |Run(evs).arrivals|)
  {
    var s := Run(evs);
    RunAppend(evs, SENDING);
    RunAppend(evs + SENDING, more);
    SendingSendsOut(s);
    StaysSentOut(Continue(s, SENDING), more, s.epoch + 1, |s.arrivals|);
  }

  function Drain(ring: nat, n: nat): seq<Event> {
    if n == 0 then [] else Drain(ring, n - 1) + [Process(ring)]
  }

  /** Processing a ring n times takes n items from its head and leaves the other rings alone. */
  lemma {:induction false} DrainTakes(s: Net, ring: nat, n: nat)
    requires Sane(s) && ring < RINGS && n <= |s.rings[ring]|
    ensures Continue(s, Drain(ring, n)).rings == s.rings[ring := s.rings[ring][n..]]
  {
    if n > 0 {
      DrainTakes(s, ring, n - 1);
      ContinueMore(s, Drain(ring, n - 1), Process(ring));
      var t := Continue(s, Drain(ring, n - 1));
      PopOne(t, ring);
      PopSlice(s.rings, ring, n);
    } else {
      assert s.rings[ring][0..] == s.rings[ring];
    }
  }

  lemma PopSlice(rings: seq<seq<Item>>, ring: nat, n: nat)
    requires ring < |rings| && 0 < n <= |rings[ring]|
    ensures
      var mid := rings[ring := rings[ring][n - 1..]];
      mid[ring] != [] && mid[ring := mid[ring][1..]] == rings[ring := rings[ring][n..]]
  {
    assert rings[ring][n - 1..][1..] == rings[ring][n..];
  }

  lemma PopOne(s: Net, ring: nat)
    requires Sane(s) && ring < RINGS && s.rings[ring] != []
    ensures Next(s, Process(ring)).rings == s.rings[ring := s.rings[ring][1..]]
  {
  }

  /** All that is in the rings is taken from them, ring by ring. */
  ghost function DrainAll(s: Net, k: nat): seq<Event>
    requires |s.rings| == RINGS && k <= RINGS
  {
    if k == 0 then [] else DrainAll(s, k - 1) + Drain(k - 1, |s.rings[k - 1]|)
  }

  lemma {:induction false} ContinueAppend(s: Net, a: seq<Event>, b: seq<Event>)
    requires Sane(s)
    ensures Continue(s, a + b) == Continue(Continue(s, a), b)
  {
    if b == [] {
      assert a + b == a;
    } else {
      assert (a + b)[..|a + b| - 1] == a + b[..|b| - 1];
      ContinueAppend(s, a, b[..|b| - 1]);
    }
  }

  /** The first k rings are empty, the others as they were. */
  ghost predicate Emptied(rings: seq<seq<Item>>, rings': seq<seq<Item>>, k: nat) {
    |rings| == |rings'| == RINGS && forall r | 0 <= r < RINGS :: rings'[r] == if r < k then [] else rings[r]
  }

  lemma EmptyOne(rings: seq<seq<Item>>, mid: seq<seq<Item>>, k: nat)
    requires Emptied(rings, mid, k) && k < RINGS
    ensures mid[k] == rings[k] && Emptied(rings, mid[k := mid[k][|rings[k]|..]], k + 1)
  {
    assert rings[k][|rings[k]|..] == [];
  }

  lemma {:induction false} DrainAllEmpties(s: Net, k: nat)
    requires Sane(s) && k <= RINGS
    ensures Emptied(s.rings, Continue(s, DrainAll(s, k)).rings, k)
  {
    if k > 0 {
      DrainAllEmpties(s, k - 1);
      var t, n := Continue(s, DrainAll(s, k - 1)), |s.rings[k - 1]|;
      ContinueAppend(s, DrainAll(s, k - 1), Drain(k - 1, n));
      EmptyOne(s.rings, t.rings, k - 1);
      DrainTakes(t, k - 1, n);
    }
  }

  /** From every reachable state that may send, sending a barrier and processing what is in the rings posts it. */
  lemma FlushSucceeds(evs: seq<Event>)
    requires
      var s := Run(evs);
      s.next == RINGS && ((s.epoch + 1) % SLOTS == 0 ==> s.epoch in s.posted)
    ensures Run(evs).epoch + 1 in Run(evs + SENDING + DrainAll(Run(evs + SENDING), RINGS)).posted
  {
    var s := Run(evs + SENDING);
    RunAppend(evs + SENDING, DrainAll(s, RINGS));
    DrainAllEmpties(s, RINGS);
    SentIsPosted(evs, DrainAll(s, RINGS));
  }

  // ----- what an answer of safetimer_check means -----

  /** An arrival is noted with its time and put at the end of its ring; the rest stays as it is. */
  lemma ArrivalIsNoted(s: Net, ring: nat, app: int, node: string, d: nat)
    requires Sane(s) && ring < RINGS
    ensures
      var s' := Next(Next(s, Tick(d)), Arrive(ring, app, node));
      && s' == s.(clock := s.clock + d, arrivals := s'.arrivals, rings := s'.rings)
      && s'.arrivals == s.arrivals + [Arrival(ring, app, node, s.clock + d)]
      && s'.rings == s.rings[ring := s.rings[ring] + [Beat(|s.arrivals|)]]
  {
  }

  ghost function Beats(arrivals: seq<Arrival>, log: seq<Processed>): (bs: seq<HT.Beat>)
    requires forall p | p in log :: p.id < |arrivals|
    ensures |bs| == |log|
    ensures forall k | 0 <= k < |log| ::
              bs[k] == HT.Beat(arrivals[log[k].id].app, arrivals[log[k].id].node, log[k].time)
  {
    if log == [] then []
    else
      assert log[|log| - 1] in log;
      var a := arrivals[log[|log| - 1].id];
      Beats(arrivals, log[..|log| - 1]) + [HT.Beat(a.app, a.node, log[|log| - 1].time)]
  }

  /** Processing times lie between the arrival and now, and never go back. */
  ghost predicate Ordered(arrivals: seq<Arrival>, log: seq<Processed>, clock: int) {
    && (forall p | p in log :: p.id < |arrivals|)
    && (forall k | 0 <= k < |log| :: arrivals[log[k].id].at <= log[k].time <= clock)
    && (forall j, k | 0 <= j < k < |log| :: log[j].time <= log[k].time)
    && (forall a | a in arrivals :: a.at <= clock)
  }

  ghost predicate Logged(s: Net) {
    Ordered(s.arrivals, s.log, s.clock) && s.table == HT.TableOf(Beats(s.arrivals, s.log))
  }

  lemma BeatsStable(arrivals: seq<Arrival>, more: seq<Arrival>, log: seq<Processed>)
    requires forall p | p in log :: p.id < |arrivals|
    ensures Beats(arrivals, log) == Beats(arrivals + more, log)
  {
  }

  lemma BeatsMore(arrivals: seq<Arrival>, log: seq<Processed>, p: Processed)
    requires forall q | q in log + [p] :: q.id < |arrivals|
    ensures forall q | q in log :: q.id < |arrivals|
    ensures Beats(arrivals, log + [p]) ==
            Beats(arrivals, log) + [HT.Beat(arrivals[p.id].app, arrivals[p.id].node, p.time)]
  {
    assert forall q | q in log :: q in log + [p];
    assert p in log + [p] && (log + [p])[..|log|] == log;
  }

  lemma OrderedLater(arrivals: seq<Arrival>, log: seq<Processed>, clock: int, clock': int)
    requires Ordered(arrivals, log, clock) && clock <= clock'
    ensures Ordered(arrivals, log, clock')
  {
    forall a | a in arrivals ensures a.at <= clock' { assert a.at <= clock; }
  }

  lemma OrderedArrival(arrivals: seq<Arrival>, log: seq<Processed>, clock: int, a: Arrival)
    requires Ordered(arrivals, log, clock) && a.at <= clock
    ensures Ordered(arrivals + [a], log, clock)
  {
    forall k | 0 <= k < |log| ensures (arrivals + [a])[log[k].id].at <= log[k].time {
      assert log[k] in log;
    }
  }

  lemma OrderedBeat(arrivals: seq<Arrival>, log: seq<Processed>, clock: int, id: nat)
    requires Ordered(arrivals, log, clock) && id < |arrivals|
    ensures Ordered(arrivals, log + [Processed(id, clock)], clock)
  {
    assert arrivals[id] in arrivals;
  }

  lemma LogArrival(s: Net, s': Net, a: Arrival)
    requires Logged(s) && a.at <= s.clock == s'.clock
    requires s'.log == s.log && s'.arrivals == s.arrivals + [a] && s'.table == s.table
    ensures Logged(s')
  {
    OrderedArrival(s.arrivals, s.log, s.clock, a);
    BeatsStable(s.arrivals, [a], s.log);
  }

  lemma LoggedKeeps(s: Net, ev: Event)
    requires Sane(s) && Logged(s)
    ensures Logged(Next(s, ev))
  {
    var s' := Next(s, ev);
    match ev
    case Tick(_) => OrderedLater(s.arrivals, s.log, s.clock, s'.clock);
    case Arrive(ring, app, node) =>
      if ring < RINGS { LogArrival(s, s', Arrival(ring, app, node, s.clock)); }
    case Process(ring) =>
      if ring < RINGS && s.rings[ring] != [] && s.rings[ring][0].Beat? {
        LogBeat(s, s', s.rings[ring][0].id);
      }
    case _ =>
  }

  lemma {:induction false} LoggedHolds(evs: seq<Event>)
    ensures Logged(Run(evs))
  {
    if evs != [] {
      LoggedHolds(evs[..|evs| - 1]);
      LoggedKeeps(Run(evs[..|evs| - 1]), evs[|evs| - 1]);
    }
  }

  lemma LogBeat(s: Net, s': Net, id: nat)
    requires Logged(s) && id < |s.arrivals|
    requires s'.arrivals == s.arrivals && s'.clock == s.clock && s'.log == s.log + [Processed(id, s.clock)]
    requires s'.table == HT.Record(s.table, HT.Beat(s.arrivals[id].app, s.arrivals[id].node, s.clock))
    ensures Logged(s')
  {
    OrderedBeat(s.arrivals, s.log, s.clock, id);
    BeatsMore(s.arrivals, s.log, Processed(id, s.clock));
    TableMore(Beats(s.arrivals, s.log), HT.Beat(s.arrivals[id].app, s.arrivals[id].node, s.clock));
  }

  lemma TableMore(bs: seq<HT.Beat>, b: HT.Beat)
    ensures HT.TableOf(bs + [b]) == HT.Record(HT.TableOf(bs), b)
  {
    assert (bs + [b])[..|bs|] == bs;
  }

  /** The only heartbeat of a node processed so far; being the first, it leaves no time in the table. */
  ghost predicate IsOnly(s: Net, app: int, node: string, id: nat)
    requires Logged(s)
  {
    exists k :: 0 <= k < |s.log| && s.log[k].id == id && OnlyAt(s, app, node, k)
  }

  ghost predicate OnlyAt(s: Net, app: int, node: string, k: nat)
    requires Logged(s)
  {
    forall j | 0 <= j < |s.log| && s.arrivals[s.log[j].id].app == app && s.arrivals[s.log[j].id].node == node :: j == k
  }

  lemma {:induction false} TimesCover(log: seq<HT.Beat>, app: int, node: string, k: nat)
    requires k < |log| && log[k].app == app && log[k].node == node
    requires forall i, j | 0 <= i < j < |log| :: log[i].time <= log[j].time
    ensures HT.Times(log, app, node) != []
    ensures log[k].time <= HT.Times(log, app, node)[|HT.Times(log, app, node)| - 1]
    ensures |HT.Times(log, app, node)| == 1 ==>
              forall j | 0 <= j < |log| && log[j].app == app && log[j].node == node :: j == k
  {
    var init, b := log[..|log| - 1], log[|log| - 1];
    if k < |init| {
      TimesCover(init, app, node, k);
    } else {
      forall j | 0 <= j < |init| && init[j].app == app && init[j].node == node
        ensures HT.Times(init, app, node) != []
      {
        TimesCover(init, app, node, j);
      }
    }
  }

  ghost predicate SoleBeat(log: seq<HT.Beat>, app: int, node: string, k: nat) {
    forall j | 0 <= j < |log| && log[j].app == app && log[j].node == node :: j == k
  }

  /** An answer 1 leaves room for one heartbeat of the node at `start` or later, its only one. */
  lemma AnswerAllowsOnlyOne(log: seq<HT.Beat>, app: int, node: string, start: int, k: nat)
    requires forall i, j | 0 <= i < j < |log| :: log[i].time <= log[j].time
    requires HT.Check(HT.TableOf(log), app, node, start) == 1
    requires k < |log| && log[k].app == app && log[k].node == node && start <= log[k].time
    ensures SoleBeat(log, app, node, k)
  {
    TimesCover(log, app, node, k);
    HT.CheckExactly(log, app, node, start);
  }

  lemma BeatsOrdered(arrivals: seq<Arrival>, log: seq<Processed>, clock: int)
    requires Ordered(arrivals, log, clock)
    ensures var bs := Beats(arrivals, log); forall i, j | 0 <= i < j < |bs| :: bs[i].time <= bs[j].time
  {
    var bs := Beats(arrivals, log);
    forall i, j | 0 <= i < j < |bs| ensures bs[i].time <= bs[j].time {
      assert log[i].time <= log[j].time;
    }
  }

  lemma AnswerCoversProcessed(s: Net, app: int, node: string, start: int, id: nat)
    requires Logged(s) && HT.Check(s.table, app, node, start) == 1
    requires id < |s.arrivals| && IsProcessed(s.log, id)
    requires s.arrivals[id].app == app && s.arrivals[id].node == node && start <= s.arrivals[id].at
    ensures IsOnly(s, app, node, id)
  {
    var bs := Beats(s.arrivals, s.log);
    var k :| 0 <= k < |s.log| && s.log[k].id == id;
    BeatsOrdered(s.arrivals, s.log, s.clock);
    AnswerAllowsOnlyOne(bs, app, node, start, k);
    OnlyInLog(s, bs, app, node, k);
  }

  lemma OnlyInLog(s: Net, bs: seq<HT.Beat>, app: int, node: string, k: nat)
    requires Logged(s) && bs == Beats(s.arrivals, s.log) && SoleBeat(bs, app, node, k)
    ensures OnlyAt(s, app, node, k)
  {
    forall j | 0 <= j < |s.log| && s.arrivals[s.log[j].id].app == app && s.arrivals[s.log[j].id].node == node
      ensures j == k
    {
      assert bs[j] == HT.Beat(app, node, s.log[j].time);
    }
  }

  /**
   The point of the barrier: if `safetimer_check` answers 1 after epoch `e` was posted, then no
   heartbeat of that application and node entered a ring between `start` and the moment the sending
   of `e` began, except possibly one that is the only heartbeat of that node processed at all.
   */
  lemma FailureAnswerIsSafe(evs: seq<Event>, e: int, app: int, node: string, start: int)
    requires e in Run(evs).posted
    requires HT.Check(Run(evs).table, app, node, start) == 1
    ensures e in Run(evs).marks && Run(evs).marks[e] <= |Run(evs).arrivals| && Logged(Run(evs))
    ensures forall id | 0 <= id < Run(evs).marks[e] ::
              var a := Run(evs).arrivals[id];
              a.app == app && a.node == node && start <= a.at ==> IsOnly(Run(evs), app, node, id)
  {
    var s := Run(evs);
    FlushSafety(evs, e);
    LoggedHolds(evs);
    forall id | 0 <= id < s.marks[e] && s.arrivals[id].app == app && s.arrivals[id].node == node && start <= s.arrivals[id].at
      ensures IsOnly(s, app, node, id)
    {
      AnswerCoversProcessed(s, app, node, start, id);
    }
  }

  /** The k-th processed heartbeat is one of the node. */
  ghost predicate IsOf(s: Net, app: int, node: string, k: nat)
    requires Logged(s) && k < |s.log|
  {
    s.arrivals[s.log[k].id].app == app && s.arrivals[s.log[k].id].node == node
  }

  lemma TwoExcludeOnly(s: Net, app: int, node: string, j: nat, k: nat, id: nat)
    requires Logged(s) && j < k < |s.log| && IsOf(s, app, node, j) && IsOf(s, app, node, k)
    ensures !IsOnly(s, app, node, id)
  {
  }

  /** Two processed heartbeats of the node remove the exception: then none entered a ring in that time. */
  lemma FailureAnswerIsSafeForKnown(evs: seq<Event>, e: int, app: int, node: string, start: int, j: nat, k: nat, id: nat)
    requires e in Run(evs).posted && HT.Check(Run(evs).table, app, node, start) == 1
    requires Logged(Run(evs)) && j < k < |Run(evs).log| && IsOf(Run(evs), app, node, j) && IsOf(Run(evs), app, node, k)
    ensures e in Run(evs).marks && Run(evs).marks[e] <= |Run(evs).arrivals|
    ensures id < Run(evs).marks[e] ==>
              var a := Run(evs).arrivals[id]; !(a.app == app && a.node == node && start <= a.at)
  {
    FailureAnswerIsSafe(evs, e, app, node, start);
    TwoExcludeOnly(Run(evs), app, node, j, k, id);
  }

  /**
   The exception is real: whenever an unknown node's first heartbeat enters an empty ring and is processed at
   once, a check with that very time as `start` still answers that the node failed.
   */
  lemma FirstHeartbeatIsForgotten(s: Net, ring: nat, app: int, node: string)
    requires Sane(s) && ring < RINGS && s.rings[ring] == [] && 0 < s.clock
    requires HT.Lookup(s.table, app, node).None?
    ensures
      var s' := Next(Next(s, Arrive(ring, app, node)), Process(ring));
      && s'.arrivals == s.arrivals + [Arrival(ring, app, node, s.clock)]
      && s'.log == s.log + [Processed(|s.arrivals|, s.clock)]
      && HT.Check(s'.table, app, node, s.clock) == 1
  {
    var s1 := Next(s, Arrive(ring, app, node));
    assert s1.rings[ring] == [Beat(|s.arrivals|)];
    var s' := Next(s1, Process(ring));
    assert s'.table == HT.Record(s.table, HT.Beat(app, node, s.clock));
  }
}
