/**
 The sharded operation queue, one shard and one priority class. Worker threads move an item from
 the priority queue to a per-PG list in a first locked region, wait for the PG lock, and take the head of
 the list in a second locked region. `_enqueue_front` swaps its item through that list.

 The priority queue keeps the items of one PG in order; which PG it serves next is left open.
 */
module OpQueue {
  import opened Common

  type Pg = int
  type Op = int

  type Queues = map<Pg, seq<Op>>

  datatype Shard = Shard(pqueue: Queues, processing: Queues)

  function At(q: Queues, pg: Pg): seq<Op> {
    if pg in q then q[pg] else []
  }

  /** The one deque per PG that the two queues together stand for. */
  function Deque(d: Shard, pg: Pg): seq<Op> {
    At(d.processing, pg) + At(d.pqueue, pg)
  }

  function Enqueued(d: Shard, pg: Pg, op: Op): Shard {
    d.(pqueue := d.pqueue[pg := At(d.pqueue, pg) + [op]])
  }

  function EnqueuedFront(d: Shard, pg: Pg, op: Op): Shard {
    if pg !in d.processing then d.(pqueue := d.pqueue[pg := [op] + At(d.pqueue, pg)])
    else
      var list := [op] + d.processing[pg];
      Shard(d.pqueue[pg := [list[|list| - 1]] + At(d.pqueue, pg)],
            d.processing[pg := list[..|list| - 1]])
  }

  /** First locked region: the PG's next item joins the list of items in processing. */
  function Dequeued(d: Shard, pg: Pg): Shard
    requires At(d.pqueue, pg) != []
  {
    Shard(d.pqueue[pg := d.pqueue[pg][1..]], d.processing[pg := At(d.processing, pg) + [d.pqueue[pg][0]]])
  }

  /** Second locked region: the head of the list leaves it. */
  function Taken(d: Shard, pg: Pg): Shard
    requires At(d.processing, pg) != []
  {
    if |d.processing[pg]| == 1 then d.(processing := d.processing - {pg})
    else d.(processing := d.processing[pg := d.processing[pg][1..]])
  }

  // ----- worker threads -----

  datatype Phase = Idle | Parked(pg: Pg) | Holding(pg: Pg) | Running(pg: Pg, op: Op)

  /** What a PG sees of a run. */
  datatype Action = Put(pg: Pg, op: Op) | PutFront(pg: Pg, op: Op) | Ran(pg: Pg, op: Op)

  datatype Sys = Sys(
    shard: Shard,
    threads: map<int, Phase>,
    trace: seq<Action>,
    finished: seq<(Pg, Op)>,
    failed: bool)      // a thread found the list of its PG gone or empty

  datatype Event =
    | Enqueue(pg: Pg, op: Op)
    | EnqueueFront(pg: Pg, op: Op)
    | Dequeue(t: int, pg: Pg)
    | LockPg(t: int)
    | Take(t: int)
    | Finish(t: int)

  function PhaseOf(s: Sys, t: int): Phase {
    if t in s.threads then s.threads[t] else Idle
  }

  predicate Locks(p: Phase, pg: Pg) {
    (p.Holding? || p.Running?) && p.pg == pg
  }

  predicate Awaits(p: Phase, pg: Pg) {
    (p.Parked? || p.Holding?) && p.pg == pg
  }

  ghost predicate Free(s: Sys, pg: Pg) {
    forall t | t in s.threads :: !Locks(s.threads[t], pg)
  }

  ghost function Next(s: Sys, ev: Event): Sys {
    match ev
    case Enqueue(pg, op) => s.(shard := Enqueued(s.shard, pg, op), trace := s.trace + [Put(pg, op)])
    case EnqueueFront(pg, op) => s.(shard := EnqueuedFront(s.shard, pg, op), trace := s.trace + [PutFront(pg, op)])
    case Dequeue(t, pg) =>
      if PhaseOf(s, t).Idle? && At(s.shard.pqueue, pg) != []
      then s.(shard := Dequeued(s.shard, pg), threads := s.threads[t := Parked(pg)]) else s
    case LockPg(t) =>
      var p := PhaseOf(s, t);
      if p.Parked? && Free(s, p.pg) then s.(threads := s.threads[t := Holding(p.pg)]) else s
    case Take(t) =>
      var p := PhaseOf(s, t);
      if !p.Holding? then s
      else if At(s.shard.processing, p.pg) == [] then s.(threads := s.threads[t := Idle], failed := true)
      else
        var op := s.shard.processing[p.pg][0];
        s.(shard := Taken(s.shard, p.pg), threads := s.threads[t := Running(p.pg, op)], trace := s.trace + [Ran(p.pg, op)])
    case Finish(t) =>
      var p := PhaseOf(s, t);
      if p.Running? then s.(threads := s.threads[t := Idle], finished := s.finished + [(p.pg, p.op)]) else s
  }

  ghost function Run(evs: seq<Event>): Sys {
    if evs == [] then Sys(Shard(map[], map[]), map[], [], [], false)
    else Next(Run(evs[..|evs| - 1]), evs[|evs| - 1])
  }

  // ----- a single deque as the reference -----

  /** Replays a trace on one plain deque: puts append or prepend, and what runs must be the head. */
  function Replay(trace: seq<Action>, pg: Pg): Option<seq<Op>> {
    if trace == [] then Some([])
    else
      var a := trace[|trace| - 1];
      match Replay(trace[..|trace| - 1], pg)
      case None => None
      case Some(q) =>
        if a.pg != pg then Some(q)
        else match a
          case Put(_, op) => Some(q + [op])
          case PutFront(_, op) => Some([op] + q)
          case Ran(_, op) => if q != [] && q[0] == op then Some(q[1..]) else None
  }

  function Puts(trace: seq<Action>, pg: Pg): seq<Op> {
    if trace == [] then []
    else
      var a := trace[|trace| - 1];
      Puts(trace[..|trace| - 1], pg) + if a.Put? && a.pg == pg then [a.op] else []
  }

  function Rans(trace: seq<Action>, pg: Pg): seq<Op> {
    if trace == [] then []
    else
      var a := trace[|trace| - 1];
      Rans(trace[..|trace| - 1], pg) + if a.Ran? && a.pg == pg then [a.op] else []
  }

  function FinishedOf(finished: seq<(Pg, Op)>, pg: Pg): seq<Op> {
    if finished == [] then []
    else
      var f := finished[|finished| - 1];
      FinishedOf(finished[..|finished| - 1], pg) + if f.0 == pg then [f.1] else []
  }

  // ----- the invariant -----

  ghost function Waiting(threads: map<int, Phase>, pg: Pg): set<int> {
    set t | t in threads && Awaits(threads[t], pg)
  }

  ghost predicate Inv(s: Sys) {
    && !s.failed
    && (forall pg | pg in s.shard.processing :: s.shard.processing[pg] != [])
    && (forall pg :: |Waiting(s.threads, pg)| == |At(s.shard.processing, pg)|)
    && (forall t, u | t in s.threads && u in s.threads && t != u && (s.threads[t].Holding? || s.threads[t].Running?) ::
          !Locks(s.threads[u], s.threads[t].pg))
    && (forall pg :: Replay(s.trace, pg) == Some(Deque(s.shard, pg)))
    && (forall pg :: Serial(s, pg))
  }

  /** What has been started on a PG is what has finished, and possibly one more operation still running. */
  ghost predicate Serial(s: Sys, pg: Pg) {
    && (Free(s, pg) ==> Rans(s.trace, pg) == FinishedOf(s.finished, pg))
    && (forall t | t in s.threads && Locks(s.threads[t], pg) ::
          Rans(s.trace, pg) == FinishedOf(s.finished, pg) + if s.threads[t].Running? then [s.threads[t].op] else [])
  }

  lemma WaitingChange(threads: map<int, Phase>, t: int, p: Phase, pg: Pg)
    ensures |Waiting(threads[t := p], pg)| ==
            |Waiting(threads, pg)| + (if Awaits(p, pg) then 1 else 0) - (if t in threads && Awaits(threads[t], pg) then 1 else 0)
  {
    OthersWait(threads, t, p, pg);
    WithOrWithout(Waiting(threads, pg), t);
    WithOrWithout(Waiting(threads[t := p], pg), t);
  }

  lemma OthersWait(threads: map<int, Phase>, t: int, p: Phase, pg: Pg)
    ensures Waiting(threads[t := p], pg) - {t} == Waiting(threads, pg) - {t}
  {
    forall u ensures u in Waiting(threads[t := p], pg) - {t} <==> u in Waiting(threads, pg) - {t} {}
  }

  lemma WithOrWithout(s: set<int>, t: int)
    ensures |s| == |s - {t}| + if t in s then 1 else 0
  {
    if t in s {
      assert s == (s - {t}) + {t};
    } else {
      assert s == s - {t};
    }
  }

  lemma FreeChange(s: Sys, s': Sys, t: int, p: Phase, pg: Pg)
    requires s'.threads == s.threads[t := p] && !Locks(PhaseOf(s, t), pg)
    ensures Free(s', pg) ==> Free(s, pg)
  {
    forall u | Free(s', pg) && u in s.threads ensures !Locks(s.threads[u], pg) {
      assert u in s'.threads && (u != t ==> s'.threads[u] == s.threads[u]);
    }
  }

  lemma PhasesUnchanged(s: Sys, s': Sys)
    requires Inv(s) && s'.threads == s.threads && s'.finished == s.finished
    requires forall pg :: Rans(s'.trace, pg) == Rans(s.trace, pg)
    ensures forall pg :: Serial(s', pg)
  {
    forall pg ensures Serial(s', pg) {
      assert Serial(s, pg);
      assert Free(s', pg) == Free(s, pg);
    }
  }

  lemma EnqueuedDeque(d: Shard, x: Pg, op: Op, pg: Pg)
    ensures Deque(Enqueued(d, x, op), pg) == Deque(d, pg) + if pg == x then [op] else []
  {
    assert Deque(d, x) + [op] == At(d.processing, x) + (At(d.pqueue, x) + [op]);
  }

  /** Pushing through the list in processing prepends to the deque and keeps the list's length. */
  lemma EnqueuedFrontDeque(d: Shard, x: Pg, op: Op, pg: Pg)
    requires forall p | p in d.processing :: d.processing[p] != []
    ensures Deque(EnqueuedFront(d, x, op), pg) == (if pg == x then [op] else []) + Deque(d, pg)
    ensures |At(EnqueuedFront(d, x, op).processing, pg)| == |At(d.processing, pg)|
    ensures pg in EnqueuedFront(d, x, op).processing ==> EnqueuedFront(d, x, op).processing[pg] != []
  {
    if x in d.processing && pg == x {
      var list := [op] + d.processing[x];
      var init, last := list[..|list| - 1], list[|list| - 1];
      assert init + ([last] + At(d.pqueue, x)) == list + At(d.pqueue, x) == [op] + Deque(d, x);
    }
  }

  lemma DequeuedDeque(d: Shard, x: Pg, pg: Pg)
    requires At(d.pqueue, x) != []
    ensures Deque(Dequeued(d, x), pg) == Deque(d, pg)
  {
    var head, tail := d.pqueue[x][0], d.pqueue[x][1..];
    assert (At(d.processing, x) + [head]) + tail == Deque(d, x);
  }

  lemma TakenDeque(d: Shard, x: Pg, pg: Pg)
    requires At(d.processing, x) != []
    ensures Deque(Taken(d, x), pg) == if pg == x then Deque(d, pg)[1..] else Deque(d, pg)
  {
    assert d.processing[x][1..] + At(d.pqueue, x) == Deque(d, x)[1..];
  }

  lemma EnqueueKeeps(s: Sys, pg: Pg, op: Op)
    requires Inv(s)
    ensures Inv(Next(s, Enqueue(pg, op)))
  {
    var s' := Next(s, Enqueue(pg, op));
    assert s'.trace[..|s'.trace| - 1] == s.trace;
    forall x ensures Replay(s'.trace, x) == Some(Deque(s'.shard, x)) {
      EnqueuedDeque(s.shard, pg, op, x);
    }
    PhasesUnchanged(s, s');
  }

  lemma EnqueueFrontKeeps(s: Sys, pg: Pg, op: Op)
    requires Inv(s)
    ensures Inv(Next(s, EnqueueFront(pg, op)))
  {
    var s' := Next(s, EnqueueFront(pg, op));
    assert s'.trace[..|s'.trace| - 1] == s.trace;
    forall x
      ensures Replay(s'.trace, x) == Some(Deque(s'.shard, x))
      ensures |Waiting(s'.threads, x)| == |At(s'.shard.processing, x)|
      ensures x in s'.shard.processing ==> s'.shard.processing[x] != []
    {
      EnqueuedFrontDeque(s.shard, pg, op, x);
    }
    PhasesUnchanged(s, s');
  }

  lemma DequeueKeeps(s: Sys, t: int, pg: Pg)
    requires Inv(s)
    ensures Inv(Next(s, Dequeue(t, pg)))
  {
    var s' := Next(s, Dequeue(t, pg));
    if PhaseOf(s, t).Idle? && At(s.shard.pqueue, pg) != [] {
      forall x ensures |Waiting(s'.threads, x)| == |At(s'.shard.processing, x)| {
        WaitingChange(s.threads, t, Parked(pg), x);
      }
      forall x ensures Replay(s'.trace, x) == Some(Deque(s'.shard, x)) {
        DequeuedDeque(s.shard, pg, x);
      }
      forall x ensures Serial(s', x) {
        assert Serial(s, x);
        FreeChange(s, s', t, Parked(pg), x);
      }
    }
  }

  lemma LockKeeps(s: Sys, t: int)
    requires Inv(s)
    ensures Inv(Next(s, LockPg(t)))
  {
    var s', p := Next(s, LockPg(t)), PhaseOf(s, t);
    if p.Parked? && Free(s, p.pg) {
      forall x ensures |Waiting(s'.threads, x)| == |At(s'.shard.processing, x)| {
        WaitingChange(s.threads, t, Holding(p.pg), x);
      }
      forall x ensures Serial(s', x) {
        assert Serial(s, x);
        if x != p.pg { FreeChange(s, s', t, Holding(p.pg), x); }
      }
    }
  }

  /** A thread that holds the PG lock finds its list there and not empty. */
  lemma HolderFindsWork(s: Sys, t: int)
    requires Inv(s) && PhaseOf(s, t).Holding?
    ensures At(s.shard.processing, PhaseOf(s, t).pg) != []
  {
    var pg := PhaseOf(s, t).pg;
    assert t in Waiting(s.threads, pg);
    assert |Waiting(s.threads, pg)| != 0;
  }

  lemma TakeCounts(s: Sys, t: int, op: Op, x: Pg)
    requires Inv(s) && PhaseOf(s, t).Holding? && At(s.shard.processing, s.threads[t].pg) != []
    ensures
      var pg := s.threads[t].pg;
      |Waiting(s.threads[t := Running(pg, op)], x)| == |At(Taken(s.shard, pg).processing, x)|
  {
    WaitingChange(s.threads, t, Running(s.threads[t].pg, op), x);
  }

  lemma TakeReplay(trace: seq<Action>, d: Shard, pg: Pg, x: Pg)
    requires Replay(trace, x) == Some(Deque(d, x)) && At(d.processing, pg) != []
    ensures Replay(trace + [Ran(pg, d.processing[pg][0])], x) == Some(Deque(Taken(d, pg), x))
  {
    TakenDeque(d, pg, x);
    assert (trace + [Ran(pg, d.processing[pg][0])])[..|trace|] == trace;
  }

  lemma TakeKeeps(s: Sys, t: int)
    requires Inv(s)
    ensures Inv(Next(s, Take(t)))
  {
    var s', p := Next(s, Take(t)), PhaseOf(s, t);
    if p.Holding? {
      HolderFindsWork(s, t);
      var op := s.shard.processing[p.pg][0];
      forall x
        ensures |Waiting(s'.threads, x)| == |At(s'.shard.processing, x)|
        ensures Replay(s'.trace, x) == Some(Deque(s'.shard, x))
      {
        TakeCounts(s, t, op, x);
        TakeReplay(s.trace, s.shard, p.pg, x);
      }
      TakeSerial(s, s', t, op);
    }
  }

  lemma TakeSerial(s: Sys, s': Sys, t: int, op: Op)
    requires Inv(s) && PhaseOf(s, t).Holding? && s'.finished == s.finished
    requires s'.threads == s.threads[t := Running(s.threads[t].pg, op)]
    requires s'.trace == s.trace + [Ran(s.threads[t].pg, op)]
    ensures forall x :: Serial(s', x)
  {
    var pg := s.threads[t].pg;
    assert s'.trace[..|s'.trace| - 1] == s.trace;
    forall x ensures Serial(s', x) {
      assert Serial(s, x);
      if x != pg {
        FreeChange(s, s', t, Running(pg, op), x);
      } else {
        assert Locks(s'.threads[t], pg);
      }
    }
  }

  lemma FinishKeeps(s: Sys, t: int)
    requires Inv(s)
    ensures Inv(Next(s, Finish(t)))
  {
    var s', p := Next(s, Finish(t)), PhaseOf(s, t);
    if p.Running? {
      assert s'.finished[..|s'.finished| - 1] == s.finished;
      forall x ensures |Waiting(s'.threads, x)| == |At(s'.shard.processing, x)| {
        WaitingChange(s.threads, t, Idle, x);
      }
      forall x ensures Serial(s', x) {
        assert Serial(s, x);
        if x != p.pg { FreeChange(s, s', t, Idle, x); }
        assert Locks(s.threads[t], p.pg);
      }
    }
  }

  lemma StartsEmpty()
    ensures Inv(Run([]))
  {
    var s := Run([]);
    forall pg
      ensures |Waiting(s.threads, pg)| == |At(s.shard.processing, pg)|
      ensures Replay(s.trace, pg) == Some(Deque(s.shard, pg)) && Serial(s, pg)
    {
      assert Waiting(s.threads, pg) == {} && Deque(s.shard, pg) == [];
    }
  }

  lemma {:induction false} InvHolds(evs: seq<Event>)
    ensures Inv(Run(evs))
  {
    if evs == [] {
      StartsEmpty();
    } else {
      var s, ev := Run(evs[..|evs| - 1]), evs[|evs| - 1];
      InvHolds(evs[..|evs| - 1]);
      match ev
      case Enqueue(pg, op) => EnqueueKeeps(s, pg, op);
      case EnqueueFront(pg, op) => EnqueueFrontKeeps(s, pg, op);
      case Dequeue(t, pg) => DequeueKeeps(s, t, pg);
      case LockPg(t) => LockKeeps(s, t);
      case Take(t) => TakeKeeps(s, t);
      case Finish(t) => FinishKeeps(s, t);
    }
  }

  // ----- what events do -----

  /** Enqueuing puts an operation at one end of the PG's deque, notes it, and leaves the rest alone. */
  lemma EnqueueDoes(s: Sys, pg: Pg, op: Op, x: Pg)
    requires Inv(s)
    ensures
      var back, front := Next(s, Enqueue(pg, op)), Next(s, EnqueueFront(pg, op));
      && Deque(back.shard, x) == Deque(s.shard, x) + (if x == pg then [op] else [])
      && Deque(front.shard, x) == (if x == pg then [op] else []) + Deque(s.shard, x)
      && back == s.(shard := back.shard, trace := s.trace + [Put(pg, op)])
      && front == s.(shard := front.shard, trace := s.trace + [PutFront(pg, op)])
  {
    EnqueuedDeque(s.shard, pg, op, x);
    EnqueuedFrontDeque(s.shard, pg, op, x);
  }

  /** An idle thread can park on any PG that has an item in the priority queue. */
  lemma IdleThreadParks(s: Sys, t: int, pg: Pg)
    requires Inv(s) && PhaseOf(s, t) == Idle && At(s.shard.pqueue, pg) != []
    ensures
      var s' := Next(s, Dequeue(t, pg));
      && s' == s.(shard := s'.shard, threads := s.threads[t := Parked(pg)])
      && At(s'.shard.processing, pg) == At(s.shard.processing, pg) + [At(s.shard.pqueue, pg)[0]]
      && forall x :: Deque(s'.shard, x) == Deque(s.shard, x)
  {
    forall x ensures Deque(Dequeued(s.shard, pg), x) == Deque(s.shard, x) { DequeuedDeque(s.shard, pg, x); }
  }

  /**
   A parked thread gets the lock of its PG as soon as it is free, runs the head of the PG's deque, whichever item it
   had dequeued itself, and when it finishes is idle and has left the PG free.
   */
  lemma ParkedThreadRunsHead(s: Sys, t: int, pg: Pg)
    requires Inv(s) && PhaseOf(s, t) == Parked(pg) && forall u | u in s.threads :: !Locks(s.threads[u], pg)
    ensures Deque(s.shard, pg) != []
    ensures
      var op := Deque(s.shard, pg)[0];
      var holding := Next(s, LockPg(t));
      var running := Next(holding, Take(t));
      var done := Next(running, Finish(t));
      && holding == s.(threads := s.threads[t := Holding(pg)])
      && running == s.(shard := running.shard, threads := s.threads[t := Running(pg, op)], trace := s.trace + [Ran(pg, op)])
      && Deque(running.shard, pg) == Deque(s.shard, pg)[1..]
      && done == running.(threads := s.threads[t := Idle], finished := s.finished + [(pg, op)])
      && Free(done, pg)
  {
    var holding := Next(s, LockPg(t));
    assert Free(s, pg);
    LockKeeps(s, t);
    HolderFindsWork(holding, t);
    TakenDeque(s.shard, pg, pg);
    var op := s.shard.processing[pg][0];
    assert s.threads[t := Holding(pg)][t := Running(pg, op)] == s.threads[t := Running(pg, op)];
    assert s.threads[t := Running(pg, op)][t := Idle] == s.threads[t := Idle];
  }

  // ----- what holds of every run -----

  /**
   Per-PG order: under every interleaving, what a PG sees is a run of one plain deque, to which
   `_enqueue` appends, `_enqueue_front` prepends and from which the workers run the head; its current contents
   are the list in processing followed by the items in the priority queue.
   */
  lemma BehavesAsOneDeque(evs: seq<Event>, pg: Pg)
    ensures Replay(Run(evs).trace, pg) == Some(Deque(Run(evs).shard, pg))
  {
    InvHolds(evs);
  }

  /**
   The number of threads between their two locked regions equals the length of the PG's list, so no
   thread ever finds the list gone or empty.
   */
  lemma ParkedThreadsMatchList(evs: seq<Event>, pg: Pg)
    ensures |Waiting(Run(evs).threads, pg)| == |At(Run(evs).shard.processing, pg)|
    ensures !Run(evs).failed
  {
    InvHolds(evs);
  }

  /** Operations of a PG run one at a time and finish in the order in which the deque released them. */
  lemma OneAtATime(evs: seq<Event>, pg: Pg)
    ensures FinishedOf(Run(evs).finished, pg) <= Rans(Run(evs).trace, pg)
    ensures |Rans(Run(evs).trace, pg)| <= |FinishedOf(Run(evs).finished, pg)| + 1
    ensures forall t, u | t in Run(evs).threads && u in Run(evs).threads
              && Locks(Run(evs).threads[t], pg) && Locks(Run(evs).threads[u], pg) :: t == u
  {
    InvHolds(evs);
    var s := Run(evs);
    assert Serial(s, pg);
  }

  lemma {:induction false} ReplayInOrder(trace: seq<Action>, pg: Pg, q: seq<Op>)
    requires Replay(trace, pg) == Some(q)
    requires forall a | a in trace && a.PutFront? :: a.pg != pg
    ensures Rans(trace, pg) + q == Puts(trace, pg)
  {
    if trace != [] {
      var init, a := trace[..|trace| - 1], trace[|trace| - 1];
      assert a in trace;
      var before := Replay(init, pg).value;
      ReplayInOrder(init, pg, before);
      if a.pg == pg && a.Ran? {
        assert before == [a.op] + q;
      }
    }
  }

  /** With `_enqueue` alone a PG is first in first out: started operations and waiting ones are all it was given, in order. */
  lemma FirstInFirstOut(evs: seq<Event>, pg: Pg)
    requires forall a | a in Run(evs).trace && a.PutFront? :: a.pg != pg
    ensures Rans(Run(evs).trace, pg) + Deque(Run(evs).shard, pg) == Puts(Run(evs).trace, pg)
  {
    InvHolds(evs);
    ReplayInOrder(Run(evs).trace, pg, Deque(Run(evs).shard, pg));
  }

  lemma {:induction false} ReplayConserves(trace: seq<Action>, pg: Pg, q: seq<Op>)
    requires Replay(trace, pg) == Some(q)
    ensures AllPuts(trace, pg) == multiset(Rans(trace, pg)) + multiset(q)
  {
    if trace != [] {
      var init, a := trace[..|trace| - 1], trace[|trace| - 1];
      var before := Replay(init, pg).value;
      ReplayConserves(init, pg, before);
      if a.pg == pg { ConserveStep(a, AllPuts(init, pg), Rans(init, pg), before, q); }
    }
  }

  lemma ConserveStep(a: Action, puts: multiset<Op>, rans: seq<Op>, before: seq<Op>, q: seq<Op>)
    requires puts == multiset(rans) + multiset(before)
    requires match a
             case Put(_, op) => q == before + [op]
             case PutFront(_, op) => q == [op] + before
             case Ran(_, op) => before != [] && before[0] == op && q == before[1..]
    ensures !a.Ran? ==> puts + multiset{a.op} == multiset(rans) + multiset(q)
    ensures a.Ran? ==> puts == multiset(rans + [a.op]) + multiset(q)
  {
    match a
    case Put(_, op) => PutOne(before, op);
    case PutFront(_, op) => PutOne(before, op);
    case Ran(_, op) => MoveOne(rans, before, op, q);
  }

  /** Nothing is lost or duplicated in any run: what was put, at either end, is what ran and what waits. */
  lemma Conserved(evs: seq<Event>, pg: Pg)
    ensures AllPuts(Run(evs).trace, pg) == multiset(Rans(Run(evs).trace, pg)) + multiset(Deque(Run(evs).shard, pg))
  {
    InvHolds(evs);
    ReplayConserves(Run(evs).trace, pg, Deque(Run(evs).shard, pg));
  }

  lemma PutOne(q: seq<Op>, op: Op)
    ensures multiset(q + [op]) == multiset([op] + q) == multiset(q) + multiset{op}
  {
  }

  lemma MoveOne(rans: seq<Op>, before: seq<Op>, op: Op, after: seq<Op>)
    requires before != [] && before[0] == op && after == before[1..]
    ensures multiset(rans + [op]) + multiset(after) == multiset(rans) + multiset(before)
  {
    assert before == [op] + after;
  }

  function AllPuts(trace: seq<Action>, pg: Pg): multiset<Op> {
    if trace == [] then multiset{}
    else
      var a := trace[|trace| - 1];
      AllPuts(trace[..|trace| - 1], pg) + if !a.Ran? && a.pg == pg then multiset{a.op} else multiset{}
  }

  // ----- the shard -----

  class ShardData {
    var pqueue: Queues
    var pgForProcessing: Queues

    ghost predicate Valid()
      reads this
    {
      forall pg | pg in pgForProcessing :: pgForProcessing[pg] != []
    }

    ghost function View(): Shard
      reads this
    {
      Shard(pqueue, pgForProcessing)
    }

    constructor ()
      ensures Valid() && View() == Shard(map[], map[])
    {
      pqueue, pgForProcessing := map[], map[];
    }

    method EnqueueItem(pg: Pg, op: Op)
      requires Valid()
      modifies this
      ensures Valid() && View() == Enqueued(old(View()), pg, op)
    {
      pqueue := pqueue[pg := At(pqueue, pg) + [op]];
    }

    method EnqueueFrontItem(pg: Pg, op: Op)
      requires Valid()
      modifies this
      ensures Valid() && View() == EnqueuedFront(old(View()), pg, op)
      ensures Deque(View(), pg) == [op] + Deque(old(View()), pg)
    {
      EnqueuedFrontDeque(View(), pg, op, pg);
      var item := op;
      if pg in pgForProcessing {
        pgForProcessing := pgForProcessing[pg := [item] + pgForProcessing[pg]];
        var list := pgForProcessing[pg];
        item := list[|list| - 1];
        pgForProcessing := pgForProcessing[pg := list[..|list| - 1]];
      }
      pqueue := pqueue[pg := [item] + At(pqueue, pg)];
    }

    /** The first locked region of a worker; the choice of the PG is the priority queue's. */
    method BeginProcess(pg: Pg)
      requires Valid() && At(pqueue, pg) != []
      modifies this
      ensures Valid() && View() == Dequeued(old(View()), pg)
      ensures Deque(View(), pg) == Deque(old(View()), pg)
    {
      DequeuedDeque(View(), pg, pg);
      var op := pqueue[pg][0];
      pqueue := pqueue[pg := pqueue[pg][1..]];
      pgForProcessing := pgForProcessing[pg := At(pgForProcessing, pg) + [op]];
    }

    /** The second locked region; `found` is false when the PG has no list any more. */
    method TakeOp(pg: Pg) returns (found: bool, op: Op)
      requires Valid()
      modifies this
      ensures Valid() && (found <==> pg in old(pgForProcessing))
      ensures found ==> [op] + Deque(View(), pg) == Deque(old(View()), pg) && View() == Taken(old(View()), pg)
      ensures !found ==> View() == old(View())
    {
      op := 0;
      if pg !in pgForProcessing {
        return false, op;
      }
      TakenDeque(View(), pg, pg);
      op := pgForProcessing[pg][0];
      pgForProcessing := pgForProcessing[pg := pgForProcessing[pg][1..]];
      if pgForProcessing[pg] == [] {
        pgForProcessing := pgForProcessing - {pg};
      }
      assert pgForProcessing == Taken(old(View()), pg).processing;
      return true, op;
    }
  }
}
