/**
 The receiving side of the barrier: `process_packet` marks each (epoch, ring) barrier message in
 a circular array of 100 slots by 4 rings. A mark is the current round number, so that the array
 is never cleared; the round advances when the last slot fills up.

 `Receive` is the meaning of one message, `BarrierQueue` the imperative form. The reference the
 array is compared with is the plain set of messages received so far.
 */
module BarrierCollector {
  import opened Common

  const SLOTS := 100

  datatype Msg = Msg(epoch: int, ring: int)

  datatype Collector = Collector(cells: map<(int, int), int>, round: int, noSemPost: int, posts: nat)

  datatype Outcome = Outcome(next: Collector, completed: bool)

  /** The payloads a barrier sender produces; a ring number of 4 or more would index past the array. */
  predicate WellFormed(m: Msg) {
    0 < m.epoch && 0 <= m.ring < RINGS
  }

  function Block(epoch: int): int {
    epoch / SLOTS
  }

  function LastOf(block: int): int {
    SLOTS * block + SLOTS - 1
  }

  ghost predicate Shaped(c: Collector) {
    forall i, r | 0 <= i < SLOTS && 0 <= r < RINGS :: (i, r) in c.cells
  }

  ghost predicate SlotFull(c: Collector, slot: int)
    requires Shaped(c) && 0 <= slot < SLOTS
  {
    forall r | 0 <= r < RINGS :: c.cells[(slot, r)] == c.round
  }

  /** One barrier message; messages with bad fields are ignored. */
  ghost function Receive(c: Collector, m: Msg): (o: Outcome)
    requires Shaped(c) && m.ring < RINGS
    ensures Shaped(o.next)
  {
    if m.epoch <= 0 || m.ring < 0 then Outcome(c, false)
    else
      var slot := m.epoch % SLOTS;
      if c.cells[(slot, m.ring)] == c.round then Outcome(c, false)
      else
        var marked := c.(cells := c.cells[(slot, m.ring) := c.round]);
        if !SlotFull(marked, slot) then Outcome(marked, false)
        else
          var turned := if slot == SLOTS - 1 then marked.(round := c.round + 1) else marked;
          if c.noSemPost != 0 && m.epoch <= c.noSemPost then Outcome(turned, true)
          else Outcome(turned.(posts := c.posts + 1), true)
  }

  function Fresh(): (c: Collector) {
    Collector(map i, r | 0 <= i < SLOTS && 0 <= r < RINGS :: (i, r) := 0, 1, 0, 0)
  }

  // ----- deliveries -----

  ghost predicate AllWellFormed(ms: seq<Msg>) {
    forall m | m in ms :: WellFormed(m)
  }

  ghost function Deliver(ms: seq<Msg>): (c: Collector)
    requires AllWellFormed(ms)
    ensures Shaped(c)
  {
    if ms == [] then Fresh()
    else
      assert ms[|ms| - 1] in ms;
      Receive(Deliver(ms[..|ms| - 1]), ms[|ms| - 1]).next
  }

  ghost function Seen(ms: seq<Msg>): set<Msg> {
    set m | m in ms
  }

  ghost predicate Complete(seen: set<Msg>, epoch: int) {
    forall r | 0 <= r < RINGS :: Msg(epoch, r) in seen
  }

  /** The epoch of `m` belongs to the block whose last epoch is the next one to complete. */
  ghost predicate InTurn(seen: set<Msg>, m: Msg, firstBlock: int) {
    && firstBlock <= Block(m.epoch)
    && (forall k | firstBlock <= k < Block(m.epoch) :: Complete(seen, LastOf(k)))
    && !Complete(seen, LastOf(Block(m.epoch)))
  }

  /** Block-respecting delivery: every message arrives in turn. Repeats inside a block are fine. */
  ghost predicate Respects(ms: seq<Msg>, firstBlock: int) {
    ms != [] ==>
      && Respects(ms[..|ms| - 1], firstBlock)
      && InTurn(Seen(ms[..|ms| - 1]), ms[|ms| - 1], firstBlock)
  }

  ghost function CompletedEpochs(seen: set<Msg>): set<int> {
    set m | m in seen && Complete(seen, m.epoch) :: m.epoch
  }

  /** How often the delivery reported epoch `e` complete. */
  ghost function Completions(ms: seq<Msg>, e: int): nat
    requires AllWellFormed(ms)
  {
    if ms == [] then 0
    else
      var init, m := ms[..|ms| - 1], ms[|ms| - 1];
      assert m in ms;
      Completions(init, e) + (if m.epoch == e && Receive(Deliver(init), m).completed then 1 else 0)
  }

  // ----- the array agrees with the set -----

  ghost predicate BlocksDone(seen: set<Msg>, firstBlock: int, block: int) {
    forall k | firstBlock <= k < block :: Complete(seen, LastOf(k))
  }

  lemma BlocksStayDone(seen: set<Msg>, m: Msg, firstBlock: int, block: int)
    requires BlocksDone(seen, firstBlock, block)
    ensures BlocksDone(seen + {m}, firstBlock, block)
  {
    forall k | firstBlock <= k < block
      ensures Complete(seen + {m}, LastOf(k))
    {
      assert Complete(seen, LastOf(k));
    }
  }

  ghost predicate Agrees(c: Collector, seen: set<Msg>, firstBlock: int)
    requires Shaped(c)
  {
    var block := firstBlock + c.round - 1;
    && 1 <= c.round
    && c.noSemPost == 0
    && BlocksDone(seen, firstBlock, block)
    && !Complete(seen, LastOf(block))
    && (forall m | m in seen :: WellFormed(m) && Block(m.epoch) <= block)
    && (forall e, r | Block(e) == block && 0 <= r < RINGS ::
          c.cells[(e % SLOTS, r)] == c.round <==> Msg(e, r) in seen)
    && (forall i, r | 0 <= i < SLOTS && 0 <= r < RINGS :: c.cells[(i, r)] <= c.round)
    && c.posts == |CompletedEpochs(seen)|
  }

  lemma SlotIsEpoch(e: int, e': int)
    requires Block(e) == Block(e') && e % SLOTS == e' % SLOTS
    ensures e == e'
  {
  }

  lemma InTurnIsCurrentBlock(c: Collector, seen: set<Msg>, m: Msg, firstBlock: int)
    requires Shaped(c) && Agrees(c, seen, firstBlock) && InTurn(seen, m, firstBlock)
    ensures Block(m.epoch) == firstBlock + c.round - 1
  {
    var block := firstBlock + c.round - 1;
    assert firstBlock <= Block(m.epoch) < block ==> Complete(seen, LastOf(Block(m.epoch)));
    assert block < Block(m.epoch) ==> Complete(seen, LastOf(block));
  }

  lemma CompletedGrows(seen: set<Msg>, m: Msg)
    requires m !in seen && WellFormed(m)
    ensures CompletedEpochs(seen + {m}) ==
            if Complete(seen + {m}, m.epoch) then CompletedEpochs(seen) + {m.epoch} else CompletedEpochs(seen)
    ensures m.epoch !in CompletedEpochs(seen)
    ensures forall e | e != m.epoch :: Complete(seen + {m}, e) == Complete(seen, e)
  {
    var after := seen + {m};
    forall e | e != m.epoch
      ensures Complete(after, e) == Complete(seen, e)
    {
      forall r | 0 <= r < RINGS ensures (Msg(e, r) in after) == (Msg(e, r) in seen) {}
    }
    forall e | e in CompletedEpochs(seen)
      ensures e in CompletedEpochs(after) && e != m.epoch
    {
      assert Msg(e, 0) in seen && Msg(e, m.ring) in seen;
    }
    if Complete(after, m.epoch) {
      assert m in after;
    }
  }

  lemma CountGrows(seen: set<Msg>, m: Msg)
    requires m !in seen && WellFormed(m)
    ensures |CompletedEpochs(seen + {m})| ==
            |CompletedEpochs(seen)| + if Complete(seen + {m}, m.epoch) then 1 else 0
  {
    CompletedGrows(seen, m);
  }

  lemma LastStaysOpen(seen: set<Msg>, m: Msg)
    requires m !in seen && WellFormed(m) && !Complete(seen, LastOf(Block(m.epoch)))
    requires !(Complete(seen + {m}, m.epoch) && m.epoch % SLOTS == SLOTS - 1)
    ensures !Complete(seen + {m}, LastOf(Block(m.epoch)))
  {
    CompletedGrows(seen, m);
    assert m.epoch == LastOf(Block(m.epoch)) ==> m.epoch % SLOTS == SLOTS - 1;
  }

  /** The step case of the refinement. */
  lemma ReceiveAgrees(c: Collector, seen: set<Msg>, m: Msg, firstBlock: int)
    requires Shaped(c) && Agrees(c, seen, firstBlock)
    requires WellFormed(m) && InTurn(seen, m, firstBlock)
    ensures Agrees(Receive(c, m).next, seen + {m}, firstBlock)
    ensures Receive(c, m).completed <==> m !in seen && Complete(seen + {m}, m.epoch)
  {
    InTurnIsCurrentBlock(c, seen, m, firstBlock);
    var slot, after := m.epoch % SLOTS, seen + {m};
    assert c.cells[(slot, m.ring)] == c.round <==> m in seen;
    if m in seen {
      assert after == seen;
    } else {
      var marked := c.(cells := c.cells[(slot, m.ring) := c.round]);
      MarksAfter(c, marked, seen, m, firstBlock);
      if SlotFull(marked, slot) && slot == SLOTS - 1 {
        TurnAgrees(c, marked, seen, m, firstBlock);
      } else {
        MarkAgrees(c, marked, seen, m, firstBlock);
      }
    }
  }

  lemma MarksAfter(c: Collector, marked: Collector, seen: set<Msg>, m: Msg, firstBlock: int)
    requires Shaped(c) && Agrees(c, seen, firstBlock) && WellFormed(m)
    requires Block(m.epoch) == firstBlock + c.round - 1
    requires marked == c.(cells := c.cells[(m.epoch % SLOTS, m.ring) := c.round])
    ensures forall e, r | Block(e) == Block(m.epoch) && 0 <= r < RINGS ::
              marked.cells[(e % SLOTS, r)] == c.round <==> Msg(e, r) in seen + {m}
    ensures SlotFull(marked, m.epoch % SLOTS) <==> Complete(seen + {m}, m.epoch)
  {
    var slot, after := m.epoch % SLOTS, seen + {m};
    forall e, r | Block(e) == Block(m.epoch) && 0 <= r < RINGS
      ensures marked.cells[(e % SLOTS, r)] == c.round <==> Msg(e, r) in after
    {
      if e % SLOTS == slot { SlotIsEpoch(e, m.epoch); }
    }
    forall r | 0 <= r < RINGS
      ensures marked.cells[(slot, r)] == c.round <==> Msg(m.epoch, r) in after {}
  }

  lemma MarkAgrees(c: Collector, marked: Collector, seen: set<Msg>, m: Msg, firstBlock: int)
    requires Shaped(c) && Agrees(c, seen, firstBlock) && WellFormed(m) && m !in seen
    requires Block(m.epoch) == firstBlock + c.round - 1
    requires marked == c.(cells := c.cells[(m.epoch % SLOTS, m.ring) := c.round])
    requires forall e, r | Block(e) == Block(m.epoch) && 0 <= r < RINGS ::
               marked.cells[(e % SLOTS, r)] == c.round <==> Msg(e, r) in seen + {m}
    requires !(Complete(seen + {m}, m.epoch) && m.epoch % SLOTS == SLOTS - 1)
    ensures Complete(seen + {m}, m.epoch) ==> Agrees(marked.(posts := c.posts + 1), seen + {m}, firstBlock)
    ensures !Complete(seen + {m}, m.epoch) ==> Agrees(marked, seen + {m}, firstBlock)
  {
    CountGrows(seen, m);
    LastStaysOpen(seen, m);
    BlocksStayDone(seen, m, firstBlock, Block(m.epoch));
  }

  lemma TurnAgrees(c: Collector, marked: Collector, seen: set<Msg>, m: Msg, firstBlock: int)
    requires Shaped(c) && Agrees(c, seen, firstBlock) && WellFormed(m) && m !in seen
    requires Block(m.epoch) == firstBlock + c.round - 1
    requires marked == c.(cells := c.cells[(m.epoch % SLOTS, m.ring) := c.round])
    requires Complete(seen + {m}, m.epoch) && m.epoch % SLOTS == SLOTS - 1
    ensures Agrees(marked.(round := c.round + 1, posts := c.posts + 1), seen + {m}, firstBlock)
  {
    CountGrows(seen, m);
    assert m.epoch == LastOf(Block(m.epoch));
    BlocksStayDone(seen, m, firstBlock, Block(m.epoch));
    assert BlocksDone(seen + {m}, firstBlock, Block(m.epoch) + 1);
    assert Msg(LastOf(Block(m.epoch) + 1), 0) !in seen + {m} by {
      assert Block(LastOf(Block(m.epoch) + 1)) == Block(m.epoch) + 1;
    }
  }

  /**
   For every block-respecting delivery, of any length and with any repeats inside a block, the
   round-stamped array agrees with the set of messages received.
   */
  lemma {:induction false} ArrayRefinesSet(ms: seq<Msg>, firstBlock: int)
    requires AllWellFormed(ms) && Respects(ms, firstBlock)
    requires 0 <= firstBlock
    ensures Agrees(Deliver(ms), Seen(ms), firstBlock)
  {
    if ms == [] {
      FreshAgrees(firstBlock);
      assert Seen(ms) == {};
    } else {
      var init, m := ms[..|ms| - 1], ms[|ms| - 1];
      ArrayRefinesSet(init, firstBlock);
      ReceiveAgrees(Deliver(init), Seen(init), m, firstBlock);
      OneMoreSeen(ms);
    }
  }

  lemma OneMoreSeen(ms: seq<Msg>)
    requires ms != []
    ensures Seen(ms) == Seen(ms[..|ms| - 1]) + {ms[|ms| - 1]}
  {
    assert ms == ms[..|ms| - 1] + [ms[|ms| - 1]];
  }

  lemma FreshAgrees(firstBlock: int)
    ensures Agrees(Fresh(), {}, firstBlock)
  {
    assert Msg(LastOf(firstBlock), 0) !in Seen([]);
    assert CompletedEpochs({}) == {};
  }

  /** A message in turn completes its epoch exactly when it is new and makes the set complete. */
  lemma CompletesWhen(ms: seq<Msg>, m: Msg, firstBlock: int)
    requires AllWellFormed(ms) && WellFormed(m) && 0 <= firstBlock
    requires Respects(ms, firstBlock) && InTurn(Seen(ms), m, firstBlock)
    ensures Receive(Deliver(ms), m).completed <==> m !in Seen(ms) && Complete(Seen(ms) + {m}, m.epoch)
  {
    ArrayRefinesSet(ms, firstBlock);
    ReceiveAgrees(Deliver(ms), Seen(ms), m, firstBlock);
  }

  /** A message completes its epoch exactly when it is new and is the fourth ring to report. */
  lemma CompletesOnFourthRing(ms: seq<Msg>, m: Msg, firstBlock: int)
    requires AllWellFormed(ms) && WellFormed(m) && 0 <= firstBlock
    requires Respects(ms, firstBlock) && InTurn(Seen(ms), m, firstBlock)
    ensures Receive(Deliver(ms), m).completed <==>
            m !in ms && forall r | 0 <= r < RINGS && r != m.ring :: Msg(m.epoch, r) in ms
  {
    CompletesWhen(ms, m, firstBlock);
    if forall r | 0 <= r < RINGS && r != m.ring :: Msg(m.epoch, r) in ms {
      assert Complete(Seen(ms) + {m}, m.epoch);
    }
    if Complete(Seen(ms) + {m}, m.epoch) {
      forall r | 0 <= r < RINGS && r != m.ring ensures Msg(m.epoch, r) in ms {
        assert Msg(m.epoch, r) in Seen(ms) + {m};
      }
    }
  }

  /** Every epoch completes exactly once if all four rings reported it and never otherwise. */
  lemma {:induction false} CompletesExactlyOnce(ms: seq<Msg>, e: int, firstBlock: int)
    requires AllWellFormed(ms) && Respects(ms, firstBlock) && 0 <= firstBlock
    ensures Completions(ms, e) == if Complete(Seen(ms), e) then 1 else 0
  {
    if ms == [] {
      assert Msg(e, 0) !in Seen(ms);
    } else {
      var init, m := ms[..|ms| - 1], ms[|ms| - 1];
      CompletesExactlyOnce(init, e, firstBlock);
      CompletesWhen(init, m, firstBlock);
      OneMoreSeen(ms);
      OneMoreCompletion(Seen(init), m, e);
    }
  }

  lemma OneMoreCompletion(seen: set<Msg>, m: Msg, e: int)
    requires WellFormed(m)
    ensures Complete(seen + {m}, e) <==>
            Complete(seen, e) || (e == m.epoch && m !in seen && Complete(seen + {m}, m.epoch))
    ensures !(Complete(seen, e) && e == m.epoch && m !in seen)
  {
    if m !in seen {
      CompletedGrows(seen, m);
      assert Complete(seen, m.epoch) ==> Msg(m.epoch, m.ring) in seen;
    } else {
      assert seen + {m} == seen;
    }
  }

  /** The semaphore has been posted once for every epoch all four rings reported. */
  lemma PostsCountCompletedEpochs(ms: seq<Msg>, firstBlock: int)
    requires AllWellFormed(ms) && Respects(ms, firstBlock) && 0 <= firstBlock
    ensures Deliver(ms).posts == |CompletedEpochs(Seen(ms))|
  {
    ArrayRefinesSet(ms, firstBlock);
  }

  /** Bad fields and repeats change nothing, and completions up to the suppressed epoch are not posted. */
  lemma PostsExactly(c: Collector, m: Msg)
    requires Shaped(c) && m.ring < RINGS
    ensures
      var o := Receive(c, m);
      var ignored := m.epoch <= 0 || m.ring < 0 || c.cells[(m.epoch % SLOTS, m.ring)] == c.round;
      && (ignored ==> o.next == c && !o.completed)
      && o.next.noSemPost == c.noSemPost
      && o.next.posts == c.posts + if o.completed && !(c.noSemPost != 0 && m.epoch <= c.noSemPost) then 1 else 0
  {
  }

  // ----- exactly when one message keeps the agreement -----

  /** The epoch of the block in progress that shares its slot with epoch `e`. */
  function Twin(c: Collector, e: int, firstBlock: int): int {
    SLOTS * (firstBlock + c.round - 1) + e % SLOTS
  }

  /**
   Without the delivery discipline the stamps do not separate rounds. One more message, in or out of
   turn, keeps the array in agreement with the set if and only if it belongs to the block in
   progress, or it is an old message that completes nothing and whose slot and ring are already
   marked in this round.
   */
  lemma AgreementKeptExactly(c: Collector, seen: set<Msg>, m: Msg, firstBlock: int)
    requires Shaped(c) && Agrees(c, seen, firstBlock) && WellFormed(m) && 0 <= firstBlock
    ensures Agrees(Receive(c, m).next, seen + {m}, firstBlock) <==>
            var block := firstBlock + c.round - 1;
            || Block(m.epoch) == block
            || (&& Block(m.epoch) < block
                && Msg(Twin(c, m.epoch, firstBlock), m.ring) in seen
                && (m in seen || !Complete(seen + {m}, m.epoch)))
  {
    var block := firstBlock + c.round - 1;
    var twin := Twin(c, m.epoch, firstBlock);
    assert Block(twin) == block && twin % SLOTS == m.epoch % SLOTS;
    if Block(m.epoch) == block {
      ReceiveAgrees(c, seen, m, firstBlock);
    } else {
      if m !in seen { CompletedGrows(seen, m); } else { assert seen + {m} == seen; }
      if Block(m.epoch) < block {
        OldMessage(c, seen, m, firstBlock);
      } else {
        var after := Receive(c, m).next;
        assert Block(m.epoch) == block + 1 && after.round == c.round + 1 ==> !Complete(seen + {m}, LastOf(block));
      }
    }
  }

  lemma OldMessage(c: Collector, seen: set<Msg>, m: Msg, firstBlock: int)
    requires Shaped(c) && Agrees(c, seen, firstBlock) && WellFormed(m)
    requires Block(m.epoch) < firstBlock + c.round - 1
    ensures Agrees(Receive(c, m).next, seen + {m}, firstBlock) <==>
            && Msg(Twin(c, m.epoch, firstBlock), m.ring) in seen
            && (m in seen || !Complete(seen + {m}, m.epoch))
  {
    var block := firstBlock + c.round - 1;
    var twin, after := Twin(c, m.epoch, firstBlock), Receive(c, m).next;
    assert Block(twin) == block && twin % SLOTS == m.epoch % SLOTS;
    if m !in seen { CompletedGrows(seen, m); } else { assert seen + {m} == seen; }
    assert Complete(seen + {m}, LastOf(block)) == Complete(seen, LastOf(block));
    if Msg(twin, m.ring) in seen {
      assert after == c;
      BlocksStayDone(seen, m, firstBlock, block);
    } else {
      assert Msg(twin, m.ring) !in seen + {m};
      assert after.cells[(twin % SLOTS, m.ring)] == c.round;
      assert after.round == c.round + 1 ==> firstBlock <= block < firstBlock + after.round - 1;
    }
  }

  /**
   A repeat of the last barrier of a block that arrives after the round has turned is taken for the
   last barrier of the next block, which then completes although one ring never delivered it.
   */
  lemma LateRepeatCompletesTooEarly(ms: seq<Msg>, block: int, ring: int)
    requires AllWellFormed(ms) && Respects(ms, 0) && 0 <= ring < RINGS && 0 < block
    requires Complete(Seen(ms), LastOf(block - 1))
    requires forall r | 0 <= r < RINGS :: Msg(LastOf(block), r) in ms <==> r != ring
    ensures Msg(LastOf(block - 1), ring) in ms
    ensures Receive(Deliver(ms), Msg(LastOf(block - 1), ring)).completed
  {
    assert Msg(LastOf(block - 1), ring) in Seen(ms);
    LastSlotMarks(ms, block, ring);
    LastSlot(block - 1);
    CompletesSlot(Deliver(ms), Msg(LastOf(block - 1), ring));
  }

  lemma LastSlot(block: int)
    requires 0 <= block
    ensures LastOf(block) % SLOTS == SLOTS - 1 && Block(LastOf(block)) == block && 0 < LastOf(block)
  {
  }

  lemma LastSlotMarks(ms: seq<Msg>, block: int, ring: int)
    requires AllWellFormed(ms) && Respects(ms, 0) && 0 <= ring < RINGS && 0 < block
    requires forall r | 0 <= r < RINGS :: Msg(LastOf(block), r) in ms <==> r != ring
    ensures MarkedBut(Deliver(ms), SLOTS - 1, ring)
  {
    ArrayRefinesSet(ms, 0);
    var seen := Seen(ms);
    assert forall r | 0 <= r < RINGS :: Msg(LastOf(block), r) in seen <==> r != ring;
    SlotMarks(Deliver(ms), seen, block, ring);
  }

  lemma SlotMarks(c: Collector, seen: set<Msg>, block: int, ring: int)
    requires Shaped(c) && Agrees(c, seen, 0) && 0 <= ring < RINGS && 0 < block
    requires forall r | 0 <= r < RINGS :: Msg(LastOf(block), r) in seen <==> r != ring
    ensures MarkedBut(c, SLOTS - 1, ring)
  {
    RoundOf(c, seen, block, ring, if ring == 0 then 1 else 0);
    LastSlot(block);
    forall r | 0 <= r < RINGS
      ensures (c.cells[(SLOTS - 1, r)] == c.round) == (Msg(LastOf(block), r) in seen) {}
  }

  /** All rings of a slot but one are marked in this round. */
  ghost predicate MarkedBut(c: Collector, slot: int, ring: int)
    requires Shaped(c) && 0 <= slot < SLOTS
  {
    forall r | 0 <= r < RINGS :: (c.cells[(slot, r)] == c.round) == (r != ring)
  }

  lemma CompletesSlot(c: Collector, m: Msg)
    requires Shaped(c) && WellFormed(m) && MarkedBut(c, m.epoch % SLOTS, m.ring)
    ensures Receive(c, m).completed
  {
  }

  lemma RoundOf(c: Collector, seen: set<Msg>, block: int, ring: int, other: int)
    requires Shaped(c) && Agrees(c, seen, 0) && 0 <= ring < RINGS && 0 <= other < RINGS && 0 <= block
    requires Msg(LastOf(block), other) in seen && Msg(LastOf(block), ring) !in seen
    ensures c.round - 1 == block
  {
    assert Block(LastOf(block)) == block;
    assert block < c.round - 1 ==> Complete(seen, LastOf(block));
  }

  /** Such a delivery exists: epoch 199 completes without ring 0. */
  lemma LateRepeatExample()
    ensures
      var ms := [Msg(99, 0), Msg(99, 1), Msg(99, 2), Msg(99, 3), Msg(199, 1), Msg(199, 2), Msg(199, 3)];
      && AllWellFormed(ms) && Respects(ms, 0)
      && Receive(Deliver(ms), Msg(99, 0)).completed && Msg(199, 0) !in ms
  {
    var ms := [Msg(99, 0), Msg(99, 1), Msg(99, 2), Msg(99, 3), Msg(199, 1), Msg(199, 2), Msg(199, 3)];
    ExampleRespects(ms, 7);
    assert ms[..7] == ms;
    assert Complete(Seen(ms), LastOf(0)) by {
      forall r | 0 <= r < RINGS ensures Msg(99, r) in ms { assert ms[r] == Msg(99, r); }
    }
    forall r | 0 <= r < RINGS ensures Msg(LastOf(1), r) in ms <==> r != 0 {
      if r > 0 { assert ms[3 + r] == Msg(199, r); }
    }
    LateRepeatCompletesTooEarly(ms, 1, 0);
  }

  lemma {:induction false} ExampleRespects(ms: seq<Msg>, n: nat)
    requires |ms| == 7 && n <= 7
    requires forall i | 0 <= i < 7 :: ms[i] == if i < 4 then Msg(99, i) else Msg(199, i - 3)
    ensures Respects(ms[..n], 0)
  {
    if n > 0 {
      ExampleRespects(ms, n - 1);
      assert ms[..n][..n - 1] == ms[..n - 1];
      var seen := Seen(ms[..n - 1]);
      if n <= 4 {
        assert Msg(99, n - 1) !in seen && Block(99) == 0;
      } else {
        forall r | 0 <= r < RINGS ensures Msg(LastOf(0), r) in seen {
          assert ms[..n - 1][r] == Msg(99, r);
        }
        assert Msg(199, 0) !in seen && Block(199) == 1;
      }
    }
  }

  // ----- the imperative form -----

  class BarrierQueue {
    const cells: array2<int>
    var round: int
    var noSemPost: int
    var posts: nat

    ghost predicate Valid()
      reads this
    {
      cells.Length0 == SLOTS && cells.Length1 == RINGS
    }

    ghost function View(): (c: Collector)
      requires Valid()
      reads this, cells
      ensures Shaped(c)
    {
      Collector(Contents(), round, noSemPost, posts)
    }

    ghost function Contents(): map<(int, int), int>
      requires Valid()
      reads this, cells
    {
      map i, r | 0 <= i < SLOTS && 0 <= r < RINGS :: (i, r) := cells[i, r]
    }

    constructor ()
      ensures Valid() && View() == Fresh()
    {
      cells := new int[SLOTS, RINGS]((i, r) => 0);
      round, noSemPost, posts := 1, 0, 0;
    }

    method ProcessBarrier(epoch: int, queueIndex: int) returns (completed: bool)
      requires Valid() && queueIndex < RINGS
      modifies this, cells
      ensures Valid()
      ensures View() == Receive(old(View()), Msg(epoch, queueIndex)).next
      ensures completed == Receive(old(View()), Msg(epoch, queueIndex)).completed
    {
      completed := false;
      if epoch <= 0 || queueIndex < 0 {
        return;
      }
      ghost var before := View();
      var slot := epoch % SLOTS;
      if cells[slot, queueIndex] == round {
        return;
      }
      cells[slot, queueIndex] := round;
      ghost var marked := View();
      assert marked == before.(cells := before.cells[(slot, queueIndex) := round]);
      var i := 0;
      while i < RINGS
        invariant 0 <= i <= RINGS
        invariant forall r | 0 <= r < i :: cells[slot, r] == round
      {
        if cells[slot, i] != round {
          assert marked.cells[(slot, i)] != marked.round;
          return;
        }
        i := i + 1;
      }
      assert SlotFull(marked, slot);
      completed := true;
      if slot == SLOTS - 1 {
        round := round + 1;
      }
      if !(noSemPost != 0 && epoch <= noSemPost) {
        posts := posts + 1;
      }
      assert View().cells == marked.cells;
    }
  }
}
