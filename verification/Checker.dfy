/**
 The expiration checker thread as a state machine over an explicit clock. It reads the clock,
 sleeps until the current epoch ends, checks it, and goes on checking as long as further epochs
 have ended meanwhile; then it reads the clock again. Sleeps may last longer than asked, not shorter.
 */
module Checker {
  import opened EpochTime

  datatype Pc =
    | Outer                          // about to read the clock for a new round
    | Measured(epoch: int)           // about to compute how long to sleep
    | Asleep(epoch: int, until: int)
    | Due(epoch: int)                // about to check the epoch
    | Done(epoch: int)               // about to read the clock again after a check

  /** One step of the thread at time `now`. The step from `Due(e)` is the check of epoch e. */
  function Go(g: Grid, pc: Pc, now: int): Pc {
    match pc
    case Outer => Measured(TimeToEpoch(g, now))
    case Measured(e) =>
      var timeout := EpochToTime(g, e);
      if timeout - now > 0 then Asleep(e, now + (timeout - now)) else Due(e)
    case Asleep(e, until) => if until <= now then Due(e) else pc
    case Due(e) => Done(e)
    case Done(e) => if e + 1 < TimeToEpoch(g, now) then Due(e + 1) else Outer
  }

  datatype Check = Check(epoch: int, time: int)

  datatype State = State(
    now: int,
    pc: Pc,
    log: seq<Check>,    // the checks made
    burst: nat,         // where the current inner loop began in the log
    caughtUp: int)      // the clock reading that ended the last inner loop

  datatype Event = Tick(d: nat) | Step

  function Next(g: Grid, s: State, ev: Event): State {
    match ev
    case Tick(d) => s.(now := s.now + d)
    case Step =>
      var s' := s.(pc := Go(g, s.pc, s.now));
      match s.pc
      case Outer => s'.(burst := |s.log|)
      case Due(e) => s'.(log := s.log + [Check(e, s.now)])
      case Done(_) => if s'.pc == Outer then s'.(caughtUp := s.now) else s'
      case _ => s'
  }

  function Run(g: Grid, evs: seq<Event>): State {
    if evs == [] then State(g.base, Outer, [], 0, g.base) else Next(g, Run(g, evs[..|evs| - 1]), evs[|evs| - 1])
  }

  ghost predicate Below(log: seq<Check>, e: int) {
    forall k | 0 <= k < |log| :: log[k].epoch < e
  }

  ghost predicate Inv(g: Grid, s: State) {
    && g.base <= s.now && s.burst <= |s.log|
    && (forall k | 0 <= k < |s.log| :: EpochToTime(g, s.log[k].epoch) <= s.log[k].time <= s.now)
    && (forall j, k | 0 <= j < k < |s.log| :: s.log[j].epoch < s.log[k].epoch)
    && (forall k | s.burst < k < |s.log| :: s.log[k].epoch == s.log[k - 1].epoch + 1)
    && g.base <= s.caughtUp <= s.now
    && match s.pc
       case Outer => s.log != [] ==> s.burst < |s.log| && s.log[|s.log| - 1].epoch + 1 == TimeToEpoch(g, s.caughtUp)
       case Measured(e) => s.burst == |s.log| && Below(s.log, e)
       case Asleep(e, until) => s.burst == |s.log| && Below(s.log, e) && until == EpochToTime(g, e)
       case Due(e) => Below(s.log, e) && EpochToTime(g, e) <= s.now
                      && (s.burst < |s.log| ==> e == s.log[|s.log| - 1].epoch + 1)
       case Done(e) => s.burst < |s.log| && s.log[|s.log| - 1].epoch == e
  }

  lemma OuterKeeps(g: Grid, s: State)
    requires 0 < g.interval && Inv(g, s) && s.pc.Outer?
    ensures Inv(g, Next(g, s, Step))
  {
    var e := TimeToEpoch(g, s.now);
    forall k | 0 <= k < |s.log| ensures s.log[k].epoch < e {
      EndedExactly(g, s.now, s.log[k].epoch);
    }
    assert Below(s.log, e);
  }

  lemma DueKeeps(g: Grid, s: State)
    requires Inv(g, s) && s.pc.Due?
    ensures Inv(g, Next(g, s, Step))
  {
    var log, log' := s.log, Next(g, s, Step).log;
    assert log' == log + [Check(s.pc.epoch, s.now)];
  }

  lemma DoneKeeps(g: Grid, s: State)
    requires 0 < g.interval && Inv(g, s) && s.pc.Done?
    ensures Inv(g, Next(g, s, Step))
  {
    EndedExactly(g, s.now, s.pc.epoch);
    EndedExactly(g, s.now, s.pc.epoch + 1);
    assert Below(s.log, s.pc.epoch + 1);
  }

  lemma StepKeeps(g: Grid, s: State, ev: Event)
    requires 0 < g.interval && Inv(g, s)
    ensures Inv(g, Next(g, s, ev))
  {
    if ev.Step? {
      match s.pc
      case Outer => OuterKeeps(g, s);
      case Due(_) => DueKeeps(g, s);
      case Done(_) => DoneKeeps(g, s);
      case _ =>
    }
  }

  lemma {:induction false} InvHolds(g: Grid, evs: seq<Event>)
    requires 0 < g.interval
    ensures Inv(g, Run(g, evs))
  {
    if evs != [] {
      InvHolds(g, evs[..|evs| - 1]);
      StepKeeps(g, Run(g, evs[..|evs| - 1]), evs[|evs| - 1]);
    }
  }

  /** Over every run: no epoch is checked before it has ended. */
  lemma NeverTooEarly(g: Grid, evs: seq<Event>, k: nat)
    requires 0 < g.interval && k < |Run(g, evs).log|
    ensures EpochToTime(g, Run(g, evs).log[k].epoch) <= Run(g, evs).log[k].time
  {
    InvHolds(g, evs);
  }

  /** Over every run: the checked epochs are strictly increasing, so no epoch is checked twice. */
  lemma StrictlyIncreasing(g: Grid, evs: seq<Event>, j: nat, k: nat)
    requires 0 < g.interval && j < k < |Run(g, evs).log|
    ensures Run(g, evs).log[j].epoch < Run(g, evs).log[k].epoch
  {
    InvHolds(g, evs);
  }

  /**
   Over every run: an inner loop checks consecutive epochs, and when it ends the last epoch checked
   is the last one that had ended at its last clock reading.
   */
  lemma BurstIsConsecutive(g: Grid, evs: seq<Event>)
    requires 0 < g.interval
    ensures
      var s := Run(g, evs);
      && (forall k | s.burst < k < |s.log| :: s.log[k].epoch == s.log[k - 1].epoch + 1)
      && (s.pc == Outer && s.log != [] ==>
            forall e :: e <= s.log[|s.log| - 1].epoch <==> EpochToTime(g, e) <= s.caughtUp)
  {
    InvHolds(g, evs);
    var s := Run(g, evs);
    if s.pc == Outer && s.log != [] {
      forall e ensures e <= s.log[|s.log| - 1].epoch <==> EpochToTime(g, e) <= s.caughtUp {
        EndedExactly(g, s.caughtUp, e);
      }
    }
  }

  /**
   Across rounds the checked epochs need not be consecutive: a new round continues with the next
   epoch if and only if no epoch ended between the last clock reading of the old round and the
   first one of the new round.
   */
  lemma NextRoundExactly(g: Grid, evs: seq<Event>)
    requires 0 < g.interval && Run(g, evs).pc == Outer && Run(g, evs).log != []
    ensures
      var s := Run(g, evs);
      Next(g, s, Step).pc == Measured(s.log[|s.log| - 1].epoch + 1) <==>
        forall e :: EpochToTime(g, e) <= s.now ==> EpochToTime(g, e) <= s.caughtUp
  {
    InvHolds(g, evs);
    var s := Run(g, evs);
    var next := TimeToEpoch(g, s.now);
    EpochIsMonotone(g, s.caughtUp, s.now);
    forall e ensures EpochToTime(g, e) <= s.now <==> e < next {
      EndedExactly(g, s.now, e);
    }
    forall e ensures EpochToTime(g, e) <= s.caughtUp <==> e < TimeToEpoch(g, s.caughtUp) {
      EndedExactly(g, s.caughtUp, e);
    }
    if forall e :: EpochToTime(g, e) <= s.now ==> EpochToTime(g, e) <= s.caughtUp {
      assert EpochToTime(g, next - 1) <= s.caughtUp;
    }
  }

  /** A delay between two rounds makes the checker skip epoch 2 for good. */
  lemma AnEpochCanBeSkipped()
    ensures
      var g := Grid(0, 1000);
      var evs := [Step, Step, Tick(1000), Step, Step, Step, Tick(1000), Step];
      && Run(g, evs).log == [Check(1, 1000)]
      && Run(g, evs).pc == Measured(3)
  {
    var g := Grid(0, 1000);
    var evs := [Step, Step, Tick(1000), Step, Step, Step, Tick(1000), Step];
    assert Run(g, evs[..0]) == State(0, Outer, [], 0, 0);
    Prefix(g, evs, 0); Prefix(g, evs, 1); Prefix(g, evs, 2); Prefix(g, evs, 3);
    Prefix(g, evs, 4); Prefix(g, evs, 5); Prefix(g, evs, 6); Prefix(g, evs, 7);
    assert evs[..8] == evs;
  }

  lemma Prefix(g: Grid, evs: seq<Event>, k: nat)
    requires k < |evs|
    ensures Run(g, evs[..k + 1]) == Next(g, Run(g, evs[..k]), evs[k])
  {
    assert evs[..k + 1][..k] == evs[..k];
  }
}
