/**
 The plain timeout receiver: checking an epoch reports every node left in its list and drops the
 list. A run is a sequence of processed heartbeats and checks, in the order in which the two
 threads obtained the lock.
 */
module PlainReceiver {
  import opened EpochLists

  datatype Event = Beat(ip: string, epoch: int) | Check(epoch: int)

  function Next(l: Lists, ev: Event): Lists {
    match ev
    case Beat(ip, e) => Heartbeat(l, ip, e)
    case Check(e) => l - {e}
  }

  function Run(evs: seq<Event>): Lists {
    if evs == [] then map[] else Next(Run(evs[..|evs| - 1]), evs[|evs| - 1])
  }

  /** The nodes a check of epoch e after the events `evs` reports. */
  function Report(evs: seq<Event>, e: int): seq<string> {
    ListOf(Run(evs), e)
  }

  /** The last event that concerns node ip and list e is its heartbeat for epoch e-1. */
  ghost predicate Watched(evs: seq<Event>, ip: string, e: int) {
    exists i :: 0 <= i < |evs| && evs[i] == Beat(ip, e - 1)
      && forall j | i < j < |evs| :: evs[j] != Beat(ip, e) && evs[j] != Check(e)
  }

  lemma WatchedStep(evs: seq<Event>, ip: string, e: int)
    requires evs != []
    ensures Watched(evs, ip, e) <==>
            var init, ev := evs[..|evs| - 1], evs[|evs| - 1];
            ev == Beat(ip, e - 1) || (Watched(init, ip, e) && ev != Beat(ip, e) && ev != Check(e))
  {
    var init, ev := evs[..|evs| - 1], evs[|evs| - 1];
    if ev == Beat(ip, e - 1) {
      assert evs[|evs| - 1] == Beat(ip, e - 1);
    } else {
      if Watched(evs, ip, e) {
        var i :| 0 <= i < |evs| && evs[i] == Beat(ip, e - 1)
          && forall j | i < j < |evs| :: evs[j] != Beat(ip, e) && evs[j] != Check(e);
        assert init[i] == Beat(ip, e - 1);
      }
      if Watched(init, ip, e) && ev != Beat(ip, e) && ev != Check(e) {
        var i :| 0 <= i < |init| && init[i] == Beat(ip, e - 1)
          && forall j | i < j < |init| :: init[j] != Beat(ip, e) && init[j] != Check(e);
        assert evs[i] == Beat(ip, e - 1);
        forall j | i < j < |evs| ensures evs[j] != Beat(ip, e) && evs[j] != Check(e) {
          if j < |init| { assert init[j] == evs[j]; }
        }
      }
    }
  }

  /** For every run and every list: no list holds a node twice, and its members are the watched nodes. */
  lemma {:induction false} ListsExactly(evs: seq<Event>)
    ensures NoDups(Run(evs))
    ensures forall ip, e :: In(Run(evs), e, ip) <==> Watched(evs, ip, e)
  {
    if evs != [] {
      var init, ev := evs[..|evs| - 1], evs[|evs| - 1];
      ListsExactly(init);
      if ev.Beat? { HeartbeatMembers(Run(init), ev.ip, ev.epoch); }
      forall ip, e ensures In(Run(evs), e, ip) <==> Watched(evs, ip, e) {
        WatchedStep(evs, ip, e);
      }
    }
  }

  ghost predicate Increasing(evs: seq<Event>, ip: string) {
    forall i, j | 0 <= i < j < |evs| && evs[i].Beat? && evs[j].Beat? && evs[i].ip == ip == evs[j].ip ::
      evs[i].epoch < evs[j].epoch
  }

  /** A check of epoch e after `evs` should report the node. */
  ghost predicate ShouldReport(evs: seq<Event>, ip: string, e: int) {
    Beat(ip, e - 1) in evs && Beat(ip, e) !in evs
  }

  /** The heartbeat for e was overtaken: one for e-1 was processed after it, and none for e after that. */
  ghost predicate Overtaken(evs: seq<Event>, ip: string, e: int) {
    exists i, j :: 0 <= i < j < |evs| && evs[i] == Beat(ip, e) && evs[j] == Beat(ip, e - 1)
      && forall k | j < k < |evs| :: evs[k] != Beat(ip, e)
  }

  /** A node is in the report if it should be, or if it was overtaken. */
  lemma ReportedWhen(evs: seq<Event>, e: int, ip: string)
    requires Check(e) !in evs
    ensures ip in Report(evs, e) <==> ShouldReport(evs, ip, e) || Overtaken(evs, ip, e)
  {
    ListsExactly(evs);
    assert ip in Report(evs, e) <==> In(Run(evs), e, ip);
    if ShouldReport(evs, ip, e) {
      var i :| 0 <= i < |evs| && evs[i] == Beat(ip, e - 1);
      assert Watched(evs, ip, e);
    }
    if Watched(evs, ip, e) && !ShouldReport(evs, ip, e) {
      var i :| 0 <= i < |evs| && evs[i] == Beat(ip, e - 1)
        && forall j | i < j < |evs| :: evs[j] != Beat(ip, e) && evs[j] != Check(e);
      assert Beat(ip, e - 1) in evs;
      var j :| 0 <= j < |evs| && evs[j] == Beat(ip, e);
      assert j < i;
    }
  }

  /**
   Exact reports: when epoch e is checked for the first time, the node is reported, once, if and only if its
   heartbeat for e-1 has been processed and its heartbeat for e has not - unless its heartbeat for e was
   overtaken, which is exactly when the report is wrong.
   */
  lemma ReportedExactly(evs: seq<Event>, e: int, ip: string)
    requires Check(e) !in evs
    ensures (ip in Report(evs, e) <==> ShouldReport(evs, ip, e)) <==> !Overtaken(evs, ip, e)
    ensures NoDup(Report(evs, e))
  {
    ListsExactly(evs);
    ReportedWhen(evs, e, ip);
  }

  /** In particular the reports on a node whose heartbeats are processed with strictly increasing epochs are right. */
  lemma OrderedReportIsRight(evs: seq<Event>, e: int, ip: string)
    requires Increasing(evs, ip) && Check(e) !in evs
    ensures ip in Report(evs, e) <==> ShouldReport(evs, ip, e)
  {
    ReportedExactly(evs, e, ip);
  }

  /** Without the order the report can be wrong: here both heartbeats were processed. */
  lemma ReorderedHeartbeatIsReported(ip: string)
    ensures ip in Report([Beat(ip, 5), Beat(ip, 4)], 5)
  {
    var evs := [Beat(ip, 5), Beat(ip, 4)];
    ListsExactly(evs);
    assert evs[1] == Beat(ip, 5 - 1);
    assert Watched(evs, ip, 5);
    assert In(Run(evs), 5, ip);
  }

  /** The check of one epoch, walking its list from the head. */
  method ExpirationCheckForEpoch(server: Server, epoch: int, ghost evs: seq<Event>) returns (reported: seq<string>)
    requires server.lists == Run(evs)
    modifies server
    ensures reported == Report(evs, epoch)
    ensures server.lists == Run(evs + [Check(epoch)])
  {
    assert (evs + [Check(epoch)])[..|evs|] == evs;
    reported := [];
    if epoch in server.lists {
      var list := server.lists[epoch];
      while list != []
        invariant reported + list == old(server.lists)[epoch]
        decreases |list|
      {
        reported := reported + [list[0]];
        list := list[1..];
      }
      server.lists := server.lists - {epoch};
    } else {
      assert server.lists - {epoch} == server.lists;
    }
  }
}
