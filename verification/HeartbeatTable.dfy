/**
 The two-level table of the receiver: application id, then node address, then the time at which
 the last heartbeat of that node was processed. The first heartbeat only creates the entry, with
 the value 0.
 */
module HeartbeatTable {
  import opened Common

  type Table = map<int, map<string, int>>

  datatype Beat = Beat(app: int, node: string, time: int)

  function Lookup(t: Table, app: int, node: string): Option<int> {
    if app in t && node in t[app] then Some(t[app][node]) else None
  }

  function Record(t: Table, b: Beat): Table {
    var nodes := if b.app in t then t[b.app] else map[];
    t[b.app := nodes[b.node := if b.node in nodes then b.time else 0]]
  }

  /** 1 if it is sure that the node failed since `start`, 0 if it is not. */
  function Check(t: Table, app: int, node: string, start: int): int {
    match Lookup(t, app, node)
    case None => 0
    case Some(time) => if time < start then 1 else 0
  }

  // ----- what the table remembers of a log of processed heartbeats -----

  function TableOf(log: seq<Beat>): Table {
    if log == [] then map[] else Record(TableOf(log[..|log| - 1]), log[|log| - 1])
  }

  /** The processing times of one node's heartbeats, oldest first. */
  function Times(log: seq<Beat>, app: int, node: string): seq<int> {
    if log == [] then []
    else
      var b := log[|log| - 1];
      Times(log[..|log| - 1], app, node) + if b.app == app && b.node == node then [b.time] else []
  }

  /** The table keeps 0 after the first heartbeat of a node and the time of the last one afterwards. */
  lemma {:induction false} TableHoldsLast(log: seq<Beat>, app: int, node: string)
    ensures
      var ts := Times(log, app, node);
      Lookup(TableOf(log), app, node) ==
        if ts == [] then None else if |ts| == 1 then Some(0) else Some(ts[|ts| - 1])
  {
    if log != [] {
      TableHoldsLast(log[..|log| - 1], app, node);
    }
  }

  /**
   The answer of `safetimer_check` for every log: 1 exactly when the node is known and either sent
   one heartbeat only (and `start` is positive) or its last heartbeat was processed before `start`.
   */
  lemma CheckExactly(log: seq<Beat>, app: int, node: string, start: int)
    ensures
      var ts := Times(log, app, node);
      Check(TableOf(log), app, node, start) ==
        if ts != [] && (if |ts| == 1 then 0 < start else ts[|ts| - 1] < start) then 1 else 0
  {
    TableHoldsLast(log, app, node);
  }

  class NodeTable {
    var appNodes: Table
    ghost var log: seq<Beat>  // the heartbeats recorded so far

    ghost predicate Valid()
      reads this
    {
      appNodes == TableOf(log)
    }

    constructor ()
      ensures Valid() && log == []
    {
      appNodes, log := map[], [];
    }

    method ReceiveHeartbeat(appId: int, nodeIp: string, state: int)
      requires Valid()
      modifies this
      ensures Valid() && log == old(log) + [Beat(appId, nodeIp, state)]
    {
      if appId !in appNodes {
        appNodes := appNodes[appId := map[]];
      }
      var nodeStates := appNodes[appId];
      if nodeIp !in nodeStates {
        nodeStates := nodeStates[nodeIp := 0];
      } else if nodeStates[nodeIp] != state {
        nodeStates := nodeStates[nodeIp := state];
      }
      appNodes := appNodes[appId := nodeStates];
      assert nodeStates == Record(old(appNodes), Beat(appId, nodeIp, state))[appId];
      log := log + [Beat(appId, nodeIp, state)];
      assert log[..|log| - 1] == old(log);
    }

    method SafetimerCheck(appId: int, nodeIp: string, start: int) returns (answer: int)
      requires Valid()
      ensures answer == Check(appNodes, appId, nodeIp, start)
      ensures answer == 1 <==>
              var ts := Times(log, appId, nodeIp);
              ts != [] && (if |ts| == 1 then 0 < start else ts[|ts| - 1] < start)
    {
      CheckExactly(log, appId, nodeIp, start);
      if appId !in appNodes {
        return 0;
      }
      var nodeStates := appNodes[appId];
      if nodeIp !in nodeStates {
        return 0;
      }
      if nodeStates[nodeIp] < start {
        return 1;
      }
      return 0;
    }
  }
}
