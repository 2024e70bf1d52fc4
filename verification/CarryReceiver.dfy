/**
 The sample receiver that asks SafeTimer before it declares a node dead: a node left in the list
 of a checked epoch is declared only if the answer is 1, and is carried over to the next list
 otherwise. Checked epochs increase, as those of the checker thread do, and may skip some; `cursor` is the
 first one that can still be checked.
 */
module CarryReceiver {
  import opened EpochLists

  /** A check carries the set of nodes for which SafeTimer would answer 1. */
  datatype Event = Beat(ip: string, epoch: int) | Check(epoch: int, sure: set<string>)

  datatype State = State(lists: Lists, cursor: int, declared: seq<string>)

  /** The nodes to carry over, appended to a list one by one. */
  function Carried(target: seq<string>, nodes: seq<string>, sure: set<string>): seq<string> {
    if nodes == [] then target
    else
      var rest := Carried(target, nodes[..|nodes| - 1], sure);
      if nodes[|nodes| - 1] in sure then rest else Adjoin(rest, nodes[|nodes| - 1])
  }

  function Declared(nodes: seq<string>, sure: set<string>): seq<string> {
    if nodes == [] then []
    else Declared(nodes[..|nodes| - 1], sure) + if nodes[|nodes| - 1] in sure then [nodes[|nodes| - 1]] else []
  }

  /** Checking epoch e; the next list is only created if a node is carried over. */
  function CheckLists(l: Lists, e: int, sure: set<string>): Lists {
    if e !in l then l
    else
      var next := Carried(ListOf(l, e + 1), l[e], sure);
      if e + 1 in l || next != [] then l[e + 1 := next] - {e} else l - {e}
  }

  function Next(s: State, ev: Event): State {
    match ev
    case Beat(ip, e) => s.(lists := Heartbeat(s.lists, ip, e))
    case Check(e, sure) =>
      if e < s.cursor then s
      else State(CheckLists(s.lists, e, sure), e + 1, s.declared + Declared(ListOf(s.lists, e), sure))
  }

  function Run(s: State, evs: seq<Event>): State {
    if evs == [] then s else Next(Run(s, evs[..|evs| - 1]), evs[|evs| - 1])
  }

  ghost predicate Monitored(s: State, ip: string) {
    exists e :: s.cursor <= e && In(s.lists, e, ip)
  }

  lemma {:induction false} CarriedMembers(target: seq<string>, nodes: seq<string>, sure: set<string>)
    requires NoDup(target)
    ensures NoDup(Carried(target, nodes, sure))
    ensures forall x :: x in Carried(target, nodes, sure) <==> x in target || (x in nodes && x !in sure)
    ensures forall x :: x in Declared(nodes, sure) <==> x in nodes && x in sure
  {
    if nodes != [] {
      var init, last := nodes[..|nodes| - 1], nodes[|nodes| - 1];
      CarriedMembers(target, init, sure);
      AdjoinMembers(Carried(target, init, sure), last);
      assert nodes == init + [last];
    }
  }

  lemma CheckMembers(l: Lists, e: int, sure: set<string>)
    requires NoDups(l)
    ensures NoDups(CheckLists(l, e, sure))
    ensures forall k, x :: In(CheckLists(l, e, sure), k, x) <==>
                           k != e && (In(l, k, x) || (k == e + 1 && In(l, e, x) && x !in sure))
  {
    if e in l {
      CarriedMembers(ListOf(l, e + 1), l[e], sure);
    }
  }

  /** In a list at or above epoch `from`. */
  ghost predicate Listed(s: State, from: int, ip: string) {
    exists e :: from <= e && In(s.lists, e, ip)
  }

  lemma StepKeepsNoDups(s: State, ev: Event)
    requires NoDups(s.lists)
    ensures NoDups(Next(s, ev).lists) && s.declared <= Next(s, ev).declared && s.cursor <= Next(s, ev).cursor
  {
    match ev
    case Beat(x, e) => HeartbeatMembers(s.lists, x, e);
    case Check(e, sure) => CheckMembers(s.lists, e, sure);
  }

  /** Whoever a check finds in its list with the answer 1 is declared, and nobody else. */
  lemma DeclaredExactly(s: State, e: int, sure: set<string>, ip: string)
    requires s.cursor <= e
    ensures ip in Next(s, Check(e, sure)).declared[|s.declared|..] <==> In(s.lists, e, ip) && ip in sure
  {
    CarriedMembers([], ListOf(s.lists, e), sure);
  }

  /**
   Exactly when a check leaves a node monitored: when the node is in a list above the one checked, or in that
   list without the answer 1. Lists below it are out of reach from then on.
   */
  lemma CheckKeepsExactly(s: State, e: int, sure: set<string>, ip: string)
    requires NoDups(s.lists) && s.cursor <= e
    ensures Next(s, Check(e, sure)).cursor == e + 1
    ensures Monitored(Next(s, Check(e, sure)), ip) <==> Listed(s, e + 1, ip) || (In(s.lists, e, ip) && ip !in sure)
  {
    var s' := Next(s, Check(e, sure));
    CheckMembers(s.lists, e, sure);
    if Listed(s, e + 1, ip) {
      var k :| e + 1 <= k && In(s.lists, k, ip);
      assert In(s'.lists, k, ip);
    }
    if In(s.lists, e, ip) && ip !in sure {
      assert In(s'.lists, e + 1, ip);
    }
  }

  /** One event: a node stays in a list at or above `from` unless this very event declares it. */
  lemma StepKeepsListed(s: State, ev: Event, from: int, ip: string)
    requires NoDups(s.lists) && Listed(s, from, ip)
    ensures Listed(Next(s, ev), from, ip) || ip in Next(s, ev).declared[|s.declared|..]
  {
    var k :| from <= k && In(s.lists, k, ip);
    var s' := Next(s, ev);
    match ev {
      case Beat(x, e) =>
        HeartbeatMembers(s.lists, x, e);
        assert In(s'.lists, if x == ip && e == k then k + 1 else k, ip);
      case Check(e, sure) =>
        CheckMembers(s.lists, e, sure);
        if s.cursor <= e {
          DeclaredExactly(s, e, sure, ip);
          assert k != e ==> In(s'.lists, k, ip);
          assert k == e && ip !in sure ==> In(s'.lists, e + 1, ip);
        }
    }
  }

  /** In a list that was at or above the cursor of `s` and has been left behind by that of `r`. */
  ghost predicate Stranded(s: State, r: State, ip: string) {
    exists e :: s.cursor <= e < r.cursor && In(r.lists, e, ip)
  }

  /**
   Monitoring is never lost unnoticed: from any state in which a node is in a list at or above the cursor, over
   every run of heartbeats and checks of increasing epochs, the node is still in such a list, or has been declared
   timed out, or sits in a list that the checks have left behind. No list ever holds a node twice.
   */
  lemma {:induction false} MonitoringNeverLost(s: State, evs: seq<Event>, ip: string)
    requires NoDups(s.lists) && Monitored(s, ip)
    ensures NoDups(Run(s, evs).lists)
    ensures s.declared <= Run(s, evs).declared
    ensures Monitored(Run(s, evs), ip) || ip in Run(s, evs).declared[|s.declared|..] || Stranded(s, Run(s, evs), ip)
  {
    ListedOrDeclared(s, evs, s.cursor, ip);
    var r := Run(s, evs);
    if Listed(r, s.cursor, ip) {
      var e :| s.cursor <= e && In(r.lists, e, ip);
      assert r.cursor <= e ==> Monitored(r, ip);
    }
  }

  lemma {:induction false} ListedOrDeclared(s: State, evs: seq<Event>, from: int, ip: string)
    requires NoDups(s.lists) && Listed(s, from, ip)
    ensures NoDups(Run(s, evs).lists) && s.declared <= Run(s, evs).declared
    ensures Listed(Run(s, evs), from, ip) || ip in Run(s, evs).declared[|s.declared|..]
  {
    if evs != [] {
      var t, ev := Run(s, evs[..|evs| - 1]), evs[|evs| - 1];
      ListedOrDeclared(s, evs[..|evs| - 1], from, ip);
      StepKeepsNoDups(t, ev);
      if Listed(t, from, ip) { StepKeepsListed(t, ev, from, ip); }
      Later(t.declared, Next(t, ev).declared, |s.declared|, ip);
    }
  }

  lemma Later(a: seq<string>, b: seq<string>, n: nat, ip: string)
    requires a <= b && n <= |a|
    ensures ip in a[n..] || ip in b[|a|..] ==> ip in b[n..]
  {
    assert b[n..] == a[n..] + b[|a|..];
  }

  /** Every check is of the epoch after the one checked before. */
  ghost predicate Consecutive(s: State, evs: seq<Event>) {
    evs != [] ==>
      && Consecutive(s, evs[..|evs| - 1])
      && (evs[|evs| - 1].Check? ==> evs[|evs| - 1].epoch == Run(s, evs[..|evs| - 1]).cursor)
  }

  /** As long as no epoch is skipped, a monitored node stays monitored until it is declared. */
  lemma {:induction false} ConsecutiveStrandsNobody(s: State, evs: seq<Event>, ip: string)
    requires NoDups(s.lists) && Monitored(s, ip) && Consecutive(s, evs)
    ensures NoDups(Run(s, evs).lists) && s.declared <= Run(s, evs).declared
    ensures Monitored(Run(s, evs), ip) || ip in Run(s, evs).declared[|s.declared|..]
  {
    if evs != [] {
      var t, ev := Run(s, evs[..|evs| - 1]), evs[|evs| - 1];
      ConsecutiveStrandsNobody(s, evs[..|evs| - 1], ip);
      StepKeepsNoDups(t, ev);
      if Monitored(t, ip) { ConsecutiveStep(t, ev, ip); }
      Later(t.declared, Next(t, ev).declared, |s.declared|, ip);
    }
  }

  lemma ConsecutiveStep(s: State, ev: Event, ip: string)
    requires NoDups(s.lists) && Monitored(s, ip) && (ev.Check? ==> ev.epoch == s.cursor)
    ensures Monitored(Next(s, ev), ip) || ip in Next(s, ev).declared[|s.declared|..]
  {
    assert Listed(s, s.cursor, ip);
    match ev
    case Beat(x, e) => StepKeepsListed(s, ev, s.cursor, ip);
    case Check(e, sure) =>
      CheckKeepsExactly(s, e, sure, ip);
      DeclaredExactly(s, e, sure, ip);
      var k :| s.cursor <= k && In(s.lists, k, ip);
      assert k == e || Listed(s, e + 1, ip);
  }

  /** A node that is not monitored, and sends no heartbeat any more, is never declared, however long it is silent. */
  lemma {:induction false} StrandedIsNeverDeclared(s: State, evs: seq<Event>, ip: string)
    requires NoDups(s.lists) && !Monitored(s, ip)
    requires forall ev | ev in evs && ev.Beat? :: ev.ip != ip
    ensures NoDups(Run(s, evs).lists) && s.declared <= Run(s, evs).declared
    ensures !Monitored(Run(s, evs), ip) && ip !in Run(s, evs).declared[|s.declared|..]
  {
    if evs != [] {
      var t, ev := Run(s, evs[..|evs| - 1]), evs[|evs| - 1];
      assert ev in evs;
      StrandedIsNeverDeclared(s, evs[..|evs| - 1], ip);
      StepKeepsNoDups(t, ev);
      StrandedStep(t, ev, ip);
      assert Next(t, ev).declared[|s.declared|..] == t.declared[|s.declared|..] + Next(t, ev).declared[|t.declared|..];
    }
  }

  lemma StrandedStep(s: State, ev: Event, ip: string)
    requires NoDups(s.lists) && !Monitored(s, ip) && (ev.Beat? ==> ev.ip != ip)
    ensures !Monitored(Next(s, ev), ip) && ip !in Next(s, ev).declared[|s.declared|..]
  {
    match ev
    case Beat(x, e) => HeartbeatMembers(s.lists, x, e);
    case Check(e, sure) =>
      if s.cursor <= e {
        CheckKeepsExactly(s, e, sure, ip);
        DeclaredExactly(s, e, sure, ip);
      }
  }

  /** A check of epoch 7 that skips epoch 6 strands a node that was expected in epoch 6. */
  lemma SkippedEpochStrands(ip: string)
    ensures
      var s := State(map[6 := [ip]], 6, []);
      Monitored(s, ip) && Stranded(s, Next(s, Check(7, {ip})), ip) && !Monitored(Next(s, Check(7, {ip})), ip)
  {
    var s := State(map[6 := [ip]], 6, []);
    assert In(s.lists, 6, ip);
    CheckKeepsExactly(s, 7, {ip}, ip);
    assert In(Next(s, Check(7, {ip})).lists, 6, ip);
  }

  /** A heartbeat at or above the cursor starts the monitoring of its sender. */
  lemma HeartbeatStartsMonitoring(s: State, ip: string, e: int)
    requires NoDups(s.lists) && s.cursor <= e + 1
    ensures Monitored(Next(s, Beat(ip, e)), ip)
  {
    HeartbeatMembers(s.lists, ip, e);
    assert In(Next(s, Beat(ip, e)).lists, e + 1, ip);
  }

  lemma {:induction false} NothingDeclared(s: State, evs: seq<Event>)
    requires forall ev | ev in evs && ev.Check? :: ev.sure == {}
    ensures Run(s, evs).declared == s.declared
  {
    if evs != [] {
      var t, ev := Run(s, evs[..|evs| - 1]), evs[|evs| - 1];
      assert ev in evs;
      NothingDeclared(s, evs[..|evs| - 1]);
      if ev.Check? { NobodySure(ListOf(t.lists, ev.epoch)); }
    }
  }

  /**
   As long as every answer is "not sure", which is all the sample's own request function ever returns, nobody
   is declared, and whoever is monitored stays so unless an epoch is skipped.
   */
  lemma NotSureDeclaresNobody(s: State, evs: seq<Event>, ip: string)
    requires forall ev | ev in evs && ev.Check? :: ev.sure == {}
    ensures Run(s, evs).declared == s.declared
    ensures NoDups(s.lists) && Monitored(s, ip) && Consecutive(s, evs) ==>
              Monitored(Run(s, evs), ip) && NoDups(Run(s, evs).lists)
  {
    NothingDeclared(s, evs);
    if NoDups(s.lists) && Monitored(s, ip) && Consecutive(s, evs) { ConsecutiveStrandsNobody(s, evs, ip); }
  }

  lemma {:induction false} NobodySure(nodes: seq<string>)
    ensures Declared(nodes, {}) == []
  {
    if nodes != [] { NobodySure(nodes[..|nodes| - 1]); }
  }

  /** The check of one epoch with its carry-over branch; `sure` holds the nodes SafeTimer answers 1 for. */
  method ExpirationCheckForEpoch(server: Server, epoch: int, sure: set<string>) returns (declared: seq<string>)
    modifies server
    ensures server.lists == CheckLists(old(server.lists), epoch, sure)
    ensures declared == Declared(ListOf(old(server.lists), epoch), sure)
  {
    declared := [];
    if epoch in server.lists {
      ghost var before := server.lists;
      var nodes := server.lists[epoch];
      ghost var target := ListOf(before, epoch + 1);
      var i := 0;
      while i < |nodes|
        invariant 0 <= i <= |nodes|
        invariant declared == Declared(nodes[..i], sure)
        invariant server.lists ==
                  (if epoch + 1 in before || Carried(target, nodes[..i], sure) != []
                   then before[epoch + 1 := Carried(target, nodes[..i], sure)] else before)
      {
        assert nodes[..i + 1][..i] == nodes[..i];
        var node := nodes[i];
        if node in sure {
          declared := declared + [node];
        } else {
          if epoch + 1 !in server.lists {
            server.lists := server.lists[epoch + 1 := []];
          }
          if node !in server.lists[epoch + 1] {
            server.lists := server.lists[epoch + 1 := server.lists[epoch + 1] + [node]];
          }
        }
        i := i + 1;
      }
      assert nodes[..i] == nodes;
      server.lists := server.lists - {epoch};
    }
  }
}
