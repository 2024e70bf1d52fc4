/**
 The per-epoch node lists of the heartbeat server. The list of epoch e holds the nodes that sent a
 heartbeat for epoch e-1 and are expected to send one for epoch e.
 */
module EpochLists {

  type Lists = map<int, seq<string>>

  predicate In(l: Lists, e: int, ip: string) {
    e in l && ip in l[e]
  }

  ghost predicate NoDup<T>(s: seq<T>) {
    forall i, j | 0 <= i < j < |s| :: s[i] != s[j]
  }

  ghost predicate NoDups(l: Lists) {
    forall e | e in l :: NoDup(l[e])
  }

  function Without<T(==)>(s: seq<T>, ip: T): seq<T> {
    if s == [] then [] else if s[0] == ip then s[1..] else [s[0]] + Without(s[1..], ip)
  }

  function Adjoin<T(==)>(s: seq<T>, ip: T): seq<T> {
    if ip in s then s else s + [ip]
  }

  function ListOf(l: Lists, e: int): seq<string> {
    if e in l then l[e] else []
  }

  /** The node is touched for epoch e and expected for epoch e+1. */
  function Heartbeat(l: Lists, ip: string, e: int): Lists {
    var touched := if e in l then l[e := Without(l[e], ip)] else l;
    touched[e + 1 := Adjoin(ListOf(touched, e + 1), ip)]
  }

  lemma TailNoDup<T>(s: seq<T>)
    requires s != [] && NoDup(s)
    ensures NoDup(s[1..]) && s[0] !in s[1..]
  {
  }

  lemma {:induction false} WithoutMember<T>(s: seq<T>, ip: T, x: T)
    requires NoDup(s)
    ensures x in Without(s, ip) <==> x in s && x != ip
  {
    if s != [] {
      TailNoDup(s);
      assert x in s <==> x == s[0] || x in s[1..];
      if s[0] != ip {
        WithoutMember(s[1..], ip, x);
      }
    }
  }

  lemma ConsNoDup<T>(x: T, s: seq<T>)
    requires NoDup(s) && x !in s
    ensures NoDup([x] + s)
  {
    forall i, j | 0 <= i < j < |[x] + s| ensures ([x] + s)[i] != ([x] + s)[j] {
      assert ([x] + s)[j] == s[j - 1] && s[j - 1] in s;
    }
  }

  lemma {:induction false} WithoutNoDup<T>(s: seq<T>, ip: T)
    requires NoDup(s)
    ensures NoDup(Without(s, ip))
  {
    if s != [] {
      TailNoDup(s);
      if s[0] != ip {
        WithoutNoDup(s[1..], ip);
        WithoutMember(s[1..], ip, s[0]);
        ConsNoDup(s[0], Without(s[1..], ip));
      }
    }
  }

  /** Removing a node removes it and nothing else. */
  lemma WithoutMembers<T>(s: seq<T>, ip: T)
    requires NoDup(s)
    ensures NoDup(Without(s, ip))
    ensures forall x :: x in Without(s, ip) <==> x in s && x != ip
  {
    WithoutNoDup(s, ip);
    forall x ensures x in Without(s, ip) <==> x in s && x != ip {
      WithoutMember(s, ip, x);
    }
  }

  /** The others stay in their order: the first occurrence is cut out of the list. */
  lemma {:induction false} WithoutCuts<T>(s: seq<T>, ip: T, k: nat)
    requires k < |s| && s[k] == ip && ip !in s[..k]
    ensures Without(s, ip) == s[..k] + s[k + 1..]
  {
    if k > 0 {
      assert s[1..][..k - 1] == s[..k][1..] && s[0] == s[..k][0];
      WithoutCuts(s[1..], ip, k - 1);
      assert [s[0]] + (s[1..][..k - 1] + s[1..][k..]) == s[..k] + s[k + 1..];
    }
  }

  lemma WithoutStep<T>(s: seq<T>, ip: T, i: nat)
    requires i < |s| && s[i] != ip
    ensures s[..i] + Without(s[i..], ip) == s[..i + 1] + Without(s[i + 1..], ip)
  {
    assert s[i..][1..] == s[i + 1..];
    assert s[..i + 1] == s[..i] + [s[i]];
  }

  lemma AdjoinMembers<T>(s: seq<T>, ip: T)
    requires NoDup(s)
    ensures NoDup(Adjoin(s, ip))
    ensures forall x :: x in Adjoin(s, ip) <==> x in s || x == ip
    ensures s <= Adjoin(s, ip)
  {
  }

  /** What a heartbeat does to every list: it moves the node from list e to list e+1 and nothing else. */
  lemma HeartbeatMembers(l: Lists, ip: string, e: int)
    requires NoDups(l)
    ensures NoDups(Heartbeat(l, ip, e))
    ensures forall k, x :: In(Heartbeat(l, ip, e), k, x) <==>
                           if x == ip && k == e then false
                           else (x == ip && k == e + 1) || In(l, k, x)
  {
    if e in l { WithoutMembers(l[e], ip); }
    var touched := if e in l then l[e := Without(l[e], ip)] else l;
    AdjoinMembers(ListOf(touched, e + 1), ip);
  }

  class Server {
    var lists: Lists

    constructor ()
      ensures lists == map[]
    {
      lists := map[];
    }

    /** A heartbeat message; a negative epoch makes the server give up and changes nothing. */
    method HandleHeartbeat(saddr: string, stamp: int) returns (ok: bool)
      modifies this
      ensures ok <==> 0 <= stamp
      ensures lists == if ok then Heartbeat(old(lists), saddr, stamp) else old(lists)
    {
      var epoch := stamp;
      if epoch < 0 {
        return false;
      }
      if epoch in lists {
        var rest := RemoveNode(lists[epoch], saddr);
        lists := lists[epoch := rest];
      }
      epoch := epoch + 1;
      if epoch !in lists {
        lists := lists[epoch := []];
      }
      if saddr !in lists[epoch] {
        lists := lists[epoch := lists[epoch] + [saddr]];
      }
      return true;
    }

    /** `list_find` followed by `list_remove`. */
    method RemoveNode(list: seq<string>, ip: string) returns (rest: seq<string>)
      ensures rest == Without(list, ip)
    {
      var i := 0;
      while i < |list| && list[i] != ip
        invariant 0 <= i <= |list| && Without(list, ip) == list[..i] + Without(list[i..], ip)
      {
        WithoutStep(list, ip, i);
        i := i + 1;
      }
      rest := list[..i] + if i < |list| then list[i + 1..] else [];
    }
  }
}
