/**
 Naming, truncating and grouping network connections (tools/network.go:263-319).

 The collected and filtered connections, the process names and the map iteration order are inputs;
 sorting is taken to give a sorted permutation.
 */
module Connections {
  import opened MapOrder
  import opened Sequences

  /** `details` stands for the fields that pass through unchanged. */
  datatype Connection = Connection(pid: Pid, processName: string, details: string)

  datatype Group = Group(pid: Pid, processName: string, connections: seq<Connection>)

  function NameOf(names: map<Pid, string>, pid: Pid): string {
    if pid in names then names[pid] else ""
  }

  /** Connections are collected without a process name and named from the table. */
  function Named(conns: seq<Connection>, names: map<Pid, string>): (r: seq<Connection>)
    ensures |r| == |conns|
    ensures forall i :: 0 <= i < |r| ==> r[i].pid == conns[i].pid && r[i].details == conns[i].details
  {
    seq(|conns|, i requires 0 <= i < |conns| =>
      if conns[i].pid in names then conns[i].(processName := names[conns[i].pid]) else conns[i])
  }

  /** max_connections; zero and negative mean no limit. */
  function Limited(conns: seq<Connection>, maxConnections: int): (r: seq<Connection>)
    ensures r <= conns && |r| == if 0 < maxConnections < |conns| then maxConnections else |conns|
  {
    if maxConnections > 0 && |conns| > maxConnections then conns[..maxConnections] else conns
  }

  /** The connections of one process, in list order. */
  function OfPid(conns: seq<Connection>, pid: Pid): seq<Connection> {
    if conns == [] then []
    else
      var n := |conns| - 1;
      OfPid(conns[..n], pid) + if conns[n].pid == pid then [conns[n]] else []
  }

  /** The connections of one process at their positions in the list, each once and in order. */
  ghost predicate OfPidAt(part: seq<Connection>, conns: seq<Connection>, pid: Pid, idx: seq<nat>) {
    && Increasing(idx, |conns|) && |idx| == |part|
    && (forall k :: 0 <= k < |idx| ==> part[k] == conns[idx[k]])
    && forall i: nat :: i < |conns| ==> (i in idx <==> conns[i].pid == pid)
  }

  ghost predicate InListOrder(part: seq<Connection>, conns: seq<Connection>, pid: Pid) {
    exists idx :: OfPidAt(part, conns, pid, idx)
  }

  lemma OfPidInOrder(conns: seq<Connection>, pid: Pid)
    ensures InListOrder(OfPid(conns, pid), conns, pid)
  {
    var idx := OfPidPicked(conns, pid);
  }

  lemma {:induction false} OfPidPicked(conns: seq<Connection>, pid: Pid) returns (idx: seq<nat>)
    ensures OfPidAt(OfPid(conns, pid), conns, pid, idx)
  {
    idx := [];
    if conns != [] {
      var n := |conns| - 1;
      var before := OfPidPicked(conns[..n], pid);
      idx := Grow(before, n, conns[n].pid == pid);
      assert n !in before;
      forall i: nat | i < |conns| ensures i in idx <==> conns[i].pid == pid {
        if i < n {
          assert conns[..n][i] == conns[i];
        }
      }
    }
  }

  ghost function Pids(conns: seq<Connection>): set<Pid> {
    set c | c in conns :: c.pid
  }

  /** The groups in map iteration order. */
  function GroupsIn(conns: seq<Connection>, names: map<Pid, string>, order: seq<Pid>): seq<Group> {
    seq(|order|, i requires 0 <= i < |order| => Group(order[i], NameOf(names, order[i]), OfPid(conns, order[i])))
  }

  /** The grouping loops, before sorting; `order` is the order in which the map is ranged over. */
  method BuildGroups(conns: seq<Connection>, names: map<Pid, string>, order: seq<Pid>) returns (groups: seq<Group>)
    requires Enumerates(order, Pids(conns))
    ensures groups == GroupsIn(conns, names, order)
    ensures |groups| == |order|
    ensures forall i :: 0 <= i < |groups| ==>
              && groups[i].pid == order[i]
              && groups[i].processName == (if order[i] in names then names[order[i]] else "")
              && InListOrder(groups[i].connections, conns, order[i])
  {
    var pidGroups: map<Pid, seq<Connection>> := map[];
    for i := 0 to |conns|
      invariant forall p :: p in pidGroups <==> p in Pids(conns[..i])
      invariant forall p :: p in pidGroups ==> pidGroups[p] == OfPid(conns[..i], p)
    {
      var conn := conns[i];
      assert conns[..i + 1] == conns[..i] + [conn];
      OfPidStep(conns, i);
      var before := if conn.pid in pidGroups then pidGroups[conn.pid] else [];
      pidGroups := pidGroups[conn.pid := before + [conn]];
    }
    assert conns[..|conns|] == conns;
    groups := [];
    for i := 0 to |order|
      invariant groups == GroupsIn(conns, names, order[..i])
    {
      var pid: Pid := order[i];
      assert pid in order;
      groups := groups + [Group(pid, NameOf(names, pid), pidGroups[pid])];
    }
    assert order[..|order|] == order;
    forall i | 0 <= i < |groups| ensures InListOrder(groups[i].connections, conns, order[i]) {
      assert groups[i].connections == OfPid(conns, order[i]);
      OfPidInOrder(conns, order[i]);
    }
  }

  lemma OfPidStep(conns: seq<Connection>, i: nat)
    requires i < |conns|
    ensures forall p :: OfPid(conns[..i + 1], p) == OfPid(conns[..i], p) + if conns[i].pid == p then [conns[i]] else []
    ensures conns[i].pid !in Pids(conns[..i]) ==> OfPid(conns[..i], conns[i].pid) == []
  {
    assert conns[..i + 1][..i] == conns[..i];
    OfPidEmpty(conns[..i], conns[i].pid);
  }

  lemma {:induction false} OfPidEmpty(conns: seq<Connection>, pid: Pid)
    ensures OfPid(conns, pid) == [] <==> pid !in Pids(conns)
  {
    if conns != [] {
      var n := |conns| - 1;
      assert conns == conns[..n] + [conns[n]];
      assert conns[n] in conns;
      OfPidEmpty(conns[..n], pid);
      assert Pids(conns) == Pids(conns[..n]) + {conns[n].pid};
    }
  }

  /** What sort.Slice leaves of the groups built in some order. */
  ghost predicate SortedGroups(groups: seq<Group>, conns: seq<Connection>, names: map<Pid, string>, order: seq<Pid>) {
    && Enumerates(order, Pids(conns))
    && multiset(groups) == multiset(GroupsIn(conns, names, order))
    && forall i, j :: 0 <= i < j < |groups| ==> groups[i].pid <= groups[j].pid
  }

  lemma {:induction false} OfPidMember(conns: seq<Connection>, pid: Pid, c: Connection)
    ensures multiset(OfPid(conns, pid))[c] == if c.pid == pid then multiset(conns)[c] else 0
  {
    if conns != [] {
      var n := |conns| - 1;
      assert conns == conns[..n] + [conns[n]];
      OfPidMember(conns[..n], pid, c);
    }
  }

  /** Each group is determined by its pid. */
  lemma GroupForm(groups: seq<Group>, conns: seq<Connection>, names: map<Pid, string>, order: seq<Pid>, g: Group)
    requires SortedGroups(groups, conns, names, order)
    ensures g in groups <==> g.pid in Pids(conns) && g == Group(g.pid, NameOf(names, g.pid), OfPid(conns, g.pid))
  {
    var built := GroupsIn(conns, names, order);
    assert g in groups <==> g in multiset(groups);
    assert g in built <==> g in multiset(built);
    if g in built {
      var i :| 0 <= i < |built| && built[i] == g;
      assert order[i] in order;
    }
    if g.pid in Pids(conns) && g == Group(g.pid, NameOf(names, g.pid), OfPid(conns, g.pid)) {
      assert g.pid in order;
      var i :| 0 <= i < |order| && order[i] == g.pid;
      assert built[i] == g;
    }
  }

  lemma {:induction false} Twice(groups: seq<Group>, i: nat, j: nat)
    requires i < j < |groups| && groups[i] == groups[j]
    ensures multiset(groups)[groups[i]] >= 2
  {
    assert groups == groups[..i] + [groups[i]] + groups[i + 1..j] + [groups[j]] + groups[j + 1..];
  }

  lemma {:induction false} BuiltOnce(conns: seq<Connection>, names: map<Pid, string>, order: seq<Pid>, g: Group)
    requires Distinct(order)
    ensures multiset(GroupsIn(conns, names, order))[g] <= 1
    ensures g.pid !in order ==> multiset(GroupsIn(conns, names, order))[g] == 0
  {
    if order != [] {
      var n := |order| - 1;
      var last: Pid := order[n];
      BuiltOnce(conns, names, order[..n], g);
      assert GroupsIn(conns, names, order)
          == GroupsIn(conns, names, order[..n]) + [Group(last, NameOf(names, last), OfPid(conns, last))];
      assert last in order && last !in order[..n];
      assert order == order[..n] + [last];
    }
  }

  /**
   Groups are strictly increasing by PID, nonempty, and hold exactly the connections of their process in
   list order.
   */
  lemma GroupsPartition(groups: seq<Group>, conns: seq<Connection>, names: map<Pid, string>, order: seq<Pid>)
    requires SortedGroups(groups, conns, names, order)
    ensures forall i, j :: 0 <= i < j < |groups| ==> groups[i].pid < groups[j].pid
    ensures forall i :: 0 <= i < |groups| ==>
              groups[i].connections != [] && groups[i].connections == OfPid(conns, groups[i].pid)
    ensures forall i :: 0 <= i < |groups| ==> InListOrder(groups[i].connections, conns, groups[i].pid)
    ensures forall c :: c in conns ==> exists i :: 0 <= i < |groups| && c in groups[i].connections
  {
    forall i, j | 0 <= i < j < |groups| ensures groups[i].pid < groups[j].pid {
      GroupForm(groups, conns, names, order, groups[i]);
      GroupForm(groups, conns, names, order, groups[j]);
      if groups[i].pid == groups[j].pid {
        Twice(groups, i, j);
        BuiltOnce(conns, names, order, groups[i]);
      }
    }
    forall i | 0 <= i < |groups|
      ensures groups[i].connections != [] && groups[i].connections == OfPid(conns, groups[i].pid)
      ensures InListOrder(groups[i].connections, conns, groups[i].pid)
    {
      OfPidInOrder(conns, groups[i].pid);
      GroupForm(groups, conns, names, order, groups[i]);
      OfPidEmpty(conns, groups[i].pid);
    }
    forall c | c in conns ensures exists i :: 0 <= i < |groups| && c in groups[i].connections {
      var g := Group(c.pid, NameOf(names, c.pid), OfPid(conns, c.pid));
      GroupForm(groups, conns, names, order, g);
      var i :| 0 <= i < |groups| && groups[i] == g;
      OfPidMember(conns, c.pid, c);
      assert c in multiset(conns);
      assert c in multiset(g.connections);
    }
  }

  /** All connections of all groups. */
  ghost function Union(groups: seq<Group>): multiset<Connection> {
    if groups == [] then multiset{} else Union(groups[..|groups| - 1]) + multiset(groups[|groups| - 1].connections)
  }

  lemma {:induction false} UnionCount(groups: seq<Group>, conns: seq<Connection>, c: Connection)
    requires forall i, j :: 0 <= i < j < |groups| ==> groups[i].pid < groups[j].pid
    requires forall i :: 0 <= i < |groups| ==> groups[i].connections == OfPid(conns, groups[i].pid)
    ensures Union(groups)[c]
            == if exists i :: 0 <= i < |groups| && groups[i].pid == c.pid then multiset(conns)[c] else 0
  {
    if groups != [] {
      var n := |groups| - 1;
      UnionCount(groups[..n], conns, c);
      OfPidMember(conns, groups[n].pid, c);
      if i :| 0 <= i < |groups| && groups[i].pid == c.pid {
        assert i == n || groups[..n][i].pid == c.pid;
      }
    }
  }

  /** Together the groups hold every connection exactly as often as the list does. */
  lemma GroupsConserve(groups: seq<Group>, conns: seq<Connection>, names: map<Pid, string>, order: seq<Pid>)
    requires SortedGroups(groups, conns, names, order)
    ensures Union(groups) == multiset(conns)
  {
    GroupsPartition(groups, conns, names, order);
    forall c: Connection ensures Union(groups)[c] == multiset(conns)[c] {
      UnionCount(groups, conns, c);
      if c in conns {
        var g := Group(c.pid, NameOf(names, c.pid), OfPid(conns, c.pid));
        GroupForm(groups, conns, names, order, g);
        var i :| 0 <= i < |groups| && groups[i] == g;
      } else {
        assert c !in multiset(conns);
      }
    }
  }

  /** The groups do not depend on the map iteration order. */
  lemma {:induction false} SortUnique(a: seq<Group>, b: seq<Group>)
    requires forall i, j :: 0 <= i < j < |a| ==> a[i].pid < a[j].pid
    requires forall i, j :: 0 <= i < j < |b| ==> b[i].pid < b[j].pid
    requires forall g :: g in a <==> g in b
    ensures a == b
    decreases |a|
  {
    if b != [] {
      assert b[0] in b;
    }
    if a != [] {
      assert a[0] in b;
      assert a[0] == b[0];
      forall g ensures g in a[1..] <==> g in b[1..] {
        assert g in a[1..] <==> g in a && g != a[0];
        assert g in b[1..] <==> g in b && g != b[0];
      }
      SortUnique(a[1..], b[1..]);
    }
  }

  lemma GroupsOrderIndependent(a: seq<Group>, b: seq<Group>, conns: seq<Connection>, names: map<Pid, string>,
                               order1: seq<Pid>, order2: seq<Pid>)
    requires SortedGroups(a, conns, names, order1) && SortedGroups(b, conns, names, order2)
    ensures a == b
  {
    GroupsPartition(a, conns, names, order1);
    GroupsPartition(b, conns, names, order2);
    forall g ensures g in a <==> g in b {
      GroupForm(a, conns, names, order1, g);
      GroupForm(b, conns, names, order2, g);
    }
    SortUnique(a, b);
  }

  /** Every member of a group carries the group's PID and process name. */
  lemma MembersAgree(groups: seq<Group>, raw: seq<Connection>, names: map<Pid, string>, maxConnections: int,
                     order: seq<Pid>, i: nat, c: Connection)
    requires forall r :: r in raw ==> r.processName == ""
    requires SortedGroups(groups, Limited(Named(raw, names), maxConnections), names, order)
    requires i < |groups| && c in groups[i].connections
    ensures c.pid == groups[i].pid && c.processName == groups[i].processName
  {
    var conns := Limited(Named(raw, names), maxConnections);
    GroupForm(groups, conns, names, order, groups[i]);
    OfPidMember(conns, groups[i].pid, c);
    assert c in multiset(groups[i].connections);
    assert c in multiset(conns);
    var k :| 0 <= k < |conns| && conns[k] == c;
    assert Named(raw, names)[k] == c;
    assert raw[k] in raw;
  }
}
