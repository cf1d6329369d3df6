/**
 * The value-level part of the overlay's membership logic (overlay/overlay.go):
 * nodes, the conversions between the membership map and its wire form, the
 * NETWORK_INFO broadcast and the eviction sweep of `checkAlive`.
 *
 * Go iterates maps in an unspecified order; these definitions visit members
 * in ascending id order, which is one of the orders Go may produce.
 * Times are integers: milliseconds on a clock whose zero is Go's zero
 * `time.Time`.
 */
module Membership {
  import opened Wire
  import opened Rpc
  import opened Ring

  /** A member silent for more than this many milliseconds (10 s) is dead. */
  const Timeout: int := 10_000

  /** Go's zero `time.Time`, the `lastAlive` of a node that was never heard from. */
  const ZeroTime: int := 0

  /** Go's `Node`: an address, an id and the time of the last heartbeat reply. */
  datatype Node = Node(addr: Addr, id: int, lastAlive: int)
  {
    /** `toMember`: the wire form. */
    function ToMember(): Member
    {
      Member(id, addr)
    }
  }

  /** `NodeFrom`: a node built from its wire form has never been heard from. */
  function NodeFrom(m: Member): (n: Node)
    ensures n.ToMember() == m && n.lastAlive == ZeroTime
  {
    Node(m.addr, m.id, ZeroTime)
  }

  /** The wire form keeps everything but the liveness time: rebuilding a node from it resets only that. */
  lemma ToMemberNodeFrom(n: Node)
    ensures NodeFrom(n.ToMember()) == n.(lastAlive := ZeroTime)
  {
  }

  /** Every entry of the membership map is keyed by its node's id. */
  ghost predicate WellKeyed(m: map<int, Node>)
  {
    forall id :: id in m ==> m[id].id == id
  }

  /** No later entry of `ms` has the id of `ms[i]`. */
  ghost predicate LastWithId(ms: seq<Member>, i: int)
    requires 0 <= i < |ms|
  {
    forall j :: i < j < |ms| ==> ms[j].id != ms[i].id
  }

  /** The ids listed in `ms`. */
  function Ids(ms: seq<Member>): set<int>
  {
    set x | x in ms :: x.id
  }

  /**
   * `toMap`: one node per listed member, keyed by its id, each never heard
   * from; a later entry with the same id replaces an earlier one.
   */
  function ToMap(ms: seq<Member>): (m: map<int, Node>)
    ensures ms == [] <==> m == map[]
    ensures ms != [] ==> ms[|ms| - 1].id in m && m[ms[|ms| - 1].id] == NodeFrom(ms[|ms| - 1])
    decreases |ms|
  {
    if ms == [] then map[]
    else
      var last := ms[|ms| - 1];
      ToMap(ms[..|ms| - 1])[last.id := NodeFrom(last)]
  }

  /** `toMap` keeps exactly the listed ids, each keying its own node, never heard from. */
  lemma {:induction false} ToMapKeys(ms: seq<Member>)
    ensures var m := ToMap(ms);
            && m.Keys == Ids(ms)
            && WellKeyed(m)
            && (forall id :: id in m ==> m[id].lastAlive == ZeroTime)
    decreases |ms|
  {
    if ms != [] {
      var init := ms[..|ms| - 1];
      var last := ms[|ms| - 1];
      ToMapKeys(init);
      assert Ids(ms) == Ids(init) + {last.id} by {
        assert forall x :: x in ms <==> x in init || x == last;
      }
    }
  }

  /** For each id, `toMap` holds the node built from the last entry listing it. */
  lemma {:induction false} ToMapLastWins(ms: seq<Member>)
    ensures forall i :: 0 <= i < |ms| && LastWithId(ms, i) ==>
              ms[i].id in ToMap(ms) && ToMap(ms)[ms[i].id] == NodeFrom(ms[i])
    decreases |ms|
  {
    if ms != [] {
      var init := ms[..|ms| - 1];
      var last := ms[|ms| - 1];
      ToMapLastWins(init);
      var m0 := ToMap(init);
      var m := ToMap(ms);
      assert m == m0[last.id := NodeFrom(last)];
      forall i | 0 <= i < |ms| && LastWithId(ms, i)
        ensures ms[i].id in m && m[ms[i].id] == NodeFrom(ms[i])
      {
        if i < |init| {
          assert ms[i] == init[i];
          assert ms[i].id != last.id;
          assert LastWithId(init, i);
        }
      }
    }
  }

  /**
   * `toArray`: the wire form of every node of the map, in ascending id
   * order.
   */
  function ToArray(m: map<int, Node>): (ms: seq<Member>)
    ensures |ms| == |m.Keys|
    decreases m.Keys
  {
    if m.Keys == {} then []
    else
      var k := Least(m.Keys);
      var rest := m - {k};
      assert rest.Keys == m.Keys - {k};
      [m[k].ToMember()] + ToArray(rest)
  }

  /** Ids strictly increase along `ms`; in particular no id is listed twice. */
  ghost predicate Ascending(ms: seq<Member>)
  {
    forall i, j :: 0 <= i < j < |ms| ==> ms[i].id < ms[j].id
  }

  /** Each entry of `toArray(m)` is the wire form of the node its id keys in `m`. */
  lemma {:induction false} ToArrayEntries(m: map<int, Node>)
    requires WellKeyed(m)
    ensures forall x :: x in ToArray(m) ==> x.id in m && x == m[x.id].ToMember()
    decreases m.Keys
  {
    if m.Keys != {} {
      var k := Least(m.Keys);
      var rest := m - {k};
      assert rest.Keys == m.Keys - {k};
      ToArrayEntries(rest);
      assert ToArray(m) == [m[k].ToMember()] + ToArray(rest);
    }
  }

  /** `toArray(m)` lists every node of `m`. */
  lemma {:induction false} ToArrayComplete(m: map<int, Node>)
    ensures forall k :: k in m ==> m[k].ToMember() in ToArray(m)
    decreases m.Keys
  {
    if m.Keys != {} {
      var k := Least(m.Keys);
      var rest := m - {k};
      assert rest.Keys == m.Keys - {k};
      ToArrayComplete(rest);
      var ms := ToArray(m);
      assert ms == [m[k].ToMember()] + ToArray(rest);
      forall k' | k' in m
        ensures m[k'].ToMember() in ms
      {
        if k' != k {
          assert k' in rest;
        }
      }
    }
  }

  /** `toArray(m)` lists ids in ascending order, so no id twice. */
  lemma {:induction false} ToArrayAscending(m: map<int, Node>)
    requires WellKeyed(m)
    ensures Ascending(ToArray(m))
    decreases m.Keys
  {
    if m.Keys != {} {
      var k := Least(m.Keys);
      var rest := m - {k};
      assert rest.Keys == m.Keys - {k};
      ToArrayAscending(rest);
      ToArrayEntries(rest);
      var ms := ToArray(m);
      var tail := ToArray(rest);
      assert ms == [m[k].ToMember()] + tail;
      forall i, j | 0 <= i < j < |ms|
        ensures ms[i].id < ms[j].id
      {
        assert ms[j] == tail[j - 1];
        assert ms[j] in tail;
        if i > 0 { assert ms[i] == tail[i - 1]; }
      }
    }
  }

  /**
   * For a well-keyed map, `toArray` lists exactly the members of the map,
   * each once, in ascending id order.
   */
  lemma ToArraySpec(m: map<int, Node>)
    requires WellKeyed(m)
    ensures var ms := ToArray(m);
            && Ascending(ms)
            && (forall x :: x in ms ==> x.id in m && x == m[x.id].ToMember())
            && (forall k :: k in m ==> m[k].ToMember() in ms)
  {
    ToArrayEntries(m);
    ToArrayComplete(m);
    ToArrayAscending(m);
  }

  /**
   * Round trip: `toMap(toArray(m))` has the same ids and the same address
   * for each id as `m`; only the liveness times are reset.
   */
  lemma ToMapToArray(m: map<int, Node>)
    requires WellKeyed(m)
    ensures var back := ToMap(ToArray(m));
            && back.Keys == m.Keys
            && forall k :: k in m ==> back[k] == NodeFrom(m[k].ToMember())
  {
    ToArrayIds(m);
    ToMapKeys(ToArray(m));
    forall k | k in m
      ensures ToMap(ToArray(m))[k] == NodeFrom(m[k].ToMember())
    {
      ToMapToArrayAt(m, k);
    }
  }

  /** `toArray(m)` lists exactly the ids of `m`. */
  lemma ToArrayIds(m: map<int, Node>)
    requires WellKeyed(m)
    ensures Ids(ToArray(m)) == m.Keys
  {
    var ms := ToArray(m);
    ToArrayEntries(m);
    ToArrayComplete(m);
    forall k | k in m ensures k in Ids(ms) {
      assert m[k].ToMember() in ms;
    }
  }

  lemma ToMapToArrayAt(m: map<int, Node>, k: int)
    requires WellKeyed(m) && k in m
    ensures k in ToMap(ToArray(m)) && ToMap(ToArray(m))[k] == NodeFrom(m[k].ToMember())
  {
    var ms := ToArray(m);
    ToArrayComplete(m);
    ToArrayAscending(m);
    ToMapLastWins(ms);
    var x := m[k].ToMember();
    assert x in ms;
    var i :| 0 <= i < |ms| && ms[i] == x;
    AscendingLast(ms, i);
  }

  lemma AscendingLast(ms: seq<Member>, i: int)
    requires Ascending(ms) && 0 <= i < |ms|
    ensures LastWithId(ms, i)
  {
  }

  /** The members a broadcast from `self` goes to: every listed member but `self`, in list order. */
  function InfoTargets(list: seq<Member>, self: int): (ts: seq<Member>)
    decreases |list|
  {
    if list == [] then []
    else
      var init := InfoTargets(list[..|list| - 1], self);
      var last := list[|list| - 1];
      if last.id != self then init + [last] else init
  }

  /** One INFO packet per target, in order. */
  function Broadcast(ts: seq<Member>, cmd: Cmd, body: Body): seq<Packet>
    decreases |ts|
  {
    if ts == [] then []
    else Broadcast(ts[..|ts| - 1], cmd, body) + [Packet(ts[|ts| - 1].addr, Info(cmd, body))]
  }

  /** A broadcast is one INFO packet per target, in target order, each with the same command and payload. */
  lemma {:induction false} BroadcastPackets(ts: seq<Member>, cmd: Cmd, body: Body)
    ensures var ps := Broadcast(ts, cmd, body);
            && |ps| == |ts|
            && forall i :: 0 <= i < |ts| ==> ps[i] == Packet(ts[i].addr, Info(cmd, body))
    decreases |ts|
  {
    if ts != [] {
      BroadcastPackets(ts[..|ts| - 1], cmd, body);
    }
  }

  /**
   * `BroadcastInfo` reaches exactly the listed members other than `self`:
   * every target is such a member, every such member is a target, and when
   * the list has no repeated id no target is reached twice.
   */
  lemma InfoTargetsSpec(list: seq<Member>, self: int)
    ensures var ts := InfoTargets(list, self);
            && (forall x :: x in ts <==> x in list && x.id != self)
            && (Ascending(list) ==> Ascending(ts))
  {
    InfoTargetsMembers(list, self);
    if Ascending(list) {
      InfoTargetsAscending(list, self);
    }
  }

  lemma {:induction false} InfoTargetsMembers(list: seq<Member>, self: int)
    ensures forall x :: x in InfoTargets(list, self) <==> x in list && x.id != self
    decreases |list|
  {
    if list != [] {
      var init := list[..|list| - 1];
      InfoTargetsMembers(init, self);
      assert forall x :: x in list <==> x in init || x == list[|list| - 1];
    }
  }

  lemma {:induction false} InfoTargetsAscending(list: seq<Member>, self: int)
    requires Ascending(list)
    ensures Ascending(InfoTargets(list, self))
    decreases |list|
  {
    if list != [] {
      var init := list[..|list| - 1];
      var last := list[|list| - 1];
      assert Ascending(init);
      InfoTargetsAscending(init, self);
      InfoTargetsMembers(init, self);
      var ts0 := InfoTargets(init, self);
      if last.id != self {
        assert forall x :: x in ts0 ==> x.id < last.id by {
          forall x | x in ts0 ensures x.id < last.id {
            var i :| 0 <= i < |init| && init[i] == x;
            assert list[i] == x;
          }
        }
        var ts := ts0 + [last];
        forall i, j | 0 <= i < j < |ts|
          ensures ts[i].id < ts[j].id
        {
          assert ts[i] == ts0[i];
          assert ts0[i] in ts0;
          if j < |ts0| { assert ts[j] == ts0[j]; }
        }
      }
    }
  }

  /** Visiting one more listed member adds at most its own INFO packet to a broadcast. */
  lemma BroadcastStep(list: seq<Member>, i: int, self: int, cmd: Cmd, body: Body)
    requires 0 <= i < |list|
    ensures Broadcast(InfoTargets(list[..i + 1], self), cmd, body)
            == Broadcast(InfoTargets(list[..i], self), cmd, body)
               + (if list[i].id != self then [Packet(list[i].addr, Info(cmd, body))] else [])
  {
    assert list[..i + 1][..i] == list[..i];
    var ts := InfoTargets(list[..i], self);
    if list[i].id != self {
      assert InfoTargets(list[..i + 1], self) == ts + [list[i]];
      assert (ts + [list[i]])[..|ts|] == ts;
    }
  }

  /** The NETWORK_INFO packets `NetworkInfo()` sends for this membership. */
  function NetworkInfoPackets(members: map<int, Node>, self: int, coord: Member): seq<Packet>
  {
    var list := ToArray(members);
    Broadcast(InfoTargets(list, self), NETWORK_INFO, NetworkInfo(coord, list))
  }

  /** The state one tick of `checkAlive` updates. */
  datatype Tick = Tick(members: map<int, Node>, table: Table, out: seq<Packet>)

  /** Whether `checkAlive` at time `now` finds `n` dead: not the local node, silent for more than 10 s. */
  predicate Expired(n: Node, self: int, now: int)
  {
    n.id != self && now - n.lastAlive > Timeout
  }

  /**
   * One iteration of the sweep for the listed member `x`: if it is dead it is
   * deleted, sent a LEAVE naming itself with the remaining members, and the
   * remaining members are sent NETWORK_INFO.
   */
  function EvictOne(st: Tick, x: Member, self: int, coord: Member, now: int): (e: Tick)
    ensures e.members.Keys <= st.members.Keys && st.members.Keys - e.members.Keys <= {x.id}
  {
    if x.id in st.members && Expired(st.members[x.id], self, now) then
      var node := st.members[x.id];
      var rest := st.members - {x.id};
      var leave := LeaveRequest(node.ToMember(), ToArray(rest));
      var t := Issue(st.table, LEAVE, leave);
      Tick(rest, t, st.out + [Packet(node.addr, Request(LEAVE, t.counter, leave))]
                           + NetworkInfoPackets(rest, self, coord))
    else st
  }

  /** The sweep over `list`, the members as they were when the tick began. */
  function Evict(st: Tick, list: seq<Member>, self: int, coord: Member, now: int): Tick
    decreases |list|
  {
    if list == [] then st
    else EvictOne(Evict(st, list[..|list| - 1], self, coord, now), list[|list| - 1], self, coord, now)
  }

  /** The dead members among `list`, in list order. */
  function DeadIn(list: seq<Member>, members: map<int, Node>, self: int, now: int): seq<Member>
    decreases |list|
  {
    if list == [] then []
    else
      var init := DeadIn(list[..|list| - 1], members, self, now);
      var x := list[|list| - 1];
      if x.id in members && Expired(members[x.id], self, now) then init + [x] else init
  }

  /** The members named as kicked by the LEAVE requests among `ps`, in order. */
  function Kicked(ps: seq<Packet>): seq<Member>
    decreases |ps|
  {
    if ps == [] then []
    else
      var p := ps[|ps| - 1];
      var init := Kicked(ps[..|ps| - 1]);
      if p.msg.cmd == LEAVE && p.msg.data.LeaveRequest? then init + [p.msg.data.kicked] else init
  }

  lemma {:induction false} KickedAppend(a: seq<Packet>, b: seq<Packet>)
    ensures Kicked(a + b) == Kicked(a) + Kicked(b)
    decreases |b|
  {
    if b == [] {
      assert a + b == a;
    } else {
      var b0 := b[..|b| - 1];
      assert (a + b)[..|a + b| - 1] == a + b0;
      KickedAppend(a, b0);
    }
  }

  lemma {:induction false} KickedBroadcast(ts: seq<Member>, body: Body)
    ensures Kicked(Broadcast(ts, NETWORK_INFO, body)) == []
    decreases |ts|
  {
    if ts != [] {
      var ps := Broadcast(ts, NETWORK_INFO, body);
      assert ps[..|ps| - 1] == Broadcast(ts[..|ts| - 1], NETWORK_INFO, body);
      KickedBroadcast(ts[..|ts| - 1], body);
    }
  }

  /** A LEAVE packet goes to the member it kicks, and the list it carries no longer holds that member. */
  ghost predicate LeaveAddressed(p: Packet)
  {
    p.msg.cmd == LEAVE ==>
      && p.msg.kind == REQUEST
      && p.msg.data.LeaveRequest?
      && p.addr == p.msg.data.kicked.addr
      && p.msg.data.kicked.id !in Ids(p.msg.data.members)
  }

  /** The sweep over one more listed member is one more step. */
  lemma EvictStep(st: Tick, list: seq<Member>, i: int, self: int, coord: Member, now: int)
    requires 0 <= i < |list|
    ensures Evict(st, list[..i + 1], self, coord, now) == EvictOne(Evict(st, list[..i], self, coord, now), list[i], self, coord, now)
  {
    assert list[..i + 1][..i] == list[..i];
  }

  /** Which listed member one sweep step evicts: present, and dead. */
  predicate Evicts(st: Tick, x: Member, self: int, now: int)
  {
    x.id in st.members && Expired(st.members[x.id], self, now)
  }

  /**
   * One sweep step deletes the visited member exactly when it is present and
   * dead, and keeps the map well keyed and the correlation table's invariant.
   */
  lemma EvictOneState(st: Tick, x: Member, self: int, coord: Member, now: int)
    requires WellKeyed(st.members) && Inv(st.table)
    ensures var e := EvictOne(st, x, self, coord, now);
            && e.members == (if Evicts(st, x, self, now) then st.members - {x.id} else st.members)
            && WellKeyed(e.members)
            && Inv(e.table)
  {
    if Evicts(st, x, self, now) {
      var node := st.members[x.id];
      var rest := st.members - {x.id};
      IssueFresh(st.table, LEAVE, LeaveRequest(node.ToMember(), ToArray(rest)));
    }
  }

  /**
   * One sweep step only appends packets; among them is one LEAVE, kicking
   * the visited member, exactly when the step deletes it.
   */
  lemma EvictOneKicks(st: Tick, x: Member, self: int, coord: Member, now: int)
    ensures var e := EvictOne(st, x, self, coord, now);
            && |e.out| >= |st.out| && e.out[..|st.out|] == st.out
            && Kicked(e.out[|st.out|..]) == (if Evicts(st, x, self, now) then [st.members[x.id].ToMember()] else [])
  {
    var e := EvictOne(st, x, self, coord, now);
    if Evicts(st, x, self, now) {
      var node := st.members[x.id];
      var rest := st.members - {x.id};
      var list := ToArray(rest);
      var leave := LeaveRequest(node.ToMember(), list);
      var t := Issue(st.table, LEAVE, leave);
      var lp := Packet(node.addr, Request(LEAVE, t.counter, leave));
      var info := NetworkInfoPackets(rest, self, coord);
      Regroup(st.out, [lp], info);
      Split(st.out, [lp] + info);
      KickedAppend([lp], info);
      assert Kicked([lp]) == [node.ToMember()] by {
        assert [lp][..0] == [];
      }
      KickedBroadcast(InfoTargets(list, self), NetworkInfo(coord, list));
    } else {
      Split(st.out, []);
    }
  }

  /**
   * Every LEAVE a sweep step sends goes to the member it kicks, with a list
   * no longer holding it; when the step evicts, its first packet is that
   * LEAVE, under the number just issued, naming the kicked member and
   * listing exactly the members left after the deletion.
   */
  lemma EvictOneAddressed(st: Tick, x: Member, self: int, coord: Member, now: int)
    requires WellKeyed(st.members)
    ensures var e := EvictOne(st, x, self, coord, now);
            forall i :: |st.out| <= i < |e.out| ==> LeaveAddressed(e.out[i])
    ensures var e := EvictOne(st, x, self, coord, now);
            Evicts(st, x, self, now) ==>
              var kicked := st.members[x.id];
              && |e.out| > |st.out|
              && e.out[|st.out|] == Packet(kicked.addr, Request(LEAVE, e.table.counter,
                                                                LeaveRequest(kicked.ToMember(), ToArray(e.members))))
  {
    var e := EvictOne(st, x, self, coord, now);
    if Evicts(st, x, self, now) {
      var node := st.members[x.id];
      var rest := st.members - {x.id};
      var list := ToArray(rest);
      var leave := LeaveRequest(node.ToMember(), list);
      var t := Issue(st.table, LEAVE, leave);
      var lp := Packet(node.addr, Request(LEAVE, t.counter, leave));
      var info := NetworkInfoPackets(rest, self, coord);
      ToArrayEntries(rest);
      assert x.id !in Ids(list);
      assert LeaveAddressed(lp);
      InfoNotLeave(InfoTargets(list, self), NetworkInfo(coord, list));
      Regroup(st.out, [lp], info);
      AddressedAfter(st.out, [lp] + info);
      assert e.out[|st.out|] == ([lp] + info)[0];
    }
  }

  /** NETWORK_INFO packets are never LEAVE requests. */
  lemma InfoNotLeave(ts: seq<Member>, body: Body)
    ensures forall i :: 0 <= i < |Broadcast(ts, NETWORK_INFO, body)| ==> LeaveAddressed(Broadcast(ts, NETWORK_INFO, body)[i])
  {
    BroadcastPackets(ts, NETWORK_INFO, body);
  }

  lemma AddressedAfter(out: seq<Packet>, sent: seq<Packet>)
    requires |sent| > 0 && LeaveAddressed(sent[0])
    requires forall i :: 0 <= i < |sent[1..]| ==> LeaveAddressed(sent[1..][i])
    ensures forall i :: |out| <= i < |out + sent| ==> LeaveAddressed((out + sent)[i])
  {
    forall i | |out| <= i < |out + sent|
      ensures LeaveAddressed((out + sent)[i])
    {
      if i > |out| {
        assert (out + sent)[i] == sent[1..][i - |out| - 1];
      }
    }
  }

  /**
   * Over any list, the sweep keeps the map well keyed and the table's
   * invariant, only appends packets, and addresses every LEAVE it sends to
   * the member it kicks.
   */
  lemma {:induction false} EvictKeeps(st: Tick, list: seq<Member>, self: int, coord: Member, now: int)
    requires WellKeyed(st.members) && Inv(st.table)
    ensures var e := Evict(st, list, self, coord, now);
            && WellKeyed(e.members)
            && Inv(e.table)
            && |e.out| >= |st.out| && e.out[..|st.out|] == st.out
            && (forall i :: |st.out| <= i < |e.out| ==> LeaveAddressed(e.out[i]))
    decreases |list|
  {
    if list != [] {
      var init := list[..|list| - 1];
      var x := list[|list| - 1];
      EvictKeeps(st, init, self, coord, now);
      var p := Evict(st, init, self, coord, now);
      EvictOneState(p, x, self, coord, now);
      EvictOneKicks(p, x, self, coord, now);
      EvictOneAddressed(p, x, self, coord, now);
      var e := Evict(st, list, self, coord, now);
      assert e == EvictOne(p, x, self, coord, now);
      assert e.out[..|st.out|] == p.out[..|p.out|][..|st.out|];
      forall i | |st.out| <= i < |e.out|
        ensures LeaveAddressed(e.out[i])
      {
        if i < |p.out| { assert e.out[i] == p.out[i]; }
      }
    }
  }

  lemma IdsSnoc(init: seq<Member>, x: Member)
    ensures Ids(init + [x]) == Ids(init) + {x.id}
  {
    assert forall y :: y in init + [x] <==> y in init || y == x;
  }

  /** In an ascending list the last id is not listed before. */
  lemma AscendingLastFresh(list: seq<Member>)
    requires Ascending(list) && list != []
    ensures list[|list| - 1].id !in Ids(list[..|list| - 1])
    ensures Ascending(list[..|list| - 1])
  {
    var init := list[..|list| - 1];
    forall y | y in init
      ensures y.id != list[|list| - 1].id
    {
      var i :| 0 <= i < |init| && init[i] == y;
      assert list[i] == y;
    }
  }

  lemma KickedExtend(a: seq<Packet>, b: seq<Packet>, c: seq<Packet>)
    requires |a| <= |b| <= |c| && c[..|b|] == b && b[..|a|] == a
    ensures Kicked(c[|a|..]) == Kicked(b[|a|..]) + Kicked(c[|b|..])
  {
    assert c[|a|..] == b[|a|..] + c[|b|..];
    KickedAppend(b[|a|..], c[|b|..]);
  }

  /**
   * Over members listed in ascending id order, each with its node's wire
   * form, the sweep deletes exactly the listed members that are dead and
   * leaves every other node as it was.
   */
  lemma {:induction false} EvictMembers(m0: map<int, Node>, list: seq<Member>, t0: Table, out0: seq<Packet>,
                                        self: int, coord: Member, now: int)
    requires WellKeyed(m0) && Inv(t0)
    requires Ascending(list)
    ensures var e := Evict(Tick(m0, t0, out0), list, self, coord, now);
            && (forall k :: k in e.members <==> k in m0 && !(k in Ids(list) && Expired(m0[k], self, now)))
            && (forall k :: k in e.members ==> e.members[k] == m0[k])
    decreases |list|
  {
    var st := Tick(m0, t0, out0);
    if list == [] {
      assert Ids(list) == {};
    } else {
      var init := list[..|list| - 1];
      var x := list[|list| - 1];
      assert list == init + [x];
      AscendingLastFresh(list);
      IdsSnoc(init, x);
      EvictMembers(m0, init, t0, out0, self, coord, now);
      EvictKeeps(st, init, self, coord, now);
      var p := Evict(st, init, self, coord, now);
      EvictOneState(p, x, self, coord, now);
    }
  }

  /**
   * Over members listed in ascending id order, each with its node's wire
   * form, the LEAVE requests of the sweep kick exactly the dead listed
   * members, once each, in list order.
   */
  lemma {:induction false} EvictKicked(m0: map<int, Node>, list: seq<Member>, t0: Table, out0: seq<Packet>,
                                       self: int, coord: Member, now: int)
    requires WellKeyed(m0) && Inv(t0)
    requires Ascending(list)
    requires forall x :: x in list ==> x.id in m0 && x == m0[x.id].ToMember()
    ensures var e := Evict(Tick(m0, t0, out0), list, self, coord, now);
            && |e.out| >= |out0|
            && Kicked(e.out[|out0|..]) == DeadIn(list, m0, self, now)
    decreases |list|
  {
    var st := Tick(m0, t0, out0);
    EvictKeeps(st, list, self, coord, now);
    if list == [] {
      assert Evict(st, list, self, coord, now).out[|out0|..] == [];
    } else {
      var init := list[..|list| - 1];
      var x := list[|list| - 1];
      assert list == init + [x];
      AscendingLastFresh(list);
      EvictKicked(m0, init, t0, out0, self, coord, now);
      EvictMembers(m0, init, t0, out0, self, coord, now);
      EvictKeeps(st, init, self, coord, now);
      var p := Evict(st, init, self, coord, now);
      assert x.id in p.members && p.members[x.id] == m0[x.id];
      var e := EvictOne(p, x, self, coord, now);
      EvictOneKicks(p, x, self, coord, now);
      KickedExtend(out0, p.out, e.out);
    }
  }

  /**
   * One tick of `checkAlive`, visiting `toArray` of the members: it deletes
   * exactly the dead members (never the local node) and leaves every other
   * node as it was; every dead member, and no other, is kicked by a LEAVE.
   */
  lemma CheckAliveEvictsDead(m0: map<int, Node>, t0: Table, out0: seq<Packet>, self: int, coord: Member, now: int)
    requires WellKeyed(m0) && Inv(t0)
    ensures var e := Evict(Tick(m0, t0, out0), ToArray(m0), self, coord, now);
            && (forall k :: k in e.members <==> k in m0 && !Expired(m0[k], self, now))
            && (forall k :: k in e.members ==> e.members[k] == m0[k])
            && (self in m0 ==> self in e.members)
            && |e.out| >= |out0|
            && (forall x :: x in Kicked(e.out[|out0|..]) <==> x.id in m0 && Expired(m0[x.id], self, now) && x == m0[x.id].ToMember())
  {
    var list := ToArray(m0);
    ToArraySpec(m0);
    ToArrayIds(m0);
    EvictMembers(m0, list, t0, out0, self, coord, now);
    EvictKicked(m0, list, t0, out0, self, coord, now);
    forall x
      ensures x in DeadIn(list, m0, self, now) <==> x.id in m0 && Expired(m0[x.id], self, now) && x == m0[x.id].ToMember()
    {
      DeadInSpec(list, m0, self, now, x);
    }
  }

  /** `DeadIn` keeps exactly the listed members whose node is dead. */
  lemma {:induction false} DeadInSpec(list: seq<Member>, m0: map<int, Node>, self: int, now: int, x: Member)
    ensures x in DeadIn(list, m0, self, now) <==> x in list && x.id in m0 && Expired(m0[x.id], self, now)
    decreases |list|
  {
    if list != [] {
      var init := list[..|list| - 1];
      assert forall y :: y in list <==> y in init || y == list[|list| - 1];
      DeadInSpec(init, m0, self, now, x);
    }
  }
}
