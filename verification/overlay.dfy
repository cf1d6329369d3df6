/**
 * The overlay node (overlay/overlay.go): its membership view, the
 * coordinator's join handling, the replacement of the view on LEAVE and
 * NETWORK_INFO, the eviction tick of `checkAlive`, local GET/PUT serving and
 * routing of a key through the hash ring.
 *
 * Each action is the body of the Go handler with the payload already
 * decoded. The clock `now` is a parameter. The hash of a key onto the ring
 * is the constant function `keyHash` given at construction.
 */
module Overlay {
  import opened Wire
  import opened Rpc
  import opened Ring
  import opened Membership

  /** The outcome of `GetNodeForKey`. */
  datatype Route =
    | NoMembers                      // empty ring: Go returns nil
    | OwnerNotMember(id: int)        // the ring's owner has no entry in `members`: Go dereferences nil
    | Found(id: int, node: Node)

  /** Where the ring sends the key hashed to `point`, and whether the membership map knows that node. */
  function RouteOf(ring: set<int>, members: map<int, Node>, point: int): (r: Route)
    ensures r.NoMembers? <==> ring == {}
    ensures r.OwnerNotMember? ==> FirstClockwise(ring, point, r.id) && r.id !in members
    ensures r.Found? ==> FirstClockwise(ring, point, r.id) && r.id in members && r.node == members[r.id]
  {
    match Owner(ring, point)
    case None => NoMembers
    case Some(id) => if id in members then Found(id, members[id]) else OwnerNotMember(id)
  }

  /**
   * `checkAlive` deletes a dead member from `members` but leaves its id in the
   * ring, so every key the ring still gives to that id no longer routes to
   * a node.
   */
  lemma EvictedOwnerUnroutable(ring: set<int>, m0: map<int, Node>, t0: Table, out0: seq<Packet>,
                               self: int, coord: Member, now: int, point: int, k: int)
    requires WellKeyed(m0) && Inv(t0)
    requires k in m0 && Expired(m0[k], self, now)
    requires Owner(ring, point) == Some(k)
    ensures var e := Evict(Tick(m0, t0, out0), ToArray(m0), self, coord, now);
            RouteOf(ring, e.members, point) == OwnerNotMember(k)
  {
    CheckAliveEvictsDead(m0, t0, out0, self, coord, now);
  }

  /**
   * The response list `JoinAction` returns holds the joiner and every node
   * the coordinator knew before.
   */
  lemma JoinListComplete(m: map<int, Node>, id: int, addr: Addr, now: int)
    requires WellKeyed(m)
    ensures var list := ToArray(m[id := Node(addr, id, now)]);
            && Member(id, addr) in list
            && (forall k :: k in m && k != id ==> m[k].ToMember() in list)
            && Ascending(list)
  {
    var m' := m[id := Node(addr, id, now)];
    assert WellKeyed(m');
    ToArrayAscending(m');
    ToArrayComplete(m');
    var list := ToArray(m');
    assert m'[id].ToMember() in list;
    forall k | k in m && k != id
      ensures m[k].ToMember() in list
    {
      assert m'[k] == m[k];
    }
  }

  /**
   * The node state the overlay's registered handlers read and update: the
   * world its `RpcHandler` threads through them.
   */
  datatype View = View(me: Node, coordinator: Node, members: map<int, Node>, nextId: int, ring: set<int>, store: map<string, Bytes>)

  /** Id 1 is on the ring, every ring id has been handed out, and the members are keyed by their ids. */
  ghost predicate ViewValid(v: View)
  {
    && 1 in v.ring
    && (forall id :: id in v.ring ==> 1 <= id < v.nextId)
    && WellKeyed(v.members)
  }

  /** The sends of `BroadcastInfo`: one INFO per target, in target order. */
  function InfoSends(ts: seq<Member>, cmd: Cmd, body: Body): (s: seq<Outgoing>)
    ensures |s| == |ts|
    ensures forall k :: 0 <= k < |ts| ==> s[k] == OutInfo(cmd, body, ts[k].addr)
    decreases |ts|
  {
    if ts == [] then []
    else InfoSends(ts[..|ts| - 1], cmd, body) + [OutInfo(cmd, body, ts[|ts| - 1].addr)]
  }

  /** Performing a broadcast's sends issues no number and puts exactly the broadcast's packets on the wire. */
  lemma {:induction false} EmitInfoSends(t: Table, ts: seq<Member>, cmd: Cmd, body: Body)
    ensures Emit(t, InfoSends(ts, cmd, body)) == Emitted(t, Broadcast(ts, cmd, body))
    decreases |ts|
  {
    if ts != [] {
      var init := ts[..|ts| - 1];
      var s := InfoSends(ts, cmd, body);
      assert s[..|s| - 1] == InfoSends(init, cmd, body);
      EmitInfoSends(t, init, cmd, body);
    }
  }

  /**
   * `JoinAction` as the request handler registered for JOIN, at time `now`:
   * on the coordinator, a JOIN naming an address hands out `nextId`, records
   * the joiner as alive now, adds its id to the ring, broadcasts NETWORK_INFO
   * and answers OK; otherwise the view is kept, nothing is sent and the
   * answer is NOT_COORDINATOR.
   */
  function JoinHandler(now: int): Action<View>
  {
    (v: View, b: Body) => JoinOn(v, b, now)
  }

  function JoinOn(v: View, b: Body, now: int): Answered<View>
  {
    if v.coordinator.id == v.me.id && b.JoinRequest? then
      var id := v.nextId;
      var members := v.members[id := Node(b.addr, id, now)];
      var list := ToArray(members);
      var coord := v.coordinator.ToMember();
      Answered(Effect(v.(members := members, nextId := id + 1, ring := v.ring + {id}),
                      InfoSends(InfoTargets(list, v.me.id), NETWORK_INFO, Wire.NetworkInfo(coord, list))),
               JoinResponse(JoinOk, Some(id), coord, list))
    else
      Answered(Effect(v, []), JoinResponse(NotCoordinator, None, v.coordinator.ToMember(), []))
  }

  /**
   * The JOIN handler keeps the view valid. On the coordinator it hands out an
   * id no ring slot held, records the joiner alive at `now`, and answers OK
   * with a list holding the joiner and every member known before; each send
   * is a NETWORK_INFO with that list, to a listed member other than the
   * coordinator itself. Any other node answers NOT_COORDINATOR, naming its
   * coordinator, with the view unchanged and nothing sent.
   */
  lemma JoinHandlerSpec(v: View, addr: Addr, now: int)
    requires ViewValid(v)
    ensures var a := JoinHandler(now)(v, JoinRequest(addr)); var w := a.effect.world;
            && ViewValid(w)
            && (v.coordinator.id == v.me.id ==>
                  && v.nextId !in v.ring && w.ring == v.ring + {v.nextId} && w.nextId == v.nextId + 1
                  && w.members == v.members[v.nextId := Node(addr, v.nextId, now)]
                  && a.reply.JoinResponse? && a.reply.status == JoinOk && a.reply.yourId == Some(v.nextId)
                  && Member(v.nextId, addr) in a.reply.members
                  && (forall k :: k in v.members && k != v.nextId ==> v.members[k].ToMember() in a.reply.members)
                  && (forall o :: o in a.effect.sends ==>
                        && o == OutInfo(NETWORK_INFO, Wire.NetworkInfo(v.coordinator.ToMember(), a.reply.members), o.addr)
                        && exists x :: x in a.reply.members && x.id != v.me.id && x.addr == o.addr))
            && (v.coordinator.id != v.me.id ==>
                  w == v && a.effect.sends == [] && a.reply == JoinResponse(NotCoordinator, None, v.coordinator.ToMember(), []))
  {
    assert JoinHandler(now)(v, JoinRequest(addr)) == JoinOn(v, JoinRequest(addr), now);
    if v.coordinator.id == v.me.id {
      JoinOnCoordinator(v, addr, now);
    }
  }

  lemma JoinOnCoordinator(v: View, addr: Addr, now: int)
    requires ViewValid(v) && v.coordinator.id == v.me.id
    ensures var a := JoinOn(v, JoinRequest(addr), now); var w := a.effect.world;
            && ViewValid(w)
            && v.nextId !in v.ring && w.ring == v.ring + {v.nextId} && w.nextId == v.nextId + 1
            && w.members == v.members[v.nextId := Node(addr, v.nextId, now)]
            && a.reply.JoinResponse? && a.reply.status == JoinOk && a.reply.yourId == Some(v.nextId)
            && Member(v.nextId, addr) in a.reply.members
            && (forall k :: k in v.members && k != v.nextId ==> v.members[k].ToMember() in a.reply.members)
            && (forall o :: o in a.effect.sends ==>
                  && o == OutInfo(NETWORK_INFO, Wire.NetworkInfo(v.coordinator.ToMember(), a.reply.members), o.addr)
                  && exists x :: x in a.reply.members && x.id != v.me.id && x.addr == o.addr)
  {
    var list := ToArray(v.members[v.nextId := Node(addr, v.nextId, now)]);
    var coord := v.coordinator.ToMember();
    JoinOnShape(v, addr, now);
    JoinListComplete(v.members, v.nextId, addr, now);
    InfoSendsReach(list, v.me.id, NETWORK_INFO, Wire.NetworkInfo(coord, list));
  }

  /** The coordinator's answer to a JOIN, spelled out. */
  lemma JoinOnShape(v: View, addr: Addr, now: int)
    requires ViewValid(v) && v.coordinator.id == v.me.id
    ensures var members := v.members[v.nextId := Node(addr, v.nextId, now)];
            var list := ToArray(members);
            var coord := v.coordinator.ToMember();
            var a := JoinOn(v, JoinRequest(addr), now);
            && a.effect.world == v.(members := members, nextId := v.nextId + 1, ring := v.ring + {v.nextId})
            && ViewValid(a.effect.world) && v.nextId !in v.ring
            && a.effect.sends == InfoSends(InfoTargets(list, v.me.id), NETWORK_INFO, Wire.NetworkInfo(coord, list))
            && a.reply == JoinResponse(JoinOk, Some(v.nextId), coord, list)
  {
    var members := v.members[v.nextId := Node(addr, v.nextId, now)];
    assert WellKeyed(members);
  }

  /** Each send of a broadcast over `list` is that INFO, to a listed member other than `self`. */
  lemma InfoSendsReach(list: seq<Member>, self: int, cmd: Cmd, body: Body)
    ensures forall o :: o in InfoSends(InfoTargets(list, self), cmd, body) ==>
              && o == OutInfo(cmd, body, o.addr)
              && exists x :: x in list && x.id != self && x.addr == o.addr
  {
    var ts := InfoTargets(list, self);
    var sends := InfoSends(ts, cmd, body);
    InfoTargetsSpec(list, self);
    forall o | o in sends
      ensures o == OutInfo(cmd, body, o.addr)
      ensures exists x :: x in list && x.id != self && x.addr == o.addr
    {
      var k :| 0 <= k < |sends| && sends[k] == o;
      assert ts[k] in ts;
    }
  }

  class Overlay {
    const router: Router
    const rpc: RpcHandler<View>
    /** The overlay's view of the local store: key to value. */
    var store: map<string, Bytes>
    var me: Node
    var coordinator: Node
    /** The ids held by the consistent-hash ring. */
    var ring: set<int>
    var members: map<int, Node>
    var nextId: int
    const keyHash: string -> int

    ghost predicate Valid()
      reads this, rpc
    {
      && rpc.Valid()
      && ViewValid(ViewOf())
    }

    /** The fields the registered handlers read and update. */
    function ViewOf(): View
      reads this
    {
      View(me, coordinator, members, nextId, ring, store)
    }

    /** A JOIN request to the coordinator, naming the local address, went out with a fresh seqn. */
    ghost predicate JoinSent(t0: Table, out0: seq<Packet>)
      reads this, rpc, router
    {
      && rpc.Tbl() == Issue(t0, JOIN, JoinRequest(me.addr))
      && router.out == out0 + [Packet(coordinator.addr, Request(JOIN, rpc.counter, JoinRequest(me.addr)))]
    }

    /**
     * `New`: the local node has id 1, the coordinator is known only by its
     * address (id 0), no members, the ring holds id 1 and the next id to
     * hand out is 2.
     */
    constructor (r: Router, s: map<string, Bytes>, laddr: Addr, caddr: Addr, keyHash: string -> int)
      ensures Valid()
      ensures router == r && fresh(rpc) && store == s && this.keyHash == keyHash
      ensures me == Node(laddr, 1, ZeroTime) && coordinator == Node(caddr, 0, ZeroTime)
      ensures members == map[] && ring == {1} && nextId == 2
      ensures rpc.Tbl() == Table(0, map[], map[])
    {
      router := r;
      rpc := new RpcHandler<View>();
      store := s;
      me := Node(laddr, 1, ZeroTime);
      coordinator := Node(caddr, 0, ZeroTime);
      members := map[];
      ring := {1};
      nextId := 2;
      this.keyHash := keyHash;
    }

    /**
     * `Start` after registering the handlers: a node whose coordinator
     * address is its own (Go compares the two addresses by identity, given here
     * as `sameAddr`) becomes the coordinator and its own only member;
     * any other node asks the coordinator to join.
     */
    method Start(sameAddr: bool)
      requires Valid()
      modifies this`coordinator, this`members, rpc`counter, rpc`reqs, router
      ensures Valid()
      ensures sameAddr ==> && coordinator == me && members == old(members)[me.id := me]
                           && rpc.Tbl() == old(rpc.Tbl()) && router.out == old(router.out)
      ensures !sameAddr ==> && coordinator == old(coordinator) && members == old(members)
                            && JoinSent(old(rpc.Tbl()), old(router.out))
    {
      if !sameAddr {
        Join();
      } else {
        coordinator := me;
        members := members[me.id := me];
      }
    }

    /** `New` followed by the bootstrap branch of `Start`: a single-node overlay. */
    static method NewCoordinator(r: Router, s: map<string, Bytes>, addr: Addr, keyHash: string -> int)
      returns (o: Overlay)
      modifies r
      ensures fresh(o) && fresh(o.rpc) && o.Valid()
      ensures o.me == Node(addr, 1, ZeroTime) && o.coordinator == o.me
      ensures o.members == map[1 := o.me] && o.ring == {1} && o.nextId == 2
    {
      o := new Overlay(r, s, addr, addr, keyHash);
      o.Start(true);
    }

    /** `Join`: send a JOIN naming the local address to the coordinator. */
    method Join()
      requires Valid()
      modifies rpc`counter, rpc`reqs, router
      ensures Valid()
      ensures JoinSent(old(rpc.Tbl()), old(router.out))
    {
      var n := rpc.Send(JOIN, JoinRequest(me.addr), coordinator.addr, router);
    }

    /**
     * The closure of `Join` applied to the JOIN response: the coordinator is
     * replaced by the one named in the response; on OK the local id becomes
     * the assigned one and a non-empty member list replaces `members`; on
     * NOT_COORDINATOR the node joins again, now at the named coordinator.
     * The ring is left as it was.
     */
    method OnJoinResponse(resp: Body)
      requires Valid() && resp.JoinResponse?
      modifies this`coordinator, this`members, this`me, rpc`counter, rpc`reqs, router
      ensures Valid()
      ensures coordinator == NodeFrom(resp.coordinator)
      ensures resp.status == JoinOk ==>
                && members == (if resp.members == [] then old(members) else ToMap(resp.members))
                && me == old(me).(id := OrZero(resp.yourId))
                && rpc.Tbl() == old(rpc.Tbl()) && router.out == old(router.out)
      ensures resp.status == NotCoordinator ==>
                && members == old(members) && me == old(me)
                && JoinSent(old(rpc.Tbl()), old(router.out))
    {
      coordinator := NodeFrom(resp.coordinator);
      match resp.status
      case JoinOk =>
        if resp.members != [] {
          members := ToMap(resp.members);
          ToMapKeys(resp.members);
        }
        me := me.(id := OrZero(resp.yourId));
      case NotCoordinator =>
        Join();
    }

    /**
     * `JoinAction` for a JOIN from `addr` at time `now`. The coordinator
     * hands out the next id, records the joiner as alive now, adds the id to
     * the ring, broadcasts NETWORK_INFO and answers OK with the id, itself
     * and the new member list. Any other node answers NOT_COORDINATOR,
     * naming the coordinator it knows, and changes nothing.
     */
    method JoinAction(addr: Addr, now: int) returns (resp: Body)
      requires Valid()
      modifies this`members, this`nextId, this`ring, router
      ensures Valid()
      ensures coordinator.id == me.id ==>
                && nextId == old(nextId) + 1
                && old(nextId) !in old(ring)
                && members == old(members)[old(nextId) := Node(addr, old(nextId), now)]
                && ring == old(ring) + {old(nextId)}
                && resp == JoinResponse(JoinOk, Some(old(nextId)), coordinator.ToMember(), ToArray(members))
                && router.out == old(router.out) + NetworkInfoPackets(members, me.id, coordinator.ToMember())
      ensures coordinator.id != me.id ==>
                && resp == JoinResponse(NotCoordinator, None, coordinator.ToMember(), [])
                && members == old(members) && nextId == old(nextId) && ring == old(ring)
                && router.out == old(router.out)
      ensures var a := JoinOn(View(me, coordinator, old(members), old(nextId), old(ring), store), JoinRequest(addr), now);
              && View(me, coordinator, members, nextId, ring, store) == a.effect.world && resp == a.reply
              && router.out == old(router.out) + Emit(rpc.Tbl(), a.effect.sends).out
    {
      ghost var v0 := View(me, coordinator, members, nextId, ring, store);
      if coordinator.id == me.id {
        var id := nextId;
        nextId := nextId + 1;
        var node := Node(addr, id, now);
        members := members[id := node];
        resp := JoinResponse(JoinOk, Some(node.id), coordinator.ToMember(), ToArray(members));
        ring := ring + {node.id};
        NetworkInfo();
        ghost var a := JoinOn(v0, JoinRequest(addr), now);
        ghost var sends := InfoSends(InfoTargets(ToArray(members), me.id), NETWORK_INFO, Wire.NetworkInfo(coordinator.ToMember(), ToArray(members)));
        assert a.effect.world == ViewOf() && ViewValid(ViewOf()) && a.reply == resp && a.effect.sends == sends by {
          JoinOnShape(v0, addr, now);
        }
        EmitInfoSends(rpc.Tbl(), InfoTargets(ToArray(members), me.id), NETWORK_INFO, Wire.NetworkInfo(coordinator.ToMember(), ToArray(members)));
      } else {
        resp := JoinResponse(NotCoordinator, None, coordinator.ToMember(), []);
      }
    }

    /**
     * `LeaveAction`: the view is replaced by the list in the request; the
     * node joins again exactly when it is the one kicked out.
     */
    method LeaveAction(kicked: Member, list: seq<Member>) returns (resp: Body)
      requires Valid()
      modifies this`members, rpc`counter, rpc`reqs, router
      ensures Valid()
      ensures members == ToMap(list) && resp == LeaveResponse
      ensures kicked.id == me.id ==> JoinSent(old(rpc.Tbl()), old(router.out))
      ensures kicked.id != me.id ==> rpc.Tbl() == old(rpc.Tbl()) && router.out == old(router.out)
    {
      members := ToMap(list);
      ToMapKeys(list);
      if kicked.id == me.id {
        Join();
      }
      resp := LeaveResponse;
    }

    /** `NetworkInfoAction`: the view and the coordinator are replaced by the ones received. */
    method NetworkInfoAction(coord: Member, list: seq<Member>)
      requires Valid()
      modifies this`members, this`coordinator
      ensures Valid()
      ensures members == ToMap(list) && coordinator == NodeFrom(coord)
    {
      members := ToMap(list);
      ToMapKeys(list);
      coordinator := NodeFrom(coord);
    }

    /** `GetAction`: the local store's value for `key`, whatever the ring says; `subKey` is ignored. */
    method GetAction(key: string, subKey: string) returns (resp: Body)
      ensures resp.GetResponse?
      ensures key in store <==> resp.getStatus == GetOk
      ensures key in store ==> resp.found == Some(store[key])
      ensures key !in store ==> resp.found == None
    {
      if key !in store {
        return GetResponse(GetNotFound, None);
      }
      resp := GetResponse(GetOk, Some(store[key]));
    }

    /** `PutAction`: the value is stored locally under `key`; `subKey` is ignored. */
    method PutAction(key: string, subKey: string, value: Bytes) returns (resp: Body)
      modifies this`store
      ensures store == old(store)[key := value]
      ensures resp == PutResponse(None)
    {
      store := store[key := value];
      resp := PutResponse(None);
    }

    /** `NetworkInfo`: broadcast the coordinator and the member list. */
    method NetworkInfo()
      modifies router
      ensures router.out == old(router.out) + NetworkInfoPackets(members, me.id, coordinator.ToMember())
    {
      var list := ToArray(members);
      BroadcastInfo(NETWORK_INFO, Wire.NetworkInfo(coordinator.ToMember(), list));
    }

    method BroadcastInfo(cmd: Cmd, body: Body)
      modifies router
      ensures router.out == old(router.out) + Broadcast(InfoTargets(ToArray(members), me.id), cmd, body)
    {
      var list := ToArray(members);
      ghost var out0 := router.out;
      ghost var sent: seq<Packet> := [];
      var i := 0;
      while i < |list|
        invariant 0 <= i <= |list|
        invariant sent == Broadcast(InfoTargets(list[..i], me.id), cmd, body)
        invariant router.out == out0 + sent
      {
        BroadcastStep(list, i, me.id, cmd, body);
        ghost var one := if list[i].id != me.id then [Packet(list[i].addr, Info(cmd, body))] else [];
        InfoTo(list[i], cmd, body);
        Regroup(out0, sent, one);
        sent := sent + one;
        i := i + 1;
      }
      assert list[..i] == list;
    }

    /** The body of the `BroadcastInfo` loop for the member `m`. */
    method InfoTo(m: Member, cmd: Cmd, body: Body)
      modifies router
      ensures router.out == old(router.out) + (if m.id != me.id then [Packet(m.addr, Info(cmd, body))] else [])
    {
      if m.id != me.id {
        rpc.SendInfo(cmd, body, m.addr, router);
      }
    }

    /** `Leave`: send `n` a LEAVE naming it, with the current member list. */
    method Leave(n: Node)
      requires Valid()
      modifies rpc`counter, rpc`reqs, router
      ensures Valid()
      ensures var leave := LeaveRequest(n.ToMember(), ToArray(members));
              && rpc.Tbl() == Issue(old(rpc.Tbl()), LEAVE, leave)
              && router.out == old(router.out) + [Packet(n.addr, Request(LEAVE, rpc.counter, leave))]
    {
      var seqn := rpc.Send(LEAVE, LeaveRequest(n.ToMember(), ToArray(members)), n.addr, router);
    }

    /**
     * One tick of `checkAlive` at time `now`: the sweep `Evict` over the
     * members as listed when the tick starts. The ring is not touched.
     */
    method CheckAlive(now: int)
      requires Valid()
      modifies this`members, rpc`counter, rpc`reqs, router
      ensures Valid()
      ensures Tick(members, rpc.Tbl(), router.out)
              == Evict(old(Tick(members, rpc.Tbl(), router.out)), old(ToArray(members)), me.id, coordinator.ToMember(), now)
      ensures ring == old(ring)
    {
      var list := ToArray(members);
      ghost var st0 := Tick(members, rpc.Tbl(), router.out);
      ToArrayEntries(members);
      ToArrayAscending(members);
      var i := 0;
      while i < |list|
        invariant 0 <= i <= |list|
        invariant rpc.Valid() && WellKeyed(members)
        invariant Tick(members, rpc.Tbl(), router.out) == Evict(st0, list[..i], me.id, coordinator.ToMember(), now)
        invariant forall j :: i <= j < |list| ==> list[j].id in members
      {
        EvictStep(st0, list, i, me.id, coordinator.ToMember(), now);
        Sweep(list[i], now);
        i := i + 1;
      }
      assert list[..i] == list;
    }

    /** The body of the `checkAlive` loop for the member `x`. */
    method Sweep(x: Member, now: int)
      requires Valid() && x.id in members
      modifies this`members, rpc`counter, rpc`reqs, router
      ensures Valid()
      ensures Tick(members, rpc.Tbl(), router.out)
              == EvictOne(old(Tick(members, rpc.Tbl(), router.out)), x, me.id, coordinator.ToMember(), now)
      ensures members == old(members) - {x.id} || members == old(members)
    {
      var n := members[x.id];
      if x.id != me.id && now - n.lastAlive > Timeout {
        members := members - {n.id};
        Leave(n);
        NetworkInfo();
      }
    }

    /**
     * `GetNodeForKey`: the node the ring gives `key` to, the first id clockwise
     * from the key's hash, looked up in `members`.
     */
    function GetNodeForKey(key: string): (r: Route)
      reads this
      ensures r.NoMembers? <==> ring == {}
      ensures r.Found? ==> FirstClockwise(ring, keyHash(key), r.id) && r.id in members && r.node == members[r.id]
      ensures r.OwnerNotMember? ==> FirstClockwise(ring, keyHash(key), r.id) && r.id !in members
    {
      RouteOf(ring, members, keyHash(key))
    }
  }
}
