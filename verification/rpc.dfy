/**
 * The RPC correlation layer of the overlay (overlay/rpc.go): it turns a
 * packet transport into request/response/info messaging.
 *
 * A reply channel is modelled as a one-shot slot named by the request's
 * sequence number: `Send` returns that number, and `handleResponse` fills
 * `slots[n]`. The transport is the outbound packet log of a `Router`.
 */
module Rpc {
  import opened Wire

  /**
   * A packet a handler sends while it runs: a REQUEST through `Send`, which
   * issues a sequence number, or an INFO through `SendInfo`.
   */
  datatype Outgoing =
    | OutRequest(cmd: Cmd, body: Body, addr: Addr)
    | OutInfo(cmd: Cmd, body: Body, addr: Addr)

  /**
   * What a handler does to the state `W` it closes over (the overlay's view,
   * its id counter, its store) and the packets it sends, in order.
   */
  datatype Effect<W> = Effect(world: W, sends: seq<Outgoing>)

  /** A request handler's effect and the reply payload it returns. */
  datatype Answered<W> = Answered(effect: Effect<W>, reply: Body)

  /** A request handler (`func([]byte) proto.Message`), given the state it closes over. */
  type Action<!W> = (W, Body) -> Answered<W>

  /** An info handler (`func([]byte)`), given the state it closes over. */
  type InfoAction<!W> = (W, Body) -> Effect<W>

  /** The outbound side of the UDP router: every packet handed to `Send`, in order. */
  class Router {
    var out: seq<Packet>

    constructor ()
      ensures out == []
    {
      out := [];
    }

    method Send(p: Packet)
      modifies this
      ensures out == old(out) + [p]
    {
      out := out + [p];
    }
  }

  /**
   * The correlation state of one handler: the counter `seq` (here `counter`), the pending
   * table `reqs` (sequence number to the outbound request) and the reply
   * slots that responses have filled.
   */
  datatype Table = Table(counter: int, reqs: map<int, Msg>, slots: map<int, Body>)

  /** The handler tables, keyed by command. */
  datatype Handlers<!W> = Handlers(action: map<Cmd, Action<W>>, info: map<Cmd, InfoAction<W>>)

  /**
   * Every pending or answered sequence number was issued (lies in 1..counter),
   * a pending entry is the REQUEST that was sent under that number, and no
   * number is both pending and answered.
   */
  ghost predicate Inv(t: Table)
  {
    && t.counter >= 0
    && (forall n :: n in t.reqs ==> 1 <= n <= t.counter && t.reqs[n] == Request(t.reqs[n].cmd, n, t.reqs[n].data))
    && (forall n :: n in t.slots ==> 1 <= n <= t.counter)
    && t.reqs.Keys !! t.slots.Keys
  }

  /** The REQUEST message `Send` builds. */
  function Request(cmd: Cmd, n: int, body: Body): Msg
  {
    Msg(cmd, REQUEST, Some(n), body)
  }

  /** The INFO message `SendInfo` builds: no sequence number. */
  function Info(cmd: Cmd, body: Body): Msg
  {
    Msg(cmd, INFO, None, body)
  }

  /** The table after `Send`: one more number issued and pending. */
  function Issue(t: Table, cmd: Cmd, body: Body): Table
  {
    t.(counter := t.counter + 1, reqs := t.reqs[t.counter + 1 := Request(cmd, t.counter + 1, body)])
  }

  /** Sending keeps the invariant and the number it issues was never used before. */
  lemma IssueFresh(t: Table, cmd: Cmd, body: Body)
    requires Inv(t)
    ensures Inv(Issue(t, cmd, body))
    ensures t.counter + 1 !in t.reqs && t.counter + 1 !in t.slots
    ensures Issue(t, cmd, body).reqs - {t.counter + 1} == t.reqs
  {
  }

  /** Issued numbers strictly increase: two sends in a row get n and n + 1. */
  lemma IssueIncreases(t: Table, c1: Cmd, b1: Body, c2: Cmd, b2: Body)
    requires Inv(t)
    ensures var t1 := Issue(t, c1, b1); var t2 := Issue(t1, c2, b2);
            t1.counter == t.counter + 1 && t2.counter == t1.counter + 1 && t1.counter in t2.reqs && t2.counter !in t1.reqs
  {
    IssueFresh(t, c1, b1);
    IssueFresh(Issue(t, c1, b1), c2, b2);
  }

  /** The table and the outbound packets after some sends. */
  datatype Emitted = Emitted(t: Table, out: seq<Packet>)

  /** One more send: a REQUEST issues the next number and is pending; an INFO carries no number. */
  function EmitOne(e: Emitted, o: Outgoing): Emitted
  {
    match o
    case OutRequest(cmd, body, addr) =>
      var t := Issue(e.t, cmd, body);
      Emitted(t, e.out + [Packet(addr, Request(cmd, t.counter, body))])
    case OutInfo(cmd, body, addr) =>
      Emitted(e.t, e.out + [Packet(addr, Info(cmd, body))])
  }

  /** A handler's sends, made in order through `Send` and `SendInfo` while it runs. */
  function Emit(t: Table, sends: seq<Outgoing>): Emitted
    decreases |sends|
  {
    if sends == [] then Emitted(t, [])
    else EmitOne(Emit(t, sends[..|sends| - 1]), sends[|sends| - 1])
  }

  /** `p` is the packet that puts send `o` on the wire: same address, command and payload, and its type. */
  ghost predicate Carries(p: Packet, o: Outgoing)
  {
    && p.addr == o.addr && p.msg.cmd == o.cmd && p.msg.data == o.body
    && (if o.OutRequest? then p.msg.kind == REQUEST && p.msg.seqn.Some? else p.msg == Info(o.cmd, o.body))
  }

  /**
   * The packets are the sends, one each and in order; each REQUEST carries a
   * number these sends issued (above the old counter, at most the new one).
   */
  lemma {:induction false} EmitPackets(t: Table, sends: seq<Outgoing>)
    ensures var e := Emit(t, sends);
            && |e.out| == |sends|
            && t.counter <= e.t.counter
            && forall k :: 0 <= k < |sends| ==>
                 Carries(e.out[k], sends[k]) &&
                 (sends[k].OutRequest? ==> t.counter < SeqnOf(e.out[k].msg) <= e.t.counter)
    decreases |sends|
  {
    if sends != [] {
      var init := sends[..|sends| - 1];
      EmitPackets(t, init);
      var e0 := Emit(t, init);
      var e := Emit(t, sends);
      forall k | 0 <= k < |sends|
        ensures Carries(e.out[k], sends[k])
        ensures sends[k].OutRequest? ==> t.counter < SeqnOf(e.out[k].msg) <= e.t.counter
      {
        if k < |init| {
          assert e.out[k] == e0.out[k];
          assert sends[k] == init[k];
        }
      }
    }
  }

  /**
   * How handling may change a table: the invariant holds, the counter never
   * goes down, every pending entry was pending before or issued since, an
   * answer is never overwritten, a new answer is for a number that was
   * pending before or issued since, and no such number is lost (it is still
   * pending or answered).
   */
  ghost predicate Evolves(t: Table, u: Table)
  {
    && Inv(u)
    && t.counter <= u.counter
    && (forall n :: n in u.reqs ==> n in t.reqs || t.counter < n <= u.counter)
    && (forall n :: n in t.slots ==> n in u.slots && u.slots[n] == t.slots[n])
    && (forall n :: n in u.slots && n !in t.slots ==> n in t.reqs || t.counter < n <= u.counter)
    && (forall n :: n in t.reqs || t.counter < n <= u.counter ==> n in u.reqs || n in u.slots)
  }

  lemma EvolvesRefl(t: Table)
    requires Inv(t)
    ensures Evolves(t, t)
  {
  }

  lemma EvolvesTrans(t: Table, u: Table, v: Table)
    requires Evolves(t, u) && Evolves(u, v)
    ensures Evolves(t, v)
  {
  }

  /** A send evolves the table: its number is pending. */
  lemma IssueEvolves(t: Table, cmd: Cmd, body: Body)
    requires Inv(t)
    ensures Evolves(t, Issue(t, cmd, body))
  {
    IssueFresh(t, cmd, body);
  }

  /** The table after a response for a pending number: the entry is consumed into its slot. */
  function Answer(t: Table, n: int, data: Body): Table
  {
    t.(reqs := t.reqs - {n}, slots := t.slots[n := data])
  }

  /** Answering a pending number evolves the table. */
  lemma AnswerEvolves(t: Table, n: int, data: Body)
    requires Inv(t) && n in t.reqs
    ensures Evolves(t, Answer(t, n, data))
  {
  }

  /** A handler's sends evolve the table and leave the answers alone. */
  lemma {:induction false} EmitEvolves(t: Table, sends: seq<Outgoing>)
    requires Inv(t)
    ensures Evolves(t, Emit(t, sends).t) && Emit(t, sends).t.slots == t.slots
    decreases |sends|
  {
    if sends == [] {
      EvolvesRefl(t);
    } else {
      var e0 := Emit(t, sends[..|sends| - 1]);
      EmitEvolves(t, sends[..|sends| - 1]);
      if sends[|sends| - 1].OutRequest? {
        var o := sends[|sends| - 1];
        IssueEvolves(e0.t, o.cmd, o.body);
        EvolvesTrans(t, e0.t, Issue(e0.t, o.cmd, o.body));
      }
    }
  }

  /** Why the receive loop stopped. */
  datatype Stop =
    | Drained   // every packet was handled
    | Blocked   // a RESPONSE for a number that is not pending: the send on a nil channel never returns
    | Panicked  // a REQUEST or INFO for a command with no handler: calling a nil func

  /** The effect of handling some inbound packets: the handlers' state, the table, the packets sent. */
  datatype Step<W> = Step(world: W, t: Table, out: seq<Packet>, stop: Stop)

  /** The reply `handleRequest` sends: the same message, typed RESPONSE, carrying the action's result. */
  function Reply(p: Packet, body: Body): Packet
  {
    Packet(p.addr, p.msg.(kind := RESPONSE, data := body))
  }

  /**
   * Handling one inbound packet, dispatched on its type. A request handler's
   * sends go out before its reply, as they are made while it runs.
   */
  function Deliver<W>(h: Handlers<W>, w: W, t: Table, p: Packet): (s: Step<W>)
    ensures s.stop != Drained ==> s == Step(w, t, [], s.stop)
    ensures p.msg.kind != REQUEST && p.msg.kind != INFO ==> s.world == w && s.out == []
  {
    match p.msg.kind
    case REQUEST =>
      if p.msg.cmd in h.action then
        var a := h.action[p.msg.cmd](w, p.msg.data);
        var e := Emit(t, a.effect.sends);
        Step(a.effect.world, e.t, e.out + [Reply(p, a.reply)], Drained)
      else Step(w, t, [], Panicked)
    case RESPONSE =>
      var n := SeqnOf(p.msg);
      if n in t.reqs then Step(w, Answer(t, n, p.msg.data), [], Drained)
      else Step(w, t, [], Blocked)
    case INFO =>
      if p.msg.cmd in h.info then
        var f := h.info[p.msg.cmd](w, p.msg.data);
        var e := Emit(t, f.sends);
        Step(f.world, e.t, e.out, Drained)
      else Step(w, t, [], Panicked)
    case OtherType(_) => Step(w, t, [], Drained)
  }

  /** Continue from `s` with `next`, unless `s` already stopped. */
  function Then<W>(s: Step<W>, next: Step<W>): Step<W>
  {
    if s.stop != Drained then s
    else Step(next.world, next.t, s.out + next.out, next.stop)
  }

  /** Handling packets in arrival order until one stops the loop (`receive`). */
  function Run<W>(h: Handlers<W>, w: W, t: Table, ps: seq<Packet>): (s: Step<W>)
    ensures ps == [] ==> s == Step(w, t, [], Drained)
    ensures s.stop == Blocked ==> exists p :: p in ps && p.msg.kind == RESPONSE
    ensures s.stop == Panicked ==>
              exists p :: p in ps && ((p.msg.kind == REQUEST && p.msg.cmd !in h.action) ||
                                      (p.msg.kind == INFO && p.msg.cmd !in h.info))
    decreases |ps|
  {
    if ps == [] then Step(w, t, [], Drained)
    else
      var first := Deliver(h, w, t, ps[0]);
      if first.stop != Drained then first
      else Then(first, Run(h, first.world, first.t, ps[1..]))
  }

  /**
   * Arrival order: handling `ps + qs` is handling `ps` and then, if the loop
   * is still running, handling `qs` from the resulting state and table.
   */
  lemma {:induction false} RunAppend<W>(h: Handlers<W>, w: W, t: Table, ps: seq<Packet>, qs: seq<Packet>)
    ensures var a := Run(h, w, t, ps);
            Run(h, w, t, ps + qs) == Then(a, Run(h, a.world, a.t, qs))
    decreases |ps|
  {
    if ps == [] {
      assert ps + qs == qs;
    } else {
      var first := Deliver(h, w, t, ps[0]);
      assert (ps + qs)[0] == ps[0];
      assert (ps + qs)[1..] == ps[1..] + qs;
      if first.stop == Drained {
        var mid := Run(h, first.world, first.t, ps[1..]);
        RunAppend(h, first.world, first.t, ps[1..], qs);
        ThenAssoc(first, mid, Run(h, mid.world, mid.t, qs));
      }
    }
  }

  /** Handling one more packet after `ps`, when the loop is still running. */
  lemma RunSnoc<W>(h: Handlers<W>, w: W, t: Table, ps: seq<Packet>, p: Packet)
    requires Run(h, w, t, ps).stop == Drained
    ensures var a := Run(h, w, t, ps);
            var d := Deliver(h, a.world, a.t, p);
            Run(h, w, t, ps + [p]) == Step(d.world, d.t, a.out + d.out, d.stop)
  {
    var a := Run(h, w, t, ps);
    RunAppend(h, w, t, ps, [p]);
    assert [p][1..] == [];
    var d := Deliver(h, a.world, a.t, p);
    if d.stop == Drained {
      assert d.out + [] == d.out;
    }
  }

  /** The loop's next prefix: one more packet delivered. */
  lemma RunPrefixStep<W>(h: Handlers<W>, w: W, t: Table, ps: seq<Packet>, i: int)
    requires 0 <= i < |ps| && Run(h, w, t, ps[..i]).stop == Drained
    ensures var a := Run(h, w, t, ps[..i]);
            var d := Deliver(h, a.world, a.t, ps[i]);
            Run(h, w, t, ps[..i + 1]) == Step(d.world, d.t, a.out + d.out, d.stop)
  {
    RunSnoc(h, w, t, ps[..i], ps[i]);
    assert ps[..i + 1] == ps[..i] + [ps[i]];
  }

  /** Once the loop stopped or ran out of packets, the prefix handled is the whole run. */
  lemma RunPrefixDone<W>(h: Handlers<W>, w: W, t: Table, ps: seq<Packet>, i: int)
    requires 0 <= i <= |ps|
    requires i == |ps| || Run(h, w, t, ps[..i]).stop != Drained
    ensures Run(h, w, t, ps) == Run(h, w, t, ps[..i])
  {
    if i < |ps| {
      RunAppend(h, w, t, ps[..i], ps[i..]);
      assert ps[..i] + ps[i..] == ps;
    } else {
      assert ps[..i] == ps;
    }
  }

  lemma ThenAssoc<W>(a: Step<W>, b: Step<W>, c: Step<W>)
    ensures Then(a, Then(b, c)) == Then(Then(a, b), c)
  {
    if a.stop == Drained && b.stop == Drained {
      Regroup(a.out, b.out, c.out);
    }
  }

  /** Handling one packet evolves the table. */
  lemma DeliverEvolves<W>(h: Handlers<W>, w: W, t: Table, p: Packet)
    requires Inv(t)
    ensures Evolves(t, Deliver(h, w, t, p).t)
  {
    var s := Deliver(h, w, t, p);
    match p.msg.kind
    case REQUEST =>
      if p.msg.cmd in h.action {
        EmitEvolves(t, h.action[p.msg.cmd](w, p.msg.data).effect.sends);
      } else {
        EvolvesRefl(t);
      }
    case RESPONSE =>
      if SeqnOf(p.msg) in t.reqs {
        AnswerEvolves(t, SeqnOf(p.msg), p.msg.data);
      } else {
        EvolvesRefl(t);
      }
    case INFO =>
      if p.msg.cmd in h.info {
        EmitEvolves(t, h.info[p.msg.cmd](w, p.msg.data).sends);
      } else {
        EvolvesRefl(t);
      }
    case OtherType(_) =>
      EvolvesRefl(t);
  }

  /**
   * Receiving keeps the table's invariant and loses no reply: the counter
   * only grows, answers are never overwritten, and every number pending
   * before or issued by a handler during the loop is still pending or answered.
   */
  lemma {:induction false} RunEvolves<W>(h: Handlers<W>, w: W, t: Table, ps: seq<Packet>)
    requires Inv(t)
    ensures Evolves(t, Run(h, w, t, ps).t)
    decreases |ps|
  {
    if ps == [] {
      EvolvesRefl(t);
    } else {
      var first := Deliver(h, w, t, ps[0]);
      DeliverEvolves(h, w, t, ps[0]);
      if first.stop == Drained {
        RunEvolves(h, first.world, first.t, ps[1..]);
        EvolvesTrans(t, first.t, Run(h, first.world, first.t, ps[1..]).t);
      }
    }
  }

  /** `o` is the answer to some REQUEST among `ps`: same sender, cmd and seqn. */
  ghost predicate Echoes(o: Packet, ps: seq<Packet>)
  {
    o.msg.kind == RESPONSE &&
    exists i :: 0 <= i < |ps| && ps[i].msg.kind == REQUEST && o.addr == ps[i].addr &&
                o.msg.cmd == ps[i].msg.cmd && o.msg.seqn == ps[i].msg.seqn
  }

  /** `o` is one of `ps`'s answers as well. */
  lemma EchoesLater(o: Packet, ps: seq<Packet>)
    requires ps != [] && Echoes(o, ps[1..])
    ensures Echoes(o, ps)
  {
    var i :| 0 <= i < |ps[1..]| && ps[1..][i].msg.kind == REQUEST && o.addr == ps[1..][i].addr &&
             o.msg.cmd == ps[1..][i].msg.cmd && o.msg.seqn == ps[1..][i].msg.seqn;
    assert ps[i + 1] == ps[1..][i];
  }

  /** The RESPONSEs one packet produces: none, or the reply to it when it is a REQUEST. */
  lemma DeliverReplies<W>(h: Handlers<W>, w: W, t: Table, p: Packet)
    ensures var s := Deliver(h, w, t, p);
            forall k :: 0 <= k < |s.out| && s.out[k].msg.kind == RESPONSE ==>
              p.msg.kind == REQUEST && s.out[k] == Reply(p, s.out[k].msg.data)
  {
    var s := Deliver(h, w, t, p);
    if p.msg.kind == REQUEST && p.msg.cmd in h.action {
      EmitPackets(t, h.action[p.msg.cmd](w, p.msg.data).effect.sends);
    } else if p.msg.kind == INFO && p.msg.cmd in h.info {
      EmitPackets(t, h.info[p.msg.cmd](w, p.msg.data).sends);
    }
  }

  /** Every RESPONSE in `out` answers a REQUEST among `ps`. */
  ghost predicate RepliesEcho(out: seq<Packet>, ps: seq<Packet>)
  {
    forall k :: 0 <= k < |out| && out[k].msg.kind == RESPONSE ==> Echoes(out[k], ps)
  }

  /** Every REQUEST in `out` carries a number in `lo + 1 .. hi`. */
  ghost predicate RequestsWithin(out: seq<Packet>, lo: int, hi: int)
  {
    forall k :: 0 <= k < |out| && out[k].msg.kind == REQUEST ==> lo < SeqnOf(out[k].msg) <= hi
  }

  lemma RepliesEchoConcat(a: seq<Packet>, b: seq<Packet>, ps: seq<Packet>)
    requires RepliesEcho(a, ps) && RepliesEcho(b, ps)
    ensures RepliesEcho(a + b, ps)
  {
    forall k | 0 <= k < |a + b| && (a + b)[k].msg.kind == RESPONSE
      ensures Echoes((a + b)[k], ps)
    {
      if k < |a| {
        assert (a + b)[k] == a[k];
      } else {
        assert (a + b)[k] == b[k - |a|];
      }
    }
  }

  lemma RequestsWithinConcat(a: seq<Packet>, b: seq<Packet>, lo: int, mid: int, hi: int)
    requires RequestsWithin(a, lo, mid) && RequestsWithin(b, mid, hi) && lo <= mid <= hi
    ensures RequestsWithin(a + b, lo, hi)
  {
    forall k | 0 <= k < |a + b| && (a + b)[k].msg.kind == REQUEST
      ensures lo < SeqnOf((a + b)[k].msg) <= hi
    {
      if k < |a| {
        assert (a + b)[k] == a[k];
      } else {
        assert (a + b)[k] == b[k - |a|];
      }
    }
  }

  /** The answers to `ps[1..]` are answers to `ps`. */
  lemma RepliesEchoLater(out: seq<Packet>, ps: seq<Packet>)
    requires ps != [] && RepliesEcho(out, ps[1..])
    ensures RepliesEcho(out, ps)
  {
    forall k | 0 <= k < |out| && out[k].msg.kind == RESPONSE
      ensures Echoes(out[k], ps)
    {
      EchoesLater(out[k], ps);
    }
  }

  /**
   * Every RESPONSE the receive loop emits answers a REQUEST it received; the
   * other packets it emits are the handlers' own sends.
   */
  lemma {:induction false} RunRepliesEcho<W>(h: Handlers<W>, w: W, t: Table, ps: seq<Packet>)
    ensures RepliesEcho(Run(h, w, t, ps).out, ps)
    decreases |ps|
  {
    if ps != [] {
      var first := Deliver(h, w, t, ps[0]);
      DeliverReplies(h, w, t, ps[0]);
      forall k | 0 <= k < |first.out| && first.out[k].msg.kind == RESPONSE
        ensures Echoes(first.out[k], ps)
      {
        assert ps[0].msg.kind == REQUEST && first.out[k].addr == ps[0].addr;
      }
      if first.stop == Drained {
        var rest := Run(h, first.world, first.t, ps[1..]);
        RunRepliesEcho(h, first.world, first.t, ps[1..]);
        RepliesEchoLater(rest.out, ps);
        RepliesEchoConcat(first.out, rest.out, ps);
      }
    }
  }

  /** The REQUESTs one packet produces carry numbers its handler issued. */
  lemma DeliverRequests<W>(h: Handlers<W>, w: W, t: Table, p: Packet)
    ensures var s := Deliver(h, w, t, p);
            RequestsWithin(s.out, t.counter, s.t.counter)
  {
    var s := Deliver(h, w, t, p);
    if p.msg.kind == REQUEST && p.msg.cmd in h.action {
      var sends := h.action[p.msg.cmd](w, p.msg.data).effect.sends;
      EmitPackets(t, sends);
      forall k | 0 <= k < |s.out| && s.out[k].msg.kind == REQUEST
        ensures t.counter < SeqnOf(s.out[k].msg) <= s.t.counter
      {
        assert k < |sends|;
      }
    } else if p.msg.kind == INFO && p.msg.cmd in h.info {
      EmitPackets(t, h.info[p.msg.cmd](w, p.msg.data).sends);
    }
  }

  /**
   * Every REQUEST a handler sends during the loop carries a fresh number,
   * one above the counter the loop started from; every such number is still
   * pending or answered when the loop ends.
   */
  lemma {:induction false} RunRequestsFresh<W>(h: Handlers<W>, w: W, t: Table, ps: seq<Packet>)
    requires Inv(t)
    ensures var s := Run(h, w, t, ps);
            && RequestsWithin(s.out, t.counter, s.t.counter)
            && forall n :: t.counter < n <= s.t.counter ==> n in s.t.reqs || n in s.t.slots
    decreases |ps|
  {
    RunEvolves(h, w, t, ps);
    if ps != [] {
      var first := Deliver(h, w, t, ps[0]);
      DeliverRequests(h, w, t, ps[0]);
      if first.stop == Drained {
        DeliverEvolves(h, w, t, ps[0]);
        var rest := Run(h, first.world, first.t, ps[1..]);
        RunRequestsFresh(h, first.world, first.t, ps[1..]);
        RunEvolves(h, first.world, first.t, ps[1..]);
        RequestsWithinConcat(first.out, rest.out, t.counter, first.t.counter, rest.t.counter);
      }
    }
  }

  /**
   * One-shot slots: once the response for `n` has been handled, a second
   * response with the same number is no longer matched; the loop blocks on
   * it instead of delivering twice.
   */
  lemma SecondResponseBlocks<W>(h: Handlers<W>, w: W, t: Table, p: Packet, q: Packet)
    requires Inv(t)
    requires p.msg.kind == RESPONSE && q.msg.kind == RESPONSE && SeqnOf(p.msg) == SeqnOf(q.msg)
    requires SeqnOf(p.msg) in t.reqs
    ensures var s := Run(h, w, t, [p, q]);
            && s.stop == Blocked
            && SeqnOf(p.msg) !in s.t.reqs
            && SeqnOf(p.msg) in s.t.slots && s.t.slots[SeqnOf(p.msg)] == p.msg.data
  {
    assert [p, q][1..] == [q];
    assert [q][1..] == [];
  }

  /** Go's `RpcHandler`; `W` is the state its registered handlers close over. */
  class RpcHandler<W> {
    var counter: int
    var reqs: map<int, Msg>
    var slots: map<int, Body>
    var action: map<Cmd, Action<W>>
    var infoAction: map<Cmd, InfoAction<W>>

    ghost function Tbl(): Table
      reads this
    {
      Table(counter, reqs, slots)
    }

    ghost function Hnd(): Handlers<W>
      reads this
    {
      Handlers(action, infoAction)
    }

    ghost predicate Valid()
      reads this
    {
      Inv(Tbl())
    }

    /** `NewRpcHandler`: counter at 0, every table empty. */
    constructor ()
      ensures Valid()
      ensures counter == 0 && reqs == map[] && slots == map[]
      ensures action == map[] && infoAction == map[]
    {
      counter := 0;
      reqs := map[];
      slots := map[];
      action := map[];
      infoAction := map[];
    }

    /** `nextSeqn`: increments the counter and returns the new value, a number never used before. */
    method NextSeqn() returns (n: int)
      requires Valid()
      modifies this`counter
      ensures Valid()
      ensures n == old(counter) + 1 && counter == n
      ensures n !in reqs && n !in slots
    {
      counter := counter + 1;
      n := counter;
    }

    /**
     * `Send`: issues a fresh number, emits one REQUEST packet to `addr` and
     * records the pending entry; returns the number naming the reply slot.
     */
    method Send(cmd: Cmd, body: Body, addr: Addr, r: Router) returns (n: int)
      requires Valid()
      modifies this`counter, this`reqs, r
      ensures Valid()
      ensures Tbl() == Issue(old(Tbl()), cmd, body)
      ensures n == counter == old(counter) + 1
      ensures n !in old(reqs) && n !in slots
      ensures r.out == old(r.out) + [Packet(addr, Request(cmd, n, body))]
    {
      IssueFresh(Tbl(), cmd, body);
      n := NextSeqn();
      var msg := Request(cmd, n, body);
      r.Send(Packet(addr, msg));
      reqs := reqs[n := msg];
    }

    /** `SendInfo`: one INFO packet without a number; the tables are untouched. */
    method SendInfo(cmd: Cmd, body: Body, addr: Addr, r: Router)
      modifies r
      ensures r.out == old(r.out) + [Packet(addr, Info(cmd, body))]
    {
      r.Send(Packet(addr, Info(cmd, body)));
    }

    /** `RegisterAction`: the last registration for a command wins; other commands keep theirs. */
    method RegisterAction(cmd: Cmd, f: Action<W>)
      modifies this`action
      ensures action == old(action)[cmd := f]
    {
      action := action[cmd := f];
    }

    /** `RegisterInfoAction`: as `RegisterAction`, for the info table. */
    method RegisterInfoAction(cmd: Cmd, f: InfoAction<W>)
      modifies this`infoAction
      ensures infoAction == old(infoAction)[cmd := f]
    {
      infoAction := infoAction[cmd := f];
    }

    /** The sends a running handler makes, one `Send` or `SendInfo` each, in order. */
    method Perform(sends: seq<Outgoing>, r: Router)
      requires Valid()
      modifies this`counter, this`reqs, r
      ensures Valid()
      ensures var e := Emit(old(Tbl()), sends);
              Tbl() == e.t && r.out == old(r.out) + e.out
    {
      ghost var t0 := Tbl();
      ghost var out0 := r.out;
      var i := 0;
      while i < |sends|
        invariant 0 <= i <= |sends|
        invariant Valid()
        invariant Tbl() == Emit(t0, sends[..i]).t && r.out == out0 + Emit(t0, sends[..i]).out
      {
        ghost var e := Emit(t0, sends[..i]);
        assert sends[..i + 1][..i] == sends[..i];
        match sends[i] {
          case OutRequest(cmd, body, addr) =>
            var n := Send(cmd, body, addr, r);
            Regroup(out0, e.out, [Packet(addr, Request(cmd, n, body))]);
          case OutInfo(cmd, body, addr) =>
            SendInfo(cmd, body, addr, r);
            Regroup(out0, e.out, [Packet(addr, Info(cmd, body))]);
        }
        i := i + 1;
      }
      assert sends[..i] == sends;
    }

    /**
     * `handleRequest`: runs the action on the payload (its sends go out as it
     * runs), then replies to the sender with the same cmd and seqn, typed RESPONSE.
     */
    method HandleRequest(msg: Msg, addr: Addr, r: Router, w: W) returns (w': W)
      requires Valid() && msg.cmd in action
      modifies this`counter, this`reqs, r
      ensures Valid()
      ensures var a := action[msg.cmd](w, msg.data);
              var e := Emit(old(Tbl()), a.effect.sends);
              && w' == a.effect.world && Tbl() == e.t
              && r.out == old(r.out) + e.out + [Reply(Packet(addr, msg), a.reply)]
    {
      var a := action[msg.cmd](w, msg.data);
      Perform(a.effect.sends, r);
      r.Send(Packet(addr, msg.(kind := RESPONSE, data := a.reply)));
      w' := a.effect.world;
    }

    /** `handleResponse`: consumes the pending entry and fills its slot; other entries are untouched. */
    method HandleResponse(msg: Msg)
      requires Valid()
      requires SeqnOf(msg) in reqs
      modifies this`reqs, this`slots
      ensures Valid()
      ensures Tbl() == Answer(old(Tbl()), SeqnOf(msg), msg.data)
    {
      var n := SeqnOf(msg);
      reqs := reqs - {n};
      slots := slots[n := msg.data];
    }

    /** `handleInfo`: runs the registered info handler on the payload; its sends go out as it runs. */
    method HandleInfo(msg: Msg, r: Router, w: W) returns (w': W)
      requires Valid() && msg.cmd in infoAction
      modifies this`counter, this`reqs, r
      ensures Valid()
      ensures var f := infoAction[msg.cmd](w, msg.data);
              var e := Emit(old(Tbl()), f.sends);
              w' == f.world && Tbl() == e.t && r.out == old(r.out) + e.out
    {
      var f := infoAction[msg.cmd](w, msg.data);
      Perform(f.sends, r);
      w' := f.world;
    }

    /** One turn of `receive`'s loop: `p` dispatched on its message type. */
    method Handle(p: Packet, r: Router, w: W) returns (stop: Stop, w': W)
      requires Valid()
      modifies this`counter, this`reqs, this`slots, r
      ensures Valid()
      ensures var s := Deliver(Hnd(), w, old(Tbl()), p);
              Tbl() == s.t && r.out == old(r.out) + s.out && stop == s.stop && w' == s.world
    {
      stop := Drained;
      w' := w;
      match p.msg.kind {
        case REQUEST =>
          if p.msg.cmd in action {
            ghost var a := action[p.msg.cmd](w, p.msg.data);
            ghost var e := Emit(Tbl(), a.effect.sends);
            w' := HandleRequest(p.msg, p.addr, r, w);
            Regroup(old(r.out), e.out, [Reply(p, a.reply)]);
          } else {
            stop := Panicked;
          }
        case RESPONSE =>
          if SeqnOf(p.msg) in reqs {
            HandleResponse(p.msg);
          } else {
            stop := Blocked;
          }
        case INFO =>
          if p.msg.cmd in infoAction {
            w' := HandleInfo(p.msg, r, w);
          } else {
            stop := Panicked;
          }
        case OtherType(_) =>
      }
    }

    /**
     * `receive`: handles the inbound packets in arrival order, dispatching on
     * the message type, until the stream ends or a packet stops the loop.
     */
    method Receive(inbound: seq<Packet>, r: Router, w: W) returns (stop: Stop, w': W)
      requires Valid()
      modifies this`counter, this`reqs, this`slots, r
      ensures Valid()
      ensures var s := Run(old(Hnd()), w, old(Tbl()), inbound);
              Tbl() == s.t && r.out == old(r.out) + s.out && stop == s.stop && w' == s.world
    {
      ghost var h := Hnd();
      ghost var t0 := Tbl();
      ghost var out0 := r.out;
      stop := Drained;
      w' := w;
      var i := 0;
      ghost var st := Run(h, w, t0, inbound[..0]);
      while i < |inbound| && stop == Drained
        invariant 0 <= i <= |inbound|
        invariant Valid() && Hnd() == h
        invariant st == Run(h, w, t0, inbound[..i])
        invariant Tbl() == st.t && r.out == out0 + st.out && stop == st.stop && w' == st.world
        decreases |inbound| - i
      {
        RunPrefixStep(h, w, t0, inbound, i);
        ghost var d := Deliver(h, w', st.t, inbound[i]);
        stop, w' := Handle(inbound[i], r, w');
        Regroup(out0, st.out, d.out);
        st := Step(d.world, d.t, st.out + d.out, d.stop);
        i := i + 1;
      }
      RunPrefixDone(h, w, t0, inbound, i);
    }
  }
}
