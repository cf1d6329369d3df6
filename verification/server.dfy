/**
 * The client TCP front-end (server/conn.go, server/txn.go): a connection
 * reads length-prefixed requests one after the other, runs one transaction
 * per request against the overlay and writes the transaction's response
 * frames back.
 *
 * The protobuf codec is a pair of parameters of the connection: `decode`
 * (failing on a malformed body) and `encode`. The overlay's `Get` and `Put`
 * round trips, which block on the network, are given as the functions of a
 * `Backend` over the overlay's state, which the connection carries from one
 * transaction to the next. Socket write errors are not modelled.
 */
module Server {
  import opened Wire
  import opened Framing

  datatype Operation = GET | PUT | DEL | NOP | OtherOp(code: int)

  /** The client response status. */
  datatype Status = OK | NOT_FOUND

  /** The client `Request`; unset optional fields are `None`. */
  datatype Request = Request(op: Operation, key: Option<string>, subKey: Option<string>,
                             value: Option<Bytes>, tag: Option<int>)

  /** The client `Response`; unset optional fields are `None`. */
  datatype Response = Response(status: Option<Status>, key: Option<string>, value: Option<Bytes>, tag: Option<int>)

  /** A response with no field set, as each transaction starts with. */
  const Unset: Response := Response(None, None, None, None)

  /** The overlay's answer to a GET: its status and the value, when it carries one. */
  datatype GetReply = GetReply(status: GetStatus, value: Option<Bytes>)

  /** A GET round trip: the overlay's state afterwards and its answer. */
  datatype Got<S> = Got(state: S, reply: GetReply)

  /** A PUT round trip: the overlay's state afterwards and the status it answers. */
  datatype Stored<S> = Stored(state: S, status: PutStatus)

  /**
   * The overlay as the transactions see it: `Get(key, subKey)` and
   * `Put(key, subKey, value)` on its current state `S`, each giving the state
   * afterwards, so that a PUT is seen by the requests after it.
   */
  datatype Backend<!S> = Backend(get: (S, string, string) -> Got<S>, put: (S, string, string, Option<Bytes>) -> Stored<S>)

  /** `GetKey()`, `GetSubKey()`: the string, or "" when unset. */
  function OrEmpty(s: Option<string>): string
  {
    match s
    case Some(v) => v
    case None => ""
  }

  /** The handlers of the `ops` table. */
  datatype Handler = DoGet | DoPut | DoDel | DoNop

  /** `ops`: the handler for each operation the server knows. */
  const Ops: map<Operation, Handler> := map[Operation.GET := DoGet, Operation.PUT := DoPut, Operation.DEL := DoDel, Operation.NOP := DoNop]

  /** The responses one transaction writes, in order, and the overlay's state after it. */
  datatype Outcome<S> = Outcome(responses: seq<Response>, state: S)

  /**
   * One transaction for `req` on the overlay in state `s`: at most one
   * response, always carrying the request's tag; none for DEL or an
   * operation outside `ops`. A GET that misses answers NOT_FOUND with no key
   * or value; a GET that hits answers OK with the request's key and the
   * overlay's value. A PUT answers the overlay's status. A NOP answers the
   * tag alone. Only GET and PUT reach the overlay.
   */
  function Transact<S>(req: Request, o: Backend<S>, s: S): (r: Outcome<S>)
    ensures |r.responses| <= 1
    ensures forall x :: x in r.responses ==> x.tag == req.tag
    ensures r.responses == [] <==> req.op !in {Operation.GET, Operation.PUT, Operation.NOP}
    ensures req.op != Operation.GET && req.op != Operation.PUT ==> r.state == s
    ensures req.op == Operation.NOP ==> r.responses == [Unset.(tag := req.tag)]
    ensures req.op == Operation.GET ==>
              var g := o.get(s, OrEmpty(req.key), OrEmpty(req.subKey));
              && r.state == g.state
              && (g.reply.status == GetNotFound ==> r.responses == [Response(Some(NOT_FOUND), None, None, req.tag)])
              && (g.reply.status == GetOk ==> r.responses == [Response(Some(OK), req.key, g.reply.value, req.tag)])
    ensures req.op == Operation.PUT ==>
              var p := o.put(s, OrEmpty(req.key), OrEmpty(req.subKey), req.value);
              && r.state == p.state
              && r.responses == [Unset.(status := Some(if p.status == PutOk then OK else NOT_FOUND), tag := req.tag)]
  {
    if req.op !in Ops then Outcome([], s)
    else
      match Ops[req.op]
      case DoGet =>
        var g := o.get(s, OrEmpty(req.key), OrEmpty(req.subKey));
        if g.reply.status == GetNotFound then Outcome([Unset.(status := Some(NOT_FOUND), tag := req.tag)], g.state)
        else Outcome([Unset.(status := Some(OK), key := req.key, value := g.reply.value, tag := req.tag)], g.state)
      case DoPut =>
        var p := o.put(s, OrEmpty(req.key), OrEmpty(req.subKey), req.value);
        Outcome([Unset.(status := Some(if p.status == PutOk then OK else NOT_FOUND), tag := req.tag)], p.state)
      case DoDel => Outcome([], s)
      case DoNop => Outcome([Unset.(tag := req.tag)], s)
  }

  /** The bytes `write` puts on the wire for each response, in order. */
  function Frames(encode: Response -> Bytes, rs: seq<Response>): Bytes
    decreases |rs|
  {
    if rs == [] then [] else Frame(encode(rs[0])) + Frames(encode, rs[1..])
  }

  /** Why `serve` stopped: `read` failed on the stream, or a body did not decode. */
  datatype Stop = ReadFailed(error: ReadError) | DecodeFailed

  /** What `serve` writes, why it stops, and the overlay's state when it does. */
  datatype SessionResult<S> = SessionResult(out: Bytes, stop: Stop, state: S)

  /**
   * `serve` over the whole input stream: frame after frame, each decoded
   * request answered by its transaction on the overlay as the earlier ones
   * left it, until the first read or decode failure.
   */
  function Session<S>(input: Bytes, o: Backend<S>, s: S, decode: Bytes -> Option<Request>, encode: Response -> Bytes): (r: SessionResult<S>)
    ensures |input| < 4 ==> r == SessionResult([], ReadFailed(if input == [] then EOF else UnexpectedEOF), s)
    decreases |input|
  {
    match ReadFrame(input)
    case Failed(e, _) => SessionResult([], ReadFailed(e), s)
    case Body(body, rest) =>
      match decode(body)
      case None => SessionResult([], DecodeFailed, s)
      case Some(req) =>
        var t := Transact(req, o, s);
        var next := Session(rest, o, t.state, decode, encode);
        SessionResult(Frames(encode, t.responses) + next.out, next.stop, next.state)
  }

  /** `serve` on a stream that starts with a frame holding a well-formed request. */
  lemma SessionStep<S>(input: Bytes, body: Bytes, rest: Bytes, req: Request,
                       o: Backend<S>, s: S, decode: Bytes -> Option<Request>, encode: Response -> Bytes)
    requires ReadFrame(input) == Body(body, rest) && decode(body) == Some(req)
    ensures var t := Transact(req, o, s);
            var next := Session(rest, o, t.state, decode, encode);
            Session(input, o, s, decode, encode) == SessionResult(Frames(encode, t.responses) + next.out, next.stop, next.state)
  {
  }

  /** `serve` on a stream whose first frame does not read or does not decode: nothing written, the overlay untouched. */
  lemma SessionStops<S>(input: Bytes, o: Backend<S>, s: S, decode: Bytes -> Option<Request>, encode: Response -> Bytes)
    requires ReadFrame(input).Failed? || decode(ReadFrame(input).body).None?
    ensures Session(input, o, s, decode, encode)
            == SessionResult([], if ReadFrame(input).Failed? then ReadFailed(ReadFrame(input).error) else DecodeFailed, s)
  {
  }

  /** The stream of the frames of `bodies`, in order. */
  function Stream(bodies: seq<Bytes>): Bytes
    decreases |bodies|
  {
    if bodies == [] then [] else Frame(bodies[0]) + Stream(bodies[1..])
  }

  /** The overlay's state after the transactions for `reqs`, in order. */
  function StateAfter<S>(reqs: seq<Request>, o: Backend<S>, s: S): S
    decreases |reqs|
  {
    if reqs == [] then s else StateAfter(reqs[1..], o, Transact(reqs[0], o, s).state)
  }

  /** The response bytes of the transactions for `reqs`, in order, each on the state the earlier ones left. */
  function Replies<S>(reqs: seq<Request>, o: Backend<S>, s: S, encode: Response -> Bytes): Bytes
    decreases |reqs|
  {
    if reqs == [] then []
    else
      var t := Transact(reqs[0], o, s);
      Frames(encode, t.responses) + Replies(reqs[1..], o, t.state, encode)
  }

  /**
   * A stream of well-formed frames, each shorter than 2^31 bytes and
   * decoding to a request, followed by anything: `serve` answers every
   * request in stream order, each on the overlay as the earlier ones left
   * it, and then behaves as on what follows. With nothing following it
   * stops at `io.EOF`.
   */
  lemma {:induction false} SessionOfStream<S>(bodies: seq<Bytes>, reqs: seq<Request>, tail: Bytes,
                                              o: Backend<S>, s: S, decode: Bytes -> Option<Request>, encode: Response -> Bytes)
    requires |bodies| == |reqs|
    requires forall i :: 0 <= i < |bodies| ==> |bodies[i]| < Two31 && decode(bodies[i]) == Some(reqs[i])
    ensures var next := Session(tail, o, StateAfter(reqs, o, s), decode, encode);
            Session(Stream(bodies) + tail, o, s, decode, encode)
            == SessionResult(Replies(reqs, o, s, encode) + next.out, next.stop, next.state)
    decreases |bodies|
  {
    if bodies == [] {
      assert Stream(bodies) + tail == tail;
    } else {
      var rest := Stream(bodies[1..]) + tail;
      var t := Transact(reqs[0], o, s);
      var next := Session(tail, o, StateAfter(reqs, o, s), decode, encode);
      StreamCons(bodies, tail);
      ReadWrite(bodies[0], rest);
      SessionStep(Frame(bodies[0]) + rest, bodies[0], rest, reqs[0], o, s, decode, encode);
      SessionOfStream(bodies[1..], reqs[1..], tail, o, t.state, decode, encode);
      RepliesCons(reqs, next.out, o, s, encode);
    }
  }

  lemma StreamCons(bodies: seq<Bytes>, tail: Bytes)
    requires bodies != []
    ensures Stream(bodies) + tail == Frame(bodies[0]) + (Stream(bodies[1..]) + tail)
  {
  }

  lemma RepliesCons<S>(reqs: seq<Request>, after: Bytes, o: Backend<S>, s: S, encode: Response -> Bytes)
    requires reqs != []
    ensures var t := Transact(reqs[0], o, s);
            Replies(reqs, o, s, encode) + after
            == Frames(encode, t.responses) + (Replies(reqs[1..], o, t.state, encode) + after)
  {
    var t := Transact(reqs[0], o, s);
    Regroup(Frames(encode, t.responses), Replies(reqs[1..], o, t.state, encode), after);
  }

  /**
   * A one-node overlay: GET and PUT served from its local store, as
   * `GetAction` and `PutAction` do. `putStatus` is the status the empty
   * `PutResponse` of `PutAction` reads as.
   */
  function LocalStore(putStatus: PutStatus): Backend<map<string, Bytes>>
  {
    Backend((m: map<string, Bytes>, key: string, subKey: string) =>
              Got(m, if key in m then GetReply(GetOk, Some(m[key])) else GetReply(GetNotFound, None)),
            (m: map<string, Bytes>, key: string, subKey: string, value: Option<Bytes>) =>
              Stored(m[key := if value.Some? then value.value else []], putStatus))
  }

  /**
   * Read your writes within one connection: on a one-node overlay with an
   * empty store, GET k, then PUT k v, then GET k answer NOT_FOUND, then the
   * PUT's status, then OK with v.
   */
  lemma GetSeesEarlierPut(key: string, v: Bytes, t1: Option<int>, t2: Option<int>, t3: Option<int>,
                          putStatus: PutStatus, encode: Response -> Bytes)
    ensures var get1 := Request(Operation.GET, Some(key), None, None, t1);
            var put := Request(Operation.PUT, Some(key), None, Some(v), t2);
            var get2 := Request(Operation.GET, Some(key), None, None, t3);
            Replies([get1, put, get2], LocalStore(putStatus), map[], encode)
            == Frames(encode, [Response(Some(NOT_FOUND), None, None, t1)])
               + (Frames(encode, [Response(Some(if putStatus == PutOk then OK else NOT_FOUND), None, None, t2)])
               + (Frames(encode, [Response(Some(OK), Some(key), Some(v), t3)]) + []))
  {
    var o := LocalStore(putStatus);
    var get1 := Request(Operation.GET, Some(key), None, None, t1);
    var put := Request(Operation.PUT, Some(key), None, Some(v), t2);
    var get2 := Request(Operation.GET, Some(key), None, None, t3);
    var reqs := [get1, put, get2];
    var m0: map<string, Bytes> := map[];
    var a := Transact(get1, o, m0);
    assert o.get(m0, key, "") == Got(m0, GetReply(GetNotFound, None));
    assert a == Outcome([Response(Some(NOT_FOUND), None, None, t1)], m0);
    var b := Transact(put, o, m0);
    assert o.put(m0, key, "", Some(v)) == Stored(map[key := v], putStatus);
    assert b == Outcome([Response(Some(if putStatus == PutOk then OK else NOT_FOUND), None, None, t2)], map[key := v]);
    var c := Transact(get2, o, b.state);
    assert o.get(b.state, key, "") == Got(b.state, GetReply(GetOk, Some(v)));
    assert c == Outcome([Response(Some(OK), Some(key), Some(v), t3)], b.state);
    assert reqs[1..] == [put, get2];
    assert reqs[1..][1..] == [get2];
    assert reqs[1..][1..][1..] == [];
    assert Replies([get2], o, b.state, encode) == Frames(encode, c.responses) + [];
    assert Replies([put, get2], o, a.state, encode) == Frames(encode, b.responses) + Replies([get2], o, b.state, encode);
  }

  /** The outcome of `read` followed by decoding. */
  datatype Parsed = Parsed(req: Request) | Stopped(stop: Stop)

  /**
   * `conn`: the unread rest of the input stream, the bytes written so far,
   * the codec, and the overlay with its current state.
   */
  class Conn<S> {
    var input: Bytes
    var out: Bytes
    const decode: Bytes -> Option<Request>
    const encode: Response -> Bytes
    const overlay: Backend<S>
    var state: S

    constructor (input: Bytes, decode: Bytes -> Option<Request>, encode: Response -> Bytes, overlay: Backend<S>, state: S)
      ensures this.input == input && out == []
      ensures this.decode == decode && this.encode == encode && this.overlay == overlay && this.state == state
    {
      this.input := input;
      out := [];
      this.decode := decode;
      this.encode := encode;
      this.overlay := overlay;
      this.state := state;
    }

    /** `read`: one frame off the stream, decoded. */
    method Read() returns (p: Parsed)
      modifies this`input
      ensures input == ReadFrame(old(input)).rest
      ensures ReadFrame(old(input)).Failed? ==> p == Stopped(ReadFailed(ReadFrame(old(input)).error))
      ensures ReadFrame(old(input)).Body? ==>
                p == (match decode(ReadFrame(old(input)).body)
                      case None => Stopped(DecodeFailed)
                      case Some(req) => Parsed(req))
    {
      var r := ReadFrame(input);
      input := r.rest;
      match r
      case Failed(e, _) =>
        p := Stopped(ReadFailed(e));
      case Body(body, _) =>
        match decode(body)
        case None =>
          p := Stopped(DecodeFailed);
        case Some(req) =>
          p := Parsed(req);
    }

    /** `write`: the frame of the encoded response. */
    method Write(r: Response)
      modifies this`out
      ensures out == old(out) + Frame(encode(r))
    {
      out := out + Frame(encode(r));
    }

    /**
     * `serve`: one transaction per request read, until the first failure.
     * It writes exactly what `Session` says for the stream it was given and
     * leaves the overlay in `Session`'s final state.
     */
    method Serve() returns (stop: Stop)
      modifies this`input, this`out, this`state
      ensures var r := Session(old(input), overlay, old(state), decode, encode);
              out == old(out) + r.out && stop == r.stop && state == r.state
    {
      ghost var r0 := Session(input, overlay, state, decode, encode);
      while true
        invariant old(out) + r0.out == out + Session(input, overlay, state, decode, encode).out
        invariant Session(input, overlay, state, decode, encode).stop == r0.stop
        invariant Session(input, overlay, state, decode, encode).state == r0.state
        decreases |input|
      {
        var s := Turn();
        if s.Some? {
          return s.value;
        }
      }
    }

    /**
     * One turn of `serve`'s loop: read a request and run its transaction,
     * or report why the loop stops.
     */
    method Turn() returns (s: Option<Stop>)
      modifies this`input, this`out, this`state
      ensures s.Some? ==> out == old(out) && state == old(state)
                          && Session(old(input), overlay, old(state), decode, encode) == SessionResult([], s.value, state)
      ensures s.None? ==> |input| < |old(input)|
      ensures s.None? ==> var r0 := Session(old(input), overlay, old(state), decode, encode);
                          var r := Session(input, overlay, state, decode, encode);
                          old(out) + r0.out == out + r.out && r.stop == r0.stop && r.state == r0.state
    {
      ghost var before := input;
      var p := Read();
      if p.Stopped? {
        SessionStops(before, overlay, state, decode, encode);
        return Some(p.stop);
      }
      SessionStep(before, ReadFrame(before).body, input, p.req, overlay, state, decode, encode);
      ghost var written := out;
      ghost var t := Transact(p.req, overlay, state);
      var x := new Txn(this, p.req);
      x.Run();
      Regroup(written, Frames(encode, t.responses), Session(input, overlay, state, decode, encode).out);
      s := None;
    }
  }

  /** `txn`: one request, the response being built, and the connection it goes back on. */
  class Txn<S> {
    const conn: Conn<S>
    const o: Backend<S>
    var req: Request
    var resp: Response

    constructor (c: Conn<S>, req: Request)
      ensures conn == c && o == c.overlay && this.req == req && resp == Unset
    {
      conn := c;
      o := c.overlay;
      this.req := req;
      resp := Unset;
    }

    /** `run`: the handler `ops` gives the operation, or nothing for an operation it does not list. */
    method Run()
      requires resp == Unset
      modifies this`resp, conn`out, conn`state
      ensures var r := Transact(req, o, old(conn.state));
              conn.out == old(conn.out) + Frames(conn.encode, r.responses) && conn.state == r.state
    {
      if req.op in Ops {
        match Ops[req.op]
        case DoGet => Get();
        case DoPut => Put();
        case DoDel => Del();
        case DoNop => Nop();
      } else {
        assert Transact(req, o, conn.state) == Outcome([], conn.state);
      }
    }

    /** `get`: a miss answers NOT_FOUND alone; a hit answers OK with the request's key and the value. */
    method Get()
      requires resp == Unset
      modifies this`resp, conn`out, conn`state
      ensures var g := o.get(old(conn.state), OrEmpty(req.key), OrEmpty(req.subKey));
              && conn.state == g.state
              && resp == (if g.reply.status == GetNotFound
                          then Response(Some(NOT_FOUND), None, None, req.tag)
                          else Response(Some(OK), req.key, g.reply.value, req.tag))
      ensures conn.out == old(conn.out) + Frame(conn.encode(resp))
    {
      var g := o.get(conn.state, OrEmpty(req.key), OrEmpty(req.subKey));
      conn.state := g.state;
      match g.reply.status {
        case GetOk =>
          resp := resp.(status := Some(OK));
        case GetNotFound =>
          resp := resp.(status := Some(NOT_FOUND));
          Respond();
          return;
      }
      resp := resp.(key := req.key);
      resp := resp.(value := g.reply.value);
      Respond();
    }

    /** `put`: the overlay's status, mapped one to one. */
    method Put()
      requires resp == Unset
      modifies this`resp, conn`out, conn`state
      ensures var p := o.put(old(conn.state), OrEmpty(req.key), OrEmpty(req.subKey), req.value);
              && conn.state == p.state
              && resp == Response(Some(if p.status == PutOk then OK else NOT_FOUND), None, None, req.tag)
      ensures conn.out == old(conn.out) + Frame(conn.encode(resp))
    {
      var p := o.put(conn.state, OrEmpty(req.key), OrEmpty(req.subKey), req.value);
      conn.state := p.state;
      match p.status {
        case PutOk =>
          resp := resp.(status := Some(OK));
        case PutNotFound =>
          resp := resp.(status := Some(NOT_FOUND));
      }
      Respond();
    }

    /** `del`: sends nothing. */
    method Del()
    {
    }

    /** `nop`: the tag alone. */
    method Nop()
      requires resp == Unset
      modifies this`resp, conn`out
      ensures resp == Unset.(tag := req.tag)
      ensures conn.out == old(conn.out) + Frame(conn.encode(resp))
    {
      Respond();
    }

    /** `respond`: copy the request's tag and write the response. */
    method Respond()
      modifies this`resp, conn`out
      ensures resp == old(resp).(tag := req.tag)
      ensures conn.out == old(conn.out) + Frame(conn.encode(resp))
    {
      resp := resp.(tag := req.tag);
      conn.Write(resp);
    }
  }
}
