/**
 * Shared vocabulary of the overlay protocol: bytes, addresses, members and
 * the datagram message `Msg` with its typed payloads.
 *
 * The protobuf codec is not part of this model: a message body travels as
 * the decoded record (`Body`) rather than as marshalled bytes.
 */
module Wire {

  datatype Option<+T> = None | Some(value: T)

  type Byte = b: int | 0 <= b < 256
  type Bytes = seq<Byte>

  /** A UDP address in its `String()` form. */
  type Addr = string

  /** Commands of the overlay protocol (`Msg_Cmd`). */
  datatype Cmd = JOIN | HEARTBEAT | LEAVE | GET | PUT | NETWORK_INFO

  /** `Msg_Type`; a decoded datagram may carry any other enum number. */
  datatype MsgType = REQUEST | RESPONSE | INFO | OtherType(code: int)

  /** The wire form of a node: `Member{Id, UdpAddr}`. */
  datatype Member = Member(id: int, addr: Addr)

  datatype JoinStatus = JoinOk | NotCoordinator
  datatype GetStatus = GetOk | GetNotFound
  datatype PutStatus = PutOk | PutNotFound

  /** The payload records carried in `Msg.Data`, one per message shape. */
  datatype Body =
    | JoinRequest(addr: Addr)
    | JoinResponse(status: JoinStatus, yourId: Option<int>, coordinator: Member, members: seq<Member>)
    | HeartbeatRequest
    | HeartbeatResponse
    | LeaveRequest(kicked: Member, members: seq<Member>)
    | LeaveResponse
    | GetRequest(key: string, subKey: string)
    | GetResponse(getStatus: GetStatus, found: Option<Bytes>)
    | PutRequest(key: string, subKey: string, value: Bytes)
    | PutResponse(putStatus: Option<PutStatus>)
    | NetworkInfo(coordinator: Member, members: seq<Member>)

  /** `Msg{Cmd, Type, Seqn, Data}`; `seqn` is `None` when the field is unset. */
  datatype Msg = Msg(cmd: Cmd, kind: MsgType, seqn: Option<int>, data: Body)

  /** A datagram and the address it goes to (outbound) or came from (inbound). */
  datatype Packet = Packet(addr: Addr, msg: Msg)

  /** An unset optional integer field reads as 0, as the generated getters (`GetSeqn`, `GetYourId`) return it. */
  function OrZero(o: Option<int>): (n: int)
    ensures o.Some? ==> n == o.value
    ensures o.None? ==> n == 0
  {
    match o
    case Some(v) => v
    case None => 0
  }

  /** `GetSeqn()`: the sequence number, or 0 when it is unset. */
  function SeqnOf(m: Msg): int
  {
    OrZero(m.seqn)
  }

  /** Concatenation regrouped, for logs extended one step at a time. */
  lemma Regroup<T>(a: seq<T>, b: seq<T>, c: seq<T>)
    ensures (a + b) + c == a + (b + c)
  {
  }

  /** The two halves of a concatenation. */
  lemma Split<T>(a: seq<T>, b: seq<T>)
    ensures (a + b)[..|a|] == a && (a + b)[|a|..] == b
  {
  }
}
