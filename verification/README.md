# stored: overlay, RPC correlation, store and client front-end in Dafny

This project models the core of `stored`, a small distributed key-value
store written in Go, and proves properties of the model. It covers these parts:

- **The overlay node** (`overlay/overlay.go`, module `Overlay`, with the
  value-level parts in `Membership` and `Ring`). The node holds its
  membership map, the coordinator and the consistent-hash ring. It models:
  - the coordinator's JOIN handling, which allocates ids;
  - the joiner's handling of the JOIN response;
  - the LEAVE and NETWORK_INFO handlers, which replace the view;
  - the `checkAlive` eviction sweep;
  - the NETWORK_INFO broadcast;
  - local GET/PUT serving;
  - `GetNodeForKey` routing through the ring;
  - `toMap`/`toArray` between the map and its wire form.
- **The RPC correlation layer** (`overlay/rpc.go`, module `Rpc`). It issues
  sequence numbers and keeps the pending-request table. It pairs RESPONSEs
  with their one-shot reply slots and dispatches inbound REQUEST, RESPONSE
  and INFO messages to the registered handlers. A handler is a function of
  the state it closes over (the type parameter `W`). It returns the new
  state, the packets it sends while it runs (REQUESTs under fresh numbers,
  INFOs) and, for a request, the reply. The `RpcHandler` class is proved
  against the pure functions `Issue`, `Emit`, `Deliver` and `Run`.
- **The liveness tracker** (`overlay/liveness.go`, module `Liveness`).
- **The local store** (`store/store.go`, module `Store`).
- **The client front-end** (`server/conn.go`, `server/txn.go`, modules
  `Framing` and `Server`):
  - length-prefixed framing (a big-endian int32 size, then the body);
  - the `serve` loop, proved against the function `Session` over the input
    stream;
  - the per-request transactions and their `ops` table.

Wire messages are records (module `Wire`); the protobuf encoding is not
modelled. Go's map iteration order is unspecified. Every loop over a map
visits ids in ascending order, which is one order Go may produce.
Time is an integer parameter `now`, in milliseconds.

Some behaviours of the code, which the model keeps as written:

- On a JOIN response with status OK, the code replaces the member map and
  takes the assigned id. It does not add the returned members to its hash
  ring (`Overlay.Overlay.OnJoinResponse`).
- Eviction in `checkAlive` removes the member from the map but not from the
  ring. A key the ring still gives to an evicted id then routes to no node.
  `Overlay.EvictedOwnerUnroutable` proves this. In Go, `GetNodeForKey` then
  dereferences a nil node.
- A RESPONSE whose sequence number is not pending is not dropped. The send
  on the zero channel blocks the receive loop for good (`Rpc.Stop.Blocked`,
  `Rpc.SecondResponseBlocks`).
- A REQUEST or INFO for a command with no registered handler calls a nil
  function. The model records this as `Rpc.Stop.Panicked`.

## Model

| member | source | states |
|---|---|---|
| Rpc.Router.Send | route/router.go:29-31 | the packet is appended to the outbound log, after everything sent before |
| Rpc.IssueFresh | overlay/rpc.go:54-66 | sending keeps the table invariant; the new number was neither pending nor answered; the pending table gains exactly that number |
| Rpc.IssueIncreases | overlay/rpc.go:31-34 | two sends in a row get consecutive numbers; the first stays pending and the second was not pending before |
| Rpc.EmitPackets | overlay/rpc.go:54-76 | a handler's sends become one packet each, in order, to the send's address with its command and payload; each REQUEST carries a number issued by these sends |
| Rpc.EmitEvolves | overlay/rpc.go:54-66 | a handler's sends keep the table invariant, only add pending numbers above the old counter and leave the answers alone |
| Rpc.Deliver | overlay/rpc.go:42-49 | a packet that stops the loop changes nothing and sends nothing; a RESPONSE or an unknown type leaves the handlers' state alone and sends nothing |
| Rpc.DeliverEvolves | overlay/rpc.go:42-49 | handling one packet keeps the table invariant, never lowers the counter, never overwrites an answer and loses no pending number |
| Rpc.Run | overlay/rpc.go:37-52 | no packets change nothing; the loop blocks only at a received RESPONSE and panics only at a received REQUEST or INFO whose command has no handler |
| Rpc.RunAppend | overlay/rpc.go:37-52 | packets are handled in arrival order: handling `ps + qs` is handling `ps`, then `qs` from the resulting state and table if the loop still runs |
| Rpc.RunEvolves | overlay/rpc.go:37-52 | receiving keeps the invariant; the counter only grows; a pending entry afterwards was pending before or issued by a handler; answers are never overwritten; every number pending before or issued meanwhile is still pending or answered |
| Rpc.RunRepliesEcho | overlay/rpc.go:87-97 | every RESPONSE the receive loop sends answers a received REQUEST, with the same sender, command and number |
| Rpc.RunRequestsFresh | overlay/rpc.go:54-66 | every REQUEST a handler sends during the loop carries a number above the starting counter and at most the final one, and each such number is still pending or answered |
| Rpc.SecondResponseBlocks | overlay/rpc.go:99-103 | after a response consumes number n and fills its slot, a second response for n blocks the loop instead of being delivered again |
| Rpc.RpcHandler.constructor | overlay/rpc.go:22-29 | a new handler has counter 0 and empty tables, and satisfies the invariant |
| Rpc.RpcHandler.NextSeqn | overlay/rpc.go:31-34 | returns the old counter plus one, stores it as the counter, and the number is neither pending nor answered |
| Rpc.RpcHandler.Send | overlay/rpc.go:54-66 | the table becomes `Issue` of the old one; the returned number is fresh; exactly one REQUEST packet with that number goes to `addr` |
| Rpc.RpcHandler.SendInfo | overlay/rpc.go:68-76 | exactly one INFO packet, with no number, goes to `addr` |
| Rpc.RpcHandler.RegisterAction | overlay/rpc.go:78-80 | the command's handler is replaced; other commands keep theirs |
| Rpc.RpcHandler.RegisterInfoAction | overlay/rpc.go:82-84 | the command's info handler is replaced; other commands keep theirs |
| Rpc.RpcHandler.Perform | overlay/rpc.go:54-76 | a running handler's sends are made one by one through `Send` and `SendInfo`; the table and the packets sent are those of `Emit` |
| Rpc.RpcHandler.HandleRequest | overlay/rpc.go:87-97 | the action's sends go out first, then the same message, typed RESPONSE and carrying the action's result, goes back to the sender; the handlers' state becomes the action's |
| Rpc.RpcHandler.HandleResponse | overlay/rpc.go:99-103 | the pending entry is consumed into its slot; other entries are untouched; the invariant is kept |
| Rpc.RpcHandler.HandleInfo | overlay/rpc.go:105-107 | the registered info handler runs on the payload; its sends go out and the handlers' state becomes its result |
| Rpc.RpcHandler.Handle | overlay/rpc.go:42-49 | one dispatch on the message type has exactly the effect `Deliver` specifies on the handlers' state, the table and the packets sent |
| Rpc.RpcHandler.Receive | overlay/rpc.go:37-52 | the new handlers' state, the table, the packets sent and the reason for stopping are those of `Run` over the inbound packets |
| Ring.Owner | overlay/overlay.go:309-314 | the ring's owner of a point is absent exactly on an empty ring; otherwise it is the first id clockwise from the point |
| Ring.OwnerAfterAdd | overlay/overlay.go:171 | adding an id to the ring changes a key's owner only to the new id |
| Membership.NodeFrom | overlay/overlay.go:47-53 | a node built from a wire member gives that member back and has never been heard from |
| Membership.ToMemberNodeFrom | overlay/overlay.go:39-53 | `toMember` keeps all but the liveness time: rebuilding the node from it resets only that time |
| Membership.ToMap | overlay/overlay.go:287-293 | the map is empty iff the list is; the last listed member's id holds the node built from it |
| Membership.ToMapKeys | overlay/overlay.go:287-293 | `toMap` keeps exactly the listed ids; each keys its own node, never heard from |
| Membership.ToMapLastWins | overlay/overlay.go:287-293 | for each id, `toMap` holds the node built from the last entry listing it |
| Membership.ToArray | overlay/overlay.go:295-301 | `toArray` lists one member per map entry |
| Membership.ToArraySpec | overlay/overlay.go:295-301 | `toArray` lists every node of the map in wire form, each once, in ascending id order, and nothing else |
| Membership.ToArrayIds | overlay/overlay.go:295-301 | the ids `toArray` lists are exactly the keys of the map |
| Membership.ToMapToArray | overlay/overlay.go:287-301 | round trip: `toMap(toArray(m))` has the same ids and addresses as `m`; only the liveness times are reset |
| Membership.BroadcastPackets | overlay/overlay.go:279-285 | a broadcast is one INFO packet per target, in target order, each with the same command and payload |
| Membership.InfoTargetsSpec | overlay/overlay.go:279-285 | a broadcast reaches exactly the listed members other than the local node; with ascending ids no member is reached twice |
| Membership.EvictOne | overlay/overlay.go:110-115 | one sweep step deletes no member other than the visited one and adds none |
| Membership.EvictOneState | overlay/overlay.go:110-115 | one sweep step deletes the visited member exactly when it is present and dead; it keeps the map well keyed and the table invariant |
| Membership.EvictOneKicks | overlay/overlay.go:110-115 | one sweep step only appends packets; among them is a LEAVE kicking the visited member exactly when the step deletes it |
| Membership.EvictOneAddressed | overlay/overlay.go:110-115 | every LEAVE a sweep step sends goes to the kicked member and carries a list without it; an evicting step first sends the LEAVE under the number just issued, naming the kicked member and listing `toArray` of exactly the members left |
| Membership.EvictKeeps | overlay/overlay.go:107-118 | the sweep keeps the map well keyed and the table invariant; it only appends packets and addresses every LEAVE to the member it kicks |
| Membership.EvictMembers | overlay/overlay.go:109-116 | over an ascending list, the sweep deletes exactly the listed dead members and leaves every other node as it was |
| Membership.EvictKicked | overlay/overlay.go:109-116 | the LEAVE requests of the sweep kick exactly the dead listed members, once each, in list order |
| Membership.CheckAliveEvictsDead | overlay/overlay.go:107-118 | one tick removes exactly the dead members, never the local node, and leaves the others unchanged; a member is kicked by a LEAVE iff it was dead |
| Membership.DeadInSpec | overlay/overlay.go:109-116 | a member is selected as dead iff it is listed and its node is silent for more than 10 s and not the local node |
| Overlay.RouteOf | overlay/overlay.go:309-323 | no route iff the ring is empty; otherwise the route names the ring's first id clockwise, with its node when `members` holds it |
| Overlay.EvictedOwnerUnroutable | overlay/overlay.go:107-118 | after a tick evicts the ring owner of a key, routing that key finds no member |
| Overlay.JoinListComplete | overlay/overlay.go:167-170 | the list in the JOIN response holds the joiner and every node the coordinator knew before, in ascending id order |
| Overlay.InfoSends | overlay/overlay.go:279-285 | the sends of a broadcast are one INFO per target, in target order, each to the target's address with the same command and payload |
| Overlay.EmitInfoSends | overlay/overlay.go:279-285 | performing a broadcast's sends through `SendInfo` issues no number and puts exactly the broadcast's packets on the wire |
| Overlay.InfoSendsReach | overlay/overlay.go:279-285 | each send of a broadcast over a list is that INFO, to a listed member other than the local node |
| Overlay.JoinHandlerSpec | overlay/overlay.go:156-179 | the JOIN handler over the view keeps the view valid; on the coordinator it hands out an id the ring did not hold, records the joiner alive now, answers OK with a list holding the joiner and every member known before, and sends NETWORK_INFO with that list only to listed members other than itself; any other node answers NOT_COORDINATOR with the view unchanged and nothing sent |
| Overlay.Overlay.constructor | overlay/overlay.go:59-72 | the local node has id 1; the coordinator is known only by its address; the map is empty, the ring holds 1 and the next id is 2 |
| Overlay.Overlay.Start | overlay/overlay.go:74-91 | a node at the coordinator's address becomes the coordinator and its own only new member; any other node sends one JOIN to the coordinator |
| Overlay.Overlay.NewCoordinator | overlay/overlay.go:59-91 | a bootstrap node is coordinator and sole member with id 1, its ring holds 1 and the next id is 2 |
| Overlay.Overlay.Join | overlay/overlay.go:126-130 | one JOIN naming the local address goes to the coordinator under a fresh number |
| Overlay.Overlay.OnJoinResponse | overlay/overlay.go:131-147 | the named coordinator is adopted; OK takes the assigned id and any non-empty member list; NOT_COORDINATOR joins again; the ring is unchanged |
| Overlay.Overlay.JoinAction | overlay/overlay.go:156-179 | the coordinator admits the joiner under the next id, adds it to map and ring, answers OK with the new list and broadcasts NETWORK_INFO; any other node answers NOT_COORDINATOR and changes nothing; the new view, the reply and the packets sent are those of the handler `JoinHandler` on the old view |
| Overlay.Overlay.LeaveAction | overlay/overlay.go:199-207 | the view becomes `toMap` of the carried list; the node sends a JOIN iff it is the kicked member |
| Overlay.Overlay.NetworkInfoAction | overlay/overlay.go:254-262 | the view and the coordinator become the ones received |
| Overlay.Overlay.GetAction | overlay/overlay.go:218-229 | a stored key answers OK with its local value; any other key answers NOT_FOUND with no value |
| Overlay.Overlay.PutAction | overlay/overlay.go:240-248 | the value is stored locally under the key, other keys keep theirs, and the response is empty |
| Overlay.Overlay.NetworkInfo | overlay/overlay.go:250-252 | sends NETWORK_INFO, with the coordinator and `toArray` of the members, to every member except the local node |
| Overlay.Overlay.BroadcastInfo | overlay/overlay.go:279-285 | the packets sent are the broadcast to the listed members other than the local node, in list order |
| Overlay.Overlay.InfoTo | overlay/overlay.go:281-283 | sends one INFO to a member other than the local node, and nothing to the local node |
| Overlay.Overlay.Leave | overlay/overlay.go:195-197 | one LEAVE, under a fresh number, goes to the node; it names the node and the current member list |
| Overlay.Overlay.CheckAlive | overlay/overlay.go:107-118 | the new map, table and packet log are those of the sweep `Evict` over `toArray` of the old map; the ring is unchanged |
| Overlay.Overlay.Sweep | overlay/overlay.go:110-115 | one loop iteration has the effect of `EvictOne` for the visited member |
| Overlay.Overlay.GetNodeForKey | overlay/overlay.go:309-323 | no route iff the ring is empty; otherwise the route names the first id clockwise from the key's hash, with that id's node when `members` holds it and as unknown when it does not |
| Liveness.TimedOut | overlay/liveness.go:23-29 | at most one report per listed member |
| Liveness.TimedOutSpec | overlay/liveness.go:23-29 | the reported members are exactly the listed ones silent for more than 10 s |
| Liveness.TimedOutInOrder | overlay/liveness.go:23-29 | the reports are the listed members at strictly increasing positions, and those positions are exactly the ones whose member is silent: one report per silent entry, in list order |
| Liveness.NeverSeenTimesOut | overlay/liveness.go:25 | a member never recorded times out once the clock is more than 10 s past the zero time |
| Liveness.TimeoutIsStrict | overlay/liveness.go:25 | silence of exactly 10 s is not a timeout, and one millisecond more is |
| Liveness.Liveness.constructor | overlay/liveness.go:12-16 | nothing is recorded |
| Liveness.Liveness.SetAlive | overlay/liveness.go:18-21 | the member's time becomes `now`; every other id keeps its time |
| Liveness.Liveness.Check | overlay/liveness.go:23-29 | returns the members `TimedOut` selects, in list order, and changes nothing |
| Store.Store.constructor | store/store.go:25-30 | a new store is empty |
| Store.Store.Get | store/store.go:32-45 | a stored key gives no error and the item with its value; any other key gives `NotFoundError` and leaves `resp` as it was |
| Store.Store.Put | store/store.go:47-56 | the key maps to the new value and other keys keep theirs; the ack is set and there is no error |
| Store.Store.Delete | store/store.go:58-74 | a stored key is removed, alone, and acked; an absent key gives `NotFoundError` and changes nothing |
| Store.Store.Clear | store/store.go:76-84 | every key is removed, the ack is set and there is no error |
| Framing.WordBe32 | server/conn.go:55 | the four big-endian bytes of a 32-bit word read back as that word |
| Framing.Int32 | server/conn.go:55 | Go's `int32(n)` lies in the int32 range, agrees with `n` modulo 2^32, and equals `n` below 2^31 |
| Framing.Signed | server/conn.go:34 | reading a word as int32 inverts storing an int32 as its two's-complement word |
| Framing.Frame | server/conn.go:48-61 | a frame is a 4-byte header followed by the body itself |
| Framing.ReadFrame | server/conn.go:32-46 | fewer than 4 bytes fail (EOF when none); with a header, the read succeeds iff the announced int32 size is between 0 and the bytes that follow; the body is exactly that many bytes after the header and the rest follows it; a negative size fails with the rest after the header; a body cut short fails with EOF when no byte follows the header and unexpected EOF otherwise; input is always consumed unless the stream is empty |
| Framing.ReadWrite | server/conn.go:32-62 | round trip: reading the frame `write` produces for a body shorter than 2^31 bytes gives back that body and leaves the rest of the stream |
| Framing.LongBodyHeaderNegative | server/conn.go:55 | a body of exactly 2^31 bytes gets a header that reads back as a negative size |
| Server.Transact | server/txn.go:16-69 | one transaction writes at most one response, with the request's tag. It writes none for DEL or an unknown operation. GET, PUT and NOP each write the response their handler builds. Only GET and PUT reach the overlay, and the overlay's state afterwards is the one its `Get` or `Put` leaves |
| Server.Session | server/conn.go:16-30 | a stream shorter than a header writes nothing, leaves the overlay's state alone and stops at its read failure: EOF on an empty stream, unexpected EOF otherwise |
| Server.SessionStep | server/conn.go:16-30 | a frame that reads and decodes is answered by its transaction, and serving goes on with the rest of the stream on the overlay's state that transaction left |
| Server.SessionStops | server/conn.go:16-30 | a frame that fails to read or decode stops serving, writes nothing, leaves the overlay's state alone and reports why |
| Server.SessionOfStream | server/conn.go:16-30 | on well-formed frames, serving answers every request in stream order, each on the overlay's state the earlier ones left, then behaves as on what follows |
| Server.GetSeesEarlierPut | server/txn.go:30-54 | on a one-node overlay serving its local store, GET k, PUT k v, GET k on one connection answer NOT_FOUND, the PUT's status, then OK with v: a later GET sees an earlier PUT |
| Server.Conn.constructor | server/server.go:29-32 | the connection starts with its input stream, nothing written, the given codec and overlay, and the overlay's state |
| Server.Conn.Read | server/conn.go:32-46 | consumes exactly what `ReadFrame` consumes; returns the read failure, the decode failure or the request |
| Server.Conn.Write | server/conn.go:48-62 | appends exactly the frame of the encoded response |
| Server.Conn.Serve | server/conn.go:16-30 | writes exactly `Session`'s output for the stream it was given, stops for `Session`'s reason and leaves the overlay in `Session`'s final state |
| Server.Conn.Turn | server/conn.go:17-29 | one iteration: it stops with `Session`'s reason, nothing written and the overlay untouched, or it writes the first request's responses, moves the overlay to the state that transaction leaves and consumes input |
| Server.Txn.constructor | server/conn.go:18-19 | a transaction starts with the request, an unset response, the connection and its overlay |
| Server.Txn.Run | server/txn.go:23-28 | appends exactly the frames of `Transact` for the request and moves the overlay to the state `Transact` leaves |
| Server.Txn.Get | server/txn.go:30-43 | a miss answers NOT_FOUND alone; a hit answers OK with the request's key and the overlay's value; one frame is written; the overlay moves to the state its `Get` leaves |
| Server.Txn.Put | server/txn.go:45-54 | answers the overlay's status, mapped one to one; one frame is written; the overlay moves to the state its `Put` leaves |
| Server.Txn.Nop | server/txn.go:59-61 | answers the tag alone; one frame is written |
| Server.Txn.Respond | server/txn.go:63-69 | copies the request's tag into the response and writes its frame |

## Left out

- Goroutines, channels and locks are not modelled. The model is one sequential
  thread per operation. The races between `receive`, `checkAlive` and the
  pingers, and the store's mutex, are left out.
- Reply channels are one-shot slots in `RpcHandler.slots`. The goroutine in
  `Join` that waits on its channel is `OnJoinResponse`, applied to the
  response.
- Heartbeats are left out: `pinger`, `Heartbeat`, `HeartbeatAction`, the
  `go o.pinger(...)` started by `JoinAction`, and `Node.SetAlive`. They are
  periodic goroutines driven by the clock. A member's `lastAlive` changes
  only through the map the model is given.
- The blocking `Overlay.Get`/`Overlay.Put` round trips are the two functions
  of `Server.Backend`. Each takes the overlay's state and returns its new
  state with the reply, and the connection carries that state from one
  transaction to the next. Routing the key to a remote node and the network
  round trip are not modelled; `Server.LocalStore` is the one-node case,
  served by `GetAction` and `PutAction`.
- `Overlay.Broadcast` is not modelled. Nothing in the core calls it.
- `debugMode`, `StartMember` and all logging only print, and are not modelled.
- Handler registration in `Start` and the `go rpcHandler.receive` it starts
  are not modelled. `Start` models the bootstrap/join branch only. JOIN's
  handler is also written as the `Rpc.Action<Overlay.View>` function
  `Overlay.JoinHandler`, and `Overlay.Overlay.JoinAction` is proved to act
  as it. `LeaveAction`, `NetworkInfoAction`, `GetAction` and `PutAction`
  are methods only, so no lemma relates a `Run` over inbound LEAVEs to them.
- Overlay.JoinHandler: a JOIN payload that is not a `JoinRequest` is
  answered NOT_COORDINATOR with nothing changed. On the coordinator, Go
  would dereference the unset address and panic instead.
- The protobuf encoding is not modelled. Payloads are records; the client
  codec is the parameters `decode` and `encode` of `Server.Conn`.
- Address resolution in `NodeFrom` is not modelled. The panic on an
  unresolvable address is outside the model.
- The hash ring is modelled abstractly: ids are positions and a key's point
  is `keyHash(key)`. CRC32, the two virtual replicas and `GetN`
  (github.com/stathat/consistent) are not part of this model.
- Socket errors on `write` and the underlying UDP and TCP transports are not
  modelled. The router is an outbound packet log.
- Overlay.Overlay.Start: Go compares two `*net.UDPAddr` values by identity. The model
  takes the outcome of that comparison as the parameter `sameAddr`.
- Go's `int64` ids, sequence numbers and times are unbounded integers. The
  model does not capture 64-bit wrap-around.
- Server.Txn.Put: the status of a `PutResponse` whose status field is unset
  is whatever the backend function returns. The model does not fix Go's
  default for it.
- Framing.ReadWrite: the round trip needs a body shorter than 2^31 bytes.
  Longer bodies wrap in `int32(len(buf))`, as `Framing.LongBodyHeaderNegative`
  shows.
- `Txn.del` does nothing and has no contract. DEL's empty output is stated by
  `Server.Transact`.
