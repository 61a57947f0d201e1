# tcp-striper, verified

A Dafny model of tcp-striper, a small event-driven relay, with proofs of what
it promises. `dafny verify dfyconfig.toml` checks all of it.

The program is a stack of state machines over non-blocking TCP sockets. A *TCP
pipe* keeps the state bits of one socket and the event mask registered for it.
An *atomic pipe* on top of it makes partial sends all-or-nothing, with a pending
buffer and a deferred FIN. A *datagram pipe* on top of that puts a
variable-length size in front of each payload, and reassembles payloads from
arbitrary chunks. A *bridge* relays between two pipes of either kind, both ways,
under back-pressure, and passes FIN on. A `select()` *event loop* drives it all;
it keeps its sockets in a parent-linked search tree.

## How it is modelled

| file | what it holds |
|---|---|
| `Serialize.dfy` | the 7-bit size codec: reference definitions, the two writers, the parser |
| `Framing.dfy` | the wire format on values: what a stream of bytes says, apart from any code |
| `Tcp.dfy` | the receive and pending buffers, the foreign socket, the TCP pipe |
| `Atx.dfy` | the atomic-send pipe |
| `Dgm.dfy` | the datagram pipe, and datagram delivery between two of them |
| `Pipes.dfy` | the pipe interface over both kinds |
| `Bridge.dfy` | the bridge: conservation, relay, shutdown |
| `Proxy.dfy` | a bridge under an event loop whose events may be stale; no lost wakeup |
| `Chain.dfy` | two proxies back to back, all runs of them, and that they never deadlock |
| `Tree.dfy` | the search tree and its iterator |
| `EventLoop.dfy` | the registry of sockets and the restartable dispatch |
| `Wiring.dfy` | a proxy on the event loop: the two halves put together |

Objects that the program updates in place are classes, and its loops are loops.
Ghost fields record what has happened: all packets a pipe accepted, all payloads
it delivered, all calls of on_shutdown, all calls made to a socket with their
results. Class invariants tie the fields of the program to these records, and the
contract of each method says how they go on.

The foreign calls `recv`, `send`, `shutdown` and `select` are methods that do any
of the things the system may do: take or give some nonempty part, refuse, fail,
deliver FIN when everything is read. What holds of the model therefore holds for
every splitting of the bytes and every order of events.

Callbacks are tail calls in the program (src/io/src/io_pipe_tcp.c:108-114). Here
each layer returns the events to the caller, which hands them on. `map_item **`
is a slot: the root, or a side of an owner. The tree carries a ghost shape, and
a place in it is a path that shape can be plugged into.

## Where the code differs from its words

- `map_del` on a node with two children sets `item->p` where `item->r->p` is
  evidently meant (src/data/src/map.c:84-88). `Tree.Map.Del` is the text as
  written; its contract says that parent links survive if and only if the node
  did not have two children, and what they are otherwise. `Tree.Spoiled` is the
  smallest case, `Tree.SpoiledDeeper` one where the left child has a right child.
- In the event loop, `DelSocket` runs that text. From a good state, the registry,
  the sets and nfds are right after any removal, and the parent links if and only
  if the entry did not have two children. Otherwise a later walk may not end: add
  2, 1 and 3, remove 2 and then 3 (`EventLoop.SpoiledSockets`, `EventLoop.Stuck`).
  The results on dispatching hold up to the first such removal, which the field
  `spoiled` records; callbacks that remove nothing never come to it. With `fixed`
  the class runs `Tree.Map.DelCorrected`, marked as a correction, and the results
  hold without that condition.
- src/io/inc/libp/io_pipe.h:68-73 says that a `send_fin` that must wait returns -1 and that
  `IO_EV_fin_sent` is raised later. The atomic pipe returns 0 and raises nothing
  (src/io/src/io_pipe_atx.c:104-108, 171-178). The model follows the code, and the
  contracts of `OnSocket` say that the deferred FIN goes out unreported. The
  bridge is not affected: it only sends FIN on a writable pipe, where nothing is
  pending.
- `io_parse_size` gives up on four continuation bytes if they are all it has, but
  may accept them with a fifth byte at hand (src/io/src/io_serialize.c:124-134).
  `Serialize.BadIsStableIff` says exactly when a verdict depends on the chunks.
  Sizes that are stored never come to this.
- An empty datagram is returned as 0, which reads as FIN, and one byte is enough
  for it (`Dgm.OneByteIsEmptyDatagram`). The bridge then asserts `fin_rcvd`
  (src/io/src/io_bridge.c:123-124), and assertions are always compiled in
  (src/core/inc/libp/assert.h:10-16). `Dgm.ZeroMeansFin` and `Bridge.RxTx` say that
  this one fails if and only if an empty datagram was returned; in the model
  the outcome is then `Aborted`, and the bridge does nothing more. The other
  proxy never sends one.
- The masks of `io_store_size_unrolled` see the low 32 bits only
  (src/io/src/io_serialize.c:17-53): a size of 2^32 or more is stored as if those
  bits were all of it. `Dgm.DgmPipe.Format` says that a buffer is the datagram of
  its payload if and only if that has less than 2^32 bytes.
- The datagram pipe marks itself broken, but the next clone of the state below
  overwrites the mark (src/io/src/io_pipe_dgm.c:203, 263, 285). The ghost field
  `failed` remembers; `dead` in the bridge is what makes it final.
- An error event on a pipe that is ready is ignored (src/io/src/io_pipe_tcp.c:60-102).

## Model

| member | source | states |
|---|---|---|
| Serialize.Encode | src/io/src/io_serialize.c:10-13 | Size of the stored form: one, two, three or four bytes exactly for values below 2^7, 2^14, 2^21 and 2^28. |
| Serialize.EncodeShape | src/io/src/io_serialize.c:10-13 | Every byte of the stored form but the last has its top bit set, and the 7-bit groups add up to the value. |
| Serialize.MasksAreThresholds | src/io/src/io_serialize.c:17-53 | Each mask test of the unrolled writer, in its place after the earlier ones, compares the low 32 bits of the value with a power of two. |
| Serialize.StoreSizeUnrolled | src/io/src/io_serialize.c:14-61 | For any value: emits the canonical form of its low 32 bits if they are below 2^28 and the form fits, and then returns its length; otherwise returns -1. Bytes beyond the form, and on refusal all bytes, are left alone. For values below 2^32 that is the value itself. |
| Serialize.LowBytes | src/io/src/io_serialize.c:20-60 | The bytes that are stored do not depend on bits beyond the low 32. |
| Serialize.StoreSizeGeneric | src/io/src/io_serialize.c:63-83 | The commented loop emits the same canonical form, for any value and length; when the buffer is short it returns -1 and has filled it with the front of the form. With the row above: the unrolled writer agrees with the loop in result and bytes whenever it succeeds, for values below 2^32. |
| Serialize.EncodeTwo | src/io/src/io_serialize.c:43-51 | The two bytes written are the canonical form of values in [2^7, 2^14). |
| Serialize.EncodeThree | src/io/src/io_serialize.c:32-41 | The three bytes written are the canonical form of values in [2^14, 2^21). |
| Serialize.EncodeFour | src/io/src/io_serialize.c:20-30 | The four bytes written are the canonical form of values in [2^21, 2^28). |
| Serialize.ParseSize | src/io/src/io_serialize.c:107-135 | The parsing loop computes the header rule, which is stated on the whole byte sequence: 0 for too little data, -1 for bad data, else length and value. |
| Serialize.ValueOfSnoc | src/io/src/io_serialize.c:118-127 | Adding each new group at its offset, as the loop does, gives the same number as the reference definition, which folds from the other end. |
| Serialize.RoundTrip | src/io/src/io_serialize.c:10-135 | For every v below 2^28 and any bytes behind it, parsing the stored form gives its length and v. |
| Serialize.StrictPrefixIsIncomplete | src/io/src/io_serialize.c:107-135 | No strict front part of a stored size is taken for a size or for bad data. |
| Serialize.CanonicalIsShortest | src/io/src/io_serialize.c:63-82 | No header that stands for a value is shorter than the stored form of the value. |
| Serialize.GotIsStable | src/io/src/io_serialize.c:114-128 | An accepted header stays what it is when more bytes arrive. |
| Serialize.BadIsStableIff | src/io/src/io_serialize.c:124-134 | A refusal also stands when more bytes arrive, except exactly when all there was were four continuation bytes and the next byte is below 16: the verdict then depends on how the bytes were chopped up. |
| Serialize.BadIsNotStable | src/io/src/io_serialize.c:124-134 | The concrete input: four continuation bytes are refused, the same four with a fifth are accepted as 2^28. |
| Framing.NextFrame | src/io/src/io_pipe_dgm.c:60-94 | What the front of a receive buffer holds; a whole datagram is within the bytes at hand and within the size limit. |
| Framing.FrameIsWhole | src/io/src/io_pipe_dgm.c:228-242 | A formatted datagram is read back as exactly its payload, whatever follows it. |
| Framing.WholeIsStable | src/io/src/io_pipe_dgm.c:72-93 | A datagram that is whole is not changed by later bytes. |
| Framing.FrontOfFrame | src/io/src/io_pipe_dgm.c:72-93 | Any front part of a stream that starts with a formatted datagram is incomplete until all of the datagram is there, and then whole; it is never malformed. |
| Framing.FramesSplit | src/io/src/io_pipe_dgm.c:60-94 | A stream of formatted payloads is cut into exactly these payloads, boundaries intact. |
| Framing.SplitsAgree | src/io/src/io_pipe_dgm.c:121-213 | The datagrams a stream carries do not depend on how it was chopped up: of two readings of one stream, the shorter gives a front part of what the longer gives. |
| Framing.HonestSplit | src/io/src/io_pipe_dgm.c:121-213 | Datagrams cut off the front of a stream of formatted payloads are the first of those payloads, and all of them if the whole stream was cut. |
| Framing.HonestRest | src/io/src/io_pipe_dgm.c:132-194 | At any point in the stream of a well-behaved peer, the rest is not malformed, the next datagram is not empty, and there is no half datagram before FIN. |
| Framing.HonestHasNoEmpty | src/io/src/io_pipe_dgm.c:140-145 | A well-behaved peer never sends what looks like FIN and is not. |
| Buffers.IoBuffer.constructor | src/io/src/io_buffer.c:17-41 | A new buffer holds the given bytes at its start and has the given capacity. |
| Buffers.IoBuffer.Drop | src/io/src/io_pipe_dgm.c:90-91 | Advancing head and size drops just the first bytes. |
| Tcp.Socket.Recv | src/io/src/io_pipe_tcp.c:143-161 | The foreign receive: some nonempty part of what has arrived, in order, or FIN only when all was read, or a failure that takes nothing. Each call is on record, with its length and result. |
| Tcp.Socket.Send | src/io/src/io_pipe_tcp.c:175-192 | The foreign send: takes some front part of the data, or fails and takes nothing; never after shutdown; on record. |
| Tcp.Socket.Shutdown | src/io/src/io_pipe_tcp.c:207 | The foreign shutdown closes the outgoing direction or changes nothing; on record. |
| Tcp.TcpPipe.constructor | src/io/src/io_pipe_tcp.c:121-133 | A new pipe waits for writability only, and all its bits are down. |
| Tcp.TcpPipe.AdjustEventMask | src/io/src/io_pipe_tcp.c:33-51 | Nothing is watched before the pipe is ready or once it is broken; otherwise readable and writable are watched for exactly while the bit is down and no FIN makes it pointless. |
| Tcp.TcpPipe.BrokenIsUnwatched | src/io/src/io_pipe_tcp.c:33-51 | At all times, a broken pipe has nothing watched. |
| Tcp.TcpPipe.OnActivity | src/io/src/io_pipe_tcp.c:53-115 | Its assertions hold for expected events; bits rise and are reported as the event says; the mask follows. A pipe that was connecting becomes ready exactly if there is no error event and connecting did not fail, and else breaks, which is reported. |
| Tcp.TcpPipe.Recv | src/io/src/io_pipe_tcp.c:135-165 | The socket is asked once, for all of len. The bytes returned are the next ones of the inbound stream; 0 only at its end, and then FIN is marked; a fatal error breaks the pipe, which then waits for nothing; any other failure just clears readable; the mask follows. |
| Tcp.TcpPipe.Send | src/io/src/io_pipe_tcp.c:167-196 | The socket is asked once, with all the data. What is sent is a front part of it; the pipe stays writable exactly if all of it was taken; a fatal error breaks it, and then it waits for nothing; any other failure just clears writable; the mask follows. |
| Tcp.TcpPipe.SendFin | src/io/src/io_pipe_tcp.c:198-221 | The socket is asked once: FIN closes the outgoing direction and clears writable, or the pipe breaks. |
| Atx.AtxPipe.CloneState | src/io/src/io_pipe_atx.c:33-40 | The outer state is that of the carrier, except that a pipe with pending data is not writable. |
| Atx.AtxPipe.Recv | src/io/src/io_pipe_atx.c:56-65 | Reading passes through unchanged and disturbs neither pending data nor a deferred FIN. |
| Atx.AtxPipe.Send | src/io/src/io_pipe_atx.c:67-94 | All or nothing: a packet is taken whole or contributes no byte. The carrier is offered the packet once if nothing is pending, and not at all otherwise. Throughout, bytes the carrier took followed by the pending ones are all packets taken, in order (the invariant, kept by every method of the class). |
| Atx.AtxPipe.SendNow | src/io/src/io_pipe_atx.c:76-93 | The same for the part of send where nothing is pending. |
| Atx.AtxPipe.Keep | src/io/src/io_pipe_atx.c:87-93 | What the carrier did not take is pending, nothing more and nothing less. |
| Atx.AtxPipe.SendFin | src/io/src/io_pipe_atx.c:96-113 | With data pending FIN is deferred and 0 is returned; else it goes out at once or the pipe breaks. FIN is never behind fewer bytes than were accepted. |
| Atx.AtxPipe.Push | src/io/src/io_pipe_atx.c:138-162 | The carrier is offered all the pending bytes, once; it takes a front part of them and the rest is kept; they are gone exactly if all were taken. |
| Atx.AtxPipe.Flush | src/io/src/io_pipe_atx.c:133-166 | After a flush either all pending data is out, the carrier is writable and the event goes up unchanged, or writable is taken off the event; a break is reported. |
| Atx.AtxPipe.SendDeferredFin | src/io/src/io_pipe_atx.c:168-178 | The deferred FIN goes out or the carrier breaks, which is reported; writable is taken off the event. |
| Atx.AtxPipe.FlushAndFin | src/io/src/io_pipe_atx.c:133-179 | A deferred FIN goes out exactly when the last pending byte has been taken; that it went out is not reported, and that it broke the carrier is. |
| Atx.AtxPipe.OnActivity | src/io/src/io_pipe_atx.c:129-191 | Ends with an outer state that agrees with the carrier; pending data is offered exactly on a writable event, and a deferred FIN at once with its last byte; no event is raised for FIN, but one for a break; without pending data the event goes up as it is. |
| Atx.AtxPipe.OnSocket | src/io/src/io_pipe_atx.c:129-191 | TCP and atomic callback together: no event is lost, each bit that rises is reported and nothing else is, pending data is offered exactly if the socket is writable, and a FIN that was deferred goes out unreported unless it breaks the pipe. |
| Atx.ReportOfReport | src/io/src/io_pipe_atx.c:133-191 | What is reported after a flush is a true report of how the state changed since before the socket event. |
| Dgm.DgmPipe.constructor | src/io/src/io_pipe_dgm.c:292-312 | A new pipe has read, accepted and delivered nothing. |
| Dgm.DgmPipe.ProcessRx | src/io/src/io_pipe_dgm.c:59-94 | Tells malformed, incomplete and whole apart as the wire format does; a whole datagram is copied out and dropped from the buffer; otherwise the buffer is untouched, and the size is told if the header is there. |
| Dgm.DgmPipe.AdjustRx | src/io/src/io_pipe_dgm.c:97-119 | The unread bytes are kept exactly, at the front of the same buffer if it has the capacity asked for, and otherwise of a new one with just that. |
| Dgm.IncompleteIsShort | src/io/src/io_pipe_dgm.c:155-165 | An incomplete datagram is shorter than a header and the size limit together. |
| Dgm.DgmPipe.MakeRoom | src/io/src/io_pipe_dgm.c:155-165 | When reassembly is incomplete, and len is at least max_size, the unread bytes are at the start of the buffer with room behind them: the carrier is always asked for at least one byte. |
| Dgm.DgmPipe.ReadCarrier | src/io/src/io_pipe_dgm.c:167-184 | The carrier is asked once, for all the room there is. What is read goes behind the unread bytes, which grow by exactly the bytes taken from the socket; 0 only at the end of the stream. |
| Dgm.DgmPipe.Digest | src/io/src/io_pipe_dgm.c:135-145 | With room for max_size bytes: a whole datagram at the front of the buffer is delivered, a malformed one breaks the pipe, and for an incomplete one nothing changes. |
| Dgm.DgmPipe.DigestMore | src/io/src/io_pipe_dgm.c:186-213 | The same right after a read, with -1 for not enough data. |
| Dgm.DgmPipe.RecvMore | src/io/src/io_pipe_dgm.c:167-213 | Reading on: the answer is that for all the unread bytes, the new ones included, and fin_rcvd stays as it was if they hold a whole datagram; FIN in the middle of a datagram breaks the pipe. |
| Dgm.DgmPipe.RecvRest | src/io/src/io_pipe_dgm.c:155-213 | The same, with the buffer made or moved first. |
| Dgm.DgmPipe.Recv | src/io/src/io_pipe_dgm.c:121-213 | With room for max_size bytes: returns the next payload of the stream whole, if all of it is there, and then fin_rcvd is as before; breaks on malformed data and on FIN inside a datagram; 0 is FIN, or an empty datagram; makes progress or clears readable; keeps that a complete datagram in the buffer means readable or broken. The socket is read exactly if no datagram is at hand. A pipe that is broken returns -1 and changes nothing. A well-behaved peer never causes a break. |
| Dgm.ZeroMeansFin | src/io/src/io_pipe_dgm.c:140-213 | A result of 0 means FIN if and only if what was read is not an empty datagram; and nothing else is delivered then. |
| Dgm.OneByteIsEmptyDatagram | src/io/src/io_pipe_dgm.c:72-93 | The concrete input: the single byte 0 is an empty datagram, and no well-behaved peer sends it. |
| Dgm.DgmPipe.AllDelivered | src/io/src/io_pipe_dgm.c:121-213 | Of a stream of formatted payloads that was read to its end, all have been delivered once the pipe is no longer readable: none is stranded in the buffer. |
| Dgm.DgmPipe.HonestUnread | src/io/src/io_pipe_dgm.c:132-194 | The unread bytes of a well-behaved stream are not malformed, and nothing is unread at its end. |
| Dgm.DgmPipe.Format | src/io/src/io_pipe_dgm.c:225-242 | For any payload, the buffer made is the low 32 bits of its size in stored form and then the payload, which is its datagram if and only if it has less than 2^32 bytes; there is none exactly if those bits make 2^28 or more. |
| Dgm.DgmPipe.Forward | src/io/src/io_pipe_dgm.c:244-253 | The datagram is accepted as one packet or not at all. |
| Dgm.DgmPipe.Send | src/io/src/io_pipe_dgm.c:215-254 | For payloads below 2^32 bytes: accepted whole or not at all, and what the carrier accepted is the accepted payloads formatted one after the other. If writable, the carrier is offered the formatted payload once. A payload of 2^28 bytes or more only marks this pipe broken. |
| Dgm.DgmPipe.SendFin | src/io/src/io_pipe_dgm.c:256-265 | FIN goes out or is deferred by the layer below, and the state is cloned. |
| Dgm.DgmPipe.OnActivity | src/io/src/io_pipe_dgm.c:278-287 | A callback overwrites the outer state with that of the carrier, an own broken mark included. |
| Dgm.DgmPipe.OnSocket | src/io/src/io_pipe_dgm.c:278-287 | All three layers of callbacks: no event is lost; this layer is called exactly if there is something to report; when only a deferred FIN went out it is not, and its bits stay stale; when that broke the connection, it is. |
| Dgm.DgmPipe.DeliveredOf | src/io/src/io_pipe_dgm.c:121-213 | If the stream is made of formatted payloads, what was delivered is a front part of them, and all of them after FIN. |
| Dgm.DatagramDelivery | src/io/src/io_pipe_dgm.c:121-254 | For any two pipes in any reachable states, joined by any in-order network: the payloads returned are the first of those accepted, boundaries intact; after FIN they are all of them; and the sender counts as a well-behaved peer, so the receiver never breaks over what it sent. |
| Pipes.Pipe.V | src/io/inc/libp/io_pipe.h:20-95 | A sound pipe shows the state of its carrier; no FIN bit is up together with the bit it ends. |
| Pipes.Pipe.Recv | src/io/inc/libp/io_pipe.h:20-36 | For both kinds of pipes and any inbound stream: bytes are added to what was received, 0 means FIN or that an empty datagram was returned, -1 means not readable or broken; it makes progress or clears readable; the socket is read once, or not at all if a datagram is at hand. |
| Pipes.AnsweredIs | src/io/src/io_pipe_dgm.c:121-213 | What recv returned is what it added to the datagrams delivered; on 0, either FIN and nothing, or an empty datagram and no FIN. |
| Pipes.Ask | src/io/src/io_pipe_dgm.c:121-213 | The same for the call of recv on a datagram pipe that is up, with what it does to the bits and the socket. |
| Pipes.Pipe.Send | src/io/inc/libp/io_pipe.h:28-36 | For both kinds, data that is not empty and below 2^28 bytes: a front part of it is accepted, less than all of it only if the pipe stops being writable. |
| Pipes.Pipe.SendFin | src/io/inc/libp/io_pipe.h:55-66 | For both kinds, when writable: FIN is sent and writable cleared, or the pipe is broken. |
| Pipes.Pipe.OnSocket | src/io/inc/libp/io_pipe.h:38-53 | For both kinds: the callback reports exactly the bits that rose, and is left out only if none did; the bits a socket event stands for are up afterwards, or what was owed has been offered to the socket. |
| Bridge.Rx | src/io/src/io_bridge.c:113-131 | Read from src, any stream: what was read is all that is between what src gave and what dst took; 0 without fin_rcvd happens exactly for an empty datagram. |
| Bridge.PassFin | src/io/src/io_bridge.c:121-129 | FIN is passed on only behind all the data, at most once, with the assertions on fin_rcvd and fin_sent holding. |
| Bridge.OnZero | src/io/src/io_bridge.c:121-129 | On a result of 0 from recv: the assertion on fin_rcvd fails if and only if an empty datagram was returned, and otherwise both hold and FIN is passed on. |
| Bridge.Offer | src/io/src/io_bridge.c:69-82 | One send with its statistics, by its result and the writable bit: congestions counts the sends that took less than all or left the pipe not writable. |
| Bridge.Tx | src/io/src/io_bridge.c:133-167 | Send to dst: what is not taken is pending, and then dst is not writable, as is asserted; congestions counts one exactly if dst is not writable then. |
| Bridge.Flush | src/io/src/io_bridge.c:63-99 | Pending data moves to the pipe, the rest stays pending; its assertions hold; congestions counts one exactly if dst is not writable then; conservation holds again, or a pipe has broken. |
| Bridge.RxTx | src/io/src/io_bridge.c:101-168 | One transfer, for every inbound stream: of its assertions only the one on fin_rcvd can fail, and it does if and only if an empty datagram was returned; conservation in both directions is kept, or a pipe has broken; the socket of src is read, or what was at hand is sent; congestions counts one exactly if dst stopped being writable over data; the buffer is kept or dst is not writable. |
| Bridge.Relay | src/io/src/io_bridge.c:170-203 | The loop ends for every inbound stream and leaves src not readable or dst not writable, with conservation kept and nothing pending on a writable pipe, or with a pipe broken; a direction that was open has been used, and one that was not is left alone; congestions counts one exactly if data closed dst; it aborts if and only if an empty datagram was returned. |
| Bridge.RelayOnce | src/io/src/io_bridge.c:180-200 | Each turn of the loop keeps what the loop has kept so far. |
| Bridge.AfterRecv | src/io/src/io_bridge.c:116-131 | Conservation through a read, with data, FIN, nothing, or a break. |
| Bridge.AfterSend | src/io/src/io_bridge.c:137-167 | Conservation through a send: the pending rest and the counts are right for a full, a partial and a refused send. |
| Bridge.AfterFin | src/io/src/io_bridge.c:121-129 | Conservation through passing FIN on. |
| Bridge.ServeWritable | src/io/src/io_bridge.c:224-239 | After a writable event nothing is pending on a writable pipe, and data no longer can move towards it; what was pending has been offered, or else the other pipe has been used if it was readable; or a pipe is broken, or an empty datagram has made it abort. |
| Bridge.Serve | src/io/src/io_bridge.c:224-253 | After any event data can move in neither direction, each way the event opened has been used, no socket was asked for anything else, and congestions are counted right; or a pipe is broken, or it aborts, if and only if an empty datagram was returned. |
| Bridge.QuietStays | src/io/src/io_bridge.c:224-248 | Work on one direction never opens the other. |
| Bridge.PeerTellsAll | src/io/src/io_bridge.c:258-262 | It is enough that the code looks at the FIN bits of one pipe: those of the other follow. |
| Bridge.FinishedIsComplete | src/io/src/io_bridge.c:258-262 | When both FINs were received and sent on, both pending buffers are empty, and bytes and counts in equal bytes and counts out, both ways. |
| Bridge.IoBridge.constructor | src/io/src/io_bridge.c:319-335 | A new bridge over two connecting pipes meets the invariant. |
| Bridge.IoBridge.OnActivity | src/io/src/io_bridge.c:208-269 | For every inbound stream, every callback keeps the bridge invariant: conservation both ways, pending only on a pipe that is not writable, no direction open, no broken pipe and not finished unless dead. It goes down on a broken event; dead is sticky and on_shutdown is not called again. Unless it goes down on an error, all that the event makes possible has been done, and nothing else, congestions included. It aborts only if an empty datagram was returned. |
| Bridge.IoBridge.Conclude | src/io/src/io_bridge.c:250-268 | How a callback ends: what is left of it decides exactly if the bridge goes down, how, and that on_shutdown is called just then. |
| Proxy.CollectedIsGood | src/io/src/io_pipe_tcp.c:33-51 | Events collected under the registered mask meet the assertions of the pipe. |
| Proxy.QuietIsGood | src/evl/src.linux/event_loop_select.c:270-325 | They still do after any work of the bridge on the pipe in between. |
| Proxy.GoodIsExpected | src/io/src/io_pipe_tcp.c:60-102 | And such events are what on_activity asserts. |
| Proxy.CallbackPoises | src/io/src/io_pipe_atx.c:181-191 | A pipe callback reports to the bridge just what has become possible. |
| Proxy.Fire | src/io/src/io_pipe_tcp.c:104-115 | A socket event, all pipe callbacks and the bridge callback, as one step, keep the bridge invariant for live and dead bridges and every inbound stream; what was connecting is connected, or the bridge is down. The event is not lost: where data can move the socket is read, or sent what waits for it; where it cannot the bit goes up and stays up; and no other call is made. Without empty datagrams no assertion fails. |
| Proxy.Wake | src/io/src/io_pipe_tcp.c:104-115 | The pipe callbacks leave everything as the bridge callback expects it, with the bits of the event up; and if that is not called the bridge is at rest as before. |
| Proxy.Tell | src/io/src/io_pipe_tcp.c:104-115 | The bridge callback, or that it is left out, with what either comes to. |
| Proxy.AttendedIsHeeded | src/io/src/io_pipe_tcp.c:53-115 | From the pipe callbacks and the bridge callback together: what an event comes to, for each state of both pipes. |
| Proxy.Handle | src/evl/src.linux/event_loop_select.c:304-312 | As a step of the dispatch, for any events that are still good: they are heeded as in the row above; the events collected for the other pipe stay good, and not graceful still means a broken connection or a peer that breaks the format. |
| Proxy.Host.Collect | src/evl/src.linux/event_loop_select.c:270-289 | Any events within the registered masks can be collected and all is well. |
| Proxy.Host.Dispatch | src/evl/src.linux/event_loop_select.c:299-326 | Stale snapshots are harmless, whatever the peers send: an event collected before other callbacks ran meets every assertion of the pipe; it is handed over once, and heeded: the socket is read or sent what waits for it, or the bit goes up and stays up; accepted packets and sent bytes only grow. Peers that keep to the format never make it abort. |
| Proxy.NoLostWakeup | src/io/src/io_bridge.c:205-264 | Between callbacks, each unfinished direction of a live bridge with both pipes up waits for a socket event that is in the registered mask, through all layers and for every inbound stream; if a complete datagram sits in the receive buffer, or data is pending in the bridge or in the atomic pipe, it is the outlet that is waited for. |
| Proxy.BrokenIsUnwatched | src/io/src/io_pipe_tcp.c:33-51 | In every state of the host, dead or alive, a side whose connection is broken has nothing watched. |
| Proxy.ShutdownIsExact | src/io/src/io_bridge.c:258-268 | Unless an empty datagram has aborted it: on_shutdown is called at most once and exactly when the bridge dies; as graceful only when all that came in went out with both FINs, and as soon as that is so; not graceful only over a broken connection or a peer that breaks the format. |
| Chain.World.ClientEvent | src/tcp-proxy.c:141-162 | A client event keeps the invariant of the whole chain, and is heeded and used up. |
| Chain.World.ServerEvent | src/tcp-proxy.c:141-162 | The same for the server. |
| Chain.World.Collect | src/tcp-proxy.c:159-162 | A loop may collect any of the events asked for. |
| Chain.World.ClientToServer | src/tcp-proxy.c:141-155 | The network carries any further part of what the client sent, FIN only at its end, and nothing else changes. |
| Chain.World.ServerToClient | src/tcp-proxy.c:141-155 | The same the other way. |
| Chain.World.NearToClient | src/tcp-proxy.c:138-157 | The same from the near application. |
| Chain.World.FarToServer | src/tcp-proxy.c:138-157 | The same from the far application. |
| Chain.World.Forward | src/io/src/io_bridge.c:101-269 | In every reachable state the bytes leaving the far end are a front part of those that entered at the near end, and FIN leaves only behind all of them. |
| Chain.World.Backward | src/io/src/io_bridge.c:101-269 | The same in the other direction. |
| Chain.PendingIsAwaited | src/io/src/io_pipe_atx.c:129-166 | Packets of a live pipe that are not on the wire yet wait for a writable event that was asked for. |
| Chain.AwaitedOrDone | src/io/src/io_bridge.c:205-264 | Between callbacks, one direction of a live bridge has passed on all there is, or waits for an event that was asked for and that the unread bytes or the outlet will bring. |
| Chain.OneWayMoves | src/io/src/io_bridge.c:101-269 | Over two live bridges at rest: if not all that entered has left, then the network has something to carry or a bridge waits for an event it has asked for. |
| Chain.NoDeadlock | src/tcp-proxy.c:137-162 | In every reachable state with both bridges up and connected, whatever has entered at one end and not left at the other, bytes or FIN, is on the move: some step of the network moves it, or an event that will be reported is waited for. Both ways. |
| Chain.Run | src/tcp-proxy.c:137-162 | For every run, that is every sequence of application sends, partial network transfers, collections and callbacks in any order, with every outcome of every socket call: end-to-end delivery, both ways, of exactly what the run put in. |
| Chain.Take | src/tcp-proxy.c:137-162 | Each step is taken as far as it can be: what the network carries has arrived, what was asked for is collected, what was collected is handled. |
| Chain.SetUp | src/tcp-proxy.c:137-157 | The arrangement of the program, with one size for recv_size and max_size, starts such a run. |
| Tree.Map.constructor | src/data/src/map.c:47-51 | A new map is empty. |
| Tree.Map.Find | src/data/src/map.c:15-42 | Comes to the only place the key can be at: all that is left of it is smaller, all that is right of it is bigger; the slot and the parent are those of the place. |
| Tree.Map.Add | src/data/src/map.c:53-67 | A new key gets one node more, in its place in the order, links and parent links kept; for a key that is there, the same item included, the node that has it is returned and nothing changes. |
| Tree.Map.UnlinkOne | src/data/src/map.c:90-105 | With one child or none, the child takes the place of the node, parent links included. |
| Tree.Map.Rightmost | src/data/src/map.c:80-82 | The loop comes to the maximum of the left subtree. |
| Tree.Map.UnlinkTwo | src/data/src/map.c:78-89 | With two children, as written, child links come out right, with the right subtree below the maximum of the left one. Parent links do not: the right child goes on naming the deleted node, and the left child names the node that came right before the deleted one. |
| Tree.Map.UnlinkTwoCorrected | src/data/src/map.c:78-89 | With item->r->p set instead of item->p they do come out right. (Marked as a correction; not the text of the source.) |
| Tree.Map.Del | src/data/src/map.c:69-112 | As written: a stored node is taken out, the in-order sequence loses just it and stays sorted; a lookalike or absent node changes nothing. Parent links go on agreeing if and only if the node did not have two children; if it did, the right child goes on naming it and the left child names its predecessor. |
| Tree.Spoiled | src/data/src/map.c:78-89 | The concrete input: over 1 and 3, deleting 2 leaves 3 with the deleted node as its parent and 1 as its own; with 3 deleted too, a walk that goes on from 1 climbs forever. |
| Tree.SpoiledDeeper | src/data/src/map.c:78-89 | The concrete input where the left child has a right child: of 4 over 2, 6 and 3, deleting 4 leaves 2 and 3 as each other's parents; with 6 deleted too, a walk that goes on from 3 climbs forever. |
| Tree.MaximumPrecedes | src/data/src/map.c:80-82 | What is furthest to the right of the left subtree comes right before the node in order. |
| Tree.RoundAndRound | src/data/src/map.c:142-151 | In general: in a tree whose root names the last node as its parent, which is what becomes of the left subtree, the climb from any node on the right side never ends. |
| Tree.Map.DelCorrected | src/data/src/map.c:69-112 | With the correction parent links always go on agreeing. |
| Tree.Uprooted | src/data/src/map.c:78-105 | Whatever the place and the subtrees, the splice leaves the in-order sequence minus the node, sorted. |
| Tree.Map.FindItem | src/data/src/map.c:114-120 | Finds the node with the key, and NULL means there is none. |
| Tree.Map.Leftmost | src/data/src/map.c:131-140 | The descending loops come to the first node of a subtree. |
| Tree.Map.Climb | src/data/src/map.c:142-151 | The climbing loop ends and comes to the node that follows a subtree, or to NULL. |
| Tree.Map.Walk | src/data/src/map.c:122-154 | From NULL the first node, whatever the parent links; from a node the next one in order, from the last one NULL, for every tree whose child and parent links agree. |
| Tree.Map.Traverse | src/data/inc/libp/map.h:85-88 | Walking from NULL to NULL meets every stored node once, in strictly increasing order. |
| EventLoop.EvlSelect.constructor | src/evl/src.linux/event_loop_select.c:350-373 | A new loop watches nothing. |
| EventLoop.EvlSelect.FindSelectSk | src/evl/src.linux/event_loop_select.c:62-72 | Finds the entry of a socket exactly if it is registered. |
| EventLoop.EvlSelect.AddSocket | src/evl/src.linux/event_loop_select.c:111-138 | One socket more is watched for just its mask; fds_r, fds_w, fds_x and nfds agree with the registry again; the duplicate assertion holds. |
| EventLoop.EvlSelect.ModSocket | src/evl/src.linux/event_loop_select.c:140-174 | The mask of one socket changes, and nothing else; the sets agree again. |
| EventLoop.EvlSelect.Recount | src/evl/src.linux/event_loop_select.c:202-218 | The walk with the early break finds the largest registered socket, or none. |
| EventLoop.EvlSelect.DelSocket | src/evl/src.linux/event_loop_select.c:176-222 | With map_del as written: one socket less is watched, and the sets and nfds agree again. From a good state the next one is good, parent links included, if and only if the entry did not have two children (or map_del is corrected); if it did, its left child names its predecessor as the parent. The walk for nfds is safe: the largest entry has no right child. |
| EventLoop.SpoiledSockets | src/evl/src.linux/event_loop_select.c:176-222 | The concrete input: sockets 2, 1 and 3 are added and 2 is removed. The registry and the sets are right, and 1 is its own parent. |
| EventLoop.Stuck | src/evl/src.linux/event_loop_select.c:202-218 | Then 3 is removed, which walks the tree for nfds: from 1 the walk climbs forever, so del_socket does not return. |
| EventLoop.EvlSelect.Perform | src/evl/src.linux/event_loop_select.c:111-222 | Any one call from a callback, removals as written, keeps the registry agreement, and what is watched is what the call asks for; the loop is dead afterwards exactly if it was or the call was discard; all is good, unless the call was a removal that spoiled the parent links. |
| EventLoop.EvlSelect.Callback | src/evl/src.linux/event_loop_select.c:310-312 | So does any sequence of such calls, up to the first removal that spoils the parent links, and the loop is dead then exactly if one of them was discard; unless map_touched is set no entry came or went; entries that came owe nothing, those that stayed owe what they did. |
| EventLoop.Select | src/evl/src.linux/event_loop_select.c:248-259 | The foreign select(): of the sockets below nfds in each set, those that are ready. |
| EventLoop.SelectedIsOwed | src/evl/src.linux/event_loop_select.c:248-289 | Because sets and nfds agree with the registry, select() looks at exactly what is watched: what it gives for a socket is what happened to it within its mask, and errors. |
| EventLoop.EvlSelect.Snapshot | src/evl/src.linux/event_loop_select.c:267-289 | Afterwards each entry has just what select() gave for it, and active is the number of entries with something. |
| EventLoop.EvlSelect.Deliver | src/evl/src.linux/event_loop_select.c:308-312 | One delivery: what is owed gets less, nothing is owed twice, whatever the callback does; all is good afterwards, unless it made a removal that spoiled the parent links. |
| EventLoop.EvlSelect.Turn | src/evl/src.linux/event_loop_select.c:302-325 | One entry of the inner loop: it owes nothing afterwards; the loop is left only if nothing is owed any more, if the map was touched, or if the loop was discarded or spoiled. |
| EventLoop.EvlSelect.Round | src/evl/src.linux/event_loop_select.c:299-326 | The inner loop ends; it stops early only when nothing is owed any more, begins again only with less to do, and otherwise has delivered everything; or a callback has spoiled the parent links. |
| EventLoop.EvlSelect.Dispatch | src/evl/src.linux/event_loop_select.c:293-328 | Restarts included, the walk ends; active never hides an entry that was not served; a discard by a callback ends it right after that callback; unless a callback, with map_del as written, has spoiled the parent links. |
| EventLoop.EvlSelect.Monitor | src/evl/src.linux/event_loop_select.c:224-329 | For any callbacks that add, modify, remove and discard: each entry is called at most once, with exactly its events of the snapshot. Unless a callback removes an entry with two children, with map_del as written, it is called if it is still registered at the end and the loop was not discarded, what is watched then is what the callbacks made of it, and the loop is dead, disposed of and -1 returned, if and only if a callback discarded it, which then is the last one called. When select() fails, or from within a callback, it returns -1 and changes nothing. |
| EventLoop.EvlSelect.Dispose | src/evl/src.linux/event_loop_select.c:92-106 | Removes every entry exactly once, in order, and ends, whatever the parent links: it always deletes the first node and never follows one. |
| EventLoop.EvlSelect.Discard | src/evl/src.linux/event_loop_select.c:331-345 | Within a callback only marks the loop dead; outside it disposes of it at once. |
| Wiring.ModsAreRan | src/io/src/io_pipe_tcp.c:33-51 | The masks that the callbacks leave behind are what the loop watches after them, if each asks for the masks of both pipes. |
| Wiring.HandOver | src/evl/src.linux/event_loop_select.c:304-312 | One delivery of monitor is one dispatch of the host, and is heeded; what is left to hand over is the other socket, if it was owed anything and was not called. |
| Wiring.Replay | src/evl/src.linux/event_loop_select.c:299-326 | All deliveries of a round are handed over, in order, and each meets the assertions of the pipe it goes to. |
| Wiring.Take | src/evl/src.linux/event_loop_select.c:267-326 | What monitor found for two sockets is a collection the host expects, and what it delivered is dispatched, in order and nothing else. |
| Wiring.Start | src/io/src/io_pipe_tcp.c:121-133 | After init of both pipes a new loop watches what they want watched: a first call of monitor can come. |
| Wiring.Cycle | src/evl/src.linux/event_loop_select.c:224-329 | One call of monitor on a loop that watches what the pipes of a proxy want watched: what the host has handled is what the loop delivered, to each pipe once what happened of what it wanted; and afterwards the loop again watches what the pipes want, if the callbacks are those of the proxy. |

## Left out

- EventLoop.EvlSelect.DelSocket: for the largest socket asks for parent links that agree. Without them the walk for nfds may not end (`EventLoop.Stuck`).
- EventLoop.EvlSelect.Monitor: goes no further than to the first removal that spoils the parent links; what the next walk does then depends on the links, and it may not end.
- EventLoop.EvlSelect.Callback: stops there too, for the same reason.
- EventLoop.SelectSk.constructor: `have` starts out empty, and so do `in_callback` and `dead` of the loop; the source leaves all three unset on allocation.
- Dgm.DgmPipe.Recv: asks for len >= max_size, as the program has it (512K for both): process_rx copies a datagram of up to max_size bytes without looking at len, so a caller owes it that room. The branch for a caller's buffer that is too small is then unreachable.
- Dgm.DgmPipe.RecvMore: asks for len >= max_size, see above.
- Dgm.DgmPipe.RecvRest: asks for len >= max_size, see above.
- Dgm.DgmPipe.Digest: asks for len >= max_size, see above.
- Dgm.DgmPipe.DigestMore: asks for len >= max_size, see above.
- Dgm.DgmPipe.MakeRoom: asks for len >= max_size, see above.
- Dgm.DgmPipe.ProcessRx: asks for len >= max_size, see above.
- Tcp.TcpPipe.Recv: asks for len > 0. A read of no bytes gives 0 from the system, which the code would take for FIN; no caller does it.
- Atx.AtxPipe.Recv: asks for len > 0, see above.
- Pipes.Pipe.Send: asks for data that is not empty and below 2^28 bytes, which is what the bridge sends; what a datagram pipe does with other sizes is said by Dgm.DgmPipe.Send.
- Pipes.Pipe.SendFin: asks for a writable pipe, as the bridge has it; a FIN that must wait is said by Dgm.DgmPipe.SendFin and Atx.AtxPipe.SendFin.
- Dgm.DgmPipe.Send: asks for less than 2^32 bytes; a longer payload may go out with a wrong size (`Dgm.DgmPipe.Format`), and then the stream is not what was accepted. It does not check max_size, as the code does not; that the receiver accepts the payload is a condition of `DatagramDelivery` and follows from recv_size <= max_size in `Chain`.
- Chain.Run: safety over all runs. That nothing waits for what nobody will bring is `Chain.NoDeadlock`; that data does arrive in the end also depends on the fairness of the network and is not stated.
- Tcp.TcpPipe.constructor: new_tcp_pipe and init in one, on a socket that is connecting; so for the other pipes and the bridge.
- Wiring.Cycle: the deliveries are handed to the pipes after monitor has made them, in their order; a callback acts on the loop only by what `program` says, and the result on the masks is for a `program` that says what the pipes do.
- discard and dispose of pipes and bridge, and the memory they free.
- Real sockets, errno: whether a failure is fatal is a choice of the foreign call. Socket options, addresses, terminal handling.
- Machine arithmetic of counters and socket numbers, and FD_SETSIZE: integers are unbounded.
- Running out of memory: allocation succeeds.
- The NULL-buffer branch of io_store_size and get_pipe_state: the masks and shifts there do not fit the rest, and nothing depends on them.
- The programs around it beyond which pipe wraps which and the sizes; the Windows event loop; list.h; the trunking pipe that is only declared.
