# A verified model of a user-space TCP/IP stack

This project models, in Dafny, the core of a small user-space TCP/IP stack. The stack has
five layers:

- **Byte stream.** A bounded FIFO with a writer side and a reader side.
- **Reassembler.** It stages substrings that arrive at arbitrary stream indices and writes the
  contiguous prefix to the stream.
- **TCP receiver.** It maps 32-bit sequence numbers to stream indices, and reports an
  acknowledgment number, a window and a reset flag.
- **TCP sender.** It cuts the outbound stream into segments that fit the window, keeps the
  unacknowledged ones in a FIFO, retires them on cumulative acknowledgments and retransmits the
  oldest on timer expiry.
- **Network interface and router.** The interface resolves next hops with ARP (RFC 826), queues
  datagrams while a request is out, and sends at most one request per address every 5000 ms.
  The router hands every datagram its interfaces received to the interface named by the first
  matching entry of its routing table.

Each module follows one source file:

| module | models |
|---|---|
| `ByteStreams` | `src/byte_stream.cc` |
| `Reassembly` | `src/reassembler.cc` |
| `TcpReceiving` | `src/tcp_receiver.cc` |
| `TcpSending` | `src/tcp_sender.cc` |
| `Interfaces` | `src/network_interface.cc` |
| `Routing` | `src/router.hh` and `src/router.cc` |

The supporting modules are:

- `Common`: bounds and `Option`.
- `Wrapping`: the 32-bit sequence-number helpers.
- `Retransmission`: the retransmission timer.
- `TcpMessages`: the TCP message types.
- `Ethernet`: frames, ARP messages and datagrams as values.

Objects whose fields the source updates in place are classes with `modifies` clauses:

- the stream;
- the reassembler;
- the receiver;
- the sender;
- each network interface;
- the router.

Where the source does more than update a field or two, the method is proved against a pure
specification function of the old state:

- `Reassembler.Insert` (and, through it, `TCPReceiver.Receive`): `State() == Inserting(old(State()), ...)`;
- `NetworkInterface.SendDatagram`, `RecvFrame` and `Tick`: `State() == Sending(old(State()), ...)`,
  `Receiving(...)` and `Ticking(...)`;
- `Router.Route`: the interface states afterwards `== Routed(old(States()), ...)`;
- `TCPSender.Push`: `segments == PushSegments(old(PushStateNow()), ...)`, which fixes every
  segment of the batch: its length, its flags and where its payload starts.

The byte stream's methods and the sender's `Receive` and `Tick` instead state their effect field
by field, through smaller functions such as `Popped` (how many outstanding segments an
acknowledgment retires) and the timer's `Tick`.

The properties the source relies on are lemmas about those functions:

- **Reassembler.** Inserting substrings of one stream delivers exactly the next slice of it,
  closes the output only once the whole stream is delivered, and never overfills the output.
- **Sender.** The outstanding queue stays contiguous, and `inFlight` counts its sequence
  numbers.
- **Interface.** ARP requests are throttled. Waiting datagrams are released in order once
  their next hop is learned.
- **Router.** Routing walks the table in first-match order. A whole `route()` call equals
  use_ethernet's specification applied to each queued datagram in turn, interface by interface.

Fixed-width arithmetic is written out where it matters:

- the stream indices and window end of the reassembler (uint64_t);
- the receiver's `absolute_seqno - 1`;
- the sender's `window_size - in_flight` (size_t);
- the router's 32-bit stored value.

## Model

| member | source | states |
|---|---|---|
| `ByteStreams.ByteStream.constructor` | src/byte_stream.cc:5-7 | A new stream has the given capacity. It is empty, open and error-free, and has counted nothing pushed. |
| `ByteStreams.ByteStream.IsClosed` | src/byte_stream.cc:9-12 | True exactly when the writer has closed the stream. |
| `ByteStreams.ByteStream.Push` | src/byte_stream.cc:14-24 | Appends the longest prefix of the data that fits the remaining capacity. The rest is dropped. The accepted history grows by exactly that prefix. The capacity bound and the pushed count (popped plus buffered) are kept. |
| `ByteStreams.ByteStream.Close` | src/byte_stream.cc:26-29 | Marks the stream closed and changes nothing else. |
| `ByteStreams.ByteStream.SetError` | src/tcp_receiver.cc:7-9 | Raises the stream's error flag and changes nothing else. |
| `ByteStreams.ByteStream.AvailableCapacity` | src/byte_stream.cc:31-34 | Free space plus buffered bytes equals the capacity. |
| `ByteStreams.ByteStream.BytesPushed` | src/byte_stream.cc:36-39 | The number of bytes ever accepted: the length of the whole accepted history. |
| `ByteStreams.ByteStream.IsFinished` | src/byte_stream.cc:41-44 | True exactly when the stream is closed and nothing is buffered. |
| `ByteStreams.ByteStream.BytesPopped` | src/byte_stream.cc:46-49 | The number of bytes the reader has taken. Popped plus buffered equals pushed. |
| `ByteStreams.ByteStream.Peek` | src/byte_stream.cc:51-58 | At most one byte. It is empty exactly when nothing is buffered; otherwise it is the oldest unread byte of the accepted history. |
| `ByteStreams.ByteStream.Pop` | src/byte_stream.cc:60-68 | Removes min(len, buffered) bytes from the front and records them as popped. The accepted history is unchanged. |
| `ByteStreams.ByteStream.Read` | src/tcp_sender.cc:16 | The read helper: returns the first min(len, buffered) bytes in order and pops exactly those. |
| `ByteStreams.ByteStream.BytesBuffered` | src/byte_stream.cc:70-72 | The number of buffered bytes, which never exceeds the capacity. |
| `Reassembly.WindowEnd` | src/reassembler.cc:14 | The uint64_t sum next_index_ + available_capacity(). It is below 2^64, and it is the true sum whenever that does not overflow. |
| `Reassembly.StageOnlyInWindow` | src/reassembler.cc:12-20 | The staging loop only adds indices inside [next, window end) and keeps every earlier entry. |
| `Reassembly.StageClosedForm` | src/reassembler.cc:12-20 | Without wrap-around, after staging, a window index covered by the data holds the data's byte. Every other entry is unchanged. |
| `Reassembly.StageFromLastIndex` | src/reassembler.cc:12-20 | A substring at index 2^64 - 1 stages like its tail at index 0, because the index wraps. |
| `Reassembly.DrainRun` | src/reassembler.cc:22-32 | The drain loop moves the run of staged bytes at next, in index order, stopping at a gap or at the end-of-stream index. Exactly those entries leave the map. |
| `Reassembly.DrainStops` | src/reassembler.cc:24-32 | The drain stops after its run, at a missing index or at the end-of-stream index. |
| `Reassembly.DrainBytes` | src/reassembler.cc:24-28 | The drained bytes are the staged bytes at next, next + 1, … |
| `Reassembly.DrainErases` | src/reassembler.cc:24-28 | Draining erases exactly the indices it moved and leaves every other entry unchanged. |
| `Reassembly.StageAgrees` | src/reassembler.cc:12-20 | Staging a substring of a reference string keeps the map consistent with that string. |
| `Reassembly.DrainAgrees` | src/reassembler.cc:22-32 | Draining a map consistent with a reference string delivers exactly the next slice of the string. |
| `Reassembly.StageKeepsWindow` | src/reassembler.cc:12-20 | Staging keeps every staged index inside [next, next + available) and below 2^64 - 1. |
| `Reassembly.DrainKeepsWindow` | src/reassembler.cc:22-33 | Draining a window-bounded map moves at most the available capacity, so the push at line 33 never truncates. |
| `Reassembly.DeliveredAgrees` | src/reassembler.cc:22-36 | From a state consistent with a reference stream, the drain appends the next slice of that stream to the output and stays consistent with it. |
| `Reassembly.StagingAgrees` | src/reassembler.cc:12-20 | Staging a substring of a reference stream keeps the whole state consistent with that stream. |
| `Reassembly.InsertingAgrees` | src/reassembler.cc:5-37 | For substrings of one stream s, with the last-substring flag only on one that ends s: each insert appends exactly s[old next .. new next] to the output, keeps the staged bytes equal to s's, and closes the output only when all of s is delivered and nothing is staged. |
| `Reassembly.Reassembler.Insert` | src/reassembler.cc:5-37 | In order: records the last index (mod 2^64) when the substring is last, stages its in-window bytes, drains the contiguous run into the stream, and closes the stream at the last index. The stream's popped bytes and error flag are untouched. |
| `Reassembly.Reassembler.DrainContiguous` | src/reassembler.cc:22-36 | Pushes the drained run into the output and closes it when the end-of-stream index is reached. |
| `Reassembly.Reassembler.TakeRun` | src/reassembler.cc:22-32 | The while loop over internal_bytes computes exactly the specification's drain: the same bytes, the same remaining map and the same next index. |
| `Reassembly.Reassembler.BytesPending` | src/reassembler.cc:39-41 | The number of staged bytes, which never exceeds the output's free capacity. |
| `Wrapping.Unwrap` | src/tcp_receiver.cc:19 | The unwrapped absolute sequence number wraps back to the given seqno. |
| `Wrapping.UnwrapClosest` | src/tcp_receiver.cc:17-19 | No absolute value with the same wrapped form is closer to the checkpoint. |
| `Wrapping.UnwrapWrap` | src/tcp_receiver.cc:27-30 | Unwrapping a wrapped value against itself as the checkpoint gives it back. |
| `Wrapping.UnwrapNearCheckpoint` | src/tcp_sender.cc:49 | The result is within 2^31 of the checkpoint when the checkpoint is at least 2^31. |
| `TcpReceiving.StreamIndex` | src/tcp_receiver.cc:17-20 | 0 for a SYN segment. Otherwise, the uint64_t value of the absolute seqno minus one: its successor is the absolute seqno mod 2^64. |
| `TcpReceiving.SegmentAtZeroPoint` | src/tcp_receiver.cc:18-22 | A non-SYN segment at the zero point gets index 2^64 - 1. Its first byte is never staged, and the rest stage as from index 0. |
| `TcpReceiving.TCPReceiver.Checkpoint` | src/tcp_receiver.cc:17 | The reassembler's next index plus one for the SYN, plus one more once the stream is closed. |
| `TcpReceiving.TCPReceiver.Receive` | src/tcp_receiver.cc:5-23 | RST raises the stream error. SYN sets the zero point. Without a zero point nothing else changes. Otherwise the payload is inserted at the segment's stream index, with FIN as the last-substring flag. |
| `TcpReceiving.TCPReceiver.Send` | src/tcp_receiver.cc:25-36 | The ackno is present exactly when a zero point is set, and then wraps the checkpoint. The window is min(65535, free capacity). RST holds exactly when the stream has an error. |
| `TcpReceiving.TCPReceiver.AcknoNamesCheckpoint` | src/tcp_receiver.cc:27-30 | The ackno sent, unwrapped against the checkpoint, is the checkpoint itself. |
| `Retransmission.Backoff` | src/tcp_sender.cc:82-88 | After k unacknowledged expiries with an open window, the RTO is 2^k times its value and the retransmission count has grown by k. With a closed window the RTO stays put. |
| `Retransmission.ExpiresAfterRto` | src/tcp_sender.cc:82-83 | A freshly reset running timer expires exactly when a full RTO has elapsed. |
| `Retransmission.ProgressResets` | src/tcp_sender.cc:70-77 | An acknowledgment of progress returns the RTO to its initial value and zeroes the retransmission count. |
| `Retransmission.OperationsKeepValid` | src/tcp_sender.cc:80-89 | Every timer operation the sender uses keeps an idle timer at its initial RTO. |
| `TcpSending.EffectiveWindow` | src/tcp_sender.cc:10 | A zero window is read as one; any other window is itself. |
| `TcpSending.MaxPayloadSize` | src/tcp_sender.cc:14-15 | At most MAX_PAYLOAD_SIZE. When what is in flight plus an unsent SYN fits the window, the payload bound keeps it within the window. |
| `TcpSending.ShrunkWindowOvershoot` | src/tcp_sender.cc:14-15 | When the window has shrunk below what is in flight, the size_t difference wraps. The bound becomes MAX_PAYLOAD_SIZE, past the window. |
| `TcpSending.QueueAppend` | src/tcp_sender.cc:26-28 | Queuing a non-empty segment stamped with next_seqno_ keeps the queue contiguous, with inFlight equal to its total sequence length. |
| `TcpSending.QueuePop` | src/tcp_sender.cc:63-67 | Popping the front advances acked_seqno_ past it and keeps the queue invariant. |
| `TcpSending.SegmentWithinWindow` | src/tcp_sender.cc:14-19 | A segment built with the capped payload, and with FIN only when it fits, stays within a window that already covers what is in flight. |
| `TcpSending.AckedCountPopped` | src/tcp_sender.cc:54-68 | Every segment the acknowledgment loop pops starts before the ackno and ends at or before it, with a SYN segment's end taken one early. |
| `TcpSending.AckedCountStops` | src/tcp_sender.cc:54-60 | The first segment kept is not acknowledged: the ackno does not pass its start, or it falls short of its end. |
| `TcpSending.SynSegmentPoppedEarly` | src/tcp_sender.cc:57 | SYN + "ab" occupies 3 sequence numbers, yet an ackno of 2 pops it. |
| `TcpSending.PushedBatchAt` | src/tcp_sender.cc:12-31 | In one push batch, each segment is non-empty, holds at most MAX_PAYLOAD_SIZE bytes and carries the error flag as RST. Only the first carries SYN, and only the last FIN. |
| `TcpSending.ContiguousAt` | src/tcp_sender.cc:26-28 | In a contiguous queue, segment k's seqno wraps the start plus the lengths before it. It is non-empty, and it carries SYN only at position 0 from sequence number 0. |
| `TcpSending.ContiguousAppend` | src/tcp_sender.cc:26-28 | A segment stamped where the queue ends keeps the queue contiguous. |
| `TcpSending.TakenFromFront` | src/tcp_sender.cc:16 | Bytes read from a stream whose accepted history is unchanged are the front of its old buffer, and the rest stays buffered. |
| `TcpSending.SentAllQueued` | src/tcp_sender.cc:16-28 | Emitting a batch queues all its segments in order, reads their payloads from the stream and adds their lengths to the bytes in flight. |
| `TcpSending.SentAllFields` | src/tcp_sender.cc:12-31 | Emitting a batch in which only the last segment may carry FIN marks SYN sent once anything is sent and FIN sent iff the last carries it, starts the timer, keeps the stream's accepted history and changes nothing else. |
| `TcpSending.PushedFromAppend` | src/tcp_sender.cc:12-31 | One more well-formed segment sent before FIN keeps the push loop's invariant. |
| `TcpSending.TCPSender.MakeMessage` | src/tcp_sender.cc:92-99 | The segment's seqno wraps the absolute seqno with the ISN. It carries the given SYN, payload and FIN, and RST equal to the stream error. |
| `TcpSending.TCPSender.MakeEmptyMessage` | src/tcp_sender.cc:35-38 | It occupies no sequence numbers, unwraps to next_seqno_ and carries the stream error as RST. |
| `TcpSending.TCPSender.SequenceNumbersInFlight` | src/tcp_sender.cc:101-104 | The total sequence length of the outstanding segments. acked_seqno_ plus this equals next_seqno_. |
| `TcpSending.TCPSender.ConsecutiveRetransmissions` | src/tcp_sender.cc:106-108 | The timer's retransmission count. |
| `TcpSending.TCPSender.Push` | src/tcp_sender.cc:7-33 | The segments sent are exactly PushSegments of the old state against the effective window (1 when the peer advertised 0), so each round's payload length and FIN are fixed. They are appended to the outstanding queue in order, and in-flight and next_seqno_ grow by their total length. Their payloads, concatenated, are the front of the old buffer, and what stays buffered is the rest; the stream's accepted history is unchanged. FIN is sent only on a finished stream, and nothing after it. The window is respected. If FIN is still unsent afterwards, the stream is drained or the window is full. |
| `TcpSending.TCPSender.PushLoop` | src/tcp_sender.cc:12-32 | The loop sends exactly what PushSegments planned from its starting state, and afterwards nothing is left to send. It ends in the push loop's invariant from the starting state. |
| `TcpSending.TCPSender.PushStep` | src/tcp_sender.cc:12-32 | One iteration keeps the push loop's invariant. If it sends a segment, that segment is the first of the planned segments and the rest stay planned; what is left to send strictly shrinks. If it sends nothing, nothing was planned and nothing is left to send. |
| `TcpSending.TCPSender.PushSegment` | src/tcp_sender.cc:14-31 | One round, in the terms of BuiltRound: the seqno is next_seqno_ wrapped, SYN is set iff unsent, RST carries the error flag, the payload is exactly min(max_payload_size, bytes_buffered()) bytes from the front of the buffer, and FIN is set iff it fits and the stream is then finished. If the segment occupies sequence numbers it is queued, with the effect of Sent. |
| `TcpSending.PushSegmentsRound` | src/tcp_sender.cc:14-31 | A round built that way is the first segment of PushSegments, and the rest is PushSegments of the state after it. A round that occupies no sequence number ends the batch. |
| `TcpSending.NothingLeftToSend` | src/tcp_sender.cc:12-25 | When PushSegments is empty and FIN is unsent, SYN was sent and either the buffer is empty or the window has no room for payload. FIN does not fit even alone if the stream is finished. |
| `TcpSending.OneSegmentWhenAllFits` | src/tcp_sender.cc:12-32 | With SYN sent, the stream open and room for every buffered byte, push sends exactly one segment: all buffered bytes and no FIN. |
| `TcpSending.FinRidesWithLastBytes` | src/tcp_sender.cc:14-25 | With SYN sent, the stream finished and room for every buffered byte plus FIN, push sends exactly one segment: all buffered bytes with FIN piggybacked. |
| `TcpSending.TCPSender.BuildSegment` | src/tcp_sender.cc:14-22 | The payload is min(bound, buffered) bytes taken from the front of the stream. FIN is set iff it fits and the stream is finished. The seqno is next_seqno_. |
| `TcpSending.TCPSender.SentSegment` | src/tcp_sender.cc:26-31 | The segment is queued. In-flight count and next_seqno_ grow by its length, SYN is marked sent, and the timer runs. |
| `TcpSending.TCPSender.Receive` | src/tcp_sender.cc:40-78 | Records the window. Without an ackno, raises the stream error on a zero window. An ackno beyond next_seqno_ is ignored. Otherwise pops exactly the acknowledged prefix and restarts the timer when something was popped. |
| `TcpSending.TCPSender.PopAcknowledged` | src/tcp_sender.cc:53-77 | Pops AckedCount segments. If any were popped, the timer is restarted, rearmed if segments remain, and its backoff is reset. |
| `TcpSending.TCPSender.PopLoop` | src/tcp_sender.cc:53-68 | The while loop pops exactly AckedCount front segments and reports whether it popped any. |
| `TcpSending.TCPSender.PopFront` | src/tcp_sender.cc:62-67 | One acknowledged segment leaves the front. acked_seqno_ and the in-flight count move by its length. |
| `TcpSending.TCPSender.Tick` | src/tcp_sender.cc:80-89 | Advances the timer. On expiry, retransmits the oldest outstanding segment, backs off if the window is open, and counts the retransmission. The queue is unchanged. |
| `Interfaces.SendingEffect` | src/network_interface.cc:29-54 | A cached next hop gets one IPv4 frame to its address and nothing is queued. An uncached one gets no IPv4 frame: the datagram joins that hop's list, and an ARP request goes out iff one is due. |
| `Interfaces.SendingConsistent` | src/network_interface.cc:29-40 | send_datagram keeps the interface invariant: waiting addresses are uncached and have a request time, and pairs wait under their own next hop. |
| `Interfaces.RequestsThrottled` | src/network_interface.cc:32-39 | After a request for an address, another datagram to it within 5000 ms is queued without a second request. |
| `Interfaces.FlushingCached` | src/network_interface.cc:97-102 | Re-sending pairs whose next hops are all cached transmits them directly, in order, and changes nothing else. |
| `Interfaces.ReceivingArp` | src/network_interface.cc:69-103 | An ARP frame for this interface: caches the sender and answers a request for this interface's address. It transmits the datagrams waiting for the sender, in order, and removes their list. |
| `Interfaces.ReceivingConsistent` | src/network_interface.cc:57-104 | recv_frame keeps the interface invariant. |
| `Interfaces.TickingConsistent` | src/network_interface.cc:107-110 | tick keeps the interface invariant. |
| `Interfaces.CacheNeverShrinks` | src/network_interface.cc:29-110 | No operation removes an ARP cache entry. |
| `Interfaces.FlushingKeepsCache` | src/network_interface.cc:97-101 | Re-sending waiting datagrams leaves the cache as it was. |
| `Interfaces.NetworkInterface.constructor` | src/network_interface.cc:11-22 | A new interface has its addresses, an empty cache and queues, clock 0, and satisfies the interface invariant. |
| `Interfaces.NetworkInterface.SendDatagram` | src/network_interface.cc:29-54 | The new state is Sending of the old state. |
| `Interfaces.NetworkInterface.RecvFrame` | src/network_interface.cc:57-104 | The new state is Receiving of the old state. |
| `Interfaces.NetworkInterface.FlushPending` | src/network_interface.cc:97-101 | The loop over the waiting list has the effect of Flushing that list. |
| `Interfaces.NetworkInterface.Tick` | src/network_interface.cc:107-110 | Only the clock advances. |
| `Interfaces.NetworkInterface.Broadcast` | src/network_interface.cc:112-131 | Transmits one broadcast ARP request from this interface for the given address and changes nothing else. |
| `Interfaces.NetworkInterface.PopReceived` | src/router.cc:37 | The front of the inbound queue leaves it. |
| `Routing.RouteMask` | src/router.cc:24 | The stored value is 0 exactly for prefix length 0. |
| `Routing.FirstMatch` | src/router.cc:52-64 | The index of the first entry whose stored value applies, none of the earlier ones applying, or none when no entry applies. |
| `Routing.FirstMatchAt` | src/router.cc:52-55 | A scan that stops at the first applicable entry, or runs off the end, finds what FirstMatch names. |
| `Routing.Decremented` | src/router.cc:48 | The TTL is one lower; addresses and payload are unchanged. |
| `Routing.DefaultRouteMatchesAll` | src/router.cc:24-53 | A route of prefix length 0 applies to every destination. |
| `Routing.StoredValueIsNotAPrefix` | src/router.cc:24 | The /8 value is 0xff00fffe whatever the prefix. 10.0.0.0/8 does not apply to 10.1.2.3 but applies to 255.0.255.254. |
| `Routing.ForwardEffect` | src/router.cc:42-64 | use_ethernet's specification: it throws exactly when the first matching entry of a datagram with TTL above 1 names an unregistered interface. Otherwise only that entry's interface changes, by send_datagram of the decremented datagram to the next hop or destination. With no match, or TTL at most 1, nothing changes. |
| `Routing.ForwardKeeps` | src/router.cc:42-64 | use_ethernet leaves every inbound queue as it was, and throws only for a TTL above 1. |
| `Routing.FrontStepKeeps` | src/router.cc:36-37 | One step of the inner loop touches only that interface's queue, and pops its front unless use_ethernet throws. |
| `Routing.DrainingKeys` | src/router.cc:35-38 | The inner loop touches only that interface's queue, and empties it unless use_ethernet throws. |
| `Routing.DrainingThrows` | src/router.cc:35-38 | The inner loop throws exactly when some datagram of that queue makes use_ethernet throw. |
| `Routing.RoutedThrows` | src/router.cc:33-39 | route() from an index on throws exactly when some datagram queued at one of those indices makes use_ethernet throw. |
| `Routing.RoutedEmpties` | src/router.cc:33-39 | Without a throw, route() leaves every queue from the index on empty, and never refills an empty one. |
| `Routing.SendingIgnoresQueue` | src/router.cc:58-61 | send_datagram neither reads nor writes the inbound queue. |
| `Routing.ForwardOutbound` | src/router.cc:42-64 | use_ethernet depends on the interfaces' states only apart from their inbound queues. |
| `Routing.ForwardAllAppend` | src/router.cc:33-39 | Forwarding one list then another equals forwarding their concatenation, stopping at a throw. |
| `Routing.FrontStepOutbound` | src/router.cc:36-37 | One step of the inner loop throws exactly when use_ethernet on the front datagram does, and leaves the same interface states apart from the inbound queues. |
| `Routing.DrainingForwards` | src/router.cc:35-38 | Draining one interface equals use_ethernet on each datagram of its queue in turn: the same throw and the same interface states apart from the queues. |
| `Routing.OrderDistinct` | src/router.cc:33-38 | With every interface registered once, the handling order is the queues concatenated in index order, each front first. |
| `Routing.RoutedForwards` | src/router.cc:33-39 | route() equals use_ethernet on each queued datagram in handling order: the same throw and the same interface states apart from the queues. |
| `Routing.Trie.constructor` | src/router.hh:21 | A new trie holds only the empty root node. |
| `Routing.Router.constructor` | src/router.hh:58-63 | A new router has no interfaces, no routes and a fresh trie. |
| `Routing.Router.AddInterface` | src/router.hh:40-44 | Appends the interface and returns its index. Earlier indices are unchanged. |
| `Routing.Router.Interface` | src/router.hh:47 | The interface at index n, or none past the end (at() throws). |
| `Routing.Router.AddRoute` | src/router.cc:15-26 | Appends an entry with the stored value from the prefix length, the next hop and the interface. |
| `Routing.Router.UseEthernet` | src/router.cc:42-64 | TTL at most 1 drops the datagram. Otherwise the decremented datagram goes to the first matching entry's interface, addressed to the entry's next hop or to the destination. That entry throws iff its interface is unregistered. Nothing else changes, and no inbound queue changes. |
| `Routing.Router.FindRoute` | src/router.cc:52-55 | The table scan returns FirstMatch. |
| `Routing.Router.Route` | src/router.cc:31-39 | The interface states afterwards are Routed of the old ones. Apart from the inbound queues, they are use_ethernet's specification applied to every queued datagram in handling order. It throws exactly when some queued datagram makes use_ethernet throw. Without a throw every inbound queue ends empty. |
| `Routing.Router.DrainAll` | src/router.cc:33-39 | The outer loop over the interface indices has the effect of Routed and, without a throw, empties every inbound queue. |
| `Routing.Router.DrainPort` | src/router.cc:34-38 | One outer iteration drains the interface at its index and keeps the loop's invariant. |
| `Routing.Router.DrainQueue` | src/router.cc:35-38 | The inner loop has the effect of Draining that interface. It throws exactly when some datagram of its queue makes use_ethernet throw. |
| `Routing.Router.DrainStep` | src/router.cc:36-37 | One inner iteration is one step of Draining, and pops the front unless it throws. |
| `Routing.Router.ForwardFront` | src/router.cc:36-37 | use_ethernet on the front, then pop; on a throw the front stays, with its TTL decremented in place. |
| `Routing.Router.SendVia` | src/router.cc:58-61 | send_datagram on a registered interface changes only that interface's state, by Sending. |
| `Routing.Router.WriteFront` | src/router.cc:48 | The decrement through the reference reaches the front of the inbound queue. |
| `Routing.Router.PopFront` | src/router.cc:37 | The front of that interface's inbound queue leaves it; nothing else changes. |

## Left out

- The wire codecs are not modelled. InternetDatagram::parse/serialize and ARPMessage::parse/serialize become an abstract `Payload` that records what was serialized into it. The source ignores the result of `parse` at network_interface.cc:67 and :72 and then uses the object. What a failed parse leaves in it depends on the parser and the header defaults, which are not part of this model. The model assumes a zero-filled value (`ZERO_DATAGRAM`, `ZERO_ARP`). Checksums are not modelled.
- Output is a log. The OutputPort, `transmit` and the sender's TransmitFunction become appends to a ghost log (`transmitted`) or returned sequences. cerr logging is omitted.
- The Wrap32 class is not part of this model. `Wrapping.Wrap` and `Wrapping.Unwrap` are assumed helpers with the conventional meaning: closest value to the checkpoint, the smaller one on a tie.
- The RetransmissionTimer class is not part of this model. `Retransmission.Timer` is an assumed minimal value type with exactly the operations the sender calls.
- The headers with field declarations and constructors are not part of this model: tcp_config.hh, byte_stream.hh, reassembler.hh, tcp_sender.hh, tcp_receiver.hh and arp_message.hh. Assumed values:
  - MAX_PAYLOAD_SIZE = 1000;
  - the initial window of 1 and syn_flag_ = false;
  - last_index_ initially unset, modelled as `None`;
  - OPCODE_REQUEST = 1 and OPCODE_REPLY = 2;
  - `make_message`'s FIN parameter defaults to false, as `MakeEmptyMessage` assumes (tcp_sender.cc:37 omits it).
- Trie::insert and Trie::find are not modelled. router.cc never calls them; only the trie's node arena and its constructor are modelled.
- Reassembly.Reassembler.Insert: requires fewer than 2^64 bytes ever pushed (the class invariant), so next_index_ itself never wraps. Wrap-around of a substring's index and of the window end is modelled.
- Interfaces.NetworkInterface.Tick: the 2^64 wrap of the millisecond clock is not modelled.
- Interfaces.NetworkInterface.PopReceived: requires a non-empty queue, as std::queue::pop does.
- The exception that `at()` throws for an unregistered interface index is modelled as a `thrown` result. `Route` stops there, as the exception does; what happens after it leaves the router is not modelled.
- ByteStreams.ByteStream.Read: byte_stream_helpers.cc is not part of this model. Read is modelled from the peek/pop loop the helper performs.
- Concurrency does not arise: the stack is single-threaded.

## Discrepancies between the code and its evident intent

The model follows the code as written. The following differences from what the comments, names
or protocol suggest are modelled as written and exhibited by lemmas.

- **Route stored value** (router.cc:24). It is `0xffff - (1 << (32 - prefix_length)) - 1`,
  computed from the prefix length alone. The route prefix is ignored, and the value is not a
  prefix mask. `Routing.StoredValueIsNotAPrefix` shows that a /8 route for 10.0.0.0 does not
  match 10.1.2.3 but matches 255.0.255.254.
- **Routing order.** Routing is first-match in insertion order, not the longest-prefix match
  router.hh's comment describes.
- **Router header and source disagree.** router.cc's `routing_table_` is not declared in
  router.hh, and its `RouterData {ip_prefix, next_hop, interface_num}` differs from the header's
  RouterData. `Routing.RouteEntry` models router.cc.
- **TTL checksum.** The TTL decrement does not recompute the header checksum.
- **SYN segment popped early** (tcp_sender.cc:57). The end of a SYN-carrying segment is taken one
  sequence number early, so an acknowledgment one short of a SYN+payload segment's end retires
  it (`TcpSending.SynSegmentPoppedEarly`).
- **Shrunk window** (tcp_sender.cc:15). When the peer shrinks its window below what is in
  flight, the size_t subtraction wraps and a full MAX_PAYLOAD_SIZE is read
  (`TcpSending.ShrunkWindowOvershoot`).
- **Segment at the zero point** (tcp_receiver.cc:20). A non-SYN segment at the zero point gets
  stream index 2^64 - 1. This is benign: its first byte falls outside the window and the rest
  land at index 0 (`TcpReceiving.SegmentAtZeroPoint`).
- **Later SYN.** A later SYN overwrites the zero point.
- **ARP cache.** ARP cache entries never expire (`Interfaces.CacheNeverShrinks`). Under the
  zero-filled assumption above, a garbled ARP payload would cache IP address 0.
