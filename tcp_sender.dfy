// The sending half of a TCP endpoint (src/tcp_sender.cc): window-bounded segmentation of the
// outbound stream, a FIFO of outstanding segments, cumulative acknowledgments and retransmission
// of the oldest segment with exponential backoff (section 5 of RFC 6298).
module TcpSending {
  import opened Common
  import opened ByteStreams
  import opened Wrapping
  import opened TcpMessages
  import opened Retransmission

  /** TCPConfig::MAX_PAYLOAD_SIZE; its header is not part of this model. */
  const MAX_PAYLOAD_SIZE: nat := 1000

  function B2N(b: bool): nat
  {
    if b then 1 else 0
  }

  /** The window the sender works with: a zero window is read as one, so a probe can be sent. */
  function EffectiveWindow(wndSize: nat): (r: nat)
    ensures r >= 1 && r >= wndSize
    ensures wndSize > 0 ==> r == wndSize
  {
    if wndSize == 0 then 1 else wndSize
  }

  /** max_payload_size: the window left after what is in flight and an unsent SYN, computed as a
      size_t difference (so it wraps when the peer shrinks its window), capped at MAX_PAYLOAD_SIZE. */
  function MaxPayloadSize(window: nat, inFlight: nat, synPending: bool): (r: nat)
    ensures r <= MAX_PAYLOAD_SIZE
    ensures inFlight + B2N(synPending) <= window ==> inFlight + B2N(synPending) + r <= window
  {
    Min(MAX_PAYLOAD_SIZE, (window - (inFlight + B2N(synPending))) % U64)
  }

  /** When the peer has shrunk its window below what is in flight, the size_t difference wraps
      and the payload bound becomes the full MAX_PAYLOAD_SIZE, past the window. */
  lemma ShrunkWindowOvershoot(window: nat, inFlight: nat, synPending: bool)
    requires window < inFlight + B2N(synPending) <= window + (U64 - MAX_PAYLOAD_SIZE)
    ensures MaxPayloadSize(window, inFlight, synPending) == MAX_PAYLOAD_SIZE
    ensures inFlight + MaxPayloadSize(window, inFlight, synPending) > window
  {
    var d := inFlight + B2N(synPending) - window;
    assert (window - (inFlight + B2N(synPending))) % U64 == U64 - d;
  }

  /** The FIN test: payload, what is in flight, an unsent SYN and the FIN itself fit the window. */
  predicate FinFits(payloadLen: nat, inFlight: nat, synPending: bool, window: nat)
  {
    payloadLen + inFlight + B2N(synPending) + 1 <= window
  }

  /** The sender's queue bookkeeping: inFlight counts the sequence numbers of the outstanding
      segments, which lie end to end from the first unacknowledged absolute sequence number
      acked up to next. */
  predicate QueueInvariant(outstanding: seq<TCPSenderMessage>, acked: nat, inFlight: nat, next: nat, isn: Seqno)
  {
    && inFlight == SumSeqLen(outstanding)
    && next == acked + inFlight
    && Contiguous(outstanding, acked, isn)
  }

  /** Queuing a non-empty segment stamped with the next sequence number keeps the invariant;
      a SYN segment must start the stream. */
  lemma QueueAppend(outstanding: seq<TCPSenderMessage>, acked: nat, inFlight: nat, next: nat, isn: Seqno,
                    msg: TCPSenderMessage)
    requires QueueInvariant(outstanding, acked, inFlight, next, isn)
    requires msg.SequenceLength() > 0 && msg.seqno == Wrap(next, isn) && (msg.syn ==> next == 0)
    ensures QueueInvariant(outstanding + [msg], acked, inFlight + msg.SequenceLength(),
                           next + msg.SequenceLength(), isn)
  {
    AppendSegment(outstanding, msg);
    ContiguousAppend(outstanding, acked, isn, msg);
  }

  /** Retiring the front segment advances acked past it and keeps the invariant. */
  lemma QueuePop(outstanding: seq<TCPSenderMessage>, acked: nat, inFlight: nat, next: nat, isn: Seqno)
    requires QueueInvariant(outstanding, acked, inFlight, next, isn) && outstanding != []
    ensures outstanding[0].SequenceLength() <= inFlight
    ensures QueueInvariant(outstanding[1..], acked + outstanding[0].SequenceLength(),
                           inFlight - outstanding[0].SequenceLength(), next, isn)
  {
    SumSeqLenFront(outstanding);
  }

  /** A segment push builds, with a payload capped by MaxPayloadSize and FIN only when it fits,
      stays within a window that already covers what is in flight. */
  lemma SegmentWithinWindow(window: nat, inFlight: nat, synPending: bool, buffered: nat, payloadLen: nat, fin: bool)
    requires inFlight + B2N(synPending) <= window
    requires payloadLen == Min(MaxPayloadSize(window, inFlight, synPending), buffered)
    requires fin ==> FinFits(payloadLen, inFlight, synPending, window)
    ensures inFlight + B2N(synPending) + payloadLen + B2N(fin) <= window
  {
  }

  /** Total sequence numbers occupied by a list of segments. */
  function SumSeqLen(segments: seq<TCPSenderMessage>): nat
  {
    if segments == [] then 0 else SumSeqLen(segments[..|segments| - 1]) + segments[|segments| - 1].SequenceLength()
  }

  /** The payloads of a list of segments, concatenated in order. */
  function Payloads(segments: seq<TCPSenderMessage>): seq<char>
  {
    if segments == [] then [] else Payloads(segments[..|segments| - 1]) + segments[|segments| - 1].payload
  }

  lemma {:induction false} SumSeqLenFront(segments: seq<TCPSenderMessage>)
    requires segments != []
    ensures SumSeqLen(segments) == segments[0].SequenceLength() + SumSeqLen(segments[1..])
    decreases |segments|
  {
    if |segments| > 1 {
      var init := segments[..|segments| - 1];
      SumSeqLenFront(init);
      assert init[1..] == segments[1..][..|segments[1..]| - 1];
    } else {
      assert segments[..0] == [] && segments[1..] == [];
    }
  }

  /** Splitting a list of segments splits its sequence length. */
  lemma {:induction false} SumSeqLenSplit(segments: seq<TCPSenderMessage>, n: nat)
    requires n <= |segments|
    ensures SumSeqLen(segments[..n]) + SumSeqLen(segments[n..]) == SumSeqLen(segments)
    decreases n
  {
    if n > 0 {
      SumSeqLenSplit(segments[1..], n - 1);
      SumSeqLenFront(segments);
      SumSeqLenFront(segments[..n]);
      assert segments[..n][1..] == segments[1..][..n - 1];
      assert segments[1..][n - 1..] == segments[n..];
    } else {
      assert segments[..0] == [] && segments[0..] == segments;
    }
  }

  /** The number of front segments the acknowledgment loop pops: a segment is popped when the
      acknowledgment is past the running acked position and reaches its end, where the end of a
      segment that carries SYN is taken one sequence number early. */
  function AckedCount(segments: seq<TCPSenderMessage>, acked: nat, ack: nat): (n: nat)
    ensures n <= |segments|
    decreases |segments|
  {
    if segments == [] then 0
    else
      var finalSeqno := acked + segments[0].SequenceLength() - B2N(segments[0].syn);
      if ack <= acked || ack < finalSeqno then 0
      else 1 + AckedCount(segments[1..], acked + segments[0].SequenceLength(), ack)
  }

  lemma {:induction false} PrefixSumFront(segments: seq<TCPSenderMessage>, k: nat)
    requires k < |segments|
    ensures SumSeqLen(segments[..k + 1]) == segments[0].SequenceLength() + SumSeqLen(segments[1..][..k])
  {
    SumSeqLenFront(segments[..k + 1]);
    assert segments[..k + 1][1..] == segments[1..][..k];
  }

  /** Every popped segment starts before the acknowledgment and ends at or before it, where a
      SYN segment's end is taken one sequence number early. */
  lemma {:induction false} AckedCountPopped(segments: seq<TCPSenderMessage>, acked: nat, ack: nat, k: nat)
    requires k < AckedCount(segments, acked, ack)
    ensures acked + SumSeqLen(segments[..k]) < ack
    ensures acked + SumSeqLen(segments[..k + 1]) - B2N(segments[k].syn) <= ack
    decreases k
  {
    PrefixSumFront(segments, k);
    if k == 0 {
      assert segments[..0] == [] && segments[1..][..0] == [];
    } else {
      AckedCountPopped(segments[1..], acked + segments[0].SequenceLength(), ack, k - 1);
      PrefixSumFront(segments, k - 1);
    }
  }

  /** The first segment kept is not acknowledged: either the acknowledgment does not pass its
      start, or it falls short of its end. */
  lemma {:induction false} AckedCountStops(segments: seq<TCPSenderMessage>, acked: nat, ack: nat)
    requires AckedCount(segments, acked, ack) < |segments|
    ensures var n := AckedCount(segments, acked, ack);
      ack <= acked + SumSeqLen(segments[..n])
      || ack < acked + SumSeqLen(segments[..n + 1]) - B2N(segments[n].syn)
    decreases |segments|
  {
    var n := AckedCount(segments, acked, ack);
    PrefixSumFront(segments, n);
    if n == 0 {
      assert segments[..0] == [] && segments[1..][..0] == [];
    } else {
      AckedCountStops(segments[1..], acked + segments[0].SequenceLength(), ack);
      PrefixSumFront(segments, n - 1);
    }
  }

  /** As written, a segment carrying SYN and payload is popped by an acknowledgment one short of
      its end: SYN + "ab" occupies three sequence numbers, and an ack of 2 pops it. */
  lemma SynSegmentPoppedEarly(seqno: Seqno)
    ensures var syn := TCPSenderMessage(seqno, true, ['a', 'b'], false, false);
      syn.SequenceLength() == 3 && AckedCount([syn], 0, 2) == 1
  {
  }

  /** The segments one push emits, in order: each is non-empty, has at most MAX_PAYLOAD_SIZE
      payload bytes and carries the stream's error flag as RST; only the first carries SYN, and
      does exactly when synFirst; only the last may carry FIN. */
  predicate PushedBatch(segments: seq<TCPSenderMessage>, synFirst: bool, err: bool)
    decreases |segments|
  {
    segments == [] ||
    (var last := segments[|segments| - 1];
     var init := segments[..|segments| - 1];
     && PushedBatch(init, synFirst, err)
     && last.SequenceLength() > 0 && |last.payload| <= MAX_PAYLOAD_SIZE && last.rst == err
     && (last.syn <==> init == [] && synFirst)
     && !EndsWithFin(init))
  }

  /** What PushedBatch says about each segment k. */
  lemma {:induction false} PushedBatchAt(segments: seq<TCPSenderMessage>, synFirst: bool, err: bool, k: nat)
    requires PushedBatch(segments, synFirst, err) && k < |segments|
    ensures segments[k].SequenceLength() > 0 && |segments[k].payload| <= MAX_PAYLOAD_SIZE
    ensures segments[k].rst == err
    ensures segments[k].syn <==> k == 0 && synFirst
    ensures segments[k].fin ==> k == |segments| - 1
    decreases |segments|
  {
    var init := segments[..|segments| - 1];
    if k < |init| {
      PushedBatchAt(init, synFirst, err, k);
      assert init[k] == segments[k];
      if k < |init| - 1 {
        assert !segments[k].fin;
      }
    }
  }

  /** The last of the segments carries FIN. */
  predicate EndsWithFin(segments: seq<TCPSenderMessage>)
  {
    segments != [] && segments[|segments| - 1].fin
  }

  /** A batch grows by one segment that meets the conditions on its last element. */
  lemma PushedBatchAppend(segments: seq<TCPSenderMessage>, synFirst: bool, err: bool, msg: TCPSenderMessage)
    requires PushedBatch(segments, synFirst, err)
    requires msg.SequenceLength() > 0 && |msg.payload| <= MAX_PAYLOAD_SIZE && msg.rst == err
    requires msg.syn <==> segments == [] && synFirst
    requires !EndsWithFin(segments)
    ensures PushedBatch(segments + [msg], synFirst, err)
  {
    assert (segments + [msg])[..|segments|] == segments;
  }

  /** Segments laid end to end from start: each occupies at least one sequence number, its
      sequence number is the wrapped position where the previous one ended, and only a segment
      starting at absolute sequence number 0 carries SYN. */
  predicate Contiguous(segments: seq<TCPSenderMessage>, start: nat, isn: Seqno)
    decreases |segments|
  {
    segments == [] ||
    (&& segments[0].SequenceLength() > 0
     && (segments[0].syn ==> start == 0)
     && segments[0].seqno == Wrap(start, isn)
     && Contiguous(segments[1..], start + segments[0].SequenceLength(), isn))
  }

  /** In a contiguous queue, segment k starts at start plus the lengths of the k segments before
      it, is not empty, and carries SYN only if it is the first and starts at 0. */
  lemma {:induction false} ContiguousAt(segments: seq<TCPSenderMessage>, start: nat, isn: Seqno, k: nat)
    requires Contiguous(segments, start, isn) && k < |segments|
    ensures segments[k].seqno == Wrap(start + SumSeqLen(segments[..k]), isn)
    ensures segments[k].SequenceLength() > 0
    ensures segments[k].syn ==> k == 0 && start == 0
    decreases k
  {
    if k == 0 {
      assert segments[..0] == [];
    } else {
      ContiguousAt(segments[1..], start + segments[0].SequenceLength(), isn, k - 1);
      PrefixSumFront(segments, k - 1);
    }
  }

  /** A segment sent at the end of a contiguous queue keeps it contiguous. */
  lemma {:induction false} ContiguousAppend(segments: seq<TCPSenderMessage>, start: nat, isn: Seqno, msg: TCPSenderMessage)
    requires Contiguous(segments, start, isn)
    requires msg.SequenceLength() > 0 && (msg.syn ==> start + SumSeqLen(segments) == 0)
    requires msg.seqno == Wrap(start + SumSeqLen(segments), isn)
    ensures Contiguous(segments + [msg], start, isn)
    decreases |segments|
  {
    if segments == [] {
      assert [msg][1..] == [];
    } else {
      SumSeqLenFront(segments);
      ContiguousAppend(segments[1..], start + segments[0].SequenceLength(), isn, msg);
      assert (segments + [msg])[1..] == segments[1..] + [msg];
    }
  }

  /** Sequence lengths add up over a concatenation of segment lists. */
  lemma {:induction false} SumSeqLenConcat(a: seq<TCPSenderMessage>, b: seq<TCPSenderMessage>)
    ensures SumSeqLen(a + b) == SumSeqLen(a) + SumSeqLen(b)
    decreases |b|
  {
    if b != [] {
      SumSeqLenConcat(a, b[..|b| - 1]);
      assert (a + b)[..|a + b| - 1] == a + b[..|b| - 1];
    } else {
      assert a + b == a;
    }
  }

  lemma {:induction false} AppendSegment(segments: seq<TCPSenderMessage>, msg: TCPSenderMessage)
    ensures SumSeqLen(segments + [msg]) == SumSeqLen(segments) + msg.SequenceLength()
    ensures Payloads(segments + [msg]) == Payloads(segments) + msg.payload
    ensures EndsWithFin(segments + [msg]) == msg.fin
  {
    assert (segments + [msg])[..|segments|] == segments;
  }

  /** Bytes read from a stream whose accepted history is unchanged came from the front of its
      buffer: popped + buffer == (popped + taken) + rest leaves buffer == taken + rest. */
  lemma TakenFromFront(popped: seq<char>, buffer: seq<char>, taken: seq<char>, rest: seq<char>)
    requires popped + buffer == (popped + taken) + rest
    ensures buffer == taken + rest
  {
    assert popped + buffer == popped + (taken + rest);
    assert buffer == (popped + buffer)[|popped|..];
    assert taken + rest == (popped + (taken + rest))[|popped|..];
  }

  /** The sender's fields, and those of its outbound stream, that push changes or keeps;
      accepted is the stream's whole history of accepted bytes, popped ones first. */
  datatype Snapshot = Snapshot(outstanding: seq<TCPSenderMessage>, popped: seq<char>, sentSyn: bool,
                               sentFin: bool, timer: Timer, inFlight: nat, ackedSeqno: nat,
                               wndSize: Window16, pushed: nat, closed: bool, error: bool,
                               accepted: seq<char>)

  /** The effect of emitting one segment that occupies sequence numbers: it is queued, its payload
      has been read from the stream, SYN and FIN count as sent, and the timer runs. */
  function Sent(st: Snapshot, msg: TCPSenderMessage): Snapshot
  {
    Enqueued(st.(popped := st.popped + msg.payload), msg)
  }

  /** The sender's side of emitting a segment: it is queued, SYN and FIN count as sent, the
      sequence numbers in flight grow by its length, and the timer runs. */
  function Enqueued(st: Snapshot, msg: TCPSenderMessage): Snapshot
  {
    st.(outstanding := st.outstanding + [msg], sentSyn := true, sentFin := st.sentFin || msg.fin,
        timer := st.timer.Active(), inFlight := st.inFlight + msg.SequenceLength())
  }

  /** The effect of emitting segments in order. */
  function SentAll(st: Snapshot, segments: seq<TCPSenderMessage>): Snapshot
    decreases |segments|
  {
    if segments == [] then st
    else Sent(SentAll(st, segments[..|segments| - 1]), segments[|segments| - 1])
  }

  lemma SentAllAppend(st: Snapshot, segments: seq<TCPSenderMessage>, msg: TCPSenderMessage)
    ensures SentAll(st, segments + [msg]) == Sent(SentAll(st, segments), msg)
  {
    assert (segments + [msg])[..|segments|] == segments;
  }

  /** Emitting a batch of segments queues them all, reads their payloads and adds their lengths
      to the bytes in flight. */
  lemma {:induction false} SentAllQueued(st: Snapshot, segments: seq<TCPSenderMessage>)
    ensures var r := SentAll(st, segments);
      && r.outstanding == st.outstanding + segments
      && r.popped == st.popped + Payloads(segments)
      && r.inFlight == st.inFlight + SumSeqLen(segments)
    decreases |segments|
  {
    if segments != [] {
      var init, last := segments[..|segments| - 1], segments[|segments| - 1];
      SentAllQueued(st, init);
      assert init + [last] == segments;
      assert st.outstanding + (init + [last]) == (st.outstanding + init) + [last];
      assert st.popped + (Payloads(init) + last.payload) == (st.popped + Payloads(init)) + last.payload;
    }
  }

  /** Emitting a batch of segments, of which only the last may carry FIN, marks SYN sent once
      anything is sent and FIN sent when the last carries it, starts the timer, keeps the
      stream's accepted history and changes nothing else. */
  lemma {:induction false} SentAllFields(st: Snapshot, segments: seq<TCPSenderMessage>, synFirst: bool, err: bool)
    requires PushedBatch(segments, synFirst, err)
    ensures var r := SentAll(st, segments);
      && r.sentSyn == (st.sentSyn || segments != [])
      && r.sentFin == (st.sentFin || EndsWithFin(segments))
      && r.timer == (if segments == [] then st.timer else st.timer.Active())
      && r.ackedSeqno == st.ackedSeqno && r.wndSize == st.wndSize
      && r.pushed == st.pushed && r.closed == st.closed && r.error == st.error
      && r.accepted == st.accepted
    decreases |segments|
  {
    if segments != [] {
      SentAllFields(st, segments[..|segments| - 1], synFirst, err);
    }
  }

  /** What the push loop keeps, over snapshots: the segments sent since start were queued in
      order and carry the bytes read from the stream; a FIN was sent only on a finished stream,
      nothing is sent after a FIN, and the window is respected. */
  ghost predicate PushedFrom(start: Snapshot, now: Snapshot, segments: seq<TCPSenderMessage>, window: nat, finished: bool)
  {
    && now == SentAll(start, segments)
    && now.sentSyn == (start.sentSyn || segments != [])
    && (EndsWithFin(segments) ==> now.sentFin && finished)
    && PushedBatch(segments, !start.sentSyn, now.error)
    && (start.sentFin ==> segments == [])
    && (start.inFlight <= window ==> now.inFlight <= window)
  }

  /** Sending one more well-formed segment while FIN is still unsent keeps PushedFrom. */
  lemma PushedFromAppend(start: Snapshot, now: Snapshot, segments: seq<TCPSenderMessage>, window: nat,
                         finished: bool, msg: TCPSenderMessage, finishedNow: bool)
    requires PushedFrom(start, now, segments, window, finished) && !now.sentFin
    requires msg.SequenceLength() > 0 && |msg.payload| <= MAX_PAYLOAD_SIZE
    requires msg.rst == now.error && msg.syn == !now.sentSyn
    requires now.inFlight <= window ==> now.inFlight + msg.SequenceLength() <= window
    requires msg.fin ==> finishedNow
    ensures PushedFrom(start, Sent(now, msg), segments + [msg], window, finishedNow)
  {
    PushedBatchAppend(segments, !start.sentSyn, now.error, msg);
    SentAllAppend(start, segments, msg);
    assert (segments + [msg])[|segments|] == msg;
  }

  /** What push reads of the sender and its outbound stream: the buffered bytes, whether the
      stream is closed or errored, whether SYN and FIN were sent, the sequence numbers in flight and
      the next absolute sequence number. */
  datatype PushState = PushState(buffer: seq<char>, closed: bool, err: bool, sentSyn: bool, sentFin: bool,
                                 inFlight: nat, next: nat)

  /** The segment one round of push builds: min(bound, buffered) bytes from the front of the
      buffer, the bound being MaxPayloadSize, with FIN when the stream is then finished and FIN
      still fits. */
  function RoundSegment(st: PushState, isn: Seqno, window: nat): TCPSenderMessage
  {
    var n := Min(MaxPayloadSize(window, st.inFlight, !st.sentSyn), |st.buffer|);
    var fin := FinFits(n, st.inFlight, !st.sentSyn, window) && st.closed && n == |st.buffer|;
    TCPSenderMessage(Wrap(st.next, isn), !st.sentSyn, st.buffer[..n], fin, st.err)
  }

  /** The state after a round that sent msg. */
  function AfterRound(st: PushState, msg: TCPSenderMessage): PushState
  {
    st.(buffer := st.buffer[Min(|msg.payload|, |st.buffer|)..], sentSyn := true, sentFin := msg.fin,
        inFlight := st.inFlight + msg.SequenceLength(), next := st.next + msg.SequenceLength())
  }

  /** The segments push emits, in order: one per round, until a round occupies no sequence
      number or FIN has been sent. */
  function PushSegments(st: PushState, isn: Seqno, window: nat): seq<TCPSenderMessage>
    decreases |st.buffer| + B2N(!st.sentSyn) + B2N(!st.sentFin)
  {
    if st.sentFin then []
    else
      var msg := RoundSegment(st, isn, window);
      if msg.SequenceLength() == 0 then [] else [msg] + PushSegments(AfterRound(st, msg), isn, window)
  }

  /** How one round of push, from the state before to the state after, built and sent msg: the
      segment is stamped with the next sequence number, carries SYN iff SYN was unsent and the
      error flag as RST, takes min(bound, buffered) bytes from the front of the buffer, and
      carries FIN iff FIN fits and the stream is then finished; if it occupies sequence numbers,
      SYN counts as sent, FIN as sent iff it carries FIN, and in-flight and next grow by its
      length. */
  predicate BuiltRound(before: PushState, after: PushState, isn: Seqno, window: nat, msg: TCPSenderMessage)
  {
    && msg.seqno == Wrap(before.next, isn) && msg.syn == !before.sentSyn && msg.rst == before.err
    && |msg.payload| == Min(MaxPayloadSize(window, before.inFlight, !before.sentSyn), |before.buffer|)
    && (msg.fin <==> FinFits(|msg.payload|, before.inFlight, !before.sentSyn, window) && after.closed && after.buffer == [])
    && before.buffer == msg.payload + after.buffer
    && after.closed == before.closed && after.err == before.err
    && after.sentSyn == (before.sentSyn || msg.SequenceLength() > 0) && after.sentFin == (before.sentFin || msg.fin)
    && after.inFlight == before.inFlight + msg.SequenceLength() && after.next == before.next + msg.SequenceLength()
  }

  /** One round of PushSegments, for a segment built as a round of push builds it from the
      state before: it is the first segment sent, and the rest is what the state after it sends;
      a segment occupying no sequence number leaves nothing to send. */
  lemma PushSegmentsRound(before: PushState, after: PushState, isn: Seqno, window: nat, msg: TCPSenderMessage)
    requires !before.sentFin && BuiltRound(before, after, isn, window, msg)
    ensures PushSegments(before, isn, window)
         == if msg.SequenceLength() == 0 then [] else [msg] + PushSegments(after, isn, window)
    ensures msg.SequenceLength() == 0 ==> PushSegments(after, isn, window) == []
  {
    var n := |msg.payload|;
    assert before.buffer[..n] == msg.payload && before.buffer[n..] == after.buffer;
    assert RoundSegment(before, isn, window) == msg;
    if msg.SequenceLength() == 0 {
      assert after == before;
    } else {
      assert AfterRound(before, msg) == after;
    }
  }

  /** When push would send nothing more and FIN is unsent, SYN has been sent, and either the
      buffer is empty or the window has no room for payload; FIN does not fit even alone if the
      stream is finished. */
  lemma NothingLeftToSend(st: PushState, isn: Seqno, window: nat)
    requires PushSegments(st, isn, window) == []
    ensures !st.sentFin ==> st.sentSyn && (st.buffer == [] || MaxPayloadSize(window, st.inFlight, false) == 0)
    ensures !st.sentFin ==> !(st.closed && st.buffer == [] && FinFits(0, st.inFlight, false, window))
  {
  }

  /** Sequence identities the push loop's bookkeeping needs, stated once so the loop does not
      have to reason about sequence equality element by element. */
  lemma AppendShift(front: seq<TCPSenderMessage>, msg: TCPSenderMessage, back: seq<TCPSenderMessage>)
    ensures (front + [msg]) + back == front + ([msg] + back)
  {
  }

  lemma AppendEmpty(segments: seq<TCPSenderMessage>)
    ensures segments + [] == segments
  {
  }

  /** With SYN sent, the stream still open and room for every buffered byte, push sends exactly
      one segment, carrying all of them and no FIN. */
  lemma OneSegmentWhenAllFits(buffer: seq<char>, err: bool, inFlight: nat, next: nat, isn: Seqno, window: nat)
    requires 0 < |buffer| <= MaxPayloadSize(window, inFlight, false)
    ensures PushSegments(PushState(buffer, false, err, true, false, inFlight, next), isn, window)
         == [TCPSenderMessage(Wrap(next, isn), false, buffer, false, err)]
  {
    var st := PushState(buffer, false, err, true, false, inFlight, next);
    var msg := RoundSegment(st, isn, window);
    assert buffer[..|buffer|] == buffer && buffer[|buffer|..] == [];
    assert PushSegments(AfterRound(st, msg), isn, window) == [];
  }

  /** With SYN sent, the stream finished and room for every buffered byte plus FIN, push sends
      exactly one segment, carrying all of them with FIN piggybacked. */
  lemma FinRidesWithLastBytes(buffer: seq<char>, err: bool, inFlight: nat, next: nat, isn: Seqno, window: nat)
    requires |buffer| <= MaxPayloadSize(window, inFlight, false) && FinFits(|buffer|, inFlight, false, window)
    ensures PushSegments(PushState(buffer, true, err, true, false, inFlight, next), isn, window)
         == [TCPSenderMessage(Wrap(next, isn), false, buffer, true, err)]
  {
    var st := PushState(buffer, true, err, true, false, inFlight, next);
    var msg := RoundSegment(st, isn, window);
    assert buffer[..|buffer|] == buffer;
    assert msg == TCPSenderMessage(Wrap(next, isn), false, buffer, true, err);
  }

  class TCPSender {
    /** The outbound stream the application writes into (input_). */
    const input: ByteStream
    const isn: Seqno
    const initialRto: nat
    /** Sent but not yet acknowledged segments, oldest first (outstanding_bytes_). */
    var outstanding: seq<TCPSenderMessage>
    /** Absolute sequence number of the next new sequence number to send (next_seqno_). */
    var nextSeqno: nat
    /** Absolute sequence number where the oldest outstanding segment starts (acked_seqno_). */
    var ackedSeqno: nat
    /** num_bytes_in_flight_. */
    var inFlight: nat
    /** The peer's last advertised window (wnd_size_); its initial value is assumed to be 1. */
    var wndSize: Window16
    var sentSyn: bool
    var sentFin: bool
    /** syn_flag_, which the header declares (assumed false initially); it never changes. */
    var synFlag: bool
    var timer: Timer

    /** The bookkeeping of the outstanding queue. */
    ghost predicate QueueValid()
      reads this, input
    {
      && input.Valid()
      && QueueInvariant(outstanding, ackedSeqno, inFlight, nextSeqno, isn)
      && !synFlag
      && (!sentSyn ==> nextSeqno == 0 && outstanding == [] && !sentFin)
    }

    ghost predicate Valid()
      reads this, input
    {
      && QueueValid()
      && timer.Valid() && timer.initialRto == initialRto
      && (timer.running <==> outstanding != [])
    }

    constructor (input: ByteStream, isn: Seqno, initialRto: nat)
      requires input.Valid()
      ensures Valid() && this.input == input && this.isn == isn && this.initialRto == initialRto
      ensures outstanding == [] && nextSeqno == 0 && !sentSyn && !sentFin && wndSize == 1
      ensures timer == NewTimer(initialRto)
    {
      this.input := input;
      this.isn := isn;
      this.initialRto := initialRto;
      outstanding := [];
      nextSeqno := 0;
      ackedSeqno := 0;
      inFlight := 0;
      wndSize := 1;
      sentSyn := false;
      sentFin := false;
      synFlag := false;
      timer := NewTimer(initialRto);
    }

    function MakeMessage(seqno: nat, payload: seq<char>, syn: bool, fin: bool): (r: TCPSenderMessage)
      reads input
      ensures r.seqno == Wrap(seqno, isn)
      ensures r.syn == syn && r.payload == payload && r.fin == fin && r.rst == input.error
    {
      TCPSenderMessage(Wrap(seqno, isn), syn, payload, fin, input.error)
    }

    function MakeEmptyMessage(): (r: TCPSenderMessage)
      reads this, input
      ensures r.SequenceLength() == 0
      ensures Unwrap(r.seqno, isn, nextSeqno) == nextSeqno
      ensures r.rst == input.error
    {
      MakeMessage(nextSeqno, [], false, false)
    }

    function SequenceNumbersInFlight(): (r: nat)
      reads this, input
      requires Valid()
      ensures r == SumSeqLen(outstanding)
      ensures ackedSeqno + r == nextSeqno
    {
      inFlight
    }

    function ConsecutiveRetransmissions(): (r: nat)
      reads this
      ensures r == timer.retransmits
    {
      timer.retransmits
    }

    /** Sends new segments while the window allows, returning them in the order transmitted. */
    method Push() returns (segments: seq<TCPSenderMessage>)
      requires Valid()
      modifies this, input
      ensures Valid()
      ensures segments == PushSegments(old(PushStateNow()), isn, EffectiveWindow(wndSize))
      ensures inFlight == old(inFlight) + SumSeqLen(segments)
      ensures outstanding == old(outstanding) + segments
      ensures nextSeqno == old(nextSeqno) + SumSeqLen(segments)
      ensures input.popped == old(input.popped) + Payloads(segments)
      ensures old(input.buffer) == Payloads(segments) + input.buffer
      ensures input.Accepted() == old(input.Accepted())
      ensures PushedBatch(segments, !old(sentSyn), input.error)
      ensures EndsWithFin(segments) ==> input.IsFinished()
      ensures old(sentFin) ==> segments == []
      ensures sentFin <==> old(sentFin) || EndsWithFin(segments)
      ensures old(inFlight) <= EffectiveWindow(wndSize) ==> inFlight <= EffectiveWindow(wndSize)
      ensures !sentFin ==> sentSyn && (input.buffer == [] || MaxPayloadSize(EffectiveWindow(wndSize), inFlight, false) == 0)
      ensures !sentFin ==> !(input.IsFinished() && FinFits(0, inFlight, false, EffectiveWindow(wndSize)))
      ensures timer == if segments == [] then old(timer) else old(timer).Active()
      ensures ackedSeqno == old(ackedSeqno) && wndSize == old(wndSize)
      ensures input.pushed == old(input.pushed) && input.closed == old(input.closed) && input.error == old(input.error)
    {
      segments := PushLoop(EffectiveWindow(wndSize));
      SentAllFields(old(Snap()), segments, !old(sentSyn), input.error);
      SentAllQueued(old(Snap()), segments);
      TakenFromFront(old(input.popped), old(input.buffer), Payloads(segments), input.buffer);
      NothingLeftToSend(PushStateNow(), isn, EffectiveWindow(wndSize));
    }

    /** The loop of push against a fixed window. */
    method PushLoop(window: nat) returns (segments: seq<TCPSenderMessage>)
      requires Valid() && window >= 1
      modifies this, input
      ensures PushedSince(old(Snap()), segments, window)
      ensures segments == old(ToSend(window)) && ToSend(window) == []
    {
      ghost var start := Snap();
      ghost var planned := ToSend(window);
      segments := [];
      while !sentFin
        invariant PushedSince(start, segments, window)
        invariant segments + ToSend(window) == planned
        decreases Unsent()
      {
        var msg;
        ghost var before := segments;
        msg, segments := PushStep(window, start, segments);
        if msg.SequenceLength() == 0 {
          AppendEmpty(segments);
          break;
        }
        AppendShift(before, msg, ToSend(window));
      }
      AppendEmpty(segments);
    }

    /** The fields push works on, as they are now. */
    ghost function Snap(): Snapshot
      reads this, input
    {
      Snapshot(outstanding, input.popped, sentSyn, sentFin, timer, inFlight, ackedSeqno, wndSize,
                input.pushed, input.closed, input.error, input.Accepted())
    }

    /** What the push loop keeps: the segments sent since start were queued in order, carry the
        bytes read from the stream, and stay within the window; nothing else changed. */
    ghost predicate PushedSince(start: Snapshot, segments: seq<TCPSenderMessage>, window: nat)
      reads this, input
    {
      Valid() && PushedFrom(start, Snap(), segments, window, input.IsFinished())
    }

    /** One iteration of the push loop: send a segment and account for it. */
    method PushStep(window: nat, ghost start: Snapshot, segments: seq<TCPSenderMessage>)
      returns (msg: TCPSenderMessage, sent: seq<TCPSenderMessage>)
      requires PushedSince(start, segments, window) && !sentFin && window >= 1
      modifies this, input
      ensures PushedSince(start, sent, window)
      ensures msg.SequenceLength() == 0 ==> sent == segments
      ensures msg.SequenceLength() > 0 ==> sent == segments + [msg] && Unsent() < old(Unsent())
      ensures old(ToSend(window)) == if msg.SequenceLength() > 0 then [msg] + ToSend(window) else []
      ensures msg.SequenceLength() == 0 ==> ToSend(window) == []
    {
      ghost var before := Snap();
      ghost var finished := input.IsFinished();
      ghost var pre := PushStateNow();
      msg := PushSegment(window);
      PushSegmentsRound(pre, PushStateNow(), isn, window, msg);
      sent := segments;
      if msg.SequenceLength() > 0 {
        sent := segments + [msg];
        PushedFromAppend(start, before, segments, window, finished, msg, input.IsFinished());
      }
    }

    /** The segments push would emit now against the given window. */
    function ToSend(window: nat): seq<TCPSenderMessage>
      reads this, input
    {
      PushSegments(PushStateNow(), isn, window)
    }

    /** The part of the state push reads. */
    function PushStateNow(): PushState
      reads this, input
    {
      PushState(input.buffer, input.closed, input.error, sentSyn, sentFin, inFlight, nextSeqno)
    }

    /** What push has yet to send: the buffered bytes, plus SYN and FIN while they are unsent. */
    function Unsent(): nat
      reads this, input
    {
      |input.buffer| + B2N(!sentSyn) + B2N(!sentFin)
    }

    /** One round of the push loop: build a segment and, unless it occupies no sequence numbers,
        queue it. */
    method PushSegment(window: nat) returns (msg: TCPSenderMessage)
      requires Valid() && !sentFin && window >= 1
      modifies this, input
      ensures Valid()
      ensures msg.syn == !old(sentSyn) && msg.rst == input.error && |msg.payload| <= MAX_PAYLOAD_SIZE
      ensures msg.fin ==> input.IsFinished()
      ensures Snap() == if msg.SequenceLength() > 0 then Sent(old(Snap()), msg) else old(Snap())
      ensures old(inFlight) <= window ==> inFlight <= window
      ensures msg.SequenceLength() > 0 ==> Unsent() < old(Unsent())
      ensures BuiltRound(old(PushStateNow()), PushStateNow(), isn, window, msg)
    {
      msg := BuildSegment(window);
      if msg.SequenceLength() > 0 {
        SentSegment(msg);
      }
    }

    /** Reads as much as the window allows (at most MAX_PAYLOAD_SIZE bytes), adds FIN when the
        stream is finished and FIN still fits, and stamps the segment with the next sequence
        number. Only the stream changes. */
    method BuildSegment(window: nat) returns (msg: TCPSenderMessage)
      requires Valid() && !sentFin && window >= 1
      modifies input
      ensures Valid()
      ensures msg.seqno == Wrap(nextSeqno, isn) && msg.syn == !sentSyn && msg.rst == input.error
      ensures |msg.payload| == Min(MaxPayloadSize(window, inFlight, !sentSyn), |old(input.buffer)|)
      ensures msg.fin <==> FinFits(|msg.payload|, inFlight, !sentSyn, window) && input.IsFinished()
      ensures old(input.buffer) == msg.payload + input.buffer
      ensures Snap() == old(Snap()).(popped := old(input.popped) + msg.payload)
      ensures inFlight <= window ==> inFlight + msg.SequenceLength() <= window
    {
      var maxPayloadSize := MaxPayloadSize(window, inFlight, !sentSyn);
      var payload := input.Read(Min(maxPayloadSize, input.BytesBuffered()));
      var fin := false;
      if FinFits(|payload|, inFlight, !sentSyn, window) {
        fin := input.IsFinished();
      }
      msg := MakeMessage(nextSeqno, payload, !sentSyn, fin);
      if inFlight <= window {
        SegmentWithinWindow(window, inFlight, msg.syn, |old(input.buffer)|, |payload|, fin);
      }
    }

    /** The bookkeeping for one emitted segment: queue it, advance next_seqno_ and the sequence
        numbers in flight, and run the timer. */
    method SentSegment(msg: TCPSenderMessage)
      requires Valid() && msg.SequenceLength() > 0
      requires msg.seqno == Wrap(nextSeqno, isn)
      requires msg.syn <==> !sentSyn
      modifies this
      ensures Valid()
      ensures outstanding == old(outstanding) + [msg] && sentSyn && sentFin == (old(sentFin) || msg.fin)
      ensures inFlight == old(inFlight) + msg.SequenceLength() && nextSeqno == old(nextSeqno) + msg.SequenceLength()
      ensures ackedSeqno == old(ackedSeqno) && timer == old(timer).Active() && wndSize == old(wndSize)
    {
      QueueAppend(outstanding, ackedSeqno, inFlight, nextSeqno, isn, msg);
      sentFin := sentFin || msg.fin;
      outstanding := outstanding + [msg];
      inFlight := inFlight + msg.SequenceLength();
      nextSeqno := nextSeqno + msg.SequenceLength();
      sentSyn := true;
      timer := timer.Active();
    }

    /** Takes in the peer's acknowledgment and window. */
    method Receive(msg: TCPReceiverMessage)
      requires Valid()
      modifies this, input
      ensures Valid()
      ensures wndSize == msg.windowSize
      ensures input.error == (old(input.error) || (msg.ackno.None? && msg.windowSize == 0))
      ensures input.buffer == old(input.buffer) && input.popped == old(input.popped)
      ensures input.pushed == old(input.pushed) && input.closed == old(input.closed)
      ensures nextSeqno == old(nextSeqno) && sentSyn == old(sentSyn) && sentFin == old(sentFin)
      ensures ackedSeqno + inFlight == old(ackedSeqno) + old(inFlight)
      ensures var n := Popped(msg.ackno, old(outstanding), old(ackedSeqno), old(nextSeqno));
        && outstanding == old(outstanding)[n..]
        && timer == if n == 0 then old(timer)
                    else (if outstanding != [] then old(timer).Restart().Active() else old(timer).Restart()).ResetRetransmit()
    {
      wndSize := msg.windowSize;
      if msg.ackno.None? {
        if msg.windowSize == 0 {
          input.SetError();
        }
        return;
      }
      var exceptingSeqno := Unwrap(msg.ackno.value, isn, nextSeqno);
      if exceptingSeqno > nextSeqno {
        return;
      }
      PopAcknowledged(exceptingSeqno);
    }

    /** Which acknowledgment, if any, the receive path acts on, and how many segments it pops. */
    function Popped(ackno: Option<Seqno>, outstanding: seq<TCPSenderMessage>, acked: nat, next: nat): (n: nat)
      ensures n <= |outstanding|
    {
      if ackno.None? then 0
      else
        var ack := Unwrap(ackno.value, isn, next);
        if ack > next then 0 else AckedCount(outstanding, acked, ack)
    }

    /** The acknowledgment handling once the acknowledgment is known to be plausible: pop the
        acknowledged segments, then restart the timer if anything was popped. */
    method PopAcknowledged(exceptingSeqno: nat)
      requires Valid() && exceptingSeqno <= nextSeqno
      modifies this
      ensures Valid()
      ensures var n := AckedCount(old(outstanding), old(ackedSeqno), exceptingSeqno);
        && outstanding == old(outstanding)[n..]
        && timer == if n == 0 then old(timer)
                    else (if outstanding != [] then old(timer).Restart().Active() else old(timer).Restart()).ResetRetransmit()
      ensures nextSeqno == old(nextSeqno) && sentSyn == old(sentSyn) && sentFin == old(sentFin) && wndSize == old(wndSize)
      ensures ackedSeqno + inFlight == old(ackedSeqno) + old(inFlight)
    {
      var isAcknowledged := PopLoop(exceptingSeqno);
      if isAcknowledged {
        timer := timer.Restart();
        if outstanding != [] {
          timer := timer.Active();
        }
        timer := timer.ResetRetransmit();
      }
    }

    /** The loop over the front of the queue: pops exactly AckedCount segments. */
    method PopLoop(exceptingSeqno: nat) returns (isAcknowledged: bool)
      requires QueueValid()
      modifies this
      ensures QueueValid()
      ensures var n := AckedCount(old(outstanding), old(ackedSeqno), exceptingSeqno);
        && outstanding == old(outstanding)[n..]
        && (isAcknowledged <==> n > 0)
      ensures nextSeqno == old(nextSeqno) && sentSyn == old(sentSyn) && sentFin == old(sentFin)
      ensures ackedSeqno + inFlight == old(ackedSeqno) + old(inFlight)
      ensures timer == old(timer) && wndSize == old(wndSize)
    {
      ghost var n := AckedCount(outstanding, ackedSeqno, exceptingSeqno);
      ghost var i := 0;
      isAcknowledged := false;
      while outstanding != []
        invariant QueueValid()
        invariant i <= n && old(outstanding)[i..] == outstanding
        invariant AckedCount(outstanding, ackedSeqno, exceptingSeqno) == n - i
        invariant ackedSeqno + inFlight == old(ackedSeqno) + old(inFlight)
        invariant isAcknowledged <==> i > 0
        invariant nextSeqno == old(nextSeqno) && sentSyn == old(sentSyn) && sentFin == old(sentFin)
        invariant timer == old(timer) && wndSize == old(wndSize)
        decreases |outstanding|
      {
        var front := outstanding[0];
        var finalSeqno := ackedSeqno + front.SequenceLength() - B2N(front.syn);
        if exceptingSeqno <= ackedSeqno || exceptingSeqno < finalSeqno {
          break;
        }
        PopFront(exceptingSeqno, old(outstanding), i);
        isAcknowledged := true;
        i := i + 1;
      }
    }

    /** One acknowledged segment leaves the front of the queue. */
    method PopFront(exceptingSeqno: nat, ghost all: seq<TCPSenderMessage>, ghost i: nat)
      requires QueueValid() && outstanding != []
      requires i < |all| && all[i..] == outstanding
      modifies this
      ensures QueueValid()
      ensures outstanding == old(outstanding)[1..] && all[i + 1..] == outstanding
      ensures ackedSeqno == old(ackedSeqno) + old(outstanding)[0].SequenceLength()
      ensures inFlight == old(inFlight) - old(outstanding)[0].SequenceLength()
      ensures nextSeqno == old(nextSeqno) && sentSyn == old(sentSyn) && sentFin == old(sentFin)
      ensures timer == old(timer) && wndSize == old(wndSize)
    {
      var front := outstanding[0];
      QueuePop(outstanding, ackedSeqno, inFlight, nextSeqno, isn);
      inFlight := inFlight - (front.SequenceLength() - B2N(synFlag));
      ackedSeqno := ackedSeqno + (front.SequenceLength() - B2N(synFlag));
      synFlag := if sentSyn then synFlag else exceptingSeqno <= nextSeqno;
      outstanding := outstanding[1..];
      assert all[i + 1..] == all[i..][1..];
    }

    /** Advances the timer; on expiry retransmits the oldest outstanding segment. */
    method Tick(ms: nat) returns (retransmitted: Option<TCPSenderMessage>)
      requires Valid()
      modifies this
      ensures Valid()
      ensures outstanding == old(outstanding) && nextSeqno == old(nextSeqno) && ackedSeqno == old(ackedSeqno)
      ensures inFlight == old(inFlight) && wndSize == old(wndSize) && sentSyn == old(sentSyn) && sentFin == old(sentFin)
      ensures var t := old(timer).Tick(ms);
        if t.IsExpired() then retransmitted == Some(outstanding[0]) && timer == t.Fire(wndSize != 0)
        else retransmitted == None && timer == t
    {
      timer := timer.Tick(ms);
      retransmitted := None;
      if timer.IsExpired() {
        retransmitted := Some(outstanding[0]);
        timer := timer.Reset();
        if wndSize != 0 {
          timer := timer.Timeout();
        }
        timer := timer.AddRetransmit();
      }
    }
  }
}
