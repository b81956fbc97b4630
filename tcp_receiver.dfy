// The receiving half of a TCP endpoint (src/tcp_receiver.cc): it turns segments into reassembler
// inserts and reports the acknowledgment number, window and reset flag.
module TcpReceiving {
  import opened Common
  import opened ByteStreams
  import opened Reassembly
  import opened Wrapping
  import opened TcpMessages

  /** The stream index of a segment's first payload byte: 0 for a SYN segment (its first byte
      follows the SYN), otherwise the absolute sequence number minus one, as uint64_t arithmetic,
      so a non-SYN segment at the zero point gets index 2^64 - 1. */
  function StreamIndex(message: TCPSenderMessage, zeroPoint: Seqno, checkpoint: nat): (r: nat)
    ensures r < U64
    ensures message.syn ==> r == 0
    ensures !message.syn ==> (r + 1) % U64 == Unwrap(message.seqno, zeroPoint, checkpoint) % U64
  {
    if message.syn then 0 else (Unwrap(message.seqno, zeroPoint, checkpoint) - 1) % U64
  }

  /** A non-SYN segment whose seqno is the zero point itself (absolute sequence number 0, the
      SYN's slot) gets stream index 2^64 - 1; its first byte is never staged and the rest of its
      bytes are staged as if it had started at stream index 0. */
  lemma SegmentAtZeroPoint(message: TCPSenderMessage, zeroPoint: Seqno, checkpoint: nat,
                           staged: map<nat, char>, next: nat, windowEnd: nat)
    requires !message.syn && message.seqno == zeroPoint && message.payload != []
    requires checkpoint <= U32 / 2 && windowEnd < U64
    ensures StreamIndex(message, zeroPoint, checkpoint) == U64 - 1
    ensures Stage(staged, StreamIndex(message, zeroPoint, checkpoint), message.payload, next, windowEnd)
         == Stage(staged, 0, message.payload[1..], next, windowEnd)
  {
    var a := Unwrap(message.seqno, zeroPoint, checkpoint);
    assert Wrap(0, zeroPoint) == message.seqno;
    UnwrapClosest(message.seqno, zeroPoint, checkpoint, 0);
    assert a % U32 == 0;
    StageFromLastIndex(staged, message.payload, next, windowEnd);
  }

  class TCPReceiver {
    const reassembler: Reassembler
    /** The sequence number of the SYN, once one has been seen (zero_point_). */
    var zeroPoint: Option<Seqno>

    ghost predicate Valid()
      reads this, reassembler, reassembler.output
    {
      reassembler.Valid()
    }

    constructor (reassembler: Reassembler)
      requires reassembler.Valid()
      ensures Valid() && this.reassembler == reassembler && zeroPoint == None
    {
      this.reassembler := reassembler;
      zeroPoint := None;
    }

    /** bytes_pushed + 1 (the SYN) + 1 more once the stream is closed (the FIN). */
    function Checkpoint(): (r: nat)
      reads this, reassembler, reassembler.output
      requires Valid()
      ensures r == reassembler.nextIndex + 1 + (if reassembler.output.closed then 1 else 0)
    {
      reassembler.output.BytesPushed() + 1 + (if reassembler.output.IsClosed() then 1 else 0)
    }

    method Receive(message: TCPSenderMessage)
      requires Valid()
      modifies this, reassembler, reassembler.output
      ensures Valid()
      ensures reassembler.output.error == (old(reassembler.output.error) || message.rst)
      ensures reassembler.output.popped == old(reassembler.output.popped)
      ensures zeroPoint == if message.syn then Some(message.seqno) else old(zeroPoint)
      ensures zeroPoint.None? ==>
        && unchanged(reassembler)
        && reassembler.output.buffer == old(reassembler.output.buffer)
        && reassembler.output.closed == old(reassembler.output.closed)
      ensures zeroPoint.Some? ==>
        reassembler.State() == Inserting(old(reassembler.State()), reassembler.output.capacity,
          StreamIndex(message, zeroPoint.value, old(Checkpoint())), message.payload, message.fin)
    {
      ghost var before := reassembler.State();
      ghost var checkpointBefore := Checkpoint();
      if message.rst {
        reassembler.output.SetError();
      }
      if message.syn {
        zeroPoint := Some(message.seqno);
      }
      if zeroPoint.None? {
        return;
      }
      var checkpoint := reassembler.output.BytesPushed() + 1 + (if reassembler.output.IsClosed() then 1 else 0);
      var absoluteSeqno := Unwrap(message.seqno, zeroPoint.value, checkpoint);
      var streamIndex := if message.syn then 0 else (absoluteSeqno - 1) % U64;
      assert reassembler.State() == before && checkpoint == checkpointBefore;
      assert streamIndex == StreamIndex(message, zeroPoint.value, checkpointBefore);
      reassembler.Insert(streamIndex, message.payload, message.fin);
    }

    function Send(): (r: TCPReceiverMessage)
      reads this, reassembler, reassembler.output
      requires Valid()
      ensures r.ackno.Some? <==> zeroPoint.Some?
      ensures zeroPoint.Some? ==> r.ackno == Some(Wrap(Checkpoint(), zeroPoint.value))
      ensures r.windowSize <= reassembler.output.AvailableCapacity()
      ensures r.windowSize == Min(65535, reassembler.output.AvailableCapacity())
      ensures r.rst <==> reassembler.output.error
    {
      var checkpoint := reassembler.output.BytesPushed() + 1 + (if reassembler.output.IsClosed() then 1 else 0);
      TCPReceiverMessage(
        if zeroPoint.Some? then Some(Wrap(checkpoint, zeroPoint.value)) else None,
        Min(65535, reassembler.output.AvailableCapacity()),
        reassembler.output.error)
    }

    /** The acknowledgment number names the stream position right after everything reassembled
        (plus SYN and, once closed, FIN): unwrapped against that position it gives it back. */
    lemma AcknoNamesCheckpoint()
      requires Valid() && zeroPoint.Some?
      ensures Send().ackno.Some?
      ensures Unwrap(Send().ackno.value, zeroPoint.value, Checkpoint()) == Checkpoint()
    {
      UnwrapWrap(Checkpoint(), zeroPoint.value);
    }
  }
}
