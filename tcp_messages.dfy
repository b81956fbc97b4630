// The two TCP message value types exchanged between a sender and a receiver.
module TcpMessages {
  import opened Common
  import opened Wrapping

  /** The 16-bit TCP window field (section 3.1 of RFC 9293). */
  type Window16 = x: nat | x < 0x1_0000

  /** A segment as the sender emits it; payload bytes are characters. */
  datatype TCPSenderMessage = TCPSenderMessage(seqno: Seqno, syn: bool, payload: seq<char>, fin: bool, rst: bool)
  {
    /** SYN and FIN each occupy one sequence number, like a payload byte. */
    function SequenceLength(): nat
    {
      (if syn then 1 else 0) + |payload| + (if fin then 1 else 0)
    }
  }

  /** What the receiver reports back: the next expected sequence number, once known, and its window. */
  datatype TCPReceiverMessage = TCPReceiverMessage(ackno: Option<Seqno>, windowSize: Window16, rst: bool)
}
