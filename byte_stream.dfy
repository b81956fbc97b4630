// The bounded FIFO byte stream shared by a writer and a reader (src/byte_stream.cc).
module ByteStreams {
  import opened Common

  class ByteStream {
    /** Fixed at construction (capacity_). */
    const capacity: nat
    /** The buffered, not yet popped bytes, front first (stream_). */
    var buffer: seq<char>
    /** Total number of bytes ever accepted by Push (tot_write_). */
    var pushed: nat
    /** The writer has closed the stream (finish_write_). */
    var closed: bool
    /** The terminal error flag behind set_error/has_error. */
    var error: bool
    /** Every byte the reader has popped so far, in order. */
    ghost var popped: seq<char>

    ghost predicate Valid()
      reads this
    {
      |buffer| <= capacity && pushed == |popped| + |buffer|
    }

    /** The whole history of accepted bytes: what was popped followed by what is buffered. */
    ghost function Accepted(): seq<char>
      reads this
    {
      popped + buffer
    }

    constructor (capacity: nat)
      ensures Valid() && this.capacity == capacity
      ensures buffer == [] && popped == [] && pushed == 0 && !closed && !error
    {
      this.capacity := capacity;
      buffer := [];
      pushed := 0;
      closed := false;
      error := false;
      popped := [];
    }

    // ----- Writer side -----

    function IsClosed(): (r: bool)
      reads this
      ensures r <==> closed
    {
      closed
    }

    /** Appends the longest prefix of data that fits; the rest is silently dropped. */
    method Push(data: seq<char>)
      requires Valid()
      modifies this
      ensures Valid()
      ensures var k := Min(|data|, capacity - |old(buffer)|);
        buffer == old(buffer) + data[..k] && pushed == old(pushed) + k
      ensures Accepted() == old(Accepted()) + data[..Min(|data|, capacity - |old(buffer)|)]
      ensures popped == old(popped) && closed == old(closed) && error == old(error)
    {
      var i := 0;
      while i < |data|
        invariant 0 <= i <= |data|
        invariant |old(buffer)| + i <= capacity
        invariant buffer == old(buffer) + data[..i]
        invariant pushed == old(pushed) + i
        invariant popped == old(popped) && closed == old(closed) && error == old(error)
      {
        if |buffer| == capacity {
          break;
        }
        buffer := buffer + [data[i]];
        pushed := pushed + 1;
        i := i + 1;
        assert data[..i] == data[..i - 1] + [data[i - 1]];
      }
    }

    method Close()
      modifies this
      ensures closed
      ensures buffer == old(buffer) && pushed == old(pushed) && popped == old(popped) && error == old(error)
    {
      closed := true;
    }

    method SetError()
      modifies this
      ensures error
      ensures buffer == old(buffer) && pushed == old(pushed) && popped == old(popped) && closed == old(closed)
    {
      error := true;
    }

    function AvailableCapacity(): (r: nat)
      reads this
      requires Valid()
      ensures r + |buffer| == capacity
    {
      capacity - |buffer|
    }

    function BytesPushed(): (r: nat)
      reads this
      requires Valid()
      ensures r == |Accepted()|
    {
      pushed
    }

    // ----- Reader side -----

    function IsFinished(): (r: bool)
      reads this
      ensures r <==> closed && buffer == []
    {
      closed && |buffer| == 0
    }

    function BytesPopped(): (r: nat)
      reads this
      requires Valid()
      ensures r == |popped|
      ensures r + BytesBuffered() == BytesPushed()
    {
      pushed - |buffer|
    }

    /** At most one byte: the oldest unread one, if any. */
    function Peek(): (r: seq<char>)
      reads this
      requires Valid()
      ensures |r| <= 1
      ensures r != [] <==> buffer != []
      ensures r != [] ==> r[0] == Accepted()[BytesPopped()]
    {
      if IsFinished() || |buffer| == 0 then [] else [buffer[0]]
    }

    /** Discards min(len, buffered) bytes from the front; never fails. */
    method Pop(len: nat)
      requires Valid()
      modifies this
      ensures Valid()
      ensures var k := Min(len, |old(buffer)|);
        buffer == old(buffer)[k..] && popped == old(popped) + old(buffer)[..k]
      ensures Accepted() == old(Accepted())
      ensures pushed == old(pushed) && closed == old(closed) && error == old(error)
    {
      var n := 0;
      while n < len
        invariant n <= len && n <= |old(buffer)|
        invariant buffer == old(buffer)[n..]
        invariant popped == old(popped) + old(buffer)[..n]
        invariant pushed == old(pushed) && closed == old(closed) && error == old(error)
      {
        if buffer == [] {
          break;
        }
        popped := popped + [buffer[0]];
        buffer := buffer[1..];
        n := n + 1;
        assert old(buffer)[..n] == old(buffer)[..n - 1] + [old(buffer)[n - 1]];
      }
      assert old(buffer) == old(buffer)[..n] + old(buffer)[n..];
    }

    /** The stream helper read(): repeatedly peeks and pops until len bytes are taken or the
        buffer is empty, returning the bytes taken in order. */
    method Read(len: nat) returns (out: seq<char>)
      requires Valid()
      modifies this
      ensures Valid()
      ensures var k := Min(len, |old(buffer)|);
        out == old(buffer)[..k] && buffer == old(buffer)[k..] && popped == old(popped) + out
      ensures Accepted() == old(Accepted())
      ensures pushed == old(pushed) && closed == old(closed) && error == old(error)
    {
      out := [];
      while |buffer| > 0 && |out| < len
        invariant |out| <= len && |out| <= |old(buffer)|
        invariant out == old(buffer)[..|out|] && buffer == old(buffer)[|out|..]
        invariant popped == old(popped) + out
        invariant Valid() && pushed == old(pushed) && closed == old(closed) && error == old(error)
      {
        var view := Peek();
        out := out + view;
        Pop(|view|);
      }
    }

    function BytesBuffered(): (r: nat)
      reads this
      requires Valid()
      ensures r <= capacity
      ensures r == |buffer|
    {
      |buffer|
    }
  }
}
