// Reassembly of arbitrarily indexed substrings into the output byte stream (src/reassembler.cc).
// Indices are the source's uint64_t values: the running index and the end-of-stream index wrap
// modulo 2^64, and the window end next_index_ + available_capacity() is a uint64_t sum.
module Reassembly {
  import opened Common
  import opened ByteStreams

  /** The staging test: a byte is kept iff it is not before next and not at or past the window end. */
  predicate InWindow(index: nat, next: nat, windowEnd: nat)
  {
    next <= index < windowEnd
  }

  /** The uint64_t value of next_index_ + available_capacity(). */
  function WindowEnd(next: nat, avail: nat): (r: nat)
    ensures r < U64 && r <= next + avail
    ensures next + avail < U64 ==> r == next + avail
  {
    (next + avail) % U64
  }

  /** The staging loop: each byte of data, at an index that advances modulo 2^64, is written into
      the map if it lies in the window; a later byte at the same index overwrites an earlier one. */
  function Stage(staged: map<nat, char>, index: nat, data: seq<char>, next: nat, windowEnd: nat): map<nat, char>
    decreases |data|
  {
    if data == [] then staged
    else
      var m := if InWindow(index, next, windowEnd) then staged[index := data[0]] else staged;
      Stage(m, (index + 1) % U64, data[1..], next, windowEnd)
  }

  /** Only bytes inside the window are ever added to the map. */
  lemma {:induction false} StageOnlyInWindow(staged: map<nat, char>, index: nat, data: seq<char>, next: nat, windowEnd: nat)
    ensures forall k :: k in Stage(staged, index, data, next, windowEnd) ==> k in staged || InWindow(k, next, windowEnd)
    ensures staged.Keys <= Stage(staged, index, data, next, windowEnd).Keys
    decreases |data|
  {
    if data != [] {
      var m := if InWindow(index, next, windowEnd) then staged[index := data[0]] else staged;
      StageOnlyInWindow(m, (index + 1) % U64, data[1..], next, windowEnd);
    }
  }

  /** Without wrap-around, staging has a closed form: a window index covered by data holds the
      byte of data at that offset (the newest write wins); every other entry is untouched. */
  lemma {:induction false} StageClosedForm(staged: map<nat, char>, index: nat, data: seq<char>, next: nat, windowEnd: nat)
    requires index + |data| <= U64
    ensures var r := Stage(staged, index, data, next, windowEnd);
      forall k :: (k in r <==> k in staged || (index <= k < index + |data| && InWindow(k, next, windowEnd)))
        && (k in r ==> r[k] == if index <= k < index + |data| && InWindow(k, next, windowEnd) then data[k - index] else staged[k])
    decreases |data|
  {
    if data != [] {
      var m := if InWindow(index, next, windowEnd) then staged[index := data[0]] else staged;
      assert (index + 1) % U64 == index + 1 || data[1..] == [];
      if data[1..] == [] {
        assert Stage(m, (index + 1) % U64, data[1..], next, windowEnd) == m;
      } else {
        StageClosedForm(m, index + 1, data[1..], next, windowEnd);
      }
    }
  }

  /** A substring that starts one before index 0 (index 2^64 - 1, as the TCP receiver produces for
      a non-SYN segment at the ISN) loses its first byte and stages the rest from index 0. */
  lemma StageFromLastIndex(staged: map<nat, char>, data: seq<char>, next: nat, windowEnd: nat)
    requires data != [] && windowEnd < U64
    ensures Stage(staged, U64 - 1, data, next, windowEnd) == Stage(staged, 0, data[1..], next, windowEnd)
  {
  }

  datatype Drained = Drained(bytes: seq<char>, staged: map<nat, char>, next: nat)

  /** The drain loop: moves the contiguous run starting at next out of the map, stopping at a gap
      or right after reaching the end-of-stream index. */
  function Drain(staged: map<nat, char>, next: nat, last: Option<nat>): Drained
    decreases |staged|
  {
    if next !in staged then Drained([], staged, next)
    else
      var rest := staged - {next};
      assert |rest| < |staged| by { assert rest.Keys == staged.Keys - {next}; }
      if Some(next + 1) == last then Drained([staged[next]], rest, next + 1)
      else
        var d := Drain(rest, next + 1, last);
        Drained([staged[next]] + d.bytes, d.staged, d.next)
  }

  /** bytes in front of what a drain moved. */
  function Prepended(bytes: seq<char>, d: Drained): Drained
  {
    Drained(bytes + d.bytes, d.staged, d.next)
  }

  /** One turn of the drain loop: the byte at next leaves the map, and the drain ends right after
      it at the end-of-stream index or goes on from next + 1. */
  lemma DrainOne(staged: map<nat, char>, next: nat, last: Option<nat>)
    requires next in staged
    ensures Drain(staged, next, last)
         == if Some(next + 1) == last then Drained([staged[next]], staged - {next}, next + 1)
            else Prepended([staged[next]], Drain(staged - {next}, next + 1, last))
  {
  }

  /** The drained bytes are exactly the map's bytes at next, next + 1, ... in index order; exactly
      those entries are erased; the run is maximal unless it stopped at the end-of-stream index,
      and it never runs past an end-of-stream index that lies ahead. */
  lemma DrainRun(staged: map<nat, char>, next: nat, last: Option<nat>)
    ensures var d := Drain(staged, next, last);
      && d.next == next + |d.bytes|
      && RunAt(d.bytes, staged, next)
      && (forall k :: k in d.staged <==> k in staged && !(next <= k < d.next))
      && (forall k :: k in d.staged ==> d.staged[k] == staged[k])
      && (d.next !in staged || Some(d.next) == last)
      && (last.Some? && next < last.value ==> d.next <= last.value)
  {
    DrainStops(staged, next, last);
    DrainBytes(staged, next, last);
    DrainErases(staged, next, last);
  }

  /** Where the drain loop stops: after the run it moved, at a gap or at the end-of-stream index. */
  lemma {:induction false} DrainStops(staged: map<nat, char>, next: nat, last: Option<nat>)
    ensures var d := Drain(staged, next, last);
      && d.next == next + |d.bytes|
      && (d.next !in staged || Some(d.next) == last)
      && (last.Some? && next < last.value ==> d.next <= last.value)
    decreases |staged|
  {
    if next in staged {
      var rest := staged - {next};
      assert |rest| < |staged| by { assert rest.Keys == staged.Keys - {next}; }
      if Some(next + 1) != last {
        DrainStops(rest, next + 1, last);
      }
    }
  }

  /** bytes are the staged bytes at next, next + 1, ... */
  predicate RunAt(bytes: seq<char>, staged: map<nat, char>, next: nat)
  {
    forall k :: next <= k < next + |bytes| ==> k in staged && bytes[k - next] == staged[k]
  }

  /** The drained bytes are the staged bytes at next, next + 1, ... */
  lemma {:induction false} DrainBytes(staged: map<nat, char>, next: nat, last: Option<nat>)
    ensures RunAt(Drain(staged, next, last).bytes, staged, next)
    decreases |staged|
  {
    var d := Drain(staged, next, last);
    if next in staged {
      var rest := staged - {next};
      assert |rest| < |staged| by { assert rest.Keys == staged.Keys - {next}; }
      if Some(next + 1) != last {
        DrainBytes(rest, next + 1, last);
        var e := Drain(rest, next + 1, last);
        assert d.bytes == [staged[next]] + e.bytes;
        forall k | next <= k < next + |d.bytes|
          ensures k in staged && d.bytes[k - next] == staged[k]
        {
          if k > next {
            assert k in rest && e.bytes[k - (next + 1)] == rest[k];
            assert d.bytes[k - next] == e.bytes[k - (next + 1)];
          }
        }
        assert RunAt(d.bytes, staged, next);
      } else {
        assert d.bytes == [staged[next]];
      }
    }
  }

  /** Draining erases exactly the indices it moved and leaves every other entry as it was. */
  lemma {:induction false} DrainErases(staged: map<nat, char>, next: nat, last: Option<nat>)
    ensures var d := Drain(staged, next, last);
      && (forall k :: k in d.staged <==> k in staged && !(next <= k < d.next))
      && (forall k :: k in d.staged ==> d.staged[k] == staged[k])
    decreases |staged|
  {
    if next in staged {
      var rest := staged - {next};
      assert |rest| < |staged| by { assert rest.Keys == staged.Keys - {next}; }
      if Some(next + 1) != last {
        DrainErases(rest, next + 1, last);
        DrainStops(rest, next + 1, last);
      }
    }
  }

  /** Bytes consistent with one reference string stay consistent through staging, provided the
      substring really is the reference string at its index. */
  lemma {:induction false} StageAgrees(staged: map<nat, char>, index: nat, data: seq<char>, next: nat, windowEnd: nat, s: seq<char>)
    requires forall k :: k in staged ==> k < |s| && staged[k] == s[k]
    requires index + |data| <= |s| <= U64 && data == s[index..index + |data|]
    ensures var r := Stage(staged, index, data, next, windowEnd);
      forall k :: k in r ==> k < |s| && r[k] == s[k]
  {
    StageClosedForm(staged, index, data, next, windowEnd);
  }

  /** Draining a map that agrees with a reference string delivers exactly the next slice of it. */
  lemma DrainAgrees(staged: map<nat, char>, next: nat, last: Option<nat>, s: seq<char>)
    requires next <= |s|
    requires forall k :: k in staged ==> k < |s| && staged[k] == s[k]
    ensures var d := Drain(staged, next, last);
      next <= d.next <= |s| && d.bytes == s[next..d.next]
  {
    var d := Drain(staged, next, last);
    DrainRun(staged, next, last);
    if d.bytes != [] {
      var j := |d.bytes| - 1;
      var b := d.bytes[j];
      assert next + j in staged;
    }
    forall j | 0 <= j < |d.bytes|
      ensures d.bytes[j] == s[next..d.next][j]
    {
      var b := d.bytes[j];
      assert next + j in staged && b == staged[next + j];
    }
  }

  /** Staging keeps every staged index inside the window [next, next + avail) and below 2^64 - 1. */
  lemma StageKeepsWindow(staged: map<nat, char>, index: nat, data: seq<char>, next: nat, avail: nat)
    requires forall k :: k in staged ==> next <= k < next + avail && k < U64 - 1
    ensures var r := Stage(staged, index, data, next, WindowEnd(next, avail));
      forall k :: k in r ==> next <= k < next + avail && k < U64 - 1
  {
    StageOnlyInWindow(staged, index, data, next, WindowEnd(next, avail));
  }

  /** Draining a window-bounded map moves at most avail bytes, so pushing them is never
      truncated, and what stays staged lies in the window that remains. */
  lemma DrainKeepsWindow(staged: map<nat, char>, next: nat, last: Option<nat>, avail: nat)
    requires next < U64
    requires forall k :: k in staged ==> next <= k < next + avail && k < U64 - 1
    ensures var d := Drain(staged, next, last);
      && |d.bytes| <= avail && d.next == next + |d.bytes| && d.next < U64
      && forall k :: k in d.staged ==> d.next <= k < d.next + (avail - |d.bytes|) && k < U64 - 1
  {
    var d := Drain(staged, next, last);
    DrainRun(staged, next, last);
    if d.bytes != [] {
      var j := |d.bytes| - 1;
      var b := d.bytes[j];
      assert next + j in staged;
    }
  }

  /** A set of indices inside a range of n indices has at most n members. */
  lemma {:induction false} RangeBoundsCard(keys: set<nat>, lo: nat, n: nat)
    requires forall k :: k in keys ==> lo <= k < lo + n
    ensures |keys| <= n
    decreases n
  {
    if n == 0 {
      assert keys == {};
    } else {
      RangeBoundsCard(keys - {lo + n - 1}, lo, n - 1);
    }
  }

  /** What insert acts on: the staged map, the next and last indices, and the output stream's
      buffer and closed flag. */
  datatype Staging = Staging(staged: map<nat, char>, nextIndex: nat, lastIndex: Option<nat>,
                             buffer: seq<char>, closed: bool)

  /** The second half of insert: drain the contiguous run at nextIndex into the buffer, and
      close once the end-of-stream index is reached. */
  function Delivered(st: Staging): Staging
  {
    var d := Drain(st.staged, st.nextIndex, st.lastIndex);
    Staging(d.staged, d.next, st.lastIndex, st.buffer + d.bytes, st.closed || Some(d.next) == st.lastIndex)
  }

  /** The effect of one insert on a stream of the given capacity: record the end-of-stream index
      if this is the last substring, stage the bytes that fall inside the window, then deliver. */
  function Inserting(st: Staging, capacity: nat, firstIndex: nat, data: seq<char>, isLastSubstring: bool): Staging
    requires |st.buffer| <= capacity
  {
    var last: Option<nat> := if isLastSubstring then Some((firstIndex + |data|) % U64) else st.lastIndex;
    var windowEnd := WindowEnd(st.nextIndex, capacity - |st.buffer|);
    Delivered(st.(staged := Stage(st.staged, firstIndex, data, st.nextIndex, windowEnd), lastIndex := last))
  }

  /** The staging state is consistent with one reference stream s: next is within s, every
      staged byte is s's byte at its index and not yet delivered, a recorded end-of-stream index
      is |s|, and the output is closed only once all of s was delivered. */
  predicate Agrees(st: Staging, s: seq<char>)
  {
    && st.nextIndex <= |s| < U64
    && (forall k :: k in st.staged ==> st.nextIndex <= k < |s| && st.staged[k] == s[k])
    && (st.lastIndex.Some? ==> st.lastIndex.value == |s|)
    && (st.closed ==> st.nextIndex == |s|)
  }

  /** Delivering from a state consistent with s appends the next slice of s and stays
      consistent with it. */
  lemma DeliveredAgrees(st: Staging, s: seq<char>)
    requires Agrees(st, s)
    ensures var r := Delivered(st);
      && Agrees(r, s)
      && st.nextIndex <= r.nextIndex
      && r.buffer == st.buffer + s[st.nextIndex..r.nextIndex]
      && (r.nextIndex == |s| ==> r.staged == map[])
  {
    DrainAgrees(st.staged, st.nextIndex, st.lastIndex, s);
    DrainErases(st.staged, st.nextIndex, st.lastIndex);
    var d := Drain(st.staged, st.nextIndex, st.lastIndex);
    assert forall k :: k in d.staged ==> d.next <= k < |s| && d.staged[k] == s[k];
    if d.next == |s| {
      assert d.staged.Keys == {};
    }
  }

  /** Staging a substring of s keeps the state consistent with s. */
  lemma StagingAgrees(st: Staging, firstIndex: nat, data: seq<char>, windowEnd: nat, s: seq<char>)
    requires Agrees(st, s)
    requires firstIndex + |data| <= |s| && data == s[firstIndex..firstIndex + |data|]
    ensures Agrees(st.(staged := Stage(st.staged, firstIndex, data, st.nextIndex, windowEnd)), s)
  {
    StageClosedForm(st.staged, firstIndex, data, st.nextIndex, windowEnd);
  }

  /** Reassembly of one stream s: inserting any substring of s, with the last-substring flag
      only on one that ends s, appends exactly the next slice of s to the output, keeps the state
      consistent with s, and closes the output only when all of s has been delivered and nothing
      is left staged. */
  lemma InsertingAgrees(st: Staging, capacity: nat, firstIndex: nat, data: seq<char>, isLastSubstring: bool, s: seq<char>)
    requires |st.buffer| <= capacity && Agrees(st, s)
    requires firstIndex + |data| <= |s| && data == s[firstIndex..firstIndex + |data|]
    requires isLastSubstring ==> firstIndex + |data| == |s|
    ensures var r := Inserting(st, capacity, firstIndex, data, isLastSubstring);
      && Agrees(r, s)
      && st.nextIndex <= r.nextIndex
      && r.buffer == st.buffer + s[st.nextIndex..r.nextIndex]
      && (r.closed ==> r.nextIndex == |s| && r.staged == map[])
  {
    var last: Option<nat> := if isLastSubstring then Some((firstIndex + |data|) % U64) else st.lastIndex;
    var windowEnd := WindowEnd(st.nextIndex, capacity - |st.buffer|);
    var marked := st.(lastIndex := last);
    assert Agrees(marked, s);
    StagingAgrees(marked, firstIndex, data, windowEnd, s);
    DeliveredAgrees(marked.(staged := Stage(st.staged, firstIndex, data, st.nextIndex, windowEnd)), s);
  }

  class Reassembler {
    /** The stream the reassembled bytes are written to; the reassembler is its only writer. */
    const output: ByteStream
    /** Staged bytes by absolute stream index (internal_bytes). */
    var staged: map<nat, char>
    /** The index of the next byte the output stream expects (next_index_). */
    var nextIndex: nat
    /** One past the final byte, once a last substring has been seen (last_index_). */
    var lastIndex: Option<nat>

    ghost predicate Valid()
      reads this, output
    {
      && output.Valid()
      && nextIndex == output.pushed
      && nextIndex < U64
      && forall k :: k in staged ==> nextIndex <= k < nextIndex + output.AvailableCapacity() && k < U64 - 1
    }

    constructor (output: ByteStream)
      requires output.Valid() && output.pushed == 0
      ensures Valid() && this.output == output
      ensures staged == map[] && nextIndex == 0 && lastIndex == None
    {
      this.output := output;
      staged := map[];
      nextIndex := 0;
      lastIndex := None;
    }

    /** The reassembler's state together with the output stream's buffer and closed flag. */
    ghost function State(): Staging
      reads this, output
    {
      Staging(staged, nextIndex, lastIndex, output.buffer, output.closed)
    }

    method Insert(firstIndex: nat, data: seq<char>, isLastSubstring: bool)
      requires Valid() && firstIndex < U64
      modifies this, output
      ensures Valid()
      ensures State() == Inserting(old(State()), output.capacity, firstIndex, data, isLastSubstring)
      ensures output.popped == old(output.popped) && output.error == old(output.error)
    {
      var index: nat := firstIndex;
      if isLastSubstring {
        lastIndex := Some((firstIndex + |data|) % U64);
      }
      var windowEnd := WindowEnd(nextIndex, output.AvailableCapacity());
      ghost var target := Stage(staged, firstIndex, data, nextIndex, windowEnd);
      var i := 0;
      while i < |data|
        modifies this
        invariant 0 <= i <= |data| && index < U64
        invariant nextIndex == old(nextIndex)
        invariant lastIndex == if isLastSubstring then Some((firstIndex + |data|) % U64) else old(lastIndex)
        invariant Stage(staged, index, data[i..], nextIndex, windowEnd) == target
      {
        assert data[i..][1..] == data[i + 1..];
        if index < nextIndex || index >= windowEnd {
          index := (index + 1) % U64;
          i := i + 1;
          continue;
        }
        staged := staged[index := data[i]];
        index := (index + 1) % U64;
        i := i + 1;
      }
      assert data[i..] == [];
      StageKeepsWindow(old(staged), firstIndex, data, nextIndex, output.AvailableCapacity());
      DrainContiguous();
    }

    /** The second half of insert: hands the contiguous run at nextIndex to the output stream and
        closes it when the end-of-stream index is reached. */
    method DrainContiguous()
      requires Valid()
      modifies this, output
      ensures Valid()
      ensures State() == Delivered(old(State()))
      ensures output.popped == old(output.popped) && output.error == old(output.error)
    {
      DrainKeepsWindow(staged, nextIndex, lastIndex, output.AvailableCapacity());
      var msg := TakeRun();
      output.Push(msg);
      if Some(nextIndex) == lastIndex {
        output.Close();
      }
    }

    /** The drain loop itself: moves the contiguous run at nextIndex out of the staged map. */
    method TakeRun() returns (msg: seq<char>)
      modifies this
      ensures Drained(msg, staged, nextIndex) == Drain(old(staged), old(nextIndex), lastIndex)
      ensures lastIndex == old(lastIndex)
    {
      ghost var drained := Drain(staged, nextIndex, lastIndex);
      msg := [];
      while nextIndex in staged
        modifies this
        invariant lastIndex == old(lastIndex)
        invariant drained == Prepended(msg, Drain(staged, nextIndex, lastIndex))
        decreases |staged|
      {
        DrainOne(staged, nextIndex, lastIndex);
        ghost var prefix := msg;
        var c := staged[nextIndex];
        msg := msg + [c];
        staged := staged - {nextIndex};
        nextIndex := nextIndex + 1;
        if Some(nextIndex) == lastIndex {
          break;
        }
        assert prefix + ([c] + Drain(staged, nextIndex, lastIndex).bytes) == msg + Drain(staged, nextIndex, lastIndex).bytes;
      }
    }

    /** The number of staged bytes; they all fit in the output's free capacity. */
    function BytesPending(): (r: nat)
      reads this, output
      requires Valid()
      ensures r == |staged.Keys|
      ensures r <= output.AvailableCapacity()
    {
      RangeBoundsCard(staged.Keys, nextIndex, output.AvailableCapacity());
      |staged|
    }
  }
}
