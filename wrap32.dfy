// 32-bit TCP sequence numbers (section 3.4 of RFC 9293). The Wrap32 class itself is not part of
// this model; Wrap and Unwrap are assumed helpers standing for Wrap32::wrap and Wrap32::unwrap,
// with the usual meaning: wrap adds the zero point modulo 2^32, and unwrap picks the absolute
// value with that wrapped form that is closest to a checkpoint (the smaller one on a tie).
module Wrapping {
  import opened Common

  /** A wrapped 32-bit sequence number. */
  type Seqno = x: nat | x < U32

  function Wrap(n: nat, zeroPoint: Seqno): Seqno
  {
    (n + zeroPoint) % U32
  }

  function Dist(a: nat, b: nat): nat
  {
    if a >= b then a - b else b - a
  }

  /** Every absolute value with wrapped form w is offset + k * 2^32 for some k. */
  lemma WrapResidue(v: nat, zeroPoint: Seqno, w: Seqno)
    requires Wrap(v, zeroPoint) == w
    ensures v % U32 == (w - zeroPoint) % U32
  {
  }

  /** A multiple of 2^32 plus a residue has that residue. */
  lemma MultipleResidue(m: nat, offset: nat)
    requires offset < U32
    ensures (m * U32 + offset) % U32 == offset
  {
  }

  /** Adding the zero point back to the offset of w recovers w. */
  lemma OffsetWraps(w: Seqno, zeroPoint: Seqno)
    ensures ((w - zeroPoint) % U32 + zeroPoint) % U32 == w
  {
  }

  function Unwrap(w: Seqno, zeroPoint: Seqno, checkpoint: nat): (r: nat)
    ensures Wrap(r, zeroPoint) == w
  {
    var offset := (w - zeroPoint) % U32;
    var q := checkpoint / U32;
    var base := q * U32 + offset;
    var m: nat := if base > checkpoint then
                    (if q >= 1 && checkpoint - (base - U32) <= base - checkpoint then q - 1 else q)
                  else
                    (if base + U32 - checkpoint < checkpoint - base then q + 1 else q);
    MultipleResidue(m, offset);
    OffsetWraps(w, zeroPoint);
    m * U32 + offset
  }

  /** Unwrap picks, among all absolute values with wrapped form w, one closest to the checkpoint. */
  lemma UnwrapClosest(w: Seqno, zeroPoint: Seqno, checkpoint: nat, v: nat)
    requires Wrap(v, zeroPoint) == w
    ensures Dist(Unwrap(w, zeroPoint, checkpoint), checkpoint) <= Dist(v, checkpoint)
  {
    var offset := (w - zeroPoint) % U32;
    var base := checkpoint - checkpoint % U32 + offset;
    var r := Unwrap(w, zeroPoint, checkpoint);
    var q := checkpoint / U32;
    assert base == q * U32 + offset;
    WrapResidue(v, zeroPoint, w);
    var m := v / U32 - q;
    assert v == base + m * U32;
    if m >= 1 {
      assert v >= base + U32;
    } else if m <= -1 {
      assert v <= base - U32;
    }
  }

  /** Unwrapping against the value itself as checkpoint gives the value back. */
  lemma UnwrapWrap(n: nat, zeroPoint: Seqno)
    ensures Unwrap(Wrap(n, zeroPoint), zeroPoint, n) == n
  {
    UnwrapClosest(Wrap(n, zeroPoint), zeroPoint, n, n);
  }

  /** The unwrapped value is within 2^31 of the checkpoint whenever the checkpoint is at least 2^31. */
  lemma UnwrapNearCheckpoint(w: Seqno, zeroPoint: Seqno, checkpoint: nat)
    requires checkpoint >= U32 / 2
    ensures Dist(Unwrap(w, zeroPoint, checkpoint), checkpoint) <= U32 / 2
  {
    var offset := (w - zeroPoint) % U32;
    var base := checkpoint - checkpoint % U32 + offset;
    var near: nat := if base > checkpoint + U32 / 2 then base - U32
                     else if base + U32 / 2 < checkpoint then base + U32 else base;
    assert base % U32 == offset;
    assert near % U32 == offset;
    assert Wrap(near, zeroPoint) == w;
    UnwrapClosest(w, zeroPoint, checkpoint, near);
  }
}
