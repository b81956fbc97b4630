// The retransmission timer behind the sender's timer_ member (section 5 of RFC 6298). Its class is
// not part of this model's sources: this is an assumed, minimal state with exactly the operations
// the sender calls (active, tick, is_expired, reset, timeout, restart, reset_retransmit,
// add_retransmit, cnt_retransmit). Assumptions: tick only advances a running timer; active starts
// an idle timer from zero elapsed time; restart stops the timer and returns the RTO to its initial
// value; reset clears the elapsed time only; timeout doubles the RTO.
module Retransmission {

  datatype Timer = Timer(initialRto: nat, rto: nat, elapsed: nat, running: bool, retransmits: nat)
  {
    /** An idle timer holds the initial RTO and no elapsed time. */
    predicate Valid()
    {
      !running ==> rto == initialRto && elapsed == 0
    }

    function Active(): Timer
    {
      if running then this else this.(running := true, elapsed := 0)
    }

    function Tick(ms: nat): Timer
    {
      if running then this.(elapsed := elapsed + ms) else this
    }

    predicate IsExpired()
    {
      running && elapsed >= rto
    }

    function Reset(): Timer
    {
      this.(elapsed := 0)
    }

    function Timeout(): Timer
    {
      this.(rto := 2 * rto)
    }

    function Restart(): Timer
    {
      this.(rto := initialRto, elapsed := 0, running := false)
    }

    function ResetRetransmit(): Timer
    {
      this.(retransmits := 0)
    }

    function AddRetransmit(): Timer
    {
      this.(retransmits := retransmits + 1)
    }

    /** What the sender's tick does to the timer once it has expired. */
    function Fire(windowOpen: bool): Timer
    {
      var t := Reset();
      (if windowOpen then t.Timeout() else t).AddRetransmit()
    }
  }

  function NewTimer(initialRto: nat): (t: Timer)
    ensures t.Valid() && !t.running && t.rto == initialRto && t.retransmits == 0
  {
    Timer(initialRto, initialRto, 0, false, 0)
  }

  function Pow2(k: nat): (r: nat)
    ensures r >= 1
  {
    if k == 0 then 1 else 2 * Pow2(k - 1)
  }

  /** The timer after k expiries in a row with no acknowledgment in between: each expiry needs
      the full current RTO to elapse, then fires. */
  function Expiries(t: Timer, k: nat, windowOpen: bool): Timer
    decreases k
  {
    if k == 0 then t else Expiries(t.Tick(t.rto).Fire(windowOpen), k - 1, windowOpen)
  }

  /** Exponential backoff: with an open window, k unacknowledged expiries of a running timer
      multiply the RTO by 2^k and count k retransmissions; with a zero window the RTO stays. */
  lemma {:induction false} Backoff(t: Timer, k: nat, windowOpen: bool)
    requires t.running && t.elapsed == 0
    ensures var u := Expiries(t, k, windowOpen);
      && u.running && u.elapsed == 0
      && u.rto == (if windowOpen then t.rto * Pow2(k) else t.rto)
      && u.retransmits == t.retransmits + k
    decreases k
  {
    if k > 0 {
      var t' := t.Tick(t.rto).Fire(windowOpen);
      assert t.Tick(t.rto).IsExpired();
      Backoff(t', k - 1, windowOpen);
      if windowOpen {
        assert t.rto * 2 * Pow2(k - 1) == t.rto * Pow2(k);
      }
    }
  }

  /** A running timer that was just reset expires exactly when a full RTO has elapsed. */
  lemma ExpiresAfterRto(t: Timer, ms: nat)
    requires t.running && t.elapsed == 0
    ensures t.Tick(ms).IsExpired() <==> ms >= t.rto
  {
  }

  /** Acknowledged progress (restart, then reset_retransmit) returns the RTO to its initial value
      and zeroes the retransmission count, whatever the history. */
  lemma ProgressResets(t: Timer)
    ensures t.Restart().ResetRetransmit().rto == t.initialRto
    ensures t.Restart().ResetRetransmit().retransmits == 0
    ensures t.Restart().ResetRetransmit().Valid()
  {
  }

  /** Every operation the sender uses keeps an idle timer at its initial RTO. */
  lemma OperationsKeepValid(t: Timer, ms: nat, windowOpen: bool)
    requires t.Valid()
    ensures t.Active().Valid() && t.Tick(ms).Valid() && t.Restart().Valid()
    ensures t.ResetRetransmit().Valid() && t.AddRetransmit().Valid()
    ensures t.IsExpired() ==> t.Fire(windowOpen).Valid()
  {
  }
}
