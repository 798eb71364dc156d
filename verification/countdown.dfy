/**
 * The one-second countdown used by two pages: the HR recording timer of the
 * contest (120 seconds) and the resume-interview timer (1800 seconds).  Each
 * tick of the interval evaluates `prev > 0 ? prev - 1 : 0`.  The interval
 * scheduling itself is not part of this model; a tick is a function call.
 */
module Countdown {

  /** One tick: a second less, clamped at zero. */
  function Tick(prev: int): (next: int)
    ensures next >= 0
    ensures prev > 0 ==> next == prev - 1
    ensures prev <= 0 ==> next == 0
  {
    if prev > 0 then prev - 1 else 0
  }

  /** The value shown after `k` ticks starting from `start`. */
  function After(start: int, k: nat): int
    decreases k
  {
    if k == 0 then start else After(Tick(start), k - 1)
  }

  /** After `k` ticks a non-negative countdown reads `max(start - k, 0)`. */
  lemma {:induction false} AfterTicks(start: nat, k: nat)
    ensures After(start, k) == if k <= start then start - k else 0
  {
    if k > 0 {
      AfterTicks(Tick(start), k - 1);
    }
  }

  /** Once the countdown reads zero, further ticks leave it at zero. */
  lemma {:induction false} StaysAtZero(start: nat, k: nat, extra: nat)
    requires After(start, k) == 0
    ensures After(start, k + extra) == 0
  {
    AfterTicks(start, k);
    AfterTicks(start, k + extra);
  }

  /** The two-minute recording timer: 75 seconds left after 45 ticks, 0 after 121. */
  lemma RecordingTimerExample()
    ensures After(120, 45) == 75
    ensures After(120, 121) == 0
  {
    AfterTicks(120, 45);
    AfterTicks(120, 121);
  }
}
