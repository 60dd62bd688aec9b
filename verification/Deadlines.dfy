/** When a hold is open (internal/engine/accounts.go, CloseExpired and the deadlines it compares), in
  * the numbers of its timestamp, its timeout and the clock. */
module Deadlines {
  import opened Core
  import opened Engine
  import opened Expiry

  /** The moment a hold with a timeout ends: the sum of timestamp and timeout, less 2^64 when it does
    * not fit into 64 bits. */
  function EndOf(t: Transfer): int {
    var sum := t.timestamp + t.timeout;
    if sum <= I64_MAX then sum else sum - TWO_64
  }

  /** The hold has no timeout, or the clock has not reached its end. */
  predicate Running(t: Transfer, clock: int) {
    t.timeout == 0 || clock < EndOf(t)
  }

  lemma RunningIs(t: Transfer, clock: int)
    ensures Running(t, clock) <==> !Expired(t, clock)
  {
  }

  lemma RunningOnes(holds: map<Id, Transfer>, clock: int)
    ensures forall k <- holds :: k in holds - ExpiredIds(holds, clock) <==> Running(holds[k], clock)
  {
    hide Expired, Running;
    forall k | k in holds
      ensures k in holds - ExpiredIds(holds, clock) <==> Running(holds[k], clock)
    {
      RunningIs(holds[k], clock);
    }
  }

  /** Closing at a clock leaves exactly the holds that are still running, as they were. */
  lemma OpenExactly(b: Books, clock: int, k: Id)
    ensures k in CloseAt(b, clock).holds <==> k in b.holds && Running(b.holds[k], clock)
    ensures k in CloseAt(b, clock).holds ==> CloseAt(b, clock).holds[k] == b.holds[k]
  {
    hide Expired, Running;
    DropShape(b, ExpiredIds(b.holds, clock));
    if k in b.holds { RunningIs(b.holds[k], clock); }
  }

  /** Without wrap-around: a hold is open until its timeout has passed, and then it is not. */
  lemma OpenUntilTimeout(b: Books, clock: int, k: Id)
    requires k in b.holds && b.holds[k].timestamp + b.holds[k].timeout <= I64_MAX
    ensures k in CloseAt(b, clock).holds <==>
              b.holds[k].timeout == 0 || clock < b.holds[k].timestamp + b.holds[k].timeout
  {
    OpenExactly(b, clock, k);
  }
}
