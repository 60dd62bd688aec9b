/** What one undisturbed DrainBatch and one undisturbed Submit do
  * (internal/engine/ring_buffer.go): how many events are returned, and when an event gets in. */
module RingDrain {
  import opened Core
  import opened RingBuffer

  ghost function After(r: Ring, ms: seq<Move>): (r': Ring)
    requires Running(r)
    ensures Running(r')
  {
    if ms == [] then r else StepRuns(After(r, ms[..|ms| - 1]), ms[|ms| - 1])
  }

  lemma AfterOne(r: Ring, ms: seq<Move>, m: Move)
    requires Running(r)
    ensures After(r, ms + [m]) == Step(After(r, ms), m)
  {
    hide Step;
    assert (ms + [m])[..|ms|] == ms;
  }

  lemma AfterNone(r: Ring)
    requires Running(r)
    ensures After(r, []) == r
  {
  }

  /* ----- draining ----- */

  /** Claim `i` has been published. */
  predicate ReadyAt(r: Ring, i: nat)
    requires Running(r)
  {
    r.ready[Slot(i, Cap(r))] == i + 1
  }

  /** `n` is how many events can be taken, at most `max`: as many as were claimed, up to the first that
    * is not published. */
  predicate Takes(r: Ring, max: nat, n: nat)
    requires Running(r)
  {
    && n <= max && r.tail + n <= r.head
    && (forall i | r.tail <= i < r.tail + n :: ReadyAt(r, i))
    && (n == max || r.tail + n == r.head || !ReadyAt(r, r.tail + n))
  }

  /** There is such a number. */
  lemma {:induction false} SomeTaken(r: Ring, max: nat) returns (n: nat)
    requires Running(r) && r.tail <= r.head
    ensures Takes(r, max, n)
  {
    hide Slot, ReadyAt;
    if max == 0 {
      n := 0;
    } else {
      n := SomeTaken(r, max - 1);
      if n == max - 1 && r.tail + n < r.head && ReadyAt(r, r.tail + n) { n := n + 1; }
    }
  }

  /** And only one. */
  lemma OneTaken(r: Ring, max: nat, n: nat, m: nat)
    requires Running(r) && Takes(r, max, n) && Takes(r, max, m)
    ensures n == m
  {
    if n < m { TakenReady(r, max, m, n); }
    if m < n { TakenReady(r, max, n, m); }
  }

  lemma TakenReady(r: Ring, max: nat, n: nat, i: nat)
    requires Running(r) && Takes(r, max, n) && i < n
    ensures ReadyAt(r, r.tail + i)
  {
    hide ReadyAt;
  }

  /** DrainBatch: load the head, take events, stop, store the tail. */
  function Taking(max: int, n: nat): seq<Move> {
    if n == 0 then [DrainStart(max)] else Taking(max, n - 1) + [DrainCheck] + [DrainRead]
  }

  /** The buffer after `n` events were taken, in the middle of DrainBatch. */
  function Taken(r: Ring, n: nat, left: nat): Ring
    requires r.tail + n <= |r.claims|
  {
    r.(tail := r.tail + n, drained := r.drained + r.claims[r.tail..r.tail + n], consumer := Draining(r.head, left))
  }

  /** Event after event, the published claims come out in order. */
  lemma {:induction false} TakesEach(r: Ring, max: nat, n: nat)
    requires Inv(r) && Running(r) && r.consumer.Free? && r.head < TWO_64 && r.tail < r.head && 0 < max
    requires n <= max && r.tail + n <= r.head && forall i | r.tail <= i < r.tail + n :: ReadyAt(r, i)
    ensures r.tail + n <= |r.claims|
    ensures After(r, Taking(max, n)) == Taken(r, n, (if max > r.head - r.tail then r.head - r.tail else max) - n)
    decreases n
  {
    hide Slot, Inv, Step, Taken, Taking, Counters, ReadyAt;
    InvCounters(r);
    CountersSay(r);
    TakingIs(max, n);
    if n == 0 {
      AfterNone(r);
      AfterOne(r, [], DrainStart(max));
      assert [] + [DrainStart(max)] == [DrainStart(max)];
      StartStep(r, max);
    } else {
      TakesEach(r, max, n - 1);
      AfterOne(r, Taking(max, n - 1), DrainCheck);
      AfterOne(r, Taking(max, n - 1) + [DrainCheck], DrainRead);
      NextTaken(r, n - 1, (if max > r.head - r.tail then r.head - r.tail else max) - n + 1);
    }
  }

  lemma TakingIs(max: int, n: nat)
    ensures Taking(max, n) == if n == 0 then [DrainStart(max)] else Taking(max, n - 1) + [DrainCheck] + [DrainRead]
  {
  }

  lemma CountersSay(r: Ring)
    requires Counters(r)
    ensures |r.claims| == r.head && r.tail <= r.head
  {
  }

  lemma NextTaken(r: Ring, n: nat, left: nat)
    requires Inv(r) && Running(r) && r.tail + n < r.head && 0 < left && ReadyAt(r, r.tail + n)
    ensures r.tail + n + 1 <= |r.claims|
    ensures Step(Step(Taken(r, n, left), DrainCheck), DrainRead) == Taken(r, n + 1, left - 1)
  {
    hide Slot, Inv, Step, Taken;
    InvCounters(r);
    ReadyHolds(r, r.tail + n);
    TakeStep(r, n, left);
  }

  lemma StartStep(r: Ring, max: nat)
    requires Counters(r) && Running(r) && r.consumer.Free? && r.head < TWO_64 && r.tail < r.head && 0 < max
    ensures Step(r, DrainStart(max)) == Taken(r, 0, if max > r.head - r.tail then r.head - r.tail else max)
  {
    assert Minus(r.head, r.tail) == r.head - r.tail;
    assert r.claims[r.tail..r.tail] == [] && r.drained + [] == r.drained;
  }

  /** One event is found ready and read. */
  lemma TakeStep(r: Ring, n: nat, left: nat)
    requires Counters(r) && Running(r) && r.tail + n < r.head && 0 < left
    requires ReadyAt(r, r.tail + n) && r.buf[Slot(r.tail + n, Cap(r))] == Some(r.claims[r.tail + n])
    ensures Step(Step(Taken(r, n, left), DrainCheck), DrainRead) == Taken(r, n + 1, left - 1)
  {
    hide Slot;
    var i := r.tail + n;
    assert r.claims[r.tail..i + 1] == r.claims[r.tail..i] + [r.claims[i]];
    Regroup(r.drained, r.claims[r.tail..i], [r.claims[i]]);
  }

  /** Nothing more to take. */
  lemma StopStep(r: Ring, n: nat, left: nat)
    requires Counters(r) && Running(r) && r.tail + n <= r.head
    requires left == 0 || r.tail + n == r.head || !ReadyAt(r, r.tail + n)
    ensures Step(Step(Taken(r, n, left), DrainCheck), DrainStore)
         == r.(tail := r.tail + n, tailShared := r.tail + n, drained := r.drained + r.claims[r.tail..r.tail + n],
               consumer := Free)
  {
    hide Slot;
  }

  lemma InvCounters(r: Ring)
    requires Inv(r)
    ensures Counters(r)
  {
  }

  /** A slot marked ready for an undrained claim holds its event. */
  lemma ReadyHolds(r: Ring, i: nat)
    requires Inv(r) && Running(r) && r.tail <= i < r.head && ReadyAt(r, i)
    ensures i < |r.claims| && r.buf[Slot(i, Cap(r))] == Some(r.claims[i])
  {
    hide Slot;
    assert ClaimOk(r, i);
    if Unpublished(r, i) { UnpublishedNotReady(r, i); }
  }

  lemma UnpublishedNotReady(r: Ring, i: nat)
    requires Inv(r) && Running(r) && r.tail <= i < r.head && Unpublished(r, i)
    ensures !ReadyAt(r, i)
  {
    hide Slot;
    var p := r.owner[i];
    assert p < |r.threads| ==> ThreadOk(r, p);
  }

  /** DrainBatch with nothing in between returns exactly the next `n` claimed events, where `n` is at most
    * `max`, at most what is claimed, and ends at the first event that is not published yet; the tail
    * that producers see moves by as much, and nothing else changes. */
  lemma DrainsExactly(r: Ring, max: nat, n: nat)
    requires Inv(r) && Running(r) && r.consumer.Free? && r.head < TWO_64 && r.tail < r.head
    requires 0 < max && Takes(r, max, n)
    ensures r.tail + n <= |r.claims|
    ensures After(r, Taking(max, n) + [DrainCheck] + [DrainStore])
         == r.(tail := r.tail + n, tailShared := r.tail + n, drained := r.drained + r.claims[r.tail..r.tail + n])
  {
    hide Slot, Inv, Step, Taken;
    InvCounters(r);
    TakesEach(r, max, n);
    AfterOne(r, Taking(max, n), DrainCheck);
    AfterOne(r, Taking(max, n) + [DrainCheck], DrainStore);
    StopStep(r, n, (if max > r.head - r.tail then r.head - r.tail else max) - n);
  }

  /** It returns nothing, and changes nothing, when it may take none or none is claimed. */
  lemma DrainsNothing(r: Ring, max: int)
    requires Running(r) && r.consumer.Free? && (max <= 0 || r.head == r.tail)
    ensures Step(r, DrainStart(max)) == r
  {
  }

  /* ----- submitting ----- */

  /** Submit with nothing in between, while there is room: the event is claimed last, lies in its slot,
    * is marked ready, and a waiting consumer is signalled. */
  lemma SubmitsExactly(r: Ring, p: nat, ev: Transfer)
    requires Inv(r) && Running(r) && p < |r.threads| && r.threads[p].Idle? && !r.consumer.Arriving?
    requires r.head < TWO_64 && r.head - r.tailShared < Cap(r)
    ensures var ms := [Submit(p, ev), LoadHead(p), LoadTail(p), Swap(p), Put(p), Publish(p), Signal(p)];
            var s := Slot(r.head, Cap(r));
            After(r, ms) == r.(head := r.head + 1, claims := r.claims + [ev], owner := r.owner + [p],
                               buf := r.buf[s := Some(ev)], ready := r.ready[s := r.head + 1], arrive := None)
  {
    hide Slot, Inv, Step;
    InvCounters(r);
    Claims(r, p, ev);
    var r4 := r.(threads := r.threads[p := Claimed(ev, r.head)], head := r.head + 1, claims := r.claims + [ev],
                 owner := r.owner + [p]);
    var four := [Submit(p, ev), LoadHead(p), LoadTail(p), Swap(p)];
    Publishes(r4, p, ev, r.head);
    AfterOne(r, four, Put(p));
    AfterOne(r, four + [Put(p)], Publish(p));
    AfterOne(r, four + [Put(p)] + [Publish(p)], Signal(p));
    assert four + [Put(p)] + [Publish(p)] + [Signal(p)]
        == [Submit(p, ev), LoadHead(p), LoadTail(p), Swap(p), Put(p), Publish(p), Signal(p)];
    assert r4.threads[p := Idle] == r.threads;
  }

  /** Up to the claim. */
  lemma Claims(r: Ring, p: nat, ev: Transfer)
    requires Counters(r) && Running(r) && p < |r.threads| && r.threads[p].Idle?
    requires r.head < TWO_64 && r.head - r.tailShared < Cap(r)
    ensures After(r, [Submit(p, ev), LoadHead(p), LoadTail(p), Swap(p)])
         == r.(threads := r.threads[p := Claimed(ev, r.head)], head := r.head + 1, claims := r.claims + [ev],
               owner := r.owner + [p])
  {
    hide Slot, Step;
    Loads(r, p, ev);
    var r2 := r.(threads := r.threads[p := Loaded(ev, r.head)]);
    var r3 := r.(threads := r.threads[p := Passed(ev, r.head, r.tailShared)]);
    Passes(r, p, ev);
    AfterOne(r, [Submit(p, ev), LoadHead(p)], LoadTail(p));
    AfterOne(r, [Submit(p, ev), LoadHead(p)] + [LoadTail(p)], Swap(p));
    assert [Submit(p, ev), LoadHead(p)] + [LoadTail(p)] + [Swap(p)]
        == [Submit(p, ev), LoadHead(p), LoadTail(p), Swap(p)];
  }

  lemma Loads(r: Ring, p: nat, ev: Transfer)
    requires Running(r) && p < |r.threads| && r.threads[p].Idle?
    ensures After(r, [Submit(p, ev), LoadHead(p)]) == r.(threads := r.threads[p := Loaded(ev, r.head)])
  {
    hide Slot, Minus;
    AfterNone(r);
    AfterOne(r, [], Submit(p, ev));
    AfterOne(r, [Submit(p, ev)], LoadHead(p));
    assert [] + [Submit(p, ev)] == [Submit(p, ev)] && [Submit(p, ev)] + [LoadHead(p)] == [Submit(p, ev), LoadHead(p)];
    var r1 := r.(threads := r.threads[p := Started(ev)]);
    assert Step(r, Submit(p, ev)) == r1;
  }

  lemma Passes(r: Ring, p: nat, ev: Transfer)
    requires Counters(r) && Running(r) && p < |r.threads| && r.head < TWO_64 && r.head - r.tailShared < Cap(r)
    ensures var r2, r3 := r.(threads := r.threads[p := Loaded(ev, r.head)]),
                          r.(threads := r.threads[p := Passed(ev, r.head, r.tailShared)]);
            && Step(r2, LoadTail(p)) == r3
            && Step(r3, Swap(p)) == r.(threads := r.threads[p := Claimed(ev, r.head)], head := r.head + 1,
                                       claims := r.claims + [ev], owner := r.owner + [p])
  {
    hide Slot;
    assert Minus(r.head, r.tailShared) == r.head - r.tailShared;
  }

  /** From the claim on. */
  lemma Publishes(r: Ring, p: nat, ev: Transfer, h: nat)
    requires Running(r) && p < |r.threads| && r.threads[p] == Claimed(ev, h) && !r.consumer.Arriving?
    ensures var s := Slot(h, Cap(r));
            Step(Step(Step(r, Put(p)), Publish(p)), Signal(p))
            == r.(threads := r.threads[p := Idle], buf := r.buf[s := Some(ev)], ready := r.ready[s := h + 1],
                  arrive := None)
  {
    hide Slot, Minus;
  }

  /** While the buffer is full it is refused. */
  lemma FullRefuses(r: Ring, p: nat, ev: Transfer)
    requires Inv(r) && Running(r) && p < |r.threads| && r.threads[p].Idle?
    requires r.head < TWO_64 && r.head - r.tailShared == Cap(r)
    ensures After(r, [Submit(p, ev), LoadHead(p), LoadTail(p)]) == r.(refused := r.refused + 1)
  {
    hide Slot, Inv;
    InvCounters(r);
    Loads(r, p, ev);
    AfterOne(r, [Submit(p, ev), LoadHead(p)], LoadTail(p));
    assert [Submit(p, ev), LoadHead(p)] + [LoadTail(p)] == [Submit(p, ev), LoadHead(p), LoadTail(p)];
    assert Minus(r.head, r.tailShared) == r.head - r.tailShared;
    assert r.threads[p := Idle] == r.threads;
  }

  /* ----- arriveChan ----- */

  /** The channel is still open. */
  predicate Blocks(r: Ring) {
    r.consumer.Waiting? && r.arrive == Some(r.consumer.channel)
  }

  /** A consumer that asks for the arrival channel, with nothing in between, is made to wait exactly when
    * nothing claimed is left to drain; it then waits on the channel of those that waited before, if
    * that is still open, and on a new one otherwise. */
  lemma ArrivesExactly(r: Ring)
    requires Inv(r) && Running(r) && r.consumer.Free?
    ensures var r' := Step(Step(r, ArriveLock), ArriveDecide);
            && r' == r.(consumer := r'.consumer, arrive := r'.arrive, channels := r'.channels)
            && r'.consumer.Waiting? && (Blocks(r') <==> r.head == r.tailShared)
            && (Blocks(r') ==> if r.arrive.Some? then r'.arrive == r.arrive else r'.arrive == Some(r.channels))
  {
    hide Inv;
    InvCounters(r);
  }

  /** An undisturbed Submit wakes it. */
  lemma SubmitWakes(r: Ring, p: nat, ev: Transfer)
    requires Inv(r) && Running(r) && p < |r.threads| && r.threads[p].Idle? && Blocks(r)
    requires r.head < TWO_64 && r.head - r.tailShared < Cap(r)
    ensures !Blocks(After(r, [Submit(p, ev), LoadHead(p), LoadTail(p), Swap(p), Put(p), Publish(p), Signal(p)]))
  {
    hide Slot, Inv, After;
    SubmitsExactly(r, p, ev);
  }
}
