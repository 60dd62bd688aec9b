/** The multi-producer ring buffer (internal/engine/ring_buffer.go) as a machine whose moves are the
  * atomic operations of Submit, DrainBatch, arriveChan and signalArrived, interleaved in any order. */
module RingBuffer {
  import opened Core

  /** Where a producer is inside Submit.  From `Claimed` on it owns sequence number `h`. */
  datatype Phase =
    | Idle
    | Started(ev: Transfer)
    | Loaded(ev: Transfer, h: nat)
    | Passed(ev: Transfer, h: nat, t: nat)
    | Claimed(ev: Transfer, h: nat)
    | Wrote(ev: Transfer, h: nat)
    | Published(ev: Transfer, h: nat)

  /** Where the consumer is: in DrainBatch (`head` as loaded, `left` events still allowed), about to
    * read a slot it found ready, inside arriveChan with the lock held, or waiting on a channel. */
  datatype Consumer =
    | Free
    | Draining(head: nat, left: nat)
    | Reading(head: nat, left: nat)
    | Storing
    | Arriving(h: nat)
    | Waiting(channel: nat)

  /** The buffer, its producers and its consumer.  `claims`, `owner` and `drained` record the
    * claimed events in claim order, who claimed them, and what DrainBatch has returned. */
  datatype Ring = Ring(
    buf: seq<Option<Transfer>>, ready: seq<nat>, head: nat, tail: nat, tailShared: nat,
    arrive: Option<nat>, channels: nat, threads: seq<Phase>, consumer: Consumer,
    claims: seq<Transfer>, owner: seq<nat>, drained: seq<Transfer>, refused: nat)

  function Cap(r: Ring): nat { |r.buf| }

  /** `h & mask`: the remainder of `h` by the capacity, which is a power of two. */
  function Slot(h: nat, cap: nat): (s: nat)
    requires cap > 0
    ensures s < cap
  {
    if h < cap then h else Slot(h - cap, cap)
  }

  function New(cap: nat, producers: nat): Ring {
    Ring(seq(cap, i => None), seq(cap, i => 0), 0, 0, 0, None, 0, seq(producers, i => Idle), Free, [], [], [], 0)
  }

  /** Unsigned 64-bit difference. */
  function Minus(h: nat, t: nat): nat { (h - t) % TWO_64 }

  datatype Move =
    | Submit(p: nat, ev: Transfer)
    | LoadHead(p: nat)
    | LoadTail(p: nat)
    | Swap(p: nat)
    | Put(p: nat)
    | Publish(p: nat)
    | Signal(p: nat)
    | DrainStart(max: int)
    | DrainCheck
    | DrainRead
    | DrainStore
    | ArriveLock
    | ArriveDecide
    | Leave

  function Thread(r: Ring, p: nat): Phase {
    if p < |r.threads| then r.threads[p] else Idle
  }

  function SetThread(r: Ring, p: nat, phase: Phase): Ring {
    if p < |r.threads| then r.(threads := r.threads[p := phase]) else r
  }

  /** Submit, one atomic operation at a time. */
  function Produce(r: Ring, m: Move): Ring
    requires Cap(r) > 0 && |r.ready| == Cap(r)
  {
    match m
    case Submit(p, ev) =>
      if Thread(r, p).Idle? then SetThread(r, p, Started(ev)) else r
    case LoadHead(p) =>
      if Thread(r, p).Started? then SetThread(r, p, Loaded(r.threads[p].ev, r.head)) else r
    case LoadTail(p) =>
      if Thread(r, p).Loaded? then
        var x := r.threads[p];
        if Minus(x.h, r.tailShared) >= Cap(r) then SetThread(r, p, Idle).(refused := r.refused + 1)
        else SetThread(r, p, Passed(x.ev, x.h, r.tailShared))
      else r
    case Swap(p) =>
      if Thread(r, p).Passed? then
        var x := r.threads[p];
        if x.h == r.head then
          SetThread(r, p, Claimed(x.ev, x.h)).(head := r.head + 1, claims := r.claims + [x.ev], owner := r.owner + [p])
        else SetThread(r, p, Started(x.ev))
      else r
    case Put(p) =>
      if Thread(r, p).Claimed? then
        var x := r.threads[p];
        SetThread(r, p, Wrote(x.ev, x.h)).(buf := r.buf[Slot(x.h, Cap(r)) := Some(x.ev)])
      else r
    case Publish(p) =>
      if Thread(r, p).Wrote? then
        var x := r.threads[p];
        SetThread(r, p, Published(x.ev, x.h)).(ready := r.ready[Slot(x.h, Cap(r)) := x.h + 1])
      else r
    case Signal(p) =>
      if Thread(r, p).Published? && !r.consumer.Arriving? then SetThread(r, p, Idle).(arrive := None) else r
    case _ => r
  }

  /** DrainBatch and arriveChan. */
  function Consume(r: Ring, m: Move): Ring
    requires Cap(r) > 0 && |r.ready| == Cap(r)
  {
    match (m, r.consumer)
    case (DrainStart(max), Free) =>
      if max <= 0 || r.head == r.tail then r
      else
        var pending := Minus(r.head, r.tail);
        r.(consumer := Draining(r.head, if max > pending then pending else max))
    case (DrainCheck, Draining(head, left)) =>
      if left > 0 && r.tail < head && r.ready[Slot(r.tail, Cap(r))] == r.tail + 1
      then r.(consumer := Reading(head, left))
      else r.(consumer := Storing)
    case (DrainRead, Reading(head, left)) =>
      match r.buf[Slot(r.tail, Cap(r))] {
        case Some(ev) =>
          r.(consumer := Draining(head, if left > 0 then left - 1 else 0), tail := r.tail + 1,
             drained := r.drained + [ev])
        case None => r
      }
    case (DrainStore, Storing) => r.(consumer := Free, tailShared := r.tail)
    case (ArriveLock, Free) => r.(consumer := Arriving(r.head))
    case (ArriveDecide, Arriving(h)) =>
      if h > r.tailShared then r.(arrive := None, channels := r.channels + 1, consumer := Waiting(r.channels))
      else if r.arrive.Some? then r.(consumer := Waiting(r.arrive.value))
      else r.(arrive := Some(r.channels), channels := r.channels + 1, consumer := Waiting(r.channels))
    case (Leave, Waiting(_)) => r.(consumer := Free)
    case _ => r
  }

  function Step(r: Ring, m: Move): Ring
    requires Cap(r) > 0 && |r.ready| == Cap(r)
  {
    if m.Submit? || m.LoadHead? || m.LoadTail? || m.Swap? || m.Put? || m.Publish? || m.Signal? then Produce(r, m)
    else Consume(r, m)
  }

  /* ----- what every move keeps ----- */

  /** The claim `i` is held by a producer that has not signalled yet. */
  predicate Unsignalled(r: Ring, i: nat)
    requires i < |r.owner|
  {
    var x := Thread(r, r.owner[i]);
    (x.Claimed? || x.Wrote? || x.Published?) && x.h == i
  }

  /** The claim `i` is held by a producer that has not published yet. */
  predicate Unpublished(r: Ring, i: nat)
    requires i < |r.owner|
  {
    var x := Thread(r, r.owner[i]);
    (x.Claimed? || x.Wrote?) && x.h == i
  }

  predicate Counters(r: Ring) {
    && Cap(r) > 0 && |r.ready| == Cap(r) && |r.claims| == |r.owner| == r.head
    && r.tailShared <= r.tail <= r.head <= r.tailShared + Cap(r)
    && r.drained == r.claims[..r.tail]
    && (forall s | 0 <= s < Cap(r) :: r.ready[s] <= r.head)
  }

  predicate ThreadOk(r: Ring, p: nat)
    requires Counters(r) && p < |r.threads|
  {
    var cap := Cap(r);
    match r.threads[p]
    case Idle => true
    case Started(ev) => true
    case Loaded(ev, h) => h <= r.head
    case Passed(ev, h, t) => t <= r.tailShared && h <= r.head && Minus(h, t) < cap
    case Claimed(ev, h) =>
      r.tail <= h < r.head && r.claims[h] == ev && r.owner[h] == p && r.ready[Slot(h, cap)] != h + 1
    case Wrote(ev, h) =>
      && r.tail <= h < r.head && r.claims[h] == ev && r.owner[h] == p
      && r.ready[Slot(h, cap)] != h + 1 && r.buf[Slot(h, cap)] == Some(ev)
    case Published(ev, h) => h < r.head && r.owner[h] == p
  }

  /** An undrained claim is in its slot, ready, unless its producer has not published it. */
  predicate ClaimOk(r: Ring, i: nat)
    requires Counters(r) && i < r.head
  {
    var s := Slot(i, Cap(r));
    Unpublished(r, i) || (r.ready[s] == i + 1 && r.buf[s] == Some(r.claims[i]))
  }

  predicate ConsumerOk(r: Ring)
    requires Counters(r)
  {
    match r.consumer
    case Free => true
    case Draining(head, _) => r.tail <= head <= r.head
    case Reading(head, _) => r.tail < head <= r.head && r.ready[Slot(r.tail, Cap(r))] == r.tail + 1
    case Storing => true
    case Arriving(h) => h <= r.head && forall i | h <= i < r.head :: Unsignalled(r, i)
    case Waiting(c) =>
      && c < r.channels
      && (r.arrive == Some(c) ==> forall i | r.tailShared <= i < r.head :: Unsignalled(r, i))
  }

  predicate Inv(r: Ring) {
    && Counters(r)
    && (forall p | 0 <= p < |r.threads| :: ThreadOk(r, p))
    && (forall i | r.tail <= i < r.head :: ClaimOk(r, i))
    && ConsumerOk(r)
    && (r.arrive.Some? ==> r.arrive.value < r.channels)
  }

  /** Two undrained claims never share a slot. */
  lemma {:induction false} SlotsDiffer(i: nat, j: nat, cap: nat)
    requires cap > 0 && i < j < i + cap
    ensures Slot(i, cap) != Slot(j, cap)
    decreases i
  {
    if i >= cap { SlotsDiffer(i - cap, j - cap, cap); }
  }

  lemma NewInv(cap: nat, producers: nat)
    requires cap > 0
    ensures Inv(New(cap, producers))
  {
  }

  predicate Owning(x: Phase) { x.Claimed? || x.Wrote? || x.Published? }

  /** Only the thread `p` changed, and it owns no number before or after. */
  lemma ThreadChanged(r: Ring, p: nat, phase: Phase, refused: nat)
    requires Inv(r) && p < |r.threads| && !Owning(r.threads[p]) && !Owning(phase)
    requires var r' := r.(threads := r.threads[p := phase], refused := refused); ThreadOk(r', p)
    ensures Inv(r.(threads := r.threads[p := phase], refused := refused))
  {
    hide Slot, Minus;
    var r' := r.(threads := r.threads[p := phase], refused := refused);
    forall q | 0 <= q < |r.threads|
      ensures ThreadOk(r', q)
    {
      assert ThreadOk(r, q);
    }
    forall i | 0 <= i < r.head
      ensures Unpublished(r', i) == Unpublished(r, i) && Unsignalled(r', i) == Unsignalled(r, i)
    {
    }
    forall i | r.tail <= i < r.head
      ensures ClaimOk(r', i)
    {
      assert ClaimOk(r, i);
    }
  }

  /** Moves of a producer before it owns a number. */
  lemma EarlyMove(r: Ring, m: Move)
    requires Inv(r) && (m.Submit? || m.LoadHead? || m.LoadTail?)
    ensures Inv(Produce(r, m))
  {
    hide Slot, Minus, ClaimOk, ConsumerOk;
    var p := m.p;
    if p < |r.threads| && Produce(r, m) != r {
      assert ThreadOk(r, p);
      ThreadChanged(r, p, Produce(r, m).threads[p], Produce(r, m).refused);
    }
  }

  /** A successful compare-and-swap claims the next number; there is room for it. */
  lemma SwapMove(r: Ring, m: Move)
    requires Inv(r) && m.Swap? && r.head < TWO_64
    ensures Inv(Produce(r, m))
  {
    hide Slot;
    var p, r' := m.p, Produce(r, m);
    if Thread(r, p).Passed? {
      var x := r.threads[p];
      assert ThreadOk(r, p);
      if x.h == r.head {
        assert Minus(x.h, x.t) == x.h - x.t;
        assert Counters(r');
        Claiming(r, p, x.ev);
      } else {
        ThreadChanged(r, p, Started(x.ev), r.refused);
      }
    }
  }

  lemma Claiming(r: Ring, p: nat, ev: Transfer)
    requires Inv(r) && p < |r.threads| && !Owning(r.threads[p])
    requires r.head < r.tailShared + Cap(r)
    ensures var h := r.head;
            Inv(r.(threads := r.threads[p := Claimed(ev, h)], head := h + 1,
                   claims := r.claims + [ev], owner := r.owner + [p]))
  {
    hide Slot, Minus;
    var h := r.head;
    var r' := r.(threads := r.threads[p := Claimed(ev, h)], head := h + 1,
                 claims := r.claims + [ev], owner := r.owner + [p]);
    assert r'.claims[..r.tail] == r.claims[..r.tail];
    forall q | 0 <= q < |r.threads|
      ensures ThreadOk(r', q)
    {
      assert ThreadOk(r, q);
    }
    forall i | 0 <= i < h
      ensures Unpublished(r', i) == Unpublished(r, i) && Unsignalled(r', i) == Unsignalled(r, i)
    {
    }
    forall i | r.tail <= i < r'.head
      ensures ClaimOk(r', i)
    {
      if i < h { assert ClaimOk(r, i); }
    }
    assert Unsignalled(r', h);
  }

  /** The claim owns its slot: no other undrained claim lies there. */
  lemma PutMove(r: Ring, m: Move)
    requires Inv(r) && m.Put?
    ensures Inv(Produce(r, m))
  {
    hide Slot, Minus;
    var p := m.p;
    if Thread(r, p).Claimed? {
      var x := r.threads[p];
      assert ThreadOk(r, p);
      Advance(r, p, Wrote(x.ev, x.h));
    }
  }

  lemma PublishMove(r: Ring, m: Move)
    requires Inv(r) && m.Publish?
    ensures Inv(Produce(r, m))
  {
    hide Slot, Minus;
    var p := m.p;
    if Thread(r, p).Wrote? {
      var x := r.threads[p];
      assert ThreadOk(r, p);
      Advance(r, p, Published(x.ev, x.h));
    }
  }

  /** The ring after the owner of `phase.h` stored into its slot. */
  function Stored(r: Ring, p: nat, phase: Phase): Ring
    requires Counters(r) && p < |r.threads| && (phase.Wrote? || phase.Published?)
  {
    var s, r' := Slot(phase.h, Cap(r)), r.(threads := r.threads[p := phase]);
    if phase.Wrote? then r'.(buf := r.buf[s := Some(phase.ev)]) else r'.(ready := r.ready[s := phase.h + 1])
  }

  lemma Advance(r: Ring, p: nat, phase: Phase)
    requires Inv(r) && p < |r.threads|
    requires (phase.Wrote? && r.threads[p] == Claimed(phase.ev, phase.h))
          || (phase.Published? && r.threads[p] == Wrote(phase.ev, phase.h))
    ensures Inv(Stored(r, p, phase))
  {
    hide Slot, Minus;
    var h, cap, r' := phase.h, Cap(r), Stored(r, p, phase);
    assert ThreadOk(r, p);
    forall i | r.tail <= i < r.head && i != h
      ensures Slot(i, cap) != Slot(h, cap)
    {
      if i < h { SlotsDiffer(i, h, cap); } else { SlotsDiffer(h, i, cap); }
    }
    forall q | 0 <= q < |r.threads|
      ensures ThreadOk(r', q)
    {
      assert ThreadOk(r, q);
    }
    forall i | 0 <= i < r.head
      ensures Unsignalled(r', i) == Unsignalled(r, i) && (i != h ==> Unpublished(r', i) == Unpublished(r, i))
    {
    }
    forall i | r.tail <= i < r.head
      ensures ClaimOk(r', i)
    {
      assert ClaimOk(r, i);
    }
  }

  lemma SignalMove(r: Ring, m: Move)
    requires Inv(r) && m.Signal?
    ensures Inv(Produce(r, m))
  {
    hide Slot, Minus;
    var p, r' := m.p, Produce(r, m);
    if Thread(r, p).Published? && !r.consumer.Arriving? {
      forall q | 0 <= q < |r.threads|
        ensures ThreadOk(r', q)
      {
        assert ThreadOk(r, q);
      }
      forall i | r.tail <= i < r.head
        ensures ClaimOk(r', i)
      {
        assert ClaimOk(r, i);
      }
    }
  }

  lemma ReadyIsPublished(r: Ring, i: nat)
    requires Inv(r) && i < r.head && r.ready[Slot(i, Cap(r))] == i + 1
    ensures !Unpublished(r, i)
  {
    var p := r.owner[i];
    if p < |r.threads| { assert ThreadOk(r, p); }
  }

  /** A slot found ready holds the next claim. */
  lemma ReadMove(r: Ring)
    requires Inv(r) && r.consumer.Reading?
    ensures r.buf[Slot(r.tail, Cap(r))] == Some(r.claims[r.tail]) && Inv(Consume(r, DrainRead))
  {
    hide Slot, Minus;
    var t, r' := r.tail, Consume(r, DrainRead);
    assert ClaimOk(r, t);
    ReadyIsPublished(r, t);
    assert r.claims[..t + 1] == r.claims[..t] + [r.claims[t]];
    forall q | 0 <= q < |r.threads|
      ensures ThreadOk(r', q)
    {
      assert ThreadOk(r, q);
    }
    forall i | t < i < r.head
      ensures ClaimOk(r', i)
    {
      assert ClaimOk(r, i);
    }
  }

  /** The other moves of the consumer change no claim and no slot. */
  lemma ConsumerMove(r: Ring, m: Move)
    requires Inv(r) && !m.DrainRead?
    ensures Inv(Consume(r, m))
  {
    hide Slot, Minus, ThreadOk, ClaimOk;
    var r' := Consume(r, m);
    SameThreads(r, r');
    ConsumerChanged(r, r');
  }

  lemma SameThreads(r: Ring, r': Ring)
    requires r'.threads == r.threads && r'.owner == r.owner
    ensures forall i | 0 <= i < |r.owner| ::
              Unpublished(r', i) == Unpublished(r, i) && Unsignalled(r', i) == Unsignalled(r, i)
  {
  }

  lemma ConsumerChanged(r: Ring, r': Ring)
    requires Inv(r) && Counters(r') && ConsumerOk(r') && (r'.arrive.Some? ==> r'.arrive.value < r'.channels)
    requires r.tailShared <= r'.tailShared
    requires r' == r.(consumer := r'.consumer, tailShared := r'.tailShared, arrive := r'.arrive,
             channels := r'.channels)
    ensures Inv(r')
  {
    hide Slot, Minus, ConsumerOk;
    SameThreads(r, r');
    forall q | 0 <= q < |r.threads|
      ensures ThreadOk(r', q)
    {
      assert ThreadOk(r, q);
    }
    forall i | r.tail <= i < r.head
      ensures ClaimOk(r', i)
    {
      assert ClaimOk(r, i);
    }
  }

  lemma StepKeepsInv(r: Ring, m: Move)
    requires Inv(r) && r.head < TWO_64
    ensures Inv(Step(r, m))
  {
    hide Inv, Produce, Consume;
    match m
    case Submit(_, _) => EarlyMove(r, m);
    case LoadHead(_) => EarlyMove(r, m);
    case LoadTail(_) => EarlyMove(r, m);
    case Swap(_) => SwapMove(r, m);
    case Put(_) => PutMove(r, m);
    case Publish(_) => PublishMove(r, m);
    case Signal(_) => SignalMove(r, m);
    case DrainRead =>
      if r.consumer.Reading? { ReadMove(r); } else { NoRead(r); }
    case _ => ConsumerMove(r, m);
  }

  lemma NoRead(r: Ring)
    requires Inv(r) && !r.consumer.Reading?
    ensures Consume(r, DrainRead) == r
  {
  }

  /* ----- runs ----- */

  ghost predicate Running(r: Ring) { Cap(r) > 0 && |r.ready| == Cap(r) }

  /** Any interleaving, from a new buffer; moves that are not enabled change nothing. */
  ghost function Runs(cap: nat, producers: nat, ms: seq<Move>): (r: Ring)
    requires cap > 0
    ensures Running(r)
  {
    if ms == [] then New(cap, producers)
    else StepRuns(Runs(cap, producers, ms[..|ms| - 1]), ms[|ms| - 1])
  }

  ghost function StepRuns(r: Ring, m: Move): (r': Ring)
    requires Running(r)
    ensures Running(r') && r'.head >= r.head && |r'.buf| == |r.buf|
  {
    Step(r, m)
  }

  lemma {:induction false} RunsInv(cap: nat, producers: nat, ms: seq<Move>)
    requires cap > 0 && Runs(cap, producers, ms).head < TWO_64
    ensures Inv(Runs(cap, producers, ms)) && Cap(Runs(cap, producers, ms)) == cap
  {
    hide Inv, Step, New;
    if ms == [] {
      NewInv(cap, producers);
      NewCap(cap, producers);
    } else {
      var n := |ms| - 1;
      RunsInv(cap, producers, ms[..n]);
      StepKeepsInv(Runs(cap, producers, ms[..n]), ms[n]);
    }
  }

  lemma NewCap(cap: nat, producers: nat)
    ensures Cap(New(cap, producers)) == cap
  {
  }

  /** For every interleaving: what was drained is a prefix of what was claimed, in order, nothing
    * lost or repeated; never more than the capacity lies between; and a consumer waiting on an
    * open channel although something was claimed is owed a signal by a producer. */
  lemma NothingLostNothingMissed(cap: nat, producers: nat, ms: seq<Move>)
    requires cap > 0 && Runs(cap, producers, ms).head < TWO_64
    ensures var r := Runs(cap, producers, ms);
            && r.tailShared <= r.tail <= |r.claims| == r.head <= r.tailShared + cap
            && r.drained == r.claims[..r.tail]
            && (r.consumer.Waiting? && r.arrive == Some(r.consumer.channel) && r.head > r.tailShared ==>
                  exists p | 0 <= p < |r.threads| :: Owning(r.threads[p]) && r.tailShared <= r.threads[p].h < r.head)
  {
    var r := Runs(cap, producers, ms);
    RunsInv(cap, producers, ms);
    if r.consumer.Waiting? && r.arrive == Some(r.consumer.channel) && r.head > r.tailShared {
      assert Unsignalled(r, r.tailShared);
      assert Owning(r.threads[r.owner[r.tailShared]]);
    }
  }

  /** With every producer done, everything claimed lies ready in its slot. */
  lemma AllReadyWhenIdle(r: Ring)
    requires Inv(r) && forall p | 0 <= p < |r.threads| :: !r.threads[p].Claimed? && !r.threads[p].Wrote?
    ensures forall i | r.tail <= i < r.head ::
              r.ready[Slot(i, Cap(r))] == i + 1 && r.buf[Slot(i, Cap(r))] == Some(r.claims[i])
  {
    hide Slot;
    forall i | r.tail <= i < r.head
      ensures r.ready[Slot(i, Cap(r))] == i + 1 && r.buf[Slot(i, Cap(r))] == Some(r.claims[i])
    {
      assert ClaimOk(r, i);
    }
  }

  /* ----- refusals ----- */

  /** Submit refuses when the buffer is full, or when the consumer has drained past the head the
    * producer had loaded before; only in the first case is there no room. */
  lemma RefusedExactly(r: Ring, p: nat)
    requires Inv(r) && r.head + Cap(r) < TWO_64 && Thread(r, p).Loaded?
    ensures var h := r.threads[p].h;
            var refused := Step(r, LoadTail(p)).refused > r.refused;
            && (refused <==> h < r.tailShared || h - r.tailShared >= Cap(r))
            && (h - r.tailShared >= Cap(r) ==> r.head - r.tailShared == Cap(r))
  {
    hide Slot, ClaimOk, ConsumerOk;
    assert ThreadOk(r, p);
    var h := r.threads[p].h;
    if h < r.tailShared {
      assert Minus(h, r.tailShared) == TWO_64 + h - r.tailShared;
    } else {
      assert Minus(h, r.tailShared) == h - r.tailShared;
    }
  }

  lemma RunsStep(cap: nat, producers: nat, ms: seq<Move>, m: Move)
    requires cap > 0
    ensures Runs(cap, producers, ms + [m]) == Step(Runs(cap, producers, ms), m)
  {
    assert (ms + [m])[..|ms|] == ms;
  }

  /** Both producers have loaded the head. */
  lemma TwoLoaded(ev: Transfer) returns (ms: seq<Move>)
    ensures Runs(1, 2, ms) == New(1, 2).(threads := [Loaded(ev, 0), Loaded(ev, 0)])
  {
    hide Runs;
    RunsNone(1, 2);
    RunsStep(1, 2, [], Submit(0, ev));
    ms := [] + [Submit(0, ev)];
    RunsStep(1, 2, ms, LoadHead(0));
    ms := ms + [LoadHead(0)];
    RunsStep(1, 2, ms, Submit(1, ev));
    ms := ms + [Submit(1, ev)];
    RunsStep(1, 2, ms, LoadHead(1));
    ms := ms + [LoadHead(1)];
  }

  /** The second one submits. */
  lemma SecondSubmits(ev: Transfer, ms: seq<Move>) returns (more: seq<Move>)
    requires Runs(1, 2, ms) == New(1, 2).(threads := [Loaded(ev, 0), Loaded(ev, 0)])
    ensures Runs(1, 2, more)
         == Ring([Some(ev)], [1], 1, 0, 0, None, 0, [Loaded(ev, 0), Published(ev, 0)], Free, [ev], [1], [], 0)
  {
    hide Runs;
    more := ms;
    RunsStep(1, 2, more, LoadTail(1));
    more := more + [LoadTail(1)];
    RunsStep(1, 2, more, Swap(1));
    more := more + [Swap(1)];
    RunsStep(1, 2, more, Put(1));
    more := more + [Put(1)];
    RunsStep(1, 2, more, Publish(1));
    more := more + [Publish(1)];
  }

  /** The consumer drains the event. */
  lemma ConsumerDrains(ev: Transfer, ms: seq<Move>) returns (more: seq<Move>)
    requires Runs(1, 2, ms)
          == Ring([Some(ev)], [1], 1, 0, 0, None, 0, [Loaded(ev, 0), Published(ev, 0)], Free, [ev], [1], [], 0)
    ensures Runs(1, 2, more)
         == Ring([Some(ev)], [1], 1, 1, 1, None, 0, [Loaded(ev, 0), Published(ev, 0)], Free, [ev], [1], [ev], 0)
  {
    hide Runs;
    more := ms;
    RunsStep(1, 2, more, DrainStart(1));
    more := more + [DrainStart(1)];
    RunsStep(1, 2, more, DrainCheck);
    more := more + [DrainCheck];
    RunsStep(1, 2, more, DrainRead);
    more := more + [DrainRead];
    RunsStep(1, 2, more, DrainCheck);
    more := more + [DrainCheck];
    RunsStep(1, 2, more, DrainStore);
    more := more + [DrainStore];
  }

  /** An empty buffer can refuse an event: one producer loads the head; another submits and the
    * consumer drains; the first then sees a tail beyond its head. */
  lemma EmptyBufferRefuses(ev: Transfer)
    ensures exists ms: seq<Move> :: var r := Runs(1, 2, ms); r.refused > 0 && r.head == r.tailShared
  {
    hide Runs;
    var ms := TwoLoaded(ev);
    ms := SecondSubmits(ev, ms);
    ms := ConsumerDrains(ev, ms);
    RunsStep(1, 2, ms, LoadTail(0));
    assert Minus(0, 1) == TWO_64 - 1;
    var r := Runs(1, 2, ms + [LoadTail(0)]);
    assert r.refused > 0 && r.head == r.tailShared;
  }

  lemma RunsNone(cap: nat, producers: nat)
    requires cap > 0
    ensures Runs(cap, producers, []) == New(cap, producers)
  {
  }
}
