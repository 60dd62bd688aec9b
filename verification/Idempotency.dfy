/** The idempotency store (internal/engine/idempotency.go) on values: its entries, most recently
  * used first, and what its operations do to them. */
module Idempotency {
  import opened Core

  type Key = U256

  datatype Item = Item(key: Key, transfer: Transfer, pending: bool, expiresAt: int)

  /** The result of a reservation attempt. */
  datatype Reservation = Conflict | Found(transfer: Transfer) | Reserved

  const NO_TRANSFER := Transfer(0, 0, 0, 0, 0, 0, 0, 0, 0, 0, 0)

  /* ----- operations ----- */

  predicate Unique(items: seq<Item>) {
    forall i, j | 0 <= i < j < |items| :: items[i].key != items[j].key
  }

  /** Where the entry of a key is; the length if there is none. */
  function Find(items: seq<Item>, key: Key): (i: nat)
    ensures i <= |items| && (i < |items| ==> items[i].key == key)
    ensures forall j | 0 <= j < i :: items[j].key != key
  {
    if items == [] then 0
    else if items[0].key == key then 0
    else 1 + Find(items[1..], key)
  }

  function RemoveAt<T>(s: seq<T>, i: nat): (r: seq<T>)
    requires i < |s|
    ensures |r| == |s| - 1
  {
    s[..i] + s[i + 1..]
  }

  function ToFront<T>(s: seq<T>, i: nat): (r: seq<T>)
    requires i < |s|
    ensures |r| == |s|
  {
    [s[i]] + RemoveAt(s, i)
  }

  /** evictExpired: expired entries are dropped from the old end up to the first live one. */
  function DropExpired(items: seq<Item>, now: int): (r: seq<Item>)
    ensures r <= items
  {
    if items == [] || now < items[|items| - 1].expiresAt then items
    else DropExpired(items[..|items| - 1], now)
  }

  /** evictLRU: the oldest entry that is not pending. */
  function Oldest(items: seq<Item>): (i: nat)
    ensures i <= |items| && (i < |items| ==> !items[i].pending)
    ensures i == |items| ==> forall j | 0 <= j < |items| :: items[j].pending
    ensures i < |items| ==> forall j | i < j < |items| :: items[j].pending
  {
    if items == [] then 0
    else
      var n := |items| - 1;
      if !items[n].pending then n
      else
        var i := Oldest(items[..n]);
        if i == n then |items| else i
  }

  function EvictOne(items: seq<Item>): seq<Item> {
    var i := Oldest(items);
    if i == |items| then items else RemoveAt(items, i)
  }

  function Evicted(items: seq<Item>, n: nat): seq<Item> {
    if n == 0 then items else EvictOne(Evicted(items, n - 1))
  }

  /** The first part of CheckAndReserve, under the read lock. */
  function Lookup(items: seq<Item>, key: Key, now: int): Reservation {
    var i := Find(items, key);
    if i == |items| then Reserved
    else if items[i].pending then Conflict
    else if now < items[i].expiresAt then Found(items[i].transfer)
    else Reserved
  }

  datatype Outcome = Outcome(items: seq<Item>, result: Reservation)

  /** The second part of CheckAndReserve, under the write lock. */
  function Reserve(items: seq<Item>, key: Key, now: int, ttl: int): Outcome {
    var live := DropExpired(items, now);
    var i, made := Find(live, key), Item(key, NO_TRANSFER, true, now + ttl);
    if i == |live| then Outcome([made] + live, Reserved)
    else if live[i].pending then Outcome(live, Conflict)
    else if now < live[i].expiresAt then Outcome(ToFront(live, i), Found(live[i].transfer))
    else Outcome([made] + RemoveAt(live, i), Reserved)
  }

  /** Commit up to its eviction loop. */
  function Enter(items: seq<Item>, key: Key, result: Transfer, now: int, ttl: int): seq<Item> {
    var live := DropExpired(items, now);
    var i := Find(live, key);
    [Item(key, result, false, now + ttl)] + if i == |live| then live else RemoveAt(live, i)
  }

  function Rollback(items: seq<Item>, key: Key): seq<Item> {
    var i := Find(items, key);
    if i < |items| && items[i].pending then RemoveAt(items, i) else items
  }

  /* ----- pending entries ----- */

  function Pendings(items: seq<Item>): seq<Item> {
    if items == [] then []
    else (if items[0].pending then [items[0]] else []) + Pendings(items[1..])
  }

  lemma {:induction false} PendingsAppend(xs: seq<Item>, ys: seq<Item>)
    ensures Pendings(xs + ys) == Pendings(xs) + Pendings(ys)
    decreases |xs|
  {
    hide Pendings;
    PendingsFirst(xs);
    PendingsFirst(xs + ys);
    if xs == [] {
      assert xs + ys == ys && [] + Pendings(ys) == Pendings(ys);
    } else {
      SplitFirst(xs, ys);
      PendingsAppend(xs[1..], ys);
      Regroup(if xs[0].pending then [xs[0]] else [], Pendings(xs[1..]), Pendings(ys));
    }
  }

  lemma PendingsFirst(items: seq<Item>)
    ensures Pendings(items)
         == if items == [] then [] else (if items[0].pending then [items[0]] else []) + Pendings(items[1..])
  {
  }

  lemma {:induction false} PendingsAtMost(items: seq<Item>)
    ensures |Pendings(items)| <= |items|
    ensures |Pendings(items)| == |items| <==> forall i | 0 <= i < |items| :: items[i].pending
    decreases |items|
  {
    if items != [] {
      PendingsAtMost(items[1..]);
      assert forall i | 1 <= i < |items| :: items[i] == items[1..][i - 1];
    }
  }

  lemma PendingsWithout(items: seq<Item>, i: nat)
    requires i < |items| && !items[i].pending
    ensures Pendings(RemoveAt(items, i)) == Pendings(items)
  {
    hide Pendings;
    var tail := [items[i]] + items[i + 1..];
    assert items == items[..i] + tail;
    PendingsAppend(items[..i], tail);
    PendingsAppend(items[..i], items[i + 1..]);
    PendingsFront(items[i], items[i + 1..]);
  }

  lemma PendingsFront(x: Item, rest: seq<Item>)
    requires !x.pending
    ensures Pendings([x] + rest) == Pendings(rest)
  {
    assert ([x] + rest)[1..] == rest;
  }

  /** LRU eviction never removes a pending entry, and it removes one entry unless all are pending. */
  lemma EvictionSparesPending(items: seq<Item>)
    ensures Pendings(EvictOne(items)) == Pendings(items)
    ensures |EvictOne(items)| == if |Pendings(items)| < |items| then |items| - 1 else |items|
  {
    hide Pendings, Oldest;
    PendingsAtMost(items);
    var i := Oldest(items);
    if i < |items| { PendingsWithout(items, i); }
  }

  /** It is the only place behind which everything is pending. */
  lemma OldestIs(items: seq<Item>, i: nat)
    requires i < |items| && !items[i].pending && forall j | i < j < |items| :: items[j].pending
    ensures Oldest(items) == i
  {
    hide Oldest;
    var k := Oldest(items);
    assert k < |items|;
    assert !(k < i);
  }

  lemma {:induction false} EvictedSize(items: seq<Item>, n: nat)
    ensures Pendings(Evicted(items, n)) == Pendings(items)
    ensures |Evicted(items, n)| == if |items| - n >= |Pendings(items)| then |items| - n else |Pendings(items)|
  {
    hide Pendings, EvictOne;
    PendingsAtMost(items);
    if n > 0 {
      EvictedSize(items, n - 1);
      EvictionSparesPending(Evicted(items, n - 1));
    }
  }

  /** Commit's loop comes to an end exactly when no more entries are pending than the store may hold. */
  lemma EvictionEnds(items: seq<Item>, max: nat)
    ensures (exists n :: |Evicted(items, n)| <= max) <==> |Pendings(items)| <= max
  {
    hide Pendings, Evicted;
    PendingsAtMost(items);
    if |Pendings(items)| <= max {
      EvictedSize(items, |items|);
      assert |Evicted(items, |items|)| <= max;
    }
    forall n: nat
      ensures |Evicted(items, n)| >= |Pendings(items)|
    {
      EvictedSize(items, n);
    }
  }

  /** The store after the loop. */
  function Trimmed(items: seq<Item>, max: nat): seq<Item> {
    Evicted(items, if |items| > max then |items| - max else 0)
  }

  function Commit(items: seq<Item>, key: Key, result: Transfer, now: int, ttl: int, max: nat): seq<Item> {
    Trimmed(Enter(items, key, result, now, ttl), max)
  }

  /* ----- keys ----- */

  lemma RemoveKeepsUnique(items: seq<Item>, i: nat)
    requires Unique(items) && i < |items|
    ensures Unique(RemoveAt(items, i)) && Find(RemoveAt(items, i), items[i].key) == |items| - 1
  {
    var r := RemoveAt(items, i);
    assert forall j | 0 <= j < |r| :: r[j] == if j < i then items[j] else items[j + 1];
  }

  lemma FrontKeepsUnique(x: Item, items: seq<Item>)
    requires Unique(items) && Find(items, x.key) == |items|
    ensures Unique([x] + items)
  {
    var all := [x] + items;
    forall i, j | 0 <= i < j < |all|
      ensures all[i].key != all[j].key
    {
      FindsNone(items, x.key, j - 1);
    }
  }

  lemma FindsNone(items: seq<Item>, key: Key, j: nat)
    requires Find(items, key) == |items| && j < |items|
    ensures items[j].key != key
  {
  }

  /** Every operation keeps one entry per key. */
  lemma OperationsKeepUnique(items: seq<Item>, key: Key, result: Transfer, now: int, ttl: int, max: nat)
    requires Unique(items)
    ensures Unique(Reserve(items, key, now, ttl).items) && Unique(Rollback(items, key))
    ensures Unique(Enter(items, key, result, now, ttl)) && Unique(Commit(items, key, result, now, ttl, max))
  {
    hide Find, Evicted, DropExpired;
    var live := DropExpired(items, now);
    var i, entered := Find(live, key), Enter(items, key, result, now, ttl);
    var made, done := Item(key, NO_TRANSFER, true, now + ttl), Item(key, result, false, now + ttl);
    if i < |live| {
      RemoveKeepsUnique(live, i);
      FrontKeepsUnique(live[i], RemoveAt(live, i));
      FrontKeepsUnique(made, RemoveAt(live, i));
      FrontKeepsUnique(done, RemoveAt(live, i));
    } else {
      FrontKeepsUnique(made, live);
      FrontKeepsUnique(done, live);
    }
    var k := Find(items, key);
    if k < |items| { RemoveKeepsUnique(items, k); }
    EvictedUnique(entered, if |entered| > max then |entered| - max else 0);
  }

  lemma {:induction false} EvictedUnique(items: seq<Item>, n: nat)
    requires Unique(items)
    ensures Unique(Evicted(items, n))
  {
    if n > 0 {
      EvictedUnique(items, n - 1);
      var was := Evicted(items, n - 1);
      var i := Oldest(was);
      if i < |was| { RemoveKeepsUnique(was, i); }
    }
  }

  /* ----- reservations over time ----- */

  /** An operation at a time: CheckAndReserve, Commit or Rollback of a key. */
  datatype Op = Try(key: Key, now: int) | Finish(key: Key, now: int, result: Transfer) | Undo(key: Key, now: int)

  function Operate(items: seq<Item>, op: Op, ttl: int, max: nat): seq<Item> {
    match op
    case Try(key, now) => if Lookup(items, key, now) != Reserved then items else Reserve(items, key, now, ttl).items
    case Finish(key, now, result) => Commit(items, key, result, now, ttl, max)
    case Undo(key, now) => Rollback(items, key)
  }

  function OperateAll(items: seq<Item>, ops: seq<Op>, ttl: int, max: nat): seq<Item> {
    if ops == [] then items else Operate(OperateAll(items, ops[..|ops| - 1], ttl, max), ops[|ops| - 1], ttl, max)
  }

  lemma {:induction false} PendingsHas(items: seq<Item>, x: Item)
    ensures x in Pendings(items) <==> x in items && x.pending
    decreases |items|
  {
    if items != [] {
      PendingsHas(items[1..], x);
      assert items == [items[0]] + items[1..];
    }
  }

  lemma {:induction false} LiveIsKept(items: seq<Item>, now: int, x: Item)
    requires x in items && now < x.expiresAt
    ensures x in DropExpired(items, now)
  {
    var n := |items| - 1;
    if now >= items[n].expiresAt {
      assert items == items[..n] + [items[n]];
      LiveIsKept(items[..n], now, x);
    }
  }

  lemma OthersStay(items: seq<Item>, i: nat, x: Item)
    requires i < |items| && x in items && items[i] != x
    ensures x in RemoveAt(items, i) && x in ToFront(items, i)
  {
    assert items == items[..i] + [items[i]] + items[i + 1..];
  }

  /** An operation on another key before the deadline leaves a reservation alone. */
  lemma OperateKeeps(items: seq<Item>, op: Op, ttl: int, max: nat, x: Item)
    requires Unique(items) && x in items && x.pending && op.key != x.key && op.now < x.expiresAt
    ensures x in Operate(items, op, ttl, max)
  {
    hide DropExpired, Find, Evicted, Pendings;
    var live := DropExpired(items, op.now);
    LiveIsKept(items, op.now, x);
    var i, j := Find(live, op.key), Find(items, op.key);
    if i < |live| { OthersStay(live, i, x); }
    if j < |items| { OthersStay(items, j, x); }
    if op.Finish? {
      var entered := Enter(items, op.key, op.result, op.now, ttl);
      var n := if |entered| > max then |entered| - max else 0;
      EvictedSize(entered, n);
      PendingsHas(entered, x);
      PendingsHas(Evicted(entered, n), x);
    }
  }

  lemma OperateUnique(items: seq<Item>, op: Op, ttl: int, max: nat)
    requires Unique(items)
    ensures Unique(Operate(items, op, ttl, max))
  {
    hide Unique, Reserve, Commit, Rollback, Lookup;
    OperationsKeepUnique(items, op.key, if op.Finish? then op.result else NO_TRANSFER, op.now, ttl, max);
  }

  lemma {:induction false} OperateAllKeeps(items: seq<Item>, ops: seq<Op>, ttl: int, max: nat, x: Item)
    requires Unique(items) && x in items && x.pending
    requires forall i | 0 <= i < |ops| :: ops[i].key != x.key && ops[i].now < x.expiresAt
    ensures Unique(OperateAll(items, ops, ttl, max)) && x in OperateAll(items, ops, ttl, max)
  {
    hide Unique, Operate;
    if ops != [] {
      var n := |ops| - 1;
      OperateAllKeeps(items, ops[..n], ttl, max, x);
      OperateKeeps(OperateAll(items, ops[..n], ttl, max), ops[n], ttl, max, x);
      OperateUnique(OperateAll(items, ops[..n], ttl, max), ops[n], ttl, max);
    }
  }

  lemma PendingConflicts(items: seq<Item>, x: Item, now: int)
    requires Unique(items) && x in items && x.pending
    ensures Lookup(items, x.key, now) == Conflict
  {
    var i :| 0 <= i < |items| && items[i] == x;
    assert Find(items, x.key) == i;
  }

  /** A reserved key excludes every other request: through any operations on other keys, commits,
    * rollbacks and evictions among them, each further attempt is in conflict until its time is up. */
  lemma ReservationExcludes(items: seq<Item>, key: Key, now: int, ttl: int, max: nat, ops: seq<Op>, later: int)
    requires Unique(items) && Reserve(items, key, now, ttl).result == Reserved
    requires forall i | 0 <= i < |ops| :: ops[i].key != key && ops[i].now < now + ttl
    ensures Lookup(OperateAll(Reserve(items, key, now, ttl).items, ops, ttl, max), key, later) == Conflict
  {
    hide Lookup, OperateAll, DropExpired, Find, Unique;
    var made := Item(key, NO_TRANSFER, true, now + ttl);
    OperationsKeepUnique(items, key, NO_TRANSFER, now, ttl, max);
    OperateAllKeeps(Reserve(items, key, now, ttl).items, ops, ttl, max, made);
    PendingConflicts(OperateAll(Reserve(items, key, now, ttl).items, ops, ttl, max), made, later);
  }

  /* ----- what a commit leaves ----- */

  /** While another entry can be evicted, the most recent one stays. */
  lemma {:induction false} FrontStays(x: Item, items: seq<Item>, n: nat)
    requires !x.pending && n + |Pendings(items)| <= |items|
    ensures Evicted([x] + items, n) == [x] + Evicted(items, n)
    decreases n
  {
    hide Pendings, EvictOne;
    if n > 0 {
      FrontStays(x, items, n - 1);
      EvictedSize(items, n - 1);
      OldestBehind(x, Evicted(items, n - 1));
    }
  }

  /** When all others are pending it goes. */
  lemma FrontGoes(x: Item, items: seq<Item>, n: nat)
    requires !x.pending && n + |Pendings(items)| == |items| + 1
    ensures n > 0 && Evicted([x] + items, n) == Evicted(items, n - 1)
  {
    hide Pendings, EvictOne;
    PendingsAtMost(items);
    FrontStays(x, items, n - 1);
    EvictedSize(items, n - 1);
    OldestBehind(x, Evicted(items, n - 1));
  }

  lemma OldestBehind(x: Item, items: seq<Item>)
    requires !x.pending
    ensures EvictOne([x] + items) == if |Pendings(items)| < |items| then [x] + EvictOne(items) else items
  {
    hide Pendings, Oldest;
    PendingsAtMost(items);
    var all, i := [x] + items, Oldest(items);
    assert forall k | 0 < k < |all| :: all[k] == items[k - 1];
    if i < |items| {
      OldestIs(all, i + 1);
      assert RemoveAt(all, i + 1) == [x] + RemoveAt(items, i);
    } else {
      OldestIs(all, 0);
      assert RemoveAt(all, 0) == items;
    }
  }

  /** A committed result can be looked up afterwards, until it expires, exactly when the other
    * pending entries leave room for it. */
  lemma CommittedIsFound(items: seq<Item>, key: Key, result: Transfer, now: int, ttl: int, max: nat, later: int)
    requires Unique(items) && later < now + ttl
    requires |Pendings(Enter(items, key, result, now, ttl))| <= max
    ensures Lookup(Commit(items, key, result, now, ttl, max), key, later) == Found(result)
       <==> |Pendings(Enter(items, key, result, now, ttl))| < max || |Enter(items, key, result, now, ttl)| <= max
  {
    hide Pendings, Evicted, DropExpired, Find;
    var entered := Enter(items, key, result, now, ttl);
    var x, rest := entered[0], entered[1..];
    assert entered == [x] + rest;
    PendingsFront(x, rest);
    PendingsAtMost(rest);
    var n := if |entered| > max then |entered| - max else 0;
    OperationsKeepUnique(items, key, result, now, ttl, max);
    var trimmed := Evicted(entered, n);
    if n + |Pendings(rest)| <= |rest| {
      FrontStays(x, rest, n);
      FindFirst(x, Evicted(rest, n));
    } else {
      FrontGoes(x, rest, n);
      EvictedAway(rest, n - 1, key);
    }
    NothingEvicted(entered);
  }

  lemma FindFirst(x: Item, rest: seq<Item>)
    ensures Find([x] + rest, x.key) == 0
  {
  }

  lemma NothingEvicted(items: seq<Item>)
    ensures Evicted(items, 0) == items
  {
  }

  /** Eviction adds no key. */
  lemma {:induction false} EvictedAway(items: seq<Item>, n: nat, key: Key)
    requires Find(items, key) == |items|
    ensures var r := Evicted(items, n); Find(r, key) == |r|
  {
    hide Find;
    if n > 0 {
      EvictedAway(items, n - 1, key);
      var was := Evicted(items, n - 1);
      var i := Oldest(was);
      if i < |was| {
        var r := RemoveAt(was, i);
        assert forall j | 0 <= j < |r| :: r[j] == if j < i then was[j] else was[j + 1];
      }
    }
  }
}
