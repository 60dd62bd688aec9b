/** What callers of the idempotency store can rely on (internal/engine/idempotency.go): that a key is
  * free again after a rollback or when its reservation is stale, that other keys are left alone, and
  * which entries make room for a commit. */
module IdempotencyLaws {
  import opened Core
  import opened Idempotency

  /** The entry of a key, if there is one. */
  function EntryOf(items: seq<Item>, key: Key): Option<Item> {
    var i := Find(items, key);
    if i < |items| then Some(items[i]) else None
  }

  /** The entries of all other keys, in order. */
  function Others(items: seq<Item>, key: Key): seq<Item> {
    if items == [] then [] else (if items[0].key == key then [] else [items[0]]) + Others(items[1..], key)
  }

  lemma EntryIs(items: seq<Item>, key: Key, x: Item)
    requires Unique(items) && x in items && x.key == key
    ensures EntryOf(items, key) == Some(x)
  {
    var i :| 0 <= i < |items| && items[i] == x;
    var k := Find(items, key);
  }

  lemma NoEntry(items: seq<Item>, key: Key)
    ensures EntryOf(items, key) == None <==> forall x <- items :: x.key != key
  {
    var k := Find(items, key);
    if k < |items| {
      assert items[k] in items;
    } else {
      forall x | x in items ensures x.key != key {
        var i :| 0 <= i < |items| && items[i] == x;
      }
    }
  }

  lemma EntryHas(items: seq<Item>, key: Key)
    requires EntryOf(items, key).Some?
    ensures EntryOf(items, key).value in items && EntryOf(items, key).value.key == key
  {
  }

  /** Lookup depends on the entry of the key alone: none and a result that has expired leave it free,
    * a reservation is in conflict however old it is. */
  lemma LookupIs(items: seq<Item>, key: Key, now: int)
    ensures Lookup(items, key, now)
         == match EntryOf(items, key)
            case None => Reserved
            case Some(x) => if x.pending then Conflict else if now < x.expiresAt then Found(x.transfer) else Reserved
  {
  }

  /* ----- rollback ----- */

  lemma {:induction false} OthersWithout(items: seq<Item>, i: nat)
    requires i < |items|
    ensures Others(RemoveAt(items, i), items[i].key) == Others(items, items[i].key)
    decreases i
  {
    var rest := RemoveAt(items, i);
    if i == 0 {
      assert rest == items[1..];
      assert [] + Others(items[1..], items[0].key) == Others(items[1..], items[0].key);
    } else {
      assert rest[0] == items[0] && rest[1..] == RemoveAt(items[1..], i - 1) && items[1..][i - 1] == items[i];
      OthersWithout(items[1..], i - 1);
    }
  }

  /** Rollback removes a reservation of the key and nothing else: the other entries stay in their order,
    * and so does a committed result of the key. */
  lemma RollbackExactly(items: seq<Item>, key: Key)
    requires Unique(items)
    ensures var after := Rollback(items, key);
            && Others(after, key) == Others(items, key)
            && EntryOf(after, key) == match EntryOf(items, key) {
                 case Some(x) => if x.pending then None else Some(x)
                 case None => None
               }
  {
    hide Others;
    var i := Find(items, key);
    if i < |items| && items[i].pending {
      OthersWithout(items, i);
      RemoveKeepsUnique(items, i);
    }
  }

  /** So other keys do not notice. */
  lemma RollbackSparesOthers(items: seq<Item>, key: Key, other: Key, now: int)
    requires Unique(items) && other != key
    ensures Lookup(Rollback(items, key), other, now) == Lookup(items, other, now)
  {
    hide Find, Unique;
    var i := Find(items, key);
    LookupIs(items, other, now);
    LookupIs(Rollback(items, key), other, now);
    if i < |items| && items[i].pending { EntryWithout(items, i, other); }
  }

  /** Removing the entry of one key leaves that of another. */
  lemma EntryWithout(items: seq<Item>, i: nat, other: Key)
    requires Unique(items) && i < |items| && items[i].key != other
    ensures EntryOf(RemoveAt(items, i), other) == EntryOf(items, other)
  {
    hide Find;
    RemoveKeepsUnique(items, i);
    var rest := RemoveAt(items, i);
    assert forall j | 0 <= j < |rest| :: rest[j] == if j < i then items[j] else items[j + 1];
    NoEntry(items, other);
    NoEntry(rest, other);
    if EntryOf(items, other).Some? {
      var x := EntryOf(items, other).value;
      EntryHas(items, other);
      OthersStay(items, i, x);
      EntryIs(rest, other, x);
    }
  }

  /* ----- what an operation leaves ----- */

  lemma OthersFront(x: Item, items: seq<Item>)
    ensures Others([x] + items, x.key) == Others(items, x.key)
  {
    assert ([x] + items)[1..] == items;
    assert [] + Others(items, x.key) == Others(items, x.key);
  }

  /** The write-locked part of CheckAndReserve: stale entries at the old end go, then the key's entry
    * decides; a result that is still valid becomes the most recent entry, a free key gets a reservation
    * as the most recent entry, a conflict moves nothing; the other entries keep their order. */
  lemma ReserveExactly(items: seq<Item>, key: Key, now: int, ttl: int)
    requires Unique(items)
    ensures var live, out := DropExpired(items, now), Reserve(items, key, now, ttl);
            && out.result == Lookup(live, key, now)
            && Others(out.items, key) == Others(live, key)
            && match out.result {
                 case Conflict => out.items == live
                 case Found(_) => out.items != [] && Some(out.items[0]) == EntryOf(live, key)
                 case Reserved => out.items != [] && out.items[0] == Item(key, NO_TRANSFER, true, now + ttl)
               }
  {
    hide DropExpired, Find, Others;
    var live := DropExpired(items, now);
    var i, made := Find(live, key), Item(key, NO_TRANSFER, true, now + ttl);
    OthersFront(made, live);
    if i < |live| {
      OthersWithout(live, i);
      OthersFront(live[i], RemoveAt(live, i));
      OthersFront(made, RemoveAt(live, i));
    }
  }

  /** A commit puts the result in front of the entries of the other keys that are not stale. */
  lemma EnterExactly(items: seq<Item>, key: Key, result: Transfer, now: int, ttl: int)
    ensures var live, entered := DropExpired(items, now), Enter(items, key, result, now, ttl);
            && entered[0] == Item(key, result, false, now + ttl)
            && Others(entered, key) == Others(live, key)
  {
    hide DropExpired, Find, Others;
    var live := DropExpired(items, now);
    var i, made := Find(live, key), Item(key, result, false, now + ttl);
    OthersFront(made, live);
    if i < |live| {
      OthersWithout(live, i);
      OthersFront(made, RemoveAt(live, i));
    }
  }

  /* ----- operations on other keys ----- */

  /** An operation on another key leaves the entry of a key as it is or removes it. */
  lemma OtherOperates(items: seq<Item>, op: Op, ttl: int, max: nat, key: Key)
    requires Unique(items) && op.key != key
    ensures var after := EntryOf(Operate(items, op, ttl, max), key);
            after == None || after == EntryOf(items, key)
  {
    hide EntryOf, Reserve, Enter, Rollback, Trimmed, Unique;
    match op
    case Try(_, now) => OtherReserves(items, op.key, now, ttl, key);
    case Finish(_, now, result) =>
      OtherEnters(items, op.key, result, now, ttl, key);
      OperationsKeepUnique(items, op.key, result, now, ttl, max);
      OtherTrimmed(Enter(items, op.key, result, now, ttl), max, key);
    case Undo(_, _) => OtherRollsBack(items, op.key, key);
  }

  lemma OtherReserves(items: seq<Item>, other: Key, now: int, ttl: int, key: Key)
    requires Unique(items) && other != key
    ensures var after := EntryOf(Reserve(items, other, now, ttl).items, key);
            after == None || after == EntryOf(items, key)
  {
    hide DropExpired, Find, Unique, EntryOf, RemoveAt;
    var live, made := DropExpired(items, now), Item(other, NO_TRANSFER, true, now + ttl);
    var i := Find(live, other);
    DropUnique(items, now);
    EntryDropped(items, now, key);
    FrontEntry(made, live, key);
    if i < |live| {
      EntryWithout(live, i, key);
      FrontEntry(live[i], RemoveAt(live, i), key);
      FrontEntry(made, RemoveAt(live, i), key);
    }
  }

  lemma OtherEnters(items: seq<Item>, other: Key, result: Transfer, now: int, ttl: int, key: Key)
    requires Unique(items) && other != key
    ensures var after := EntryOf(Enter(items, other, result, now, ttl), key);
            after == None || after == EntryOf(items, key)
  {
    hide DropExpired, Find, Unique, EntryOf, RemoveAt;
    var live, made := DropExpired(items, now), Item(other, result, false, now + ttl);
    var i := Find(live, other);
    DropUnique(items, now);
    EntryDropped(items, now, key);
    FrontEntry(made, live, key);
    if i < |live| {
      EntryWithout(live, i, key);
      FrontEntry(made, RemoveAt(live, i), key);
    }
  }

  lemma OtherTrimmed(items: seq<Item>, max: nat, key: Key)
    requires Unique(items)
    ensures var after := EntryOf(Trimmed(items, max), key); after == None || after == EntryOf(items, key)
  {
    hide EntryOf, Evicted, Unique;
    EntryEvicted(items, if |items| > max then |items| - max else 0, key);
  }

  lemma OtherRollsBack(items: seq<Item>, other: Key, key: Key)
    requires Unique(items) && other != key
    ensures EntryOf(Rollback(items, other), key) == EntryOf(items, key)
  {
    hide Find, Unique, EntryOf, RemoveAt;
    var i := Find(items, other);
    if i < |items| && items[i].pending { EntryWithout(items, i, key); }
  }

  lemma FrontEntry(x: Item, items: seq<Item>, key: Key)
    requires x.key != key
    ensures EntryOf([x] + items, key) == EntryOf(items, key)
  {
    assert ([x] + items)[1..] == items;
  }

  lemma DropUnique(items: seq<Item>, now: int)
    requires Unique(items)
    ensures Unique(DropExpired(items, now))
  {
  }

  lemma EntryDropped(items: seq<Item>, now: int, key: Key)
    requires Unique(items)
    ensures var after := EntryOf(DropExpired(items, now), key); after == None || after == EntryOf(items, key)
  {
    hide Find, DropExpired;
    var live := DropExpired(items, now);
    if EntryOf(live, key).Some? {
      EntryHas(live, key);
      assert EntryOf(live, key).value in items;
      EntryIs(items, key, EntryOf(live, key).value);
    }
  }

  lemma {:induction false} EntryEvicted(items: seq<Item>, n: nat, key: Key)
    requires Unique(items)
    ensures var after := EntryOf(Evicted(items, n), key); after == None || after == EntryOf(items, key)
  {
    hide Find, Oldest;
    if n > 0 {
      EntryEvicted(items, n - 1, key);
      EvictedUnique(items, n - 1);
      var was := Evicted(items, n - 1);
      var i := Oldest(was);
      if i < |was| {
        if was[i].key == key {
          RemoveKeepsUnique(was, i);
        } else {
          EntryWithout(was, i, key);
        }
      }
    }
  }

  /** So do any number of them. */
  lemma {:induction false} OthersOperate(items: seq<Item>, ops: seq<Op>, ttl: int, max: nat, key: Key)
    requires Unique(items) && forall i | 0 <= i < |ops| :: ops[i].key != key
    ensures Unique(OperateAll(items, ops, ttl, max))
    ensures var after := EntryOf(OperateAll(items, ops, ttl, max), key); after == None || after == EntryOf(items, key)
  {
    hide Unique, Operate, EntryOf;
    if ops != [] {
      var n := |ops| - 1;
      var before := OperateAll(items, ops[..n], ttl, max);
      OthersOperate(items, ops[..n], ttl, max, key);
      OperateUnique(before, ops[n], ttl, max);
      OtherOperates(before, ops[n], ttl, max, key);
    }
  }

  /** A key that was reserved and is rolled back, whatever happens to other keys in between and however
    * long it takes, can be reserved again: the next attempt gets through both of its parts. */
  lemma RolledBackIsFree(items: seq<Item>, key: Key, now: int, ttl: int, max: nat, ops: seq<Op>, undo: int, later: int)
    requires Unique(items) && Reserve(items, key, now, ttl).result == Reserved
    requires forall i | 0 <= i < |ops| :: ops[i].key != key
    ensures var after := OperateAll(Reserve(items, key, now, ttl).items, ops + [Undo(key, undo)], ttl, max);
            Lookup(after, key, later) == Reserved && Reserve(after, key, later, ttl).result == Reserved
  {
    hide Find, DropExpired, Unique;
    var reserved := Reserve(items, key, now, ttl).items;
    OperationsKeepUnique(items, key, NO_TRANSFER, now, ttl, max);
    OthersOperate(reserved, ops, ttl, max, key);
    var before := OperateAll(reserved, ops, ttl, max);
    assert (ops + [Undo(key, undo)])[..|ops|] == ops;
    RollbackExactly(before, key);
    var after := Rollback(before, key);
    ReservedFirst(items, key, now, ttl);
    OperationsKeepUnique(before, key, NO_TRANSFER, now, ttl, max);
    LookupIs(after, key, later);
    EntryDropped(after, later, key);
  }

  lemma ReservedFirst(items: seq<Item>, key: Key, now: int, ttl: int)
    requires Reserve(items, key, now, ttl).result == Reserved
    ensures EntryOf(Reserve(items, key, now, ttl).items, key) == Some(Item(key, NO_TRANSFER, true, now + ttl))
  {
    hide DropExpired;
  }

  /* ----- stale entries ----- */

  /** evictExpired drops the longest run of expired entries at the old end. */
  lemma {:induction false} DropExactly(items: seq<Item>, now: int)
    ensures var n := |DropExpired(items, now)|;
            && n <= |items| && DropExpired(items, now) == items[..n]
            && (n > 0 ==> now < items[n - 1].expiresAt)
            && forall j | n <= j < |items| :: items[j].expiresAt <= now
  {
    if items != [] && items[|items| - 1].expiresAt <= now { DropExactly(items[..|items| - 1], now); }
  }

  /** The entry at `i` and everything behind it is stale. */
  predicate StaleFrom(items: seq<Item>, i: nat, now: int) {
    forall j | i <= j < |items| :: items[j].expiresAt <= now
  }

  lemma DroppedExactly(items: seq<Item>, i: nat, now: int)
    requires Unique(items) && i < |items|
    ensures EntryOf(DropExpired(items, now), items[i].key) == if StaleFrom(items, i, now) then None else Some(items[i])
  {
    hide DropExpired, Find, Unique;
    DropExactly(items, now);
    var live, key := DropExpired(items, now), items[i].key;
    DropUnique(items, now);
    NoEntry(live, key);
    if i < |live| {
      assert live[i] == items[i];
      EntryIs(live, key, items[i]);
    } else {
      assert forall j | 0 <= j < |live| :: live[j] == items[j];
      DifferentKeys(items, i);
    }
  }

  lemma DifferentKeys(items: seq<Item>, i: nat)
    requires Unique(items) && i < |items|
    ensures forall j | 0 <= j < |items| && j != i :: items[j].key != items[i].key
  {
  }

  /** A reservation is given up, at the next reservation or commit of another key, if and only if it is
    * stale and so is everything behind it; until then it stays in conflict. */
  lemma StaleReservationIsFreed(items: seq<Item>, i: nat, op: Op, ttl: int, max: nat, later: int)
    requires Unique(items) && i < |items| && items[i].pending && op.key != items[i].key
    requires op.Finish? || (op.Try? && Lookup(items, op.key, op.now) == Reserved)
    ensures var after := Operate(items, op, ttl, max);
            Lookup(after, items[i].key, later) == if StaleFrom(items, i, op.now) then Reserved else Conflict
  {
    hide DropExpired, Find, Unique, Evicted, StaleFrom;
    var x, live := items[i], DropExpired(items, op.now);
    DroppedExactly(items, i, op.now);
    DropUnique(items, op.now);
    LookupIs(Operate(items, op, ttl, max), x.key, later);
    var k := Find(live, op.key);
    if k < |live| { EntryWithout(live, k, x.key); }
    match op
    case Try(_, now) =>
      var made := Item(op.key, NO_TRANSFER, true, now + ttl);
      FrontEntry(made, live, x.key);
      if k < |live| {
        FrontEntry(made, RemoveAt(live, k), x.key);
        FrontEntry(live[k], RemoveAt(live, k), x.key);
      }
    case Finish(_, now, result) =>
      var made := Item(op.key, result, false, now + ttl);
      FrontEntry(made, live, x.key);
      if k < |live| { FrontEntry(made, RemoveAt(live, k), x.key); }
      OperationsKeepUnique(items, op.key, result, now, ttl, max);
      var entered := Enter(items, op.key, result, now, ttl);
      PendingEvicted(entered, if |entered| > max then |entered| - max else 0, x);
  }

  /** Eviction leaves a reservation, or its absence, alone. */
  lemma PendingEvicted(items: seq<Item>, n: nat, x: Item)
    requires Unique(items) && x.pending
    requires EntryOf(items, x.key) == None || EntryOf(items, x.key) == Some(x)
    ensures EntryOf(Evicted(items, n), x.key) == EntryOf(items, x.key)
  {
    hide Find, Evicted, Pendings, Unique;
    EntryEvicted(items, n, x.key);
    EvictedUnique(items, n);
    EvictedSize(items, n);
    PendingsHas(items, x);
    PendingsHas(Evicted(items, n), x);
    if EntryOf(items, x.key) == Some(x) {
      EntryHas(items, x.key);
      EntryIs(Evicted(items, n), x.key, x);
    }
  }

  /** A reservation made at `now` is stale from `now + ttl` on, and not before: when all else is stale,
    * a commit of another key frees it exactly then. */
  lemma ReservationLasts(items: seq<Item>, key: Key, now: int, ttl: int, max: nat, other: Key, result: Transfer,
                         t: int, later: int)
    requires Unique(items) && Reserve(items, key, now, ttl).result == Reserved && other != key
    requires forall x <- items :: x.expiresAt <= t
    ensures var after := Operate(Reserve(items, key, now, ttl).items, Finish(other, t, result), ttl, max);
            Lookup(after, key, later) == if now + ttl <= t then Reserved else Conflict
  {
    hide DropExpired, Find, Unique, Operate, Lookup;
    var reserved := Reserve(items, key, now, ttl).items;
    OperationsKeepUnique(items, key, NO_TRANSFER, now, ttl, max);
    FrontIsNew(items, key, now, ttl);
    forall j | 0 < j < |reserved|
      ensures reserved[j].expiresAt <= t
    {
      assert reserved[j] in items;
    }
    StaleReservationIsFreed(reserved, 0, Finish(other, t, result), ttl, max, later);
  }

  lemma FrontIsNew(items: seq<Item>, key: Key, now: int, ttl: int)
    requires Reserve(items, key, now, ttl).result == Reserved
    ensures var r := Reserve(items, key, now, ttl).items;
            && r != [] && r[0] == Item(key, NO_TRANSFER, true, now + ttl)
            && forall j | 0 < j < |r| :: r[j] in items
  {
    hide DropExpired, Find;
    var live := DropExpired(items, now);
    assert forall j | 0 <= j < |live| :: live[j] in items;
  }

  /* ----- results ----- */

  /** The committed entries, most recent first. */
  function Settled(items: seq<Item>): seq<Item> {
    if items == [] then []
    else Settled(items[..|items| - 1]) + (if items[|items| - 1].pending then [] else [items[|items| - 1]])
  }

  lemma {:induction false} SettledAppend(xs: seq<Item>, ys: seq<Item>)
    ensures Settled(xs + ys) == Settled(xs) + Settled(ys)
  {
    hide Settled;
    if ys == [] {
      SettledLast(ys);
      assert xs + ys == xs && Settled(xs) + [] == Settled(xs);
    } else {
      var n := |ys| - 1;
      SettledLast(ys);
      SettledLast(xs + ys);
      assert (xs + ys)[..|xs + ys| - 1] == xs + ys[..n];
      SettledAppend(xs, ys[..n]);
      Regroup(Settled(xs), Settled(ys[..n]), if ys[n].pending then [] else [ys[n]]);
    }
  }

  lemma SettledLast(items: seq<Item>)
    ensures Settled(items)
         == if items == [] then []
            else Settled(items[..|items| - 1]) + (if items[|items| - 1].pending then [] else [items[|items| - 1]])
  {
  }

  lemma {:induction false} NoneSettled(items: seq<Item>)
    ensures (forall i | 0 <= i < |items| :: items[i].pending) <==> Settled(items) == []
  {
    if items != [] {
      var n := |items| - 1;
      NoneSettled(items[..n]);
      assert forall i | 0 <= i < n :: items[..n][i] == items[i];
      if !(forall i | 0 <= i < n :: items[i].pending) { assert Settled(items[..n]) != []; }
    }
  }

  /** Eviction takes the oldest committed entry. */
  lemma EvictOneOldest(items: seq<Item>)
    ensures var before, after := Settled(items), Settled(EvictOne(items));
            after == if before == [] then [] else before[..|before| - 1]
  {
    hide Settled, Oldest;
    var i := Oldest(items);
    NoneSettled(items);
    if i < |items| {
      var front, back := items[..i], items[i + 1..];
      assert items == front + ([items[i]] + back);
      SettledAppend(front, [items[i]] + back);
      SettledAppend([items[i]], back);
      SettledAppend(front, back);
      NoneSettled(back);
      SettledLast([items[i]]);
      NoneSettled([]);
      assert [items[i]][..0] == [];
    }
  }

  /** Evicting `n` entries takes the `n` oldest committed ones, or all. */
  lemma {:induction false} EvictedOldest(items: seq<Item>, n: nat)
    ensures var before, after := Settled(items), Settled(Evicted(items, n));
            after == if n <= |before| then before[..|before| - n] else []
  {
    hide Settled, EvictOne;
    if n > 0 {
      EvictedOldest(items, n - 1);
      EvictOneOldest(Evicted(items, n - 1));
    }
  }

  /** Which results a commit leaves: the new one first, and behind it the most recent of the others that
    * fit beside the reservations; which reservations: all. */
  lemma CommitKeepsRecent(items: seq<Item>, key: Key, result: Transfer, now: int, ttl: int, max: nat)
    ensures var entered, after := Enter(items, key, result, now, ttl), Commit(items, key, result, now, ttl, max);
            && Pendings(after) == Pendings(entered)
            && (|entered| <= max ==> after == entered)
            && (|entered| > max ==>
                  Settled(after) == if |entered| - max <= |Settled(entered)|
                                    then Settled(entered)[..|Settled(entered)| - (|entered| - max)] else [])
  {
    hide Settled, Pendings, Evicted;
    var entered := Enter(items, key, result, now, ttl);
    var n := if |entered| > max then |entered| - max else 0;
    EvictedSize(entered, n);
    EvictedOldest(entered, n);
    NothingEvicted(entered);
  }

  /** A result that is still valid is found through any operations on other keys, as long as there is
    * room for all of them. */
  lemma ResultSurvives(items: seq<Item>, x: Item, ops: seq<Op>, ttl: int, max: nat, later: int)
    requires Unique(items) && x in items && !x.pending && later < x.expiresAt && |items| + |ops| <= max
    requires forall i | 0 <= i < |ops| :: ops[i].key != x.key && ops[i].now < x.expiresAt
    ensures Lookup(OperateAll(items, ops, ttl, max), x.key, later) == Found(x.transfer)
  {
    hide Find, OperateAll, Unique;
    StaysIn(items, x, ops, ttl, max);
    EntryIs(OperateAll(items, ops, ttl, max), x.key, x);
    LookupIs(OperateAll(items, ops, ttl, max), x.key, later);
  }

  lemma {:induction false} StaysIn(items: seq<Item>, x: Item, ops: seq<Op>, ttl: int, max: nat)
    requires Unique(items) && x in items && |items| + |ops| <= max
    requires forall i | 0 <= i < |ops| :: ops[i].key != x.key && ops[i].now < x.expiresAt
    ensures var after := OperateAll(items, ops, ttl, max);
            Unique(after) && x in after && |after| <= |items| + |ops|
  {
    hide Unique, Operate;
    if ops != [] {
      var n := |ops| - 1;
      var before := OperateAll(items, ops[..n], ttl, max);
      StaysIn(items, x, ops[..n], ttl, max);
      OperateUnique(before, ops[n], ttl, max);
      OperateWithRoom(before, ops[n], ttl, max, x);
    }
  }

  /** With room for one more entry nothing valid of another key is lost. */
  lemma OperateWithRoom(items: seq<Item>, op: Op, ttl: int, max: nat, x: Item)
    requires Unique(items) && x in items && op.key != x.key && op.now < x.expiresAt && |items| < max
    ensures x in Operate(items, op, ttl, max) && |Operate(items, op, ttl, max)| <= |items| + 1
  {
    hide DropExpired, Find, Evicted, RemoveAt;
    var live, j := DropExpired(items, op.now), Find(items, op.key);
    LiveIsKept(items, op.now, x);
    DropUnique(items, op.now);
    RoomLeft(live, op.key, x);
    if j < |items| { OthersStay(items, j, x); }
    if op.Finish? { NothingEvicted(Enter(items, op.key, op.result, op.now, ttl)); }
  }

  lemma RoomLeft(live: seq<Item>, key: Key, x: Item)
    requires Unique(live) && x in live && x.key != key
    ensures var i := Find(live, key);
            i < |live| ==> x in RemoveAt(live, i) && x in ToFront(live, i)
  {
    hide Find;
    var i := Find(live, key);
    if i < |live| { OthersStay(live, i, x); }
  }

  /** A committed result is valid for exactly `ttl`. */
  lemma ResultExpires(items: seq<Item>, key: Key, result: Transfer, now: int, ttl: int, max: nat, later: int)
    requires Unique(items) && |Enter(items, key, result, now, ttl)| <= max
    ensures Lookup(Commit(items, key, result, now, ttl, max), key, later)
         == if later < now + ttl then Found(result) else Reserved
  {
    hide DropExpired, Evicted;
    NothingEvicted(Enter(items, key, result, now, ttl));
  }
}
