/** The idempotency store in place (internal/engine/idempotency.go): a doubly linked list from the
  * most to the least recently used entry, a map from keys to entries and a size counter. */
module IdempotencyStores {
  import opened Core
  import opened Idempotency

  class Entry {
    const key: Key
    var transfer: Transfer
    var pending: bool
    var expiresAt: int
    var prev: Entry?
    var next: Entry?

    constructor (key: Key, pending: bool, expiresAt: int)
      ensures this.key == key && this.pending == pending && this.expiresAt == expiresAt && transfer == NO_TRANSFER
    {
      this.key, this.pending, this.expiresAt := key, pending, expiresAt;
      transfer, prev, next := NO_TRANSFER, null, null;
    }
  }

  function ItemOf(e: Entry): Item
    reads e`transfer, e`pending, e`expiresAt
  {
    Item(e.key, e.transfer, e.pending, e.expiresAt)
  }

  ghost function SetOf(order: seq<Entry>): set<Entry> { set e | e in order }

  /** These are the contents of the entries. */
  ghost predicate Contains(order: seq<Entry>, items: seq<Item>)
    reads SetOf(order)`transfer, SetOf(order)`pending, SetOf(order)`expiresAt
  {
    |items| == |order| && forall i | 0 <= i < |order| :: items[i] == ItemOf(order[i])
  }

  ghost predicate Distinct(order: seq<Entry>) {
    forall i, j | 0 <= i < j < |order| :: order[i] != order[j]
  }

  /** The entry at `i` points to its neighbours. */
  ghost predicate Link(order: seq<Entry>, i: nat)
    requires i < |order|
    reads SetOf(order)`prev, SetOf(order)`next
  {
    && order[i].prev == (if i == 0 then null else order[i - 1])
    && order[i].next == (if i + 1 == |order| then null else order[i + 1])
  }

  ghost predicate Chained(order: seq<Entry>)
    reads SetOf(order)`prev, SetOf(order)`next
  {
    forall i | 0 <= i < |order| :: Link(order, i)
  }

  /** The entry at `j` points to its neighbours, and past the entry at `i`. */
  ghost predicate Around(order: seq<Entry>, i: nat, j: nat)
    requires i < |order| && j < |order|
    reads SetOf(order)`prev, SetOf(order)`next
  {
    var p, n := if j == i + 1 then i else j, if j + 1 == i then i else j;
    && order[j].prev == (if p == 0 then null else order[p - 1])
    && order[j].next == (if n + 1 == |order| then null else order[n + 1])
  }

  /** The map holds exactly the entries of the list, each under its key. */
  ghost predicate Mapped(entries: map<Key, Entry>, order: seq<Entry>) {
    && (forall i | 0 <= i < |order| :: order[i].key in entries && entries[order[i].key] == order[i])
    && (forall k <- entries :: entries[k] in order && entries[k].key == k)
  }

  class IdempotencyStore {
    const maxSize: nat
    const ttl: int
    var entries: map<Key, Entry>
    var head: Entry?
    var tail: Entry?
    var size: int
    ghost var order: seq<Entry>
    ghost var items: seq<Item>

    ghost predicate Linked()
      reads this`head, this`tail, this`order, SetOf(order)`prev, SetOf(order)`next
    {
      && Distinct(order) && Chained(order)
      && head == (if order == [] then null else order[0])
      && tail == (if order == [] then null else order[|order| - 1])
    }

    ghost predicate Valid()
      reads this, SetOf(order)
    {
      Linked() && Mapped(entries, order) && size == |order| == |items| && Contains(order, items)
    }

    constructor (maxSize: int, ttl: int)
      ensures Valid() && items == []
      ensures this.maxSize == (if maxSize <= 0 then 100_000 else maxSize)
      ensures this.ttl == if ttl <= 0 then 900_000_000_000 else ttl
    {
      this.maxSize := if maxSize <= 0 then 100_000 else maxSize;
      this.ttl := if ttl <= 0 then 900_000_000_000 else ttl;
      entries, head, tail, size, order, items := map[], null, null, 0, [], [];
    }

    /* ----- list operations ----- */

    method InsertHead(e: Entry)
      requires Linked() && e !in order
      modifies this`head, this`tail, this`order, e`prev, e`next, SetOf(order)`prev
      ensures Linked() && order == [e] + old(order)
    {
      ghost var was := order;
      if head != null { assert Link(order, 0); }
      e.prev := null;
      e.next := head;
      if head != null { head.prev := e; }
      head := e;
      if tail == null { tail := e; }
      order := [e] + order;
      forall k | 0 <= k < |order|
        ensures Link(order, k)
      {
        if k > 0 { assert old(Link(was, k - 1)); }
      }
    }

    method Unlink(e: Entry, ghost i: nat)
      requires Linked() && i < |order| && order[i] == e
      modifies this`head, this`tail, this`order, SetOf(order)`prev, SetOf(order)`next
      ensures Linked() && order == RemoveAt(old(order), i)
    {
      ghost var was := order;
      assert Link(was, i);
      assert i > 0 ==> was[i - 1] != e && Link(was, i - 1);
      assert i + 1 < |was| ==> was[i + 1] != e && Link(was, i + 1);
      if e.prev != null { e.prev.next := e.next; } else { head := e.next; }
      if e.next != null { e.next.prev := e.prev; } else { tail := e.prev; }
      e.prev, e.next := null, null;
      forall j | 0 <= j < |was| && j != i
        ensures Around(was, i, j)
      {
        assert old(Link(was, j));
        assert i > 0 && j != i - 1 ==> was[j] != was[i - 1];
        assert i + 1 < |was| && j != i + 1 ==> was[j] != was[i + 1];
      }
      Bypassed(was, i);
      order := RemoveAt(order, i);
      DistinctWithout(was, i);
    }

    /** removeLocked. */
    method Remove(e: Entry, ghost i: nat)
      requires Valid() && i < |order| && order[i] == e
      modifies this, SetOf(order)`prev, SetOf(order)`next
      ensures Valid() && order == RemoveAt(old(order), i) && items == RemoveAt(old(items), i)
      ensures entries == old(entries) - {e.key}
    {
      hide Chained, Contains, Mapped, Distinct, RemoveAt;
      ghost var was := order;
      Unlink(e, i);
      entries := entries - {e.key};
      size := size - 1;
      items := RemoveAt(items, i);
      MappedWithout(old(entries), was, i);
      ContainsWithout(was, old(items), i);
    }

    /** touchLocked. */
    method Touch(e: Entry, ghost i: nat)
      requires Valid() && i < |order| && order[i] == e
      modifies this`head, this`tail, this`order, this`items, SetOf(order)`prev, SetOf(order)`next
      ensures Valid() && order == ToFront(old(order), i) && items == ToFront(old(items), i)
      ensures SetOf(order) == old(SetOf(order))
    {
      hide Chained, Contains, Mapped, Distinct, RemoveAt, ToFront;
      ghost var was := order;
      if head == e {
        FirstIsHead(was, items, i);
        return;
      }
      Unlink(e, i);
      NotIn(was, i);
      InsertHead(e);
      items := ToFront(items, i);
      MappedToFront(entries, was, i);
      ContainsToFront(was, old(items), i);
    }

    /** Enter a new entry: into the map, at the front of the list, and into the count. */
    method Insert(e: Entry)
      requires Valid() && e.key !in entries
      modifies this, e`prev, e`next, SetOf(order)`prev
      ensures Valid() && order == [e] + old(order) && items == [ItemOf(e)] + old(items)
      ensures entries == old(entries)[e.key := e]
    {
      hide Chained, Contains, Mapped, Distinct;
      ghost var was := order;
      MappedInsert(entries, order, e);
      entries := entries[e.key := e];
      InsertHead(e);
      size := size + 1;
      items := [ItemOf(e)] + items;
      ContainsInsert(was, old(items), e);
    }

    /* ----- eviction ----- */

    /** evictExpiredLocked. */
    method EvictExpired(now: int)
      requires Valid()
      modifies this, SetOf(order)`prev, SetOf(order)`next
      ensures Valid() && order <= old(order) && items == DropExpired(old(items), now)
    {
      hide Chained, Contains, Mapped, Distinct;
      ghost var goal := DropExpired(items, now);
      var e := tail;
      while e != null
        invariant Valid() && e == tail && order <= old(order) && goal == DropExpired(items, now)
        decreases |order|
      {
        ghost var n := |order| - 1;
        LinkOf(order, n);
        ContentOf(order, items, n);
        var prev := e.prev;
        if now < e.expiresAt { break; }
        ghost var was, had := order, items;
        Remove(e, n);
        assert was[n + 1..] == [] && had[n + 1..] == [];
        assert order == was[..n] && items == had[..n];
        e := prev;
      }
    }

    /** evictLRULocked. */
    method EvictLRU()
      requires Valid()
      modifies this, SetOf(order)`prev, SetOf(order)`next
      ensures Valid() && items == EvictOne(old(items)) && SetOf(order) <= old(SetOf(order))
    {
      hide Chained, Contains, Mapped, Distinct, Oldest;
      var e := tail;
      ghost var j := |order|;
      while e != null
        invariant Valid() && order == old(order) && items == old(items) && 0 <= j <= |order|
        invariant e == if j == 0 then null else order[j - 1]
        invariant forall k | j <= k < |items| :: items[k].pending
        decreases j
      {
        LinkOf(order, j - 1);
        ContentOf(order, items, j - 1);
        if e.pending {
          e := e.prev;
          j := j - 1;
          continue;
        }
        OldestIs(items, j - 1);
        NotIn(order, j - 1);
        Remove(e, j - 1);
        return;
      }
    }

    /* ----- operations ----- */

    /** The read-locked part of CheckAndReserve; Reserved means: try the rest. */
    method Peek(key: Key, now: int) returns (r: Reservation)
      requires Valid()
      ensures r == Lookup(items, key, now)
    {
      hide Chained, Contains, Mapped, Distinct, Find;
      MapFinds(entries, order, items, key);
      if key in entries {
        var e := entries[key];
        ContentOf(order, items, Find(items, key));
        if e.pending { return Conflict; }
        if now < e.expiresAt { return Found(e.transfer); }
      }
      r := Reserved;
    }

    /** What the write-locked part does with an entry of the key: a live result goes to the front and
      * is returned, a stale one is removed. */
    method Claim(key: Key, now: int) returns (r: Reservation)
      requires Valid()
      modifies this, SetOf(order)`prev, SetOf(order)`next
      ensures Valid() && SetOf(order) <= old(SetOf(order)) && (r == Reserved ==> key !in entries)
      ensures var was := old(items);
              var i := Find(was, key);
              if i == |was| then r == Reserved && items == was
              else if was[i].pending then r == Conflict && items == was
              else if now < was[i].expiresAt then r == Found(was[i].transfer) && items == ToFront(was, i)
              else r == Reserved && items == RemoveAt(was, i)
    {
      hide Chained, Contains, Mapped, Distinct, Find, ToFront, RemoveAt;
      ghost var i := Find(items, key);
      MapFinds(entries, order, items, key);
      if key !in entries { return Reserved; }
      var e := entries[key];
      ContentOf(order, items, i);
      if e.pending { return Conflict; }
      NotIn(order, i);
      if now < e.expiresAt {
        Touch(e, i);
        return Found(e.transfer);
      }
      Remove(e, i);
      r := Reserved;
    }

    /** The write-locked part of CheckAndReserve. */
    method ReserveLocked(key: Key, now: int) returns (r: Reservation)
      requires Valid()
      modifies this, SetOf(order)
      ensures Valid() && fresh(SetOf(order) - old(SetOf(order)))
      ensures Outcome(items, r) == Reserve(old(items), key, now, ttl)
    {
      hide Valid, Find, DropExpired, ToFront, RemoveAt;
      ghost var was := order;
      EvictExpired(now);
      PrefixSet(order, was);
      r := Claim(key, now);
      if r == Reserved {
        var made := new Entry(key, true, now + ttl);
        FirstSet(made, order);
        Insert(made);
      }
    }

    /** CheckAndReserve with nothing in between its two parts. */
    method CheckAndReserve(key: Key, now: int) returns (r: Reservation)
      requires Valid()
      modifies this, SetOf(order)
      ensures Valid() && fresh(SetOf(order) - old(SetOf(order)))
      ensures var first := Lookup(old(items), key, now);
              if first != Reserved then r == first && items == old(items)
              else Outcome(items, r) == Reserve(old(items), key, now, ttl)
    {
      hide Chained, Contains, Mapped, Distinct, Find, DropExpired, Reserve, Lookup;
      r := Peek(key, now);
      if r == Reserved { r := ReserveLocked(key, now); }
    }

    method Rollback(key: Key)
      requires Valid()
      modifies this, SetOf(order)`prev, SetOf(order)`next
      ensures Valid() && SetOf(order) <= old(SetOf(order)) && items == Idempotency.Rollback(old(items), key)
    {
      hide Chained, Contains, Mapped, Distinct, Find;
      MapFinds(entries, order, items, key);
      if key in entries {
        ghost var i := Find(items, key);
        ContentOf(order, items, i);
        NotIn(order, i);
        if entries[key].pending { Remove(entries[key], i); }
      }
    }

    /** Store a result in the entry at `i`. */
    method Settle(e: Entry, ghost i: nat, result: Transfer, expiresAt: int)
      requires Valid() && i < |order| && order[i] == e
      modifies e`transfer, e`pending, e`expiresAt, this`items
      ensures Valid() && items == old(items)[i := Item(e.key, result, false, expiresAt)]
    {
      hide Chained, Mapped;
      e.pending := false;
      e.transfer := result;
      e.expiresAt := expiresAt;
      items := items[i := Item(e.key, result, false, expiresAt)];
    }

    /** The entry of a key, made at the front if there is none. */
    method Locate(key: Key) returns (e: Entry, ghost i: nat)
      requires Valid()
      modifies this, SetOf(order)`prev
      ensures Valid() && fresh(SetOf(order) - old(SetOf(order)))
      ensures i < |order| && order[i] == e && e.key == key
      ensures var j := Find(old(items), key);
              RemoveAt(items, i) == if j == |old(items)| then old(items) else RemoveAt(old(items), j)
    {
      hide Chained, Contains, Mapped, Distinct, Find;
      MapFinds(entries, order, items, key);
      if key in entries {
        e, i := entries[key], Find(items, key);
        ContentOf(order, items, i);
      } else {
        e := new Entry(key, false, 0);
        i := 0;
        Insert(e);
      }
    }

    /** Commit up to its eviction loop. */
    method EnterResult(key: Key, result: Transfer, now: int)
      requires Valid()
      modifies this, SetOf(order)
      ensures Valid() && fresh(SetOf(order) - old(SetOf(order)))
      ensures items == Enter(old(items), key, result, now, ttl)
    {
      hide Chained, Contains, Mapped, Distinct, Find, DropExpired, RemoveAt, ToFront;
      EvictExpired(now);
      ghost var i: nat;
      var e: Entry;
      e, i := Locate(key);
      SettledFront(items, i, Item(key, result, false, now + ttl));
      Settle(e, i, result, now + ttl);
      NotIn(order, i);
      Touch(e, i);
    }

    /** Commit.  Its loop ends because the pending entries alone do not exceed the maximum. */
    method Commit(key: Key, result: Transfer, now: int)
      requires Valid() && |Pendings(Enter(items, key, result, now, ttl))| <= maxSize
      modifies this, SetOf(order)
      ensures Valid() && fresh(SetOf(order) - old(SetOf(order)))
      ensures items == Idempotency.Commit(old(items), key, result, now, ttl, maxSize) && |items| <= maxSize
    {
      hide Chained, Contains, Mapped, Distinct, Enter, Pendings, EvictOne;
      EnterResult(key, result, now);
      ghost var entered, n := items, 0;
      while size > maxSize
        invariant Valid() && fresh(SetOf(order) - old(SetOf(order)))
        invariant n >= 0 && items == Evicted(entered, n) && |items| == |entered| - n
        invariant n > 0 ==> |items| >= maxSize
        decreases |items|
      {
        EvictedSize(entered, n);
        EvictionSparesPending(items);
        EvictLRU();
        n := n + 1;
      }
    }
  }

  lemma SettledFront(items: seq<Item>, i: nat, x: Item)
    requires i < |items|
    ensures ToFront(items[i := x], i) == [x] + RemoveAt(items, i)
  {
  }

  lemma LinkOf(order: seq<Entry>, i: nat)
    requires Chained(order) && i < |order|
    ensures order[i].prev == (if i == 0 then null else order[i - 1])
  {
    assert Link(order, i);
  }

  lemma Bypassed(order: seq<Entry>, i: nat)
    requires i < |order| && forall j | 0 <= j < |order| && j != i :: Around(order, i, j)
    ensures Chained(RemoveAt(order, i))
  {
    var rest := RemoveAt(order, i);
    forall k | 0 <= k < |rest|
      ensures Link(rest, k)
    {
      assert Around(order, i, if k < i then k else k + 1);
    }
  }

  lemma DistinctWithout(order: seq<Entry>, i: nat)
    requires Distinct(order) && i < |order|
    ensures Distinct(RemoveAt(order, i))
  {
    var rest := RemoveAt(order, i);
    assert forall k | 0 <= k < |rest| :: rest[k] == order[if k < i then k else k + 1];
  }

  lemma PrefixSet(order: seq<Entry>, was: seq<Entry>)
    requires order <= was
    ensures SetOf(order) <= SetOf(was)
  {
  }

  lemma FirstSet(e: Entry, order: seq<Entry>)
    ensures SetOf([e] + order) == {e} + SetOf(order)
  {
  }

  lemma ContentOf(order: seq<Entry>, items: seq<Item>, i: nat)
    requires Contains(order, items) && i < |order|
    ensures i < |items| && items[i] == ItemOf(order[i])
  {
  }

  lemma ContainsInsert(order: seq<Entry>, items: seq<Item>, e: Entry)
    requires Contains(order, items)
    ensures Contains([e] + order, [ItemOf(e)] + items)
  {
  }

  /* ----- the list, the map and the contents ----- */

  lemma FirstIsHead(order: seq<Entry>, items: seq<Item>, i: nat)
    requires Distinct(order) && i < |order| == |items| && order[0] == order[i]
    ensures i == 0 && ToFront(order, i) == order && ToFront(items, i) == items
  {
    assert order == [order[0]] + order[1..];
    assert items == [items[0]] + items[1..];
  }

  lemma NotIn(order: seq<Entry>, i: nat)
    requires Distinct(order) && i < |order|
    ensures order[i] !in RemoveAt(order, i) && forall x <- RemoveAt(order, i) :: x in order
  {
  }

  lemma ContainsWithout(order: seq<Entry>, items: seq<Item>, i: nat)
    requires i < |order| && Contains(order, items)
    ensures Contains(RemoveAt(order, i), RemoveAt(items, i))
  {
  }

  lemma ContainsToFront(order: seq<Entry>, items: seq<Item>, i: nat)
    requires i < |order| && Contains(order, items)
    ensures ToFront(order, i) == [order[i]] + RemoveAt(order, i) && Contains(ToFront(order, i), ToFront(items, i))
  {
  }

  lemma MappedWithout(entries: map<Key, Entry>, order: seq<Entry>, i: nat)
    requires Mapped(entries, order) && Distinct(order) && i < |order|
    ensures Mapped(entries - {order[i].key}, RemoveAt(order, i))
  {
    var rest, left := RemoveAt(order, i), entries - {order[i].key};
    forall k | 0 <= k < |rest|
      ensures rest[k].key in left && left[rest[k].key] == rest[k]
    {
      var j := if k < i then k else k + 1;
      assert rest[k] == order[j];
    }
    forall k <- left
      ensures left[k] in rest && left[k].key == k
    {
      var j :| 0 <= j < |order| && order[j] == entries[k];
      assert j != i;
      assert rest[if j < i then j else j - 1] == order[j];
    }
  }

  lemma MappedToFront(entries: map<Key, Entry>, order: seq<Entry>, i: nat)
    requires Mapped(entries, order) && i < |order|
    ensures Mapped(entries, ToFront(order, i)) && SetOf(ToFront(order, i)) == SetOf(order)
  {
    var r := ToFront(order, i);
    assert forall e :: e in r <==> e in order;
    forall k | 0 <= k < |r|
      ensures r[k].key in entries && entries[r[k].key] == r[k]
    {
      assert r[k] in order;
    }
  }

  lemma MappedInsert(entries: map<Key, Entry>, order: seq<Entry>, e: Entry)
    requires Mapped(entries, order) && e.key !in entries
    ensures Mapped(entries[e.key := e], [e] + order) && e !in order
  {
    var all := [e] + order;
    assert forall k | 0 < k < |all| :: all[k] == order[k - 1];
  }

  /** The map finds what a search through the list finds. */
  lemma MapFinds(entries: map<Key, Entry>, order: seq<Entry>, items: seq<Item>, key: Key)
    requires Mapped(entries, order) && Contains(order, items)
    ensures var i := Find(items, key);
            if key in entries then i < |order| && order[i] == entries[key] else i == |order|
  {
    var i := Find(items, key);
    if key in entries {
      var j :| 0 <= j < |order| && order[j] == entries[key];
      assert items[j].key == key;
      assert items[i].key == order[i].key;
    }
  }
}
