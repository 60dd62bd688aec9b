/** The min-heap of open holds by deadline (internal/engine/accounts.go, expiryHeap), driven by
  * the sift-up and sift-down of Go's container/heap.  Entries know their own position. */
module ExpiryHeaps {
  import opened Core

  /** One open hold.  The deadline never changes; the transfer does, when part of it is posted. */
  class PendingEntry {
    var transfer: Transfer
    const expires: I64
    var heapIdx: int

    constructor (t: Transfer, expires: I64)
      ensures transfer == t && this.expires == expires && heapIdx == 0
    {
      this.transfer := t;
      this.expires := expires;
      this.heapIdx := 0;
    }
  }

  function Parent(i: nat): nat
    requires i > 0
    ensures Parent(i) < i
  {
    (i - 1) / 2
  }

  /** Among the first `n` items no entry is due before its parent. */
  predicate Ordered(items: seq<PendingEntry>, n: nat)
    requires n <= |items|
  {
    forall i | 0 < i < n :: items[Parent(i)].expires <= items[i].expires
  }

  /** Ordered but for item `hole` and its parent, around which the order still holds. */
  predicate OrderedAbove(items: seq<PendingEntry>, n: nat, hole: nat)
    requires n <= |items|
  {
    && (forall i | 0 < i < n && i != hole :: items[Parent(i)].expires <= items[i].expires)
    && (forall i | 0 < i < n && Parent(i) == hole && 0 < hole :: items[Parent(hole)].expires <= items[i].expires)
  }

  /** Ordered but for item `hole` and its neighbours, around which the order still holds. */
  predicate OrderedAround(items: seq<PendingEntry>, n: nat, hole: nat)
    requires n <= |items|
  {
    && (forall i | 0 < i < n && i != hole && Parent(i) != hole :: items[Parent(i)].expires <= items[i].expires)
    && (forall i | 0 < i < n && Parent(i) == hole && 0 < hole :: items[Parent(hole)].expires <= items[i].expires)
  }

  /** The same entries, in any order. */
  ghost predicate SameEntries(items: seq<PendingEntry>, items': seq<PendingEntry>) {
    |items| == |items'| && Entries(items) == Entries(items')
  }

  predicate SameFrom(items: seq<PendingEntry>, items': seq<PendingEntry>, n: nat) {
    |items| == |items'| && forall i | n <= i < |items| :: items'[i] == items[i]
  }

  function Entries(items: seq<PendingEntry>): set<PendingEntry> {
    set e | e in items
  }

  /** The root of an ordered heap is due first. */
  lemma {:induction false} RootIsMinimal(items: seq<PendingEntry>, n: nat, i: nat)
    requires i < n <= |items| && Ordered(items, n)
    ensures items[0].expires <= items[i].expires
  {
    if i > 0 { RootIsMinimal(items, n, Parent(i)); }
  }

  function Swapped(items: seq<PendingEntry>, i: nat, j: nat): seq<PendingEntry>
    requires i < |items| && j < |items|
  {
    items[i := items[j]][j := items[i]]
  }

  lemma SiftUpStep(items: seq<PendingEntry>, n: nat, j: nat)
    requires 0 < j < n <= |items| && OrderedAbove(items, n, j)
    requires items[j].expires < items[Parent(j)].expires
    ensures OrderedAbove(Swapped(items, Parent(j), j), n, Parent(j))
  {
    var i := Parent(j);
    var after := Swapped(items, i, j);
    forall k | 0 < k < n && k != i
      ensures after[Parent(k)].expires <= after[k].expires
    {
      if k != j && Parent(k) != i && Parent(k) != j { assert items[Parent(k)].expires <= items[k].expires; }
    }
  }

  /** Exchanging an item with the last one disturbs the order only around it. */
  lemma SwapOut(items: seq<PendingEntry>, at: nat)
    requires at < |items| && Ordered(items, |items|)
    ensures OrderedAround(Swapped(items, at, |items| - 1), |items| - 1, at)
  {
  }

  /** The child of item `i` that is due first. */
  function EarlierChild(items: seq<PendingEntry>, n: nat, i: nat): (j: nat)
    requires n <= |items| && 2 * i + 1 < n
    ensures i < j < n && Parent(j) == i
    ensures forall k | 0 < k < n && Parent(k) == i :: items[j].expires <= items[k].expires
  {
    var j := if 2 * i + 2 < n && items[2 * i + 2].expires < items[2 * i + 1].expires then 2 * i + 2 else 2 * i + 1;
    assert forall k | 0 < k < n && Parent(k) == i :: k == 2 * i + 1 || k == 2 * i + 2;
    j
  }

  lemma SiftDownDone(items: seq<PendingEntry>, n: nat, i: nat)
    requires i < n <= |items| && OrderedAround(items, n, i)
    requires 2 * i + 1 >= n || items[EarlierChild(items, n, i)].expires >= items[i].expires
    ensures OrderedAbove(items, n, i)
    ensures i > 0 && items[Parent(i)].expires <= items[i].expires ==> Ordered(items, n)
  {
  }

  lemma SiftDownStep(items: seq<PendingEntry>, n: nat, i: nat, j: nat)
    requires i < j < n <= |items| && Parent(j) == i && OrderedAround(items, n, i)
    requires items[j].expires < items[i].expires
    requires forall k | 0 < k < n && Parent(k) == i :: items[j].expires <= items[k].expires
    ensures OrderedAround(Swapped(items, i, j), n, j)
    ensures Swapped(items, i, j)[i].expires <= Swapped(items, i, j)[j].expires
  {
  }

  lemma SwapKeepsEntries(items: seq<PendingEntry>, i: nat, j: nat)
    requires i < |items| && j < |items|
    ensures SameEntries(items, Swapped(items, i, j))
  {
    var after := Swapped(items, i, j);
    forall e | e in items
      ensures e in after
    {
      var k :| 0 <= k < |items| && items[k] == e;
      assert after[if k == i then j else if k == j then i else k] == e;
    }
  }

  class ExpiryHeap {
    var items: seq<PendingEntry>

    /** Every entry knows where it is; so no entry is there twice. */
    ghost predicate Linked()
      reads this, Entries(items)`heapIdx
    {
      forall i | 0 <= i < |items| :: items[i].heapIdx == i
    }

    ghost predicate Valid()
      reads this, Entries(items)`heapIdx
    {
      Linked() && Ordered(items, |items|)
    }

    constructor ()
      ensures Valid() && items == []
    {
      items := [];
    }

    method Swap(i: nat, j: nat)
      requires Linked() && i < |items| && j < |items|
      modifies this, {items[i], items[j]}`heapIdx
      ensures Linked() && items == Swapped(old(items), i, j)
    {
      items := items[i := items[j]][j := items[i]];
      items[i].heapIdx := i;
      items[j].heapIdx := j;
    }

    /** Sift up within the first `n` items; entries beyond stay where they are. */
    method Up(start: nat, ghost n: nat)
      requires Linked() && start < n <= |items| && OrderedAbove(items, n, start)
      modifies this, Entries(items)`heapIdx
      ensures Linked() && SameEntries(old(items), items) && SameFrom(old(items), items, n)
      ensures Ordered(items, n)
    {
      var j: nat := start;
      while j > 0 && items[j].expires < items[(j - 1) / 2].expires
        invariant Linked() && j < n <= |items| && SameEntries(old(items), items) && SameFrom(old(items), items, n)
        invariant OrderedAbove(items, n, j)
      {
        var i := (j - 1) / 2;
        SiftUpStep(items, n, j);
        SwapKeepsEntries(items, i, j);
        Swap(i, j);
        j := i;
      }
    }

    /** Sift down within the first `n` items; entries beyond stay where they are. */
    method Down(start: nat, n: nat) returns (moved: bool)
      requires Linked() && start < n <= |items| && OrderedAround(items, n, start)
      modifies this, Entries(items)`heapIdx
      ensures Linked() && SameEntries(old(items), items) && SameFrom(old(items), items, n)
      ensures if moved then Ordered(items, n) else OrderedAbove(items, n, start)
    {
      hide Linked, OrderedAround, OrderedAbove, Ordered;
      var i: nat := start;
      while true
        invariant Linked() && start <= i < n <= |items| && SameEntries(old(items), items)
        invariant SameFrom(old(items), items, n)
        invariant OrderedAround(items, n, i)
        invariant i > start ==> items[Parent(i)].expires <= items[i].expires
        decreases n - i
      {
        if 2 * i + 1 >= n { break; }
        var j := EarlierChild(items, n, i);
        if items[j].expires >= items[i].expires { break; }
        SiftDownStep(items, n, i, j);
        SwapKeepsEntries(items, i, j);
        Swap(i, j);
        i := j;
      }
      SiftDownDone(items, n, i);
      moved := i > start;
    }

    /** heap.Push. */
    method Push(e: PendingEntry)
      requires Valid() && e !in items
      modifies this, e`heapIdx, Entries(items)`heapIdx
      ensures Valid() && |items| == |old(items)| + 1
      ensures Entries(items) == Entries(old(items)) + {e}
    {
      e.heapIdx := |items|;
      items := items + [e];
      Up(|items| - 1, |items|);
    }

    /** Push an entry if it has a timeout. */
    method Schedule(e: PendingEntry)
      requires Valid() && e !in items
      modifies this, e`heapIdx, Entries(items)`heapIdx
      ensures Valid()
      ensures Entries(items) == Entries(old(items)) + (if e.transfer.timeout > 0 then {e} else {})
    {
      if e.transfer.timeout > 0 {
        Push(e);
      }
    }

    /** heap.Pop: the entry that is due first leaves. */
    method Pop() returns (e: PendingEntry)
      requires Valid() && items != []
      modifies this, Entries(items)`heapIdx
      ensures Valid() && e == old(items[0]) && |items| == |old(items)| - 1
      ensures Entries(items) == Entries(old(items)) - {e}
    {
      var n := |items| - 1;
      SwapKeepsEntries(items, 0, n);
      SwapOut(items, 0);
      Swap(0, n);
      if n > 0 {
        var _ := Down(0, n);
      }
      e := DropLast();
    }

    /** heap.Remove. */
    method Remove(at: nat) returns (e: PendingEntry)
      requires Valid() && at < |items|
      modifies this, Entries(items)`heapIdx
      ensures Valid() && e == old(items[at]) && |items| == |old(items)| - 1
      ensures Entries(items) == Entries(old(items)) - {e}
    {
      var n := |items| - 1;
      if n != at {
        SwapKeepsEntries(items, at, n);
        SwapOut(items, at);
        Swap(at, n);
        var moved := Down(at, n);
        if !moved {
          Up(at, n);
        }
      }
      e := DropLast();
    }

    /** Take an entry out if it is in the heap, as its own position tells. */
    method Discard(e: PendingEntry)
      requires Valid()
      modifies this, Entries(items)`heapIdx
      ensures Valid() && Entries(items) == Entries(old(items)) - {e}
    {
      if 0 <= e.heapIdx < |items| && items[e.heapIdx] == e {
        var _ := Remove(e.heapIdx);
      }
    }

    /** The Pop method of the heap interface: the last item leaves. */
    method DropLast() returns (e: PendingEntry)
      requires Linked() && items != [] && Ordered(items, |items| - 1)
      modifies this
      ensures Valid() && e == old(items[|items| - 1]) && items == old(items[..|items| - 1])
      ensures Entries(items) == Entries(old(items)) - {e}
    {
      e := items[|items| - 1];
      assert forall i | 0 <= i < |items| - 1 :: items[i] != e;
      items := items[..|items| - 1];
    }
  }
}
