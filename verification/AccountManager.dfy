/** The AccountManager object (internal/engine/accounts.go): an account slice with an index, a map
  * of open holds, the expiry heap, the transfer index and the account histories, all updated in
  * place.  Every method is proved against the functions of modules Engine, Expiry and Machine. */
module Manager {
  import opened Core
  import opened Engine
  import opened Holds
  import opened Expiry
  import opened Deadlines
  import opened Machine
  import opened ExpiryHeaps

  /** The deadline stored with a hold; 0 when it never expires. */
  function StoredDeadline(t: Transfer): I64 {
    if t.timeout > 0 then Deadline(t) else 0
  }

  lemma DeadlineIgnoresAmount(t: Transfer, amount: U128)
    ensures StoredDeadline(t.(amount := amount)) == StoredDeadline(t)
  {
  }

  /** The heap entries that are due at a clock. */
  ghost function Due(entries: set<PendingEntry>, clock: int): set<PendingEntry> {
    set e | e in entries && e.expires <= clock
  }

  /** The ids of the holds of these entries. */
  ghost function IdsOf(es: seq<PendingEntry>): set<Id>
    reads Entries(es)`transfer
  {
    set e | e in es :: e.transfer.id
  }

  /** The accounts after the entries gave back their reserves, in order; errors are only counted. */
  ghost function ReleaseAll(accounts: map<Id, Account>, es: seq<PendingEntry>): map<Id, Account>
    reads Entries(es)`transfer
  {
    if es == [] then accounts
    else Engine.ReleasePending(ReleaseAll(accounts, es[..|es| - 1]), es[|es| - 1].transfer).accounts
  }

  lemma RootIsEntry(items: seq<PendingEntry>)
    requires items != []
    ensures items[0] in Entries(items)
  {
  }

  lemma NothingGone(accounts: map<Id, Account>, holds: map<Id, Transfer>)
    ensures ReleaseAll(accounts, []) == accounts && IdsOf([]) == {} && holds - {} == holds && Entries([]) == {}
    ensures Holders(holds, [])
  {
  }

  lemma OneGone(accounts: map<Id, Account>, es: seq<PendingEntry>, e: PendingEntry)
    ensures ReleaseAll(accounts, es + [e]) == Engine.ReleasePending(ReleaseAll(accounts, es), e.transfer).accounts
    ensures IdsOf(es + [e]) == IdsOf(es) + {e.transfer.id} && Entries(es + [e]) == Entries(es) + {e}
  {
    assert (es + [e])[..|es|] == es;
  }

  lemma OneLess(holds: map<Id, Transfer>, ids: set<Id>, id: Id)
    ensures holds - ids - {id} == holds - (ids + {id})
  {
  }

  /** The entry holds the open hold of its id, with that hold's deadline. */
  ghost predicate OpenHold(holds: map<Id, Transfer>, e: PendingEntry)
    reads e`transfer
  {
    && e.transfer.id in holds && holds[e.transfer.id] == e.transfer
    && e.transfer.timeout > 0 && e.expires == Deadline(e.transfer)
  }

  /** Each entry holds the open hold of its id, and no two the same. */
  ghost predicate Holders(holds: map<Id, Transfer>, es: seq<PendingEntry>)
    reads Entries(es)`transfer
  {
    && (forall i | 0 <= i < |es| :: OpenHold(holds, es[i]))
    && (forall i, j | 0 <= i < j < |es| :: es[i].transfer.id != es[j].transfer.id)
  }

  lemma OneMoreHolder(holds: map<Id, Transfer>, es: seq<PendingEntry>, e: PendingEntry)
    requires Holders(holds, es) && OpenHold(holds - IdsOf(es), e)
    ensures Holders(holds, es + [e])
  {
    assert forall i | 0 <= i < |es| :: es[i].transfer.id in IdsOf(es);
  }

  /** Entries of expired holds, with no expired hold left, are those of all expired holds. */
  lemma HoldersExpired(holds: map<Id, Transfer>, es: seq<PendingEntry>, clock: int)
    requires Holders(holds, es) && (forall e <- Entries(es) :: e.expires <= clock)
             && ExpiredIds(holds - IdsOf(es), clock) == {}
    ensures IdsOf(es) == ExpiredIds(holds, clock)
  {
    assert ExpiredIds(holds - IdsOf(es), clock) == ExpiredIds(holds, clock) - IdsOf(es);
    forall e | e in es
      ensures e.transfer.id in ExpiredIds(holds, clock)
    {
      assert e in Entries(es);
    }
    var all, ids := ExpiredIds(holds, clock), IdsOf(es);
    forall k | k in all
      ensures k in ids
    {
      assert k in ids || k in all - ids;
    }
  }

  /** In sound books releasing holds one by one gives back exactly their reserves. */
  lemma {:induction false} HoldersDrop(b: Books, es: seq<PendingEntry>)
    requires Sound(b) && Holders(b.holds, es)
    ensures Books(ReleaseAll(b.accounts, es), b.holds - IdsOf(es)) == Drop(b, IdsOf(es))
  {
    hide Sound, Drop, Engine.ReleasePending;
    if es == [] {
      NothingGone(b.accounts, b.holds);
      DropNothing(b);
    } else {
      var n := |es| - 1;
      var e := es[n];
      HoldersDrop(b, es[..n]);
      assert es == es[..n] + [e];
      OneGone(b.accounts, es[..n], e);
      assert e.transfer.id !in IdsOf(es[..n]);
      DropOneMore(b, IdsOf(es[..n]), e.transfer.id);
    }
  }

  class AccountManager {
    var accounts: seq<Account>
    var index: map<Id, nat>
    var clock: I64
    var pending: map<Id, PendingEntry>
    const expiry: ExpiryHeap
    var transfers: map<Id, Transfer>
    var history: map<Id, seq<Id>>

    /** The open holds by id, and the entries this object refers to. */
    ghost var holds: map<Id, Transfer>
    ghost var owned: set<PendingEntry>

    /** The index finds every account, and only accounts, by id. */
    ghost predicate Indexes()
      reads this`accounts, this`index
    {
      && (forall k <- index :: index[k] < |accounts| && accounts[index[k]].id == k)
      && (forall i | 0 <= i < |accounts| :: accounts[i].id in index && index[accounts[i].id] == i)
    }

    /** An entry in the map: stored under its transfer's id, with that transfer's deadline, and in
      * the heap when it can expire. */
    ghost predicate Filed(k: Id)
      requires k in pending
      reads this`pending, this`holds, this`owned, expiry, pending[k]
    {
      var e := pending[k];
      && k in holds && e.transfer == holds[k] && holds[k].id == k
      && e in owned
      && e.expires == StoredDeadline(holds[k])
      && (holds[k].timeout > 0 ==> e in Entries(expiry.items))
    }

    /** Index, map and heap are each well formed, and every hold that can expire is in the heap. */
    ghost predicate Formed()
      reads this`accounts, this`index, this`pending, this`holds, this`owned, expiry, owned
    {
      && Indexes()
      && Entries(expiry.items) <= owned && expiry.Valid()
      && pending.Keys == holds.Keys
      && (forall k <- pending :: pending[k] in owned && Filed(k))
    }

    /** Every heap entry is the open hold with its id. */
    ghost predicate Agrees()
      requires Entries(expiry.items) <= owned
      reads this`pending, this`owned, expiry, owned
    {
      forall e <- Entries(expiry.items) ::
        e.transfer.timeout > 0 && e.transfer.id in pending && pending[e.transfer.id] == e
    }

    ghost predicate Valid()
      reads this`accounts, this`index, this`pending, this`holds, this`owned, expiry, owned
    {
      Formed() && Agrees()
    }

    function AccountMap(): map<Id, Account>
      requires Indexes()
      reads this`accounts, this`index
    {
      map k | k in index :: accounts[index[k]]
    }

    ghost function Content(): Books
      requires Indexes()
      reads this`accounts, this`index, this`holds
    {
      Books(AccountMap(), holds)
    }

    ghost function Value(): State
      requires Indexes()
      reads this
    {
      State(Content(), clock, transfers, history)
    }

    constructor ()
      ensures Valid() && Value() == EMPTY && fresh(expiry) && owned == {}
    {
      accounts, index, clock := [], map[], 0;
      pending, transfers, history := map[], map[], map[];
      holds, owned := map[], {};
      expiry := new ExpiryHeap();
    }

    /* ----- accounts ----- */

    /** Write an account back through its index: what the source does by reference. */
    method Put(acc: Account)
      requires Indexes() && acc.id in index
      modifies this`accounts
      ensures Indexes() && AccountMap() == old(AccountMap())[acc.id := acc]
    {
      accounts := accounts[index[acc.id] := acc];
    }

    /** Get. */
    function Get(id: Id): (r: Result<Account>)
      requires Indexes()
      reads this`accounts, this`index
      ensures r == if id in AccountMap() then Ok(AccountMap()[id]) else Err(AccountNotFound(id))
      ensures r.Ok? ==> r.value.id == id && id in index
    {
      if id in index then Ok(accounts[index[id]]) else Err(AccountNotFound(id))
    }

    method Create(acc: Account) returns (err: Option<Error>)
      requires Indexes()
      modifies this`accounts, this`index
      ensures Indexes()
      ensures err == if acc.id in old(AccountMap()) then Some(DuplicateAccountID(acc.id)) else None
      ensures AccountMap() == Expiry.Create(Books(old(AccountMap()), map[]), acc).accounts
      ensures err.None? ==> accounts == old(accounts) + [acc]
    {
      if acc.id in index { return Some(DuplicateAccountID(acc.id)); }
      accounts := accounts + [acc];
      index := index[acc.id := |accounts| - 1];
      return None;
    }

    method ReleasePending(t: Transfer) returns (err: Option<Error>)
      requires Indexes()
      modifies this`accounts
      ensures Indexes()
      ensures Posting(AccountMap(), err) == Engine.ReleasePending(old(AccountMap()), t)
    {
      hide Indexes, AccountMap, Get;
      var debit := Get(t.debit);
      if debit.Err? { return Some(debit.error); }
      var d := debit.value;
      if d.pendingDebits < t.amount { return Some(InvariantViolation(d.id)); }
      Put(d.(pendingDebits := d.pendingDebits - t.amount));
      var credit := Get(t.credit);
      if credit.Err? { return Some(credit.error); }
      var c := credit.value;
      if c.pendingCredits < t.amount { return Some(InvariantViolation(c.id)); }
      Put(c.(pendingCredits := c.pendingCredits - t.amount));
      return None;
    }

    method MovePending(p: Transfer, amount: U128) returns (err: Option<Error>)
      requires Indexes()
      modifies this`accounts
      ensures Indexes()
      ensures Posting(AccountMap(), err) == Engine.MovePending(old(AccountMap()), p, amount)
    {
      hide Indexes, AccountMap, Get;
      var debit := Get(p.debit);
      if debit.Err? { return Some(debit.error); }
      var d := debit.value;
      if d.pendingDebits < amount { return Some(InvariantViolation(d.id)); }
      if d.postedDebits + amount >= TWO_128 { return Some(BalanceOverflow(d.id)); }
      Put(d.(pendingDebits := d.pendingDebits - amount, postedDebits := d.postedDebits + amount));
      var credit := Get(p.credit);
      if credit.Err? { return Some(credit.error); }
      var c := credit.value;
      if c.pendingCredits < amount { return Some(InvariantViolation(c.id)); }
      if c.postedCredits + amount >= TWO_128 { return Some(BalanceOverflow(c.id)); }
      Put(c.(pendingCredits := c.pendingCredits - amount, postedCredits := c.postedCredits + amount));
      return None;
    }

    /** applyPendingDebit then applyPendingCredit. */
    method Reserve(t: Transfer) returns (err: Option<Error>)
      requires Indexes()
      modifies this`accounts
      ensures Indexes()
      ensures Posting(AccountMap(), err) == Engine.Reserve(old(AccountMap()), t)
    {
      hide Indexes, AccountMap, Get;
      var debit := Get(t.debit);
      if debit.Err? { return Some(debit.error); }
      var d := debit.value;
      if d.pendingDebits + t.amount >= TWO_128 { return Some(BalanceOverflow(t.debit)); }
      Put(d.(pendingDebits := d.pendingDebits + t.amount));
      var credit := Get(t.credit);
      if credit.Err? { return Some(credit.error); }
      var c := credit.value;
      if c.pendingCredits + t.amount >= TWO_128 { return Some(BalanceOverflow(t.credit)); }
      Put(c.(pendingCredits := c.pendingCredits + t.amount));
      return None;
    }

    /** ApplyDebit then ApplyCredit. */
    method PostImmediate(t: Transfer) returns (err: Option<Error>)
      requires Indexes()
      modifies this`accounts
      ensures Indexes()
      ensures Posting(AccountMap(), err) == Engine.PostImmediate(old(AccountMap()), t)
    {
      hide Indexes, AccountMap, Get;
      var debit := Get(t.debit);
      if debit.Err? { return Some(debit.error); }
      var d := debit.value;
      if d.postedDebits + t.amount >= TWO_128 { return Some(BalanceOverflow(t.debit)); }
      d := d.(postedDebits := d.postedDebits + t.amount);
      Put(d);
      if Balance(d).Err? { return Some(Balance(d).error); }
      var credit := Get(t.credit);
      if credit.Err? { return Some(credit.error); }
      var c := credit.value;
      if c.postedCredits + t.amount >= TWO_128 { return Some(BalanceOverflow(t.credit)); }
      Put(c.(postedCredits := c.postedCredits + t.amount));
      return None;
    }

    /* ----- open holds ----- */

    /** removePending: the hold leaves the map, and the heap if it is there. */
    method RemovePending(id: Id)
      requires Formed()
      modifies this`pending, this`holds, expiry, owned`heapIdx
      ensures Formed() && (old(Agrees()) ==> Agrees()) && holds == old(holds) - {id}
    {
      hide Entries, ExpiryHeap.Valid, Indexes, StoredDeadline;
      if id in pending {
        var e := pending[id];
        assert Filed(id);
        assert forall k | k in pending && k != id :: Filed(k) && pending[k] != e;
        expiry.Discard(e);
        pending := pending - {id};
        holds := holds - {id};
      }
    }

    /** File a new entry, in the heap if it has a timeout. */
    method File(e: PendingEntry)
      requires Formed() && e !in owned && e.expires == StoredDeadline(e.transfer)
      modifies this`pending, this`holds, this`owned, expiry, owned`heapIdx, e`heapIdx
      ensures Formed() && holds == old(holds)[e.transfer.id := e.transfer] && owned == old(owned) + {e}
      ensures pending == old(pending)[e.transfer.id := e]
      ensures Entries(expiry.items) == old(Entries(expiry.items)) + (if e.transfer.timeout > 0 then {e} else {})
    {
      hide ExpiryHeap.Valid, Indexes, StoredDeadline, Entries, Agrees;
      assert e !in expiry.items by { NotOwnedNotQueued(e); }
      expiry.Schedule(e);
      pending := pending[e.transfer.id := e];
      holds := holds[e.transfer.id := e.transfer];
      owned := owned + {e};
    }

    /** After filing, heap and map agree exactly when no expiring hold was replaced. */
    twostate lemma AgreesUnlessReplaced(e: PendingEntry)
      requires old(Valid()) && Formed() && e !in old(owned)
      requires pending == old(pending)[e.transfer.id := e]
      requires Entries(expiry.items) == old(Entries(expiry.items)) + (if e.transfer.timeout > 0 then {e} else {})
      requires forall x <- old(owned) :: x.transfer == old(x.transfer)
      ensures Agrees() <==> !(e.transfer.id in old(holds) && old(holds)[e.transfer.id].timeout > 0)
    {
      hide ExpiryHeap.Valid, Indexes, StoredDeadline, Entries;
      var id := e.transfer.id;
      if id in old(holds) && old(holds)[id].timeout > 0 {
        assert old(Filed(id));
        assert old(pending)[id] in Entries(expiry.items);
      }
    }

    lemma NotOwnedNotQueued(e: PendingEntry)
      requires Entries(expiry.items) <= owned && e !in owned
      ensures e !in expiry.items
    {
      assert e in expiry.items <==> e in Entries(expiry.items);
    }

    /** The common end of reservePending and RestorePending. */
    method AddPending(t: Transfer)
      requires Formed()
      modifies this`pending, this`holds, this`owned, expiry, owned`heapIdx
      ensures Formed() && holds == old(holds)[t.id := t] && fresh(owned - old(owned)) && old(owned) <= owned
      ensures old(Agrees()) ==> (Agrees() <==> !(t.id in old(holds) && old(holds)[t.id].timeout > 0))
    {
      hide ExpiryHeap.Valid, Indexes, Filed, Agrees, Entries;
      var e := new PendingEntry(t, StoredDeadline(t));
      label created:
      assert e !in owned;
      File(e);
      if old@created(Agrees()) { AgreesUnlessReplaced@created(e); }
    }

    /** The entry `e` is out of the heap and whatever has its id out of the map; all else is as before. */
    twostate predicate Popped(e: PendingEntry)
      reads this, expiry, owned, e, Entries(expiry.items)
    {
      && accounts == old(accounts) && index == old(index) && owned == old(owned)
      && (forall x <- owned :: x.transfer == old(x.transfer))
      && expiry.Valid() && Entries(expiry.items) == old(Entries(expiry.items)) - {e}
      && pending == old(pending) - {e.transfer.id} && holds == old(holds) - {e.transfer.id}
    }

    twostate lemma PoppedFormed(e: PendingEntry)
      requires old(Formed()) && e in owned && Popped(e)
      ensures Formed()
    {
      hide ExpiryHeap.Valid, Indexes, StoredDeadline, Entries;
      forall k | k in pending
        ensures pending[k] in owned && Filed(k)
      {
        assert old(Filed(k));
      }
    }

    twostate lemma PoppedAgrees(e: PendingEntry)
      requires old(Formed()) && old(Agrees()) && e in old(Entries(expiry.items)) && e in owned && Popped(e)
      ensures Entries(expiry.items) <= owned && Agrees() && OpenHold(old(holds), e)
    {
      hide ExpiryHeap.Valid, Indexes, Entries, Deadline;
      assert old(Filed(e.transfer.id));
      forall x | x in Entries(expiry.items)
        ensures x.transfer.timeout > 0 && x.transfer.id in pending && pending[x.transfer.id] == x
      {
        assert x in old(Entries(expiry.items));
      }
    }

    /** Take the hold that is due first out of the heap, and whatever has its id out of the map. */
    method PopPending() returns (e: PendingEntry)
      requires Formed() && expiry.items != []
      modifies this`pending, this`holds, expiry, owned`heapIdx
      ensures Formed() && e == old(expiry.items[0]) && e in owned && e in old(Entries(expiry.items))
      ensures |expiry.items| < old(|expiry.items|) && Entries(expiry.items) == old(Entries(expiry.items)) - {e}
      ensures holds == old(holds) - {e.transfer.id}
      ensures old(Agrees()) ==> Agrees() && OpenHold(old(holds), e)
    {
      hide ExpiryHeap.Valid, Indexes, Entries, Filed, Agrees, OpenHold;
      RootIsEntry(expiry.items);
      e := expiry.Pop();
      pending := pending - {e.transfer.id};
      holds := holds - {e.transfer.id};
      PoppedFormed(e);
      if old(Agrees()) { PoppedAgrees(e); }
    }

    /** When the hold due first is not due yet, none is. */
    lemma NoneDue()
      requires Valid()
      requires expiry.items == [] || expiry.items[0].expires > clock
      ensures ExpiredIds(holds, clock) == {}
    {
      forall k | k in holds
        ensures !Expired(holds[k], clock)
      {
        assert Filed(k);
        if holds[k].timeout > 0 {
          var i :| 0 <= i < |expiry.items| && expiry.items[i] == pending[k];
          RootIsMinimal(expiry.items, |expiry.items|, i);
        }
      }
    }

    /** When the entry due first is not due yet, no entry is. */
    lemma NoEntryDue(e: PendingEntry)
      requires Formed() && e in Entries(expiry.items) && (expiry.items == [] || expiry.items[0].expires > clock)
      ensures e.expires > clock
    {
      var i :| 0 <= i < |expiry.items| && expiry.items[i] == e;
      RootIsMinimal(expiry.items, |expiry.items|, i);
    }

    /** CloseExpired.  It pops the due entries one by one; each gives back its reserve and deletes
      * whatever hold has its id.  While heap and map agree these are exactly the expired holds,
      * and in sound books exactly their reserves are given back. */
    method CloseExpired() returns (ghost gone: seq<PendingEntry>)
      requires Formed()
      modifies this`accounts, this`pending, this`holds, expiry, owned`heapIdx
      ensures Formed() && Entries(gone) <= owned
      ensures Entries(gone) == Due(old(Entries(expiry.items)), clock)
      ensures Entries(expiry.items) == old(Entries(expiry.items)) - Entries(gone)
      ensures AccountMap() == ReleaseAll(old(AccountMap()), gone) && holds == old(holds) - IdsOf(gone)
      ensures old(Valid()) ==> Valid() && holds == old(holds) - ExpiredIds(old(holds), clock)
      ensures old(Valid()) ==> forall k <- old(holds) :: k in holds <==> Running(old(holds)[k], clock)
      ensures old(Valid()) && old(Sound(Content())) ==> Content() == CloseAt(old(Content()), clock)
    {
      hide Sound, Drop, Indexes, Filed, Agrees, AccountMap, ExpiryHeap.Valid, Entries, ReleaseAll, IdsOf, Holders,
        ExpiredIds;
      ghost var b := Content();
      gone := CloseDue();
      forall e | e in Due(old(Entries(expiry.items)), clock)
        ensures e in Entries(gone)
      {
        if e in Entries(expiry.items) { NoEntryDue(e); }
      }
      if old(Valid()) {
        NoneDue();
        HoldersExpired(b.holds, gone, clock);
        if Sound(b) { HoldersDrop(b, gone); }
        RunningOnes(b.holds, clock);
      }
    }

    /** One turn of the loop: pop, delete, release. */
    method CloseFirst() returns (ghost e: PendingEntry)
      requires Formed() && expiry.items != []
      modifies this`accounts, this`pending, this`holds, expiry, owned`heapIdx
      ensures Formed() && e == old(expiry.items[0]) && e in owned && e in old(Entries(expiry.items))
      ensures |expiry.items| < old(|expiry.items|) && Entries(expiry.items) == old(Entries(expiry.items)) - {e}
      ensures holds == old(holds) - {e.transfer.id}
      ensures AccountMap() == Engine.ReleasePending(old(AccountMap()), e.transfer).accounts
      ensures old(Agrees()) ==> Agrees() && OpenHold(old(holds), e)
    {
      hide Indexes, Filed, Agrees, AccountMap, ExpiryHeap.Valid, Entries, OpenHold, Engine.ReleasePending;
      var top := PopPending();
      e := top;
      var _ := ReleasePending(top.transfer);
    }

    /** The loop until the entry due first is not due. */
    method CloseDue() returns (ghost gone: seq<PendingEntry>)
      requires Formed()
      modifies this`accounts, this`pending, this`holds, expiry, owned`heapIdx
      ensures Formed() && Entries(gone) <= owned && Entries(gone) <= Due(old(Entries(expiry.items)), clock)
      ensures Entries(expiry.items) == old(Entries(expiry.items)) - Entries(gone)
      ensures AccountMap() == ReleaseAll(old(AccountMap()), gone) && holds == old(holds) - IdsOf(gone)
      ensures expiry.items == [] || expiry.items[0].expires > clock
      ensures old(Valid()) ==> Valid() && Holders(old(holds), gone)
    {
      hide Deadline, Indexes, Filed, Agrees, AccountMap, ExpiryHeap.Valid, Entries, ReleaseAll, IdsOf, Holders,
        OpenHold;
      ghost var valid := Valid();
      gone := [];
      NothingGone(AccountMap(), holds);
      while |expiry.items| > 0
        invariant Formed() && (valid ==> Valid())
        invariant Entries(gone) <= Due(old(Entries(expiry.items)), clock) && Entries(gone) <= owned
        invariant Entries(expiry.items) == old(Entries(expiry.items)) - Entries(gone)
        invariant AccountMap() == ReleaseAll(old(AccountMap()), gone) && holds == old(holds) - IdsOf(gone)
        invariant valid ==> Holders(old(holds), gone)
        decreases |expiry.items|
      {
        if expiry.items[0].expires > clock { break; }
        ghost var top := CloseFirst();
        OneGone(old(AccountMap()), gone, top);
        OneLess(old(holds), IdsOf(gone), top.transfer.id);
        if valid { OneMoreHolder(old(holds), gone, top); }
        gone := gone + [top];
      }
    }

    /* ----- transfers ----- */

    method CheckTransfer(t: Transfer) returns (r: Result<U128>)
      requires Formed()
      ensures r == Engine.CheckTransfer(Content(), t)
    {
      hide Indexes, Agrees, AccountMap, ExpiryHeap.Valid, Get;
      if HasUnknownFlags(t) { return Err(InvalidTransferFlags(t.flags)); }
      if (IsPost(t) && (IsPending(t) || IsVoid(t))) || (IsVoid(t) && IsPending(t)) {
        return Err(InvalidTransferFlags(t.flags));
      }
      if IsPost(t) || IsVoid(t) {
        if t.id !in pending { return Err(PendingNotFound(t.id)); }
        assert Filed(t.id);
        var p := pending[t.id].transfer;
        if t.ledger != 0 && t.ledger != p.ledger { return Err(LedgerMismatch(t.ledger, p.ledger, p.ledger)); }
        if IsPost(t) && t.amount != 0 {
          if t.amount > p.amount { return Err(OverTransfer(t.id, p.amount, t.amount)); }
          return Ok(t.amount);
        }
        return Ok(p.amount);
      }
      r := CheckOpening(t);
    }

    /** The checks on a plain or pending transfer. */
    method CheckOpening(t: Transfer) returns (r: Result<U128>)
      requires Indexes()
      ensures r == Engine.CheckOpening(Content(), t)
    {
      hide Indexes, AccountMap, Get;
      if t.amount == 0 { return Err(ZeroAmount); }
      if t.debit == t.credit { return Err(SelfTransfer(t.debit)); }
      var debit, credit := Get(t.debit), Get(t.credit);
      if debit.Err? { return Err(debit.error); }
      if credit.Err? { return Err(credit.error); }
      var d, c := debit.value, credit.value;
      if d.currency != c.currency { return Err(CurrencyMismatch(d.currency, c.currency)); }
      if d.ledger != t.ledger || c.ledger != t.ledger { return Err(LedgerMismatch(t.ledger, d.ledger, c.ledger)); }
      if IsFrozen(d) { return Err(AccountFrozen(d.id)); }
      if IsClosed(d) { return Err(AccountClosed(d.id)); }
      if IsFrozen(c) { return Err(AccountFrozen(c.id)); }
      if IsClosed(c) { return Err(AccountClosed(c.id)); }
      var balance := if IsPending(t) then AvailableBalance(d) else Balance(d);
      if balance.Err? { return Err(balance.error); }
      if balance.value < t.amount { return Err(InsufficientFunds(d.id, balance.value, t.amount)); }
      return Ok(0);
    }

    /** A partial post shrinks its hold in place; the deadline, and so the heap, is unaffected. */
    method ShrinkPending(id: Id, amount: U128)
      requires Formed() && id in holds && amount <= holds[id].amount
      modifies this`holds, owned`transfer
      ensures Formed() && (old(Agrees()) ==> Agrees())
      ensures holds == old(holds)[id := old(holds)[id].(amount := old(holds)[id].amount - amount)]
    {
      hide Indexes, ExpiryHeap.Valid, StoredDeadline, Entries;
      assert Filed(id);
      var e := pending[id];
      DeadlineIgnoresAmount(e.transfer, e.transfer.amount - amount);
      assert forall k | k in pending && k != id :: Filed(k) && pending[k] != e;
      e.transfer := e.transfer.(amount := e.transfer.amount - amount);
      holds := holds[id := e.transfer];
    }

    /** recordTransfer. */
    method RecordTransfer(t: Transfer)
      requires Indexes()
      modifies this`transfers, this`history
      ensures Value() == Recorded(old(Value()), t)
    {
      transfers := transfers[t.id := t];
      if t.debit != t.credit {
        history := history[t.debit := (if t.debit in history then history[t.debit] else []) + [t.id]];
      }
      history := history[t.credit := (if t.credit in history then history[t.credit] else []) + [t.id]];
    }

    /** ApplyTransferState.  Heap and map keep agreeing unless a hold is opened under an id in use. */
    method ApplyTransferState(t: Transfer) returns (err: Option<Error>)
      requires Formed()
      modifies this, expiry, owned
      ensures Formed() && fresh(owned - old(owned))
      ensures Applied(Value(), err) == ApplyTransfer(old(Value()), t)
      ensures old(Agrees()) && !(OpensHold(t) && t.id in old(holds)) ==> Agrees()
    {
      hide Formed, Agrees, AccountMap, PostHold, VoidHold, Engine.CheckOpening, Engine.Reserve, Engine.PostImmediate,
        Recorded;
      FormedIndexes();
      var check := CheckTransfer(t);
      if check.Err? { return Some(check.error); }
      if IsPost(t) || IsVoid(t) {
        err := ApplySettlement(t, check.value);
      } else if IsPending(t) {
        err := ApplyHold(t);
        FormedIndexes();
        if err.None? { RecordTransfer(t); }
      } else {
        err := ApplyPlain(t);
        FormedIndexes();
        if err.None? { RecordTransfer(t); }
      }
    }

    /** The branch that opens a hold. */
    method ApplyHold(t: Transfer) returns (err: Option<Error>)
      requires Formed()
      modifies this`accounts, this`pending, this`holds, this`owned, expiry, owned`heapIdx
      ensures Formed() && fresh(owned - old(owned))
      ensures Posting(AccountMap(), err) == Engine.Reserve(old(AccountMap()), t)
      ensures holds == if err.Some? then old(holds) else old(holds)[t.id := t]
      ensures old(Agrees()) && t.id !in old(holds) ==> Agrees()
    {
      hide Indexes, Filed, Agrees, AccountMap, ExpiryHeap.Valid, Entries, Engine.Reserve;
      err := Reserve(t);
      if err.None? { AddPending(t); }
    }

    /** The branch of a plain transfer. */
    method ApplyPlain(t: Transfer) returns (err: Option<Error>)
      requires Formed()
      modifies this`accounts
      ensures Formed() && (old(Agrees()) ==> Agrees())
      ensures Posting(AccountMap(), err) == Engine.PostImmediate(old(AccountMap()), t)
    {
      hide Indexes, Filed, Agrees, AccountMap, ExpiryHeap.Valid, Entries, Engine.PostImmediate;
      err := PostImmediate(t);
    }

    /** The post and void branches. */
    method ApplySettlement(t: Transfer, amount: U128) returns (err: Option<Error>)
      requires Formed() && t.id in holds && amount <= holds[t.id].amount && IsSettlement(t)
      modifies this, expiry, owned
      ensures Formed() && (old(Agrees()) ==> Agrees()) && owned == old(owned) && clock == old(clock)
      ensures var e := if IsPost(t) then PostHold(old(Content()), t.id, amount) else VoidHold(old(Content()), t.id);
              && Execution(Content(), err) == e
              && Value() == if err.Some? then old(Value()).(books := e.books)
                            else Recorded(old(Value()).(books := e.books), Filled(old(Content()), t))
    {
      hide Formed, Agrees, AccountMap, PostHold, VoidHold, Recorded;
      HoldOf(t.id);
      var p := pending[t.id].transfer;
      if IsPost(t) {
        err := ApplyPost(t.id, p, amount);
      } else {
        err := ApplyVoid(t.id, p);
      }
      if err.None? {
        FormedIndexes();
        RecordTransfer(t.(ledger := if t.ledger == 0 then p.ledger else t.ledger,
                          debit := if t.debit == ZERO_ID then p.debit else t.debit,
                          credit := if t.credit == ZERO_ID then p.credit else t.credit));
      }
    }

    lemma HoldOf(id: Id)
      requires Formed() && id in holds
      ensures id in pending && pending[id].transfer == holds[id]
    {
      hide Indexes, ExpiryHeap.Valid;
      assert Filed(id);
    }

    lemma FormedIndexes()
      requires Formed()
      ensures Indexes()
    {
    }

    method ApplyPost(id: Id, p: Transfer, amount: U128) returns (err: Option<Error>)
      requires Formed() && id in holds && holds[id] == p && amount <= p.amount
      modifies this`accounts, this`pending, this`holds, expiry, owned
      ensures Formed() && (old(Agrees()) ==> Agrees())
      ensures Execution(Content(), err) == PostHold(old(Content()), id, amount)
    {
      hide Indexes, Filed, Agrees, AccountMap, ExpiryHeap.Valid, Entries, Engine.MovePending;
      err := MovePending(p, amount);
      if err.Some? { return; }
      if p.amount == amount { RemovePending(id); } else { ShrinkPending(id, amount); }
    }

    method ApplyVoid(id: Id, p: Transfer) returns (err: Option<Error>)
      requires Formed() && id in holds && holds[id] == p
      modifies this`accounts, this`pending, this`holds, expiry, owned
      ensures Formed() && (old(Agrees()) ==> Agrees())
      ensures Execution(Content(), err) == VoidHold(old(Content()), id)
    {
      hide Indexes, Filed, Agrees, AccountMap, ExpiryHeap.Valid, Entries, Engine.ReleasePending;
      err := ReleasePending(p);
      if err.Some? { return; }
      RemovePending(id);
    }

    /** RestorePending. */
    method RestorePending(t: Transfer) returns (err: Option<Error>)
      requires Formed()
      modifies this`pending, this`holds, this`owned, expiry, owned`heapIdx
      ensures Formed() && (old(Agrees()) ==> Agrees()) && fresh(owned - old(owned))
      ensures err == if t.id in old(holds) then Some(RestoredTwice(t.id)) else None
      ensures holds == if t.id in old(holds) then old(holds) else old(holds)[t.id := t]
    {
      hide Indexes, Filed, Agrees, AccountMap, ExpiryHeap.Valid, Entries;
      if t.id in pending { return Some(RestoredTwice(t.id)); }
      AddPending(t);
      return None;
    }
  }
}
