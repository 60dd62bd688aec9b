/** The batch validator (internal/engine/transfers.go): a copy-on-write overlay over an
  * AccountManager, an undo journal per linked chain, and the index loop of ValidateBatch.
  * Proved to decide exactly what module Batch says. */
module Validator {
  import opened Core
  import opened Engine
  import opened Batch
  import opened Manager

  /* ----- undo journals ----- */

  /** What an overlay held under `id` when the chain first touched it; None when nothing. */
  datatype Snap<+V> = Snap(id: Id, was: Option<V>)

  /** Overlay and journal determine the overlay `then` that the chain started from. */
  ghost predicate Journaled<V>(now: map<Id, V>, then': map<Id, V>, snaps: seq<Snap<V>>, seen: set<Id>) {
    && (forall i | 0 <= i < |snaps| :: snaps[i].id in seen)
    && (forall i, j | 0 <= i < j < |snaps| :: snaps[i].id != snaps[j].id)
    && (forall i | 0 <= i < |snaps| :: match snaps[i].was
          case None => snaps[i].id !in then'
          case Some(v) => snaps[i].id in then' && then'[snaps[i].id] == v && snaps[i].id in now)
    && (forall k <- seen :: exists i | 0 <= i < |snaps| :: snaps[i].id == k)
    && (forall k | k !in seen :: k in now <==> k in then')
    && (forall k | k !in seen && k in now :: now[k] == then'[k])
  }

  /** Journal `id` unless the chain has done so already: snapshotAccount and snapshotPending. */
  method Snapshot<V>(id: Id, now: map<Id, V>, ghost then': map<Id, V>, snaps: seq<Snap<V>>, seen: set<Id>)
    returns (snaps': seq<Snap<V>>, seen': set<Id>)
    requires Journaled(now, then', snaps, seen)
    ensures Journaled(now, then', snaps', seen') && seen' == seen + {id}
  {
    snaps', seen' := snaps, seen + {id};
    if id in seen { return; }
    snaps' := snaps + [Snap(id, if id in now then Some(now[id]) else None)];
    assert snaps'[|snaps|].id == id;
    forall k | k in seen'
      ensures exists i | 0 <= i < |snaps'| :: snaps'[i].id == k
    {
      if k in seen {
        var i :| 0 <= i < |snaps| && snaps[i].id == k;
        assert snaps'[i].id == k;
      }
    }
  }

  /** Both maps have the same, or nothing, under `k`. */
  predicate SameAt<V(==)>(x: map<Id, V>, y: map<Id, V>, k: Id) {
    if k in x then k in y && x[k] == y[k] else k !in y
  }

  /** Undoing one entry restores its id and nothing else. */
  function Undone<V>(now: map<Id, V>, snap: Snap<V>): map<Id, V> {
    match snap.was
    case None => now - {snap.id}
    case Some(v) => now[snap.id := v]
  }

  /** The ids outside the journal, and those of its entries from `i` on, are as they were. */
  ghost predicate Restored<V>(back: map<Id, V>, then': map<Id, V>, snaps: seq<Snap<V>>, seen: set<Id>, i: nat) {
    && (forall k | k !in seen :: SameAt(back, then', k))
    && (forall j | i <= j < |snaps| :: SameAt(back, then', snaps[j].id))
  }

  lemma UndoOne<V>(now: map<Id, V>, back: map<Id, V>, then': map<Id, V>, snaps: seq<Snap<V>>, seen: set<Id>, i: nat)
    requires Journaled(now, then', snaps, seen) && i < |snaps| && Restored(back, then', snaps, seen, i + 1)
    ensures Restored(Undone(back, snaps[i]), then', snaps, seen, i)
  {
    var back' := Undone(back, snaps[i]);
    assert SameAt(back', then', snaps[i].id);
    forall k | k != snaps[i].id && SameAt(back, then', k)
      ensures SameAt(back', then', k)
    {
    }
  }

  lemma AllRestored<V>(now: map<Id, V>, back: map<Id, V>, then': map<Id, V>, snaps: seq<Snap<V>>, seen: set<Id>)
    requires Journaled(now, then', snaps, seen) && Restored(back, then', snaps, seen, 0)
    ensures back == then'
  {
    forall k: Id
      ensures SameAt(back, then', k)
    {
      if k in seen { var j :| 0 <= j < |snaps| && snaps[j].id == k; }
    }
    assert forall k | k in back :: SameAt(back, then', k);
    assert forall k | k in then' :: SameAt(back, then', k);
  }

  lemma NoneRestored<V>(now: map<Id, V>, then': map<Id, V>, snaps: seq<Snap<V>>, seen: set<Id>)
    requires Journaled(now, then', snaps, seen)
    ensures Restored(now, then', snaps, seen, |snaps|)
  {
  }

  /** Replay the journal backwards: rollbackChain on one overlay. */
  method Rollback<V>(now: map<Id, V>, ghost then': map<Id, V>, snaps: seq<Snap<V>>, ghost seen: set<Id>)
    returns (back: map<Id, V>)
    requires Journaled(now, then', snaps, seen)
    ensures back == then'
  {
    hide Journaled, Restored;
    back := now;
    var i := |snaps|;
    NoneRestored(now, then', snaps, seen);
    while i > 0
      invariant 0 <= i <= |snaps| && Restored(back, then', snaps, seen, i)
    {
      i := i - 1;
      UndoOne(now, back, then', snaps, seen, i);
      if snaps[i].was.None? {
        back := back - {snaps[i].id};
      } else {
        back := back[snaps[i].id := snaps[i].was.value];
      }
    }
    AllRestored(now, back, then', snaps, seen);
  }

  /** Writing under a journaled id keeps the journal good. */
  lemma WriteJournaled<V>(now: map<Id, V>, then': map<Id, V>, snaps: seq<Snap<V>>, seen: set<Id>, id: Id, v: V)
    requires Journaled(now, then', snaps, seen) && id in seen
    ensures Journaled(now[id := v], then', snaps, seen)
  {
  }

  lemma StartJournaled<V>(now: map<Id, V>, then': map<Id, V>, snaps: seq<Snap<V>>, seen: set<Id>)
    requires Journaled(now, then', snaps, seen)
    ensures Journaled(then', then', snaps, seen)
  {
  }

  lemma FreshJournal<V>(now: map<Id, V>)
    ensures Journaled(now, now, [], {})
  {
  }

  /* ----- the overlay ----- */

  /** A staged hold: closed in this batch, or open with what remains of it. */
  datatype PendingState = Deleted | Open(transfer: Transfer)

  /** Open holds as seen through the overlay. */
  function Overlaid(holds: map<Id, Transfer>, over: map<Id, PendingState>): map<Id, Transfer> {
    map k | k in holds.Keys + over.Keys && (k in over ==> over[k].Open?) ::
      if k in over then over[k].transfer else holds[k]
  }

  lemma OverlayHold(holds: map<Id, Transfer>, over: map<Id, PendingState>, id: Id, t: Transfer)
    ensures Overlaid(holds, over[id := Deleted]) == Overlaid(holds, over) - {id}
    ensures Overlaid(holds, over[id := Open(t)]) == Overlaid(holds, over)[id := t]
  {
  }

  class BatchValidator {
    const base: AccountManager
    var staged: map<Id, Account>
    var pending: map<Id, PendingState>
    var seenIDs: map<Id, nat>

    var accSnaps: seq<Snap<Account>>
    var pendSnaps: seq<Snap<PendingState>>
    var accSeen: set<Id>
    var pendSeen: set<Id>

    /** The books and index ids under the overlay, and the overlay when the chain began. */
    ghost const b0: Books
    ghost const known: set<Id>
    ghost var chainStaged: map<Id, Account>
    ghost var chainPending: map<Id, PendingState>

    /** The manager under the overlay is intact. */
    ghost predicate Grounded()
      reads base, base.expiry, base.owned
    {
      base.Formed() && base.Content() == b0 && base.transfers.Keys == known && Keyed(b0.accounts)
    }

    ghost predicate Stages(over: map<Id, Account>)
    {
      over.Keys <= b0.accounts.Keys && Keyed(over)
    }

    ghost predicate Valid()
      reads this, base, base.expiry, base.owned
    {
      && Grounded()
      && Stages(staged) && Stages(chainStaged)
      && Journaled(staged, chainStaged, accSnaps, accSeen)
      && Journaled(pending, chainPending, pendSnaps, pendSeen)
    }

    ghost function Through(over: map<Id, Account>, holds: map<Id, PendingState>): Books {
      Books(b0.accounts + over, Overlaid(b0.holds, holds))
    }

    /** The effective books. */
    ghost function Effective(): Books
      reads this`staged, this`pending
    {
      Through(staged, pending)
    }

    /** The effective books when the chain began. */
    ghost function AtChainStart(): Books
      reads this`chainStaged, this`chainPending
    {
      Through(chainStaged, chainPending)
    }

    ghost function Seen(): View
      reads this`staged, this`pending, this`seenIDs
    {
      View(Effective(), seenIDs.Keys)
    }

    constructor (m: AccountManager)
      requires m.Formed()
      ensures Valid() && base == m && b0 == m.Content() && known == m.transfers.Keys
      ensures Seen() == View(b0, {}) && AtChainStart() == b0
    {
      base, b0, known := m, m.Content(), m.transfers.Keys;
      staged, pending, seenIDs := map[], map[], map[];
      accSnaps, pendSnaps, accSeen, pendSeen := [], [], {}, {};
      chainStaged, chainPending := map[], map[];
      new;
      assert b0.accounts + map[] == b0.accounts && Overlaid(b0.holds, map[]) == b0.holds;
    }

    /* ----- chains ----- */

    method BeginChain()
      requires Valid()
      modifies this`accSnaps, this`pendSnaps, this`accSeen, this`pendSeen, this`chainStaged, this`chainPending
      ensures Valid() && AtChainStart() == Effective()
    {
      hide Journaled, Grounded;
      accSnaps, pendSnaps, accSeen, pendSeen := [], [], {}, {};
      chainStaged, chainPending := staged, pending;
      FreshJournal(staged);
      FreshJournal(pending);
    }

    /** Whatever the legs did before one failed, both overlays are as they were at BeginChain. */
    method RollbackChain()
      requires Valid()
      modifies this`staged, this`pending
      ensures Valid() && staged == chainStaged && pending == chainPending && Effective() == AtChainStart()
    {
      hide Journaled, Grounded;
      StartJournaled(staged, chainStaged, accSnaps, accSeen);
      StartJournaled(pending, chainPending, pendSnaps, pendSeen);
      staged := Rollback(staged, chainStaged, accSnaps, accSeen);
      pending := Rollback(pending, chainPending, pendSnaps, pendSeen);
    }

    method SnapshotAccount(id: Id)
      requires Valid()
      modifies this`accSnaps, this`accSeen
      ensures Valid() && accSeen == old(accSeen) + {id}
    {
      hide Journaled, Grounded;
      accSnaps, accSeen := Snapshot(id, staged, chainStaged, accSnaps, accSeen);
    }

    method SnapshotPending(id: Id)
      requires Valid()
      modifies this`pendSnaps, this`pendSeen
      ensures Valid() && pendSeen == old(pendSeen) + {id}
    {
      hide Journaled, Grounded;
      pendSnaps, pendSeen := Snapshot(id, pending, chainPending, pendSnaps, pendSeen);
    }

    /** getAccount: the staged account, cloned from the manager on first use. */
    method GetAccount(id: Id) returns (r: Result<Account>)
      requires Valid() && id in accSeen
      modifies this`staged
      ensures Valid() && Effective() == old(Effective())
      ensures r == if id in Effective().accounts then Ok(Effective().accounts[id]) else Err(AccountNotFound(id))
      ensures r.Ok? ==> id in staged && r.value.id == id
      ensures old(staged.Keys) <= staged.Keys
    {
      hide Journaled;
      if id in staged { return Ok(staged[id]); }
      r := base.Get(id);
      if r.Ok? {
        WriteJournaled(staged, chainStaged, accSnaps, accSeen, id, r.value);
        staged := staged[id := r.value];
        assert b0.accounts + staged == b0.accounts + old(staged);
      }
    }

    /** A staged account. */
    function Peek(id: Id): (acc: Account)
      requires Stages(staged) && id in staged
      reads this`staged, this`pending
      ensures id in Effective().accounts && acc == Effective().accounts[id] && acc.id == id
    {
      staged[id]
    }

    /** Update a staged account in place. */
    method Write(acc: Account)
      requires Valid() && acc.id in accSeen && acc.id in staged
      modifies this`staged
      ensures Valid() && staged.Keys == old(staged.Keys)
      ensures Effective() == old(Effective()).(accounts := old(Effective()).accounts[acc.id := acc])
    {
      hide Journaled, Grounded;
      WriteJournaled(staged, chainStaged, accSnaps, accSeen, acc.id, acc);
      staged := staged[acc.id := acc];
      assert b0.accounts + staged == (b0.accounts + old(staged))[acc.id := acc];
    }

    /** Stage the state of a hold. */
    method WriteHold(id: Id, st: PendingState)
      requires Valid() && id in pendSeen
      modifies this`pending
      ensures Valid()
      ensures Effective() == old(Effective()).(holds := match st
                case Deleted => old(Effective()).holds - {id}
                case Open(t) => old(Effective()).holds[id := t])
    {
      hide Journaled, Grounded, Overlaid;
      WriteJournaled(pending, chainPending, pendSnaps, pendSeen, id, st);
      OverlayHold(b0.holds, pending, id, if st.Open? then st.transfer else Transfer(0, 0, 0, 0, 0, 0, 0, 0, 0, 0, 0));
      pending := pending[id := st];
    }

    /** The open hold a settlement refers to, through the overlay. */
    method FindHold(id: Id) returns (r: Option<Transfer>)
      requires Valid()
      ensures r == if id in Effective().holds then Some(Effective().holds[id]) else None
    {
      hide Journaled;
      if id in pending {
        return if pending[id].Deleted? then None else Some(pending[id].transfer);
      }
      if id in base.pending {
        base.HoldOf(id);
        return Some(base.pending[id].transfer);
      }
      return None;
    }

    /* ----- one leg ----- */

    /** A post: both sides of the hold move from pending to posted.  A failure on the credit side
      * leaves the debit side changed until the chain is rolled back. */
    method StagePost(t: Transfer, p: Transfer, amount: U128) returns (err: Option<Error>)
      requires Valid() && amount <= p.amount && t.id in pendSeen
      requires p.debit in accSeen && p.credit in accSeen && p.debit in staged && p.credit in staged
      modifies this`staged, this`pending
      ensures Valid()
      ensures match Engine.StagePost(old(Effective()), t, p, amount)
              case Ok(b) => err.None? && Effective() == b
              case Err(e) => err == Some(e)
    {
      hide Journaled, Grounded, Overlaid, Through, Stages, Peek;
      var d := Peek(p.debit);
      if d.pendingDebits < amount { return Some(InvariantViolation(d.id)); }
      if d.postedDebits + amount >= TWO_128 { return Some(BalanceOverflow(d.id)); }
      Write(d.(pendingDebits := d.pendingDebits - amount, postedDebits := d.postedDebits + amount));
      var c := Peek(p.credit);
      if c.pendingCredits < amount { return Some(InvariantViolation(c.id)); }
      if c.postedCredits + amount >= TWO_128 { return Some(BalanceOverflow(c.id)); }
      Write(c.(pendingCredits := c.pendingCredits - amount, postedCredits := c.postedCredits + amount));
      WriteHold(t.id, if p.amount == amount then Deleted else Open(p.(amount := p.amount - amount)));
      return None;
    }

    method StageVoid(t: Transfer, p: Transfer) returns (err: Option<Error>)
      requires Valid() && t.id in pendSeen
      requires p.debit in accSeen && p.credit in accSeen && p.debit in staged && p.credit in staged
      modifies this`staged, this`pending
      ensures Valid()
      ensures match Engine.StageVoid(old(Effective()), t, p)
              case Ok(b) => err.None? && Effective() == b
              case Err(e) => err == Some(e)
    {
      hide Journaled, Grounded, Overlaid, Through, Stages, Peek;
      var d := Peek(p.debit);
      if d.pendingDebits < p.amount { return Some(InvariantViolation(d.id)); }
      Write(d.(pendingDebits := d.pendingDebits - p.amount));
      var c := Peek(p.credit);
      if c.pendingCredits < p.amount { return Some(InvariantViolation(c.id)); }
      Write(c.(pendingCredits := c.pendingCredits - p.amount));
      WriteHold(t.id, Deleted);
      return None;
    }

    method StageSettlement(t: Transfer) returns (err: Option<Error>)
      requires Valid() && IsSettlement(t)
      modifies this`staged, this`pending, this`accSnaps, this`accSeen, this`pendSnaps, this`pendSeen
      ensures Valid()
      ensures match Engine.StageSettlement(old(Effective()), t)
              case Ok(b) => err.None? && Effective() == b
              case Err(e) => err == Some(e)
    {
      hide Journaled, Grounded, Overlaid, Engine.StagePost, Engine.StageVoid, Stages;
      var hold := FindHold(t.id);
      if hold.None? { return Some(PendingNotFound(t.id)); }
      var p := hold.value;
      if t.ledger != 0 && t.ledger != p.ledger { return Some(LedgerMismatch(t.ledger, p.ledger, p.ledger)); }
      var amount := p.amount;
      if IsPost(t) && t.amount != 0 {
        if t.amount > p.amount { return Some(OverTransfer(t.id, p.amount, t.amount)); }
        amount := t.amount;
      }
      SnapshotPending(t.id);
      SnapshotAccount(p.debit);
      SnapshotAccount(p.credit);
      var debit := GetAccount(p.debit);
      if debit.Err? { return Some(debit.error); }
      var credit := GetAccount(p.credit);
      if credit.Err? { return Some(credit.error); }
      if IsPost(t) {
        err := StagePost(t, p, amount);
      } else {
        err := StageVoid(t, p);
      }
    }

    /** A new hold or a plain transfer between two staged accounts that pass the structural checks. */
    method StageMoney(t: Transfer, d: Account, c: Account) returns (err: Option<Error>)
      requires Valid() && t.debit != t.credit && d.id == t.debit && c.id == t.credit
      requires t.debit in accSeen && t.credit in accSeen
      requires t.debit in staged && Peek(t.debit) == d && t.credit in staged && Peek(t.credit) == c
      modifies this`staged, this`pending, this`pendSnaps, this`pendSeen
      ensures Valid()
      ensures match (if IsPending(t) then StageHold(old(Effective()), t) else StagePlain(old(Effective()), t))
              case Ok(b) => err.None? && Effective() == b
              case Err(e) => err == Some(e)
    {
      hide Journaled, Grounded, Overlaid, Through, Stages, Peek;
      if IsPending(t) {
        var avail := AvailableBalance(d);
        if avail.Err? { return Some(avail.error); }
        if avail.value < t.amount { return Some(InsufficientFunds(d.id, avail.value, t.amount)); }
        if d.pendingDebits + t.amount >= TWO_128 { return Some(BalanceOverflow(d.id)); }
        if c.pendingCredits + t.amount >= TWO_128 { return Some(BalanceOverflow(c.id)); }
        Write(d.(pendingDebits := d.pendingDebits + t.amount));
        Write(c.(pendingCredits := c.pendingCredits + t.amount));
        SnapshotPending(t.id);
        WriteHold(t.id, Open(t));
        return None;
      }
      var bal := Balance(d);
      if bal.Err? { return Some(bal.error); }
      if bal.value < t.amount { return Some(InsufficientFunds(d.id, bal.value, t.amount)); }
      if d.postedDebits + t.amount >= TWO_128 { return Some(BalanceOverflow(d.id)); }
      if c.postedCredits + t.amount >= TWO_128 { return Some(BalanceOverflow(c.id)); }
      Write(d.(postedDebits := d.postedDebits + t.amount));
      Write(c.(postedCredits := c.postedCredits + t.amount));
      return None;
    }

    method StageOpening(t: Transfer) returns (err: Option<Error>)
      requires Valid() && !IsSettlement(t)
      modifies this`staged, this`pending, this`accSnaps, this`accSeen, this`pendSnaps, this`pendSeen
      ensures Valid()
      ensures match Engine.StageOpening(old(Effective()), t)
              case Ok(b) => err.None? && Effective() == b
              case Err(e) => err == Some(e)
    {
      hide Journaled, Grounded, Overlaid, StageHold, StagePlain;
      if t.amount == 0 { return Some(ZeroAmount); }
      if t.debit == t.credit { return Some(SelfTransfer(t.debit)); }
      SnapshotAccount(t.debit);
      SnapshotAccount(t.credit);
      var debit := GetAccount(t.debit);
      if debit.Err? { return Some(debit.error); }
      var credit := GetAccount(t.credit);
      if credit.Err? { return Some(credit.error); }
      var d, c := debit.value, credit.value;
      if d.currency != c.currency { return Some(CurrencyMismatch(d.currency, c.currency)); }
      if d.ledger != t.ledger || c.ledger != t.ledger { return Some(LedgerMismatch(t.ledger, d.ledger, c.ledger)); }
      if IsFrozen(d) { return Some(AccountFrozen(d.id)); }
      if IsClosed(d) { return Some(AccountClosed(d.id)); }
      if IsFrozen(c) { return Some(AccountFrozen(c.id)); }
      if IsClosed(c) { return Some(AccountClosed(c.id)); }
      err := StageMoney(t, d, c);
    }

    /** validateAndApply: the verdict of module Batch, with the effective books moved on when the
      * leg is accepted; the chain's starting overlay stays recoverable either way. */
    method ValidateAndApply(t: Transfer, i: nat) returns (err: Option<Error>)
      requires Valid()
      modifies this`staged, this`pending, this`seenIDs, this`accSnaps, this`accSeen, this`pendSnaps, this`pendSeen
      ensures Valid()
      ensures var d := Validate(known, old(Seen()), t);
              && err == d.err
              && seenIDs.Keys == d.view.seen
              && (err.None? ==> Seen() == d.view)
    {
      hide Journaled, Overlaid, Stages, Engine.StageSettlement, Engine.StageOpening;
      if HasUnknownFlags(t) { return Some(InvalidTransferFlags(t.flags)); }
      if (IsPost(t) && (IsPending(t) || IsVoid(t))) || (IsVoid(t) && IsPending(t)) {
        return Some(InvalidTransferFlags(t.flags));
      }
      if !IsPost(t) && !IsVoid(t) {
        if t.id in seenIDs || t.id in base.transfers { return Some(DuplicateTransferID(t.id)); }
        seenIDs := seenIDs[t.id := i];
        err := StageOpening(t);
      } else {
        err := StageSettlement(t);
      }
    }
  }

  /* ----- the batch loop ----- */

  lemma {:induction false} SameChain(evs: seq<Transfer>, a: nat, i: nat)
    requires a <= i < |evs| && i <= ChainEnd(evs, a)
    ensures ChainEnd(evs, i) == ChainEnd(evs, a)
    decreases i - a
  {
    if a < i { SameChain(evs, a + 1, i); }
  }

  /** Scan forward to the end of the chain. */
  method FindChainEnd(evs: seq<Transfer>, i: nat) returns (last: nat)
    requires i < |evs|
    ensures last == ChainEnd(evs, i)
  {
    last := i;
    while last < |evs| && IsLinked(evs[last])
      invariant i <= last <= |evs|
      invariant last < |evs| ==> ChainEnd(evs, i) == ChainEnd(evs, last)
      invariant last == |evs| ==> ChainEnd(evs, i) == |evs| - 1
    {
      last := last + 1;
    }
    if last >= |evs| { last := |evs| - 1; }
  }

  /** Mark events a..last: event `at` with `e`, the others with the chain failure it causes. */
  method MarkFailed(outcomes: seq<Option<Error>>, evs: seq<Transfer>, a: nat, last: nat, at: nat, e: Error)
    returns (marked: seq<Option<Error>>)
    requires a <= at <= last < |evs| == |outcomes|
    ensures |marked| == |evs| && marked[..a] == outcomes[..a]
    ensures forall k | a <= k <= last :: marked[k] == Blame(evs, at, e, k)
  {
    marked := outcomes[at := Some(e)];
    var k := a;
    while k <= last
      invariant a <= k <= last + 1 && |marked| == |evs| && marked[..a] == outcomes[..a]
      invariant marked[at] == Some(e)
      invariant forall j | a <= j < k :: marked[j] == Blame(evs, at, e, j)
    {
      if k != at {
        marked := marked[k := Some(LinkedChainFailed(evs[at].id, at, e))];
      }
      k := k + 1;
    }
  }

  method MarkAccepted(outcomes: seq<Option<Error>>, a: nat, last: nat) returns (marked: seq<Option<Error>>)
    requires a <= last < |outcomes|
    ensures |marked| == |outcomes| && marked[..a] == outcomes[..a]
    ensures forall k | a <= k <= last :: marked[k] == None
  {
    marked := outcomes;
    var k := a;
    while k <= last
      invariant a <= k <= last + 1 && |marked| == |outcomes| && marked[..a] == outcomes[..a]
      invariant forall j | a <= j < k :: marked[j] == None
    {
      marked := marked[k := None];
      k := k + 1;
    }
  }

  /** The decisions so far, followed by the rulings on the rest, are the rulings on the batch. */
  ghost predicate Decided(all: seq<Option<Error>>, outcomes: seq<Option<Error>>, known: set<Id>, start: View,
                          evs: seq<Transfer>, a: nat)
  {
    && a <= |evs| == |outcomes|
    && all == outcomes[..a] + Rule(known, start, evs, a).outcomes
  }

  lemma ChainDecided(all: seq<Option<Error>>, outcomes: seq<Option<Error>>, marked: seq<Option<Error>>,
                     known: set<Id>, start: View, evs: seq<Transfer>, a: nat)
    requires a < |evs| == |marked| == |outcomes| && Decided(all, outcomes, known, start, evs, a)
    requires marked[..a] == outcomes[..a]
    requires var last := ChainEnd(evs, a);
             forall k | a <= k <= last :: marked[k] == ChainOutcome(RunChain(known, start, evs, a, last), evs, last, k)
    ensures var last := ChainEnd(evs, a);
            var run := RunChain(known, start, evs, a, last);
            Decided(all, marked, known, AfterChain(start, run, evs, last), evs, last + 1)
  {
    hide RunChain, ChainOutcome, ChainOutcomes, AfterChain, ChainEnd;
    var last := ChainEnd(evs, a);
    assert marked[..last + 1] == marked[..a] + ChainOutcomes(RunChain(known, start, evs, a, last), evs, a, last);
  }

  lemma FailedDecided(all: seq<Option<Error>>, outcomes: seq<Option<Error>>, marked: seq<Option<Error>>,
                      known: set<Id>, start: View, evs: seq<Transfer>, a: nat, at: nat, e: Error, seen: set<Id>)
    requires a < |evs| == |marked| == |outcomes| && Decided(all, outcomes, known, start, evs, a)
    requires RunChain(known, start, evs, a, ChainEnd(evs, a)) == Failed(at, e, seen)
    requires marked[..a] == outcomes[..a]
    requires forall k | a <= k <= ChainEnd(evs, a) :: marked[k] == Blame(evs, at, e, k)
    ensures Decided(all, marked, known, View(start.books, seen), evs, ChainEnd(evs, a) + 1)
  {
    hide Decided;
    ChainDecided(all, outcomes, marked, known, start, evs, a);
  }

  lemma CompletedDecided(all: seq<Option<Error>>, outcomes: seq<Option<Error>>, marked: seq<Option<Error>>,
                         known: set<Id>, start: View, evs: seq<Transfer>, a: nat, v: View)
    requires a < |evs| == |marked| == |outcomes| && Decided(all, outcomes, known, start, evs, a)
    requires RunChain(known, start, evs, a, ChainEnd(evs, a)) == Completed(v)
    requires marked[..a] == outcomes[..a]
    requires var last := ChainEnd(evs, a);
             forall k | a <= k <= last ::
               marked[k] == if IsLinked(evs[last]) then Blame(evs, last, OpenChain(evs, last), k) else None
    ensures var last := ChainEnd(evs, a);
            Decided(all, marked, known, if IsLinked(evs[last]) then View(start.books, v.seen) else v, evs, last + 1)
  {
    hide Decided;
    ChainDecided(all, outcomes, marked, known, start, evs, a);
  }

  /** The validator stands before leg `i` of the chain that starts at `a` on the view `start`. */
  ghost predicate OnLeg(v: BatchValidator, start: View, evs: seq<Transfer>, a: nat, i: nat)
    requires v.Valid() && a <= i < |evs|
    reads v, v.base, v.base.expiry, v.base.owned
  {
    if i == a then v.Seen() == start
    else v.AtChainStart() == start.books && Within(v.known, start, evs, a, i, v.Seen())
  }

  /** One leg: where the chain then is. */
  method TakeLeg(v: BatchValidator, evs: seq<Transfer>, a: nat, i: nat, ghost start: View) returns (err: Option<Error>)
    requires v.Valid() && a <= i < |evs| && OnLeg(v, start, evs, a, i)
    modifies v
    ensures v.Valid() && v.AtChainStart() == start.books
    ensures err.Some? ==>
              && ChainEnd(evs, i) == ChainEnd(evs, a)
              && RunChain(v.known, start, evs, a, ChainEnd(evs, a)) == Failed(i, err.value, v.seenIDs.Keys)
    ensures err.None? ==>
              if IsLinked(evs[i]) && i < |evs| - 1 then Within(v.known, start, evs, a, i + 1, v.Seen())
              else ChainEnd(evs, a) == i && RunChain(v.known, start, evs, a, i) == Completed(v.Seen())
  {
    hide BatchValidator.Valid, BatchValidator.Through, BatchValidator.AtChainStart, Validate, ChainEnd, RunChain,
      Within;
    if i == a {
      v.BeginChain();
      ChainOpens(v.known, start, evs, i);
    }
    ghost var before := v.Seen();
    err := v.ValidateAndApply(evs[i], i);
    if err.Some? {
      LegRefused(v.known, start, evs, a, i, before);
    } else {
      LegAccepted(v.known, start, evs, a, i, before);
    }
  }

  /** ValidateBatch decides what module Batch says, on the manager as it is. */
  method ValidateBatch(evs: seq<Transfer>, m: AccountManager) returns (outcomes: seq<Option<Error>>)
    requires m.Formed()
    ensures outcomes == RuleBatch(m.transfers.Keys, m.Content(), evs).outcomes
  {
    hide BatchValidator.Valid, BatchValidator.Through, BatchValidator.AtChainStart, Validate, ChainEnd, Rule, RunChain,
      Within, Decided, Blame, AccountManager.Formed, AccountManager.Agrees, AccountManager.Content;
    m.FormedIndexes();
    outcomes := seq(|evs|, _ => None);
    var v := new BatchValidator(m);
    ghost var known := m.transfers.Keys;
    ghost var all := RuleBatch(known, m.Content(), evs).outcomes;
    ghost var start := View(m.Content(), {});
    NothingDecided(outcomes, known, start, evs);
    var chainStart: nat, i: nat := 0, 0;
    while i < |evs|
      invariant chainStart <= i <= |evs| == |outcomes|
      invariant v.Valid() && v.known == known
      invariant Decided(all, outcomes, known, start, evs, chainStart)
      invariant i < |evs| ==> OnLeg(v, start, evs, chainStart, i)
      invariant i == |evs| ==> i == chainStart
    {
      var err := TakeLeg(v, evs, chainStart, i, start);
      if err.Some? {
        outcomes, i := RejectChain(v, outcomes, evs, chainStart, i, err.value, all, known, start);
        start := View(start.books, v.seenIDs.Keys);
        chainStart := i;
        continue;
      }
      if !IsLinked(evs[i]) {
        outcomes := AcceptChain(outcomes, evs, chainStart, i, all, known, start, v.Seen());
        start := v.Seen();
        chainStart := i + 1;
      } else if i == |evs| - 1 {
        outcomes := RejectOpenChain(outcomes, evs, chainStart, i, all, known, start, v.Seen());
        v.RollbackChain();
        return;
      }
      i := i + 1;
    }
    AllDecided(all, outcomes, known, start, evs);
  }

  /** A leg was refused: undo the chain, blame every leg, go on behind it. */
  method RejectChain(v: BatchValidator, outcomes: seq<Option<Error>>, evs: seq<Transfer>, a: nat, i: nat, e: Error,
                     ghost all: seq<Option<Error>>, ghost known: set<Id>, ghost start: View)
    returns (marked: seq<Option<Error>>, next: nat)
    requires v.Valid() && v.AtChainStart() == start.books
    requires a <= i < |evs| == |outcomes| && Decided(all, outcomes, known, start, evs, a)
    requires ChainEnd(evs, i) == ChainEnd(evs, a)
    requires RunChain(known, start, evs, a, ChainEnd(evs, a)) == Failed(i, e, v.seenIDs.Keys)
    modifies v`staged, v`pending
    ensures v.Valid() && v.Seen() == View(start.books, v.seenIDs.Keys)
    ensures i < next <= |evs| == |marked| && Decided(all, marked, known, View(start.books, v.seenIDs.Keys), evs, next)
  {
    hide BatchValidator.Valid, BatchValidator.Through, BatchValidator.AtChainStart, Validate, ChainEnd, Rule, RunChain,
      Decided, Blame;
    var chainEnd := FindChainEnd(evs, i);
    v.RollbackChain();
    marked := MarkFailed(outcomes, evs, a, chainEnd, i, e);
    FailedDecided(all, outcomes, marked, known, start, evs, a, i, e, v.seenIDs.Keys);
    next := chainEnd + 1;
  }

  /** The chain is complete: accept every leg. */
  method AcceptChain(outcomes: seq<Option<Error>>, evs: seq<Transfer>, a: nat, i: nat,
                     ghost all: seq<Option<Error>>, ghost known: set<Id>, ghost start: View, ghost now: View)
    returns (marked: seq<Option<Error>>)
    requires a <= i < |evs| == |outcomes| && Decided(all, outcomes, known, start, evs, a) && !IsLinked(evs[i])
    requires ChainEnd(evs, a) == i && RunChain(known, start, evs, a, i) == Completed(now)
    ensures |marked| == |evs| && Decided(all, marked, known, now, evs, i + 1)
  {
    hide ChainEnd, Rule, RunChain, Decided, Blame;
    marked := MarkAccepted(outcomes, a, i);
    CompletedDecided(all, outcomes, marked, known, start, evs, a, now);
  }

  /** The batch ends inside the chain: blame every leg. */
  method RejectOpenChain(outcomes: seq<Option<Error>>, evs: seq<Transfer>, a: nat, i: nat,
                         ghost all: seq<Option<Error>>, ghost known: set<Id>, ghost start: View, ghost now: View)
    returns (marked: seq<Option<Error>>)
    requires a <= i < |evs| == |outcomes| && Decided(all, outcomes, known, start, evs, a)
    requires IsLinked(evs[i]) && i == |evs| - 1
    requires ChainEnd(evs, a) == i && RunChain(known, start, evs, a, i) == Completed(now)
    ensures marked == all
  {
    hide ChainEnd, Rule, RunChain, Decided, Blame;
    marked := MarkFailed(outcomes, evs, a, i, i, OpenChain(evs, i));
    CompletedDecided(all, outcomes, marked, known, start, evs, a, now);
    AllDecided(all, marked, known, View(start.books, now.seen), evs);
  }

  /** Event `i` belongs to the chain that starts at `a`, and the chain goes on from `now`. */
  ghost predicate Within(known: set<Id>, start: View, evs: seq<Transfer>, a: nat, i: nat, now: View)
    requires a <= i <= |evs|
  {
    && i < |evs| && i <= ChainEnd(evs, a)
    && RunChain(known, start, evs, a, ChainEnd(evs, a)) == RunChain(known, now, evs, i, ChainEnd(evs, a))
  }

  lemma ChainOpens(known: set<Id>, start: View, evs: seq<Transfer>, a: nat)
    requires a < |evs|
    ensures Within(known, start, evs, a, a, start)
  {
    SameChain(evs, a, a);
  }

  lemma LegRefused(known: set<Id>, start: View, evs: seq<Transfer>, a: nat, i: nat, now: View)
    requires a <= i < |evs| && Within(known, start, evs, a, i, now) && Validate(known, now, evs[i]).err.Some?
    ensures var d := Validate(known, now, evs[i]);
            && ChainEnd(evs, i) == ChainEnd(evs, a)
            && RunChain(known, start, evs, a, ChainEnd(evs, a)) == Failed(i, d.err.value, d.view.seen)
  {
    hide Validate;
    SameChain(evs, a, i);
  }

  lemma LegAccepted(known: set<Id>, start: View, evs: seq<Transfer>, a: nat, i: nat, now: View)
    requires a <= i < |evs| && Within(known, start, evs, a, i, now) && Validate(known, now, evs[i]).err.None?
    ensures var next := Validate(known, now, evs[i]).view;
            if IsLinked(evs[i]) && i < |evs| - 1 then Within(known, start, evs, a, i + 1, next)
            else ChainEnd(evs, a) == i && RunChain(known, start, evs, a, i) == Completed(next)
  {
    hide Validate;
    LinkedUpTo(evs, a, i);
    ChainStep(known, now, evs, i, ChainEnd(evs, a));
  }

  lemma ChainStep(known: set<Id>, v: View, evs: seq<Transfer>, i: nat, last: nat)
    requires i <= last < |evs|
    ensures var d := Validate(known, v, evs[i]);
            RunChain(known, v, evs, i, last)
            == if d.err.Some? then Failed(i, d.err.value, d.view.seen)
               else if i == last then Completed(d.view)
               else RunChain(known, d.view, evs, i + 1, last)
  {
    hide Validate;
  }

  /** Where a chain containing linked event `i` ends, by cases. */
  lemma LinkedUpTo(evs: seq<Transfer>, a: nat, i: nat)
    requires a <= i < |evs| && i <= ChainEnd(evs, a)
    ensures !IsLinked(evs[i]) || i == |evs| - 1 ==> ChainEnd(evs, a) == i
    ensures IsLinked(evs[i]) && i < |evs| - 1 ==> i + 1 <= ChainEnd(evs, a)
  {
    SameChain(evs, a, i);
  }

  lemma NothingDecided(outcomes: seq<Option<Error>>, known: set<Id>, start: View, evs: seq<Transfer>)
    requires |outcomes| == |evs|
    ensures Decided(Rule(known, start, evs, 0).outcomes, outcomes, known, start, evs, 0)
  {
    assert outcomes[..0] == [];
  }

  lemma AllDecided(all: seq<Option<Error>>, outcomes: seq<Option<Error>>, known: set<Id>, v: View, evs: seq<Transfer>)
    requires Decided(all, outcomes, known, v, evs, |evs|)
    ensures all == outcomes
  {
    assert outcomes[..|evs|] == outcomes;
  }
}
