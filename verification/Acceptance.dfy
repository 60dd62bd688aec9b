/** Which transfers are accepted and what they change, in the fields of accounts, holds and transfers
  * and in the numbers of the flags (internal/core/account.go, internal/engine/accounts.go,
  * internal/engine/transfers.go).  The rules of modules Engine and Batch are proved equal to these. */
module Acceptance {
  import opened Core
  import opened Engine
  import opened Batch

  /* ----- one transfer ----- */

  /** Flags 0, 1, 2, 4 say plain, hold, post, void; 8 is added to link to the next transfer. */
  predicate Sensible(t: Transfer) {
    t.flags in {0, 1, 2, 4, 8, 9, 10, 12}
  }

  predicate Opening(t: Transfer) {
    t.flags in {0, 1, 8, 9}
  }

  /** Something to move between two accounts of one currency and of the transfer's ledger. */
  predicate Matching(b: Books, t: Transfer) {
    && t.amount > 0 && t.debit != t.credit && t.debit in b.accounts && t.credit in b.accounts
    && var d, c := b.accounts[t.debit], b.accounts[t.credit];
       d.currency == c.currency && d.ledger == t.ledger && c.ledger == t.ledger
  }

  /** Neither account is frozen (1) or closed (2). */
  predicate Parties(b: Books, t: Transfer) {
    Matching(b, t) && b.accounts[t.debit].flags % 4 == 0 && b.accounts[t.credit].flags % 4 == 0
  }

  /** Posted credits cover posted debits and the amount. */
  predicate Payable(b: Books, t: Transfer) {
    && Parties(b, t)
    && var d, c := b.accounts[t.debit], b.accounts[t.credit];
       && d.postedDebits + t.amount <= d.postedCredits
       && c.postedCredits + t.amount < TWO_128
  }

  /** What is posted and not on hold, with what is coming in, covers the amount. */
  predicate Reservable(b: Books, t: Transfer) {
    && Parties(b, t)
    && var d, c := b.accounts[t.debit], b.accounts[t.credit];
       && d.postedDebits + d.pendingDebits <= d.postedCredits
       && d.postedDebits + d.pendingDebits + t.amount <= d.postedCredits + d.pendingCredits
       && d.postedCredits + d.pendingCredits < TWO_128 + d.postedDebits + d.pendingDebits
       && d.pendingDebits + t.amount < TWO_128
       && c.pendingCredits + t.amount < TWO_128
  }

  /** The amount a post takes from its hold: 0 asks for all of it. */
  function Taken(p: Transfer, t: Transfer): U128 {
    if t.amount == 0 then p.amount else t.amount
  }

  /** An open hold of the same id and ledger, whose accounts have at least `x` on hold. */
  predicate Settles(b: Books, t: Transfer, x: nat) {
    && t.id in b.holds
    && var p := b.holds[t.id];
       && (t.ledger == 0 || t.ledger == p.ledger)
       && p.debit in b.accounts && p.credit in b.accounts
       && x <= b.accounts[p.debit].pendingDebits && x <= b.accounts[p.credit].pendingCredits
  }

  predicate Postable(b: Books, t: Transfer) {
    && t.id in b.holds
    && var p := b.holds[t.id];
       && t.amount <= p.amount && Settles(b, t, Taken(p, t))
       && b.accounts[p.debit].postedDebits + Taken(p, t) < TWO_128
       && b.accounts[p.credit].postedCredits + Taken(p, t) < TWO_128
  }

  predicate Acceptable(b: Books, t: Transfer) {
    match t.flags
    case 0 => Payable(b, t)
    case 8 => Payable(b, t)
    case 1 => Reservable(b, t)
    case 9 => Reservable(b, t)
    case 2 => Postable(b, t)
    case 10 => Postable(b, t)
    case 4 => t.id in b.holds && Settles(b, t, b.holds[t.id].amount)
    case 12 => t.id in b.holds && Settles(b, t, b.holds[t.id].amount)
    case _ => false
  }

  /** The kinds of transfer by number. */
  lemma Kinds(t: Transfer)
    ensures !BadFlags(t) <==> Sensible(t)
    ensures Sensible(t) ==> (IsSettlement(t) <==> !Opening(t))
    ensures Sensible(t) ==> (IsPost(t) <==> t.flags in {2, 10}) && (IsVoid(t) <==> t.flags in {4, 12})
    ensures Sensible(t) ==> (IsPending(t) <==> t.flags in {1, 9}) && (IsLinked(t) <==> t.flags >= 8)
  {
    if t.flags < 16 { SmallFlags(t.flags); }
  }

  lemma SmallFlags(f: nat)
    requires f < 16
    ensures f in {0, 1, 2, 3, 4, 5, 6, 7, 8, 9, 10, 11, 12, 13, 14, 15}
  {
  }

  /** For any books and any transfer: the apply path succeeds if and only if the transfer is
    * acceptable. */
  lemma AcceptedExactly(b: Books, t: Transfer)
    ensures Exec(b, t).err.None? <==> Acceptable(b, t)
  {
    Kinds(t);
    if Sensible(t) {
      if Opening(t) { OpeningExactly(b, t); } else { SettlementExactly(b, t); }
    }
  }

  lemma OpeningExactly(b: Books, t: Transfer)
    requires Sensible(t) && Opening(t)
    ensures Exec(b, t).err.None? <==> Acceptable(b, t)
  {
    Kinds(t);
    OpenAccounts(b, t);
  }

  /** The checks on the parties of a plain or pending transfer. */
  lemma OpenAccounts(b: Books, t: Transfer)
    ensures CheckOpening(b, t).Ok? ==> Parties(b, t)
    ensures Parties(b, t) ==> !IsFrozen(b.accounts[t.debit]) && !IsClosed(b.accounts[t.debit])
    ensures Parties(b, t) ==> !IsFrozen(b.accounts[t.credit]) && !IsClosed(b.accounts[t.credit])
  {
    hide IsFrozen, IsClosed;
    if t.debit in b.accounts { AccountBits(b.accounts[t.debit]); }
    if t.credit in b.accounts { AccountBits(b.accounts[t.credit]); }
  }

  /** The two lowest bits of an account's flags. */
  lemma AccountBits(a: Account)
    ensures a.flags % 4 == 0 <==> !IsFrozen(a) && !IsClosed(a)
    ensures a.flags % 2 == 1 <==> IsFrozen(a)
    ensures a.flags % 4 == 2 <==> !IsFrozen(a) && IsClosed(a)
  {
    LowBits(a.flags / 4, a.flags % 4);
  }

  lemma LowBits(q: nat, r: nat)
    requires r < 4
    ensures var f := 4 * q + r; f / 2 == 2 * q + r / 2 && f % 2 == r % 2 && f / 2 % 2 == r / 2
  {
    var f := 4 * q + r;
    assert f == 2 * (2 * q + r / 2) + r % 2;
    Halves(f, 2 * q + r / 2, r % 2);
    Halves(f / 2, q, r / 2);
  }

  lemma Halves(f: nat, h: nat, b: nat)
    requires f == 2 * h + b && b < 2
    ensures f / 2 == h && f % 2 == b
  {
  }

  lemma SettlementExactly(b: Books, t: Transfer)
    requires Sensible(t) && !Opening(t)
    ensures Exec(b, t).err.None? <==> Acceptable(b, t)
  {
    Kinds(t);
  }

  /* ----- what changes ----- */

  /** The totals of the account grew by these amounts, and nothing else of it changed. */
  predicate Grew(a: Account, a': Account, postedDebits: int, postedCredits: int, pendingDebits: int,
                 pendingCredits: int)
  {
    && a' == a.(postedDebits := a'.postedDebits, postedCredits := a'.postedCredits,
                pendingDebits := a'.pendingDebits, pendingCredits := a'.pendingCredits)
    && a'.postedDebits == a.postedDebits + postedDebits && a'.postedCredits == a.postedCredits + postedCredits
    && a'.pendingDebits == a.pendingDebits + pendingDebits && a'.pendingCredits == a.pendingCredits + pendingCredits
  }

  /** `posted` and `pending` moved from `payer` to `payee`; the other accounts are as they were. */
  predicate Moved(b: Books, b': Books, payer: Id, payee: Id, posted: int, pending: int) {
    && b'.accounts.Keys == b.accounts.Keys
    && forall k <- b.accounts ::
         Grew(b.accounts[k], b'.accounts[k],
              if k == payer then posted else 0, if k == payee then posted else 0,
              if k == payer then pending else 0, if k == payee then pending else 0)
  }

  /** The hold under `id` is gone, or has `left` of its amount when that is not 0. */
  predicate Reduced(holds: map<Id, Transfer>, holds': map<Id, Transfer>, id: Id, left: nat)
    requires id in holds
  {
    && holds' - {id} == holds - {id}
    && (if left == 0 then id !in holds'
        else id in holds' && holds'[id] == holds[id].(amount := holds'[id].amount) && holds'[id].amount == left)
  }

  predicate Changed(b: Books, t: Transfer, b': Books) {
    match t.flags % 8
    case 0 => b'.holds == b.holds && Moved(b, b', t.debit, t.credit, t.amount, 0)
    case 1 => b'.holds == b.holds[t.id := t] && Moved(b, b', t.debit, t.credit, 0, t.amount)
    case 2 =>
      && t.id in b.holds
      && var p := b.holds[t.id];
         && Taken(p, t) <= p.amount && Reduced(b.holds, b'.holds, t.id, p.amount - Taken(p, t))
         && Moved(b, b', p.debit, p.credit, Taken(p, t), -(Taken(p, t) as int))
    case _ =>
      && t.id in b.holds
      && var p := b.holds[t.id];
         Reduced(b.holds, b'.holds, t.id, 0) && Moved(b, b', p.debit, p.credit, 0, -(p.amount as int))
  }

  /** What an accepted transfer changes, by the number of its flags; holds are between two accounts. */
  lemma ChangesExactly(b: Books, t: Transfer)
    requires Exec(b, t).err.None?
    requires t.id in b.holds ==> b.holds[t.id].debit != b.holds[t.id].credit
    ensures Changed(b, t, Exec(b, t).books)
  {
    hide Exec, DoubleEntry, Moved, Acceptable;
    Kinds(t);
    AcceptedFlags(b, t);
    ExecIsDoubleEntry(b, t);
    EntryMoves(b, Exec(b, t).books, EntryOf(b, t));
    if IsSettlement(t) { SettledAmount(b, t); }
  }

  lemma AcceptedFlags(b: Books, t: Transfer)
    requires Exec(b, t).err.None?
    ensures Sensible(t)
  {
    hide Exec;
    AcceptedExactly(b, t);
  }

  lemma EntryMoves(b: Books, b': Books, e: Entry)
    requires DoubleEntry(b.accounts, b'.accounts, e)
    ensures Moved(b, b', e.p.debit, e.p.credit, e.posted, e.pending)
  {
    forall k | k in b.accounts
      ensures Grew(b.accounts[k], b'.accounts[k],
                   if k == e.p.debit then e.posted else 0, if k == e.p.credit then e.posted else 0,
                   if k == e.p.debit then e.pending else 0, if k == e.p.credit then e.pending else 0)
    {
      assert SameAccount(b.accounts[k], b'.accounts[k]);
    }
  }

  lemma SettledAmount(b: Books, t: Transfer)
    requires Exec(b, t).err.None? && IsSettlement(t)
    ensures t.id in b.holds && (IsPost(t) ==> t.amount <= b.holds[t.id].amount)
  {
    hide MovePending, ReleasePending;
  }

  /* ----- why a transfer is refused ----- */

  /** Refused because an account is frozen: bit 0 of the payer's flags, then of the payee's. */
  lemma FrozenExactly(b: Books, t: Transfer, x: Id)
    requires Keyed(b.accounts)
    ensures Exec(b, t).err == Some(AccountFrozen(x)) <==>
              && Opening(t) && Matching(b, t)
              && var d, c := b.accounts[t.debit], b.accounts[t.credit];
                 (x == t.debit && d.flags % 2 == 1) || (x == t.credit && d.flags % 4 == 0 && c.flags % 2 == 1)
  {
    hide IsFrozen, IsClosed;
    if t.debit in b.accounts { AccountBits(b.accounts[t.debit]); }
    if t.credit in b.accounts { AccountBits(b.accounts[t.credit]); }
    Kinds(t);
    if !Opening(t) && Sensible(t) { SettlementErrors(b, t); }
    hide MovePending, ReleasePending;
  }

  /** Refused because an account is closed: bit 1. */
  lemma ClosedExactly(b: Books, t: Transfer, x: Id)
    requires Keyed(b.accounts)
    ensures Exec(b, t).err == Some(AccountClosed(x)) <==>
              && Opening(t) && Matching(b, t)
              && var d, c := b.accounts[t.debit], b.accounts[t.credit];
                 (x == t.debit && d.flags % 4 == 2) || (x == t.credit && d.flags % 4 == 0 && c.flags % 4 == 2)
  {
    hide IsFrozen, IsClosed;
    if t.debit in b.accounts { AccountBits(b.accounts[t.debit]); }
    if t.credit in b.accounts { AccountBits(b.accounts[t.credit]); }
    Kinds(t);
    if !Opening(t) && Sensible(t) { SettlementErrors(b, t); }
    hide MovePending, ReleasePending;
  }

  /** What a post or void can be refused with. */
  lemma SettlementErrors(b: Books, t: Transfer)
    requires Sensible(t) && !Opening(t)
    ensures match Exec(b, t).err
            case None => true
            case Some(e) =>
              || e.PendingNotFound? || e.LedgerMismatch? || e.OverTransfer?
              || e.AccountNotFound? || e.InvariantViolation? || e.BalanceOverflow?
  {
    Kinds(t);
  }

  /** Refused for want of funds: the payer is known, open and short. */
  lemma FundsExactly(b: Books, t: Transfer, x: Id, balance: U128, amount: U128)
    requires Keyed(b.accounts)
    ensures Exec(b, t).err == Some(InsufficientFunds(x, balance, amount)) <==>
              && Opening(t) && Parties(b, t) && x == t.debit && amount == t.amount && balance < t.amount
              && var d := b.accounts[t.debit];
                 if t.flags in {0, 8} then balance == d.postedCredits - d.postedDebits
                 else && d.postedDebits + d.pendingDebits <= d.postedCredits
                      && balance == d.postedCredits - d.postedDebits - d.pendingDebits + d.pendingCredits
  {
    Kinds(t);
    OpenAccounts(b, t);
    if !Opening(t) && Sensible(t) { SettlementErrors(b, t); }
    hide MovePending, ReleasePending;
  }

  /** A settlement finds no hold, or asks for more than there is. */
  lemma HoldExactly(b: Books, t: Transfer)
    ensures Exec(b, t).err == Some(PendingNotFound(t.id)) <==> Sensible(t) && !Opening(t) && t.id !in b.holds
    ensures (exists x, y :: Exec(b, t).err == Some(OverTransfer(t.id, x, y))) <==>
              && t.flags in {2, 10} && t.id in b.holds && (t.ledger == 0 || t.ledger == b.holds[t.id].ledger)
              && t.amount > b.holds[t.id].amount
  {
    Kinds(t);
    if && t.flags in {2, 10} && t.id in b.holds && t.amount > b.holds[t.id].amount
       && (t.ledger == 0 || t.ledger == b.holds[t.id].ledger)
    {
      assert Exec(b, t).err == Some(OverTransfer(t.id, b.holds[t.id].amount, t.amount));
    }
  }
}
