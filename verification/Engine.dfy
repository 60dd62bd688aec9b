/** The state machine of the ledger (internal/engine/accounts.go) as functions on values,
  * and the rule the batch validator applies (internal/engine/transfers.go), which the source
  * writes a second time against its overlay.  `StageAgreesWithExec` proves the two equal. */
module Engine {
  import opened Core

  /** Accounts by id, and open holds by transfer id. */
  datatype Books = Books(accounts: map<Id, Account>, holds: map<Id, Transfer>)

  /** Every account is stored under its own id. */
  predicate Keyed(accounts: map<Id, Account>) {
    forall k <- accounts :: accounts[k].id == k
  }

  /** Account updates in progress.  On an error the updates made so far stay. */
  datatype Posting = Posting(accounts: map<Id, Account>, err: Option<Error>)

  /* ----- the apply path ----- */

  /** checkTransfer: the amount a settlement moves, or the reason to refuse. */
  function CheckTransfer(b: Books, t: Transfer): Result<U128> {
    if HasUnknownFlags(t) then
      Err(InvalidTransferFlags(t.flags))
    else if (IsPost(t) && (IsPending(t) || IsVoid(t))) || (IsVoid(t) && IsPending(t)) then
      Err(InvalidTransferFlags(t.flags))
    else if IsSettlement(t) then
      CheckSettlement(b, t)
    else
      CheckOpening(b, t)
  }

  function CheckSettlement(b: Books, t: Transfer): Result<U128> {
    if t.id !in b.holds then
      Err(PendingNotFound(t.id))
    else
      var p := b.holds[t.id];
      if t.ledger != 0 && t.ledger != p.ledger then
        Err(LedgerMismatch(t.ledger, p.ledger, p.ledger))
      else if IsPost(t) && t.amount != 0 then
        if t.amount > p.amount then Err(OverTransfer(t.id, p.amount, t.amount)) else Ok(t.amount)
      else
        Ok(p.amount)
  }

  function CheckOpening(b: Books, t: Transfer): Result<U128> {
    if t.amount == 0 then Err(ZeroAmount)
    else if t.debit == t.credit then Err(SelfTransfer(t.debit))
    else if t.debit !in b.accounts then Err(AccountNotFound(t.debit))
    else if t.credit !in b.accounts then Err(AccountNotFound(t.credit))
    else
      var d, c := b.accounts[t.debit], b.accounts[t.credit];
      if d.currency != c.currency then Err(CurrencyMismatch(d.currency, c.currency))
      else if d.ledger != t.ledger || c.ledger != t.ledger then Err(LedgerMismatch(t.ledger, d.ledger, c.ledger))
      else if IsFrozen(d) then Err(AccountFrozen(d.id))
      else if IsClosed(d) then Err(AccountClosed(d.id))
      else if IsFrozen(c) then Err(AccountFrozen(c.id))
      else if IsClosed(c) then Err(AccountClosed(c.id))
      else
        match (if IsPending(t) then AvailableBalance(d) else Balance(d))
        case Err(e) => Err(e)
        case Ok(bal) =>
          if bal < t.amount then Err(InsufficientFunds(d.id, bal, t.amount)) else Ok(0)
  }

  /** movePending: settle `amount` of hold `p`, first on the debit side, then on the credit side. */
  function MovePending(accounts: map<Id, Account>, p: Transfer, amount: U128): Posting {
    if p.debit !in accounts then Posting(accounts, Some(AccountNotFound(p.debit))) else
    var d := accounts[p.debit];
    if Sub(d.pendingDebits, amount).None? then Posting(accounts, Some(InvariantViolation(d.id))) else
    if Add(d.postedDebits, amount).None? then Posting(accounts, Some(BalanceOverflow(d.id))) else
    var accounts1 := accounts[p.debit := d.(pendingDebits := d.pendingDebits - amount,
                                            postedDebits := d.postedDebits + amount)];
    if p.credit !in accounts1 then Posting(accounts1, Some(AccountNotFound(p.credit))) else
    var c := accounts1[p.credit];
    if Sub(c.pendingCredits, amount).None? then Posting(accounts1, Some(InvariantViolation(c.id))) else
    if Add(c.postedCredits, amount).None? then Posting(accounts1, Some(BalanceOverflow(c.id))) else
    Posting(accounts1[p.credit := c.(pendingCredits := c.pendingCredits - amount,
                                     postedCredits := c.postedCredits + amount)], None)
  }

  /** releasePending: give back what hold `p` still reserves (void or expiry). */
  function ReleasePending(accounts: map<Id, Account>, p: Transfer): Posting {
    if p.debit !in accounts then Posting(accounts, Some(AccountNotFound(p.debit))) else
    var d := accounts[p.debit];
    if Sub(d.pendingDebits, p.amount).None? then Posting(accounts, Some(InvariantViolation(d.id))) else
    var accounts1 := accounts[p.debit := d.(pendingDebits := d.pendingDebits - p.amount)];
    if p.credit !in accounts1 then Posting(accounts1, Some(AccountNotFound(p.credit))) else
    var c := accounts1[p.credit];
    if Sub(c.pendingCredits, p.amount).None? then Posting(accounts1, Some(InvariantViolation(c.id))) else
    Posting(accounts1[p.credit := c.(pendingCredits := c.pendingCredits - p.amount)], None)
  }

  /** reservePending, the account part. */
  function Reserve(accounts: map<Id, Account>, t: Transfer): Posting {
    if t.debit !in accounts then Posting(accounts, Some(AccountNotFound(t.debit))) else
    var d := accounts[t.debit];
    if Add(d.pendingDebits, t.amount).None? then Posting(accounts, Some(BalanceOverflow(t.debit))) else
    var accounts1 := accounts[t.debit := d.(pendingDebits := d.pendingDebits + t.amount)];
    if t.credit !in accounts1 then Posting(accounts1, Some(AccountNotFound(t.credit))) else
    var c := accounts1[t.credit];
    if Add(c.pendingCredits, t.amount).None? then Posting(accounts1, Some(BalanceOverflow(t.credit))) else
    Posting(accounts1[t.credit := c.(pendingCredits := c.pendingCredits + t.amount)], None)
  }

  /** postImmediate: ApplyDebit, which re-checks the balance after the update, then ApplyCredit. */
  function PostImmediate(accounts: map<Id, Account>, t: Transfer): Posting {
    if t.debit !in accounts then Posting(accounts, Some(AccountNotFound(t.debit))) else
    var d := accounts[t.debit];
    if Add(d.postedDebits, t.amount).None? then Posting(accounts, Some(BalanceOverflow(t.debit))) else
    var d1 := d.(postedDebits := d.postedDebits + t.amount);
    var accounts1 := accounts[t.debit := d1];
    if Balance(d1).Err? then Posting(accounts1, Some(Balance(d1).error)) else
    if t.credit !in accounts1 then Posting(accounts1, Some(AccountNotFound(t.credit))) else
    var c := accounts1[t.credit];
    if Add(c.postedCredits, t.amount).None? then Posting(accounts1, Some(BalanceOverflow(t.credit))) else
    Posting(accounts1[t.credit := c.(postedCredits := c.postedCredits + t.amount)], None)
  }

  /** One executed transfer: the books it leaves and the error it reports, if any. */
  datatype Execution = Execution(books: Books, err: Option<Error>)

  /** Post `amount` of the hold under `id`; a hold posted in full is closed, another shrinks. */
  function PostHold(b: Books, id: Id, amount: U128): Execution
    requires id in b.holds && amount <= b.holds[id].amount
  {
    var p := b.holds[id];
    var m := MovePending(b.accounts, p, amount);
    if m.err.Some? then Execution(Books(m.accounts, b.holds), m.err)
    else if p.amount == amount then Execution(Books(m.accounts, b.holds - {id}), None)
    else Execution(Books(m.accounts, b.holds[id := p.(amount := p.amount - amount)]), None)
  }

  /** Void the hold under `id`. */
  function VoidHold(b: Books, id: Id): Execution
    requires id in b.holds
  {
    var m := ReleasePending(b.accounts, b.holds[id]);
    if m.err.Some? then Execution(Books(m.accounts, b.holds), m.err)
    else Execution(Books(m.accounts, b.holds - {id}), None)
  }

  /** ApplyTransferState without the transfer index: check, then move money and holds. */
  function Exec(b: Books, t: Transfer): Execution {
    match CheckTransfer(b, t)
    case Err(e) => Execution(b, Some(e))
    case Ok(amount) =>
      if IsPost(t) then PostHold(b, t.id, amount)
      else if IsVoid(t) then VoidHold(b, t.id)
      else if IsPending(t) then
        var m := Reserve(b.accounts, t);
        if m.err.Some? then Execution(Books(m.accounts, b.holds), m.err)
        else Execution(Books(m.accounts, b.holds[t.id := t]), None)
      else
        var m := PostImmediate(b.accounts, t);
        Execution(Books(m.accounts, b.holds), m.err)
  }

  /* ----- the validator's rule ----- */

  /** What validateAndApply decides about one leg, on the effective books `b` (the starting
    * state under the overlay), leaving out the duplicate-id test. */
  function Stage(b: Books, t: Transfer): Result<Books> {
    if HasUnknownFlags(t) then
      Err(InvalidTransferFlags(t.flags))
    else if (IsPost(t) && (IsPending(t) || IsVoid(t))) || (IsVoid(t) && IsPending(t)) then
      Err(InvalidTransferFlags(t.flags))
    else if IsSettlement(t) then
      StageSettlement(b, t)
    else
      StageOpening(b, t)
  }

  function StageSettlement(b: Books, t: Transfer): Result<Books> {
    if t.id !in b.holds then Err(PendingNotFound(t.id)) else
    var p := b.holds[t.id];
    if t.ledger != 0 && t.ledger != p.ledger then Err(LedgerMismatch(t.ledger, p.ledger, p.ledger)) else
    if IsPost(t) && t.amount != 0 && t.amount > p.amount then Err(OverTransfer(t.id, p.amount, t.amount)) else
    var amount := if IsPost(t) && t.amount != 0 then t.amount else p.amount;
    if p.debit !in b.accounts then Err(AccountNotFound(p.debit)) else
    if p.credit !in b.accounts then Err(AccountNotFound(p.credit)) else
    if IsPost(t) then StagePost(b, t, p, amount) else StageVoid(b, t, p)
  }

  function StagePost(b: Books, t: Transfer, p: Transfer, amount: U128): Result<Books>
    requires p.debit in b.accounts && p.credit in b.accounts && amount <= p.amount
  {
    var d := b.accounts[p.debit];
    if amount > d.pendingDebits then Err(InvariantViolation(d.id)) else
    if d.postedDebits + amount >= TWO_128 then Err(BalanceOverflow(d.id)) else
    var accounts1 := b.accounts[p.debit := d.(pendingDebits := d.pendingDebits - amount,
                                              postedDebits := d.postedDebits + amount)];
    var c := accounts1[p.credit];
    if amount > c.pendingCredits then Err(InvariantViolation(c.id)) else
    if c.postedCredits + amount >= TWO_128 then Err(BalanceOverflow(c.id)) else
    var accounts2 := accounts1[p.credit := c.(pendingCredits := c.pendingCredits - amount,
                                              postedCredits := c.postedCredits + amount)];
    Ok(Books(accounts2,
             if p.amount == amount then b.holds - {t.id}
             else b.holds[t.id := p.(amount := p.amount - amount)]))
  }

  function StageVoid(b: Books, t: Transfer, p: Transfer): Result<Books>
    requires p.debit in b.accounts && p.credit in b.accounts
  {
    var d := b.accounts[p.debit];
    if p.amount > d.pendingDebits then Err(InvariantViolation(d.id)) else
    var accounts1 := b.accounts[p.debit := d.(pendingDebits := d.pendingDebits - p.amount)];
    var c := accounts1[p.credit];
    if p.amount > c.pendingCredits then Err(InvariantViolation(c.id)) else
    Ok(Books(accounts1[p.credit := c.(pendingCredits := c.pendingCredits - p.amount)], b.holds - {t.id}))
  }

  function StageOpening(b: Books, t: Transfer): Result<Books> {
    if t.amount == 0 then Err(ZeroAmount) else
    if t.debit == t.credit then Err(SelfTransfer(t.debit)) else
    if t.debit !in b.accounts then Err(AccountNotFound(t.debit)) else
    if t.credit !in b.accounts then Err(AccountNotFound(t.credit)) else
    var d, c := b.accounts[t.debit], b.accounts[t.credit];
    if d.currency != c.currency then Err(CurrencyMismatch(d.currency, c.currency)) else
    if d.ledger != t.ledger || c.ledger != t.ledger then Err(LedgerMismatch(t.ledger, d.ledger, c.ledger)) else
    if IsFrozen(d) then Err(AccountFrozen(d.id)) else
    if IsClosed(d) then Err(AccountClosed(d.id)) else
    if IsFrozen(c) then Err(AccountFrozen(c.id)) else
    if IsClosed(c) then Err(AccountClosed(c.id)) else
    if IsPending(t) then StageHold(b, t) else StagePlain(b, t)
  }

  function StageHold(b: Books, t: Transfer): Result<Books>
    requires t.debit in b.accounts && t.credit in b.accounts
  {
    var d, c := b.accounts[t.debit], b.accounts[t.credit];
    match AvailableBalance(d)
    case Err(e) => Err(e)
    case Ok(avail) =>
      if avail < t.amount then Err(InsufficientFunds(d.id, avail, t.amount)) else
      if d.pendingDebits + t.amount >= TWO_128 then Err(BalanceOverflow(d.id)) else
      if c.pendingCredits + t.amount >= TWO_128 then Err(BalanceOverflow(c.id)) else
      Ok(Books(b.accounts[t.debit := d.(pendingDebits := d.pendingDebits + t.amount)]
                         [t.credit := c.(pendingCredits := c.pendingCredits + t.amount)],
               b.holds[t.id := t]))
  }

  function StagePlain(b: Books, t: Transfer): Result<Books>
    requires t.debit in b.accounts && t.credit in b.accounts
  {
    var d, c := b.accounts[t.debit], b.accounts[t.credit];
    match Balance(d)
    case Err(e) => Err(e)
    case Ok(bal) =>
      if bal < t.amount then Err(InsufficientFunds(d.id, bal, t.amount)) else
      if d.postedDebits + t.amount >= TWO_128 then Err(BalanceOverflow(d.id)) else
      if c.postedCredits + t.amount >= TWO_128 then Err(BalanceOverflow(c.id)) else
      Ok(Books(b.accounts[t.debit := d.(postedDebits := d.postedDebits + t.amount)]
                         [t.credit := c.(postedCredits := c.postedCredits + t.amount)],
               b.holds))
  }

  /** Every open hold names accounts that exist. */
  predicate Backed(b: Books) {
    forall k <- b.holds :: b.holds[k].debit in b.accounts && b.holds[k].credit in b.accounts
  }

  /** The validator accepts a leg exactly when applying it succeeds, with the same books;
    * it refuses it with the error the apply path would report. */
  lemma StageAgreesWithExec(b: Books, t: Transfer)
    requires Keyed(b.accounts)
    ensures match Stage(b, t)
            case Ok(after) => Exec(b, t) == Execution(after, None)
            case Err(e) => Exec(b, t).err.Some? && (Backed(b) ==> Exec(b, t).err == Some(e))
  {
    if HasUnknownFlags(t) || (IsPost(t) && (IsPending(t) || IsVoid(t))) || (IsVoid(t) && IsPending(t)) {
    } else if IsSettlement(t) {
      SettlementsAgree(b, t);
    } else {
      OpeningsAgree(b, t);
    }
  }

  lemma SettlementsAgree(b: Books, t: Transfer)
    requires !HasUnknownFlags(t) && IsSettlement(t) && !IsPending(t) && !(IsPost(t) && IsVoid(t))
    requires Keyed(b.accounts)
    ensures match StageSettlement(b, t)
            case Ok(after) => Exec(b, t) == Execution(after, None)
            case Err(e) => Exec(b, t).err.Some? && (Backed(b) ==> Exec(b, t).err == Some(e))
  {
    if CheckSettlement(b, t).Ok? {
      var p, amount := b.holds[t.id], CheckSettlement(b, t).value;
      if IsPost(t) { PostsAgree(b, t, p, amount); } else { VoidsAgree(b, t, p); }
    }
    hide MovePending, ReleasePending;
  }

  lemma PostsAgree(b: Books, t: Transfer, p: Transfer, amount: U128)
    requires Keyed(b.accounts) && t.id in b.holds && p == b.holds[t.id] && amount <= p.amount
    ensures p.debit !in b.accounts || p.credit !in b.accounts ==>
              PostHold(b, t.id, amount).err.Some? && !Backed(b)
    ensures p.debit in b.accounts && p.credit in b.accounts ==>
              match StagePost(b, t, p, amount)
              case Ok(after) => PostHold(b, t.id, amount) == Execution(after, None)
              case Err(e) => PostHold(b, t.id, amount).err == Some(e)
  {
  }

  lemma VoidsAgree(b: Books, t: Transfer, p: Transfer)
    requires Keyed(b.accounts) && t.id in b.holds && p == b.holds[t.id]
    ensures p.debit !in b.accounts || p.credit !in b.accounts ==> VoidHold(b, t.id).err.Some? && !Backed(b)
    ensures p.debit in b.accounts && p.credit in b.accounts ==>
              match StageVoid(b, t, p)
              case Ok(after) => VoidHold(b, t.id) == Execution(after, None)
              case Err(e) => VoidHold(b, t.id).err == Some(e)
  {
  }

  lemma OpeningsAgree(b: Books, t: Transfer)
    requires !HasUnknownFlags(t) && !IsSettlement(t)
    requires Keyed(b.accounts)
    ensures match StageOpening(b, t)
            case Ok(after) => Exec(b, t) == Execution(after, None)
            case Err(e) => Exec(b, t).err.Some? && (Backed(b) ==> Exec(b, t).err == Some(e))
  {
  }

  lemma ExecKeepsKeyed(b: Books, t: Transfer)
    requires Keyed(b.accounts)
    ensures Keyed(Exec(b, t).books.accounts)
  {
  }

  /** The fields that no transfer changes agree. */
  predicate SameAccount(a: Account, a': Account) {
    a' == a.(postedDebits := a'.postedDebits, postedCredits := a'.postedCredits,
             pendingDebits := a'.pendingDebits, pendingCredits := a'.pendingCredits)
  }

  predicate SameAccounts(accounts: map<Id, Account>, accounts': map<Id, Account>) {
    && accounts'.Keys == accounts.Keys
    && forall k <- accounts :: SameAccount(accounts[k], accounts'[k])
  }

  /** What a transfer does, in one form for all kinds: the hold or transfer `p` whose parties it
    * touches, the change of what is pending and of what is posted, and the open holds after. */
  datatype Entry = Entry(p: Transfer, pending: int, posted: int, holds: map<Id, Transfer>)

  function EntryOf(b: Books, t: Transfer): Entry {
    if IsSettlement(t) && t.id in b.holds then
      var p := b.holds[t.id];
      var amount := if IsPost(t) && t.amount != 0 then t.amount else p.amount;
      Entry(p, -amount, if IsPost(t) then amount else 0,
            if amount < p.amount then b.holds[t.id := p.(amount := p.amount - amount)] else b.holds - {t.id})
    else if IsPending(t) then Entry(t, t.amount, 0, b.holds[t.id := t])
    else Entry(t, 0, t.amount, b.holds)
  }

  /** Both sides of an entry: the debit account's debits and the credit account's credits change
    * by the same amounts, and nothing else changes. */
  predicate DoubleEntry(accounts: map<Id, Account>, accounts': map<Id, Account>, e: Entry) {
    var dr, cr := e.p.debit, e.p.credit;
    && SameAccounts(accounts, accounts')
    && dr in accounts && cr in accounts && dr != cr
    && accounts'[dr].pendingDebits == accounts[dr].pendingDebits + e.pending
    && accounts'[dr].postedDebits == accounts[dr].postedDebits + e.posted
    && accounts'[dr].pendingCredits == accounts[dr].pendingCredits
    && accounts'[dr].postedCredits == accounts[dr].postedCredits
    && accounts'[cr].pendingCredits == accounts[cr].pendingCredits + e.pending
    && accounts'[cr].postedCredits == accounts[cr].postedCredits + e.posted
    && accounts'[cr].pendingDebits == accounts[cr].pendingDebits
    && accounts'[cr].postedDebits == accounts[cr].postedDebits
    && forall k | k in accounts && k != dr && k != cr :: accounts'[k] == accounts[k]
  }

  lemma MoveIsDoubleEntry(accounts: map<Id, Account>, p: Transfer, amount: U128, holds: map<Id, Transfer>)
    requires MovePending(accounts, p, amount).err.None? && p.debit != p.credit
    ensures DoubleEntry(accounts, MovePending(accounts, p, amount).accounts, Entry(p, -(amount as int), amount, holds))
  {
  }

  lemma ReleaseIsDoubleEntry(accounts: map<Id, Account>, p: Transfer, holds: map<Id, Transfer>)
    requires ReleasePending(accounts, p).err.None? && p.debit != p.credit
    ensures DoubleEntry(accounts, ReleasePending(accounts, p).accounts, Entry(p, -(p.amount as int), 0, holds))
  {
  }

  lemma ReserveIsDoubleEntry(accounts: map<Id, Account>, t: Transfer, holds: map<Id, Transfer>)
    requires Reserve(accounts, t).err.None? && t.debit != t.credit
    ensures DoubleEntry(accounts, Reserve(accounts, t).accounts, Entry(t, t.amount, 0, holds))
  {
  }

  lemma PlainIsDoubleEntry(accounts: map<Id, Account>, t: Transfer, holds: map<Id, Transfer>)
    requires PostImmediate(accounts, t).err.None? && t.debit != t.credit
    ensures DoubleEntry(accounts, PostImmediate(accounts, t).accounts, Entry(t, 0, t.amount, holds))
  {
  }

  /** Every successful transfer is a double entry. */
  lemma ExecIsDoubleEntry(b: Books, t: Transfer)
    requires Exec(b, t).err.None?
    requires t.id in b.holds ==> b.holds[t.id].debit != b.holds[t.id].credit
    ensures Exec(b, t).books.holds == EntryOf(b, t).holds
    ensures DoubleEntry(b.accounts, Exec(b, t).books.accounts, EntryOf(b, t))
  {
    var e := EntryOf(b, t);
    if IsPost(t) {
      MoveIsDoubleEntry(b.accounts, e.p, e.posted, e.holds);
    } else if IsVoid(t) {
      ReleaseIsDoubleEntry(b.accounts, e.p, e.holds);
    } else if IsPending(t) {
      ReserveIsDoubleEntry(b.accounts, t, e.holds);
    } else {
      PlainIsDoubleEntry(b.accounts, t, e.holds);
    }
    hide MovePending, ReleasePending, Reserve, PostImmediate, DoubleEntry;
  }
}
