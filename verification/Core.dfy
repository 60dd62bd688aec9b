/** The value types of the ledger (internal/core): fixed-width numbers, accounts,
  * transfers and the errors an operation can report.
  *
  * Byte arrays of a fixed length (ids, currencies, keys, user data) are modelled
  * by the number their bytes denote in big-endian order. */
module Core {
  datatype Option<+T> = None | Some(value: T)

  const TWO_16: nat := 0x1_0000
  const TWO_32: nat := 0x1_0000_0000
  const TWO_63: int := 0x8000_0000_0000_0000
  const TWO_64: nat := 0x1_0000_0000_0000_0000
  const TWO_128: nat := 0x1_0000_0000_0000_0000_0000_0000_0000_0000
  const TWO_256: nat := TWO_128 * TWO_128

  type U16 = x: nat | x < TWO_16
  type U32 = x: nat | x < TWO_32
  type U64 = x: nat | x < TWO_64
  type U128 = x: nat | x < TWO_128
  type U256 = x: nat | x < TWO_256
  type I64 = x: int | -TWO_63 <= x < TWO_63

  /** A 16-byte identifier. */
  type Id = U128

  const ZERO_ID: Id := 0
  const I64_MAX: I64 := TWO_63 - 1

  /** Two's-complement reduction to 64 bits: what int64 arithmetic does on overflow. */
  function ToI64(x: int): (r: I64)
    ensures -TWO_63 <= x < TWO_63 ==> r == x
  {
    (x + TWO_63) % TWO_64 - TWO_63
  }

  datatype Account = Account(
    id: Id, currency: U32, ledger: U32, code: U16, flags: U32, userData: U128,
    postedDebits: U128, postedCredits: U128, pendingDebits: U128, pendingCredits: U128)

  datatype Transfer = Transfer(
    id: Id, debit: Id, credit: Id, amount: U128, key: U256, userData: U128,
    timestamp: I64, timeout: U64, ledger: U32, code: U16, flags: U32)

  /* Account flags: bit 0 frozen, bit 1 closed. */
  predicate IsFrozen(a: Account) { a.flags % 2 == 1 }
  predicate IsClosed(a: Account) { a.flags / 2 % 2 == 1 }

  /* Transfer flags: bit 0 pending, bit 1 post, bit 2 void, bit 3 linked; others are unknown. */
  predicate IsPending(t: Transfer) { t.flags % 2 == 1 }
  predicate IsPost(t: Transfer) { t.flags / 2 % 2 == 1 }
  predicate IsVoid(t: Transfer) { t.flags / 4 % 2 == 1 }
  predicate IsLinked(t: Transfer) { t.flags / 8 % 2 == 1 }
  predicate HasUnknownFlags(t: Transfer) { t.flags >= 16 }

  /** A post or a void refers to an open hold with the same id. */
  predicate IsSettlement(t: Transfer) { IsPost(t) || IsVoid(t) }

  /** A transfer that opens a hold. */
  predicate OpensHold(t: Transfer) { IsPending(t) && !IsSettlement(t) }

  /** The absolute deadline stored for a hold, with the wrap-around of int64 addition. */
  function Deadline(t: Transfer): I64 { ToI64(t.timestamp + t.timeout) }

  datatype Error =
    | InvalidTransferFlags(flags: U32)
    | DuplicateTransferID(id: Id)
    | DuplicateAccountID(id: Id)
    | PendingNotFound(id: Id)
    | LedgerMismatch(transferLedger: U32, debitLedger: U32, creditLedger: U32)
    | OverTransfer(id: Id, pending: U128, amount: U128)
    | AccountNotFound(id: Id)
    | InvariantViolation(id: Id)
    | BalanceOverflow(id: Id)
    | ZeroAmount
    | SelfTransfer(id: Id)
    | CurrencyMismatch(debitCurrency: U32, creditCurrency: U32)
    | AccountFrozen(id: Id)
    | AccountClosed(id: Id)
    | InsufficientFunds(id: Id, balance: U128, amount: U128)
    | LinkedChainFailed(failed: Id, index: nat, reason: Error)
    | LinkedChainOpen(id: Id, index: nat)
    | RestoredTwice(id: Id)
    | InvalidTransferPayload
    | InvalidAccountPayload

  datatype Result<+T> = Ok(value: T) | Err(error: Error)

  /* 128-bit arithmetic on values; module Words proves the two-word code computes it. */
  function Add(a: U128, b: U128): Option<U128> {
    if a + b < TWO_128 then Some(a + b) else None
  }

  function Sub(a: U128, b: U128): Option<U128> {
    if b <= a then Some(a - b) else None
  }

  /** Posted credits minus posted debits, or a violation when that is negative. */
  function Balance(a: Account): Result<U128> {
    match Sub(a.postedCredits, a.postedDebits)
    case None => Err(InvariantViolation(a.id))
    case Some(bal) => Ok(bal)
  }

  /** What a new hold may still reserve. */
  function AvailableBalance(a: Account): Result<U128> {
    match Balance(a)
    case Err(e) => Err(e)
    case Ok(posted) =>
      match Sub(posted, a.pendingDebits)
      case None => Err(InvariantViolation(a.id))
      case Some(avail) =>
        match Add(avail, a.pendingCredits)
        case None => Err(BalanceOverflow(a.id))
        case Some(r) => Ok(r)
  }

  /* ----- sequences ----- */

  lemma SplitFirst<T>(xs: seq<T>, ys: seq<T>)
    requires xs != []
    ensures xs == [xs[0]] + xs[1..] && xs + ys == [xs[0]] + (xs[1..] + ys)
    ensures (xs + ys)[0] == xs[0] && (xs + ys)[1..] == xs[1..] + ys
  {
  }

  lemma Regroup<T>(xs: seq<T>, ys: seq<T>, zs: seq<T>)
    ensures xs + (ys + zs) == xs + ys + zs
  {
  }

  /** `out` are the elements of `xs` at these places, in order. */
  predicate Picked<T(==)>(xs: seq<T>, places: seq<nat>, out: seq<T>) {
    && |out| == |places|
    && (forall k | 0 <= k < |places| :: places[k] < |xs| && out[k] == xs[places[k]])
    && (forall k, l | 0 <= k < l < |places| :: places[k] < places[l])
  }
}
