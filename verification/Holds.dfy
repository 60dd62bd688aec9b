/** Invariants of the books: what accounts hold in reserve against the open holds, what the
  * posted balances of a ledger add up to, and what the expiry of holds does. */
module Holds {
  import opened Core
  import opened Engine

  datatype Side = Debit | Credit

  function Party(t: Transfer, side: Side): Id {
    match side case Debit => t.debit case Credit => t.credit
  }

  /** What hold `t` reserves on the given side of account `a`. */
  function Share(t: Transfer, side: Side, a: Id): nat {
    if Party(t, side) == a then t.amount else 0
  }

  function Reserved(acc: Account, side: Side): U128 {
    match side case Debit => acc.pendingDebits case Credit => acc.pendingCredits
  }

  /** The total the open holds reserve on one side of account `a`. */
  ghost function Held(holds: map<Id, Transfer>, side: Side, a: Id): nat
    decreases holds.Keys
  {
    if holds == map[] then 0
    else var k :| k in holds; Share(holds[k], side, a) + Held(holds - {k}, side, a)
  }

  lemma {:induction false} HeldTakeOut(holds: map<Id, Transfer>, k: Id, side: Side, a: Id)
    requires k in holds
    ensures Held(holds, side, a) == Share(holds[k], side, a) + Held(holds - {k}, side, a)
    decreases holds.Keys
  {
    var j :| j in holds && Held(holds, side, a) == Share(holds[j], side, a) + Held(holds - {j}, side, a);
    if j != k {
      HeldTakeOut(holds - {j}, k, side, a);
      HeldTakeOut(holds - {k}, j, side, a);
      assert holds - {j} - {k} == holds - {k} - {j};
    }
  }

  lemma HeldPut(holds: map<Id, Transfer>, k: Id, t: Transfer, side: Side, a: Id)
    ensures Held(holds[k := t], side, a) == Share(t, side, a) + Held(holds - {k}, side, a)
  {
    HeldTakeOut(holds[k := t], k, side, a);
    assert holds[k := t] - {k} == holds - {k};
  }

  /** The holds with an id in `part`. */
  function Only(holds: map<Id, Transfer>, part: set<Id>): map<Id, Transfer> {
    map k | k in holds && k in part :: holds[k]
  }

  /** Holds split by any choice of ids. */
  lemma {:induction false} HeldSplit(holds: map<Id, Transfer>, part: set<Id>, side: Side, a: Id)
    ensures Held(holds, side, a) == Held(Only(holds, part), side, a) + Held(holds - part, side, a)
    decreases holds.Keys
  {
    var inside := Only(holds, part);
    if holds == map[] {
      assert inside == map[] && holds - part == map[];
    } else {
      var j :| j in holds;
      HeldTakeOut(holds, j, side, a);
      var rest := holds - {j};
      HeldSplit(rest, part, side, a);
      var inside' := Only(rest, part);
      if j in part {
        HeldTakeOut(inside, j, side, a);
        assert inside - {j} == inside';
        assert rest - part == holds - part;
      } else {
        assert inside == inside';
        HeldTakeOut(holds - part, j, side, a);
        assert rest - part == holds - part - {j};
      }
    }
  }

  /** A hold is stored under its id, moves a positive amount between two accounts of its ledger. */
  predicate HoldOk(b: Books, k: Id)
    requires k in b.holds
  {
    var t := b.holds[k];
    && t.id == k
    && t.amount > 0
    && t.debit != t.credit
    && t.debit in b.accounts && b.accounts[t.debit].ledger == t.ledger
    && t.credit in b.accounts && b.accounts[t.credit].ledger == t.ledger
  }

  /** No account reserves less than its open holds need. */
  ghost predicate Funded(b: Books) {
    forall a, side | a in b.accounts :: Held(b.holds, side, a) <= Reserved(b.accounts[a], side)
  }

  /** The invariant of the books. */
  ghost predicate Sound(b: Books) {
    && Keyed(b.accounts)
    && (forall k <- b.holds :: HoldOk(b, k))
    && Funded(b)
  }

  /** What account `a` has in reserve beyond its open holds. */
  ghost function Surplus(b: Books, side: Side, a: Id): int
    requires a in b.accounts
  {
    Reserved(b.accounts[a], side) - Held(b.holds, side, a)
  }

  /** What a new hold with an id in use loses: the share of the hold it replaces. */
  function Replaced(b: Books, t: Transfer, side: Side, a: Id): nat {
    if OpensHold(t) && t.id in b.holds then Share(b.holds[t.id], side, a) else 0
  }

  /** The exact effect of one applied transfer on every account's reserve: reserves follow the
    * open holds, except that a hold opened under an id already open strands the old hold's share. */
  lemma ExecSurplus(b: Books, t: Transfer, side: Side, a: Id)
    requires Sound(b) && Exec(b, t).err.None? && a in b.accounts
    ensures SameAccounts(b.accounts, Exec(b, t).books.accounts)
    ensures Surplus(Exec(b, t).books, side, a) == Surplus(b, side, a) + Replaced(b, t, side, a)
  {
    assert t.id in b.holds ==> HoldOk(b, t.id);
    ExecIsDoubleEntry(b, t);
    assert IsSettlement(t) ==> t.id in b.holds && (IsPost(t) ==> t.amount <= b.holds[t.id].amount);
    hide Exec, Sound;
    EntryHeld(b, t, side, a);
  }

  /** How an entry changes what the open holds reserve. */
  lemma EntryHeld(b: Books, t: Transfer, side: Side, a: Id)
    requires IsSettlement(t) ==> t.id in b.holds && (IsPost(t) ==> t.amount <= b.holds[t.id].amount)
    ensures var e := EntryOf(b, t);
            Held(e.holds, side, a)
            == Held(b.holds, side, a) + (if Party(e.p, side) == a then e.pending else 0) - Replaced(b, t, side, a)
  {
    var e := EntryOf(b, t);
    if t.id in b.holds { HeldTakeOut(b.holds, t.id, side, a); }
    if IsSettlement(t) {
      if -e.pending < e.p.amount {
        HeldPut(b.holds, t.id, e.p.(amount := e.p.amount + e.pending), side, a);
      }
    } else if IsPending(t) {
      HeldPut(b.holds, t.id, t, side, a);
      if t.id !in b.holds { assert b.holds - {t.id} == b.holds; }
    }
  }

  /** Every applied transfer keeps the invariant, whatever its id. */
  lemma ExecKeepsSound(b: Books, t: Transfer)
    requires Sound(b) && Exec(b, t).err.None?
    ensures Sound(Exec(b, t).books)
    ensures SameAccounts(b.accounts, Exec(b, t).books.accounts)
  {
    var b' := Exec(b, t).books;
    assert SameAccounts(b.accounts, b'.accounts) by {
      if a :| a in b.accounts { ExecSurplus(b, t, Debit, a); }
    }
    forall a, side | a in b'.accounts
      ensures Held(b'.holds, side, a) <= Reserved(b'.accounts[a], side)
    {
      ExecSurplus(b, t, side, a);
    }
    forall k | k in b'.holds
      ensures HoldOk(b', k)
    {
      if k in b.holds { assert HoldOk(b, k); }
    }
  }

  /** In sound books a settlement never runs short of the reserve it draws on: the checks on the
    * hold itself are all that can refuse it, besides an overflow of a posted total. */
  lemma SettlementNeverUnderflows(b: Books, t: Transfer)
    requires Sound(b) && IsSettlement(t)
    ensures match CheckTransfer(b, t)
            case Err(e) => Exec(b, t).err == Some(e)
            case Ok(_) => Exec(b, t).err.None? || (IsPost(t) && Exec(b, t).err.value.BalanceOverflow?)
  {
    if CheckTransfer(b, t).Ok? {
      var p := b.holds[t.id];
      assert HoldOk(b, t.id);
      HeldTakeOut(b.holds, t.id, Debit, p.debit);
      HeldTakeOut(b.holds, t.id, Credit, p.credit);
      assert Held(b.holds, Debit, p.debit) <= Reserved(b.accounts[p.debit], Debit);
      assert Held(b.holds, Credit, p.credit) <= Reserved(b.accounts[p.credit], Credit);
    }
  }

  /* ----- conservation ----- */

  function Net(acc: Account, ledger: U32): int {
    if acc.ledger == ledger then acc.postedCredits - acc.postedDebits else 0
  }

  /** Total posted credits minus total posted debits of one ledger. */
  ghost function LedgerTotal(accounts: map<Id, Account>, ledger: U32): int
    decreases accounts.Keys
  {
    if accounts == map[] then 0
    else var k :| k in accounts; Net(accounts[k], ledger) + LedgerTotal(accounts - {k}, ledger)
  }

  lemma {:induction false} TotalTakeOut(accounts: map<Id, Account>, k: Id, ledger: U32)
    requires k in accounts
    ensures LedgerTotal(accounts, ledger) == Net(accounts[k], ledger) + LedgerTotal(accounts - {k}, ledger)
    decreases accounts.Keys
  {
    var j :| j in accounts
      && LedgerTotal(accounts, ledger) == Net(accounts[j], ledger) + LedgerTotal(accounts - {j}, ledger);
    if j != k {
      TotalTakeOut(accounts - {j}, k, ledger);
      TotalTakeOut(accounts - {k}, j, ledger);
      assert accounts - {j} - {k} == accounts - {k} - {j};
    }
  }

  lemma TotalPut(accounts: map<Id, Account>, k: Id, acc: Account, ledger: U32)
    requires k in accounts
    ensures LedgerTotal(accounts[k := acc], ledger)
         == LedgerTotal(accounts, ledger) - Net(accounts[k], ledger) + Net(acc, ledger)
  {
    TotalTakeOut(accounts, k, ledger);
    TotalTakeOut(accounts[k := acc], k, ledger);
    assert accounts[k := acc] - {k} == accounts - {k};
  }

  /** No applied transfer changes the total of any ledger. */
  lemma ExecConserves(b: Books, t: Transfer, ledger: U32)
    requires Sound(b) && Exec(b, t).err.None?
    ensures LedgerTotal(Exec(b, t).books.accounts, ledger) == LedgerTotal(b.accounts, ledger)
  {
    assert t.id in b.holds ==> HoldOk(b, t.id);
    ExecIsDoubleEntry(b, t);
    var e := EntryOf(b, t);
    assert b.accounts[e.p.debit].ledger == b.accounts[e.p.credit].ledger;
    var after := Exec(b, t).books.accounts;
    hide Exec, Sound;
    EntryConserves(b.accounts, after, e, ledger);
  }

  lemma EntryConserves(accounts: map<Id, Account>, after: map<Id, Account>, e: Entry, ledger: U32)
    requires DoubleEntry(accounts, after, e)
    requires accounts[e.p.debit].ledger == accounts[e.p.credit].ledger
    ensures LedgerTotal(after, ledger) == LedgerTotal(accounts, ledger)
  {
    var middle := accounts[e.p.debit := after[e.p.debit]];
    assert after == middle[e.p.credit := after[e.p.credit]];
    TotalPut(accounts, e.p.debit, after[e.p.debit], ledger);
    TotalPut(middle, e.p.credit, after[e.p.credit], ledger);
  }

  /** Totals are unchanged by updates that leave every account's posted sides and ledger alone. */
  lemma {:induction false} SamePostedSameTotal(accounts: map<Id, Account>, accounts': map<Id, Account>, ledger: U32)
    requires accounts'.Keys == accounts.Keys
    requires forall k <- accounts :: Net(accounts'[k], ledger) == Net(accounts[k], ledger)
    ensures LedgerTotal(accounts', ledger) == LedgerTotal(accounts, ledger)
    decreases accounts.Keys
  {
    if accounts == map[] {
      assert accounts' == map[];
    } else {
      var k :| k in accounts;
      TotalTakeOut(accounts, k, ledger);
      TotalTakeOut(accounts', k, ledger);
      SamePostedSameTotal(accounts - {k}, accounts' - {k}, ledger);
    }
  }
}
