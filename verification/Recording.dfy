/** What ApplyTransferState leaves in the transfer index and the account histories
  * (internal/engine/accounts.go), in the fields of the recorded operation. */
module Recording {
  import opened Core
  import opened Engine
  import opened Machine
  import opened Acceptance

  /** The recorded form of a post or void of hold `p`: the caller's fields, and the hold's where the
    * caller left the ledger or a party blank. */
  predicate Completes(x: Transfer, t: Transfer, p: Transfer) {
    && x == t.(debit := x.debit, credit := x.credit, ledger := x.ledger)
    && (if t.debit == 0 then x.debit == p.debit else x.debit == t.debit)
    && (if t.credit == 0 then x.credit == p.credit else x.credit == t.credit)
    && (if t.ledger == 0 then x.ledger == p.ledger else x.ledger == t.ledger)
  }

  /** What an account's history was; accounts without one have none. */
  function Past(s: State, a: Id): seq<Id> {
    if a in s.history then s.history[a] else []
  }

  /** After every successful operation: the index has gained or replaced exactly the entry of its id,
    * which is the operation as given, or a settlement completed from its hold; and exactly the two
    * recorded parties' histories end with its id, once also when they are the same account. */
  lemma RecordedExactly(s: State, t: Transfer)
    requires ApplyTransfer(s, t).err.None?
    ensures var s' := ApplyTransfer(s, t).state;
            && t.id in s'.transfers && s'.transfers - {t.id} == s.transfers - {t.id}
            && var x := s'.transfers[t.id];
               && (if Opening(t) then x == t else t.id in s.books.holds && Completes(x, t, s.books.holds[t.id]))
               && forall a :: Past(s', a) == Past(s, a) + (if a == x.debit || a == x.credit then [t.id] else [])
    ensures var s' := ApplyTransfer(s, t).state;
            s'.history.Keys == s.history.Keys + {s'.transfers[t.id].debit, s'.transfers[t.id].credit}
  {
    hide Exec, Acceptable;
    AcceptedExactly(s.books, t);
    AcceptedFlags(s.books, t);
    Kinds(t);
    if !Opening(t) { SettledAmount(s.books, t); }
  }

  /** A refused operation leaves index and histories alone. */
  lemma RefusedRecordsNothing(s: State, t: Transfer)
    requires ApplyTransfer(s, t).err.Some?
    ensures var s' := ApplyTransfer(s, t).state; s'.transfers == s.transfers && s'.history == s.history
  {
    hide Exec;
  }
}
