/** What every run of the live loop keeps: reserves in step with the open holds, the money of
  * each ledger, and the fixed fields of accounts.  And where promises end: a posted hold can
  * overdraw an account, and an overflowing deadline breaks replay. */
module Accounting {
  import opened Core
  import opened Engine
  import opened Holds
  import opened Expiry
  import opened Batch
  import opened Machine
  import opened Replaying

  /** The accounts as they were created, according to the journal; the first record of an id counts. */
  function Openings(rs: seq<Record>): map<Id, Account> {
    if rs == [] then map[]
    else
      var first := Openings(rs[..|rs| - 1]);
      match rs[|rs| - 1]
      case AccountRecord(acc) => if acc.id in first then first else first[acc.id := acc]
      case TransferRecord(_) => first
  }

  /** Every account is accounted for by its opening record: its fixed fields are unchanged, its
    * pending totals exceed the sums of its open holds by exactly what it was created with, and
    * each ledger's posted total is that of the opening records. */
  ghost predicate Accounted(b: Books, first: map<Id, Account>) {
    && SameAccounts(first, b.accounts)
    && (forall side, a | a in b.accounts :: Surplus(b, side, a) == Reserved(first[a], side))
    && (forall ledger :: LedgerTotal(b.accounts, ledger) == LedgerTotal(first, ledger))
  }

  ghost predicate InOrder(l: Live) {
    && Sound(l.state.books)
    && l.state.books.holds.Keys <= l.state.transfers.Keys
    && Accounted(l.state.books, Openings(Flatten(l.log)))
  }

  lemma {:induction false} OpeningsSkipTransfers(rs: seq<Record>, ts: seq<Transfer>)
    ensures Openings(rs + TransferRecords(ts)) == Openings(rs)
  {
    if ts == [] {
      assert rs + TransferRecords(ts) == rs;
    } else {
      var n := |ts| - 1;
      OpeningsSkipTransfers(rs, ts[..n]);
      assert (rs + TransferRecords(ts))[..|rs| + n] == rs + TransferRecords(ts[..n]);
    }
  }

  lemma {:induction false} ApplyAllIndexes(s: State, ts: seq<Transfer>)
    requires s.books.holds.Keys <= s.transfers.Keys && ApplyAll(s, ts).err.None?
    ensures ApplyAll(s, ts).state.books.holds.Keys <= ApplyAll(s, ts).state.transfers.Keys
    decreases |ts|
  {
    hide MovePending, ReleasePending, Reserve, PostImmediate, CheckOpening;
    if ts != [] {
      ApplyAllIndexes(ApplyTransfer(s, ts[0]).state, ts[1..]);
    }
  }

  lemma TightKeepsAccounted(b: Books, b': Books, first: map<Id, Account>)
    requires Accounted(b, first) && Tight(b, b')
    requires forall ledger :: LedgerTotal(b'.accounts, ledger) == LedgerTotal(b.accounts, ledger)
    ensures Accounted(b', first)
  {
    hide Surplus;
  }

  lemma ExpiryKeepsOrder(b: Books, clock: int, first: map<Id, Account>)
    requires Sound(b) && Accounted(b, first)
    ensures Sound(CloseAt(b, clock)) && Accounted(CloseAt(b, clock), first)
    ensures CloseAt(b, clock).holds.Keys <= b.holds.Keys
  {
    CloseKeepsSound(b, clock);
    forall side, a | a in b.accounts
      ensures Surplus(CloseAt(b, clock), side, a) == Surplus(b, side, a)
    {
      CloseSurplus(b, clock, side, a);
    }
    forall ledger
      ensures LedgerTotal(CloseAt(b, clock).accounts, ledger) == LedgerTotal(b.accounts, ledger)
    {
      CloseConserves(b, clock, ledger);
    }
    TightKeepsAccounted(b, CloseAt(b, clock), first);
  }

  lemma BatchKeepsOrder(s: State, evs: seq<Transfer>, first: map<Id, Account>)
    requires Sound(s.books) && Accounted(s.books, first) && s.books.holds.Keys <= s.transfers.Keys
    ensures var s' := ApplyBatch(s, evs, RuleBatch(s.transfers.Keys, s.books, evs).outcomes).state;
            Sound(s'.books) && Accounted(s'.books, first) && s'.books.holds.Keys <= s'.transfers.Keys
  {
    hide Sound, Exec, Rule, ApplyTransfer, AcceptedEvents, Accounted, Tight, ExecAll;
    var outcomes := RuleBatch(s.transfers.Keys, s.books, evs).outcomes;
    var ts := AcceptedEvents(evs, outcomes);
    LiveBatch(s, evs);
    ApplyAllIndexes(s, ts);
    ApplyAllBooks(s, ts);
    BatchIsTight(s.transfers.Keys, View(s.books, {}), evs, 0);
    var s' := ApplyAll(s, ts).state;
    forall ledger
      ensures LedgerTotal(s'.books.accounts, ledger) == LedgerTotal(s.books.accounts, ledger)
    {
      ExecAllConserves(s.books, ts, ledger);
    }
    TightKeepsAccounted(s.books, s'.books, first);
  }

  lemma ProcessBatchInOrder(l: Live, now: I64, evs: seq<Transfer>)
    requires InOrder(l)
    ensures InOrder(ProcessBatch(l, now, evs))
  {
    hide Sound, CloseAt, RuleBatch, AcceptedEvents, Accounted, ApplyBatch, Flatten, Openings, TransferRecords;
    var clock := BatchClock(l.clock, now);
    var s := CloseExpired(l.state, clock);
    var stamped := Stamped(evs, clock);
    var first := Openings(Flatten(l.log));
    ExpiryKeepsOrder(l.state.books, clock, first);
    BatchKeepsOrder(s, stamped, first);
    var ts := AcceptedEvents(stamped, RuleBatch(s.transfers.Keys, s.books, stamped).outcomes);
    FlattenJournal(l.log, TransferRecords(ts));
    OpeningsSkipTransfers(Flatten(l.log), ts);
  }

  lemma CreateKeepsAccounted(b: Books, acc: Account, rs: seq<Record>)
    requires Sound(b) && Accounted(b, Openings(rs))
    ensures Sound(Create(b, acc)) && Accounted(Create(b, acc), Openings(rs + [AccountRecord(acc)]))
  {
    var first, first' := Openings(rs), Openings(rs + [AccountRecord(acc)]);
    assert (rs + [AccountRecord(acc)])[..|rs|] == rs;
    var b' := Create(b, acc);
    CreateKeepsSound(b, acc);
    forall side, a | a in b'.accounts
      ensures Surplus(b', side, a) == Reserved(first'[a], side)
    {
      if a !in b.accounts { NewcomerHoldsNothing(b, side, a); }
    }
    forall ledger
      ensures LedgerTotal(b'.accounts, ledger) == LedgerTotal(first', ledger)
    {
      CreateTotal(b, acc, ledger);
      CreateTotal(Books(first, map[]), acc, ledger);
    }
  }

  lemma {:induction false} CreateAllKeepsAccounted(b: Books, accs: seq<Account>, rs: seq<Record>)
    requires Sound(b) && Accounted(b, Openings(rs))
    ensures Sound(CreateAll(b, accs)) && Accounted(CreateAll(b, accs), Openings(rs + AccountRecords(accs)))
  {
    hide Sound, Accounted, Openings;
    if accs == [] {
      assert rs + AccountRecords(accs) == rs;
    } else {
      var n := |accs| - 1;
      CreateAllKeepsAccounted(b, accs[..n], rs);
      CreateKeepsAccounted(CreateAll(b, accs[..n]), accs[n], rs + AccountRecords(accs[..n]));
      assert rs + AccountRecords(accs) == rs + AccountRecords(accs[..n]) + [AccountRecord(accs[n])];
    }
  }

  lemma ProcessAccountsInOrder(l: Live, accs: seq<Account>)
    requires InOrder(l)
    ensures InOrder(ProcessAccounts(l, accs))
  {
    hide Sound, Accounted, Flatten, Openings, Admitted;
    var admitted := Admitted(l.state.books, accs);
    CreateAllKeepsAccounted(l.state.books, admitted, Flatten(l.log));
    CreateAllKeepsHolds(l.state.books, admitted);
    FlattenJournal(l.log, AccountRecords(admitted));
  }

  /** In every run: soundness, an index that covers the open holds, and full accounting. */
  lemma {:induction false} RunInOrder(es: seq<Event>)
    ensures InOrder(Run(START, es))
  {
    hide ProcessBatch, ProcessAccounts;
    if es == [] {
      EmptyIsSound();
    } else {
      var n := |es| - 1;
      var l := Run(START, es[..n]);
      RunInOrder(es[..n]);
      match es[n]
      case Accounts(accs) => ProcessAccountsInOrder(l, accs);
      case Transfers(now, evs) => ProcessBatchInOrder(l, now, evs);
    }
  }

  /** In every run whose accounts start with nothing pending, each account's pending totals are
    * the sums of the remaining amounts of the open holds that name it. */
  lemma PendingTotalsAreHoldSums(es: seq<Event>, side: Side, a: Id)
    requires a in Run(START, es).state.books.accounts
    requires var first := Openings(Flatten(Run(START, es).log));
             a in first ==> Reserved(first[a], side) == 0
    ensures var b := Run(START, es).state.books;
            Reserved(b.accounts[a], side) == Held(b.holds, side, a)
  {
    hide Run, Sound, Openings, Flatten;
    RunInOrder(es);
    var b := Run(START, es).state.books;
    assert Surplus(b, side, a) == Reserved(Openings(Flatten(Run(START, es).log))[a], side);
  }

  /** In every run, a ledger's posted credits minus posted debits are those of its opening records. */
  lemma LedgerTotalsComeFromOpenings(es: seq<Event>, ledger: U32)
    ensures var l := Run(START, es);
            LedgerTotal(l.state.books.accounts, ledger) == LedgerTotal(Openings(Flatten(l.log)), ledger)
  {
    hide Run, Sound, Openings, Flatten;
    RunInOrder(es);
  }

  /* ----- journaled ids ----- */

  /** The transfers among the records. */
  function TransfersOf(rs: seq<Record>): seq<Transfer> {
    if rs == [] then []
    else (if rs[0].TransferRecord? then [rs[0].transfer] else []) + TransfersOf(rs[1..])
  }

  lemma {:induction false} TransfersOfAppend(xs: seq<Record>, ys: seq<Record>)
    ensures TransfersOf(xs + ys) == TransfersOf(xs) + TransfersOf(ys)
  {
    hide TransfersOf;
    TransfersOfFirst(xs);
    TransfersOfFirst(xs + ys);
    if xs == [] {
      assert xs + ys == ys && [] + TransfersOf(ys) == TransfersOf(ys);
    } else {
      SplitFirst(xs, ys);
      TransfersOfAppend(xs[1..], ys);
      Regroup(if xs[0].TransferRecord? then [xs[0].transfer] else [], TransfersOf(xs[1..]), TransfersOf(ys));
    }
  }

  lemma TransfersOfFirst(rs: seq<Record>)
    ensures TransfersOf(rs)
         == if rs == [] then []
            else (if rs[0].TransferRecord? then [rs[0].transfer] else []) + TransfersOf(rs[1..])
  {
  }

  lemma {:induction false} TransfersOfTransfers(ts: seq<Transfer>)
    ensures TransfersOf(TransferRecords(ts)) == ts
  {
    if ts != [] {
      assert TransferRecords(ts)[1..] == TransferRecords(ts[1..]);
      TransfersOfTransfers(ts[1..]);
    }
  }

  lemma {:induction false} TransfersOfAccounts(accs: seq<Account>)
    ensures TransfersOf(AccountRecords(accs)) == []
  {
    if accs != [] {
      assert AccountRecords(accs)[1..] == AccountRecords(accs[1..]);
      TransfersOfAccounts(accs[1..]);
    }
  }

  lemma {:induction false} ApplyAllIds(s: State, ts: seq<Transfer>)
    requires s.books.holds.Keys <= s.transfers.Keys && ApplyAll(s, ts).err.None?
    ensures ApplyAll(s, ts).state.transfers.Keys == s.transfers.Keys + OpeningIds(ts)
    decreases |ts|
  {
    hide MovePending, ReleasePending, Reserve, PostImmediate, CheckOpening;
    if ts == [] {
      assert OpeningIds(ts) == {};
    } else {
      OpeningIdsFirst(ts);
      ApplyAllIds(ApplyTransfer(s, ts[0]).state, ts[1..]);
    }
  }

  lemma OpeningIdsAppend(xs: seq<Transfer>, ys: seq<Transfer>)
    ensures OpeningIds(xs + ys) == OpeningIds(xs) + OpeningIds(ys)
    decreases |xs|
  {
    if xs == [] {
      assert xs + ys == ys && OpeningIds(xs) == {};
    } else {
      assert (xs + ys)[1..] == xs[1..] + ys;
      OpeningIdsFirst(xs + ys);
      OpeningIdsFirst(xs);
      OpeningIdsAppend(xs[1..], ys);
    }
  }

  /** In every run each plain or pending transfer is journaled under an id of its own, and the
    * transfer index knows exactly those ids. */
  lemma {:induction false} JournaledIdsAreUnique(es: seq<Event>)
    ensures var l := Run(START, es);
            var ts := TransfersOf(Flatten(l.log));
            UniqueOpenings(ts, {}) && OpeningIds(ts) == l.state.transfers.Keys
  {
    hide ProcessBatch, ProcessAccounts, Flatten, UniqueOpenings, OpeningIds;
    if es == [] {
      FlattenNothing();
      UniqueNothing({});
    } else {
      var n := |es| - 1;
      var l := Run(START, es[..n]);
      JournaledIdsAreUnique(es[..n]);
      RunInOrder(es[..n]);
      match es[n]
      case Accounts(accs) => AccountsAddNoIds(l, accs);
      case Transfers(now, evs) => BatchAddsIds(l, now, evs);
    }
  }

  lemma AccountsAddNoIds(l: Live, accs: seq<Account>)
    ensures TransfersOf(Flatten(ProcessAccounts(l, accs).log)) == TransfersOf(Flatten(l.log))
    ensures ProcessAccounts(l, accs).state.transfers == l.state.transfers
  {
    hide Flatten, Admitted;
    var admitted := Admitted(l.state.books, accs);
    FlattenJournal(l.log, AccountRecords(admitted));
    TransfersOfAppend(Flatten(l.log), AccountRecords(admitted));
    TransfersOfAccounts(admitted);
  }

  lemma BatchAddsIds(l: Live, now: I64, evs: seq<Transfer>)
    requires InOrder(l)
    requires var ts := TransfersOf(Flatten(l.log));
             UniqueOpenings(ts, {}) && OpeningIds(ts) == l.state.transfers.Keys
    ensures var l' := ProcessBatch(l, now, evs);
            var ts := TransfersOf(Flatten(l'.log));
            UniqueOpenings(ts, {}) && OpeningIds(ts) == l'.state.transfers.Keys
  {
    hide Flatten, RuleBatch, AcceptedEvents, UniqueOpenings, OpeningIds, Sound, CloseAt, TransfersOf, Accounted,
      ApplyBatch, ApplyAll;
    var clock := BatchClock(l.clock, now);
    var s := CloseExpired(l.state, clock);
    var stamped := Stamped(evs, clock);
    var ts := AcceptedEvents(stamped, RuleBatch(s.transfers.Keys, s.books, stamped).outcomes);
    var before := TransfersOf(Flatten(l.log));
    ExpiryKeepsOrder(l.state.books, clock, Openings(Flatten(l.log)));
    LiveBatch(s, stamped);
    ApplyAllIds(s, ts);
    BatchIdsUnique(s.transfers.Keys, s.books, stamped);
    FlattenJournal(l.log, TransferRecords(ts));
    TransfersOfAppend(Flatten(l.log), TransferRecords(ts));
    TransfersOfTransfers(ts);
    UniqueAppend(before, ts, {});
    OpeningIdsAppend(before, ts);
    assert {} + OpeningIds(before) == s.transfers.Keys;
  }

  lemma BatchIdsUnique(known: set<Id>, b: Books, evs: seq<Transfer>)
    ensures UniqueOpenings(AcceptedEvents(evs, RuleBatch(known, b, evs).outcomes), known)
  {
    hide AcceptedEvents, UniqueOpenings, Rule;
    AcceptedIdsUnique(known, View(b, {}), evs, 0);
    assert evs[0..] == evs && known + {} == known;
  }

  /* ----- posted balances ----- */

  /** No account has posted more debits than credits. */
  predicate Solvent(accounts: map<Id, Account>) {
    forall k <- accounts :: accounts[k].postedDebits <= accounts[k].postedCredits
  }

  /** The part of a hold that a post settles. */
  function Settled(p: Transfer, t: Transfer): U128 {
    if t.amount != 0 then t.amount else p.amount
  }

  /** A transfer keeps every posted balance non-negative exactly when it is not a post of more
    * than the debit account's posted balance: funds are not checked again when a hold is posted. */
  lemma SolvencyExactly(b: Books, t: Transfer)
    requires Sound(b) && Solvent(b.accounts) && Exec(b, t).err.None?
    ensures IsPost(t) ==> t.id in b.holds && b.holds[t.id].debit in b.accounts
    ensures Solvent(Exec(b, t).books.accounts)
       <==> (IsPost(t) ==>
               var p := b.holds[t.id];
               var d := b.accounts[p.debit];
               d.postedDebits + Settled(p, t) <= d.postedCredits)
  {
    assert t.id in b.holds ==> HoldOk(b, t.id);
    ExecIsDoubleEntry(b, t);
    var e := EntryOf(b, t);
    assert IsPost(t) ==> e.p == b.holds[t.id];
    assert !IsPost(t)
           ==> e.posted == 0 || b.accounts[e.p.debit].postedDebits + e.posted <= b.accounts[e.p.debit].postedCredits;
    var after := Exec(b, t).books.accounts;
    hide Exec, Sound;
    assert after[e.p.debit].postedDebits <= after[e.p.debit].postedCredits ==> Solvent(after);
  }

  /** Such a post exists: hold 10, spend the same 10 plainly, then post the hold. */
  lemma PostCanOverdraw()
    ensures exists b: Books, hold: Transfer, plain: Transfer, post: Transfer ::
              && Sound(b) && Solvent(b.accounts)
              && ExecAll(b, [hold, plain, post]).err.None?
              && !Solvent(ExecAll(b, [hold, plain, post]).books.accounts)
  {
    var a1 := Account(1, 0, 1, 0, 0, 0, 0, 10, 0, 0);
    var a2 := Account(2, 0, 1, 0, 0, 0, 0, 0, 0, 0);
    var b := Books(map[1 := a1, 2 := a2], map[]);
    var hold := Transfer(7, 1, 2, 10, 0, 0, 0, 0, 1, 0, 1);
    var plain := Transfer(8, 1, 2, 10, 0, 0, 0, 0, 1, 0, 0);
    var post := Transfer(7, 0, 0, 0, 0, 0, 0, 0, 0, 0, 2);
    var b1 := Books(map[1 := a1.(pendingDebits := 10), 2 := a2.(pendingCredits := 10)], map[7 := hold]);
    var b2 := Books(map[1 := a1.(pendingDebits := 10, postedDebits := 10),
                        2 := a2.(pendingCredits := 10, postedCredits := 10)], map[7 := hold]);
    assert Sound(b) && Solvent(b.accounts);
    HoldTen(a1, a2, hold);
    SpendTen(a1.(pendingDebits := 10), a2.(pendingCredits := 10), hold, plain);
    PostTen(b2, hold, post);
    ExecThree(b, hold, plain, post);
    hide Exec, ExecAll, Sound;
    assert !Solvent(ExecAll(b, [hold, plain, post]).books.accounts);
  }

  lemma HoldTen(a1: Account, a2: Account, hold: Transfer)
    requires a1 == Account(1, 0, 1, 0, 0, 0, 0, 10, 0, 0) && a2 == Account(2, 0, 1, 0, 0, 0, 0, 0, 0, 0)
    requires hold == Transfer(7, 1, 2, 10, 0, 0, hold.timestamp, hold.timeout, 1, 0, 1)
    ensures Exec(Books(map[1 := a1, 2 := a2], map[]), hold)
         == Execution(Books(map[1 := a1.(pendingDebits := 10), 2 := a2.(pendingCredits := 10)], map[7 := hold]), None)
  {
  }

  lemma SpendTen(a1: Account, a2: Account, hold: Transfer, plain: Transfer)
    requires a1 == Account(1, 0, 1, 0, 0, 0, 0, 10, 10, 0) && a2 == Account(2, 0, 1, 0, 0, 0, 0, 0, 0, 10)
    requires plain == Transfer(8, 1, 2, 10, 0, 0, 0, 0, 1, 0, 0)
    ensures Exec(Books(map[1 := a1, 2 := a2], map[7 := hold]), plain)
         == Execution(Books(map[1 := a1.(postedDebits := 10), 2 := a2.(postedCredits := 10)], map[7 := hold]), None)
  {
  }

  lemma PostTen(b: Books, hold: Transfer, post: Transfer)
    requires hold == Transfer(7, 1, 2, 10, 0, 0, 0, 0, 1, 0, 1) && post == Transfer(7, 0, 0, 0, 0, 0, 0, 0, 0, 0, 2)
    requires b.holds == map[7 := hold] && b.accounts.Keys == {1, 2}
    requires b.accounts[1] == Account(1, 0, 1, 0, 0, 0, 10, 10, 10, 0)
    requires b.accounts[2] == Account(2, 0, 1, 0, 0, 0, 0, 10, 0, 10)
    ensures var e := Exec(b, post);
            e.err.None? && 1 in e.books.accounts && e.books.accounts[1].postedDebits > e.books.accounts[1].postedCredits
  {
  }

  lemma ExecThree(b: Books, x: Transfer, y: Transfer, z: Transfer)
    requires Exec(b, x).err.None? && Exec(Exec(b, x).books, y).err.None?
    ensures ExecAll(b, [x, y, z]) == Exec(Exec(Exec(b, x).books, y).books, z)
  {
    hide Exec;
    var b2 := Exec(Exec(b, x).books, y).books;
    assert [x, y, z][1..] == [y, z] && [y, z][1..] == [z] && [z][1..] == [];
    assert ExecAll(b2, [z]) == Exec(b2, z) by {
      assert ExecAll(Exec(b2, z).books, []) == Execution(Exec(b2, z).books, None);
    }
  }

  /* ----- overflowing deadlines ----- */

  /** No hold with this id survives the next expiry. */
  predicate Gone(s: State, id: Id) {
    id in s.books.holds ==> Expired(s.books.holds[id], s.clock)
  }

  lemma GoneStays(s: State, t: Transfer, id: Id)
    requires Gone(s, id) && !(OpensHold(t) && t.id == id)
    ensures var a := ReplayRecord(s, TransferRecord(t));
            if IsSettlement(t) && t.id == id then a.err.Some? else a.err.None? ==> Gone(a.state, id)
  {
    hide Relieved, MovePending, ReleasePending, Reserve, PostImmediate, CheckOpening;
    var b := CloseAt(s.books, Later(s.clock, t.timestamp));
    assert id !in b.holds;
  }

  /** Replay refuses to settle a hold that is gone and not opened again on the way. */
  lemma {:induction false} LostHold(s: State, ts: seq<Transfer>, m: nat)
    requires m < |ts| && IsSettlement(ts[m]) && Gone(s, ts[m].id)
    requires forall k | 0 <= k < m :: !(OpensHold(ts[k]) && ts[k].id == ts[m].id)
    ensures Replay(s, TransferRecords(ts)).err.Some?
    decreases m
  {
    hide ReplayRecord, Gone;
    assert TransferRecords(ts)[1..] == TransferRecords(ts[1..]);
    var a := ReplayRecord(s, TransferRecord(ts[0]));
    GoneStays(s, ts[0], ts[m].id);
    if m > 0 && a.err.None? {
      LostHold(a.state, ts[1..], m - 1);
    }
  }

  lemma OpenedGone(s: State, t: Transfer)
    requires OpensHold(t) && Expired(t, Later(s.clock, t.timestamp))
    ensures var a := ReplayRecord(s, TransferRecord(t)); a.err.None? ==> Gone(a.state, t.id)
  {
    hide CloseAt, MovePending, ReleasePending, Reserve, PostImmediate, CheckOpening;
  }

  /** No id opens a hold twice. */
  predicate OpenedOnce(ts: seq<Transfer>) {
    forall i, j | 0 <= i < j < |ts| && OpensHold(ts[i]) && OpensHold(ts[j]) :: ts[i].id != ts[j].id
  }

  /** A hold that is expired as soon as it is opened, by a deadline that wrapped around, cannot be
    * settled later in its batch: replay closes it before the next record and refuses the
    * settlement, whatever else the batch contains. */
  lemma OverflowedHoldIsLost(s: State, ts: seq<Transfer>, i: nat, m: nat)
    requires i < m < |ts| && OpensHold(ts[i]) && Expired(ts[i], ts[i].timestamp)
    requires IsSettlement(ts[m]) && ts[m].id == ts[i].id
    requires forall k | i < k < m :: !(OpensHold(ts[k]) && ts[k].id == ts[m].id)
    ensures Replay(s, TransferRecords(ts)).err.Some?
    decreases i
  {
    hide ReplayRecord, Gone;
    assert TransferRecords(ts)[1..] == TransferRecords(ts[1..]);
    var a := ReplayRecord(s, TransferRecord(ts[0]));
    if a.err.None? {
      if i == 0 {
        OpenedGone(s, ts[0]);
        LostHold(a.state, ts[1..], m - 1);
      } else {
        OverflowedHoldIsLost(a.state, ts[1..], i - 1, m - 1);
      }
    }
  }

  /** What is not settled or opened stays as it is: absent in replay once it is gone. */
  lemma {:induction false} GoneForGood(s: State, ts: seq<Transfer>, id: Id)
    requires ts != [] && Gone(s, id) && Replay(s, TransferRecords(ts)).err.None?
    requires forall k | 0 <= k < |ts| :: !(OpensHold(ts[k]) && ts[k].id == id)
    ensures id !in Replay(s, TransferRecords(ts)).state.books.holds
    decreases |ts|
  {
    hide ReplayRecord;
    assert TransferRecords(ts)[1..] == TransferRecords(ts[1..]);
    var a := ReplayRecord(s, TransferRecord(ts[0]));
    AbsentAfter(s, ts[0], id);
    if |ts| > 1 { GoneForGood(a.state, ts[1..], id); }
  }

  lemma AbsentAfter(s: State, t: Transfer, id: Id)
    requires Gone(s, id) && !(OpensHold(t) && t.id == id)
    ensures id !in ReplayRecord(s, TransferRecord(t)).state.books.holds
  {
    hide Relieved, MovePending, ReleasePending, Reserve, PostImmediate, CheckOpening;
    var b := CloseAt(s.books, Later(s.clock, t.timestamp));
    assert id !in b.holds;
  }

  /** A hold that no later transfer settles stays open on the live side. */
  lemma {:induction false} StaysOpen(s: State, ts: seq<Transfer>, id: Id)
    requires id in s.books.holds && ApplyAll(s, ts).err.None?
    requires forall k | 0 <= k < |ts| :: !(IsSettlement(ts[k]) && ts[k].id == id)
    ensures id in ApplyAll(s, ts).state.books.holds
    decreases |ts|
  {
    hide MovePending, ReleasePending, Reserve, PostImmediate, CheckOpening;
    if ts != [] { StaysOpen(ApplyTransfer(s, ts[0]).state, ts[1..], id); }
  }

  /** An unsettled hold that replay closes early is open on the live side and absent from replay. */
  lemma {:induction false} ClosedEarly(s: State, r: State, ts: seq<Transfer>, i: nat)
    requires i < |ts| - 1 && OpensHold(ts[i]) && Expired(ts[i], ts[i].timestamp) && OpenedOnce(ts)
    requires forall k | i < k < |ts| :: !(IsSettlement(ts[k]) && ts[k].id == ts[i].id)
    requires ApplyAll(s, ts).err.None? && Replay(r, TransferRecords(ts)).err.None?
    ensures ts[i].id in ApplyAll(s, ts).state.books.holds
    ensures ts[i].id !in Replay(r, TransferRecords(ts)).state.books.holds
    decreases i
  {
    hide ReplayRecord, ApplyTransfer;
    assert TransferRecords(ts)[1..] == TransferRecords(ts[1..]);
    var s', r' := ApplyTransfer(s, ts[0]).state, ReplayRecord(r, TransferRecord(ts[0])).state;
    if i == 0 {
      OpenedGone(r, ts[0]);
      OpenedIsOpen(s, ts[0]);
      GoneForGood(r', ts[1..], ts[0].id);
      StaysOpen(s', ts[1..], ts[0].id);
    } else {
      ClosedEarly(s', r', ts[1..], i - 1);
    }
  }

  lemma OpenedIsOpen(s: State, t: Transfer)
    requires OpensHold(t) && ApplyTransfer(s, t).err.None?
    ensures t.id in ApplyTransfer(s, t).state.books.holds
  {
    hide MovePending, ReleasePending, Reserve, PostImmediate, CheckOpening;
  }

  /** A batch replays to the state the live loop reached if and only if no hold opened before its
    * last record is expired, by a deadline that wrapped around, at the moment it is opened. */
  lemma BatchReplaysExactly(s: State, clock: I64, ts: seq<Transfer>)
    requires Sound(s.books) && s.clock <= clock && ts != [] && OpenedOnce(ts)
    requires ApplyAll(CloseExpired(s, clock), ts).err.None?
    requires forall i | 0 <= i < |ts| :: ts[i].timestamp == clock
    ensures Replay(s, TransferRecords(ts)) == ApplyAll(CloseExpired(s, clock), ts) <==> LastingButLast(ts, clock)
  {
    hide Sound, Replay, ApplyAll, CloseExpired, ReplayRecord;
    if LastingButLast(ts, clock) {
      ReplayBatch(s, clock, ts);
    } else {
      var i :| 0 <= i < |ts| - 1 && !Lasting(ts[i], clock);
      if m :| i < m < |ts| && IsSettlement(ts[m]) && ts[m].id == ts[i].id {
        OverflowedHoldIsLost(s, ts, i, m);
      } else if Replay(s, TransferRecords(ts)).err.None? {
        ClosedEarly(CloseExpired(s, clock), s, ts, i);
      }
    }
  }

  /** For every ledger that replays and every batch it takes: the journal with that batch replays to
    * the live state if and only if no accepted hold before the last accepted event wrapped. */
  lemma LiveBatchReplaysExactly(l: Live, now: I64, evs: seq<Transfer>)
    requires InStep(l) && l.clock < I64_MAX
    ensures var clock := BatchClock(l.clock, now);
            var s, stamped := CloseExpired(l.state, clock), Stamped(evs, clock);
            var ts := AcceptedEvents(stamped, RuleBatch(s.transfers.Keys, s.books, stamped).outcomes);
            var l' := ProcessBatch(l, now, evs);
            ts != [] ==> (Replay(EMPTY, Flatten(l'.log)) == Applied(l'.state, None) <==> LastingButLast(ts, clock))
  {
    hide Sound, CloseAt, AllOpen, Dated, RuleBatch, AcceptedEvents, ApplyBatch, ApplyAll, Replay, Flatten, Stamped,
      LastingButLast, UniqueOpenings;
    var clock := BatchClock(l.clock, now);
    var s, stamped := CloseExpired(l.state, clock), Stamped(evs, clock);
    var outcomes := RuleBatch(s.transfers.Keys, s.books, stamped).outcomes;
    var ts := AcceptedEvents(stamped, outcomes);
    var r := Replay(EMPTY, Flatten(l.log)).state;
    if ts != [] {
      CloseKeepsSound(l.state.books, clock);
      LiveBatch(s, stamped);
      CloseLater(r, l.state, l.clock, clock);
      FlattenJournal(l.log, TransferRecords(ts));
      ReplayAppend(EMPTY, Flatten(l.log), TransferRecords(ts));
      BatchIdsUnique(s.transfers.Keys, s.books, stamped);
      UniqueOpenedOnce(ts, s.transfers.Keys);
      AcceptedStamps(evs, clock, outcomes);
      BatchReplaysExactly(r, clock, ts);
    }
  }

  lemma {:induction false} UniqueOpenedOnce(ts: seq<Transfer>, used: set<Id>)
    requires UniqueOpenings(ts, used)
    ensures OpenedOnce(ts) && forall i | 0 <= i < |ts| && OpensHold(ts[i]) :: ts[i].id !in used
    decreases |ts|
  {
    if ts != [] {
      var rest := ts[1..];
      UniqueOpenedOnce(rest, if IsSettlement(ts[0]) then used else used + {ts[0].id});
      assert forall i | 1 <= i < |ts| :: ts[i] == rest[i - 1];
    }
  }

  lemma AcceptedStamps(evs: seq<Transfer>, clock: I64, outcomes: seq<Option<Error>>)
    requires |outcomes| == |evs|
    ensures var ts := AcceptedEvents(Stamped(evs, clock), outcomes);
            forall i | 0 <= i < |ts| :: ts[i].timestamp == clock
  {
    var ts := AcceptedEvents(Stamped(evs, clock), outcomes);
    forall i | 0 <= i < |ts|
      ensures ts[i].timestamp == clock
    {
      AcceptedAre(Stamped(evs, clock), outcomes, i);
    }
  }

  /** The live loop does accept such a batch, so a ledger can journal what it cannot replay:
    * a hold with the largest timeout, and its post, in one batch. */
  lemma OverflowBreaksReplay()
    ensures exists es: seq<Event> :: Replay(EMPTY, Flatten(Run(START, es).log)).err.Some?
  {
    hide Run, Replay, Flatten, Stage;
    var a1 := Account(1, 0, 1, 0, 0, 0, 0, 10, 0, 0);
    var a2 := Account(2, 0, 1, 0, 0, 0, 0, 0, 0, 0);
    var hold := Transfer(7, 1, 2, 10, 0, 0, 1, TWO_64 - 1, 1, 0, 1);
    var post := Transfer(7, 0, 0, 0, 0, 0, 1, 0, 0, 0, 2);
    var es := [Accounts([a1, a2]), Transfers(1, [hold, post])];
    HoldThenPostStages(a1, a2, hold, post);
    TwoTransfersReplay(a1, a2, hold, post);
    OverflowedHoldIsLost(EMPTY.(books := Books(map[1 := a1, 2 := a2], map[])), [hold, post], 0, 1);
    assert Replay(EMPTY, Flatten(Run(START, es).log)).err.Some?;
  }

  /** The journal of two accounts and two transfers replays the transfers on the two accounts. */
  lemma TwoTransfersReplay(a1: Account, a2: Account, x: Transfer, y: Transfer)
    requires Balance(a1).Ok? && Balance(a2).Ok? && a1.id == 1 && a2.id == 2
    requires x.timestamp == 1 && y.timestamp == 1 && x.flags == 1
    requires y.flags == 2 || (y.flags == 1 && x.id != y.id)
    requires var b := Books(map[1 := a1, 2 := a2], map[]);
             Stage(b, x).Ok? && Stage(Stage(b, x).value, y).Ok?
    ensures Replay(EMPTY, Flatten(Run(START, [Accounts([a1, a2]), Transfers(1, [x, y])]).log))
         == Replay(EMPTY.(books := Books(map[1 := a1, 2 := a2], map[])), TransferRecords([x, y]))
  {
    hide Run, Replay, Flatten, Stage, CreateAll;
    TwoTransfersLog(a1, a2, x, y);
    FlattenJournal([AccountRecords([a1, a2])], TransferRecords([x, y]));
    FlattenJournal([], AccountRecords([a1, a2]));
    FlattenNothing();
    assert Journal([], AccountRecords([a1, a2])) == [AccountRecords([a1, a2])];
    assert [] + AccountRecords([a1, a2]) == AccountRecords([a1, a2]);
    ReplayAccounts(EMPTY, [a1, a2]);
    ReplayAppend(EMPTY, AccountRecords([a1, a2]), TransferRecords([x, y]));
    TwoCreated(a1, a2);
  }

  lemma TwoCreated(a1: Account, a2: Account)
    requires a1.id == 1 && a2.id == 2
    ensures CreateAll(EMPTY.books, [a1, a2]) == Books(map[1 := a1, 2 := a2], map[])
  {
    assert [a1, a2][..1] == [a1] && [a1][..0] == [];
    assert CreateAll(EMPTY.books, [a1]) == Books(map[1 := a1], map[]);
  }

  lemma FlattenNothing()
    ensures Flatten([]) == []
  {
  }

  lemma HoldThenPostStages(a1: Account, a2: Account, hold: Transfer, post: Transfer)
    requires a1 == Account(1, 0, 1, 0, 0, 0, 0, 10, 0, 0) && a2 == Account(2, 0, 1, 0, 0, 0, 0, 0, 0, 0)
    requires hold == Transfer(7, 1, 2, 10, 0, 0, 1, hold.timeout, 1, 0, 1)
    requires post == Transfer(7, 0, 0, 0, 0, 0, 1, 0, 0, 0, 2)
    ensures var b := Books(map[1 := a1, 2 := a2], map[]);
            Stage(b, hold).Ok? && Stage(Stage(b, hold).value, post).Ok?
  {
    var b := Books(map[1 := a1, 2 := a2], map[]);
    assert !BadFlags(hold) && !IsSettlement(hold) && !BadFlags(post) && IsPost(post);
    assert Stage(b, hold) == StageHold(b, hold) && Stage(b, hold).Ok?;
    assert Stage(b, hold).value.holds == map[7 := hold];
  }

  /** Two accounts, then two transfers that stage one after the other in one batch. */
  lemma TwoTransfersLog(a1: Account, a2: Account, x: Transfer, y: Transfer)
    requires Balance(a1).Ok? && Balance(a2).Ok? && a1.id == 1 && a2.id == 2
    requires x.timestamp == 1 && y.timestamp == 1 && x.flags == 1
    requires y.flags == 2 || (y.flags == 1 && x.id != y.id)
    requires var b := Books(map[1 := a1, 2 := a2], map[]);
             Stage(b, x).Ok? && Stage(Stage(b, x).value, y).Ok?
    ensures Run(START, [Accounts([a1, a2]), Transfers(1, [x, y])]).log
         == Journal([AccountRecords([a1, a2])], TransferRecords([x, y]))
  {
    hide Stage, RuleBatch, ApplyBatch, ProcessAccounts;
    var es := [Accounts([a1, a2]), Transfers(1, [x, y])];
    var b := Books(map[1 := a1, 2 := a2], map[]);
    TwoAccounts(a1, a2);
    var l1 := Step(START, es[0]);
    assert Run(START, es[..1]) == l1 by { assert es[..1][..0] == []; }
    CloseIdle(b, 1);
    assert Stamped([x, y], 1) == [x, y];
    TwoAccepted(l1.state.(clock := 1), b, x, y);
  }

  lemma TwoAccounts(a1: Account, a2: Account)
    requires Balance(a1).Ok? && Balance(a2).Ok? && a1.id != a2.id
    ensures ProcessAccounts(START, [a1, a2])
         == Live(EMPTY.(books := Books(map[a1.id := a1, a2.id := a2], map[])), 0, [AccountRecords([a1, a2])])
  {
    assert [a1, a2][1..] == [a2] && [a2][1..] == [];
    assert Admitted(EMPTY.books, [a2]) == [a2];
    assert Admitted(EMPTY.books, [a1, a2]) == [a1, a2];
    assert [a1, a2][..1] == [a1] && [a1][..0] == [];
    assert CreateAll(EMPTY.books, [a1]) == Books(map[a1.id := a1], map[]);
  }

  lemma TwoAccepted(s: State, b: Books, x: Transfer, y: Transfer)
    requires s.books == b && s.transfers == map[]
    requires !IsLinked(x) && !IsLinked(y) && !BadFlags(x) && !BadFlags(y)
    requires (IsSettlement(y) || y.id != x.id) && Stage(b, x).Ok? && Stage(Stage(b, x).value, y).Ok?
    ensures var outcomes := RuleBatch(s.transfers.Keys, b, [x, y]).outcomes;
            AcceptedEvents([x, y], outcomes) == [x, y]
  {
    hide Stage;
    assert s.transfers.Keys == {};
    var evs := [x, y];
    var v := View(b, {});
    assert ChainEnd(evs, 0) == 0 && ChainEnd(evs, 1) == 1;
    var run := RunChain({}, v, evs, 0, 0);
    assert run == Completed(Validate({}, v, x).view);
    var v1 := AfterChain(v, run, evs, 0);
    assert RunChain({}, v1, evs, 1, 1).Completed?;
    assert Rule({}, v1, evs, 1).outcomes == [None]
           by { assert Rule({}, AfterChain(v1, RunChain({}, v1, evs, 1, 1), evs, 1), evs, 2).outcomes == []; }
    assert Rule({}, v, evs, 0).outcomes == [None, None];
    AcceptedUniform(evs, [None, None]);
  }
}
