/** Starting a ledger from a snapshot, in place (internal/engine/ledger.go, NewLedger and
  * RecoverFromSnapshot): load accounts and open holds into an empty manager, then replay the
  * records above the snapshot. */
module Startup {
  import opened Core
  import opened Engine
  import opened Holds
  import opened Batch
  import opened Machine
  import opened Replaying
  import opened Snapshots
  import opened Accounting
  import opened ExpiryHeaps
  import opened Manager
  import opened Loop

  /** The snapshot-loading part of NewLedger.  A hold listed twice stops it. */
  method LoadSnapshot(accs: seq<Account>, pendings: seq<Transfer>) returns (m: AccountManager, err: Option<Error>)
    ensures fresh(m) && fresh(m.expiry) && fresh(m.owned) && m.Valid()
    ensures match Restore(accs, pendings)
            case Ok(s) => err == None && m.Value() == s
            case Err(e) => err == Some(e)
  {
    hide AccountManager.Formed, AccountManager.Agrees, RestoreHolds, RestoredClock, CreateAll;
    m := LoadAccounts(accs);
    err := LoadHolds(m, pendings);
  }

  /** Accounts of the snapshot; a duplicate is passed over. */
  method LoadAccounts(accs: seq<Account>) returns (m: AccountManager)
    ensures fresh(m) && fresh(m.expiry) && m.owned == {} && m.Valid()
    ensures m.Value() == EMPTY.(books := Books(CreateAll(EMPTY.books, accs).accounts, map[]))
  {
    hide AccountManager.Indexes, AccountManager.Filed, AccountManager.Agrees, AccountManager.AccountMap,
      ExpiryHeap.Valid, Entries, CreateAll, Expiry.Create;
    m := new AccountManager();
    CreateNone(accs);
    for i := 0 to |accs|
      invariant fresh(m) && fresh(m.expiry) && m.owned == {} && m.Valid()
      invariant m.Value() == EMPTY.(books := Books(CreateAll(EMPTY.books, accs[..i]).accounts, map[]))
    {
      CreateNext(accs, i);
      var _ := m.Create(accs[i]);
    }
    assert accs[..|accs|] == accs;
  }

  /** Open holds of the snapshot, with the clock brought up to the latest of them. */
  method LoadHolds(m: AccountManager, pendings: seq<Transfer>) returns (err: Option<Error>)
    requires m.Valid() && m.holds == map[] && m.clock == 0
    modifies m, m.expiry, m.owned
    ensures m.Valid() && fresh(m.owned - old(m.owned))
    ensures match RestoreHolds(pendings)
            case Ok(holds) =>
              && err == None
              && m.Value() == old(m.Value()).(books := old(m.Content()).(holds := holds),
                                              clock := RestoredClock(pendings))
            case Err(e) => err == Some(e)
  {
    hide AccountManager.Indexes, AccountManager.Filed, AccountManager.Agrees, AccountManager.AccountMap,
      ExpiryHeap.Valid, Entries, RestoreHolds, RestoredClock;
    RestoreNone(pendings);
    for i := 0 to |pendings|
      invariant m.Valid() && fresh(m.owned - old(m.owned)) && RestoreHolds(pendings[..i]) == Ok(m.holds)
      invariant m.Value() == old(m.Value()).(books := old(m.Content()).(holds := m.holds),
                                             clock := RestoredClock(pendings[..i]))
    {
      RestoreNext(pendings, i, m.holds);
      err := m.RestorePending(pendings[i]);
      if err.Some? { return; }
      if pendings[i].timestamp > m.clock { m.clock := pendings[i].timestamp; }
    }
    assert pendings[..|pendings|] == pendings;
    err := None;
  }

  lemma CreateNone(accs: seq<Account>)
    ensures CreateAll(EMPTY.books, accs[..0]) == EMPTY.books
  {
  }

  /** Creating accounts looks at accounts alone. */
  lemma CreateNext(accs: seq<Account>, i: nat)
    requires i < |accs|
    ensures CreateAll(EMPTY.books, accs[..i + 1]).accounts
         == Expiry.Create(Books(CreateAll(EMPTY.books, accs[..i]).accounts, map[]), accs[i]).accounts
  {
    assert accs[..i + 1][..i] == accs[..i];
  }

  lemma RestoreNone(pendings: seq<Transfer>)
    ensures RestoreHolds(pendings[..0]) == Ok(map[]) && RestoredClock(pendings[..0]) == 0
  {
  }

  lemma RestoreNext(pendings: seq<Transfer>, i: nat, holds: map<Id, Transfer>)
    requires i < |pendings| && RestoreHolds(pendings[..i]) == Ok(holds)
    ensures var t := pendings[i];
            && RestoredClock(pendings[..i + 1]) == Later(RestoredClock(pendings[..i]), t.timestamp)
            && (t.id !in holds ==> RestoreHolds(pendings[..i + 1]) == Ok(holds[t.id := t]))
            && (t.id in holds ==> RestoreHolds(pendings) == Err(RestoredTwice(t.id)))
  {
    assert pendings[..i + 1][..i] == pendings[..i];
    if pendings[i].id in holds { RestoreStops(pendings, i + 1); }
  }

  /** The first error is the result. */
  lemma {:induction false} RestoreStops(pendings: seq<Transfer>, i: nat)
    requires i <= |pendings| && RestoreHolds(pendings[..i]).Err?
    ensures RestoreHolds(pendings) == RestoreHolds(pendings[..i])
  {
    if i == |pendings| {
      assert pendings[..i] == pendings;
    } else {
      var n := |pendings| - 1;
      assert pendings[..n][..i] == pendings[..i];
      RestoreStops(pendings[..n], i);
    }
  }

  /** Load the snapshot and replay what came after it.  From a listing of sound books, and unless a
    * record reopens a restored hold, the manager is the replayed ledger. */
  method Start(accs: seq<Account>, pendings: seq<Transfer>, rs: seq<Record>)
    returns (m: AccountManager, err: Option<Error>)
    ensures fresh(m) && fresh(m.expiry) && fresh(m.owned) && m.Formed()
    ensures match Restore(accs, pendings)
            case Ok(s) =>
              Sound(s.books) && ReopensNone(s, rs) ==> m.Valid() && Applied(m.Value(), err) == Replay(s, rs)
            case Err(e) => err == Some(e)
  {
    hide AccountManager.Indexes, AccountManager.Filed, AccountManager.Agrees, AccountManager.AccountMap,
      ExpiryHeap.Valid, Entries, Restore, Sound, Replay, ReopensNone;
    m, err := LoadSnapshot(accs, pendings);
    if err.None? { err := Recover(m, rs); }
  }

  /** A snapshot taken after any `n` events is such a listing, and the journal after it is such a
    * run of records: the ids of the restored holds are not used again. */
  lemma SnapshotStartsClean(es: seq<Event>, n: nat, accs: seq<Account>, pendings: seq<Transfer>)
    requires n <= |es| && AdmissibleRun(es)
    requires ListsAccounts(accs, Run(START, es[..n]).state.books.accounts)
    requires ListsHolds(pendings, Run(START, es[..n]).state.books.holds)
    ensures var r := Restore(accs, pendings);
            r.Ok? && Sound(r.value.books) && ReopensNone(r.value, After(es, n))
  {
    hide Sound, Flatten, Restore, Run, AllOpen, ListsAccounts, ListsHolds, UniqueOpenings, ReopensNone, OpeningIds,
      After, Accounted;
    var l := Run(START, es[..n]);
    AdmissiblePrefix(es, n);
    RunInStep(es[..n]);
    RestoreReturns(l.state.books, l.clock, accs, pendings);
    RunInOrder(es[..n]);
    JournaledIdsAreUnique(es);
    JournaledIdsAreUnique(es[..n]);
    LogSplits(es, n);
    var before, after := TransfersOf(Flatten(l.log)), TransfersOf(After(es, n));
    TransfersOfAppend(Flatten(l.log), After(es, n));
    UniqueAppend(before, after, {});
    assert {} + OpeningIds(before) == OpeningIds(before);
    UniqueJournal(Restore(accs, pendings).value, After(es, n), OpeningIds(before));
  }
}
