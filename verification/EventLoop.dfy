/** The single-writer loop and the replay handler as they work on an AccountManager in place
  * (internal/engine/loop.go, internal/engine/ledger.go, ApplyBatch of internal/engine/transfers.go),
  * proved against the steps of module Machine. */
module Loop {
  import opened Core
  import opened Engine
  import opened Holds
  import opened Expiry
  import opened Batch
  import opened Machine
  import opened Replaying
  import opened Accounting
  import opened ExpiryHeaps
  import opened Manager
  import opened Validator

  /* ----- holds opened under an id in use ----- */

  /** No accepted event opens a hold under an id that is open when its turn comes. */
  ghost predicate NoneReopened(s: State, evs: seq<Transfer>, outcomes: seq<Option<Error>>)
    requires |evs| == |outcomes|
    decreases |evs|
  {
    if evs == [] then true
    else if outcomes[0].Some? then NoneReopened(s, evs[1..], outcomes[1..])
    else
      && (OpensHold(evs[0]) ==> evs[0].id !in s.books.holds)
      && NoneReopened(ApplyTransfer(s, evs[0]).state, evs[1..], outcomes[1..])
  }

  /** Every id under which `evs` would reopen a hold is among the used ones. */
  predicate Known(s: State, evs: seq<Transfer>, used: set<Id>) {
    forall i | 0 <= i < |evs| && OpensHold(evs[i]) && evs[i].id in s.books.holds :: evs[i].id in used
  }

  lemma TransferHolds(s: State, t: Transfer)
    ensures ApplyTransfer(s, t).state.books.holds.Keys <= s.books.holds.Keys + (if OpensHold(t) then {t.id} else {})
  {
    hide MovePending, ReleasePending, Reserve, PostImmediate, CheckOpening;
  }

  lemma {:induction false} UniqueReopensNone(s: State, evs: seq<Transfer>, outcomes: seq<Option<Error>>, used: set<Id>)
    requires |evs| == |outcomes| && UniqueOpenings(AcceptedEvents(evs, outcomes), used) && Known(s, evs, used)
    ensures NoneReopened(s, evs, outcomes)
    decreases |evs|
  {
    hide ApplyTransfer;
    if evs != [] {
      var t, rest := evs[0], AcceptedEvents(evs[1..], outcomes[1..]);
      if outcomes[0].Some? {
        assert AcceptedEvents(evs, outcomes) == rest;
        UniqueReopensNone(s, evs[1..], outcomes[1..], used);
      } else {
        assert AcceptedEvents(evs, outcomes) == [t] + rest && ([t] + rest)[1..] == rest;
        TransferHolds(s, t);
        UniqueReopensNone(ApplyTransfer(s, t).state, evs[1..], outcomes[1..],
                          if IsSettlement(t) then used else used + {t.id});
      }
    }
  }

  /* ----- ApplyBatch ----- */

  lemma Whole(evs: seq<Transfer>, outcomes: seq<Option<Error>>)
    ensures evs[0..] == evs && outcomes[0..] == outcomes
    ensures forall xs: seq<Option<Error>> :: [] + xs == xs
  {
  }

  lemma ApplyNothing(s: State, evs: seq<Transfer>, outcomes: seq<Option<Error>>)
    requires evs == [] && outcomes == []
    ensures ApplyBatch(s, evs, outcomes) == BatchResult(s, [])
  {
  }

  /** ApplyBatch.  Heap and map keep agreeing when no hold is reopened under an id in use. */
  method ApplyBatchTo(evs: seq<Transfer>, outcomes: seq<Option<Error>>, m: AccountManager)
    returns (final: seq<Option<Error>>)
    requires |evs| == |outcomes| && m.Formed()
    modifies m, m.expiry, m.owned
    ensures m.Formed() && fresh(m.owned - old(m.owned))
    ensures BatchResult(m.Value(), final) == ApplyBatch(old(m.Value()), evs, outcomes)
    ensures old(m.Agrees()) && NoneReopened(old(m.Value()), evs, outcomes) ==> m.Agrees()
  {
    hide AccountManager.Indexes, AccountManager.Filed, AccountManager.Agrees, AccountManager.AccountMap,
      ExpiryHeap.Valid, Entries, ApplyTransfer, NoneReopened, ApplyBatch;
    final := [];
    Whole(evs, outcomes);
    ghost var s0, agreed := m.Value(), m.Agrees() && NoneReopened(m.Value(), evs, outcomes);
    var i := 0;
    while i < |evs|
      invariant 0 <= i <= |evs|
      invariant m.Formed() && fresh(m.owned - old(m.owned))
      invariant agreed ==> m.Agrees() && NoneReopened(m.Value(), evs[i..], outcomes[i..])
      invariant var rest := ApplyBatch(m.Value(), evs[i..], outcomes[i..]);
                ApplyBatch(s0, evs, outcomes) == BatchResult(rest.state, final + rest.outcomes)
    {
      ApplyBatchStep(m.Value(), evs[i..], outcomes[i..]);
      Rest(evs, i);
      Rest(outcomes, i);
      var err := outcomes[i];
      if err.None? {
        err := m.ApplyTransferState(evs[i]);
      }
      Regroup(final, [err], ApplyBatch(m.Value(), evs[i + 1..], outcomes[i + 1..]).outcomes);
      final := final + [err];
      i := i + 1;
    }
    ApplyNothing(m.Value(), evs[i..], outcomes[i..]);
    assert final + [] == final;
  }

  /** One step of ApplyBatch, seen from the front. */
  lemma ApplyBatchStep(s: State, evs: seq<Transfer>, outcomes: seq<Option<Error>>)
    requires |evs| == |outcomes| && evs != []
    ensures var a := if outcomes[0].Some? then Applied(s, outcomes[0]) else ApplyTransfer(s, evs[0]);
            var rest := ApplyBatch(a.state, evs[1..], outcomes[1..]);
            && ApplyBatch(s, evs, outcomes) == BatchResult(rest.state, [a.err] + rest.outcomes)
            && (NoneReopened(s, evs, outcomes) ==>
                  && NoneReopened(a.state, evs[1..], outcomes[1..])
                  && (outcomes[0].None? && OpensHold(evs[0]) ==> evs[0].id !in s.books.holds))
  {
    hide ApplyTransfer;
  }

  lemma Rest<T>(s: seq<T>, i: nat)
    requires i < |s|
    ensures s[i..][0] == s[i] && s[i..][1..] == s[i + 1..]
  {
  }

  /* ----- the loop ----- */

  /** makeWALRecords. */
  method MakeRecords(evs: seq<Transfer>, outcomes: seq<Option<Error>>) returns (records: seq<Record>)
    requires |evs| == |outcomes|
    ensures records == TransferRecords(AcceptedEvents(evs, outcomes))
  {
    records := [];
    var i := 0;
    ghost var done: seq<Transfer> := [];
    while i < |evs|
      invariant 0 <= i <= |evs| && records == TransferRecords(done)
      invariant AcceptedEvents(evs, outcomes) == done + AcceptedEvents(evs[i..], outcomes[i..])
    {
      assert evs[i..][1..] == evs[i + 1..] && outcomes[i..][1..] == outcomes[i + 1..];
      if outcomes[i].None? {
        records := records + [TransferRecord(evs[i])];
        done := done + [evs[i]];
      }
      i := i + 1;
    }
  }

  method StampAll(evs: seq<Transfer>, clock: I64) returns (stamped: seq<Transfer>)
    ensures stamped == Stamped(evs, clock)
  {
    stamped := evs;
    for i := 0 to |evs|
      invariant |stamped| == |evs|
      invariant forall j | 0 <= j < |evs| :: stamped[j] == if j < i then evs[j].(timestamp := clock) else evs[j]
    {
      stamped := stamped[i := stamped[i].(timestamp := clock)];
    }
  }

  class EventLoop {
    const accounts: AccountManager
    var clock: I64
    var log: seq<seq<Record>>

    ghost predicate Valid()
      reads this, accounts, accounts.expiry, accounts.owned
    {
      accounts.Valid() && Sound(accounts.Content())
    }

    ghost function Value(): Live
      requires accounts.Indexes()
      reads this, accounts
    {
      Live(accounts.Value(), clock, log)
    }

    constructor ()
      ensures Valid() && Value() == START
    {
      accounts := new AccountManager();
      clock, log := 0, [];
      new;
      EmptyIsSound();
    }

    /** The loop of a restarted ledger: over the recovered manager, with a clock of its own. */
    constructor Over(m: AccountManager)
      requires m.Valid() && Sound(m.Content())
      ensures Valid() && accounts == m && Value() == Live(m.Value(), 0, [])
    {
      accounts, clock, log := m, 0, [];
    }

    /** processBatch: one step of the live machine.  The loop stays intact unless an event reopens a
      * hold that the transfer index does not know, as it can after a restart from a snapshot. */
    method Process(evs: seq<Transfer>, now: I64) returns (outcomes: seq<Option<Error>>)
      requires Valid()
      modifies this, accounts, accounts.expiry, accounts.owned
      ensures accounts.Formed() && Sound(accounts.Content()) && fresh(accounts.owned - old(accounts.owned))
      ensures Known(old(accounts.Value()), evs, old(accounts.transfers.Keys)) ==> Valid()
      ensures Value() == ProcessBatch(old(Value()), now, evs)
      ensures var s := CloseExpired(old(Value()).state, BatchClock(old(clock), now));
              outcomes == RuleBatch(s.transfers.Keys, s.books, Stamped(evs, clock)).outcomes
    {
      hide AccountManager.Indexes, AccountManager.Filed, AccountManager.Agrees, AccountManager.AccountMap,
        ExpiryHeap.Valid, Entries, Sound, CloseAt, RuleBatch, AcceptedEvents, ApplyBatch, NoneReopened, Stamped, Known;
      Tick(now);
      ghost var s := accounts.Value();
      var stamped := StampAll(evs, clock);
      var decided := ValidateBatch(stamped, accounts);
      var records := MakeRecords(stamped, decided);
      if |records| > 0 { log := log + [records]; }
      LiveBatch(s, stamped);
      KnownReopensNone(old(accounts.Value()), s, evs, clock);
      outcomes := ApplyBatchTo(stamped, decided, accounts);
    }

    /** The batch clock, and expiry at it. */
    method Tick(now: I64)
      requires Valid()
      modifies this`clock, accounts, accounts.expiry, accounts.owned
      ensures Valid() && accounts.owned == old(accounts.owned) && clock == BatchClock(old(clock), now)
      ensures accounts.Value() == CloseExpired(old(accounts.Value()), clock)
    {
      hide AccountManager.Indexes, AccountManager.Filed, AccountManager.Agrees, AccountManager.AccountMap,
        ExpiryHeap.Valid, Entries, Sound, CloseAt, ReleaseAll, IdsOf;
      clock := if now <= clock then ToI64(clock + 1) else now;
      accounts.clock := clock;
      ghost var _ := accounts.CloseExpired();
      CloseKeepsSound(old(accounts.Content()), clock);
    }

    /** processAccountCreate: accounts with a broken balance or an id in use never reach the WAL; a
      * second account with the same id in one request does, and fails on creation. */
    method CreateAccounts(accs: seq<Account>)
      requires Valid()
      modifies this, accounts
      ensures Valid() && Value() == ProcessAccounts(old(Value()), accs)
    {
      hide AccountManager.Indexes, AccountManager.Filed, AccountManager.Agrees, AccountManager.AccountMap,
        ExpiryHeap.Valid, Entries, Sound, Admitted;
      ghost var b := accounts.Content();
      var admitted := Admit(accs);
      if |admitted| == 0 { return; }
      log := log + [AccountRecords(admitted)];
      CreateEach(admitted);
      CloseCreateAll(b, admitted, 0);
    }

    /** The second pass. */
    method CreateEach(admitted: seq<Account>)
      requires accounts.Valid()
      modifies accounts`accounts, accounts`index
      ensures accounts.Valid()
      ensures accounts.Value() == old(accounts.Value()).(books := CreateAll(old(accounts.Content()), admitted))
    {
      hide AccountManager.Indexes, AccountManager.Filed, AccountManager.Agrees, AccountManager.AccountMap,
        ExpiryHeap.Valid, Entries;
      assert admitted[..0] == [];
      for k := 0 to |admitted|
        invariant accounts.Valid()
        invariant accounts.Value() == old(accounts.Value()).(books := CreateAll(old(accounts.Content()), admitted[..k]))
      {
        assert admitted[..k + 1][..k] == admitted[..k];
        var _ := accounts.Create(admitted[k]);
      }
      assert admitted[..|admitted|] == admitted;
    }

    /** The first pass over a request. */
    method Admit(accs: seq<Account>) returns (admitted: seq<Account>)
      requires accounts.Indexes()
      ensures admitted == Admitted(accounts.Content(), accs)
    {
      hide AccountManager.Indexes, AccountManager.AccountMap, AccountManager.Get, Admitted;
      ghost var b := accounts.Content();
      admitted := [];
      for i := 0 to |accs|
        invariant Admitted(b, accs) == admitted + Admitted(b, accs[i..])
      {
        AdmittedFrom(b, accs, i);
        if Balance(accs[i]).Ok? && accounts.Get(accs[i].id).Err? {
          admitted := admitted + [accs[i]];
        }
      }
      AdmittedNone(b, accs[|accs|..]);
    }
  }

  lemma AdmittedFrom(b: Books, accs: seq<Account>, i: nat)
    requires i < |accs|
    ensures Admitted(b, accs[i..])
         == (if Balance(accs[i]).Ok? && accs[i].id !in b.accounts then [accs[i]] else []) + Admitted(b, accs[i + 1..])
  {
    assert accs[i..][1..] == accs[i + 1..];
  }

  lemma AdmittedNone(b: Books, accs: seq<Account>)
    requires accs == []
    ensures Admitted(b, accs) == []
  {
  }

  /** After expiry, a batch whose reopened ids are all in the index reopens none. */
  lemma KnownReopensNone(s: State, closed: State, evs: seq<Transfer>, clock: I64)
    requires closed == CloseExpired(s, clock)
    ensures Known(s, evs, s.transfers.Keys) ==>
              NoneReopened(closed, Stamped(evs, clock),
                RuleBatch(closed.transfers.Keys, closed.books, Stamped(evs, clock)).outcomes)
  {
    hide RuleBatch, NoneReopened, AcceptedEvents, UniqueOpenings, Known, Stamped, Relieved;
    if Known(s, evs, s.transfers.Keys) {
      var stamped := Stamped(evs, clock);
      StampedKnown(s, closed, evs, clock);
      BatchIdsUnique(closed.transfers.Keys, closed.books, stamped);
      UniqueReopensNone(closed, stamped, RuleBatch(closed.transfers.Keys, closed.books, stamped).outcomes,
        closed.transfers.Keys);
    }
  }

  lemma StampedKnown(s: State, closed: State, evs: seq<Transfer>, clock: I64)
    requires closed.books.holds.Keys <= s.books.holds.Keys && Known(s, evs, closed.transfers.Keys)
    ensures Known(closed, Stamped(evs, clock), closed.transfers.Keys)
  {
  }

  /* ----- replay ----- */

  /** The record does not open a hold under an id that is open after expiry. */
  ghost predicate OpensAfresh(s: State, r: Record) {
    r.TransferRecord? && OpensHold(r.transfer) ==>
      r.transfer.id !in CloseExpired(s, Later(s.clock, r.transfer.timestamp)).books.holds
  }

  /** No record opens a hold under an id that is open when its turn comes. */
  ghost predicate ReopensNone(s: State, rs: seq<Record>)
    decreases |rs|
  {
    if rs == [] then true
    else
      var a := ReplayRecord(s, rs[0]);
      && OpensAfresh(s, rs[0])
      && (a.err.None? ==> ReopensNone(a.state, rs[1..]))
  }

  lemma ReplayStep(s: State, rs: seq<Record>)
    requires rs != [] && Sound(s.books)
    ensures var a := ReplayRecord(s, rs[0]);
            && Replay(s, rs) == (if a.err.Some? then a else Replay(a.state, rs[1..]))
            && (a.err.None? ==> Sound(a.state.books))
            && (ReopensNone(s, rs) ==>
                  && OpensAfresh(s, rs[0])
                  && (a.err.None? ==> ReopensNone(a.state, rs[1..])))
  {
    hide CloseAt, Sound, Exec;
    match rs[0]
    case AccountRecord(acc) => CreateKeepsSound(s.books, acc);
    case TransferRecord(t) =>
      var s1 := CloseExpired(s, Later(s.clock, t.timestamp));
      CloseKeepsSound(s.books, s1.clock);
      if Exec(s1.books, t).err.None? { ExecKeepsSound(s1.books, t); }
  }

  /** The replay handler on one record. */
  method HandleRecord(m: AccountManager, r: Record) returns (err: Option<Error>)
    requires m.Formed()
    modifies m, m.expiry, m.owned
    ensures m.Formed() && fresh(m.owned - old(m.owned))
    ensures old(m.Valid()) && old(Sound(m.Content())) && OpensAfresh(old(m.Value()), r) ==>
              m.Valid() && Applied(m.Value(), err) == ReplayRecord(old(m.Value()), r)
  {
    hide AccountManager.Indexes, AccountManager.Filed, AccountManager.Agrees, AccountManager.AccountMap,
      ExpiryHeap.Valid, Entries, Sound, CloseAt, ApplyTransfer, ReleaseAll, IdsOf;
    err := None;
    match r
    case AccountRecord(acc) =>
      var _ := m.Create(acc);
    case TransferRecord(t) =>
      if t.timestamp > m.clock { m.clock := t.timestamp; }
      ghost var _ := m.CloseExpired();
      err := m.ApplyTransferState(t);
  }

  /** The replay handler over recovered records, stopping at the first one that fails.  On an intact
    * manager, and unless a record reopens a hold under an id in use, this is replay. */
  method Recover(m: AccountManager, rs: seq<Record>) returns (err: Option<Error>)
    requires m.Formed()
    modifies m, m.expiry, m.owned
    ensures m.Formed() && fresh(m.owned - old(m.owned))
    ensures old(m.Valid()) && old(Sound(m.Content())) && ReopensNone(old(m.Value()), rs) ==>
              m.Valid() && Applied(m.Value(), err) == Replay(old(m.Value()), rs)
  {
    hide AccountManager.Agrees, AccountManager.Indexes, AccountManager.AccountMap, AccountManager.Filed,
      ExpiryHeap.Valid, Entries, Sound, ReplayRecord, ReopensNone, OpensAfresh;
    ghost var goal := Replay(m.Value(), rs);
    ghost var good := m.Valid() && Sound(m.Content()) && ReopensNone(m.Value(), rs);
    for i := 0 to |rs|
      invariant m.Formed() && fresh(m.owned - old(m.owned))
      invariant good ==> && m.Valid() && Sound(m.Content()) && ReopensNone(m.Value(), rs[i..])
                         && goal == Replay(m.Value(), rs[i..])
    {
      if good { ReplayStep(m.Value(), rs[i..]); }
      assert rs[i..][0] == rs[i] && rs[i..][1..] == rs[i + 1..];
      err := HandleRecord(m, rs[i]);
      if err.Some? { return; }
    }
    err := None;
  }

  /* ----- journals that reopen no hold ----- */

  lemma {:induction false} ReopensNoneAppend(s: State, xs: seq<Record>, ys: seq<Record>)
    requires ReopensNone(s, xs + ys) && Replay(s, xs).err.None?
    ensures ReopensNone(s, xs) && ReopensNone(Replay(s, xs).state, ys)
    decreases |xs|
  {
    hide ReplayRecord, CloseExpired;
    if xs == [] {
      assert xs + ys == ys;
    } else {
      assert (xs + ys)[0] == xs[0] && (xs + ys)[1..] == xs[1..] + ys;
      ReopensNoneAppend(ReplayRecord(s, xs[0]).state, xs[1..], ys);
    }
  }

  /** Records whose openings have ids that are new and distinct reopen no hold. */
  lemma {:induction false} UniqueJournal(s: State, rs: seq<Record>, used: set<Id>)
    requires UniqueOpenings(TransfersOf(rs), used) && Known(s, TransfersOf(rs), used)
    ensures ReopensNone(s, rs)
    decreases |rs|
  {
    hide ReplayRecord, CloseExpired;
    if rs != [] {
      var a := ReplayRecord(s, rs[0]);
      var rest := TransfersOf(rs[1..]);
      HoldsAfter(s, rs[0]);
      match rs[0]
      case AccountRecord(_) =>
        assert TransfersOf(rs) == rest;
        UniqueJournal(a.state, rs[1..], used);
      case TransferRecord(t) =>
        assert TransfersOf(rs) == [t] + rest && ([t] + rest)[1..] == rest;
        UniqueJournal(a.state, rs[1..], if IsSettlement(t) then used else used + {t.id});
    }
  }

  lemma HoldsAfter(s: State, r: Record)
    ensures r.TransferRecord?
            ==> CloseExpired(s, Later(s.clock, r.transfer.timestamp)).books.holds.Keys <= s.books.holds.Keys
    ensures ReplayRecord(s, r).state.books.holds.Keys
         <= s.books.holds.Keys + (if r.TransferRecord? && OpensHold(r.transfer) then {r.transfer.id} else {})
  {
    hide ApplyTransfer, Relieved;
    if r.TransferRecord? { TransferHolds(CloseExpired(s, Later(s.clock, r.transfer.timestamp)), r.transfer); }
  }

  /** The journal of every run reopens no hold. */
  lemma RunReopensNone(es: seq<Event>)
    ensures ReopensNone(EMPTY, Flatten(Run(START, es).log))
  {
    hide Run, Flatten, UniqueOpenings, ReopensNone;
    JournaledIdsAreUnique(es);
    UniqueJournal(EMPTY, Flatten(Run(START, es).log), {});
  }
}
