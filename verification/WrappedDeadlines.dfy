/** Which runs can be replayed (internal/engine/ledger.go, internal/engine/accounts.go) when deadlines
  * may wrap around int64: a wrapped hold is open until the batch is over in the live loop, and is
  * closed before the next record in replay. */
module WrappedDeadlines {
  import opened Core
  import opened Engine
  import opened Holds
  import opened Expiry
  import opened Batch
  import opened Machine
  import opened Replaying
  import opened Accounting

  /* ----- one transfer ----- */

  /** The transfer does without the holds that are expired at `clock`: it settles none of them, and
    * a hold it opens is covered without what they will bring in. */
  ghost predicate Bearable(b: Books, t: Transfer, clock: int) {
    if IsSettlement(t) then t.id in b.holds && !Expired(b.holds[t.id], clock)
    else if IsPending(t) then
      && t.debit in b.accounts
      && var funds := AvailableBalance(CloseAt(b, clock).accounts[t.debit]);
         funds.Ok? && t.amount <= funds.value
    else true
  }

  /** What closing leaves of an account. */
  lemma DroppedAccount(b: Books, gone: set<Id>, a: Id)
    requires Sound(b) && a in b.accounts
    ensures a in Drop(b, gone).accounts
    ensures var acc, after := b.accounts[a], Drop(b, gone).accounts[a];
            && after == acc.(pendingDebits := after.pendingDebits, pendingCredits := after.pendingCredits)
            && after.pendingDebits == acc.pendingDebits - Held(Only(b.holds, gone), Debit, a)
            && after.pendingCredits == acc.pendingCredits - Held(Only(b.holds, gone), Credit, a)
  {
    HeldAtMost(b.holds, gone, Debit, a);
    HeldAtMost(b.holds, gone, Credit, a);
    assert Held(b.holds, Debit, a) <= Reserved(b.accounts[a], Debit);
    assert Held(b.holds, Credit, a) <= Reserved(b.accounts[a], Credit);
  }

  /** An applied transfer can be applied without the expired holds if and only if it is bearable. */
  lemma BearableExactly(b: Books, t: Transfer, clock: int)
    requires Sound(b) && Exec(b, t).err.None?
    ensures Exec(CloseAt(b, clock), t).err.None? <==> Bearable(b, t, clock)
  {
    hide Sound, Drop;
    var c := CloseAt(b, clock);
    DropShape(b, ExpiredIds(b.holds, clock));
    if IsSettlement(t) {
      SettlementBearable(b, t, clock);
    } else {
      OpeningBearable(b, t, clock);
    }
  }

  lemma SettlementBearable(b: Books, t: Transfer, clock: int)
    requires Sound(b) && Exec(b, t).err.None? && IsSettlement(t)
    ensures Exec(CloseAt(b, clock), t).err.None? <==> Bearable(b, t, clock)
  {
    hide Sound, Drop, CloseAt;
    var c := CloseAt(b, clock);
    ClosedHolds(b, clock);
    if t.id in c.holds {
      var p := b.holds[t.id];
      SoundHold(b, t.id);
      CloseKeepsSound(b, clock);
      SettlementNeverUnderflows(c, t);
      SamePosted(b, clock, p.debit);
      SamePosted(b, clock, p.credit);
    }
  }

  lemma ClosedHolds(b: Books, clock: int)
    ensures CloseAt(b, clock).accounts.Keys == b.accounts.Keys
    ensures forall k :: k in CloseAt(b, clock).holds <==> k in b.holds && !Expired(b.holds[k], clock)
    ensures forall k <- CloseAt(b, clock).holds :: CloseAt(b, clock).holds[k] == b.holds[k]
  {
  }

  /** Closing leaves all but the pending totals, and these do not grow. */
  lemma SamePosted(b: Books, clock: int, a: Id)
    requires Sound(b) && a in b.accounts
    ensures a in CloseAt(b, clock).accounts
    ensures var acc, after := b.accounts[a], CloseAt(b, clock).accounts[a];
            && after == acc.(pendingDebits := after.pendingDebits, pendingCredits := after.pendingCredits)
            && after.pendingDebits <= acc.pendingDebits && after.pendingCredits <= acc.pendingCredits
  {
    DroppedAccount(b, ExpiredIds(b.holds, clock), a);
  }

  lemma OpeningBearable(b: Books, t: Transfer, clock: int)
    requires Sound(b) && Exec(b, t).err.None? && !IsSettlement(t)
    ensures Exec(CloseAt(b, clock), t).err.None? <==> Bearable(b, t, clock)
  {
    hide Sound, Drop, CloseAt;
    ClosedHolds(b, clock);
    SamePosted(b, clock, t.debit);
    SamePosted(b, clock, t.credit);
  }

  /** A transfer and the closing of other holds can be exchanged. */
  lemma DropExec(b: Books, t: Transfer, gone: set<Id>)
    requires Sound(b) && t.id !in gone && Exec(b, t).err.None? && Exec(Drop(b, gone), t).err.None?
    ensures Exec(Drop(b, gone), t).books == Drop(Exec(b, t).books, gone)
  {
    hide Exec, Sound, Drop, DoubleEntry, EntryOf;
    var c, b1, c1 := Drop(b, gone), Exec(b, t).books, Exec(Drop(b, gone), t).books;
    DropShape(b, gone);
    DropShape(b1, gone);
    ExecKeepsSound(b, t);
    if t.id in b.holds { SoundHold(b, t.id); }
    ExecIsDoubleEntry(b, t);
    ExecIsDoubleEntry(c, t);
    SameEntry(b, c, t, gone);
    EntryKeys(b.accounts, b1.accounts, EntryOf(b, t));
    EntryKeys(c.accounts, c1.accounts, EntryOf(c, t));
    forall a | a in b.accounts
      ensures c1.accounts[a] == Drop(b1, gone).accounts[a]
    {
      EntryDrops(b, b1, c1.accounts, EntryOf(b, t), EntryOf(c, t), gone, a);
    }
    assert c1.accounts == Drop(b1, gone).accounts;
  }

  lemma EntryKeys(accounts: map<Id, Account>, after: map<Id, Account>, e: Entry)
    requires DoubleEntry(accounts, after, e)
    ensures after.Keys == accounts.Keys
  {
  }

  /** With or without the holds in `gone`, the transfer is the same entry. */
  lemma SameEntry(b: Books, c: Books, t: Transfer, gone: set<Id>)
    requires c.holds == b.holds - gone && t.id !in gone
    ensures EntryOf(c, t) == EntryOf(b, t).(holds := EntryOf(b, t).holds - gone)
    ensures Only(EntryOf(b, t).holds, gone) == Only(b.holds, gone)
  {
    assert EntryOf(c, t).holds == EntryOf(b, t).holds - gone;
  }

  lemma EntryDrops(b: Books, b1: Books, after: map<Id, Account>, e: Entry, e': Entry, gone: set<Id>, a: Id)
    requires Sound(b) && Sound(b1) && a in b.accounts && Only(b1.holds, gone) == Only(b.holds, gone)
    requires DoubleEntry(b.accounts, b1.accounts, e) && DoubleEntry(Drop(b, gone).accounts, after, e')
    requires e' == e.(holds := e'.holds)
    ensures a in after && a in Drop(b1, gone).accounts && after[a] == Drop(b1, gone).accounts[a]
  {
    hide Sound, Drop;
    DropShape(b, gone);
    DropShape(b1, gone);
    DroppedAccount(b, gone, a);
    DroppedAccount(b1, gone, a);
    var x, y := after[a], Drop(b1, gone).accounts[a];
    assert SameAccount(Drop(b, gone).accounts[a], x) && SameAccount(b.accounts[a], b1.accounts[a]);
  }

  /** So closing first does not show after closing again. */
  lemma CloseExec(b: Books, t: Transfer, clock: int)
    requires Sound(b) && Exec(b, t).err.None? && Exec(CloseAt(b, clock), t).err.None?
    requires !IsSettlement(t) ==> t.id !in b.holds
    ensures CloseAt(Exec(CloseAt(b, clock), t).books, clock) == CloseAt(Exec(b, t).books, clock)
    ensures Filled(CloseAt(b, clock), t) == Filled(b, t)
  {
    hide Exec, Sound, Drop;
    var gone, b1 := ExpiredIds(b.holds, clock), Exec(b, t).books;
    DropShape(b, gone);
    SettlesOpen(b, t, clock);
    DropExec(b, t, gone);
    ExecKeepsSound(b, t);
    if t.id in b.holds { SoundHold(b, t.id); }
    ExecIsDoubleEntry(b, t);
    DropShape(b1, gone);
    StillExpired(b, t, clock);
    DropTwice(b1, gone, ExpiredIds(b1.holds, clock));
  }

  lemma SettlesOpen(b: Books, t: Transfer, clock: int)
    requires Exec(CloseAt(b, clock), t).err.None? && (!IsSettlement(t) ==> t.id !in b.holds)
    ensures t.id !in ExpiredIds(b.holds, clock)
  {
    hide CheckOpening, MovePending, ReleasePending, Reserve, PostImmediate;
    ClosedHolds(b, clock);
  }

  /** The transfer touches no expired hold. */
  lemma StillExpired(b: Books, t: Transfer, clock: int)
    requires t.id !in ExpiredIds(b.holds, clock)
    ensures var gone, holds := ExpiredIds(b.holds, clock), EntryOf(b, t).holds;
            gone <= ExpiredIds(holds, clock) && ExpiredIds(holds - gone, clock) == ExpiredIds(holds, clock) - gone
  {
    var gone, holds := ExpiredIds(b.holds, clock), EntryOf(b, t).holds;
    assert forall k | k in gone :: k in holds && holds[k] == b.holds[k];
  }

  /* ----- batches ----- */

  /** Every transfer of the batch, when it comes, does without the expired holds. */
  ghost predicate Survives(b: Books, ts: seq<Transfer>, clock: int)
    decreases |ts|
  {
    ts == [] || (Bearable(b, ts[0], clock) && Survives(Exec(b, ts[0]).books, ts[1..], clock))
  }

  /** The replayed state `q` and the live state `s` differ in expired holds at most. */
  ghost predicate InTouch(q: State, s: State) {
    && Sound(q.books) && Sound(s.books) && q.clock <= s.clock
    && CloseExpired(q, s.clock) == CloseExpired(s, s.clock)
  }

  /** One record: replay refuses it if it is not bearable, and otherwise stays in touch. */
  lemma RecordInTouch(q: State, s: State, t: Transfer)
    requires InTouch(q, s) && t.timestamp == s.clock && ApplyTransfer(s, t).err.None?
    requires !IsSettlement(t) ==> t.id !in s.books.holds
    ensures var a := ReplayRecord(q, TransferRecord(t));
            && (a.err.None? <==> Bearable(s.books, t, s.clock))
            && (a.err.None? ==> InTouch(a.state, ApplyTransfer(s, t).state))
  {
    hide Exec, Sound, CloseAt, Filled, Recorded, Bearable;
    var c := CloseExpired(s, s.clock);
    BearableExactly(s.books, t, s.clock);
    if Exec(c.books, t).err.None? {
      CloseExec(s.books, t, s.clock);
      CloseKeepsSound(s.books, s.clock);
      ExecKeepsSound(c.books, t);
      ExecKeepsSound(s.books, t);
      RecordedSame(c, s, Exec(c.books, t).books, Exec(s.books, t).books, Filled(s.books, t));
    }
  }

  lemma RecordedSame(c: State, s: State, b: Books, b': Books, t: Transfer)
    requires c.transfers == s.transfers && c.history == s.history && c.clock == s.clock
    requires CloseAt(b, s.clock) == CloseAt(b', s.clock)
    ensures CloseExpired(Recorded(c.(books := b), t), s.clock) == CloseExpired(Recorded(s.(books := b'), t), s.clock)
    ensures Recorded(c.(books := b), t).books == b && Recorded(s.(books := b'), t).books == b'
    ensures Recorded(c.(books := b), t).clock == Recorded(s.(books := b'), t).clock == s.clock
  {
    hide CloseAt;
  }

  /** A batch replays without error if and only if it survives, and then stays in touch. */
  lemma {:induction false} BatchInTouch(q: State, s: State, ts: seq<Transfer>, used: set<Id>)
    requires InTouch(q, s) && ApplyAll(s, ts).err.None? && forall i | 0 <= i < |ts| :: ts[i].timestamp == s.clock
    requires UniqueOpenings(ts, used) && s.books.holds.Keys <= used
    ensures var r := Replay(q, TransferRecords(ts));
            && (r.err.None? <==> Survives(s.books, ts, s.clock))
            && (r.err.None? ==> InTouch(r.state, ApplyAll(s, ts).state))
    decreases |ts|
  {
    hide InTouch, ReplayRecord, Exec, Recorded, Filled, Bearable;
    if ts != [] {
      var t := ts[0];
      RecordInTouch(q, s, t) by { AppliedExec(s, t); }
      AppliedExec(s, t);
      assert TransferRecords(ts)[0] == TransferRecord(t) && TransferRecords(ts)[1..] == TransferRecords(ts[1..]);
      var a, s1 := ReplayRecord(q, TransferRecord(t)), ApplyTransfer(s, t).state;
      if a.err.None? {
        BatchInTouch(a.state, s1, ts[1..], if IsSettlement(t) then used else used + {t.id});
      }
    }
  }

  lemma AppliedExec(s: State, t: Transfer)
    requires ApplyTransfer(s, t).err.None?
    ensures var s1 := ApplyTransfer(s, t).state;
            && s1.books == Exec(s.books, t).books && s1.clock == s.clock
            && s1.books.holds.Keys <= s.books.holds.Keys + (if IsSettlement(t) then {} else {t.id})
  {
    hide CheckOpening, MovePending, ReleasePending, Reserve, PostImmediate;
  }

  /* ----- runs ----- */

  /** The accepted transfers of the batch survive. */
  ghost predicate Replayable(l: Live, e: Event) {
    match e
    case Accounts(_) => true
    case Transfers(now, evs) =>
      var clock := BatchClock(l.clock, now);
      var s, stamped := CloseExpired(l.state, clock), Stamped(evs, clock);
      Survives(s.books, AcceptedEvents(stamped, RuleBatch(s.transfers.Keys, s.books, stamped).outcomes), clock)
  }

  ghost predicate AllReplayable(es: seq<Event>) {
    forall i | 0 <= i < |es| :: Replayable(Run(START, es[..i]), es[i])
  }

  /** The batch clock never runs out. */
  ghost predicate Ticking(es: seq<Event>) {
    forall i | 0 <= i < |es| && es[i].Transfers? :: Run(START, es[..i]).clock < I64_MAX
  }

  ghost predicate Replays(l: Live) {
    var r := Replay(EMPTY, Flatten(l.log));
    r.err.None? && l.state.clock == l.clock && InTouch(r.state, l.state)
  }

  lemma BatchReplays(l: Live, now: I64, evs: seq<Transfer>)
    requires Replays(l) && InOrder(l) && l.clock < I64_MAX
    ensures var l' := ProcessBatch(l, now, evs);
            && (Replay(EMPTY, Flatten(l'.log)).err.None? <==> Replayable(l, Transfers(now, evs)))
            && (Replay(EMPTY, Flatten(l'.log)).err.None? ==> Replays(l'))
  {
    hide Sound, CloseAt, Accounted, RuleBatch, AcceptedEvents, ApplyBatch, ApplyAll, Replay, Flatten, Stamped,
      UniqueOpenings, Survives;
    var clock := BatchClock(l.clock, now);
    var s, stamped := CloseExpired(l.state, clock), Stamped(evs, clock);
    var outcomes := RuleBatch(s.transfers.Keys, s.books, stamped).outcomes;
    var ts := AcceptedEvents(stamped, outcomes);
    var r := Replay(EMPTY, Flatten(l.log)).state;
    CloseKeepsSound(l.state.books, clock);
    CloseKeepsSound(r.books, clock);
    LiveBatch(s, stamped);
    CloseLater(r, l.state, l.clock, clock);
    ClosedTwice(r, clock);
    FlattenJournal(l.log, TransferRecords(ts));
    ReplayAppend(EMPTY, Flatten(l.log), TransferRecords(ts));
    BatchIdsUnique(s.transfers.Keys, s.books, stamped);
    AcceptedStamps(evs, clock, outcomes);
    ClosedHolds(l.state.books, clock);
    BatchInTouch(r, s, ts, s.transfers.Keys);
  }

  lemma ClosedTwice(r: State, clock: I64)
    requires Sound(r.books)
    ensures CloseExpired(CloseExpired(r, clock), clock) == CloseExpired(r, clock)
  {
    CloseOpens(r.books, clock);
  }

  lemma AccountsReplay(l: Live, accs: seq<Account>)
    requires Replays(l)
    ensures Replays(ProcessAccounts(l, accs))
  {
    hide Sound, CloseAt, Flatten, Admitted, Replay;
    var admitted := Admitted(l.state.books, accs);
    var r := Replay(EMPTY, Flatten(l.log)).state;
    FlattenJournal(l.log, AccountRecords(admitted));
    ReplayAppend(EMPTY, Flatten(l.log), AccountRecords(admitted));
    ReplayAccounts(r, admitted);
    CloseCreateAll(r.books, admitted, l.clock);
    CloseCreateAll(l.state.books, admitted, l.clock);
  }

  /** A journal that cannot be replayed stays so, whatever follows. */
  lemma {:induction false} StaysRefused(s: State, xs: seq<Record>, ys: seq<Record>)
    requires Replay(s, xs).err.Some?
    ensures Replay(s, xs + ys).err.Some?
    decreases |xs|
  {
    hide ReplayRecord;
    if xs != [] {
      assert (xs + ys)[0] == xs[0] && (xs + ys)[1..] == xs[1..] + ys;
      if ReplayRecord(s, xs[0]).err.None? { StaysRefused(ReplayRecord(s, xs[0]).state, xs[1..], ys); }
    }
  }

  lemma StepRefused(l: Live, e: Event)
    requires Replay(EMPTY, Flatten(l.log)).err.Some?
    ensures Replay(EMPTY, Flatten(Step(l, e).log)).err.Some?
  {
    hide Flatten, Replay, CloseAt, RuleBatch, AcceptedEvents, ApplyBatch, Admitted, CreateAll, Stamped;
    match e
    case Accounts(accs) =>
      var records := AccountRecords(Admitted(l.state.books, accs));
      FlattenJournal(l.log, records);
      StaysRefused(EMPTY, Flatten(l.log), records);
    case Transfers(now, evs) =>
      var clock := BatchClock(l.clock, now);
      var s, stamped := CloseExpired(l.state, clock), Stamped(evs, clock);
      var records := TransferRecords(AcceptedEvents(stamped, RuleBatch(s.transfers.Keys, s.books, stamped).outcomes));
      FlattenJournal(l.log, records);
      StaysRefused(EMPTY, Flatten(l.log), records);
  }

  /** For every run whose clock does not run out, whatever the timeouts: the journal replays without
    * error if and only if every batch did without the holds whose deadline had wrapped around; and
    * then, once both are closed at the live clock, it gives the live ledger. */
  lemma {:induction false} RunReplaysExactly(es: seq<Event>)
    requires Ticking(es)
    ensures var l := Run(START, es);
            var r := Replay(EMPTY, Flatten(l.log));
            && (r.err.None? <==> AllReplayable(es))
            && (r.err.None? ==> Replays(l) && CloseExpired(r.state, l.clock) == CloseExpired(l.state, l.clock))
  {
    hide Replay, Flatten, InTouch, Replayable, Step;
    if es == [] {
      NothingReplays();
    } else {
      var n := |es| - 1;
      var before, l := Run(START, es[..n]), Run(START, es);
      assert forall i | 0 <= i < n :: es[..n][..i] == es[..i] && es[..n][i] == es[i];
      RunReplaysExactly(es[..n]);
      if Replay(EMPTY, Flatten(before.log)).err.Some? {
        StepRefused(before, es[n]);
      } else {
        StepReplays(es[..n], es[n]);
      }
      assert AllReplayable(es) <==> AllReplayable(es[..n]) && Replayable(before, es[n]);
      if Replay(EMPTY, Flatten(l.log)).err.None? { Agree(l); }
    }
  }

  lemma NothingReplays()
    ensures Replays(Run(START, [])) && Replay(EMPTY, Flatten(Run(START, []).log)).err.None?
    ensures var l := Run(START, []);
            CloseExpired(Replay(EMPTY, Flatten(l.log)).state, l.clock) == CloseExpired(l.state, l.clock)
  {
    EmptyIsSound();
  }

  lemma Agree(l: Live)
    requires Replays(l)
    ensures CloseExpired(Replay(EMPTY, Flatten(l.log)).state, l.clock) == CloseExpired(l.state, l.clock)
  {
    hide Replay, Flatten, Sound, CloseAt;
  }

  lemma StepReplays(es: seq<Event>, e: Event)
    requires Replays(Run(START, es)) && (e.Transfers? ==> Run(START, es).clock < I64_MAX)
    ensures var l' := Step(Run(START, es), e);
            && (Replay(EMPTY, Flatten(l'.log)).err.None? <==> Replayable(Run(START, es), e))
            && (Replay(EMPTY, Flatten(l'.log)).err.None? ==> Replays(l'))
  {
    hide Run, Replay, Flatten, InTouch, ProcessBatch, ProcessAccounts, Survives;
    var l := Run(START, es);
    match e
    case Accounts(accs) => AccountsReplay(l, accs);
    case Transfers(now, evs) =>
      RunInOrder(es);
      BatchReplays(l, now, evs);
  }

  /* ----- a hold that nobody settles ----- */

  predicate SettlesNothing(es: seq<Event>) {
    forall i, j | 0 <= i < |es| && es[i].Transfers? && 0 <= j < |es[i].transfers| :: !IsSettlement(es[i].transfers[j])
  }

  /** It is not only settlements: a wrapped hold brings in funds for a later hold of its batch, which
    * replay, having closed it, refuses. */
  lemma UnsettledHoldBreaksReplay()
    ensures exists es: seq<Event> :: SettlesNothing(es) && Replay(EMPTY, Flatten(Run(START, es).log)).err.Some?
  {
    hide Run, Replay, Flatten, Stage;
    var a1 := Account(1, 0, 1, 0, 0, 0, 0, 10, 0, 0);
    var a2 := Account(2, 0, 1, 0, 0, 0, 0, 0, 0, 0);
    var hold := Transfer(7, 1, 2, 10, 0, 0, 1, TWO_64 - 1, 1, 0, 1);
    var next := Transfer(8, 2, 1, 10, 0, 0, 1, 0, 1, 0, 1);
    var es := [Accounts([a1, a2]), Transfers(1, [hold, next])];
    HoldThenHoldStages(a1, a2, hold, next);
    TwoTransfersReplay(a1, a2, hold, next);
    NextIsRefused(a1, a2, hold, next);
    assert SettlesNothing(es);
  }

  lemma HoldThenHoldStages(a1: Account, a2: Account, hold: Transfer, next: Transfer)
    requires a1 == Account(1, 0, 1, 0, 0, 0, 0, 10, 0, 0) && a2 == Account(2, 0, 1, 0, 0, 0, 0, 0, 0, 0)
    requires hold == Transfer(7, 1, 2, 10, 0, 0, 1, hold.timeout, 1, 0, 1)
    requires next == Transfer(8, 2, 1, 10, 0, 0, 1, 0, 1, 0, 1)
    ensures var b := Books(map[1 := a1, 2 := a2], map[]);
            Stage(b, hold).Ok? && Stage(Stage(b, hold).value, next).Ok?
  {
    var b := Books(map[1 := a1, 2 := a2], map[]);
    assert Stage(b, hold) == StageHold(b, hold);
    var b1 := Stage(b, hold).value;
    assert b1.accounts[2] == a2.(pendingCredits := 10) && b1.accounts[1] == a1.(pendingDebits := 10);
    assert Stage(b1, next) == StageHold(b1, next);
  }

  /** Replay has closed the first hold when the second record comes. */
  lemma NextIsRefused(a1: Account, a2: Account, hold: Transfer, next: Transfer)
    requires a1 == Account(1, 0, 1, 0, 0, 0, 0, 10, 0, 0) && a2 == Account(2, 0, 1, 0, 0, 0, 0, 0, 0, 0)
    requires hold == Transfer(7, 1, 2, 10, 0, 0, 1, TWO_64 - 1, 1, 0, 1)
    requires next == Transfer(8, 2, 1, 10, 0, 0, 1, 0, 1, 0, 1)
    ensures Replay(EMPTY.(books := Books(map[1 := a1, 2 := a2], map[])), TransferRecords([hold, next])).err.Some?
  {
    hide CloseAt, Exec, Recorded, Filled;
    var b := Books(map[1 := a1, 2 := a2], map[]);
    var s := EMPTY.(books := b);
    CloseIdle(b, 1);
    HoldTen(a1, a2, hold);
    var s1 := ReplayRecord(s, TransferRecord(hold)).state;
    var b1 := Books(map[1 := a1.(pendingDebits := 10), 2 := a2.(pendingCredits := 10)], map[7 := hold]);
    assert s1.books == b1 && s1.clock == 1 by { RecordedKeeps(s.(clock := 1, books := b1), Filled(b, hold)); }
    FundsAreGone(b1, hold, next);
    var rs := TransferRecords([hold, next]);
    assert rs[0] == TransferRecord(hold) && rs[1..][0] == TransferRecord(next);
    assert Replay(s1, rs[1..]).err.Some?;
  }

  lemma RecordedKeeps(s: State, t: Transfer)
    ensures Recorded(s, t).books == s.books && Recorded(s, t).clock == s.clock
  {
  }

  lemma FundsAreGone(b: Books, hold: Transfer, next: Transfer)
    requires 2 in b.accounts && b.accounts[2] == Account(2, 0, 1, 0, 0, 0, 0, 0, 0, 10) && b.holds == map[7 := hold]
    requires hold == Transfer(7, 1, 2, 10, 0, 0, 1, TWO_64 - 1, 1, 0, 1)
    requires next == Transfer(8, 2, 1, 10, 0, 0, 1, 0, 1, 0, 1)
    ensures Exec(CloseAt(b, 1), next).err.Some?
  {
    assert Expired(hold, 1);
    assert ExpiredIds(b.holds, 1) == {7};
    assert Only(b.holds, {7}) == b.holds;
    HeldTakeOut(b.holds, 7, Credit, 2);
    HeldTakeOut(b.holds, 7, Debit, 2);
    var c := CloseAt(b, 1);
    assert c.accounts[2].pendingCredits == 0;
    assert AvailableBalance(c.accounts[2]) == Ok(0);
  }
}
