/** Restarting from a snapshot: restore its accounts and open holds, replay only the records
  * above it, and reach the books that a full replay reaches. */
module Snapshots {
  import opened Core
  import opened Engine
  import opened Holds
  import opened Expiry
  import opened Batch
  import opened Machine
  import opened Replaying

  /** RestorePending, one hold after the other. */
  function RestoreHolds(pendings: seq<Transfer>): Result<map<Id, Transfer>> {
    if pendings == [] then Ok(map[])
    else
      var n := |pendings| - 1;
      var t := pendings[n];
      match RestoreHolds(pendings[..n])
      case Err(e) => Err(e)
      case Ok(holds) => if t.id in holds then Err(RestoredTwice(t.id)) else Ok(holds[t.id := t])
  }

  /** The clock after restoring: the latest timestamp of a restored hold, or 0. */
  function RestoredClock(pendings: seq<Transfer>): I64 {
    if pendings == [] then 0 else Later(RestoredClock(pendings[..|pendings| - 1]), pendings[|pendings| - 1].timestamp)
  }

  /** The snapshot-loading part of NewLedger. */
  function Restore(accs: seq<Account>, pendings: seq<Transfer>): Result<State> {
    match RestoreHolds(pendings)
    case Err(e) => Err(e)
    case Ok(holds) =>
      Ok(State(Books(CreateAll(EMPTY.books, accs).accounts, holds), RestoredClock(pendings), map[], map[]))
  }

  /** `accs` lists the accounts, each once. */
  predicate ListsAccounts(accs: seq<Account>, accounts: map<Id, Account>) {
    && (forall i, j | 0 <= i < j < |accs| :: accs[i].id != accs[j].id)
    && (forall i | 0 <= i < |accs| :: accs[i].id in accounts && accounts[accs[i].id] == accs[i])
    && (forall k <- accounts :: exists i | 0 <= i < |accs| :: accs[i].id == k)
  }

  /** `pendings` lists the open holds, each once, in any order. */
  predicate ListsHolds(pendings: seq<Transfer>, holds: map<Id, Transfer>) {
    && (forall i, j | 0 <= i < j < |pendings| :: pendings[i].id != pendings[j].id)
    && (forall i | 0 <= i < |pendings| :: pendings[i].id in holds && holds[pendings[i].id] == pendings[i])
    && (forall k <- holds :: exists i | 0 <= i < |pendings| :: pendings[i].id == k)
  }

  lemma {:induction false} CreateAllLists(accs: seq<Account>, n: nat)
    requires n <= |accs|
    requires forall i, j | 0 <= i < j < |accs| :: accs[i].id != accs[j].id
    ensures var made := CreateAll(EMPTY.books, accs[..n]).accounts;
            && (forall i | 0 <= i < n :: accs[i].id in made && made[accs[i].id] == accs[i])
            && (forall k <- made :: exists i | 0 <= i < n :: accs[i].id == k)
  {
    if n > 0 {
      CreateAllLists(accs, n - 1);
      assert accs[..n][..n - 1] == accs[..n - 1];
      var made' := CreateAll(EMPTY.books, accs[..n - 1]).accounts;
      assert accs[n - 1].id !in made';
      var made := CreateAll(EMPTY.books, accs[..n]).accounts;
      assert made == made'[accs[n - 1].id := accs[n - 1]];
    }
  }

  lemma {:induction false} RestoreHoldsLists(pendings: seq<Transfer>, n: nat, clock: I64)
    requires n <= |pendings| && 0 <= clock
    requires forall i, j | 0 <= i < j < |pendings| :: pendings[i].id != pendings[j].id
    requires forall i | 0 <= i < |pendings| :: pendings[i].timestamp <= clock
    ensures RestoredClock(pendings[..n]) <= clock
    ensures RestoreHolds(pendings[..n]).Ok?
    ensures var holds := RestoreHolds(pendings[..n]).value;
            && (forall i | 0 <= i < n :: pendings[i].id in holds && holds[pendings[i].id] == pendings[i])
            && (forall k <- holds :: exists i | 0 <= i < n :: pendings[i].id == k)
  {
    if n > 0 {
      RestoreHoldsLists(pendings, n - 1, clock);
      assert pendings[..n][..n - 1] == pendings[..n - 1];
      var holds' := RestoreHolds(pendings[..n - 1]).value;
      assert pendings[n - 1].id !in holds';
      var holds := RestoreHolds(pendings[..n]).value;
      assert holds == holds'[pendings[n - 1].id := pendings[n - 1]];
    }
  }

  /** Restoring any listing of accounts and holds gives them back. */
  lemma RestoreReturns(b: Books, clock: I64, accs: seq<Account>, pendings: seq<Transfer>)
    requires 0 <= clock && Dated(b, clock)
    requires ListsAccounts(accs, b.accounts) && ListsHolds(pendings, b.holds)
    ensures var r := Restore(accs, pendings);
            r.Ok? && r.value.books == b && r.value.clock <= clock
  {
    RestoreAccounts(b.accounts, accs);
    RestorePendings(b.holds, clock, pendings);
  }

  lemma RestoreAccounts(accounts: map<Id, Account>, accs: seq<Account>)
    requires ListsAccounts(accs, accounts)
    ensures CreateAll(EMPTY.books, accs).accounts == accounts
  {
    hide CreateAll;
    CreateAllLists(accs, |accs|);
    assert accs[..|accs|] == accs;
    assert CreateAll(EMPTY.books, accs).accounts.Keys == accounts.Keys;
  }

  lemma RestorePendings(holds: map<Id, Transfer>, clock: I64, pendings: seq<Transfer>)
    requires 0 <= clock && ListsHolds(pendings, holds)
    requires forall k <- holds :: holds[k].timestamp <= clock
    ensures RestoreHolds(pendings) == Ok(holds) && RestoredClock(pendings) <= clock
  {
    hide RestoreHolds, RestoredClock;
    RestoreHoldsLists(pendings, |pendings|, clock);
    assert pendings[..|pendings|] == pendings;
    var got := RestoreHolds(pendings).value;
    assert got.Keys == holds.Keys;
    assert got == holds;
  }

  /** Two replays in progress whose books agree once closed at the live clock. */
  ghost predicate Alongside(r: State, q: State, clock: I64) {
    && Sound(r.books) && Sound(q.books)
    && r.clock <= clock && q.clock <= clock
    && CloseAt(r.books, clock) == CloseAt(q.books, clock)
  }

  /** The records one event journals. */
  ghost function Delta(l: Live, e: Event): seq<Record> {
    match e
    case Accounts(accs) => AccountRecords(Admitted(l.state.books, accs))
    case Transfers(now, evs) =>
      var clock := BatchClock(l.clock, now);
      var s := CloseExpired(l.state, clock);
      var stamped := Stamped(evs, clock);
      TransferRecords(AcceptedEvents(stamped, RuleBatch(s.transfers.Keys, s.books, stamped).outcomes))
  }

  lemma DeltaIsJournaled(l: Live, e: Event)
    ensures Flatten(Step(l, e).log) == Flatten(l.log) + Delta(l, e)
  {
    hide Flatten, RuleBatch, AcceptedEvents, ApplyBatch, CloseAt;
    FlattenJournal(l.log, Delta(l, e));
  }

  lemma AccountsAlongside(r: State, q: State, l: Live, accs: seq<Account>)
    requires Alongside(r, q, l.clock)
    ensures var d := Delta(l, Accounts(accs));
            && Replay(r, d).err.None? && Replay(q, d).err.None?
            && Alongside(Replay(r, d).state, Replay(q, d).state, l.clock)
  {
    hide Sound, CloseAt, Admitted;
    var admitted := Admitted(l.state.books, accs);
    ReplayAccounts(r, admitted);
    ReplayAccounts(q, admitted);
    CloseCreateAll(r.books, admitted, l.clock);
    CloseCreateAll(q.books, admitted, l.clock);
  }

  lemma TransfersAlongside(r: State, q: State, l: Live, now: I64, evs: seq<Transfer>)
    requires Alongside(r, q, l.clock) && InStep(l) && Admissible(l, Transfers(now, evs))
    requires CloseAt(r.books, l.clock) == CloseAt(l.state.books, l.clock)
    ensures var d := Delta(l, Transfers(now, evs));
            && Replay(r, d).err.None? && Replay(q, d).err.None?
            && Alongside(Replay(r, d).state, Replay(q, d).state, BatchClock(l.clock, now))
  {
    hide Sound, CloseAt, Exec, RuleBatch, AcceptedEvents, Stamped, ReplayRecord, ApplyTransfer, AllOpen, Dated, Flatten;
    var clock := BatchClock(l.clock, now);
    var s := CloseExpired(l.state, clock);
    var stamped := Stamped(evs, clock);
    var outcomes := RuleBatch(s.transfers.Keys, s.books, stamped).outcomes;
    var ts := AcceptedEvents(stamped, outcomes);
    StampedLast(l, now, evs, outcomes);
    CloseTwice(r.books, l.clock, clock);
    CloseTwice(q.books, l.clock, clock);
    CloseTwice(l.state.books, l.clock, clock);
    CloseOpens(l.state.books, clock);
    LiveBatch(s, stamped);
    if ts != [] {
      ApplyAllBooks(s, ts);
      BatchAlongside(r, s, clock, ts);
      BatchAlongside(q, s, clock, ts);
    }
  }

  lemma BatchAlongside(r: State, s: State, clock: I64, ts: seq<Transfer>)
    requires Sound(r.books) && r.clock <= clock && ts != []
    requires CloseAt(r.books, clock) == s.books
    requires ExecAll(s.books, ts).err.None? && Sound(ExecAll(s.books, ts).books)
    requires forall i | 0 <= i < |ts| :: ts[i].timestamp == clock && Lasting(ts[i], clock)
    ensures var a := Replay(r, TransferRecords(ts));
            a.err.None? && a.state.books == ExecAll(s.books, ts).books && a.state.clock == clock
  {
    hide Sound, CloseAt, Exec;
    ApplyAllBooks(CloseExpired(r, clock), ts);
    ReplayBatch(r, clock, ts);
  }

  /** The records journaled after the first `n` events. */
  ghost function After(es: seq<Event>, n: nat): seq<Record>
    requires n <= |es|
  {
    if n == |es| then []
    else
      var m := |es| - 1;
      After(es[..m], n) + Delta(Run(START, es[..m]), es[m])
  }

  lemma {:induction false} LogSplits(es: seq<Event>, n: nat)
    requires n <= |es|
    ensures Flatten(Run(START, es).log) == Flatten(Run(START, es[..n]).log) + After(es, n)
  {
    hide Step, Flatten, Delta;
    if n == |es| {
      assert es[..n] == es;
    } else {
      var m := |es| - 1;
      LogSplits(es[..m], n);
      assert es[..m][..n] == es[..n];
      DeltaIsJournaled(Run(START, es[..m]), es[m]);
    }
  }

  lemma {:induction false} ReplayAlongside(es: seq<Event>, n: nat, q0: State)
    requires n <= |es| && AdmissibleRun(es)
    requires Sound(q0.books) && q0.books == Run(START, es[..n]).state.books && q0.clock <= Run(START, es[..n]).clock
    ensures Replay(q0, After(es, n)).err.None?
    ensures Replay(EMPTY, Flatten(Run(START, es).log)).err.None?
    ensures Alongside(Replay(EMPTY, Flatten(Run(START, es).log)).state, Replay(q0, After(es, n)).state,
                      Run(START, es).clock)
  {
    hide Sound, CloseAt, Step, Delta, Replay, Flatten, AllOpen, Dated;
    RunInStep(es);
    if n == |es| {
      assert es[..n] == es;
      assert After(es, n) == [];
      ReplayNothing(q0);
    } else {
      var m := |es| - 1;
      var l := Run(START, es[..m]);
      assert forall i | 0 <= i < m :: es[..m][..i] == es[..i];
      assert es[..m][..n] == es[..n];
      ReplayAlongside(es[..m], n, q0);
      RunInStep(es[..m]);
      DeltaIsJournaled(l, es[m]);
      var r, q := Replay(EMPTY, Flatten(l.log)).state, Replay(q0, After(es[..m], n)).state;
      var d := Delta(l, es[m]);
      ReplayAppend(EMPTY, Flatten(l.log), d);
      ReplayAppend(q0, After(es[..m], n), d);
      StepAlongside(r, q, l, es[m]);
    }
  }

  lemma ReplayNothing(s: State)
    ensures Replay(s, []) == Applied(s, None)
  {
  }

  lemma StepAlongside(r: State, q: State, l: Live, e: Event)
    requires Alongside(r, q, l.clock) && InStep(l) && Admissible(l, e)
    requires CloseAt(r.books, l.clock) == CloseAt(l.state.books, l.clock)
    ensures var d := Delta(l, e);
            && Replay(r, d).err.None? && Replay(q, d).err.None?
            && Alongside(Replay(r, d).state, Replay(q, d).state, Step(l, e).clock)
  {
    hide Sound, CloseAt, Delta, RuleBatch, AcceptedEvents, ApplyBatch;
    match e
    case Accounts(accs) => AccountsAlongside(r, q, l, accs);
    case Transfers(now, evs) => TransfersAlongside(r, q, l, now, evs);
  }

  /** For a snapshot taken after any `n` events of a run, however its holds are listed: restoring
    * it succeeds, replaying the records after it succeeds, and closed at the live clock the
    * accounts and open holds are the live ones, as they are after a full replay. */
  lemma SnapshotRestart(es: seq<Event>, n: nat, accs: seq<Account>, pendings: seq<Transfer>)
    requires n <= |es| && AdmissibleRun(es)
    requires ListsAccounts(accs, Run(START, es[..n]).state.books.accounts)
    requires ListsHolds(pendings, Run(START, es[..n]).state.books.holds)
    ensures Restore(accs, pendings).Ok?
    ensures var l := Run(START, es);
            var q := Replay(Restore(accs, pendings).value, After(es, n));
            var r := Replay(EMPTY, Flatten(l.log));
            && q.err.None?
            && CloseAt(q.state.books, l.clock) == l.state.books
            && CloseAt(r.state.books, l.clock) == l.state.books
  {
    hide Sound, CloseAt, Flatten, Replay, Run, Restore, AdmissibleRun, AllOpen, Dated, ListsAccounts, ListsHolds, After;
    AdmissiblePrefix(es, n);
    RunInStep(es[..n]);
    var snap := Run(START, es[..n]);
    RestoreReturns(snap.state.books, snap.clock, accs, pendings);
    ReplayAlongside(es, n, Restore(accs, pendings).value);
    ReplayRebuildsLive(es);
  }
}
