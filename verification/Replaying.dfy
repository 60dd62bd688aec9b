/** Replaying the journal rebuilds the live ledger.  The live loop closes expired holds once per
  * batch, also for batches that journal nothing; replay closes them before every journaled
  * transfer.  The two reach the same state once both are closed at the live clock. */
module Replaying {
  import opened Core
  import opened Engine
  import opened Holds
  import opened Expiry
  import opened Batch
  import opened Machine

  lemma {:induction false} ReplayAppend(s: State, xs: seq<Record>, ys: seq<Record>)
    requires Replay(s, xs).err.None?
    ensures Replay(s, xs + ys) == Replay(Replay(s, xs).state, ys)
    decreases |xs|
  {
    hide ReplayRecord;
    if xs == [] {
      assert xs + ys == ys;
    } else {
      assert (xs + ys)[1..] == xs[1..] + ys;
      ReplayAppend(ReplayRecord(s, xs[0]).state, xs[1..], ys);
    }
  }

  /** The books part of applying in order. */
  lemma {:induction false} ApplyAllBooks(s: State, ts: seq<Transfer>)
    ensures ApplyAll(s, ts).err == ExecAll(s.books, ts).err
    ensures ApplyAll(s, ts).state.books == ExecAll(s.books, ts).books
    ensures ApplyAll(s, ts).state.clock == s.clock
    decreases |ts|
  {
    hide Exec;
    if ts != [] {
      ApplyAllBooks(ApplyTransfer(s, ts[0]).state, ts[1..]);
    }
  }

  /** When the accepted events all execute, ApplyBatch applies exactly them and changes no outcome. */
  lemma {:induction false} ApplyBatchApplies(s: State, evs: seq<Transfer>, outcomes: seq<Option<Error>>)
    requires |evs| == |outcomes|
    requires ExecAll(s.books, AcceptedEvents(evs, outcomes)).err.None?
    ensures ApplyBatch(s, evs, outcomes)
         == BatchResult(ApplyAll(s, AcceptedEvents(evs, outcomes)).state, outcomes)
    decreases |evs|
  {
    hide Exec;
    if evs != [] {
      var rest := AcceptedEvents(evs[1..], outcomes[1..]);
      if outcomes[0].Some? {
        assert AcceptedEvents(evs, outcomes) == rest;
        ApplyBatchApplies(s, evs[1..], outcomes[1..]);
      } else {
        assert AcceptedEvents(evs, outcomes) == [evs[0]] + rest;
        assert ([evs[0]] + rest)[1..] == rest;
        ApplyBatchApplies(ApplyTransfer(s, evs[0]).state, evs[1..], outcomes[1..]);
      }
      assert [outcomes[0]] + outcomes[1..] == outcomes;
    }
  }

  /** No open hold is expired at `clock`. */
  predicate AllOpen(b: Books, clock: int) {
    forall k <- b.holds :: !Expired(b.holds[k], clock)
  }

  /** No open hold was stamped after `clock`. */
  predicate Dated(b: Books, clock: int) {
    forall k <- b.holds :: b.holds[k].timestamp <= clock
  }

  /** A transfer whose hold, if it opens one, is still open at `clock`. */
  predicate Lasting(t: Transfer, clock: int) {
    OpensHold(t) ==> !Expired(t, clock)
  }

  lemma ExecKeepsOpen(b: Books, t: Transfer, clock: int)
    requires AllOpen(b, clock) && Lasting(t, clock) && Exec(b, t).err.None?
    ensures AllOpen(Exec(b, t).books, clock)
    ensures Dated(b, clock) && t.timestamp <= clock ==> Dated(Exec(b, t).books, clock)
  {
    hide MovePending, ReleasePending, Reserve, PostImmediate, CheckOpening;
  }

  /** Every hold opened before the last of `ts` is still open at `clock`. */
  predicate LastingButLast(ts: seq<Transfer>, clock: int) {
    forall i | 0 <= i < |ts| - 1 :: Lasting(ts[i], clock)
  }

  /** A run of transfers stamped with the current clock replays as it was applied. */
  lemma {:induction false} ReplayAtClock(s: State, ts: seq<Transfer>)
    requires AllOpen(s.books, s.clock) && ApplyAll(s, ts).err.None?
    requires LastingButLast(ts, s.clock) && forall i | 0 <= i < |ts| :: ts[i].timestamp == s.clock
    ensures Replay(s, TransferRecords(ts)) == ApplyAll(s, ts)
    decreases |ts|
  {
    if ts != [] {
      CloseIdle(s.books, s.clock);
      assert CloseExpired(s, s.clock) == s;
      var a := ApplyTransfer(s, ts[0]);
      assert TransferRecords(ts)[1..] == TransferRecords(ts[1..]);
      if |ts| > 1 {
        ExecKeepsOpen(s.books, ts[0], s.clock);
        ReplayAtClock(a.state, ts[1..]);
      }
      hide Exec, CloseAt;
    }
  }

  /** Replaying a batch from any state that agrees with the live one up to expiry. */
  lemma ReplayBatch(s: State, clock: I64, ts: seq<Transfer>)
    requires Sound(s.books) && s.clock <= clock && ts != []
    requires ApplyAll(CloseExpired(s, clock), ts).err.None?
    requires LastingButLast(ts, clock) && forall i | 0 <= i < |ts| :: ts[i].timestamp == clock
    ensures Replay(s, TransferRecords(ts)) == ApplyAll(CloseExpired(s, clock), ts)
  {
    hide Exec, CloseAt, Sound, AllOpen, LastingButLast;
    var closed := CloseExpired(s, clock);
    CloseOpens(s.books, clock);
    ReplayAtClock(closed, ts);
    assert TransferRecords(ts)[0] == TransferRecord(ts[0]);
    assert ReplayRecord(s, TransferRecord(ts[0])) == ReplayRecord(closed, TransferRecord(ts[0]));
  }

  lemma {:induction false} ReplayAccounts(s: State, accs: seq<Account>)
    ensures Replay(s, AccountRecords(accs)) == Applied(s.(books := CreateAll(s.books, accs)), None)
  {
    if accs != [] {
      var n := |accs| - 1;
      ReplayAccounts(s, accs[..n]);
      ReplayAppend(s, AccountRecords(accs[..n]), [AccountRecord(accs[n])]);
      assert AccountRecords(accs) == AccountRecords(accs[..n]) + [AccountRecord(accs[n])];
      assert Replay(Replay(s, AccountRecords(accs[..n])).state, [AccountRecord(accs[n])])
          == ReplayRecord(Replay(s, AccountRecords(accs[..n])).state, AccountRecord(accs[n]));
    }
  }

  lemma {:induction false} CloseCreateAll(b: Books, accs: seq<Account>, clock: int)
    requires Sound(b)
    ensures Sound(CreateAll(b, accs))
    ensures CloseAt(CreateAll(b, accs), clock) == CreateAll(CloseAt(b, clock), accs)
  {
    hide Sound, CloseAt, Create;
    if accs != [] {
      var n := |accs| - 1;
      CloseCreateAll(b, accs[..n], clock);
      CreateKeepsSound(CreateAll(b, accs[..n]), accs[n]);
      CloseCreate(CreateAll(b, accs[..n]), accs[n], clock);
    }
  }

  /* ----- the invariant of the live loop ----- */

  /** `r` and `s` agree on everything once expired holds are closed at `clock`. */
  ghost predicate AgreeAt(r: State, s: State, clock: int) {
    && CloseAt(r.books, clock) == CloseAt(s.books, clock)
    && r.transfers == s.transfers
    && r.history == s.history
  }

  /** What holds between batches. */
  ghost predicate InStep(l: Live) {
    var r := Replay(EMPTY, Flatten(l.log));
    && r.err.None?
    && Sound(r.state.books) && Sound(l.state.books)
    && r.state.clock <= l.clock && l.state.clock == l.clock
    && 0 <= l.clock
    && AllOpen(l.state.books, l.clock) && Dated(l.state.books, l.clock)
    && AgreeAt(r.state, l.state, l.clock)
  }

  /** The clock can still advance and no deadline overflows int64. */
  predicate Admissible(l: Live, e: Event) {
    match e
    case Accounts(_) => true
    case Transfers(now, evs) =>
      && l.clock < I64_MAX
      && forall i | 0 <= i < |evs| && OpensHold(evs[i]) :: BatchClock(l.clock, now) + evs[i].timeout <= I64_MAX
  }

  lemma FlattenJournal(log: seq<seq<Record>>, records: seq<Record>)
    ensures Flatten(Journal(log, records)) == Flatten(log) + records
  {
    if records != [] {
      assert (log + [records])[..|log|] == log;
    }
  }

  lemma {:induction false} AcceptedAre(evs: seq<Transfer>, outcomes: seq<Option<Error>>, i: nat)
    requires |evs| == |outcomes| && i < |AcceptedEvents(evs, outcomes)|
    ensures AcceptedEvents(evs, outcomes)[i] in evs
  {
    if outcomes[0].Some? {
      AcceptedAre(evs[1..], outcomes[1..], i);
    } else if i > 0 {
      AcceptedAre(evs[1..], outcomes[1..], i - 1);
    }
  }

  /** Stamped events of an admissible batch carry the batch clock and outlast it. */
  lemma StampedLast(l: Live, now: I64, evs: seq<Transfer>, outcomes: seq<Option<Error>>)
    requires Admissible(l, Transfers(now, evs)) && |outcomes| == |evs|
    ensures var clock := BatchClock(l.clock, now);
            var ts := AcceptedEvents(Stamped(evs, clock), outcomes);
            && l.clock < clock
            && forall i | 0 <= i < |ts| :: ts[i].timestamp == clock && Lasting(ts[i], clock)
  {
    var clock := BatchClock(l.clock, now);
    var stamped := Stamped(evs, clock);
    forall j | 0 <= j < |stamped|
      ensures stamped[j].timestamp == clock && Lasting(stamped[j], clock)
    {
      assert stamped[j] == evs[j].(timestamp := clock);
      assert OpensHold(stamped[j]) == OpensHold(evs[j]);
    }
    var ts := AcceptedEvents(stamped, outcomes);
    forall i | 0 <= i < |ts|
      ensures ts[i].timestamp == clock && Lasting(ts[i], clock)
    {
      AcceptedAre(stamped, outcomes, i);
    }
  }

  lemma ProcessBatchInStep(l: Live, now: I64, evs: seq<Transfer>)
    requires InStep(l) && Admissible(l, Transfers(now, evs))
    ensures InStep(ProcessBatch(l, now, evs))
  {
    hide Sound, CloseAt, Exec, RuleBatch, AcceptedEvents, AllOpen, Dated, Flatten, Stamped, ApplyTransfer, ReplayRecord,
      Journal;
    var clock := BatchClock(l.clock, now);
    var s := CloseExpired(l.state, clock);
    var stamped := Stamped(evs, clock);
    var outcomes := RuleBatch(s.transfers.Keys, s.books, stamped).outcomes;
    var ts := AcceptedEvents(stamped, outcomes);
    var r := Replay(EMPTY, Flatten(l.log)).state;
    StampedLast(l, now, evs, outcomes);
    CloseOpens(l.state.books, clock);
    LiveBatch(s, stamped);
    CloseLater(r, l.state, l.clock, clock);
    CloseOpens(r.books, clock);
    FlattenJournal(l.log, TransferRecords(ts));
    ReplayAppend(EMPTY, Flatten(l.log), TransferRecords(ts));
    ApplyAllOpen(s, ts);
    if ts == [] {
      assert Flatten(l.log) + [] == Flatten(l.log);
    } else {
      ReplayBatch(r, clock, ts);
    }
  }

  lemma CloseOpens(b: Books, clock: int)
    requires Sound(b)
    ensures Sound(CloseAt(b, clock)) && AllOpen(CloseAt(b, clock), clock)
    ensures CloseAt(CloseAt(b, clock), clock) == CloseAt(b, clock)
    ensures forall c | Dated(b, c) && c <= clock :: Dated(CloseAt(b, clock), clock)
  {
    CloseKeepsSound(b, clock);
    CloseIdle(CloseAt(b, clock), clock);
  }

  /** For every state and batch: ApplyBatch applies each event ValidateBatch accepted without error,
    * changes no outcome, and reaches the books of the validator's overlay. */
  lemma ApplyingAgreesWithValidating(s: State, evs: seq<Transfer>)
    requires Keyed(s.books.accounts)
    ensures var r := RuleBatch(s.transfers.Keys, s.books, evs);
            var ts := AcceptedEvents(evs, r.outcomes);
            && ApplyBatch(s, evs, r.outcomes) == BatchResult(ApplyAll(s, ts).state, r.outcomes)
            && ApplyAll(s, ts).err.None?
            && ApplyAll(s, ts).state.books == r.view.books == ExecAll(s.books, ts).books
            && ApplyAll(s, ts).state.clock == s.clock
  {
    hide Keyed, Exec, AcceptedEvents, Rule;
    var outcomes := RuleBatch(s.transfers.Keys, s.books, evs).outcomes;
    AcceptedEventsApply(s.transfers.Keys, View(s.books, {}), evs, 0);
    assert evs[0..] == evs;
    ApplyBatchApplies(s, evs, outcomes);
    ApplyAllBooks(s, AcceptedEvents(evs, outcomes));
  }

  lemma SoundIsKeyed(b: Books)
    requires Sound(b)
    ensures Keyed(b.accounts)
  {
  }

  /** The live side of a batch: all accepted events apply, and the books stay sound. */
  lemma LiveBatch(s: State, evs: seq<Transfer>)
    requires Sound(s.books)
    ensures var outcomes := RuleBatch(s.transfers.Keys, s.books, evs).outcomes;
            var ts := AcceptedEvents(evs, outcomes);
            && ApplyBatch(s, evs, outcomes) == BatchResult(ApplyAll(s, ts).state, outcomes)
            && ApplyAll(s, ts).err.None?
            && Sound(ApplyAll(s, ts).state.books)
            && ApplyAll(s, ts).state.books == RuleBatch(s.transfers.Keys, s.books, evs).view.books
            && ApplyAll(s, ts).state.clock == s.clock
  {
    hide Sound, Exec, AcceptedEvents, Rule, ExecAll;
    SoundIsKeyed(s.books);
    ApplyingAgreesWithValidating(s, evs);
    var ts := AcceptedEvents(evs, RuleBatch(s.transfers.Keys, s.books, evs).outcomes);
    ApplyAllBooks(s, ts);
    ExecAllKeepsSound(s.books, ts);
  }

  /** States that agree at one clock agree at any later one, already closed. */
  lemma CloseLater(r: State, s: State, clock: int, later: I64)
    requires Sound(r.books) && Sound(s.books) && clock <= later
    requires AgreeAt(r, s, clock)
    ensures CloseExpired(r, later) == CloseExpired(s, later)
  {
    CloseTwice(r.books, clock, later);
    CloseTwice(s.books, clock, later);
  }

  lemma {:induction false} ApplyAllOpen(s: State, ts: seq<Transfer>)
    requires AllOpen(s.books, s.clock) && ApplyAll(s, ts).err.None?
    requires Dated(s.books, s.clock)
    requires forall i | 0 <= i < |ts| :: ts[i].timestamp == s.clock && Lasting(ts[i], s.clock)
    ensures AllOpen(ApplyAll(s, ts).state.books, s.clock)
    ensures Dated(ApplyAll(s, ts).state.books, s.clock)
    decreases |ts|
  {
    if ts != [] {
      ExecKeepsOpen(s.books, ts[0], s.clock);
      ApplyAllOpen(ApplyTransfer(s, ts[0]).state, ts[1..]);
    }
  }

  lemma ProcessAccountsInStep(l: Live, accs: seq<Account>)
    requires InStep(l)
    ensures InStep(ProcessAccounts(l, accs))
  {
    var admitted := Admitted(l.state.books, accs);
    var r := Replay(EMPTY, Flatten(l.log)).state;
    FlattenJournal(l.log, AccountRecords(admitted));
    ReplayAppend(EMPTY, Flatten(l.log), AccountRecords(admitted));
    ReplayAccounts(r, admitted);
    CloseCreateAll(r.books, admitted, l.clock);
    CloseCreateAll(l.state.books, admitted, l.clock);
    CreateAllKeepsHolds(l.state.books, admitted);
    hide Sound, CloseAt, Flatten, Admitted;
  }

  lemma {:induction false} CreateAllKeepsHolds(b: Books, accs: seq<Account>)
    ensures CreateAll(b, accs).holds == b.holds
  {
    if accs != [] { CreateAllKeepsHolds(b, accs[..|accs| - 1]); }
  }

  /** Every event of the run is admissible when it comes. */
  ghost predicate AdmissibleRun(es: seq<Event>) {
    forall i | 0 <= i < |es| :: Admissible(Run(START, es[..i]), es[i])
  }

  lemma AdmissiblePrefix(es: seq<Event>, m: nat)
    requires AdmissibleRun(es) && m <= |es|
    ensures AdmissibleRun(es[..m])
  {
    hide Admissible;
    assert forall i | 0 <= i < m :: es[..m][..i] == es[..i];
  }

  lemma {:induction false} RunInStep(es: seq<Event>)
    requires AdmissibleRun(es)
    ensures InStep(Run(START, es))
  {
    hide InStep, Admissible, ProcessBatch, ProcessAccounts;
    if es == [] {
      StartInStep();
    } else {
      var n := |es| - 1;
      var l := Run(START, es[..n]);
      assert forall i | 0 <= i < n :: es[..n][..i] == es[..i];
      RunInStep(es[..n]);
      match es[n]
      case Accounts(accs) => ProcessAccountsInStep(l, accs);
      case Transfers(now, evs) => ProcessBatchInStep(l, now, evs);
    }
  }

  lemma StartInStep()
    ensures InStep(START)
  {
    CloseIdle(EMPTY.books, 0);
    EmptyIsSound();
  }

  lemma EmptyIsSound()
    ensures Sound(EMPTY.books)
  {
  }

  /** For every run, replaying the journal succeeds, and closing its expired holds at the live
    * clock gives the live accounts, open holds, transfer index and histories. */
  lemma ReplayRebuildsLive(es: seq<Event>)
    requires AdmissibleRun(es)
    ensures var l := Run(START, es);
            var r := Replay(EMPTY, Flatten(l.log));
            && r.err.None?
            && CloseExpired(r.state, l.clock) == l.state
  {
    RunInStep(es);
    var l := Run(START, es);
    CloseIdle(l.state.books, l.clock);
  }
}
