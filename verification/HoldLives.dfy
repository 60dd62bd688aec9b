/** How long a hold lives in a run of the live loop (internal/engine/loop.go): unless it is settled it
  * is open until the first batch whose clock has reached its end. */
module HoldLives {
  import opened Core
  import opened Engine
  import opened Expiry
  import opened Batch
  import opened Machine
  import opened Replaying
  import opened Accounting
  import opened WrappedDeadlines
  import opened Acceptance
  import opened Deadlines

  /** Operations under other ids leave a hold, or its absence, alone. */
  lemma {:induction false} OthersLeaveHold(s: State, ts: seq<Transfer>, id: Id)
    requires ApplyAll(s, ts).err.None? && forall k | 0 <= k < |ts| :: ts[k].id != id
    ensures var before, after := s.books.holds, ApplyAll(s, ts).state.books.holds;
            (id in after <==> id in before) && (id in before ==> after[id] == before[id])
    decreases |ts|
  {
    hide MovePending, ReleasePending, Reserve, PostImmediate, CheckOpening;
    if ts != [] { OthersLeaveHold(ApplyTransfer(s, ts[0]).state, ts[1..], id); }
  }

  /** A hold opened in a batch, with no later operation of the batch under its id. */
  lemma {:induction false} OpenedInBatch(s: State, ts: seq<Transfer>, j: nat)
    requires j < |ts| && OpensHold(ts[j]) && ApplyAll(s, ts).err.None?
    requires forall k | j < k < |ts| :: ts[k].id != ts[j].id
    ensures var after := ApplyAll(s, ts).state.books.holds;
            ts[j].id in after && after[ts[j].id] == ts[j]
    decreases j
  {
    hide MovePending, ReleasePending, Reserve, PostImmediate, CheckOpening;
    var s' := ApplyTransfer(s, ts[0]).state;
    if j == 0 {
      OthersLeaveHold(s', ts[1..], ts[0].id);
    } else {
      OpenedInBatch(s', ts[1..], j - 1);
    }
  }

  /** No record from `q` on settles the hold `id`. */
  predicate Unsettled(rs: seq<Record>, q: nat, id: Id) {
    forall i | q <= i < |rs| && rs[i].TransferRecord? && rs[i].transfer.id == id :: rs[i].transfer.flags in {0, 1, 8, 9}
  }

  /** What a batch journals and applies. */
  ghost predicate Took(l: Live, l': Live, ts: seq<Transfer>) {
    var s := CloseExpired(l.state, l'.clock);
    && Flatten(l'.log) == Flatten(l.log) + TransferRecords(ts)
    && ApplyAll(s, ts) == Applied(l'.state, None)
    && UniqueOpenings(ts, l.state.transfers.Keys)
    && forall i | 0 <= i < |ts| :: ts[i].timestamp == l'.clock
  }

  lemma BatchTook(l: Live, now: I64, evs: seq<Transfer>) returns (ts: seq<Transfer>)
    requires InOrder(l)
    ensures Took(l, ProcessBatch(l, now, evs), ts) && ProcessBatch(l, now, evs).clock == BatchClock(l.clock, now)
    ensures ProcessBatch(l, now, evs).state.clock == BatchClock(l.clock, now)
  {
    hide Accounted, Flatten, ApplyAll, UniqueOpenings, RuleBatch, AcceptedEvents, Stamped, CloseAt, Holds.Sound,
      ApplyBatch;
    var clock := BatchClock(l.clock, now);
    var s, stamped := CloseExpired(l.state, clock), Stamped(evs, clock);
    var outcomes := RuleBatch(s.transfers.Keys, s.books, stamped).outcomes;
    ts := AcceptedEvents(stamped, outcomes);
    CloseKeepsSound(l.state.books, clock);
    LiveBatch(s, stamped);
    FlattenJournal(l.log, TransferRecords(ts));
    BatchIdsUnique(s.transfers.Keys, s.books, stamped);
    AcceptedStamps(evs, clock, outcomes);
  }

  /** The hold `t` is indexed, and open exactly while it is running. */
  ghost predicate Tracks(l: Live, t: Transfer) {
    && l.state.clock == l.clock
    && t.id in l.state.transfers
    && (t.id in l.state.books.holds <==> Running(t, l.clock))
    && (t.id in l.state.books.holds ==> l.state.books.holds[t.id] == t)
  }

  /** An id in use comes back only to settle. */
  lemma {:induction false} NoneUnder(ts: seq<Transfer>, used: set<Id>, id: Id)
    requires UniqueOpenings(ts, used) && id in used
    requires forall k | 0 <= k < |ts| && ts[k].id == id :: ts[k].flags in {0, 1, 8, 9}
    ensures forall k | 0 <= k < |ts| :: ts[k].id != id
    decreases |ts|
  {
    hide IsSettlement;
    if ts != [] {
      Kinds(ts[0]);
      assert forall k | 1 <= k < |ts| :: ts[k] == ts[1..][k - 1];
      NoneUnder(ts[1..], if IsSettlement(ts[0]) then used else used + {ts[0].id}, id);
    }
  }

  /** From the hold that opens it on, an id comes back only to settle. */
  lemma {:induction false} NoneAfter(ts: seq<Transfer>, used: set<Id>, j: nat)
    requires UniqueOpenings(ts, used) && j < |ts| && ts[j].flags in {1, 9}
    requires forall k | j < k < |ts| && ts[k].id == ts[j].id :: ts[k].flags in {0, 1, 8, 9}
    ensures forall k | j < k < |ts| :: ts[k].id != ts[j].id
    decreases j
  {
    hide IsSettlement;
    var used' := if IsSettlement(ts[0]) then used else used + {ts[0].id};
    assert forall k | 1 <= k < |ts| :: ts[k] == ts[1..][k - 1];
    if j == 0 {
      Kinds(ts[0]);
      NoneUnder(ts[1..], used', ts[0].id);
    } else {
      NoneAfter(ts[1..], used', j - 1);
    }
  }

  /** A later batch keeps the hold running exactly while its clock has not reached the end. */
  lemma BatchFollows(l: Live, l': Live, ts: seq<Transfer>, t: Transfer)
    requires Tracks(l, t) && Took(l, l', ts) && l.clock <= l'.clock == l'.state.clock
    requires l.state.books.holds.Keys <= l.state.transfers.Keys
    requires forall k | 0 <= k < |ts| && ts[k].id == t.id :: ts[k].flags in {0, 1, 8, 9}
    ensures Tracks(l', t)
  {
    hide UniqueOpenings, ApplyAll, CloseAt, Flatten;
    var s := CloseExpired(l.state, l'.clock);
    NoneUnder(ts, l.state.transfers.Keys, t.id);
    OpenExactly(l.state.books, l'.clock, t.id);
    ClosedHolds(l.state.books, l'.clock);
    OthersLeaveHold(s, ts, t.id);
    ApplyAllIds(s, ts);
  }

  /** The batch that opens the hold. */
  lemma BatchOpens(l: Live, l': Live, ts: seq<Transfer>, j: nat)
    requires Took(l, l', ts) && l'.clock == l'.state.clock && j < |ts| && ts[j].flags in {1, 9}
    requires l.state.books.holds.Keys <= l.state.transfers.Keys
    requires ts[j].timestamp + ts[j].timeout <= I64_MAX
    requires forall k | j < k < |ts| && ts[k].id == ts[j].id :: ts[k].flags in {0, 1, 8, 9}
    ensures Tracks(l', ts[j])
  {
    hide UniqueOpenings, ApplyAll, CloseAt, Flatten;
    var s := CloseExpired(l.state, l'.clock);
    Kinds(ts[j]);
    NoneAfter(ts, l.state.transfers.Keys, j);
    ClosedHolds(l.state.books, l'.clock);
    OpenedInBatch(s, ts, j);
    ApplyAllIds(s, ts);
    assert ts[j].id in OpeningIds(ts);
  }

  /** For every run and every hold journaled in it that is not settled afterwards, with a deadline in
    * range: it is open at the end of the run, unchanged, if and only if it has no timeout or the clock
    * has not reached its timestamp plus its timeout. */
  lemma {:induction false} HoldLivesExactly(es: seq<Event>, q: nat, t: Transfer)
    requires Ticking(es)
    requires var rs := Flatten(Run(START, es).log);
             q < |rs| && rs[q] == TransferRecord(t) && t.flags in {1, 9} && Unsettled(rs, q, t.id)
    requires t.timestamp + t.timeout <= I64_MAX
    ensures var l := Run(START, es);
            && (t.id in l.state.books.holds <==> t.timeout == 0 || l.clock < t.timestamp + t.timeout)
            && (t.id in l.state.books.holds ==> l.state.books.holds[t.id] == t)
    ensures Tracks(Run(START, es), t)
  {
    hide Flatten, ProcessBatch, ProcessAccounts, Took, Accounted, Holds.Sound;
    if es == [] {
      NothingJournaled();
      assert false;
    } else {
      var n := |es| - 1;
      var l, l' := Run(START, es[..n]), Run(START, es);
      assert forall i | 0 <= i < n :: es[..n][..i] == es[..i] && es[..n][i] == es[i];
      RunInOrder(es[..n]);
      match es[n]
      case Accounts(accs) =>
        AccountsAppend(l, accs, q);
        UnsettledBefore(Flatten(l.log), AccountRecords(Admitted(l.state.books, accs)), q, t.id);
        HoldLivesExactly(es[..n], q, t);
      case Transfers(now, evs) =>
        var ts := BatchTook(l, now, evs);
        TookJournals(l, l', ts);
        UnsettledBefore(Flatten(l.log), TransferRecords(ts), q, t.id);
        var m := |Flatten(l.log)|;
        assert forall k | 0 <= k < |ts| :: Flatten(l'.log)[m + k] == TransferRecord(ts[k]);
        if q < m {
          HoldLivesExactly(es[..n], q, t);
          BatchFollows(l, l', ts, t);
        } else {
          assert ts[q - m] == t;
          BatchOpens(l, l', ts, q - m);
        }
    }
  }

  lemma NothingJournaled()
    ensures Flatten(Run(START, []).log) == []
  {
  }

  lemma TookJournals(l: Live, l': Live, ts: seq<Transfer>)
    requires Took(l, l', ts)
    ensures Flatten(l'.log) == Flatten(l.log) + TransferRecords(ts)
  {
    hide Flatten, ApplyAll, CloseAt, UniqueOpenings;
  }

  lemma UnsettledBefore(xs: seq<Record>, ys: seq<Record>, q: nat, id: Id)
    requires Unsettled(xs + ys, q, id)
    ensures Unsettled(xs, q, id)
    ensures forall i | 0 <= i < |ys| && q <= |xs| + i && ys[i].TransferRecord? && ys[i].transfer.id == id ::
              ys[i].transfer.flags in {0, 1, 8, 9}
  {
    assert forall i | 0 <= i < |xs| :: xs[i] == (xs + ys)[i];
    assert forall i | 0 <= i < |ys| :: ys[i] == (xs + ys)[|xs| + i];
  }

  /** Account requests journal no transfer and leave holds, index and clock alone. */
  lemma AccountsAppend(l: Live, accs: seq<Account>, q: nat)
    ensures var l' := ProcessAccounts(l, accs);
            var more := AccountRecords(Admitted(l.state.books, accs));
            && Flatten(l'.log) == Flatten(l.log) + more
            && l'.state.books.holds == l.state.books.holds && l'.state.transfers == l.state.transfers
            && l'.clock == l.clock && l'.state.clock == l.state.clock
            && (q < |Flatten(l'.log)| && Flatten(l'.log)[q].TransferRecord? ==>
                  q < |Flatten(l.log)| && Flatten(l.log)[q] == Flatten(l'.log)[q])
  {
    hide Flatten, Admitted;
    var admitted := Admitted(l.state.books, accs);
    FlattenJournal(l.log, AccountRecords(admitted));
    CreateAllKeepsHolds(l.state.books, admitted);
    if q >= |Flatten(l.log)| && q < |Flatten(l.log)| + |admitted| {
      assert (Flatten(l.log) + AccountRecords(admitted))[q] == AccountRecord(admitted[q - |Flatten(l.log)|]);
    }
  }
}
