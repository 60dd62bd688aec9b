/** A ledger over its whole life (internal/engine/loop.go, internal/engine/ledger.go): it takes events,
  * crashes, restarts on the batches that were durable with a loop clock of 0, and goes on.  As long
  * as the wall clock advances, its journal replays to its live state through all of it. */
module Lifetimes {
  import opened Core
  import opened Engine
  import opened Holds
  import opened Expiry
  import opened Batch
  import opened Machine
  import opened Replaying

  /** An event of the loop, or a crash that leaves the first `k` batches of the journal. */
  datatype Stage = Happens(event: Event) | Reboot(k: nat)

  ghost function Recovered(log: seq<seq<Record>>): State {
    Replay(EMPTY, Flatten(log)).state
  }

  ghost function Next(l: Live, stage: Stage): Live {
    match stage
    case Happens(e) => Step(l, e)
    case Reboot(k) =>
      var log := if k <= |l.log| then l.log[..k] else l.log;
      Live(Recovered(log), 0, log)
  }

  ghost function Life(stages: seq<Stage>): Live {
    if stages == [] then START else Next(Life(stages[..|stages| - 1]), stages[|stages| - 1])
  }

  /** The latest clock any incarnation has reached. */
  ghost function Latest(stages: seq<Stage>): int {
    if stages == [] then 0
    else
      var n := |stages| - 1;
      Reached(Latest(stages[..n]), Life(stages[..n]), stages[n])
  }

  ghost function Reached(t: int, l: Live, stage: Stage): int {
    if stage.Happens? && stage.event.Transfers? then BatchClock(l.clock, stage.event.now) else t
  }

  /** Batch clocks increase over all incarnations, and no deadline wraps. */
  ghost predicate Orderly(t: int, l: Live, stage: Stage) {
    stage.Happens? && stage.event.Transfers? ==>
      && t < BatchClock(l.clock, stage.event.now)
      && Admissible(l, stage.event)
  }

  ghost predicate OrderlyLife(stages: seq<Stage>) {
    stages != [] ==>
      var n := |stages| - 1;
      OrderlyLife(stages[..n]) && Orderly(Latest(stages[..n]), Life(stages[..n]), stages[n])
  }

  /** A state in order at time `t`. */
  ghost predicate Kept(s: State, t: int) {
    Sound(s.books) && s.clock <= t && Dated(s.books, t)
  }

  /** The journal replays, and its replay is in order. */
  ghost predicate Replays(log: seq<seq<Record>>, t: int) {
    Replay(EMPTY, Flatten(log)).err.None? && Kept(Recovered(log), t)
  }

  /** Every prefix of the journal replays, and the replay agrees with the live ledger once both are
    * closed at `t`. */
  ghost predicate Going(l: Live, t: int) {
    && 0 <= t && l.clock <= t
    && Kept(l.state, t)
    && (forall k | 0 <= k <= |l.log| :: Replays(l.log[..k], t))
    && AgreeAt(Recovered(l.log), l.state, t)
  }

  lemma StartGoing()
    ensures Going(START, 0)
  {
    EmptyIsSound();
    assert START.log[..0] == [];
  }

  lemma LaterReplays(log: seq<seq<Record>>, t: int, later: int)
    requires Replays(log, t) && t <= later
    ensures Replays(log, later)
  {
    hide Sound, Replay, Flatten;
  }

  /** A batch: replay and the live loop meet again. */
  lemma TransfersGoing(l: Live, t: int, now: I64, evs: seq<Transfer>)
    requires Going(l, t) && Orderly(t, l, Happens(Transfers(now, evs)))
    ensures Going(ProcessBatch(l, now, evs), BatchClock(l.clock, now))
  {
    hide Sound, CloseAt, Exec, RuleBatch, AcceptedEvents, Dated, AllOpen, Flatten, Stamped, ApplyTransfer, ReplayRecord,
      Replay, ApplyBatch, ApplyAll, ExecAll;
    var clock := BatchClock(l.clock, now);
    var s, stamped := CloseExpired(l.state, clock), Stamped(evs, clock);
    var outcomes := RuleBatch(s.transfers.Keys, s.books, stamped).outcomes;
    var ts, r := AcceptedEvents(stamped, outcomes), Recovered(l.log);
    assert l.log[..|l.log|] == l.log && Replays(l.log[..|l.log|], t);
    StampedLast(l, now, evs, outcomes);
    CloseOpens(l.state.books, clock);
    LiveBatch(s, stamped);
    CloseLater(r, l.state, t, clock);
    ApplyAllOpen(s, ts);
    FlattenJournal(l.log, TransferRecords(ts));
    ReplayAppend(EMPTY, Flatten(l.log), TransferRecords(ts));
    var l' := ProcessBatch(l, now, evs);
    if ts == [] {
      NothingApplied(s);
      LaterReplays(l.log, t, clock);
    } else {
      ReplayBatch(r, clock, ts);
    }
    PrefixesReplay(l, l', t, clock);
  }

  lemma NothingApplied(s: State)
    ensures ApplyAll(s, []) == Applied(s, None)
  {
  }

  /** New accounts change nothing about holds. */
  lemma AccountsGoing(l: Live, t: int, accs: seq<Account>)
    requires Going(l, t)
    ensures Going(ProcessAccounts(l, accs), t)
  {
    hide Sound, CloseAt, Flatten, Replay, Admitted, CreateAll;
    var admitted, r := Admitted(l.state.books, accs), Recovered(l.log);
    assert l.log[..|l.log|] == l.log && Replays(l.log[..|l.log|], t);
    FlattenJournal(l.log, AccountRecords(admitted));
    ReplayAppend(EMPTY, Flatten(l.log), AccountRecords(admitted));
    ReplayAccounts(r, admitted);
    CloseCreateAll(r.books, admitted, t);
    CloseCreateAll(l.state.books, admitted, t);
    CreateAllKeepsHolds(r.books, admitted);
    CreateAllKeepsHolds(l.state.books, admitted);
    PrefixesReplay(l, ProcessAccounts(l, accs), t, t);
  }

  /** A restart continues from the replay of what was durable. */
  lemma RebootGoing(l: Live, t: int, k: nat)
    requires Going(l, t)
    ensures Going(Next(l, Reboot(k)), t)
  {
    hide Sound, CloseAt, Flatten, Replay, Dated;
    var log := if k <= |l.log| then l.log[..k] else l.log;
    assert l.log[..|l.log|] == l.log;
    assert Replays(log, t);
    forall j | 0 <= j <= |log|
      ensures Replays(log[..j], t)
    {
      assert log[..j] == l.log[..j];
    }
  }

  lemma PrefixesReplay(l: Live, l': Live, t: int, clock: int)
    requires t <= clock && (forall k | 0 <= k <= |l.log| :: Replays(l.log[..k], t))
    requires l.log <= l'.log && |l'.log| <= |l.log| + 1 && Replays(l'.log, clock)
    ensures forall k | 0 <= k <= |l'.log| :: Replays(l'.log[..k], clock)
  {
    hide Replays;
    forall k | 0 <= k <= |l'.log|
      ensures Replays(l'.log[..k], clock)
    {
      if k <= |l.log| {
        assert l'.log[..k] == l.log[..k];
        LaterReplays(l.log[..k], t, clock);
      } else {
        assert l'.log[..k] == l'.log;
      }
    }
  }

  lemma {:induction false} LifeGoing(stages: seq<Stage>)
    requires OrderlyLife(stages)
    ensures Going(Life(stages), Latest(stages))
  {
    hide Going, ProcessBatch, ProcessAccounts, Orderly;
    if stages == [] {
      StartGoing();
    } else {
      var n := |stages| - 1;
      var l, t := Life(stages[..n]), Latest(stages[..n]);
      LifeGoing(stages[..n]);
      match stages[n]
      case Happens(Accounts(accs)) => AccountsGoing(l, t, accs);
      case Happens(Transfers(now, evs)) => TransfersGoing(l, t, now, evs);
      case Reboot(k) => RebootGoing(l, t, k);
    }
  }

  /** For every life of a ledger, through any crashes and restarts: replaying its journal succeeds
    * and, with both closed at the latest clock, gives the live accounts, open holds, transfer index
    * and histories. */
  lemma LifeReplays(stages: seq<Stage>, clock: I64)
    requires OrderlyLife(stages) && Latest(stages) <= clock
    ensures var l := Life(stages);
            var r := Replay(EMPTY, Flatten(l.log));
            r.err.None? && CloseExpired(r.state, clock) == CloseExpired(l.state, clock)
  {
    hide Sound, CloseAt, Flatten, Replay, Dated, Life, Latest;
    var l, t := Life(stages), Latest(stages);
    LifeGoing(stages);
    assert l.log[..|l.log|] == l.log && Replays(l.log[..|l.log|], t);
    CloseLater(Recovered(l.log), l.state, t, clock);
  }
}
