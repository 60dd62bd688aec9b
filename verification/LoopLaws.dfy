/** What one event of the live loop takes in and writes down (internal/engine/loop.go,
  * internal/engine/ledger.go): the batch clock, the journaled transfers, the admitted accounts, and the
  * clock after a restore. */
module LoopLaws {
  import opened Core
  import opened Engine
  import opened Expiry
  import opened Batch
  import opened Machine
  import opened Snapshots

  /** The batch clock is the earliest moment after the last batch that is not before the wall clock. */
  lemma ClockTicks(clock: I64, now: I64, x: int)
    requires clock < I64_MAX
    ensures clock < BatchClock(clock, now) && now <= BatchClock(clock, now)
    ensures clock < x && now <= x ==> BatchClock(clock, now) <= x
  {
  }

  /* ----- choosing from a list ----- */

  lemma PickedLast<T>(xs: seq<T>, places: seq<nat>, out: seq<T>)
    requires xs != [] && Picked(xs[..|xs| - 1], places, out)
    ensures Picked(xs, places, out) && Picked(xs, places + [|xs| - 1], out + [xs[|xs| - 1]])
  {
    var n := |xs| - 1;
    var more, all := places + [n], out + [xs[n]];
    assert forall k | 0 <= k < |places| :: more[k] == places[k] && all[k] == out[k] && places[k] < n;
  }

  /* ----- transfers ----- */

  /** The accepted events are those without an error, in order. */
  lemma {:induction false} AcceptedExactlyThese(evs: seq<Transfer>, outcomes: seq<Option<Error>>)
    returns (places: seq<nat>)
    requires |outcomes| == |evs|
    ensures Picked(evs, places, AcceptedEvents(evs, outcomes))
    ensures forall j: nat :: j in places <==> j < |evs| && outcomes[j].None?
    decreases |evs|
  {
    hide Picked, AcceptedEvents;
    if evs == [] {
      places := [];
      NonePicked(evs, outcomes);
    } else {
      var n := |evs| - 1;
      places := AcceptedExactlyThese(evs[..n], outcomes[..n]);
      PickedLast(evs, places, AcceptedEvents(evs[..n], outcomes[..n]));
      AcceptedLast(evs, outcomes);
      if outcomes[n].None? {
        places := places + [n];
      } else {
        assert AcceptedEvents(evs[..n], outcomes[..n]) + [] == AcceptedEvents(evs[..n], outcomes[..n]);
      }
    }
  }

  lemma NonePicked(evs: seq<Transfer>, outcomes: seq<Option<Error>>)
    requires evs == [] && |outcomes| == 0
    ensures Picked(evs, [], AcceptedEvents(evs, outcomes))
  {
  }

  lemma AcceptedLast(evs: seq<Transfer>, outcomes: seq<Option<Error>>)
    requires |outcomes| == |evs| && evs != []
    ensures var n := |evs| - 1;
            AcceptedEvents(evs, outcomes)
            == AcceptedEvents(evs[..n], outcomes[..n]) + (if outcomes[n].None? then [evs[n]] else [])
  {
    hide AcceptedEvents;
    var n := |evs| - 1;
    assert evs == evs[..n] + [evs[n]] && outcomes == outcomes[..n] + [outcomes[n]];
    AcceptedAppend(evs[..n], outcomes[..n], [evs[n]], [outcomes[n]]);
    AcceptedOne(evs[n], outcomes[n]);
  }

  lemma AcceptedOne(t: Transfer, o: Option<Error>)
    ensures AcceptedEvents([t], [o]) == if o.None? then [t] else []
  {
    assert [t][1..] == [] && [o][1..] == [];
  }

  /** A batch journals exactly its accepted events, in order, each with the batch clock as its timestamp
    * and otherwise as it was requested; nothing when none is accepted. */
  lemma JournaledExactly(l: Live, now: I64, evs: seq<Transfer>) returns (places: seq<nat>)
    ensures var clock := BatchClock(l.clock, now);
            var s := CloseExpired(l.state, clock);
            var outcomes := RuleBatch(s.transfers.Keys, s.books, Stamped(evs, clock)).outcomes;
            && (forall j: nat :: j in places <==> j < |evs| && outcomes[j].None?)
            && (forall k | 0 <= k < |places| :: places[k] < |evs|)
            && (forall k, i | 0 <= k < i < |places| :: places[k] < places[i])
            && var log := ProcessBatch(l, now, evs).log;
               if places == [] then log == l.log
               else && |log| == |l.log| + 1 && log[..|l.log|] == l.log && |log[|l.log|]| == |places|
                    && forall k | 0 <= k < |places| ::
                         log[|l.log|][k] == TransferRecord(evs[places[k]].(timestamp := clock))
  {
    hide RuleBatch, AcceptedEvents, CloseAt, ApplyBatch;
    var clock := BatchClock(l.clock, now);
    var s, stamped := CloseExpired(l.state, clock), Stamped(evs, clock);
    var outcomes := RuleBatch(s.transfers.Keys, s.books, stamped).outcomes;
    places := AcceptedExactlyThese(stamped, outcomes);
  }

  /* ----- accounts ----- */

  /** A request admits exactly the accounts whose debits do not exceed their credits and whose id is not
    * in use, in order. */
  lemma {:induction false} AdmittedExactly(b: Books, accs: seq<Account>) returns (places: seq<nat>)
    ensures Picked(accs, places, Admitted(b, accs))
    ensures forall j: nat :: j in places <==>
              j < |accs| && accs[j].postedDebits <= accs[j].postedCredits && accs[j].id !in b.accounts
    decreases |accs|
  {
    hide Picked, Admitted;
    if accs == [] {
      places := [];
      NoneAdmitted(b, accs);
    } else {
      var n := |accs| - 1;
      places := AdmittedExactly(b, accs[..n]);
      PickedLast(accs, places, Admitted(b, accs[..n]));
      AdmittedLast(b, accs);
      if Balance(accs[n]).Ok? && accs[n].id !in b.accounts {
        places := places + [n];
      } else {
        assert Admitted(b, accs[..n]) + [] == Admitted(b, accs[..n]);
      }
    }
  }

  lemma NoneAdmitted(b: Books, accs: seq<Account>)
    requires accs == []
    ensures Picked(accs, [], Admitted(b, accs))
  {
  }

  lemma {:induction false} AdmittedLast(b: Books, accs: seq<Account>)
    requires accs != []
    ensures var n := |accs| - 1;
            Admitted(b, accs)
            == Admitted(b, accs[..n]) + (if Balance(accs[n]).Ok? && accs[n].id !in b.accounts then [accs[n]] else [])
    decreases |accs|
  {
    var n := |accs| - 1;
    if n > 0 {
      assert accs[1..][..n - 1] == accs[..n][1..];
      AdmittedLast(b, accs[1..]);
    } else {
      assert accs[..n] == [];
    }
  }

  /** Creating admitted accounts keeps the accounts there are, and of two with the same id the first. */
  lemma {:induction false} CreatedExactly(b: Books, accs: seq<Account>, k: Id)
    ensures var after := CreateAll(b, accs);
            && after.holds == b.holds
            && (k in b.accounts ==> k in after.accounts && after.accounts[k] == b.accounts[k])
            && (k !in b.accounts ==>
                  && (k in after.accounts <==> exists j | 0 <= j < |accs| :: accs[j].id == k)
                  && (k in after.accounts ==>
                        exists j | 0 <= j < |accs| ::
                          accs[j].id == k && after.accounts[k] == accs[j] && forall i | 0 <= i < j :: accs[i].id != k))
  {
    if accs != [] {
      var n := |accs| - 1;
      CreatedExactly(b, accs[..n], k);
      assert forall i | 0 <= i < n :: accs[..n][i] == accs[i];
      var before, after := CreateAll(b, accs[..n]), CreateAll(b, accs);
      if k !in b.accounts {
        if k in before.accounts {
          var j :| 0 <= j < n && accs[..n][j].id == k && before.accounts[k] == accs[..n][j] &&
                   forall i | 0 <= i < j :: accs[..n][i].id != k;
          assert accs[j].id == k && after.accounts[k] == accs[j];
        } else if accs[n].id == k {
          assert after.accounts[k] == accs[n];
        }
      }
    }
  }

  /* ----- clocks ----- */

  /** After a restore the clock is the latest timestamp of a restored hold, and at least 0. */
  lemma {:induction false} RestoredClockIs(pendings: seq<Transfer>)
    ensures 0 <= RestoredClock(pendings)
    ensures forall i | 0 <= i < |pendings| :: pendings[i].timestamp <= RestoredClock(pendings)
    ensures RestoredClock(pendings) == 0 ||
            exists i | 0 <= i < |pendings| :: pendings[i].timestamp == RestoredClock(pendings)
  {
    if pendings != [] {
      var n := |pendings| - 1;
      RestoredClockIs(pendings[..n]);
      assert forall i | 0 <= i < n :: pendings[..n][i] == pendings[i];
      if RestoredClock(pendings) != pendings[n].timestamp && RestoredClock(pendings) != 0 {
        var i :| 0 <= i < n && pendings[..n][i].timestamp == RestoredClock(pendings[..n]);
        assert pendings[i].timestamp == RestoredClock(pendings);
      }
    }
  }

  /** A snapshot is refused exactly when a hold comes twice; the error names the first that does.  Otherwise
    * the restored holds are exactly those listed. */
  lemma {:induction false} RestoreExactly(pendings: seq<Transfer>)
    ensures RestoreHolds(pendings).Ok? <==> Distinct(pendings)
    ensures RestoreHolds(pendings).Ok? ==> ListsHolds(pendings, RestoreHolds(pendings).value)
    ensures RestoreHolds(pendings).Err? ==>
              exists j | 0 <= j < |pendings| ::
                Distinct(pendings[..j]) && !Distinct(pendings[..j + 1])
                && RestoreHolds(pendings).error == RestoredTwice(pendings[j].id)
  {
    if pendings != [] {
      var n := |pendings| - 1;
      var before := RestoreHolds(pendings[..n]);
      RestoreExactly(pendings[..n]);
      assert pendings[..n + 1] == pendings;
      assert forall j | 0 <= j < n :: pendings[..n][j] == pendings[j];
      if before.Err? {
        var j :| 0 <= j < n && Distinct(pendings[..n][..j]) && !Distinct(pendings[..n][..j + 1])
          && before.error == RestoredTwice(pendings[..n][j].id);
        assert pendings[..n][..j] == pendings[..j] && pendings[..n][..j + 1] == pendings[..j + 1];
      } else {
        HoldsNext(pendings, before.value);
      }
    }
  }

  predicate Distinct(pendings: seq<Transfer>) {
    forall i, j | 0 <= i < j < |pendings| :: pendings[i].id != pendings[j].id
  }

  /** One more hold. */
  lemma HoldsNext(pendings: seq<Transfer>, holds: map<Id, Transfer>)
    requires pendings != [] && ListsHolds(pendings[..|pendings| - 1], holds)
    ensures var t := pendings[|pendings| - 1];
            && (t.id in holds <==> !Distinct(pendings))
            && (t.id !in holds ==> ListsHolds(pendings, holds[t.id := t]))
  {
    var n := |pendings| - 1;
    assert forall j | 0 <= j < n :: pendings[..n][j] == pendings[j];
    if pendings[n].id in holds {
      var i :| 0 <= i < n && pendings[..n][i].id == pendings[n].id;
      assert pendings[i].id == pendings[n].id;
    } else {
      var more := holds[pendings[n].id := pendings[n]];
      forall k <- more
        ensures exists i | 0 <= i < |pendings| :: pendings[i].id == k
      {
        if k in holds {
          var i :| 0 <= i < n && pendings[..n][i].id == k;
          assert pendings[i].id == k;
        }
      }
    }
  }

  /** Replaying a transfer moves the clock to its timestamp, never back; an account leaves it. */
  lemma ReplayClock(s: State, r: Record)
    ensures match r
            case AccountRecord(_) => ReplayRecord(s, r).state.clock == s.clock
            case TransferRecord(t) =>
              var c := ReplayRecord(s, r).state.clock;
              s.clock <= c && t.timestamp <= c && (c == s.clock || c == t.timestamp)
  {
    hide Exec, CloseAt;
  }
}
