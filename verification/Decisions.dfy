/** The outcome of every event of a batch (internal/engine/transfers.go, ValidateBatch), from what is
  * acceptable in the fields of the books: a chain is accepted when each of its legs passes on what
  * the legs before it made of the books; otherwise the first leg that does not pass is to blame. */
module Decisions {
  import opened Core
  import opened Engine
  import opened Holds
  import opened Batch
  import opened Acceptance

  /* ----- one leg ----- */

  /** The ids in use after these events were tried. */
  function Using(used: set<Id>, ts: seq<Transfer>): set<Id> {
    used + set i | 0 <= i < |ts| && Opening(ts[i]) :: ts[i].id
  }

  /** The leg is acceptable, and if it opens something its id is new. */
  predicate Passes(b: Books, used: set<Id>, t: Transfer) {
    Acceptable(b, t) && (Opening(t) ==> t.id !in used)
  }

  /** Why it does not pass: an id in use comes first. */
  function Reason(b: Books, used: set<Id>, t: Transfer): Error
    requires !Passes(b, used, t)
  {
    AcceptedExactly(b, t);
    if Opening(t) && t.id in used then DuplicateTransferID(t.id) else Exec(b, t).err.value
  }

  lemma LegExactly(known: set<Id>, v: View, t: Transfer)
    requires Sound(v.books)
    ensures var d, used := Validate(known, v, t), known + v.seen;
            && (d.err.None? <==> Passes(v.books, used, t))
            && (d.err.None? ==> d.view.books == Exec(v.books, t).books && Exec(v.books, t).err.None?)
            && (d.err.Some? ==> d.err.value == Reason(v.books, used, t))
            && known + d.view.seen == Using(used, [t])
  {
    hide Exec, Stage, Acceptable, BadFlags, Sound;
    Kinds(t);
    AcceptedExactly(v.books, t);
    SoundIsBacked(v.books);
    StageAgreesWithExec(v.books, t);
    AcceptableIsSensible(v.books, t);
    if !Sensible(t) { BadFlagsRefused(v.books, t); }
    assert [t][0] == t;
    assert Using(known + v.seen, [t]) == known + v.seen + (if Opening(t) then {t.id} else {});
  }

  lemma SoundIsBacked(b: Books)
    requires Sound(b)
    ensures Keyed(b.accounts) && Backed(b)
  {
    forall k | k in b.holds
      ensures b.holds[k].debit in b.accounts && b.holds[k].credit in b.accounts
    {
      assert HoldOk(b, k);
    }
  }

  lemma AcceptableIsSensible(b: Books, t: Transfer)
    ensures Acceptable(b, t) ==> Sensible(t)
  {
  }

  lemma BadFlagsRefused(b: Books, t: Transfer)
    requires !Sensible(t)
    ensures Exec(b, t).err == Some(InvalidTransferFlags(t.flags))
  {
    Kinds(t);
    hide MovePending, ReleasePending, Reserve, PostImmediate;
  }

  /* ----- one chain ----- */

  /** Leg `k` passes on what the legs from `i` on made of the books. */
  predicate PassesAt(b: Books, used: set<Id>, evs: seq<Transfer>, i: nat, k: nat)
    requires i <= k < |evs|
  {
    Passes(ExecAll(b, evs[i..k]).books, Using(used, evs[i..k]), evs[k])
  }

  lemma FirstLeg(b: Books, used: set<Id>, evs: seq<Transfer>, i: nat)
    requires i < |evs|
    ensures evs[i..i] == [] && ExecAll(b, evs[i..i]) == Execution(b, None) && Using(used, evs[i..i]) == used
    ensures Using(used, evs[i..i + 1]) == Using(used, [evs[i]])
  {
    assert evs[i..i + 1] == [evs[i]];
  }

  /** What the legs from `i` on leave is what the others leave after leg `i`. */
  lemma LaterLeg(b: Books, used: set<Id>, evs: seq<Transfer>, i: nat, k: nat)
    requires i < k <= |evs| && Exec(b, evs[i]).err.None?
    ensures ExecAll(b, evs[i..k]) == ExecAll(Exec(b, evs[i]).books, evs[i + 1..k])
    ensures Using(used, evs[i..k]) == Using(Using(used, [evs[i]]), evs[i + 1..k])
  {
    hide Exec;
    var all, rest := evs[i..k], evs[i + 1..k];
    assert all[0] == evs[i] && all[1..] == rest;
    UsingFirst(used, all);
  }

  lemma UsingFirst(used: set<Id>, ts: seq<Transfer>)
    requires ts != []
    ensures Using(used, ts) == Using(Using(used, [ts[0]]), ts[1..])
  {
    var rest := ts[1..];
    assert forall i | 0 < i < |ts| :: ts[i] == rest[i - 1];
    assert [ts[0]][0] == ts[0];
    forall x | x in Using(used, ts)
      ensures x in Using(Using(used, [ts[0]]), rest)
    {
      if x !in used {
        var i :| 0 <= i < |ts| && Opening(ts[i]) && ts[i].id == x;
        if i > 0 { assert rest[i - 1].id == x && Opening(rest[i - 1]); }
      }
    }
    forall x | x in Using(Using(used, [ts[0]]), rest)
      ensures x in Using(used, ts)
    {
      if x !in Using(used, [ts[0]]) {
        var i :| 0 <= i < |rest| && Opening(rest[i]) && rest[i].id == x;
        assert ts[i + 1] == rest[i];
      }
    }
  }

  /** How a chain run ends: every leg passes, or one is the first that does not. */
  ghost predicate Ends(run: ChainRun, known: set<Id>, b: Books, used: set<Id>, evs: seq<Transfer>, i: nat, last: nat)
    requires i <= last < |evs|
  {
    match run
    case Completed(v) =>
      && (forall k | i <= k <= last :: PassesAt(b, used, evs, i, k))
      && ExecAll(b, evs[i..last + 1]) == Execution(v.books, None)
      && known + v.seen == Using(used, evs[i..last + 1])
    case Failed(at, e, seen) =>
      && i <= at <= last && (forall k | i <= k < at :: PassesAt(b, used, evs, i, k))
      && !PassesAt(b, used, evs, i, at)
      && e == Reason(ExecAll(b, evs[i..at]).books, Using(used, evs[i..at]), evs[at])
      && known + seen == Using(used, evs[i..at + 1])
  }

  /** A chain that ends in some way after its first leg passed ends in that way as a whole. */
  lemma EndsLater(run: ChainRun, known: set<Id>, b: Books, used: set<Id>, evs: seq<Transfer>, i: nat, last: nat)
    requires i < last < |evs| && Passes(b, used, evs[i]) && Exec(b, evs[i]).err.None?
    requires Ends(run, known, Exec(b, evs[i]).books, Using(used, [evs[i]]), evs, i + 1, last)
    ensures Ends(run, known, b, used, evs, i, last)
  {
    hide Exec, ExecAll, Using, Passes, Reason;
    FirstLeg(b, used, evs, i);
    forall k | i < k <= last
      ensures PassesAt(b, used, evs, i, k) == PassesAt(Exec(b, evs[i]).books, Using(used, [evs[i]]), evs, i + 1, k)
    {
      LaterLeg(b, used, evs, i, k);
    }
    match run
    case Completed(_) => LaterLeg(b, used, evs, i, last + 1);
    case Failed(at, _, _) =>
      LaterLeg(b, used, evs, i, at);
      LaterLeg(b, used, evs, i, at + 1);
  }

  lemma {:induction false} ChainExactly(known: set<Id>, v: View, evs: seq<Transfer>, i: nat, last: nat)
    requires i <= last < |evs| && Sound(v.books)
    ensures Ends(RunChain(known, v, evs, i, last), known, v.books, known + v.seen, evs, i, last)
    decreases last - i
  {
    hide Validate, Sound, Exec, ExecAll, Using, Passes, Reason;
    var used, d := known + v.seen, Validate(known, v, evs[i]);
    LegExactly(known, v, evs[i]);
    FirstLeg(v.books, used, evs, i);
    if d.err.None? {
      if i < last {
        ExecKeepsSound(v.books, evs[i]);
        ChainExactly(known, d.view, evs, i + 1, last);
        hide Ends;
        EndsLater(RunChain(known, d.view, evs, i + 1, last), known, v.books, used, evs, i, last);
      } else {
        OneLeg(v.books, used, evs, i);
      }
    }
  }

  lemma OneLeg(b: Books, used: set<Id>, evs: seq<Transfer>, i: nat)
    requires i < |evs| && Exec(b, evs[i]).err.None?
    ensures ExecAll(b, evs[i..i + 1]) == Execution(Exec(b, evs[i]).books, None)
  {
    hide Exec;
    assert evs[i..i + 1] == [evs[i]] && [evs[i]][1..] == [];
  }

  /* ----- the batch ----- */

  /** Bit 3 of the flags: the transfer shares the fate of the next one. */
  predicate Links(t: Transfer) {
    t.flags % 16 >= 8
  }

  lemma LinksIs(t: Transfer)
    ensures Links(t) <==> IsLinked(t)
  {
  }

  predicate Begins(evs: seq<Transfer>, a: nat) {
    a <= |evs| && (0 < a < |evs| ==> !Links(evs[a - 1]))
  }

  /** The events from `a` to `z` are a maximal chain. */
  predicate Chain(evs: seq<Transfer>, a: nat, z: nat) {
    && a <= z < |evs| && Begins(evs, a) && (forall k | a <= k < z :: Links(evs[k]))
    && (z == |evs| - 1 || !Links(evs[z]))
  }

  /** Event `at` gets `e`, and the others of the chain the failure it causes. */
  predicate Blames(evs: seq<Transfer>, outcomes: seq<Option<Error>>, a: nat, z: nat, at: nat, e: Error)
    requires a <= at <= z < |evs| == |outcomes|
  {
    && outcomes[at] == Some(e)
    && forall k | a <= k <= z && k != at :: outcomes[k] == Some(LinkedChainFailed(evs[at].id, at, e))
  }

  /** What becomes of a chain that starts on the books `b` with the ids `used`. */
  ghost predicate Decided(b: Books, used: set<Id>, evs: seq<Transfer>, outcomes: seq<Option<Error>>, a: nat, z: nat)
    requires a <= z < |evs| == |outcomes|
  {
    && ((forall k | a <= k <= z :: PassesAt(b, used, evs, a, k)) ==>
          if Links(evs[z]) then Blames(evs, outcomes, a, z, z, LinkedChainOpen(evs[z].id, z))
          else forall k | a <= k <= z :: outcomes[k].None?)
    && forall at |
         a <= at <= z && (forall k | a <= k < at :: PassesAt(b, used, evs, a, k)) && !PassesAt(b, used, evs, a, at) ::
         Blames(evs, outcomes, a, z, at, Reason(ExecAll(b, evs[a..at]).books, Using(used, evs[a..at]), evs[at]))
  }

  /** An event was looked at unless an earlier one of its chain was refused. */
  predicate Tried(outcomes: seq<Option<Error>>, j: nat)
    requires j < |outcomes|
  {
    outcomes[j].Some? && outcomes[j].value.LinkedChainFailed? ==> outcomes[j].value.index >= j
  }

  /** The ids of the openings among the events from `i` to `a` that were looked at; `outcomes` are those
    * from `i` on. */
  function Attempted(evs: seq<Transfer>, outcomes: seq<Option<Error>>, i: nat, a: nat): set<Id>
    requires i <= a <= |evs| && |outcomes| == |evs|
  {
    set j | i <= j < a && Opening(evs[j]) && Tried(outcomes, j) :: evs[j].id
  }

  lemma ChainEndIs(evs: seq<Transfer>, a: nat, z: nat)
    requires Chain(evs, a, z)
    ensures ChainEnd(evs, a) == z
  {
    hide ChainEnd;
    var last := ChainEnd(evs, a);
    if last < z { LinksIs(evs[last]); }
    if z < last { LinksIs(evs[z]); }
  }

  /** The outcomes of one chain are those of its run. */
  lemma RunDecides(run: ChainRun, known: set<Id>, b: Books, used: set<Id>, evs: seq<Transfer>,
                   outcomes: seq<Option<Error>>, a: nat, z: nat)
    requires Chain(evs, a, z) && |outcomes| == |evs| && Ends(run, known, b, used, evs, a, z)
    requires outcomes[a..z + 1] == ChainOutcomes(run, evs, a, z)
    ensures Decided(b, used, evs, outcomes, a, z)
  {
    hide PassesAt, Reason, ExecAll, Using;
    LinksIs(evs[z]);
    forall k | a <= k <= z
      ensures outcomes[k] == ChainOutcome(run, evs, z, k)
    {
      assert outcomes[a..z + 1][k - a] == outcomes[k];
    }
  }

  /** No leg is refused with the failure of a chain. */
  lemma OwnReason(b: Books, used: set<Id>, t: Transfer)
    requires !Passes(b, used, t)
    ensures !Reason(b, used, t).LinkedChainFailed?
  {
    hide Acceptable;
    AcceptedExactly(b, t);
  }

  /** Which events of a chain were looked at. */
  lemma TriedUpTo(run: ChainRun, known: set<Id>, b: Books, used: set<Id>, evs: seq<Transfer>,
                  outcomes: seq<Option<Error>>, a: nat, z: nat, j: nat)
    requires Chain(evs, a, z) && |outcomes| == |evs| && Ends(run, known, b, used, evs, a, z) && a <= j <= z
    requires outcomes[a..z + 1] == ChainOutcomes(run, evs, a, z)
    ensures Tried(outcomes, j) <==> (run.Failed? ==> j <= run.at)
  {
    hide PassesAt, Reason, ExecAll, Using;
    assert outcomes[a..z + 1][j - a] == outcomes[j];
    assert outcomes[j] == ChainOutcome(run, evs, z, j);
    if run.Failed? {
      assert !Passes(ExecAll(b, evs[a..run.at]).books, Using(used, evs[a..run.at]), evs[run.at]) by {
        NotPassing(b, used, evs, a, run.at);
      }
      OwnReason(ExecAll(b, evs[a..run.at]).books, Using(used, evs[a..run.at]), evs[run.at]);
    }
  }

  lemma NotPassing(b: Books, used: set<Id>, evs: seq<Transfer>, i: nat, k: nat)
    requires i <= k < |evs|
    ensures PassesAt(b, used, evs, i, k) == Passes(ExecAll(b, evs[i..k]).books, Using(used, evs[i..k]), evs[k])
  {
    hide Passes, ExecAll, Using;
  }

  /** The ids a chain uses up are those of the openings that were looked at. */
  lemma ChainUses(run: ChainRun, known: set<Id>, b: Books, used: set<Id>, evs: seq<Transfer>,
                  outcomes: seq<Option<Error>>, a: nat, z: nat)
    requires Chain(evs, a, z) && |outcomes| == |evs| && Ends(run, known, b, used, evs, a, z)
    requires outcomes[a..z + 1] == ChainOutcomes(run, evs, a, z)
    ensures var seen := if run.Failed? then run.seen else run.view.seen;
            known + seen == used + Attempted(evs, outcomes, a, z + 1)
  {
    hide PassesAt, Reason, ExecAll, Tried, Ends, ChainOutcomes;
    forall j | a <= j <= z
      ensures Tried(outcomes, j) <==> (run.Failed? ==> j <= run.at)
    {
      TriedUpTo(run, known, b, used, evs, outcomes, a, z, j);
    }
    var n := if run.Failed? then run.at + 1 else z + 1;
    EndsUsing(run, known, b, used, evs, a, z);
    UsingIs(used, evs, outcomes, a, z, n);
  }

  lemma EndsUsing(run: ChainRun, known: set<Id>, b: Books, used: set<Id>, evs: seq<Transfer>, a: nat, z: nat)
    requires a <= z < |evs| && Ends(run, known, b, used, evs, a, z)
    ensures run.Failed? ==> a <= run.at <= z && known + run.seen == Using(used, evs[a..run.at + 1])
    ensures run.Completed? ==> known + run.view.seen == Using(used, evs[a..z + 1])
  {
    hide PassesAt, Reason, ExecAll, Using;
  }

  lemma UsingIs(used: set<Id>, evs: seq<Transfer>, outcomes: seq<Option<Error>>, a: nat, z: nat, n: nat)
    requires a <= n <= z + 1 <= |evs| == |outcomes|
    requires forall j | a <= j <= z :: Tried(outcomes, j) <==> j < n
    ensures Using(used, evs[a..n]) == used + Attempted(evs, outcomes, a, z + 1)
  {
    hide Tried;
    var ts := evs[a..n];
    forall x | x in Using(used, ts)
      ensures x in used + Attempted(evs, outcomes, a, z + 1)
    {
      if x !in used {
        var i :| 0 <= i < |ts| && Opening(ts[i]) && ts[i].id == x;
        assert ts[i] == evs[a + i] && Tried(outcomes, a + i);
      }
    }
    forall x | x in Attempted(evs, outcomes, a, z + 1)
      ensures x in Using(used, ts)
    {
      var j :| a <= j < z + 1 && Opening(evs[j]) && Tried(outcomes, j) && evs[j].id == x;
      assert ts[j - a] == evs[j];
    }
  }

  /** One chain on, from outcomes that start with those of the chain. */
  lemma NextChain(known: set<Id>, v: View, evs: seq<Transfer>, outcomes: seq<Option<Error>>, a: nat, z: nat)
    returns (w: View)
    requires Chain(evs, a, z) && Sound(v.books) && |outcomes| == |evs|
    requires outcomes[a..] == Rule(known, v, evs, a).outcomes
    ensures Sound(w.books) && outcomes[z + 1..] == Rule(known, w, evs, z + 1).outcomes
    ensures ExecAll(v.books, AcceptedEvents(evs[a..z + 1], outcomes[a..z + 1])) == Execution(w.books, None)
    ensures known + w.seen == known + v.seen + Attempted(evs, outcomes, a, z + 1)
    ensures Decided(v.books, known + v.seen, evs, outcomes, a, z)
  {
    hide RunChain, ExecAll, AcceptedEvents, ChainOutcomes, Sound, Ends, Attempted, Decided, ChainEnd, Chain;
    ChainEndIs(evs, a, z);
    var run := RunChain(known, v, evs, a, z);
    w := AfterChain(v, run, evs, z);
    var head := ChainOutcomes(run, evs, a, z);
    assert Rule(known, v, evs, a).outcomes == head + Rule(known, w, evs, z + 1).outcomes;
    SplitOutcomes(outcomes, head, Rule(known, w, evs, z + 1).outcomes, a, z);
    ChainExactly(known, v, evs, a, z);
    RunDecides(run, known, v.books, known + v.seen, evs, outcomes, a, z);
    ChainUses(run, known, v.books, known + v.seen, evs, outcomes, a, z);
    SoundIsBacked(v.books);
    ChainApplies(known, v, evs, a, z);
    ExecAllKeepsSound(v.books, AcceptedEvents(evs[a..z + 1], head));
  }

  lemma SplitOutcomes(outcomes: seq<Option<Error>>, head: seq<Option<Error>>, rest: seq<Option<Error>>, a: nat, z: nat)
    requires a <= z < |outcomes| && outcomes[a..] == head + rest && |head| == z + 1 - a
    ensures outcomes[a..z + 1] == head && outcomes[z + 1..] == rest
  {
    assert outcomes[a..z + 1] == outcomes[a..][..z + 1 - a];
    assert outcomes[z + 1..] == outcomes[a..][z + 1 - a..];
  }

  /** The maximal chain that starts at `a`. */
  lemma SomeChain(evs: seq<Transfer>, a: nat) returns (z: nat)
    requires a < |evs| && Begins(evs, a)
    ensures Chain(evs, a, z)
  {
    hide ChainEnd;
    z := ChainEnd(evs, a);
    forall k | a <= k <= z
      ensures Links(evs[k]) <==> IsLinked(evs[k])
    {
      LinksIs(evs[k]);
    }
  }

  /** Where the batch stands when the chain at `a` starts. */
  lemma {:induction false} Reaches(known: set<Id>, v: View, evs: seq<Transfer>, outcomes: seq<Option<Error>>,
                                   i: nat, a: nat)
    returns (w: View)
    requires i <= a <= |evs| == |outcomes| && Begins(evs, i) && Begins(evs, a) && Sound(v.books)
    requires outcomes[i..] == Rule(known, v, evs, i).outcomes
    ensures Sound(w.books) && outcomes[a..] == Rule(known, w, evs, a).outcomes
    ensures ExecAll(v.books, AcceptedEvents(evs[i..a], outcomes[i..a])) == Execution(w.books, None)
    ensures known + w.seen == known + v.seen + Attempted(evs, outcomes, i, a)
    decreases a - i
  {
    hide ExecAll, AcceptedEvents, Sound, Rule, Decided, Attempted;
    if i == a {
      w := v;
      NothingBetween(evs, outcomes, i, v);
    } else {
      var z := SomeChain(evs, i);
      var u := NextChain(known, v, evs, outcomes, i, z);
      w := Reaches(known, u, evs, outcomes, z + 1, a);
      Between(evs, i, z + 1, a);
      Between(outcomes, i, z + 1, a);
      AttemptedBetween(evs, outcomes, i, z + 1, a);
      Compose(v.books, evs[i..z + 1], outcomes[i..z + 1], u.books, evs[z + 1..a], outcomes[z + 1..a], w.books);
    }
  }

  lemma NothingBetween(evs: seq<Transfer>, outcomes: seq<Option<Error>>, i: nat, v: View)
    requires i <= |evs| == |outcomes|
    ensures ExecAll(v.books, AcceptedEvents(evs[i..i], outcomes[i..i])) == Execution(v.books, None)
    ensures Attempted(evs, outcomes, i, i) == {}
  {
    assert evs[i..i] == [] && outcomes[i..i] == [];
  }

  lemma Between<T>(xs: seq<T>, i: nat, m: nat, a: nat)
    requires i <= m <= a <= |xs|
    ensures xs[i..a] == xs[i..m] + xs[m..a]
  {
  }

  lemma AttemptedBetween(evs: seq<Transfer>, outcomes: seq<Option<Error>>, i: nat, m: nat, a: nat)
    requires i <= m <= a <= |evs| == |outcomes|
    ensures Attempted(evs, outcomes, i, a) == Attempted(evs, outcomes, i, m) + Attempted(evs, outcomes, m, a)
  {
  }

  /** For every batch on sound books and every maximal chain of it: with the books that the accepted
    * events before it leave and the ids used so far, the chain is accepted if and only if each of its
    * legs passes after the ones before it and the batch does not end inside it; otherwise the first
    * leg that does not pass is refused with its own reason and all others name it. */
  lemma BatchDecides(known: set<Id>, b: Books, evs: seq<Transfer>, a: nat, z: nat)
    requires Sound(b) && Chain(evs, a, z)
    ensures var outcomes := RuleBatch(known, b, evs).outcomes;
            Decided(ExecAll(b, AcceptedEvents(evs[..a], outcomes[..a])).books, known + Attempted(evs, outcomes, 0, a),
                    evs, outcomes, a, z)
  {
    hide ExecAll, AcceptedEvents, Sound, Rule, Decided, Attempted;
    var outcomes := RuleBatch(known, b, evs).outcomes;
    assert outcomes[0..] == outcomes && evs[0..a] == evs[..a] && outcomes[0..a] == outcomes[..a];
    assert known + {} == known;
    var w := Reaches(known, View(b, {}), evs, outcomes, 0, a);
    var _ := NextChain(known, w, evs, outcomes, a, z);
  }

  /** An event that is linked to no other: accepted if and only if it is acceptable on the books left by
    * the accepted events before it and, if it opens something, under an id that was not used. */
  lemma UnlinkedDecided(known: set<Id>, b: Books, evs: seq<Transfer>, i: nat)
    requires Sound(b) && i < |evs| && !Links(evs[i]) && (i > 0 ==> !Links(evs[i - 1]))
    ensures var outcomes := RuleBatch(known, b, evs).outcomes;
            var books := ExecAll(b, AcceptedEvents(evs[..i], outcomes[..i])).books;
            outcomes[i].None? <==>
              && Acceptable(books, evs[i])
              && (Opening(evs[i]) ==> evs[i].id !in known && evs[i].id !in Attempted(evs, outcomes, 0, i))
  {
    hide AcceptedEvents, Sound, RuleBatch, Attempted, Acceptable, ExecAll;
    var outcomes := RuleBatch(known, b, evs).outcomes;
    var books := ExecAll(b, AcceptedEvents(evs[..i], outcomes[..i])).books;
    var used := known + Attempted(evs, outcomes, 0, i);
    BatchDecides(known, b, evs, i, i);
    FirstLeg(books, used, evs, i);
    assert PassesAt(books, used, evs, i, i) == Passes(books, used, evs[i]);
  }
}
