/** What ValidateBatch decides (internal/engine/transfers.go), stated without overlay or undo
  * journal: each chain of linked transfers runs on a copy of the books that is kept only when
  * the whole chain succeeds.  The overlay-and-journal code is proved against this in module
  * Validator; here are the properties of the decisions themselves. */
module Batch {
  import opened Core
  import opened Engine
  import opened Holds

  /** The effective books and the ids used by openings so far in this batch. */
  datatype View = View(books: Books, seen: set<Id>)

  datatype Verdict = Verdict(view: View, err: Option<Error>)

  predicate BadFlags(t: Transfer) {
    HasUnknownFlags(t) || (IsPost(t) && (IsPending(t) || IsVoid(t))) || (IsVoid(t) && IsPending(t))
  }

  /** One leg.  `known` are the ids of the transfer index before the batch.  An opening uses up
    * its id even when it is refused for another reason. */
  function Validate(known: set<Id>, v: View, t: Transfer): Verdict {
    if BadFlags(t) then
      Verdict(v, Some(InvalidTransferFlags(t.flags)))
    else if !IsSettlement(t) && (t.id in v.seen || t.id in known) then
      Verdict(v, Some(DuplicateTransferID(t.id)))
    else
      var seen := if IsSettlement(t) then v.seen else v.seen + {t.id};
      match Stage(v.books, t)
      case Err(e) => Verdict(View(v.books, seen), Some(e))
      case Ok(after) => Verdict(View(after, seen), None)
  }

  /** The last event of the chain that event `i` belongs to. */
  function ChainEnd(evs: seq<Transfer>, i: nat): (last: nat)
    requires i < |evs|
    ensures i <= last < |evs|
    ensures forall j | i <= j < last :: IsLinked(evs[j])
    ensures last == |evs| - 1 || !IsLinked(evs[last])
    decreases |evs| - i
  {
    if !IsLinked(evs[i]) || i == |evs| - 1 then i else ChainEnd(evs, i + 1)
  }

  datatype ChainRun =
    | Completed(view: View)
    | Failed(at: nat, err: Error, seen: set<Id>)

  /** Run events i..last one after the other until one is refused. */
  function RunChain(known: set<Id>, v: View, evs: seq<Transfer>, i: nat, last: nat): (r: ChainRun)
    requires i <= last < |evs|
    ensures r.Failed? ==> i <= r.at <= last
    decreases last - i
  {
    var d := Validate(known, v, evs[i]);
    if d.err.Some? then Failed(i, d.err.value, d.view.seen)
    else if i == last then Completed(d.view)
    else RunChain(known, d.view, evs, i + 1, last)
  }

  /** The outcome of event `k` when event `at` of its chain is refused with `e`. */
  function Blame(evs: seq<Transfer>, at: nat, e: Error, k: nat): Option<Error>
    requires at < |evs|
  {
    if k == at then Some(e) else Some(LinkedChainFailed(evs[at].id, at, e))
  }

  function OpenChain(evs: seq<Transfer>, last: nat): Error
    requires last < |evs|
  {
    LinkedChainOpen(evs[last].id, last)
  }

  /** A chain accepted as a whole. */
  predicate Accepted(run: ChainRun, evs: seq<Transfer>, last: nat)
    requires last < |evs|
  {
    run.Completed? && !IsLinked(evs[last])
  }

  function ChainOutcome(run: ChainRun, evs: seq<Transfer>, last: nat, k: nat): Option<Error>
    requires last < |evs| && (run.Failed? ==> run.at < |evs|)
  {
    match run
    case Failed(at, e, _) => Blame(evs, at, e, k)
    case Completed(_) => if IsLinked(evs[last]) then Blame(evs, last, OpenChain(evs, last), k) else None
  }

  function ChainOutcomes(run: ChainRun, evs: seq<Transfer>, i: nat, last: nat): (r: seq<Option<Error>>)
    requires i <= last < |evs| && (run.Failed? ==> run.at < |evs|)
    ensures |r| == last + 1 - i
    ensures forall j | 0 <= j < |r| :: r[j] == ChainOutcome(run, evs, last, i + j)
  {
    seq(last + 1 - i, j requires 0 <= j => ChainOutcome(run, evs, last, i + j))
  }

  function AfterChain(v: View, run: ChainRun, evs: seq<Transfer>, last: nat): View
    requires last < |evs|
  {
    match run
    case Failed(_, _, seen) => View(v.books, seen)
    case Completed(view) => if IsLinked(evs[last]) then View(v.books, view.seen) else view
  }

  datatype Ruling = Ruling(outcomes: seq<Option<Error>>, view: View)

  /** The decisions on events i.., where a chain starts at `i`. */
  function Rule(known: set<Id>, v: View, evs: seq<Transfer>, i: nat): (r: Ruling)
    requires i <= |evs|
    ensures |r.outcomes| == |evs| - i
    decreases |evs| - i
  {
    if i == |evs| then Ruling([], v) else
    var last := ChainEnd(evs, i);
    var run := RunChain(known, v, evs, i, last);
    var rest := Rule(known, AfterChain(v, run, evs, last), evs, last + 1);
    Ruling(ChainOutcomes(run, evs, i, last) + rest.outcomes, rest.view)
  }

  /** The whole batch against the books and transfer index it starts from. */
  function RuleBatch(known: set<Id>, b: Books, evs: seq<Transfer>): (r: Ruling)
    ensures |r.outcomes| == |evs|
  {
    Rule(known, View(b, {}), evs, 0)
  }

  /* ----- linked chains are all or nothing ----- */

  /** A transfer linked to the next shares its fate; a chain left open at the end is refused. */
  predicate AllOrNothing(evs: seq<Transfer>, outcomes: seq<Option<Error>>, from: nat)
    requires |outcomes| == |evs| - from
  {
    forall k | from <= k < |evs| && IsLinked(evs[k]) ::
      if k + 1 < |evs| then outcomes[k - from].None? == outcomes[k + 1 - from].None?
      else outcomes[k - from].Some?
  }

  /** The same for the events of one chain; only the last chain can be left open. */
  predicate SharedFate(evs: seq<Transfer>, outcomes: seq<Option<Error>>, i: nat, last: nat)
    requires i <= last < |evs| && |outcomes| == last + 1 - i
  {
    forall k | i <= k <= last && IsLinked(evs[k]) ::
      if k < last then outcomes[k - i].None? == outcomes[k + 1 - i].None?
      else last + 1 == |evs| && outcomes[k - i].Some?
  }

  lemma ChainShares(run: ChainRun, evs: seq<Transfer>, i: nat)
    requires i < |evs| && (run.Failed? ==> run.at < |evs|)
    ensures SharedFate(evs, ChainOutcomes(run, evs, i, ChainEnd(evs, i)), i, ChainEnd(evs, i))
  {
    var last := ChainEnd(evs, i);
    var outcomes := ChainOutcomes(run, evs, i, last);
    forall k | i <= k <= last && IsLinked(evs[k])
      ensures if k < last then outcomes[k - i].None? == outcomes[k + 1 - i].None?
              else last + 1 == |evs| && outcomes[k - i].Some?
    {
      assert outcomes[k - i] == ChainOutcome(run, evs, last, k);
      if k < last { assert outcomes[k + 1 - i] == ChainOutcome(run, evs, last, k + 1); }
    }
  }

  lemma FatesJoin(evs: seq<Transfer>, xs: seq<Option<Error>>, ys: seq<Option<Error>>, i: nat, last: nat)
    requires i <= last < |evs| && |xs| == last + 1 - i && |ys| == |evs| - (last + 1)
    requires SharedFate(evs, xs, i, last) && AllOrNothing(evs, ys, last + 1)
    ensures AllOrNothing(evs, xs + ys, i)
  {
    var all := xs + ys;
    forall k | i <= k < |evs| && IsLinked(evs[k])
      ensures if k + 1 < |evs| then all[k - i].None? == all[k + 1 - i].None? else all[k - i].Some?
    {
      if k > last {
        assert all[k - i] == ys[k - (last + 1)];
        if k + 1 < |evs| { assert all[k + 1 - i] == ys[k + 1 - (last + 1)]; }
      }
    }
  }

  lemma {:induction false} ChainsAreAtomic(known: set<Id>, v: View, evs: seq<Transfer>, i: nat)
    requires i <= |evs|
    ensures AllOrNothing(evs, Rule(known, v, evs, i).outcomes, i)
    decreases |evs| - i
  {
    hide Validate, RunChain, AllOrNothing, SharedFate, ChainOutcomes, ChainEnd;
    if i == |evs| {
      NoFates(evs);
    } else {
      var last := ChainEnd(evs, i);
      var run := RunChain(known, v, evs, i, last);
      var v' := AfterChain(v, run, evs, last);
      ChainsAreAtomic(known, v', evs, last + 1);
      ChainShares(run, evs, i);
      FatesJoin(evs, ChainOutcomes(run, evs, i, last), Rule(known, v', evs, last + 1).outcomes, i, last);
    }
  }

  lemma NoFates(evs: seq<Transfer>)
    ensures AllOrNothing(evs, [], |evs|)
  {
  }

  /* ----- applying what was accepted ----- */

  /** Execute events in order, stopping at the first error. */
  function ExecAll(b: Books, evs: seq<Transfer>): Execution
    decreases |evs|
  {
    if evs == [] then Execution(b, None)
    else
      var e := Exec(b, evs[0]);
      if e.err.Some? then e else ExecAll(e.books, evs[1..])
  }

  /** The accepted events of a batch, in order: what the batch journals. */
  function AcceptedEvents(evs: seq<Transfer>, outcomes: seq<Option<Error>>): seq<Transfer>
    requires |evs| == |outcomes|
  {
    if evs == [] then []
    else (if outcomes[0].None? then [evs[0]] else []) + AcceptedEvents(evs[1..], outcomes[1..])
  }

  lemma {:induction false} ExecAllAppend(b: Books, xs: seq<Transfer>, ys: seq<Transfer>)
    requires ExecAll(b, xs).err.None?
    ensures ExecAll(b, xs + ys) == ExecAll(ExecAll(b, xs).books, ys)
    decreases |xs|
  {
    if xs == [] {
      assert xs + ys == ys;
    } else {
      assert (xs + ys)[1..] == xs[1..] + ys;
      ExecAllAppend(Exec(b, xs[0]).books, xs[1..], ys);
    }
  }

  lemma {:induction false} AcceptedAppend(xs: seq<Transfer>, xo: seq<Option<Error>>, ys: seq<Transfer>,
                                          yo: seq<Option<Error>>)
    requires |xs| == |xo| && |ys| == |yo|
    ensures AcceptedEvents(xs + ys, xo + yo) == AcceptedEvents(xs, xo) + AcceptedEvents(ys, yo)
  {
    if xs == [] {
      assert xs + ys == ys && xo + yo == yo;
    } else {
      var first := if xo[0].None? then [xs[0]] else [];
      calc {
        AcceptedEvents(xs + ys, xo + yo);
        { assert (xs + ys)[1..] == xs[1..] + ys && (xo + yo)[1..] == xo[1..] + yo; }
        first + AcceptedEvents(xs[1..] + ys, xo[1..] + yo);
        { AcceptedAppend(xs[1..], xo[1..], ys, yo); }
        first + (AcceptedEvents(xs[1..], xo[1..]) + AcceptedEvents(ys, yo));
        AcceptedEvents(xs, xo) + AcceptedEvents(ys, yo);
      }
    }
  }

  lemma {:induction false} AcceptedUniform(evs: seq<Transfer>, outcomes: seq<Option<Error>>)
    requires |evs| == |outcomes|
    ensures (forall j | 0 <= j < |outcomes| :: outcomes[j].None?) ==> AcceptedEvents(evs, outcomes) == evs
    ensures (forall j | 0 <= j < |outcomes| :: outcomes[j].Some?) ==> AcceptedEvents(evs, outcomes) == []
  {
    if evs != [] {
      AcceptedUniform(evs[1..], outcomes[1..]);
    }
  }

  /** A completed chain run is a successful execution of its events. */
  lemma {:induction false} RunChainExecutes(known: set<Id>, v: View, evs: seq<Transfer>, i: nat, last: nat)
    requires i <= last < |evs| && Keyed(v.books.accounts)
    requires RunChain(known, v, evs, i, last).Completed?
    ensures Keyed(RunChain(known, v, evs, i, last).view.books.accounts)
    ensures ExecAll(v.books, evs[i..last + 1])
         == Execution(RunChain(known, v, evs, i, last).view.books, None)
    decreases last - i
  {
    hide Exec, Stage, Keyed;
    var d := Validate(known, v, evs[i]);
    StageAgreesWithExec(v.books, evs[i]);
    ExecKeepsKeyed(v.books, evs[i]);
    var part := evs[i..last + 1];
    assert part[0] == evs[i];
    if i < last {
      assert part[1..] == evs[i + 1..last + 1];
      RunChainExecutes(known, d.view, evs, i + 1, last);
    } else {
      assert part[1..] == [];
    }
  }

  /** A chain executes as a whole or leaves the books alone. */
  lemma ChainApplies(known: set<Id>, v: View, evs: seq<Transfer>, i: nat, last: nat)
    requires i <= last < |evs| && Keyed(v.books.accounts)
    ensures var run := RunChain(known, v, evs, i, last);
            var after := AfterChain(v, run, evs, last).books;
            && Keyed(after.accounts)
            && ExecAll(v.books, AcceptedEvents(evs[i..last + 1], ChainOutcomes(run, evs, i, last)))
               == Execution(after, None)
  {
    var run := RunChain(known, v, evs, i, last);
    hide Exec, Keyed, RunChain, AcceptedEvents, ChainOutcomes;
    ChainAccepted(run, evs, i, last);
    if Accepted(run, evs, last) { RunChainExecutes(known, v, evs, i, last); }
  }

  lemma Compose(b: Books, xs: seq<Transfer>, xo: seq<Option<Error>>, middle: Books,
                ys: seq<Transfer>, yo: seq<Option<Error>>, end: Books)
    requires |xs| == |xo| && |ys| == |yo|
    requires ExecAll(b, AcceptedEvents(xs, xo)) == Execution(middle, None)
    requires ExecAll(middle, AcceptedEvents(ys, yo)) == Execution(end, None)
    ensures ExecAll(b, AcceptedEvents(xs + ys, xo + yo)) == Execution(end, None)
  {
    hide Exec;
    AcceptedAppend(xs, xo, ys, yo);
    ExecAllAppend(b, AcceptedEvents(xs, xo), AcceptedEvents(ys, yo));
  }

  lemma Cut(evs: seq<Transfer>, i: nat, m: nat)
    requires i <= m <= |evs|
    ensures evs[i..] == evs[i..m] + evs[m..]
  {
  }

  /** From any books, every accepted event applies without error, in order, and the books reached
    * are the validator's own final view. */
  lemma {:induction false} AcceptedEventsApply(known: set<Id>, v: View, evs: seq<Transfer>, i: nat)
    requires i <= |evs| && Keyed(v.books.accounts)
    ensures var r := Rule(known, v, evs, i);
            Keyed(r.view.books.accounts)
            && ExecAll(v.books, AcceptedEvents(evs[i..], r.outcomes)) == Execution(r.view.books, None)
    decreases |evs| - i
  {
    hide Exec, Keyed, RunChain, ChainOutcomes, AfterChain, AcceptedEvents;
    if i == |evs| {
      AcceptedUniform(evs[i..], []);
    } else {
      var last := ChainEnd(evs, i);
      var run := RunChain(known, v, evs, i, last);
      var v' := AfterChain(v, run, evs, last);
      var head, rest := ChainOutcomes(run, evs, i, last), Rule(known, v', evs, last + 1);
      ChainApplies(known, v, evs, i, last);
      AcceptedEventsApply(known, v', evs, last + 1);
      Cut(evs, i, last + 1);
      Compose(v.books, evs[i..last + 1], head, v'.books, evs[last + 1..], rest.outcomes, rest.view.books);
    }
  }

  lemma {:induction false} ExecAllKeepsSound(b: Books, evs: seq<Transfer>)
    requires Sound(b) && ExecAll(b, evs).err.None?
    ensures Sound(ExecAll(b, evs).books)
    ensures SameAccounts(b.accounts, ExecAll(b, evs).books.accounts)
    decreases |evs|
  {
    if evs != [] {
      ExecKeepsSound(b, evs[0]);
      ExecAllKeepsSound(Exec(b, evs[0]).books, evs[1..]);
    }
  }

  /* ----- what a batch keeps ----- */

  lemma {:induction false} ExecAllConserves(b: Books, evs: seq<Transfer>, ledger: U32)
    requires Sound(b) && ExecAll(b, evs).err.None?
    ensures LedgerTotal(ExecAll(b, evs).books.accounts, ledger) == LedgerTotal(b.accounts, ledger)
    decreases |evs|
  {
    hide Exec, Sound;
    if evs != [] {
      ExecKeepsSound(b, evs[0]);
      ExecConserves(b, evs[0], ledger);
      ExecAllConserves(Exec(b, evs[0]).books, evs[1..], ledger);
    }
  }

  /** The same accounts, each with the same reserve beyond its open holds. */
  ghost predicate Tight(b: Books, b': Books) {
    && SameAccounts(b.accounts, b'.accounts)
    && forall side, a | a in b.accounts :: Surplus(b', side, a) == Surplus(b, side, a)
  }

  /** Every open hold has an id the duplicate test knows about. */
  predicate Indexed(known: set<Id>, v: View) {
    v.books.holds.Keys <= known + v.seen
  }

  lemma LegIsTight(known: set<Id>, v: View, t: Transfer)
    requires Sound(v.books) && Indexed(known, v)
    requires Validate(known, v, t).err.None?
    ensures var v' := Validate(known, v, t).view;
            Sound(v'.books) && Indexed(known, v') && v.seen <= v'.seen && Tight(v.books, v'.books)
  {
    StageAgreesWithExec(v.books, t);
    ExecKeepsSound(v.books, t);
    var v' := Validate(known, v, t).view;
    assert v'.books == Exec(v.books, t).books;
    assert v'.books.holds.Keys <= v.books.holds.Keys + (if IsSettlement(t) then {} else {t.id});
    forall side, a | a in v.books.accounts
      ensures Surplus(v'.books, side, a) == Surplus(v.books, side, a)
    {
      ExecSurplus(v.books, t, side, a);
    }
  }

  lemma RefusedLegKeepsSeen(known: set<Id>, v: View, t: Transfer)
    ensures v.seen <= Validate(known, v, t).view.seen
  {
  }

  lemma {:induction false} ChainIsTight(known: set<Id>, v: View, evs: seq<Transfer>, i: nat, last: nat)
    requires i <= last < |evs| && Sound(v.books) && Indexed(known, v)
    ensures match RunChain(known, v, evs, i, last)
            case Failed(_, _, seen) => v.seen <= seen
            case Completed(v') =>
              Sound(v'.books) && Indexed(known, v') && v.seen <= v'.seen && Tight(v.books, v'.books)
    decreases last - i
  {
    hide Validate, Sound, Surplus;
    var d := Validate(known, v, evs[i]);
    RefusedLegKeepsSeen(known, v, evs[i]);
    if d.err.None? {
      LegIsTight(known, v, evs[i]);
      if i < last {
        ChainIsTight(known, d.view, evs, i + 1, last);
      }
    }
  }

  /** Through a whole batch every account's reserve stays in step with its open holds, provided
    * the transfer index covers the holds open at its start. */
  lemma {:induction false} BatchIsTight(known: set<Id>, v: View, evs: seq<Transfer>, i: nat)
    requires i <= |evs| && Sound(v.books) && Indexed(known, v)
    ensures var v' := Rule(known, v, evs, i).view;
            Sound(v'.books) && Indexed(known, v') && Tight(v.books, v'.books)
    decreases |evs| - i
  {
    hide RunChain, Sound, Surplus;
    if i < |evs| {
      var last := ChainEnd(evs, i);
      ChainIsTight(known, v, evs, i, last);
      var v' := AfterChain(v, RunChain(known, v, evs, i, last), evs, last);
      BatchIsTight(known, v', evs, last + 1);
    }
  }

  /* ----- ids are used once ----- */

  /** The plain and pending transfers among `ts` have distinct ids, none of them in `used`. */
  predicate UniqueOpenings(ts: seq<Transfer>, used: set<Id>) {
    if ts == [] then true
    else if IsSettlement(ts[0]) then UniqueOpenings(ts[1..], used)
    else ts[0].id !in used && UniqueOpenings(ts[1..], used + {ts[0].id})
  }

  function OpeningIds(ts: seq<Transfer>): set<Id> {
    set i | 0 <= i < |ts| && !IsSettlement(ts[i]) :: ts[i].id
  }

  lemma {:induction false} UniqueWithFewer(ts: seq<Transfer>, used: set<Id>, fewer: set<Id>)
    requires UniqueOpenings(ts, used) && fewer <= used
    ensures UniqueOpenings(ts, fewer)
  {
    if ts != [] {
      if IsSettlement(ts[0]) {
        UniqueWithFewer(ts[1..], used, fewer);
      } else {
        UniqueWithFewer(ts[1..], used + {ts[0].id}, fewer + {ts[0].id});
      }
    }
  }

  lemma {:induction false} UniqueAppend(xs: seq<Transfer>, ys: seq<Transfer>, used: set<Id>)
    ensures UniqueOpenings(xs + ys, used) <==> UniqueOpenings(xs, used) && UniqueOpenings(ys, used + OpeningIds(xs))
  {
    if xs == [] {
      assert xs + ys == ys && used + OpeningIds(xs) == used;
    } else {
      assert (xs + ys)[1..] == xs[1..] + ys;
      var first := if IsSettlement(xs[0]) then {} else {xs[0].id};
      assert OpeningIds(xs) == first + OpeningIds(xs[1..]) by { OpeningIdsFirst(xs); }
      UniqueAppend(xs[1..], ys, used + first);
      assert used + first + OpeningIds(xs[1..]) == used + OpeningIds(xs);
      assert used + {} == used;
    }
  }

  lemma OpeningIdsFirst(xs: seq<Transfer>)
    requires xs != []
    ensures OpeningIds(xs) == (if IsSettlement(xs[0]) then {} else {xs[0].id}) + OpeningIds(xs[1..])
  {
    forall id | id in OpeningIds(xs)
      ensures id in (if IsSettlement(xs[0]) then {} else {xs[0].id}) + OpeningIds(xs[1..])
    {
      var i :| 0 <= i < |xs| && !IsSettlement(xs[i]) && xs[i].id == id;
      if i > 0 { assert xs[1..][i - 1] == xs[i]; }
    }
    forall id | id in OpeningIds(xs[1..])
      ensures id in OpeningIds(xs)
    {
      var i :| 0 <= i < |xs| - 1 && !IsSettlement(xs[1..][i]) && xs[1..][i].id == id;
      assert xs[i + 1] == xs[1..][i];
    }
  }

  lemma {:induction false} ChainIdsUnique(known: set<Id>, v: View, evs: seq<Transfer>, i: nat, last: nat)
    requires i <= last < |evs|
    ensures match RunChain(known, v, evs, i, last)
            case Failed(_, _, seen) => v.seen <= seen
            case Completed(v') =>
              && v.seen <= v'.seen && OpeningIds(evs[i..last + 1]) <= v'.seen
              && UniqueOpenings(evs[i..last + 1], known + v.seen)
    decreases last - i
  {
    hide Stage;
    var d := Validate(known, v, evs[i]);
    var part := evs[i..last + 1];
    assert part[0] == evs[i];
    if d.err.None? {
      OpeningIdsFirst(part);
      if i < last {
        assert part[1..] == evs[i + 1..last + 1];
        ChainIdsUnique(known, d.view, evs, i + 1, last);
        assert known + d.view.seen == (if IsSettlement(evs[i]) then known + v.seen else known + v.seen + {evs[i].id});
      } else {
        assert part[1..] == [] && OpeningIds([]) == {};
      }
    }
  }

  /** Accepted plain and pending transfers have ids that are new to the index and to the batch. */
  lemma {:induction false} AcceptedIdsUnique(known: set<Id>, v: View, evs: seq<Transfer>, i: nat)
    requires i <= |evs|
    ensures UniqueOpenings(AcceptedEvents(evs[i..], Rule(known, v, evs, i).outcomes), known + v.seen)
    decreases |evs| - i
  {
    hide RunChain, ChainOutcome, ChainOutcomes, AcceptedEvents, UniqueOpenings, ChainEnd;
    if i == |evs| {
      AcceptedUniform(evs[i..], []);
      UniqueNothing(known + v.seen);
    } else {
      var last := ChainEnd(evs, i);
      var run := RunChain(known, v, evs, i, last);
      var v' := AfterChain(v, run, evs, last);
      var head, rest := ChainOutcomes(run, evs, i, last), Rule(known, v', evs, last + 1).outcomes;
      var xs, ys := AcceptedEvents(evs[i..last + 1], head), AcceptedEvents(evs[last + 1..], rest);
      Cut(evs, i, last + 1);
      AcceptedAppend(evs[i..last + 1], head, evs[last + 1..], rest);
      ChainAccepted(run, evs, i, last);
      ChainIdsUnique(known, v, evs, i, last);
      AcceptedIdsUnique(known, v', evs, last + 1);
      UniqueNothing(known + v.seen);
      UniqueWithFewer(ys, known + v'.seen, known + v.seen + OpeningIds(xs));
      UniqueAppend(xs, ys, known + v.seen);
    }
  }

  lemma UniqueNothing(used: set<Id>)
    ensures UniqueOpenings([], used) && OpeningIds([]) == {}
  {
  }

  lemma ChainAccepted(run: ChainRun, evs: seq<Transfer>, i: nat, last: nat)
    requires i <= last < |evs| && (run.Failed? ==> run.at < |evs|)
    ensures AcceptedEvents(evs[i..last + 1], ChainOutcomes(run, evs, i, last))
         == if Accepted(run, evs, last) then evs[i..last + 1] else []
  {
    hide AcceptedEvents;
    AcceptedUniform(evs[i..last + 1], ChainOutcomes(run, evs, i, last));
  }
}
