/** Posted balances over whole runs: they stay non-negative exactly while no post exceeds the posted
  * balance of its payer (internal/engine/accounts.go). */
module Solvency {
  import opened Core
  import opened Engine
  import opened Holds
  import opened Expiry
  import opened Batch
  import opened Machine
  import opened Replaying
  import opened Accounting

  /** The transfer is no post, or posts at most the payer's posted balance. */
  predicate Covered(b: Books, t: Transfer) {
    IsPost(t) && t.id in b.holds && b.holds[t.id].debit in b.accounts ==>
      var p := b.holds[t.id];
      var d := b.accounts[p.debit];
      d.postedDebits + Settled(p, t) <= d.postedCredits
  }

  predicate AllCovered(b: Books, ts: seq<Transfer>)
    decreases |ts|
  {
    ts != [] ==> Covered(b, ts[0]) && AllCovered(Exec(b, ts[0]).books, ts[1..])
  }

  /** No account is overdrawn after any of the transfers. */
  predicate SolventThroughout(b: Books, ts: seq<Transfer>)
    decreases |ts|
  {
    Solvent(b.accounts) && (ts != [] ==> SolventThroughout(Exec(b, ts[0]).books, ts[1..]))
  }

  lemma {:induction false} CoveredIsSolvent(b: Books, ts: seq<Transfer>)
    requires Sound(b) && Solvent(b.accounts) && ExecAll(b, ts).err.None?
    ensures SolventThroughout(b, ts) <==> AllCovered(b, ts)
    ensures SolventThroughout(b, ts) ==> Solvent(ExecAll(b, ts).books.accounts)
    decreases |ts|
  {
    hide Exec, Sound, Solvent, Settled;
    if ts != [] {
      var b' := Exec(b, ts[0]).books;
      SolvencyExactly(b, ts[0]);
      ExecKeepsSound(b, ts[0]);
      if Solvent(b'.accounts) {
        CoveredIsSolvent(b', ts[1..]);
      }
    }
  }

  /** The books a batch meets, and the events it journals. */
  ghost function BatchBooks(l: Live, now: I64): Books {
    CloseAt(l.state.books, BatchClock(l.clock, now))
  }

  ghost function Journaled(l: Live, now: I64, evs: seq<Transfer>): seq<Transfer> {
    var stamped := Stamped(evs, BatchClock(l.clock, now));
    AcceptedEvents(stamped, RuleBatch(l.state.transfers.Keys, BatchBooks(l, now), stamped).outcomes)
  }

  ghost predicate CoveredStep(l: Live, e: Event) {
    e.Transfers? ==> AllCovered(BatchBooks(l, e.now), Journaled(l, e.now, e.transfers))
  }

  ghost predicate SolventStep(l: Live, e: Event) {
    e.Transfers? ==> SolventThroughout(BatchBooks(l, e.now), Journaled(l, e.now, e.transfers))
  }

  lemma StepSolvency(l: Live, e: Event)
    requires InOrder(l) && Solvent(l.state.books.accounts)
    ensures SolventStep(l, e) <==> CoveredStep(l, e)
    ensures SolventStep(l, e) ==> Solvent(Step(l, e).state.books.accounts)
  {
    hide Sound, CloseAt, RuleBatch, AcceptedEvents, ApplyBatch, Accounted, Solvent, Stamped, Admitted, CreateAll,
      SolventThroughout, AllCovered;
    match e
    case Accounts(accs) =>
      AdmittedSolvent(l.state.books, accs);
    case Transfers(now, evs) =>
      var b, ts := BatchBooks(l, now), Journaled(l, now, evs);
      var clock := BatchClock(l.clock, now);
      CloseKeepsSound(l.state.books, clock);
      CloseKeepsSolvent(l.state.books, clock);
      LiveBatch(CloseExpired(l.state, clock), Stamped(evs, clock));
      ApplyAllBooks(CloseExpired(l.state, clock), ts);
      CoveredIsSolvent(b, ts);
  }

  lemma CloseKeepsSolvent(b: Books, clock: int)
    requires Solvent(b.accounts)
    ensures Solvent(CloseAt(b, clock).accounts)
  {
  }

  lemma {:induction false} CreateAllSolvent(b: Books, accs: seq<Account>)
    requires Solvent(b.accounts) && forall i | 0 <= i < |accs| :: Balance(accs[i]).Ok?
    ensures Solvent(CreateAll(b, accs).accounts)
  {
    if accs != [] { CreateAllSolvent(b, accs[..|accs| - 1]); }
  }

  lemma AdmittedSolvent(b: Books, accs: seq<Account>)
    requires Solvent(b.accounts)
    ensures Solvent(CreateAll(b, Admitted(b, accs)).accounts)
  {
    hide Solvent;
    AdmittedBalances(b, accs);
    CreateAllSolvent(b, Admitted(b, accs));
  }

  lemma {:induction false} AdmittedBalances(b: Books, accs: seq<Account>)
    ensures forall i | 0 <= i < |Admitted(b, accs)| :: Balance(Admitted(b, accs)[i]).Ok?
  {
    if accs != [] { AdmittedBalances(b, accs[1..]); }
  }

  /** Every post of the run is covered at its moment. */
  ghost predicate CoveredRun(es: seq<Event>) {
    es != [] ==> CoveredRun(es[..|es| - 1]) && CoveredStep(Run(START, es[..|es| - 1]), es[|es| - 1])
  }

  /** No account is overdrawn after any accepted event of any batch. */
  ghost predicate SolventRun(es: seq<Event>) {
    es != [] ==> SolventRun(es[..|es| - 1]) && SolventStep(Run(START, es[..|es| - 1]), es[|es| - 1])
  }

  /** For every run: no account is ever overdrawn if and only if every post is covered by the
    * payer's posted balance; and then none is at the end. */
  lemma {:induction false} RunSolvency(es: seq<Event>)
    ensures SolventRun(es) <==> CoveredRun(es)
    ensures CoveredRun(es) ==> Solvent(Run(START, es).state.books.accounts)
  {
    hide SolventStep, CoveredStep, Step, InOrder;
    if es != [] {
      var n := |es| - 1;
      RunSolvency(es[..n]);
      RunInOrder(es[..n]);
      if CoveredRun(es[..n]) { StepSolvency(Run(START, es[..n]), es[n]); }
    }
  }
}
