/** Who a follower lets in, that it catches up, and when it starts over
  * (internal/replication/follower.go), over all its runs. */
module FollowerProgress {
  import opened Machine
  import opened Frames
  import opened Recovery
  import opened Skipping
  import opened Packing
  import opened Segments
  import opened SegmentRecovery
  import opened Wals
  import opened Restart
  import opened Replication
  import opened Following
  import opened FollowerLimits

  /* ----- who is let in ----- */

  /** Act `n` is a connection that was accepted. */
  ghost predicate Greeted(cfg: Config, log: seq<seq<Record>>, acts: seq<Act>, n: nat) {
    n < |acts| && acts[n].Dial? && HappenAll(cfg, log, acts[..n + 1]).session.Online?
  }

  /** Every primary accepted so far has at most this term. */
  ghost predicate Newest(cfg: Config, log: seq<seq<Record>>, acts: seq<Act>, term: nat) {
    forall n: nat | Greeted(cfg, log, acts, n) :: acts[n].term <= term
  }

  /** The follower's term is that of some accepted primary, or 0 before there was one, and no accepted
    * primary has a higher one. */
  lemma {:induction false} TermIsGreatest(cfg: Config, log: seq<seq<Record>>, acts: seq<Act>)
    ensures var top := HappenAll(cfg, log, acts).f.term;
            && Newest(cfg, log, acts, top)
            && (top == 0 || exists n: nat :: Greeted(cfg, log, acts, n) && acts[n].term == top)
    decreases |acts|
  {
    hide Happen;
    if acts != [] {
      var m := |acts| - 1;
      var before, s := HappenAll(cfg, log, acts[..m]), HappenAll(cfg, log, acts);
      TermIsGreatest(cfg, log, acts[..m]);
      assert acts[..m + 1] == acts;
      assert forall n | 0 <= n < m :: acts[..m][..n + 1] == acts[..n + 1] && acts[..m][n] == acts[n];
      assert forall n | 0 <= n < m :: Greeted(cfg, log, acts, n) <==> Greeted(cfg, log, acts[..m], n);
      ActTerm(cfg, log, before, acts[m]);
      if before.f.term != 0 && s.f.term == before.f.term {
        var n: nat :| Greeted(cfg, log, acts[..m], n) && acts[..m][n].term == before.f.term;
        assert Greeted(cfg, log, acts, n) && acts[n].term == s.f.term;
      } else if s.f.term != 0 {
        assert Greeted(cfg, log, acts, m) && acts[m].term == s.f.term;
      }
    }
  }

  /** One act and the term. */
  lemma ActTerm(cfg: Config, log: seq<seq<Record>>, s: System, act: Act)
    ensures var s' := Happen(cfg, log, s, act);
            && s.f.term <= s'.f.term
            && (s'.f.term != s.f.term ==> act.Dial? && s'.session.Online? && s'.f.term == act.term)
            && (act.Dial? && s'.session.Online? ==> act.term <= s'.f.term)
  {
    hide Receive, Reopen, Failure, Log, Batches, Crashed;
    ActKeepsTerm(cfg, log, s, act);
    if !act.Dial? { OnlyDialling(cfg, log, s, act); }
  }

  lemma OnlyDialling(cfg: Config, log: seq<seq<Record>>, s: System, act: Act)
    requires !act.Dial?
    ensures Happen(cfg, log, s, act).f.term == s.f.term
  {
    hide Receive, Reopen, Failure, Log, Batches, Crashed;
    var all := Log(Batches(log));
    match act
    case Deliver(term) =>
      if s.session.Online? && s.session.at < |all| { TermNeverFalls(cfg, s.f, term, all[s.session.at]); }
    case Announce(term, head) => TermNeverFalls(cfg, s.f, term, WalRecord(0, HEAD, head));
    case Drop => TermNeverFalls(cfg, s.f, 0, WalRecord(0, HEAD, []));
    case Crash(p, c) =>
      CrashKeepsTerm(cfg, s.f, p, c);
      TermNeverFalls(cfg, Crashed(cfg, s.f, p, c), 0, WalRecord(0, HEAD, []));
    case Wipe(n) =>
      if n <= |Files(s.f.wal)| { TermNeverFalls(cfg, Wiped(s.f, n), 0, WalRecord(0, HEAD, [])); }
  }

  /** After every run, allowed or not: dialling a primary opens a stream if and only if no primary
    * accepted before has a higher term, so the same primary is let in again; the stream starts where
    * it was asked to, the term becomes the primary's and the failures are forgotten; otherwise the
    * follower stays offline with its term and its failures. */
  lemma DialExactly(cfg: Config, log: seq<seq<Record>>, acts: seq<Act>, term: nat, at: nat)
    ensures var s := HappenAll(cfg, log, acts);
            var s' := HappenAll(cfg, log, acts + [Dial(term, at)]);
            && (s'.session.Online? <==> Newest(cfg, log, acts, term))
            && (if s'.session.Online? then
                  s'.session == Online(at) && s'.f == s.f.(pending := [], term := term, failures := 0)
                else s'.f == s.f.(pending := []))
  {
    hide HappenAll;
    var s := HappenAll(cfg, log, acts);
    TermIsGreatest(cfg, log, acts);
    HappenNext(cfg, log, acts, Dial(term, at));
    if s.f.term != 0 {
      var n: nat :| Greeted(cfg, log, acts, n) && acts[n].term == s.f.term;
    }
  }

  lemma HappenNext(cfg: Config, log: seq<seq<Record>>, acts: seq<Act>, act: Act)
    ensures HappenAll(cfg, log, acts + [act]) == Happen(cfg, log, HappenAll(cfg, log, acts), act)
  {
    hide Happen;
    assert (acts + [act])[..|acts|] == acts;
  }

  /* ----- progress ----- */

  /** The next `n` frames of a primary of this term. */
  function Delivered(term: nat, n: nat): (acts: seq<Act>)
    ensures |acts| == n
  {
    seq(n, _ => Deliver(term))
  }

  /** Frame after frame of the primary that was let in, the stream stays open. */
  lemma {:induction false} KeepsStreaming(cfg: Config, es: seq<Event>, acts: seq<Act>, term: nat, n: nat)
    requires Primary(cfg, es) && AllAllowed(cfg, Run(START, es).log, acts)
    requires var log := Run(START, es).log;
             var s := HappenAll(cfg, log, acts);
             s.session.Online? && s.f.term <= term && s.session.at + n <= |Log(Batches(log))|
    ensures var log := Run(START, es).log;
            var s, s' := HappenAll(cfg, log, acts), HappenAll(cfg, log, acts + Delivered(term, n));
            && AllAllowed(cfg, log, acts + Delivered(term, n))
            && s'.session == Online(s.session.at + n) && s'.f.term == s.f.term
    decreases n
  {
    hide Run, HappenAll, AllAllowed, Log, Batches, Happen, Served, Small;
    var log := Run(START, es).log;
    if n == 0 {
      assert acts + Delivered(term, 0) == acts;
    } else {
      KeepsStreaming(cfg, es, acts, term, n - 1);
      var more := acts + Delivered(term, n - 1);
      assert acts + Delivered(term, n) == more + [Deliver(term)];
      DeliverAny(cfg, log, HappenAll(cfg, log, more), term);
      MoreAllowed(cfg, log, more, Deliver(term));
      NextFrame(cfg, es, more, term);
    }
  }

  lemma DeliverAny(cfg: Config, log: seq<seq<Record>>, s: System, term: nat)
    ensures Allowed(cfg, log, s, Deliver(term))
  {
  }

  lemma NextFrame(cfg: Config, es: seq<Event>, acts: seq<Act>, term: nat)
    requires Primary(cfg, es) && AllAllowed(cfg, Run(START, es).log, acts)
    requires var log := Run(START, es).log;
             var s := HappenAll(cfg, log, acts);
             s.session.Online? && s.f.term <= term && s.session.at < |Log(Batches(log))|
    ensures var log := Run(START, es).log;
            var s := HappenAll(cfg, log, acts);
            var s' := Happen(cfg, log, s, Deliver(term));
            s'.session == Online(s.session.at + 1) && s'.f.term == s.f.term
  {
    hide Run, HappenAll, AllAllowed, Log, Batches, Served, Receive, Follows, Buffers;
    var log := Run(START, es).log;
    var s := HappenAll(cfg, log, acts);
    var k := FollowerKeepsUp(cfg, es, acts);
    BelowThreshold(cfg, log, s.f, k, s.session.at);
    var _ := FrameFollows(cfg, es, s.f, k, s.session.at, term);
  }

  /** In a journal of small batches no frame reaches the threshold before its commit marker. */
  lemma BelowThreshold(cfg: Config, log: seq<seq<Record>>, f: Follower, k: nat, at: nat)
    requires Small(log)
    ensures k < |log| && f.lastLSN <= at < f.lastLSN + |log[k]| ==> at + 1 - f.lastLSN < FLUSH_THRESHOLD
  {
  }

  /** From every allowed run that left the follower offline: dialling any primary that none before it
    * outranks, and asking for the stream from the applied LSN, is allowed; delivering the rest of the
    * log keeps the stream open to its end; and then the follower has the primary's ledger. */
  lemma CatchesUp(cfg: Config, es: seq<Event>, acts: seq<Act>, term: nat)
    requires Primary(cfg, es) && AllAllowed(cfg, Run(START, es).log, acts)
    requires HappenAll(cfg, Run(START, es).log, acts).session.Offline? && Newest(cfg, Run(START, es).log, acts, term)
    ensures var log, live := Run(START, es).log, Run(START, es);
            var from, end := HappenAll(cfg, log, acts).f.lastLSN, |Log(Batches(log))|;
            && from <= end
            && var more := acts + [Dial(term, from)] + Delivered(term, end - from);
               var s := HappenAll(cfg, log, more);
               && AllAllowed(cfg, log, more) && s.session == Online(end)
               && CloseExpired(s.f.state, live.clock) == live.state && s.f.lastLSN == LastLSN(Batches(log))
  {
    hide Run, HappenAll, AllAllowed, Log, Batches, Served, Happen, Newest, CloseExpired, LastLSN, Small;
    var log := Run(START, es).log;
    var s, end := HappenAll(cfg, log, acts), |Log(Batches(log))|;
    PositionInLog(cfg, es, acts);
    var dial := Dial(term, s.f.lastLSN);
    DialExactly(cfg, log, acts, term, s.f.lastLSN);
    DialAllowed(cfg, log, s, term);
    MoreAllowed(cfg, log, acts, dial);
    KeepsStreaming(cfg, es, acts + [dial], term, end - s.f.lastLSN);
    CaughtUpFollower(cfg, es, acts + [dial] + Delivered(term, end - s.f.lastLSN));
  }

  lemma DialAllowed(cfg: Config, log: seq<seq<Record>>, s: System, term: nat)
    requires s.session.Offline?
    ensures Allowed(cfg, log, s, Dial(term, s.f.lastLSN))
  {
  }

  lemma PositionInLog(cfg: Config, es: seq<Event>, acts: seq<Act>)
    requires Primary(cfg, es) && AllAllowed(cfg, Run(START, es).log, acts)
    ensures var log := Run(START, es).log;
            HappenAll(cfg, log, acts).f.lastLSN <= |Log(Batches(log))|
  {
    hide Run, HappenAll, AllAllowed, Log, Served, Stores, LastLSN, Small;
    var log := Run(START, es).log;
    var k := FollowerKeepsUp(cfg, es, acts);
    PrefixBatches(log, k);
    LSNsGrow(Batches(log), k);
    LogPositions(Batches(log));
  }

  /* ----- the circuit breaker ----- */

  function Failing(n: nat): (acts: seq<Act>)
    ensures |acts| == n
  {
    seq(n, _ => Drop)
  }

  /** After every run, failures in a row: below the limit they cost nothing but what was buffered, and
    * they are counted; the one that reaches it empties WAL and ledger, the position goes back to 0 and
    * the count starts again, while the accepted term stays. */
  lemma {:induction false} BreakerExactly(cfg: Config, log: seq<seq<Record>>, acts: seq<Act>, n: nat)
    requires 0 < n && HappenAll(cfg, log, acts).f.failures + n <= cfg.limit
    ensures var s, s' := HappenAll(cfg, log, acts), HappenAll(cfg, log, acts + Failing(n));
            && s'.session.Offline? && s'.f.pending == [] && s'.f.term == s.f.term
            && (s.f.failures + n < cfg.limit ==>
                  && s'.f.failures == s.f.failures + n && s'.f.wal == s.f.wal && s'.f.walLSN == s.f.walLSN
                  && s'.f.state == s.f.state && s'.f.lastLSN == s.f.lastLSN)
            && (s.f.failures + n == cfg.limit ==>
                  && s'.f.failures == 0 && s'.f.wal == Layout([], []) && s'.f.walLSN == 0
                  && s'.f.state == EMPTY && s'.f.lastLSN == 0)
  {
    hide HappenAll;
    var before := acts + Failing(n - 1);
    assert acts + Failing(n) == before + [Drop];
    HappenNext(cfg, log, before, Drop);
    if n == 1 {
      assert before == acts;
    } else {
      BreakerExactly(cfg, log, acts, n - 1);
    }
  }

  /* ----- one frame ----- */

  /** The frame ends the buffered batch, or makes it too large to wait for the end. */
  predicate Flushes(f: Follower, r: WalRecord) {
    r.kind == 4 || (r.kind != 5 && r.lsn > f.lastLSN && |f.pending| + 1 >= 4096)
  }

  /** The batch that is flushed then. */
  function Buffer(f: Follower, r: WalRecord): seq<WalRecord> {
    if r.kind == 4 then f.pending else f.pending + [r]
  }

  /** The local WAL takes the batch: each record has a type and fits a segment, and so does the marker. */
  predicate Journals(max: nat, rs: seq<WalRecord>) {
    && (rs != [] ==> 29 <= max)
    && forall i | 0 <= i < |rs| ::
         rs[i].kind != 0 && |rs[i].payload| < 4294967296 && |rs[i].payload| + 17 <= max
  }

  lemma JournalsIs(max: nat, rs: seq<WalRecord>)
    ensures Journals(max, rs) <==> rs == [] || (Encodable(Items(rs), max) == |rs| && COMMIT_SIZE <= max)
  {
    var items := Items(rs);
    assert forall i | 0 <= i < |rs| :: items[i] == Item(rs[i].kind, rs[i].payload);
    if Encodable(items, max) == |rs| { EncodableFit(items, max); }
    if Journals(max, rs) { EncodableIs(items, max, |rs|); }
  }

  /** The stream of a primary that is not outranked stays open after a frame exactly when there is
    * nothing to flush, or the buffered batch can be journaled and applied. */
  lemma FrameExactly(cfg: Config, f: Follower, term: nat, r: WalRecord)
    requires f.term <= term
    ensures var batch := Buffer(f, r);
            Receive(cfg, f, term, r).up <==>
              (Flushes(f, r) ==> Journals(cfg.max, batch) && HandleAll(f.state, batch).err.None?)
  {
    hide HandleAll, Encodable, Journals, PlaceAll, FramesOf, Sealed;
    JournalsIs(cfg.max, Buffer(f, r));
    HandlesNothing(f.state);
  }

  lemma HandlesNothing(s: State)
    ensures HandleAll(s, []).state == s && HandleAll(s, []).err.None?
  {
  }

  /** What it leaves: a head announcement and a record already applied change nothing, another record
    * waits; a batch is journaled under the next local LSNs and applied; its marker moves the position. */
  lemma FrameLeaves(cfg: Config, f: Follower, term: nat, r: WalRecord)
    requires f.term <= term && Receive(cfg, f, term, r).up
    ensures var g, batch := Receive(cfg, f, term, r).f, Buffer(f, r);
            && (!Flushes(f, r) ==>
                  g == f.(pending := if r.kind == 5 || r.lsn <= f.lastLSN then f.pending else f.pending + [r]))
            && (Flushes(f, r) ==>
                  && g.pending == [] && g.state == HandleAll(f.state, batch).state
                  && g.walLSN == (if batch == [] then f.walLSN else f.walLSN + |batch| + 1)
                  && g.lastLSN == (if r.kind == 4 && r.lsn > f.lastLSN then r.lsn else f.lastLSN))
            && g.term == f.term && g.failures == f.failures
  {
    hide HandleAll, Encodable, PlaceAll, FramesOf, Sealed;
    HandlesNothing(f.state);
  }

  /** A frame that ends the stream counts as one failure; the batch is gone, and unless the breaker
    * trips the position and the term are as before. */
  lemma FrameFails(cfg: Config, f: Follower, term: nat, r: WalRecord)
    requires f.term <= term && !Receive(cfg, f, term, r).up
    ensures var g := Receive(cfg, f, term, r).f;
            && g.pending == [] && g.term == f.term
            && if f.failures + 1 < cfg.limit then g.failures == f.failures + 1 && g.lastLSN == f.lastLSN
               else g == Follower(Layout([], []), 0, EMPTY, 0, f.term, 0, [])
  {
    hide HandleAll, Encodable, PlaceAll, FramesOf, Sealed;
  }

  /** A restart forgets the failures and what was buffered; the accepted term is kept. */
  lemma RestartForgets(cfg: Config, log: seq<seq<Record>>, acts: seq<Act>, p: nat, c: nat)
    ensures var f, f' := HappenAll(cfg, log, acts).f, HappenAll(cfg, log, acts + [Crash(p, c)]).f;
            f'.failures == 0 && f'.pending == [] && f'.term == f.term
  {
    hide HappenAll, ReplayDisk, DiskAfter, HandleAll, PlaceAll;
    HappenNext(cfg, log, acts, Crash(p, c));
  }
}
