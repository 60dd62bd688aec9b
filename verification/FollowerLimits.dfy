/** Where a follower stops following (internal/replication/follower.go): restarts on files that
  * recovery cuts too far, re-syncs stopped half way, and batches at the flush threshold. */
module FollowerLimits {
  import opened Core
  import opened Machine
  import opened Replaying
  import opened Frames
  import opened Recovery
  import opened Segments
  import opened Truncation
  import opened SegmentRecovery
  import opened Skipping
  import opened Packing
  import opened Wals
  import opened Restart
  import opened Replication
  import opened Following

  ghost predicate FollowsSome(cfg: Config, log: seq<seq<Record>>, f: Follower) {
    exists k :: Follows(cfg, log, f, k)
  }

  /* ----- restarts ----- */

  /** A restart that cuts a segment which begins in mid-batch follows no number of batches. */
  lemma ReopenLoses(cfg: Config, es: seq<Event>, f: Follower, j: nat,
                    parts: seq<seq<WalRecord>>, last: seq<WalRecord>, c: nat, k': nat)
    requires Served(cfg, es) && j <= |Run(START, es).log|
    requires Joined(parts) + last == Log(Batches(Run(START, es).log[..j])) && c <= |Written(cfg.crc, last)|
    requires Files(f.wal) == OnDisk(cfg.crc, parts) + [Written(cfg.crc, last)[..c]]
    requires !Restartable(cfg.crc, Files(f.wal))
    ensures !Follows(cfg, Run(START, es).log, Reopen(cfg, f).f, k')
  {
    hide AdmissibleRun, Run, Replay, Flatten, LastLSN, Log, Stores, Joined, Written, OnDisk, Seen, Aligned, Data,
      AppliedLSN, HandleAll, DiskAfter, ReplayDisk, Durable, Loggable, Whole, Carries, KeptParts, AllFit;
    var crc, log := cfg.crc, Run(START, es).log;
    var bs := Batches(log[..j]);
    PrimaryLog(cfg, es);
    PrefixBatches(log, j);
    LSNsGrow(Batches(log), j);
    var k := Durable(crc, bs, |Written(crc, Joined(parts))| + c);
    assert log[..j][..k] == log[..k];
    PrefixBatches(log[..j], k);
    TornTailRecovery(crc, bs, parts, last, c);
    RecoveredDisk(crc, bs, parts, last, c);
    SeenOfLog(crc, bs, parts, last, c);
    SeenCut(crc, parts, last, c);
    AppliedOfData(bs[..k]);
    var g := Reopen(cfg, f).f;
    ReopenedFiles(cfg, f);
    if Follows(cfg, log, g, k') {
      SameBatch(log, k, k');
      LSNsGrow(Batches(log), k);
      PrefixBatches(log, k);
      StoredDelivers(crc, bs[..k], g.wal);
      assert false;
    }
  }

  lemma ReopenedFiles(cfg: Config, f: Follower)
    ensures Files(Reopen(cfg, f).f.wal) == DiskAfter(cfg.crc, Files(f.wal))
  {
    hide DiskAfter, ReplayDisk, HandleAll;
    SomethingLeft(cfg.crc, Files(f.wal));
  }

  /** Different numbers of batches end at different LSNs. */
  lemma SameBatch(log: seq<seq<Record>>, k: nat, k': nat)
    requires k <= |log| && k' <= |log| && LastLSN(Batches(log[..k])) == LastLSN(Batches(log[..k']))
    ensures k == k'
  {
    hide LastLSN;
    PrefixBatches(log, k);
    PrefixBatches(log, k');
    if k < k' { LSNsOrdered(Batches(log), k, k'); }
    if k' < k { LSNsOrdered(Batches(log), k', k); }
  }

  /** Files that hold the log of some batches deliver these batches. */
  lemma StoredDelivers(crc: Checksum, bs: seq<Recovery.Batch>, wal: Layout)
    requires AllLoggable(bs) && LastLSN(bs) < TWO_63 && Stores(crc, wal, Log(bs))
    ensures ReplayDisk(crc, Files(wal), FRESH).state.delivered == Data(bs)
  {
    hide ReplayDisk, FeedAll, Log, Joined, LastLSN, Loggable, OnDisk, Written, Framable;
    var parts, last :| Holding(crc, wal, parts, last) && Joined(parts) + last == Log(bs);
    JoinedAppend(parts, [last]);
    JoinedOne(last);
    OnDiskAppend(crc, parts, last);
    LogFramable(bs);
    ReplayWhole(crc, parts + [last]);
    FeedLog(bs);
  }

  /** For every run and every crash after it: the restarted follower is in step if and only if the
    * files are restartable. */
  lemma RestartFollowsExactly(cfg: Config, es: seq<Event>, acts: seq<Act>, p: nat, c: nat)
    requires Primary(cfg, es) && AllAllowed(cfg, Run(START, es).log, acts)
    requires Underway(Run(START, es).log, HappenAll(cfg, Run(START, es).log, acts), p)
    ensures var log := Run(START, es).log;
            var s := HappenAll(cfg, log, acts);
            FollowsSome(cfg, log, Happen(cfg, log, s, Crash(p, c)).f)
            <==> Restartable(cfg.crc, Files(Crashed(cfg, s.f, p, c).wal))
  {
    hide Served, Run, HappenAll, Follows, Log, Joined, Written, OnDisk, Crashed, Restartable, Reopen, ReplayDisk, Data,
      Batches;
    var log := Run(START, es).log;
    var s := HappenAll(cfg, log, acts);
    var k := FollowerKeepsUp(cfg, es, acts);
    if p > 0 { CommitArrived(cfg, es, s.f, k, s.session.at); }
    var g := Crashed(cfg, s.f, p, c);
    if Restartable(cfg.crc, Files(g.wal)) {
      var k' := CrashFollows(cfg, es, s.f, k, p, c);
    } else {
      var j, parts, last, c' := CrashedFiles(cfg, log, s.f, k, p, c);
      forall k' ensures !Follows(cfg, log, Reopen(cfg, g).f, k') {
        ReopenLoses(cfg, es, g, j, parts, last, c', k');
      }
    }
  }

  /* ----- interrupted re-syncs ----- */

  /** Records that end with a commit marker leave nothing pending. */
  lemma NothingPending(rs: seq<WalRecord>)
    requires rs != [] && rs[|rs| - 1].kind == BATCH_COMMIT
    ensures FeedAll(FRESH, rs).pending == []
  {
    hide FeedAll;
    var n := |rs| - 1;
    assert rs == rs[..n] + [rs[n]];
    FeedAppend(FRESH, rs[..n], [rs[n]]);
    FeedOne(FeedAll(FRESH, rs[..n]), rs[n]);
  }

  /** The segments left by an interrupted re-sync, which lack the first `d` records. */
  lemma LateSegments(crc: Checksum, bs: seq<Recovery.Batch>, ps: seq<seq<WalRecord>>, d: nat, wal: Layout,
                     bs': seq<Recovery.Batch>)
    requires AllLoggable(bs) && LastLSN(bs) < TWO_63 && AllLoggable(bs') && LastLSN(bs') < TWO_63
    requires 0 < d < |Log(bs)| && Joined(ps) == Log(bs)[d..]
    requires Files(wal) == DiskAfter(crc, OnDisk(crc, ps))
    ensures !Stores(crc, wal, Log(bs'))
  {
    hide ReplayDisk, FeedAll, Log, Joined, LastLSN, Loggable, OnDisk, Written, Framable, Kept;
    var rs := Joined(ps);
    LogFramable(bs);
    LogOfNothing();
    LogEndsInCommit(bs);
    assert rs[|rs| - 1] == Log(bs)[|Log(bs)| - 1];
    assert forall i | 0 <= i < |rs| :: rs[i] == Log(bs)[d + i];
    ReplayWhole(crc, ps);
    NothingPending(rs);
    if Stores(crc, wal, Log(bs')) {
      var parts, last :| Holding(crc, wal, parts, last) && Joined(parts) + last == Log(bs');
      JoinedAppend(parts, [last]);
      JoinedOne(last);
      OnDiskAppend(crc, parts, last);
      LogFramable(bs');
      SameSegments(crc, ps, parts + [last]);
      LogPositions(bs);
      LogPositions(bs');
      assert false;
    }
  }

  /** Segments determine their records. */
  lemma SameSegments(crc: Checksum, ps: seq<seq<WalRecord>>, qs: seq<seq<WalRecord>>)
    requires AllFramable(Joined(ps)) && AllFramable(Joined(qs)) && OnDisk(crc, ps) == OnDisk(crc, qs)
    ensures ps == qs
  {
    hide Framable, Joined, Written, Parse;
    forall i | 0 <= i < |ps| ensures |ps| == |qs| && ps[i] == qs[i] {
      PartFramable(ps, i);
      PartFramable(qs, i);
      ParseAll(crc, ps[i]);
      ParseAll(crc, qs[i]);
      assert OnDisk(crc, ps)[i] == OnDisk(crc, qs)[i];
    }
  }

  /** Segments with records were removed and others are left. */
  lemma WipeLoses(cfg: Config, es: seq<Event>, f: Follower, k: nat, n: nat, k': nat)
    requires Served(cfg, es) && Follows(cfg, Run(START, es).log, f, k)
    requires n <= |Files(f.wal)| && !Separated(Files(f.wal), n)
    ensures !Follows(cfg, Run(START, es).log, Reopen(cfg, Wiped(f, n)).f, k')
  {
    hide AdmissibleRun, Run, Replay, Flatten, LastLSN, Log, Stores, Joined, Written, Data, AppliedLSN, HandleAll,
      DiskAfter, ReplayDisk, Loggable, AllFit, Wiped;
    var crc, log := cfg.crc, Run(START, es).log;
    var bs := Batches(log[..k]);
    PrimaryLog(cfg, es);
    PrefixBatches(log, k);
    LSNsGrow(Batches(log), k);
    var all := WipedFiles(crc, f, Log(bs), n);
    SplitSegments(crc, all, n);
    var ps, g := all[n..], Reopen(cfg, Wiped(f, n)).f;
    ReopenedFiles(cfg, Wiped(f, n));
    if Follows(cfg, log, g, k') {
      PrefixBatches(log, k');
      LSNsGrow(Batches(log), k');
      LateSegments(crc, bs, ps, |Joined(all[..n])|, g.wal, Batches(log[..k']));
    }
  }

  lemma SplitSegments(crc: Checksum, all: seq<seq<WalRecord>>, n: nat)
    requires n <= |all| && !Separated(OnDisk(crc, all), n)
    ensures n < |all| && 0 < |Joined(all[..n])| < |Joined(all)|
    ensures Joined(all[n..]) == Joined(all)[|Joined(all[..n])|..]
  {
    hide Joined, Written;
    JoinedAppend(all[..n], all[n..]);
    assert all[..n] + all[n..] == all;
    EmptyFiles(crc, all[..n]);
    EmptyFiles(crc, all[n..]);
    assert forall i | 0 <= i < n :: OnDisk(crc, all[..n])[i] == OnDisk(crc, all)[i];
    assert forall i | 0 <= i < |all| - n :: OnDisk(crc, all[n..])[i] == OnDisk(crc, all)[n + i];
    assert forall i | n <= i < |all| :: OnDisk(crc, all)[i] == OnDisk(crc, all[n..])[i - n];
  }

  /** For every run and every re-sync after it that the process does not survive: the restarted
    * follower is in step if and only if the removed segments or the ones left are empty. */
  lemma InterruptedResyncExactly(cfg: Config, es: seq<Event>, acts: seq<Act>, n: nat)
    requires Primary(cfg, es) && AllAllowed(cfg, Run(START, es).log, acts)
    requires Tripping(cfg, HappenAll(cfg, Run(START, es).log, acts), n)
    ensures var log := Run(START, es).log;
            var s := HappenAll(cfg, log, acts);
            FollowsSome(cfg, log, Happen(cfg, log, s, Wipe(n)).f) <==> Separated(Files(s.f.wal), n)
  {
    hide Served, Run, HappenAll, Follows, Log, Reopen, Wiped, Separated, Data, Batches;
    var log := Run(START, es).log;
    var s := HappenAll(cfg, log, acts);
    var k := FollowerKeepsUp(cfg, es, acts);
    if Separated(Files(s.f.wal), n) {
      var k' := WipeFollows(cfg, es, s.f, k, n);
    } else {
      forall k' ensures !Follows(cfg, log, Reopen(cfg, Wiped(s.f, n)).f, k') {
        WipeLoses(cfg, es, s.f, k, n, k');
      }
    }
  }

  /* ----- batches at the flush threshold ----- */

  /** A connection that delivers `n` records. */
  function Delivering(n: nat): (acts: seq<Act>)
    ensures |acts| == n + 1
  {
    if n == 0 then [Dial(1, 0)] else Delivering(n - 1) + [Deliver(1)]
  }

  /** The stream of a new follower has delivered `n` records, and it is in step. */
  ghost predicate Advanced(cfg: Config, log: seq<seq<Record>>, s: System, k: nat, i: nat, n: nat) {
    && s.session == Online(n) && s.f.term == 1 && s.f.failures == 0 && s.f.lastLSN <= n && k <= i
    && Follows(cfg, log, s.f, k) && Buffers(log, s.f, k, s.session)
  }

  /** The first batch at the threshold is batch `i`. */
  predicate FirstLarge(log: seq<seq<Record>>, i: nat) {
    i < |log| && |log[i]| >= FLUSH_THRESHOLD && forall j | 0 <= j < i :: |log[j]| < FLUSH_THRESHOLD
  }

  /** Through the small batches and up to the threshold, every frame keeps the follower in step. */
  lemma {:induction false} DeliveringFollows(cfg: Config, es: seq<Event>, i: nat, n: nat) returns (k: nat)
    requires Served(cfg, es) && FirstLarge(Run(START, es).log, i)
    requires n < LastLSN(Batches(Run(START, es).log[..i])) + FLUSH_THRESHOLD
    ensures var log := Run(START, es).log;
            AllAllowed(cfg, log, Delivering(n)) && Advanced(cfg, log, HappenAll(cfg, log, Delivering(n)), k, i, n)
    decreases n
  {
    hide Served, Run, Advanced, LastLSN, Batches, Happen, AllAllowed, FirstLarge, HappenAll;
    var log := Run(START, es).log;
    if n == 0 {
      k := Connecting(cfg, log, i);
    } else {
      k := DeliveringFollows(cfg, es, i, n - 1);
      var s := HappenAll(cfg, log, Delivering(n - 1));
      DeliverAllowed(cfg, log, s);
      MoreAllowed(cfg, log, Delivering(n - 1), Deliver(1));
      k := DeliverOne(cfg, es, s, k, i, n);
    }
  }

  lemma DeliverAllowed(cfg: Config, log: seq<seq<Record>>, s: System)
    ensures Allowed(cfg, log, s, Deliver(1))
  {
  }

  lemma DeliverOne(cfg: Config, es: seq<Event>, s: System, k: nat, i: nat, n: nat) returns (k': nat)
    requires Served(cfg, es) && FirstLarge(Run(START, es).log, i)
    requires 0 < n < LastLSN(Batches(Run(START, es).log[..i])) + FLUSH_THRESHOLD
    requires Advanced(cfg, Run(START, es).log, s, k, i, n - 1)
    ensures Advanced(cfg, Run(START, es).log, Happen(cfg, Run(START, es).log, s, Deliver(1)), k', i, n)
  {
    hide Served, Run, Follows, Log, LastLSN, Batches, Receive;
    var log := Run(START, es).log;
    WithinBatch(cfg, log, s.f, k, i, n - 1);
    k' := FrameFollows(cfg, es, s.f, k, n - 1, 1);
    NotBeyond(cfg, log, Happen(cfg, log, s, Deliver(1)).f, k', i, n);
  }

  lemma Connecting(cfg: Config, log: seq<seq<Record>>, i: nat) returns (k: nat)
    ensures AllAllowed(cfg, log, Delivering(0)) && Advanced(cfg, log, HappenAll(cfg, log, Delivering(0)), k, i, 0)
  {
    hide Log, Batches, Follows;
    k := 0;
    assert [Dial(1, 0)][..0] == [] && HappenAll(cfg, log, []) == System(NEW, Offline);
    NewFollows(cfg, log, HappenAll(cfg, log, Delivering(0)).f);
  }

  lemma MoreAllowed(cfg: Config, log: seq<seq<Record>>, acts: seq<Act>, act: Act)
    requires AllAllowed(cfg, log, acts) && Allowed(cfg, log, HappenAll(cfg, log, acts), act)
    ensures AllAllowed(cfg, log, acts + [act])
    ensures HappenAll(cfg, log, acts + [act]) == Happen(cfg, log, HappenAll(cfg, log, acts), act)
  {
    hide Allowed, Happen;
    var more := acts + [act];
    assert more[..|acts|] == acts;
    assert forall i | 0 <= i < |acts| :: more[..i] == acts[..i] && more[i] == acts[i];
  }

  /** A record before the threshold of batch `i` is in the log, and below the threshold of its own. */
  lemma WithinBatch(cfg: Config, log: seq<seq<Record>>, f: Follower, k: nat, i: nat, at: nat)
    requires k <= i && FirstLarge(log, i) && Follows(cfg, log, f, k)
    requires at + 1 < LastLSN(Batches(log[..i])) + FLUSH_THRESHOLD
    ensures at < |Log(Batches(log))|
    ensures f.lastLSN <= at < f.lastLSN + |log[k]| ==> at + 1 - f.lastLSN < FLUSH_THRESHOLD
  {
    hide Log, LastLSN, Stores, Replay, Flatten;
    PrefixBatches(log, i);
    BatchInLog(Batches(log), i);
  }

  lemma NotBeyond(cfg: Config, log: seq<seq<Record>>, f: Follower, k: nat, i: nat, at: nat)
    requires i < |log| && Follows(cfg, log, f, k) && f.lastLSN <= at
    requires |log[i]| >= FLUSH_THRESHOLD && at < LastLSN(Batches(log[..i])) + FLUSH_THRESHOLD
    ensures k <= i
  {
    hide Log, LastLSN, Stores, Replay, Flatten;
    var bs := Batches(log);
    PrefixBatches(log, i);
    PrefixBatches(log, k);
    if k > i { LSNsOrdered(bs, i, k); }
  }

  lemma LSNsOrdered(bs: seq<Recovery.Batch>, k: nat, i: nat)
    requires k < i <= |bs|
    ensures LastLSN(bs[..k]) + |bs[k]| + 1 <= LastLSN(bs[..i])
  {
    hide LastLSN;
    NextLog(bs, k);
    LSNsGrow(bs[..i], k + 1);
    assert bs[..i][..k + 1] == bs[..k + 1];
  }

  /** One record before the threshold, it is batch `i` that is buffered. */
  lemma AtThreshold(cfg: Config, log: seq<seq<Record>>, f: Follower, k: nat, i: nat)
    requires i < |log| && k <= i && Follows(cfg, log, f, k) && |log[i]| >= FLUSH_THRESHOLD
    requires var at := LastLSN(Batches(log[..i])) + FLUSH_THRESHOLD - 1; Buffers(log, f, k, Online(at))
    ensures k == i
  {
    hide Log, LastLSN, Stores, Replay, Flatten;
    var bs := Batches(log);
    PrefixBatches(log, i);
    PrefixBatches(log, k);
    if k < i { LSNsOrdered(bs, k, i); }
  }

  /** The first `FLUSH_THRESHOLD` records of a batch can be applied. */
  lemma PartFlushes(cfg: Config, es: seq<Event>, f: Follower, i: nat)
    requires Served(cfg, es)
    requires var log := Run(START, es).log;
             && i < |log| && Follows(cfg, log, f, i) && |log[i]| >= FLUSH_THRESHOLD
             && f.pending == Numbered(Batches(log)[i], f.lastLSN)[..FLUSH_THRESHOLD]
    ensures var done := Flush(cfg, f);
            && done.ok && done.f.failures == f.failures && done.f.term == f.term
            && done.f.lastLSN == f.lastLSN < done.f.walLSN
  {
    hide AdmissibleRun, Run, Replay, Flatten, LastLSN, Log, Stores, HandleAll, PlaceAll, FramesOf, Encodable, Loggable,
      Carries, BatchOf;
    var log, n := Run(START, es).log, FLUSH_THRESHOLD;
    var batch, part := Batches(log)[i], Items(f.pending);
    PrimaryLog(cfg, es);
    ItemsPrefix(batch, f.lastLSN, n);
    EncodablePrefix(batch, cfg.max, n);
    NumberedCarries(log[i], f.lastLSN);
    PrefixReplays(es, i + 1);
    NextRecords(log, i);
    ReplayAppend(EMPTY, Flatten(log[..i]), log[i]);
    assert log[i] == log[i][..n] + log[i][n..];
    ReplayPart(f.state, log[i][..n], log[i][n..]);
    CarriesPrefix(Numbered(batch, f.lastLSN), log[i], n);
    HandleIsReplay(f.state, f.pending, log[i][..n]);
  }

  lemma ItemsPrefix(batch: Recovery.Batch, lsn: nat, n: nat)
    requires n <= |batch|
    ensures Items(Numbered(batch, lsn)[..n]) == batch[..n]
  {
  }

  lemma CarriesPrefix(ws: seq<WalRecord>, rs: seq<Record>, n: nat)
    requires CarriesAll(ws, rs) && n <= |ws|
    ensures CarriesAll(ws[..n], rs[..n])
  {
    hide Carries;
  }

  lemma EncodablePrefix(batch: Recovery.Batch, max: nat, n: nat)
    requires Encodable(batch, max) == |batch| && n <= |batch|
    ensures Encodable(batch[..n], max) == n
  {
    hide FitsFrame, Encodable;
    EncodableFit(batch, max);
    EncodableIs(batch[..n], max, n);
  }

  lemma {:induction false} ReplayPart(s: State, xs: seq<Record>, ys: seq<Record>)
    requires Replay(s, xs + ys).err.None?
    ensures Replay(s, xs).err.None?
    decreases |xs|
  {
    hide ReplayRecord;
    if xs != [] {
      assert (xs + ys)[0] == xs[0] && (xs + ys)[1..] == xs[1..] + ys;
      ReplayPart(ReplayRecord(s, xs[0]).state, xs[1..], ys);
    }
  }

  /** The first batch of 4096 records or more is flushed in part, whichever it is: the WAL is then
    * ahead of the position from which the primary will send the batch again. */
  lemma LargeBatchIsSplit(cfg: Config, es: seq<Event>, i: nat)
    requires Served(cfg, es) && FirstLarge(Run(START, es).log, i)
    ensures var log := Run(START, es).log;
            var acts := Delivering(LastLSN(Batches(log[..i])) + FLUSH_THRESHOLD);
            var s := HappenAll(cfg, log, acts);
            && AllAllowed(cfg, log, acts) && s.session.Online?
            && s.f.lastLSN == LastLSN(Batches(log[..i])) < s.f.walLSN && s.f.failures == 0
  {
    hide Served, Run, Advanced, LastLSN, Batches, Happen, AllAllowed, HappenAll;
    var log := Run(START, es).log;
    var at := LastLSN(Batches(log[..i])) + FLUSH_THRESHOLD - 1;
    var k := DeliveringFollows(cfg, es, i, at);
    var s := HappenAll(cfg, log, Delivering(at));
    DeliverAllowed(cfg, log, s);
    MoreAllowed(cfg, log, Delivering(at), Deliver(1));
    ThresholdFlushes(cfg, es, s, k, i);
  }

  /** The record that reaches the threshold. */
  lemma ThresholdFlushes(cfg: Config, es: seq<Event>, s: System, k: nat, i: nat)
    requires Served(cfg, es) && FirstLarge(Run(START, es).log, i)
    requires var log := Run(START, es).log;
             Advanced(cfg, log, s, k, i, LastLSN(Batches(log[..i])) + FLUSH_THRESHOLD - 1)
    ensures var log := Run(START, es).log;
            var s' := Happen(cfg, log, s, Deliver(1));
            && s'.session.Online? && s'.f.failures == 0
            && s'.f.lastLSN == LastLSN(Batches(log[..i])) < s'.f.walLSN
  {
    hide Served, Run, Log, LastLSN, Stores, Replay, Flatten, Flush, Batches, Numbered, Commit;
    var log, f := Run(START, es).log, s.f;
    var base := LastLSN(Batches(log[..i]));
    var at, all := base + FLUSH_THRESHOLD - 1, Log(Batches(log));
    AtThreshold(cfg, log, f, k, i);
    PrimaryLog(cfg, es);
    PrefixBatches(log, i);
    RecordAt(log, i, at);
    LogPositions(Batches(log));
    var g := f.(pending := f.pending + [all[at]]);
    OneMore(all, base, |log[i]|, FLUSH_THRESHOLD);
    PartFlushes(cfg, es, g, i);
  }

  lemma OneMore(all: seq<WalRecord>, base: nat, n: nat, t: nat)
    requires 0 < t <= n && base + n <= |all|
    ensures all[base..base + t - 1] + [all[base + t - 1]] == all[base..base + n][..t]
  {
  }

  /** A WAL ahead of its position follows no number of batches. */
  lemma AheadFollowsNone(cfg: Config, log: seq<seq<Record>>, f: Follower)
    requires f.lastLSN < f.walLSN
    ensures forall k :: !Follows(cfg, log, f, k)
  {
    hide Replay, Flatten, Stores, Log, LastLSN;
  }

  /** Every run of a follower of this journal stays in step. */
  ghost predicate AlwaysFollows(cfg: Config, log: seq<seq<Record>>) {
    forall acts | AllAllowed(cfg, log, acts) :: FollowsSome(cfg, log, HappenAll(cfg, log, acts).f)
  }

  /** For every served journal: all runs of a follower keep in step with the primary if and only if
    * every batch has fewer than 4096 records. */
  lemma SizeConditionExactly(cfg: Config, es: seq<Event>)
    requires Served(cfg, es)
    ensures AlwaysFollows(cfg, Run(START, es).log) <==> Small(Run(START, es).log)
  {
    hide Served, Run, Follows, AllAllowed, HappenAll, LastLSN, Log, Buffers, Batches;
    var log := Run(START, es).log;
    if Small(log) {
      forall acts | AllAllowed(cfg, log, acts)
        ensures FollowsSome(cfg, log, HappenAll(cfg, log, acts).f)
      {
        var k := FollowerKeepsUp(cfg, es, acts);
        assert Follows(cfg, log, HappenAll(cfg, log, acts).f, k);
      }
    } else {
      var i := SomeLarge(log);
      LargeBatchIsSplit(cfg, es, i);
      var acts := Delivering(LastLSN(Batches(log[..i])) + FLUSH_THRESHOLD);
      AheadFollowsNone(cfg, log, HappenAll(cfg, log, acts).f);
      assert AllAllowed(cfg, log, acts);
    }
  }

  lemma {:induction false} SomeLarge(log: seq<seq<Record>>) returns (i: nat)
    requires !Small(log)
    ensures FirstLarge(log, i)
  {
    var n := |log| - 1;
    assert forall j | 0 <= j < n :: log[j] == log[..n][j];
    if Small(log[..n]) { i := n; } else { i := SomeLarge(log[..n]); }
  }
}
