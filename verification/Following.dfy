/** What every run of a follower keeps (internal/replication/follower.go): its WAL holds the first
  * `k` batches of the primary, each once, and its ledger is their replay. */
module Following {
  import opened Core
  import opened Machine
  import opened Replaying
  import opened Bytes
  import opened Frames
  import opened Recovery
  import opened Segments
  import opened Truncation
  import opened SegmentRecovery
  import opened Skipping
  import opened Streaming
  import opened Streams
  import opened Packing
  import opened Wals
  import opened Codec
  import opened Restart
  import opened Replication

  /* ----- the primary ----- */

  /** A primary's journal that fits the local segments. */
  ghost predicate Served(cfg: Config, es: seq<Event>) {
    var log := Run(START, es).log;
    && AdmissibleRun(es) && LEAST_SEGMENT <= cfg.max && LastLSN(Batches(log)) < TWO_63 && Countable(log)
  }

  /** Every batch is below the flush threshold. */
  predicate Small(log: seq<seq<Record>>) {
    forall i | 0 <= i < |log| :: |log[i]| < FLUSH_THRESHOLD
  }

  ghost predicate Primary(cfg: Config, es: seq<Event>) {
    Served(cfg, es) && Small(Run(START, es).log)
  }

  /** The follower holds the first `k` batches and their replay. */
  ghost predicate Follows(cfg: Config, log: seq<seq<Record>>, f: Follower, k: nat) {
    && k <= |log|
    && Stores(cfg.crc, f.wal, Log(Batches(log[..k])))
    && f.walLSN == f.lastLSN == LastLSN(Batches(log[..k]))
    && Replay(EMPTY, Flatten(log[..k])) == Applied(f.state, None)
  }

  /** The stream, if one is open, has delivered the primary's log up to record `at`. */
  datatype Session = Offline | Online(at: nat)

  /** What is buffered: the records of batch `k` that the stream has delivered. */
  ghost predicate Buffers(log: seq<seq<Record>>, f: Follower, k: nat, session: Session)
    requires k <= |log|
  {
    var all := Log(Batches(log));
    match session
    case Offline => f.pending == []
    case Online(at) =>
      if at <= f.lastLSN then f.pending == []
      else k < |log| && at <= f.lastLSN + |log[k]| && at <= |all| && f.pending == all[f.lastLSN..at]
  }

  lemma PrimaryLog(cfg: Config, es: seq<Event>)
    requires Served(cfg, es)
    ensures var log := Run(START, es).log;
            && Countable(log) && (forall i | 0 <= i < |log| :: log[i] != [])
            && AllLoggable(Batches(log)) && AllFit(Batches(log), cfg.max)
  {
    hide AdmissibleRun, LastLSN, Loggable, AllFit, Run;
    BatchesNotEmpty(es);
    JournalFits(Run(START, es).log, cfg.max);
  }

  /** Replaying any number of the primary's batches succeeds. */
  lemma PrefixReplays(es: seq<Event>, k: nat)
    requires AdmissibleRun(es) && k <= |Run(START, es).log|
    ensures Replay(EMPTY, Flatten(Run(START, es).log[..k])).err.None?
  {
    hide AdmissibleRun, Run, Replay, Flatten;
    var m := PrefixFor(es, k);
    AdmissiblePrefix(es, m);
    ReplayRebuildsLive(es[..m]);
  }

  /* ----- one batch ----- */

  lemma ItemsOfNumbered(batch: Recovery.Batch, lsn: nat)
    ensures Items(Numbered(batch, lsn)) == batch
  {
  }

  /** Flushing the buffered records of batch `k` completes it. */
  lemma FlushFollows(cfg: Config, es: seq<Event>, f: Follower, k: nat)
    requires Served(cfg, es)
    requires var log := Run(START, es).log;
             Follows(cfg, log, f, k) && k < |log| && f.pending == Numbered(Batches(log)[k], f.lastLSN)
    ensures var log, done := Run(START, es).log, Flush(cfg, f);
            && done.ok && done.f.term == f.term && done.f.failures == f.failures && done.f.pending == []
            && Follows(cfg, log, done.f.(lastLSN := LastLSN(Batches(log[..k + 1]))), k + 1)
  {
    hide AdmissibleRun, Run, Replay, Flatten, LastLSN, Log, Stores, HandleAll, PlaceAll, FramesOf, Encodable, Loggable,
      Numbered, Carries, BatchOf;
    var log := Run(START, es).log;
    var bs := Batches(log);
    PrimaryLog(cfg, es);
    assert bs[..k] == Batches(log[..k]) && bs[..k + 1] == Batches(log[..k + 1]) && log[..k + 1][..k] == log[..k];
    ItemsOfNumbered(bs[k], f.lastLSN);
    NextLog(bs, k);
    PackingKeepsFrames(cfg.crc, f.wal, Log(bs[..k]), Logged(bs[k], f.walLSN), cfg.max);
    NumberedCarries(log[k], f.lastLSN);
    HandleIsReplay(f.state, f.pending, log[k]);
    PrefixReplays(es, k + 1);
    NextRecords(log, k);
    ReplayAppend(EMPTY, Flatten(log[..k]), log[k]);
  }

  lemma NextLog(bs: seq<Recovery.Batch>, k: nat)
    requires k < |bs|
    ensures LastLSN(bs[..k + 1]) == LastLSN(bs[..k]) + |bs[k]| + 1
    ensures Log(bs[..k + 1]) == Log(bs[..k]) + Logged(bs[k], LastLSN(bs[..k]))
  {
    assert bs[..k + 1][..k] == bs[..k];
  }

  lemma NextRecords(log: seq<seq<Record>>, k: nat)
    requires k < |log|
    ensures Flatten(log[..k + 1]) == Flatten(log[..k]) + log[k]
  {
    assert log[..k + 1][..k] == log[..k];
  }

  /* ----- frames ----- */

  function After(up: bool, at: nat): Session {
    if up then Online(at) else Offline
  }

  /** The record at `at`, inside batch `k`. */
  lemma RecordAt(log: seq<seq<Record>>, k: nat, at: nat)
    requires k < |log| && log[k] != []
    requires var bs := Batches(log); LastLSN(bs[..k]) <= at <= LastLSN(bs[..k]) + |log[k]|
    ensures var bs := Batches(log);
            var base, all := LastLSN(bs[..k]), Log(bs);
            && base + |log[k]| + 1 == LastLSN(bs[..k + 1]) <= |all|
            && all[base..base + |log[k]|] == Numbered(bs[k], base)
            && (at < base + |log[k]| ==> all[at].kind == ACCOUNT || all[at].kind == TRANSFER)
            && (at == base + |log[k]| ==> all[at] == Commit(at + 1, |log[k]|))
  {
    hide LastLSN, Log, Commit, EncodeAccount, EncodeTransfer;
    var bs := Batches(log);
    var base, all, n := LastLSN(bs[..k]), Log(bs), |log[k]|;
    BatchInLog(bs, k);
    var batch := Logged(bs[k], base);
    assert forall i | 0 <= i < n + 1 :: batch[i] == all[base + i];
    assert all[base..base + n] == batch[..n] == Numbered(bs[k], base);
    assert batch[n] == Commit(base + n + 1, n) && all[base + n] == batch[n];
  }

  /** Frame after frame, the follower keeps following. */
  lemma FrameFollows(cfg: Config, es: seq<Event>, f: Follower, k: nat, at: nat, term: nat) returns (k': nat)
    requires Served(cfg, es)
    requires var log := Run(START, es).log;
             Follows(cfg, log, f, k) && Buffers(log, f, k, Online(at)) && at < |Log(Batches(log))|
    requires var log := Run(START, es).log;
             k < |log| && f.lastLSN <= at < f.lastLSN + |log[k]| ==> at + 1 - f.lastLSN < FLUSH_THRESHOLD
    ensures var log := Run(START, es).log;
            var out := Receive(cfg, f, term, Log(Batches(log))[at]);
            Follows(cfg, log, out.f, k') && Buffers(log, out.f, k', After(out.up, at + 1))
            && (term >= f.term ==>
                  && out.up && out.f.term == f.term && out.f.failures == f.failures
                  && (f.lastLSN <= at ==> out.f.lastLSN <= at + 1))
  {
    hide AdmissibleRun, Run, Replay, Flatten, LastLSN, Log, Stores, Flush, Numbered, Batches;
    var log := Run(START, es).log;
    var bs, base := Batches(log), f.lastLSN;
    var all := Log(bs);
    PrimaryLog(cfg, es);
    LogPositions(bs);
    k' := k;
    if term >= f.term {
      if at < base {
        FlushNothing(cfg, f);
      } else {
        PrefixBatches(log, k);
        RecordAt(log, k, at);
        if at == base + |log[k]| {
          FlushFollows(cfg, es, f, k);
          PrefixBatches(log, k + 1);
          k' := k + 1;
        } else {
          assert all[base..at + 1] == all[base..at] + [all[at]];
        }
      }
    }
  }

  lemma FlushNothing(cfg: Config, f: Follower)
    requires f.pending == []
    ensures Flush(cfg, f) == Flushed(f, true)
  {
  }

  lemma PrefixBatches(log: seq<seq<Record>>, k: nat)
    requires k <= |log|
    ensures Batches(log[..k]) == Batches(log)[..k]
    ensures k == |log| ==> LastLSN(Batches(log[..k])) == |Log(Batches(log))|
  {
    LogPositions(Batches(log));
    assert k == |log| ==> log[..k] == log;
  }

  /* ----- restarts ----- */

  /** The whole frames of each segment. */
  function Seen(crc: Checksum, files: seq<seq<Byte>>): (parts: seq<seq<WalRecord>>)
    ensures |parts| == |files|
  {
    seq(|files|, i requires 0 <= i < |files| => Parse(crc, files[i]).records)
  }

  /** Recovery finds nothing to cut, or no segment with a commit marker begins in mid-batch. */
  ghost predicate Restartable(crc: Checksum, files: seq<seq<Byte>>) {
    var r := ReplayDisk(crc, files, FRESH);
    r.stopped || r.state.pending != [] ==> Aligned(Seen(crc, files), [])
  }

  lemma SeenCut(crc: Checksum, parts: seq<seq<WalRecord>>, last: seq<WalRecord>, c: nat)
    requires AllFramable(Joined(parts)) && AllFramable(last) && c <= |Written(crc, last)|
    ensures Seen(crc, OnDisk(crc, parts) + [Written(crc, last)[..c]]) == parts + [last[..Whole(crc, last, c)]]
  {
    hide Written, Parse, Whole, Framable;
    ParseCut(crc, last, c);
    forall i | 0 <= i < |parts|
      ensures Parse(crc, OnDisk(crc, parts)[i]).records == parts[i]
    {
      PartFramable(parts, i);
      ParseAll(crc, parts[i]);
    }
  }

  lemma {:induction false} PartFramable(parts: seq<seq<WalRecord>>, i: nat)
    requires AllFramable(Joined(parts)) && i < |parts|
    ensures AllFramable(parts[i])
    decreases |parts|
  {
    hide Framable;
    var part, rest := parts[0], parts[1..];
    assert forall j | 0 <= j < |part| :: part[j] == Joined(parts)[j];
    assert forall j | 0 <= j < |Joined(rest)| :: Joined(rest)[j] == Joined(parts)[|part| + j];
    if i > 0 { PartFramable(rest, i - 1); }
  }

  lemma StoresDisk(crc: Checksum, ps: seq<seq<WalRecord>>)
    requires ps != []
    ensures var disk, n := OnDisk(crc, ps), |ps| - 1;
            Stores(crc, Layout(disk[..n], disk[n]), Joined(ps))
  {
    hide Written, Joined;
    var n := |ps| - 1;
    var front, last := ps[..n], ps[n];
    assert ps == front + [last];
    JoinedAppend(front, [last]);
    JoinedOne(last);
    var l := Layout(OnDisk(crc, ps)[..n], OnDisk(crc, ps)[n]);
    assert l.closed == OnDisk(crc, front) && l.open == Written(crc, last);
    assert Holding(crc, l, front, last) && Joined(front) + last == Joined(ps);
  }

  /** A disk on which recovery finds nothing to cut holds exactly the durable batches. */
  lemma CleanDisk(crc: Checksum, bs: seq<Recovery.Batch>, parts: seq<seq<WalRecord>>, last: seq<WalRecord>, c: nat)
    requires AllLoggable(bs) && LastLSN(bs) < TWO_63
    requires Joined(parts) + last == Log(bs) && c <= |Written(crc, last)|
    requires var r := ReplayDisk(crc, OnDisk(crc, parts) + [Written(crc, last)[..c]], FRESH);
             !r.stopped && r.state.pending == []
    ensures var k := Durable(crc, bs, |Written(crc, Joined(parts))| + c);
            var seen := parts + [last[..Whole(crc, last, c)]];
            && OnDisk(crc, parts) + [Written(crc, last)[..c]] == OnDisk(crc, seen)
            && Joined(seen) == Log(bs[..k])
  {
    hide Written, Whole, ReplayDisk, FeedAll, Log, LastLSN, Complete, Durable, Framable, Loggable, OnDisk, Joined;
    var m := Whole(crc, last, c);
    SeenOfLog(crc, bs, parts, last, c);
    ReplayCutDisk(crc, parts, last, c, FRESH);
    FeedPrefix(bs, |Joined(parts)| + m);
    CutWritten(crc, last, c);
    JoinedAppend(parts, [last[..m]]);
    JoinedOne(last[..m]);
    OnDiskAppend(crc, parts, last[..m]);
  }

  /** The position worked out from the recovered records is the last commit's LSN. */
  lemma {:induction false} AppliedOfData(bs: seq<Recovery.Batch>)
    requires AllLoggable(bs)
    ensures AppliedLSN(Data(bs)) == LastLSN(bs)
  {
    if bs != [] {
      var n := |bs| - 1;
      var batch, base := Numbered(bs[n], LastLSN(bs[..n])), LastLSN(bs[..n]);
      DataIncreases(bs);
      var all := Data(bs);
      assert all[|all| - 1] == batch[|batch| - 1];
      MaxOfIncreasing(all);
    }
  }

  lemma {:induction false} MaxOfIncreasing(rs: seq<WalRecord>)
    requires rs != [] && forall i, j | 0 <= i < j < |rs| :: rs[i].lsn < rs[j].lsn
    ensures MaxLSN(rs) == rs[|rs| - 1].lsn
  {
    var n := |rs| - 1;
    if n > 0 {
      assert rs[n - 1].lsn < rs[n].lsn;
      MaxOfIncreasing(rs[..n]);
    } else {
      assert rs[..n] == [];
    }
  }

  /** Restarting on the files of the first `j` batches, cut anywhere, follows the durable ones. */
  lemma ReopenFollows(cfg: Config, es: seq<Event>, f: Follower, j: nat,
                      parts: seq<seq<WalRecord>>, last: seq<WalRecord>, c: nat) returns (k: nat)
    requires Served(cfg, es) && j <= |Run(START, es).log|
    requires Joined(parts) + last == Log(Batches(Run(START, es).log[..j])) && c <= |Written(cfg.crc, last)|
    requires Files(f.wal) == OnDisk(cfg.crc, parts) + [Written(cfg.crc, last)[..c]]
    requires Restartable(cfg.crc, Files(f.wal))
    ensures var out := Reopen(cfg, f);
            out.up && out.f.pending == [] && k <= j && Follows(cfg, Run(START, es).log, out.f, k)
    ensures ReplayDisk(cfg.crc, Files(f.wal), FRESH).state.delivered == Data(Batches(Run(START, es).log[..k]))
  {
    hide AdmissibleRun, Run, Replay, Flatten, LastLSN, Log, Stores, Joined, Written, OnDisk, Seen, Aligned, Data,
      AppliedLSN, HandleAll, DiskAfter, ReplayDisk, Durable, Loggable, Whole, Carries, KeptParts, AllFit;
    var crc, log := cfg.crc, Run(START, es).log;
    var bs := Batches(log[..j]);
    PrimaryLog(cfg, es);
    PrefixBatches(log, j);
    LSNsGrow(Batches(log), j);
    k := Durable(crc, bs, |Written(crc, Joined(parts))| + c);
    assert log[..j][..k] == log[..k];
    PrefixBatches(log[..j], k);
    TornTailRecovery(crc, bs, parts, last, c);
    RecoveredDisk(crc, bs, parts, last, c);
    SeenOfLog(crc, bs, parts, last, c);
    SeenCut(crc, parts, last, c);
    ReopenedDisk(crc, bs, parts, last, c);
    AppliedOfData(bs[..k]);
    DataCarries(log[..k]);
    HandleIsReplay(EMPTY, Data(bs[..k]), Flatten(log[..k]));
    PrefixReplays(es, k);
  }

  lemma ReopenedDisk(crc: Checksum, bs: seq<Recovery.Batch>, parts: seq<seq<WalRecord>>, last: seq<WalRecord>, c: nat)
    requires AllLoggable(bs) && LastLSN(bs) < TWO_63
    requires Joined(parts) + last == Log(bs) && c <= |Written(crc, last)|
    requires var r := ReplayDisk(crc, OnDisk(crc, parts) + [Written(crc, last)[..c]], FRESH);
             r.stopped || r.state.pending != [] ==> Aligned(parts + [last[..Whole(crc, last, c)]], [])
    ensures var disk := OnDisk(crc, parts) + [Written(crc, last)[..c]];
            var after, k := DiskAfter(crc, disk), Durable(crc, bs, |Written(crc, Joined(parts))| + c);
            |after| > 0 && Stores(crc, Layout(after[..|after| - 1], after[|after| - 1]), Log(bs[..k]))
  {
    hide LastLSN, Log, Stores, Joined, Written, OnDisk, Aligned, DiskAfter, ReplayDisk, Durable, Loggable, Whole,
      KeptParts;
    var disk, seen := OnDisk(crc, parts) + [Written(crc, last)[..c]], parts + [last[..Whole(crc, last, c)]];
    SomethingLeft(crc, disk);
    RecoveredDisk(crc, bs, parts, last, c);
    var r := ReplayDisk(crc, disk, FRESH);
    if r.stopped || r.state.pending != [] {
      KeptLength(seen, []);
      StoresDisk(crc, KeptParts(seen, []));
    } else {
      CleanDisk(crc, bs, parts, last, c);
      StoresDisk(crc, seen);
    }
  }

  /** The process is appending the buffered batch `k`, of which `p` frames are in the files. */
  ghost predicate Appending(log: seq<seq<Record>>, f: Follower, k: nat, p: nat) {
    p > 0 ==> k < |log| && f.pending == Numbered(Batches(log)[k], f.lastLSN) && p <= |log[k]| + 1
  }

  /** The files of a crash at any point, also while the buffered batch is being appended, are those
    * of the first `j` batches with the last one cut. */
  lemma CrashedFiles(cfg: Config, log: seq<seq<Record>>, f: Follower, k: nat, p: nat, c: nat)
    returns (j: nat, parts: seq<seq<WalRecord>>, last: seq<WalRecord>, c': nat)
    requires Follows(cfg, log, f, k) && Appending(log, f, k, p)
    ensures j <= |log| && Joined(parts) + last == Log(Batches(log[..j])) && c' <= |Written(cfg.crc, last)|
    ensures Files(Crashed(cfg, f, p, c).wal) == OnDisk(cfg.crc, parts) + [Written(cfg.crc, last)[..c']]
  {
    hide Replay, Flatten, LastLSN, Log, Joined, Written, OnDisk, PlaceAll, FramesOf, Logged, Numbered, Stores;
    var crc := cfg.crc;
    PrefixBatches(log, k);
    var had := Log(Batches(log[..k]));
    if p == 0 {
      PlaceNone(cfg, f);
      j := k;
      parts, last, c' := CutFiles(crc, f.wal, had, [], c);
    } else {
      var batch := Batches(log)[k];
      ItemsOfNumbered(batch, f.lastLSN);
      var rs := Logged(batch, f.lastLSN);
      LoggedLength(batch, f.lastLSN);
      FramesPrefix(crc, rs, p);
      PackingKeepsFrames(crc, f.wal, had, rs[..p], cfg.max);
      PrefixBatches(log, k + 1);
      NextLog(Batches(log), k);
      assert had + rs[..p] + rs[p..] == had + rs;
      j := k + 1;
      parts, last, c' := CutFiles(crc, PlaceAll(f.wal, FramesOf(crc, rs[..p]), cfg.max), had + rs[..p], rs[p..], c);
    }
  }

  lemma PlaceNone(cfg: Config, f: Follower)
    ensures var frames := FramesOf(cfg.crc, Logged(Items(f.pending), f.walLSN));
            PlaceAll(f.wal, frames[..0], cfg.max) == f.wal
  {
  }

  /** Files that hold `had`, the last one cut, are a cut of files that hold `had` and `rest`. */
  lemma CutFiles(crc: Checksum, wal: Layout, had: seq<WalRecord>, rest: seq<WalRecord>, c: nat)
    returns (parts: seq<seq<WalRecord>>, last: seq<WalRecord>, c': nat)
    requires Stores(crc, wal, had)
    ensures Joined(parts) + last == had + rest && c' <= |Written(crc, last)|
    ensures var cut := wal.(open := if c <= |wal.open| then wal.open[..c] else wal.open);
            Files(cut) == OnDisk(crc, parts) + [Written(crc, last)[..c']]
  {
    hide Joined, Written, OnDisk;
    var front, end :| Holding(crc, wal, front, end) && Joined(front) + end == had;
    parts, last := front, end + rest;
    c' := if c <= |wal.open| then c else |wal.open|;
    WrittenAppend(crc, end, rest);
    assert Written(crc, last)[..c'] == wal.open[..c'];
    assert wal.open[..|wal.open|] == wal.open;
    assert Joined(front) + (end + rest) == had + rest;
  }

  /** A crash whose files are restartable. */
  lemma CrashFollows(cfg: Config, es: seq<Event>, f: Follower, k: nat, p: nat, c: nat) returns (k': nat)
    requires Served(cfg, es)
    requires Follows(cfg, Run(START, es).log, f, k) && Appending(Run(START, es).log, f, k, p)
    requires Restartable(cfg.crc, Files(Crashed(cfg, f, p, c).wal))
    ensures var out := Reopen(cfg, Crashed(cfg, f, p, c));
            out.up && out.f.pending == [] && Follows(cfg, Run(START, es).log, out.f, k')
    ensures k' <= |Run(START, es).log|
    ensures var found := ReplayDisk(cfg.crc, Files(Crashed(cfg, f, p, c).wal), FRESH);
            found.state.delivered == Data(Batches(Run(START, es).log[..k']))
  {
    hide Served, Run, Follows, Appending, Log, Joined, Written, OnDisk, Crashed, Restartable, Reopen, ReplayDisk, Data;
    var j, parts, last, c' := CrashedFiles(cfg, Run(START, es).log, f, k, p, c);
    k' := ReopenFollows(cfg, es, Crashed(cfg, f, p, c), j, parts, last, c');
  }

  /* ----- interrupted re-syncs ----- */

  /** The first `n` segments are empty, or the others are. */
  predicate Separated(files: seq<seq<Byte>>, n: nat) {
    (forall i | 0 <= i < n && i < |files| :: files[i] == []) || (forall i | n <= i < |files| :: files[i] == [])
  }

  /** The segments as records, and those that are left after `n` removals. */
  lemma WipedFiles(crc: Checksum, f: Follower, had: seq<WalRecord>, n: nat) returns (all: seq<seq<WalRecord>>)
    requires Stores(crc, f.wal, had) && n <= |Files(f.wal)|
    ensures Files(f.wal) == OnDisk(crc, all) && Joined(all) == had && n <= |all|
    ensures Files(Wiped(f, n).wal) == OnDisk(crc, if n < |all| then all[n..] else [[]])
  {
    hide Joined, Written;
    var parts, last :| Holding(crc, f.wal, parts, last) && Joined(parts) + last == had;
    all := parts + [last];
    JoinedAppend(parts, [last]);
    JoinedOne(last);
    NothingWritten(crc);
  }

  /** Segments are all empty when they hold no record. */
  lemma {:induction false} EmptyFiles(crc: Checksum, ps: seq<seq<WalRecord>>)
    ensures (forall i | 0 <= i < |ps| :: OnDisk(crc, ps)[i] == []) <==> Joined(ps) == []
  {
    hide Frame, Written;
    if ps != [] {
      var disk, rest := OnDisk(crc, ps), OnDisk(crc, ps[1..]);
      EmptyFiles(crc, ps[1..]);
      assert forall i | 0 <= i < |rest| :: rest[i] == disk[i + 1];
      WrittenNothing(crc, ps[0]);
      assert disk[0] == Written(crc, ps[0]);
      if Joined(ps) == [] {
        assert forall i | 1 <= i < |ps| :: disk[i] == rest[i - 1];
      } else if ps[0] == [] {
        var i :| 0 <= i < |rest| && rest[i] != [];
        assert disk[i + 1] != [];
      }
    }
  }

  lemma WrittenNothing(crc: Checksum, rs: seq<WalRecord>)
    ensures Written(crc, rs) == [] <==> rs == []
  {
  }

  /** Segments that hold whole batches need no cut. */
  lemma WholeRestartable(crc: Checksum, bs: seq<Recovery.Batch>, ps: seq<seq<WalRecord>>)
    requires AllLoggable(bs) && LastLSN(bs) < TWO_63 && Joined(ps) == Log(bs)
    ensures Restartable(crc, OnDisk(crc, ps))
  {
    hide ReplayDisk, FeedAll, Log, Joined, LastLSN, Loggable, OnDisk, Framable;
    LogFramable(bs);
    ReplayWhole(crc, ps);
    FeedLog(bs);
  }

  /** Which batches the segments hold that are left. */
  lemma LeftAfterWipe(cfg: Config, log: seq<seq<Record>>, f: Follower, k: nat, n: nat)
    returns (j: nat, ps: seq<seq<WalRecord>>)
    requires Follows(cfg, log, f, k) && n <= |Files(f.wal)| && Separated(Files(f.wal), n)
    ensures j <= |log| && ps != [] && Joined(ps) == Log(Batches(log[..j]))
    ensures Files(Wiped(f, n).wal) == OnDisk(cfg.crc, ps)
  {
    hide Replay, Flatten, LastLSN, Log, Joined, Written, Stores, Wiped;
    var crc := cfg.crc;
    var all := WipedFiles(crc, f, Log(Batches(log[..k])), n);
    ps := if n < |all| then all[n..] else [[]];
    JoinedAppend(all[..n], all[n..]);
    assert all[..n] + all[n..] == all;
    JoinedNothing();
    EmptyFiles(crc, all[..n]);
    EmptyFiles(crc, all[n..]);
    assert forall i | 0 <= i < n :: OnDisk(crc, all[..n])[i] == Files(f.wal)[i];
    assert forall i | 0 <= i < |all| - n :: OnDisk(crc, all[n..])[i] == Files(f.wal)[n + i];
    if Joined(all[n..]) == [] {
      j := 0;
      NoBatches(log);
    } else {
      j := k;
    }
  }

  lemma JoinedNothing()
    ensures Joined([]) == [] && Joined([[]]) == []
  {
    JoinedOne([]);
  }

  lemma NoBatches(log: seq<seq<Record>>)
    ensures Log(Batches(log[..0])) == []
  {
  }

  /** A re-sync that stops when what is left, or what is gone, is empty. */
  lemma WipeFollows(cfg: Config, es: seq<Event>, f: Follower, k: nat, n: nat) returns (k': nat)
    requires Served(cfg, es) && Follows(cfg, Run(START, es).log, f, k)
    requires n <= |Files(f.wal)| && Separated(Files(f.wal), n)
    ensures var out := Reopen(cfg, Wiped(f, n));
            out.up && out.f.pending == [] && Follows(cfg, Run(START, es).log, out.f, k')
    ensures k' <= |Run(START, es).log|
    ensures var found := ReplayDisk(cfg.crc, Files(Wiped(f, n).wal), FRESH);
            found.state.delivered == Data(Batches(Run(START, es).log[..k']))
  {
    hide AdmissibleRun, Run, Follows, Log, LastLSN, Joined, Written, OnDisk, Wiped, Restartable, Reopen, ReplayDisk,
      Data, Separated, Loggable, AllFit;
    var crc, log := cfg.crc, Run(START, es).log;
    var j, ps := LeftAfterWipe(cfg, log, f, k, n);
    PrimaryLog(cfg, es);
    PrefixBatches(log, j);
    LSNsGrow(Batches(log), j);
    WholeRestartable(crc, Batches(log[..j]), ps);
    var m := |ps| - 1;
    assert ps == ps[..m] + [ps[m]];
    JoinedAppend(ps[..m], [ps[m]]);
    JoinedOne(ps[m]);
    OnDiskAppend(crc, ps[..m], ps[m]);
    var c := |Written(crc, ps[m])|;
    assert Written(crc, ps[m])[..c] == Written(crc, ps[m]);
    k' := ReopenFollows(cfg, es, Wiped(f, n), j, ps[..m], ps[m], c);
  }

  /* ----- runs ----- */

  datatype System = System(f: Follower, session: Session)

  /** What can happen: a connection to a primary of some term whose stream starts at record `at`,
    * its next frame, a head announcement, a failure of the stream or of dialling, a crash, and a
    * re-sync that the process does not survive. */
  datatype Act =
    | Dial(term: nat, at: nat)
    | Deliver(term: nat)
    | Announce(term: nat, head: seq<Byte>)
    | Drop
    | Crash(p: nat, c: nat)
    | Wipe(n: nat)

  ghost function Happen(cfg: Config, log: seq<seq<Record>>, s: System, act: Act): System {
    match act
    case Dial(term, at) =>
      var out := Connect(s.f, term);
      System(out.f, After(out.up, at))
    case Deliver(term) =>
      if s.session.Online? && s.session.at < |Log(Batches(log))| then
        var out := Receive(cfg, s.f, term, Log(Batches(log))[s.session.at]);
        System(out.f, After(out.up, s.session.at + 1))
      else s
    case Announce(term, head) =>
      if s.session.Online? then
        var out := Receive(cfg, s.f, term, WalRecord(0, HEAD, head));
        System(out.f, After(out.up, s.session.at))
      else s
    case Drop => System(Failure(cfg, s.f), Offline)
    case Crash(p, c) => System(Reopen(cfg, Crashed(cfg, s.f, p, c)).f, Offline)
    case Wipe(n) => if n <= |Files(s.f.wal)| then System(Reopen(cfg, Wiped(s.f, n)).f, Offline) else s
  }

  /** A batch is being appended only when its commit marker is the next frame. */
  ghost predicate Underway(log: seq<seq<Record>>, s: System, p: nat) {
    p > 0 ==> && s.session.Online? && s.f.lastLSN <= s.session.at < |Log(Batches(log))|
              && Log(Batches(log))[s.session.at].kind == BATCH_COMMIT && p <= |s.f.pending| + 1
  }

  /** A re-sync begins with a failure that trips the breaker. */
  predicate Tripping(cfg: Config, s: System, n: nat) {
    s.f.failures + 1 >= cfg.limit && n <= |Files(s.f.wal)|
  }

  /** Streams start at or before the batch after the applied LSN; crashes leave restartable files,
    * and re-syncs do not stop between segments with records. */
  ghost predicate Allowed(cfg: Config, log: seq<seq<Record>>, s: System, act: Act) {
    match act
    case Dial(term, at) => s.session.Offline? && at <= s.f.lastLSN
    case Deliver(term) => true
    case Announce(term, head) => true
    case Drop => true
    case Crash(p, c) => Underway(log, s, p) && Restartable(cfg.crc, Files(Crashed(cfg, s.f, p, c).wal))
    case Wipe(n) => Tripping(cfg, s, n) && Separated(Files(s.f.wal), n)
  }

  ghost function HappenAll(cfg: Config, log: seq<seq<Record>>, acts: seq<Act>): System {
    if acts == [] then System(NEW, Offline)
    else Happen(cfg, log, HappenAll(cfg, log, acts[..|acts| - 1]), acts[|acts| - 1])
  }

  ghost predicate AllAllowed(cfg: Config, log: seq<seq<Record>>, acts: seq<Act>) {
    forall i | 0 <= i < |acts| :: Allowed(cfg, log, HappenAll(cfg, log, acts[..i]), acts[i])
  }

  lemma NewFollows(cfg: Config, log: seq<seq<Record>>, f: Follower)
    requires f.wal == NO_FILES && f.walLSN == f.lastLSN == 0 && f.state == EMPTY
    ensures Follows(cfg, log, f, 0)
  {
    assert log[..0] == [] && Batches([]) == [];
    NothingHeld(cfg.crc, 0);
  }

  lemma ActFollows(cfg: Config, es: seq<Event>, s: System, k: nat, act: Act) returns (k': nat)
    requires Primary(cfg, es)
    requires var log := Run(START, es).log;
             Follows(cfg, log, s.f, k) && Buffers(log, s.f, k, s.session) && Allowed(cfg, log, s, act)
    ensures var log := Run(START, es).log;
            var s' := Happen(cfg, log, s, act);
            Follows(cfg, log, s'.f, k') && Buffers(log, s'.f, k', s'.session)
  {
    hide Served, Run, Replay, Flatten, LastLSN, Log, Batches, Stores, Reopen, Crashed, Restartable, Flush, Wiped,
      Separated;
    var log := Run(START, es).log;
    k' := k;
    match act
    case Dial(_, _) =>
    case Announce(_, _) =>
    case Deliver(term) =>
      if s.session.Online? && s.session.at < |Log(Batches(log))| {
        k' := FrameFollows(cfg, es, s.f, k, s.session.at, term);
      }
    case Drop =>
      if s.f.failures + 1 >= cfg.limit {
        NewFollows(cfg, log, Failure(cfg, s.f));
        k' := 0;
      }
    case Crash(p, c) =>
      if p > 0 { CommitArrived(cfg, es, s.f, k, s.session.at); }
      k' := CrashFollows(cfg, es, s.f, k, p, c);
    case Wipe(n) =>
      k' := WipeFollows(cfg, es, s.f, k, n);
  }

  /** When the commit marker is next, the whole batch is buffered. */
  lemma CommitArrived(cfg: Config, es: seq<Event>, f: Follower, k: nat, at: nat)
    requires Served(cfg, es)
    requires var log := Run(START, es).log;
             && Follows(cfg, log, f, k) && Buffers(log, f, k, Online(at))
             && f.lastLSN <= at < |Log(Batches(log))| && Log(Batches(log))[at].kind == BATCH_COMMIT
    ensures var log := Run(START, es).log;
            k < |log| && f.pending == Numbered(Batches(log)[k], f.lastLSN) && |f.pending| == |log[k]|
  {
    hide AdmissibleRun, Run, Replay, Flatten, LastLSN, Log, Stores, Batches, Numbered;
    var log := Run(START, es).log;
    PrimaryLog(cfg, es);
    PrefixBatches(log, k);
    RecordAt(log, k, at);
  }

  /** For every run of a follower of a primary: some number of the primary's batches is in its WAL,
    * each once and in order, its ledger is their replay and its position their last commit; what
    * is buffered is the delivered part of the next batch. */
  lemma {:induction false} FollowerKeepsUp(cfg: Config, es: seq<Event>, acts: seq<Act>) returns (k: nat)
    requires Primary(cfg, es) && AllAllowed(cfg, Run(START, es).log, acts)
    ensures var log := Run(START, es).log;
            var s := HappenAll(cfg, log, acts);
            Follows(cfg, log, s.f, k) && Buffers(log, s.f, k, s.session)
    decreases |acts|
  {
    hide Primary, Run, Follows, Allowed, Happen, Log, LastLSN;
    var log := Run(START, es).log;
    if acts == [] {
      NewFollows(cfg, log, NEW);
      k := 0;
    } else {
      var n := |acts| - 1;
      assert forall i | 0 <= i < n :: acts[..n][..i] == acts[..i];
      k := FollowerKeepsUp(cfg, es, acts[..n]);
      k := ActFollows(cfg, es, HappenAll(cfg, log, acts[..n]), k, acts[n]);
    }
  }

  /** Over every run, whatever happens and whether or not it is allowed, the accepted term only rises. */
  lemma {:induction false} TermsOnlyRise(cfg: Config, log: seq<seq<Record>>, acts: seq<Act>, n: nat)
    requires n <= |acts|
    ensures HappenAll(cfg, log, acts[..n]).f.term <= HappenAll(cfg, log, acts).f.term
    decreases |acts|
  {
    hide Happen;
    if n == |acts| {
      assert acts[..n] == acts;
    } else {
      var m := |acts| - 1;
      TermsOnlyRise(cfg, log, acts[..m], n);
      assert acts[..m][..n] == acts[..n];
      ActKeepsTerm(cfg, log, HappenAll(cfg, log, acts[..m]), acts[m]);
    }
  }

  lemma ActKeepsTerm(cfg: Config, log: seq<seq<Record>>, s: System, act: Act)
    ensures s.f.term <= Happen(cfg, log, s, act).f.term
  {
    hide Receive, Reopen, Connect, Failure, Log, Batches;
    var all := Log(Batches(log));
    var r := if s.session.Online? && s.session.at < |all| then all[s.session.at] else WalRecord(0, HEAD, []);
    match act
    case Dial(term, _) => TermNeverFalls(cfg, s.f, term, r);
    case Deliver(term) => TermNeverFalls(cfg, s.f, term, r);
    case Announce(term, head) => TermNeverFalls(cfg, s.f, term, WalRecord(0, HEAD, head));
    case Drop => TermNeverFalls(cfg, s.f, 0, r);
    case Crash(p, c) =>
      CrashKeepsTerm(cfg, s.f, p, c);
      TermNeverFalls(cfg, Crashed(cfg, s.f, p, c), 0, r);
    case Wipe(n) =>
      if n <= |Files(s.f.wal)| { TermNeverFalls(cfg, Wiped(s.f, n), 0, r); }
  }

  lemma CrashKeepsTerm(cfg: Config, f: Follower, p: nat, c: nat)
    ensures Crashed(cfg, f, p, c).term == f.term
  {
    hide FramesOf, PlaceAll;
  }

  /** A primary of a term below one that was accepted at any earlier point of the run, before or
    * after crashes and re-syncs, gets nothing into the WAL or the ledger and does not move the
    * position; the stream it serves is closed. */
  lemma DeposedPrimaryIsFenced(cfg: Config, log: seq<seq<Record>>, acts: seq<Act>, n: nat, term: nat, at: nat)
    requires n <= |acts| && term < HappenAll(cfg, log, acts[..n]).f.term
    ensures var s := HappenAll(cfg, log, acts);
            && Happen(cfg, log, s, Dial(term, at)) == System(s.f.(pending := []), Offline)
            && (s.session.Online? && s.session.at < |Log(Batches(log))| ==>
                  Happen(cfg, log, s, Deliver(term)) == System(s.f.(pending := []), Offline))
  {
    hide HappenAll, Flush, Log, Batches;
    TermsOnlyRise(cfg, log, acts, n);
  }

  /** A follower whose stream has delivered the whole log has the primary's ledger. */
  lemma CaughtUpFollower(cfg: Config, es: seq<Event>, acts: seq<Act>)
    requires Primary(cfg, es) && AllAllowed(cfg, Run(START, es).log, acts)
    requires HappenAll(cfg, Run(START, es).log, acts).session == Online(|Log(Batches(Run(START, es).log))|)
    ensures var f, live := HappenAll(cfg, Run(START, es).log, acts).f, Run(START, es);
            CloseExpired(f.state, live.clock) == live.state && f.lastLSN == LastLSN(Batches(live.log))
  {
    hide AdmissibleRun, Run, Replay, Flatten, LastLSN, Log, Stores, Batches, CloseExpired, Happen, AllAllowed;
    var log := Run(START, es).log;
    var k := FollowerKeepsUp(cfg, es, acts);
    var f, bs := HappenAll(cfg, log, acts).f, Batches(log);
    PrimaryLog(cfg, es);
    PrefixBatches(log, k);
    LogPositions(bs);
    if k < |log| {
      RecordAt(log, k, f.lastLSN);
      assert false;
    }
    assert log[..k] == log;
    ReplayRebuildsLive(es);
  }

  /** The stream a primary at rest serves for the position the follower asks for, one above its
    * applied LSN, starts where the follower can use it exactly when no segment of the primary
    * ends with the first record of the next batch; otherwise that batch is left out. */
  lemma ServedStreamSuits(cfg: Config, es: seq<Event>, s: System, k: nat, term: nat, crc: Checksum,
                          parts: seq<seq<WalRecord>>)
    returns (at: nat)
    requires Served(cfg, es) && s.session == Offline
    requires k < |Run(START, es).log| && Follows(cfg, Run(START, es).log, s.f, k)
    requires LiesIn(crc, Batches(Run(START, es).log), parts)
    ensures Serves(crc, Batches(Run(START, es).log), parts, s.f.lastLSN + 1, at)
    ensures Allowed(cfg, Run(START, es).log, s, Dial(term, at)) <==> !EndsAt(parts, s.f.lastLSN + 1)
  {
    hide AdmissibleRun, Run, Replay, Flatten, LastLSN, Log, Stores, Batches, Joined, Written, Offered, AtRest, EndsAt,
      Loggable, AllFit;
    var log := Run(START, es).log;
    var bs := Batches(log);
    PrimaryLog(cfg, es);
    PrefixBatches(log, k);
    var j := StreamFromNext(crc, bs, parts, k);
    at := LastLSN(bs[..j]);
    if j <= k {
      LSNsGrow(bs[..k], j);
      assert bs[..k][..j] == bs[..j];
    } else {
      NextLog(bs, k);
    }
  }
}
