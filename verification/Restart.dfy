/** From the live ledger to the bytes of its WAL and back (internal/engine/ledger.go): what is
  * recovered after a crash at any byte is the ledger as it was after some of its events, among
  * them every event whose batch was durable. */
module Restart {
  import opened Core
  import opened Machine
  import opened Expiry
  import opened Replaying
  import opened Snapshots
  import opened Frames
  import opened Recovery
  import opened Segments
  import opened SegmentRecovery
  import opened Skipping
  import opened Packing
  import opened Wals
  import opened Codec
  import opened SnapshotFile

  /* ----- records as WAL payloads ----- */

  function ItemOf(r: Record): Item {
    match r
    case AccountRecord(a) => Item(ACCOUNT, EncodeAccount(a))
    case TransferRecord(t) => Item(TRANSFER, EncodeTransfer(t))
  }

  function BatchOf(rs: seq<Record>): (b: Recovery.Batch)
    ensures |b| == |rs|
  {
    seq(|rs|, i requires 0 <= i < |rs| => ItemOf(rs[i]))
  }

  function Batches(log: seq<seq<Record>>): (bs: seq<Recovery.Batch>)
    ensures |bs| == |log|
  {
    seq(|log|, i requires 0 <= i < |log| => BatchOf(log[i]))
  }

  /** The handler RecoverFromSnapshot passes to the WAL. */
  ghost function Handle(s: State, w: WalRecord): Applied {
    if w.kind == ACCOUNT then
      match DecodeAccount(w.payload)
      case None => Applied(s, Some(InvalidAccountPayload))
      case Some(a) => ReplayRecord(s, AccountRecord(a))
    else if w.kind == TRANSFER then
      match DecodeTransfer(w.payload)
      case None => Applied(s, Some(InvalidTransferPayload))
      case Some(t) => ReplayRecord(s, TransferRecord(t))
    else Applied(s, None)
  }

  ghost function HandleAll(s: State, ws: seq<WalRecord>): Applied
    decreases |ws|
  {
    if ws == [] then Applied(s, None)
    else
      var a := Handle(s, ws[0]);
      if a.err.Some? then a else HandleAll(a.state, ws[1..])
  }

  predicate Carries(w: WalRecord, r: Record) {
    Item(w.kind, w.payload) == ItemOf(r)
  }

  predicate CarriesAll(ws: seq<WalRecord>, rs: seq<Record>) {
    |ws| == |rs| && forall i | 0 <= i < |ws| :: Carries(ws[i], rs[i])
  }

  lemma HandleCarried(s: State, w: WalRecord, r: Record)
    requires Carries(w, r)
    ensures Handle(s, w) == ReplayRecord(s, r)
  {
    hide EncodeAccount, EncodeTransfer, DecodeAccount, DecodeTransfer, ReplayRecord;
    match r
    case AccountRecord(a) => AccountRoundTrip(a, []);
    case TransferRecord(t) => TransferRoundTrip(t, []);
  }

  /** Decoding and handling the journaled payloads is replaying the records. */
  lemma {:induction false} HandleIsReplay(s: State, ws: seq<WalRecord>, rs: seq<Record>)
    requires CarriesAll(ws, rs)
    ensures HandleAll(s, ws) == Replay(s, rs)
    decreases |ws|
  {
    hide Handle, ReplayRecord, Carries;
    if ws != [] {
      HandleCarried(s, ws[0], rs[0]);
      var a := ReplayRecord(s, rs[0]);
      if a.err.None? { HandleIsReplay(a.state, ws[1..], rs[1..]); }
    }
  }

  /** The data records of the WAL carry the journal. */
  lemma {:induction false} DataCarries(log: seq<seq<Record>>)
    ensures CarriesAll(Data(Batches(log)), Flatten(log))
  {
    hide ItemOf;
    if log != [] {
      var n := |log| - 1;
      var bs := Batches(log);
      assert bs[..n] == Batches(log[..n]);
      DataCarries(log[..n]);
      NumberedCarries(log[n], LastLSN(bs[..n]));
    }
  }

  lemma NumberedCarries(rs: seq<Record>, lsn: nat)
    ensures CarriesAll(Numbered(BatchOf(rs), lsn), rs)
  {
    hide ItemOf;
  }

  /** A WAL segment that holds a transfer record holds every record of a ledger. */
  const LEAST_SEGMENT: nat := 161

  /** The record counts of a log fit in 32 bits. */
  predicate Countable(log: seq<seq<Record>>) {
    forall i | 0 <= i < |log| :: |log[i]| < TWO_32
  }

  lemma JournalFits(log: seq<seq<Record>>, max: nat)
    requires Countable(log) && forall i | 0 <= i < |log| :: log[i] != []
    ensures AllLoggable(Batches(log)) && (LEAST_SEGMENT <= max ==> AllFit(Batches(log), max))
  {
    hide EncodeAccount, EncodeTransfer, Encodable;
    forall i | 0 <= i < |log|
      ensures Loggable(Batches(log)[i])
      ensures LEAST_SEGMENT <= max ==> Encodable(Batches(log)[i], max) == |Batches(log)[i]|
    {
      if LEAST_SEGMENT <= max { EncodableIs(Batches(log)[i], max, |log[i]|); }
    }
  }

  /* ----- logs of runs ----- */

  /** The first `k` batches of a run's log are the log of a prefix of the run. */
  lemma {:induction false} PrefixFor(es: seq<Event>, k: nat) returns (m: nat)
    requires k <= |Run(START, es).log|
    ensures m <= |es| && Run(START, es[..m]).log == Run(START, es).log[..k]
  {
    hide Step;
    var log := Run(START, es).log;
    if k == |log| {
      m := |es|;
      assert es[..m] == es && log[..k] == log;
    } else {
      var n := |es| - 1;
      var l := Run(START, es[..n]);
      StepLogs(l, es[n]);
      m := PrefixFor(es[..n], k);
      assert es[..n][..m] == es[..m];
    }
  }

  lemma StepLogs(l: Live, e: Event)
    ensures var log := Step(l, e).log;
            l.log <= log && |log| <= |l.log| + 1 && (|log| > |l.log| ==> log[|l.log|] != [])
  {
    hide CloseExpired, ApplyBatch, Admitted;
  }

  lemma {:induction false} BatchesNotEmpty(es: seq<Event>)
    ensures forall i | 0 <= i < |Run(START, es).log| :: Run(START, es).log[i] != []
  {
    hide Step;
    if es != [] {
      var n := |es| - 1;
      BatchesNotEmpty(es[..n]);
      StepLogs(Run(START, es[..n]), es[n]);
    }
  }

  /** For every run of the ledger, every way its journal lies in segments and every cut of the last
    * one: recovery succeeds, and closing expired holds at the right clock gives exactly the ledger
    * after the first `m` events, whose batches are those durable before the cut. */
  lemma CrashRecovery(crc: Checksum, es: seq<Event>, parts: seq<seq<WalRecord>>, last: seq<WalRecord>, c: nat)
    returns (m: nat)
    requires AdmissibleRun(es)
    requires var log := Run(START, es).log;
             && Countable(log) && LastLSN(Batches(log)) < TWO_63
             && Joined(parts) + last == Log(Batches(log)) && c <= |Written(crc, last)|
    ensures m <= |es|
    ensures var log := Run(START, es).log;
            var k := Durable(crc, Batches(log), |Written(crc, Joined(parts))| + c);
            var found := ReplayDisk(crc, OnDisk(crc, parts) + [Written(crc, last)[..c]], FRESH).state;
            var a := HandleAll(EMPTY, found.delivered);
            var live := Run(START, es[..m]);
            && live.log == log[..k] && found.highest == LastLSN(Batches(log[..k]))
            && a.err.None? && CloseExpired(a.state, live.clock) == live.state
  {
    hide Run, CloseExpired, HandleAll, ReplayDisk, Durable, LastLSN, Data, Log, Joined, Written, OnDisk, Loggable,
      Replay, Flatten, AdmissibleRun;
    var log := Run(START, es).log;
    var bs := Batches(log);
    var k := Durable(crc, bs, |Written(crc, Joined(parts))| + c);
    BatchesNotEmpty(es);
    JournalFits(log, 0);
    TornTailRecovery(crc, bs, parts, last, c);
    assert bs[..k] == Batches(log[..k]);
    m := PrefixFor(es, k);
    AdmissiblePrefix(es, m);
    DataCarries(log[..k]);
    HandleIsReplay(EMPTY, Data(bs[..k]), Flatten(log[..k]));
    ReplayRebuildsLive(es[..m]);
  }

  /** Where batch `k` lies in the log. */
  lemma {:induction false} BatchInLog(bs: seq<Recovery.Batch>, k: nat)
    requires k < |bs|
    ensures var base := LastLSN(bs[..k]);
            && base + |bs[k]| + 1 == LastLSN(bs[..k + 1]) <= |Log(bs)| == LastLSN(bs)
            && Log(bs)[base..base + |bs[k]| + 1] == Logged(bs[k], base)
    decreases |bs|
  {
    hide Logged;
    LogPositions(bs);
    assert bs[..k + 1][..k] == bs[..k];
    var n := |bs| - 1;
    LogPositions(bs[..n]);
    LoggedLength(bs[n], LastLSN(bs[..n]));
    if k == n {
      assert bs[..k + 1] == bs;
    } else {
      BatchInLog(bs[..n], k);
      assert bs[..n][..k] == bs[..k] && bs[..n][..k + 1] == bs[..k + 1];
      var base := LastLSN(bs[..k]);
      assert Log(bs)[base..base + |bs[k]| + 1] == Log(bs[..n])[base..base + |bs[k]| + 1];
    }
  }

  lemma LoggedLength(batch: Recovery.Batch, lsn: nat)
    ensures |Logged(batch, lsn)| == |batch| + 1
  {
  }

  /** The files while batch `j` is being appended and `p` of its frames have been written. */
  function Appending(crc: Checksum, bs: seq<Recovery.Batch>, max: nat, j: nat, p: nat): Layout
    requires j < |bs| && p <= |bs[j]| + 1
  {
    PlaceAll(Wals.Journal(crc, bs[..j], max), FramesOf(crc, Logged(bs[j], LastLSN(bs[..j])))[..p], max)
  }

  /** Whatever was written of a batch continues the log. */
  lemma AppendingHolds(crc: Checksum, bs: seq<Recovery.Batch>, max: nat, j: nat, p: nat) returns (q: nat)
    requires j < |bs| && p <= |bs[j]| + 1 && AllFit(bs[..j], max)
    ensures q <= |Log(bs)| && q == LastLSN(bs[..j]) + p && Stores(crc, Appending(crc, bs, max, j, p), Log(bs)[..q])
  {
    hide Stores, AllFit, PlaceAll, FramesOf, Log, LastLSN, Logged, Wals.Journal;
    var base := LastLSN(bs[..j]);
    var rs := Logged(bs[j], base);
    LoggedLength(bs[j], base);
    BatchInLog(bs, j);
    LogPositions(bs[..j]);
    LogPrefix(bs, j);
    JournalHoldsLog(crc, bs[..j], max);
    PackingKeepsFrames(crc, Wals.Journal(crc, bs[..j], max), Log(bs[..j]), rs[..p], max);
    FramesPrefix(crc, rs, p);
    q := base + p;
    assert Log(bs)[..base] == Log(bs[..j]) && Log(bs)[base..base + |rs|] == rs;
    assert Log(bs)[..q] == Log(bs[..j]) + rs[..p];
  }

  /** Files that hold the first `q` records of a log, the last file cut at `c`, are segments of the
    * whole log whose last one is cut there. */
  lemma CutOfLog(crc: Checksum, l: Layout, bs: seq<Recovery.Batch>, q: nat, c: nat)
    returns (parts: seq<seq<WalRecord>>, last: seq<WalRecord>)
    requires q <= |Log(bs)| && Stores(crc, l, Log(bs)[..q]) && c <= |l.open|
    ensures Joined(parts) + last == Log(bs) && c <= |Written(crc, last)|
    ensures l.closed + [l.open[..c]] == OnDisk(crc, parts) + [Written(crc, last)[..c]]
    ensures Written(crc, Joined(parts)) == Flat(l.closed)
  {
    hide Log, Joined, Written, OnDisk, Flat;
    var rest, had := Log(bs)[q..], Log(bs)[..q];
    var whole: seq<WalRecord>;
    parts, whole :| Holding(crc, l, parts, whole) && Joined(parts) + whole == had;
    last := whole + rest;
    WrittenAppend(crc, whole, rest);
    FlatOnDisk(crc, parts);
    assert Joined(parts) + last == had + rest == Log(bs);
    assert Written(crc, last)[..c] == l.open[..c];
  }

  /** A crash at any moment of any append: after `j` batches, with `p` frames of the next one written
    * and the last file cut at any byte, recovery rebuilds the ledger of the durable batches. */
  lemma CrashWhileAppending(crc: Checksum, es: seq<Event>, max: nat, j: nat, p: nat, c: nat) returns (m: nat)
    requires AdmissibleRun(es) && LEAST_SEGMENT <= max
    requires var log := Run(START, es).log;
             && Countable(log) && LastLSN(Batches(log)) < TWO_63 && j < |log| && p <= |log[j]| + 1
             && c <= |Appending(crc, Batches(log), max, j, p).open|
    ensures m <= |es|
    ensures var log := Run(START, es).log;
            var l := Appending(crc, Batches(log), max, j, p);
            var k := Durable(crc, Batches(log), |Flat(l.closed)| + c);
            var found := ReplayDisk(crc, l.closed + [l.open[..c]], FRESH).state;
            var a := HandleAll(EMPTY, found.delivered);
            var live := Run(START, es[..m]);
            && live.log == log[..k] && found.highest == LastLSN(Batches(log[..k]))
            && a.err.None? && CloseExpired(a.state, live.clock) == live.state
  {
    hide Run, CloseExpired, HandleAll, ReplayDisk, Durable, LastLSN, Log, Joined, Written, OnDisk, Loggable,
      AdmissibleRun, Appending, Flat, Stores, Encodable;
    var log := Run(START, es).log;
    var bs := Batches(log);
    BatchesNotEmpty(es);
    JournalFits(log, max);
    var q := AppendingHolds(crc, bs, max, j, p);
    var parts, last := CutOfLog(crc, Appending(crc, bs, max, j, p), bs, q, c);
    m := CrashRecovery(crc, es, parts, last, c);
  }

  /* ----- restarting from a snapshot ----- */

  /** The records above a commit are those of the batches after it. */
  lemma {:induction false} AboveBatches(bs: seq<Recovery.Batch>, k: nat)
    requires k <= |bs|
    ensures Data(bs[..k]) <= Data(bs)
    ensures Above(Data(bs), LastLSN(bs[..k])) == Data(bs)[|Data(bs[..k])|..]
    decreases |bs|
  {
    hide Above;
    var from := LastLSN(bs[..k]);
    if k == |bs| {
      assert bs[..k] == bs;
      DataIncreases(bs);
      AboveNothing(Data(bs), from);
    } else {
      var n := |bs| - 1;
      assert bs[..n][..k] == bs[..k];
      AboveBatches(bs[..n], k);
      LSNsGrow(bs[..n], k);
      var last := Numbered(bs[n], LastLSN(bs[..n]));
      AboveEverything(last, from);
      AboveAppend(Data(bs[..n]), last, from);
    }
  }

  lemma {:induction false} AboveEverything(rs: seq<WalRecord>, from: nat)
    requires forall i | 0 <= i < |rs| :: rs[i].lsn > from
    ensures Above(rs, from) == rs
  {
    if rs != [] {
      var n := |rs| - 1;
      AboveEverything(rs[..n], from);
      assert rs == rs[..n] + [rs[n]];
    }
  }

  lemma {:induction false} LogsGrow(es: seq<Event>, n: nat)
    requires n <= |es|
    ensures Run(START, es[..n]).log <= Run(START, es).log
  {
    hide Step;
    if n == |es| {
      assert es[..n] == es;
    } else {
      var m := |es| - 1;
      LogsGrow(es[..m], n);
      assert es[..m][..n] == es[..n];
      StepLogs(Run(START, es[..m]), es[m]);
    }
  }

  /** The records above the snapshot carry what was journaled after it. */
  lemma AfterCarried(es: seq<Event>, n: nat)
    requires n <= |es|
    ensures var log := Run(START, es).log;
            var k := |Run(START, es[..n]).log|;
            && k <= |log| && log[..k] == Run(START, es[..n]).log
            && CarriesAll(Above(Data(Batches(log)), LastLSN(Batches(log[..k]))), After(es, n))
  {
    hide Run, Flatten, Data, LastLSN, Above, Carries, After;
    var log, was := Run(START, es).log, Run(START, es[..n]).log;
    LogsGrow(es, n);
    var k := |was|;
    var bs := Batches(log);
    assert bs[..k] == Batches(log[..k]);
    AboveBatches(bs, k);
    LogSplits(es, n);
    DataCarries(log);
    DataCarries(was);
    assert After(es, n) == Flatten(log)[|Flatten(was)|..];
  }

  /** For a snapshot written after any `n` events, a WAL of small segments cut at any byte, and
    * whether or not the segments below the snapshot were deleted: reading the snapshot, recovering
    * above its LSN and handling what that delivers gives the accounts and open holds of the ledger
    * after `m >= n` events, those of the snapshot and of all durable batches. */
  lemma SnapshotCrashRecovery(crc: Checksum, es: seq<Event>, n: nat, s: Snapshot,
                              parts: seq<seq<WalRecord>>, last: seq<WalRecord>, c: nat) returns (m: nat)
    requires AdmissibleRun(es) && n <= |es| && Run(START, es[..n]).log != []
    requires ListsAccounts(s.accounts, Run(START, es[..n]).state.books.accounts)
    requires ListsHolds(s.pendings, Run(START, es[..n]).state.books.holds)
    requires s.lsn == LastLSN(Batches(Run(START, es[..n]).log)) && |FileOf(crc, s)| < TWO_64
    requires var log := Run(START, es).log;
             && Countable(log) && LastLSN(Batches(log)) < TWO_63
             && Joined(parts) + last == Log(Batches(log)) && c <= |Written(crc, last)|
    requires forall i | 0 <= i < |parts| :: |Written(crc, parts[i])| <= PEEK_CHUNK
    ensures n <= m <= |es|
    ensures var log, k0 := Run(START, es).log, |Run(START, es[..n]).log|;
            var k := Durable(crc, Batches(log), |Written(crc, Joined(parts))| + c);
            var disk := OnDisk(crc, parts) + [Written(crc, last)[..c]];
            var found := ReplayDisk(crc, SkipDisk(PruneDisk(disk, s.lsn), s.lsn), FRESH).state;
            var restored := Restore(s.accounts, s.pendings);
            && Read(crc, FileOf(crc, s)) == Loaded(s) && restored.Ok?
            && SkipDisk(PruneDisk(disk, s.lsn), s.lsn) == SkipDisk(disk, s.lsn)
            && var a := HandleAll(restored.value, Above(found.delivered, s.lsn));
               var live := Run(START, es[..m]);
               && k0 <= |log| && live.log == log[..if k < k0 then k0 else k]
               && a.err.None? && CloseAt(a.state.books, live.clock) == live.state.books
  {
    hide Run, HandleAll, ReplayDisk, Durable, LastLSN, Data, Loggable, Replay, Flatten, AdmissibleRun, Log, Joined,
      Written, FileOf, Read, Restore, ListsAccounts, ListsHolds, CloseAt, SkipDisk, PruneDisk, OnDisk, Above, After,
      Carries;
    var log, k0 := Run(START, es).log, |Run(START, es[..n]).log|;
    var bs := Batches(log);
    LogsGrow(es, n);
    assert bs[..k0] == Batches(Run(START, es[..n]).log);
    BatchesNotEmpty(es);
    JournalFits(log, 0);
    ReadWritten(crc, s);
    RecoverAboveCommit(crc, bs, k0, parts, last, c);
    TornTailRecovery(crc, bs, parts, last, c);
    var k := Durable(crc, bs, |Written(crc, Joined(parts))| + c);
    m := DurablePrefix(es, n, k);
    assert bs[..k] == Batches(log[..k]);
    AdmissiblePrefix(es, m);
    assert es[..m][..n] == es[..n];
    SnapshotRestart(es[..m], n, s.accounts, s.pendings);
    DeltaCarried(es, n, m, k);
    assert log[..k0] == Run(START, es[..n]).log;
    HandleIsReplay(Restore(s.accounts, s.pendings).value, Above(Data(bs[..k]), s.lsn), After(es[..m], n));
  }

  lemma LogsOrdered(es: seq<Event>, m: nat, n: nat)
    requires m <= n <= |es|
    ensures |Run(START, es[..m]).log| <= |Run(START, es[..n]).log|
  {
    hide Run;
    LogsGrow(es[..n], m);
    assert es[..n][..m] == es[..m];
  }

  lemma DurablePrefix(es: seq<Event>, n: nat, k: nat) returns (m: nat)
    requires n <= |es| && k <= |Run(START, es).log|
    ensures n <= m <= |es| && |Run(START, es[..n]).log| <= |Run(START, es).log|
    ensures var log, k0 := Run(START, es).log, |Run(START, es[..n]).log|;
            Run(START, es[..m]).log == log[..if k < k0 then k0 else k] && (k <= k0 ==> m == n)
  {
    hide Run;
    LogsGrow(es, n);
    var log, k0 := Run(START, es).log, |Run(START, es[..n]).log|;
    if k <= k0 {
      m := n;
    } else {
      m := PrefixFor(es, k);
      if m < n {
        LogsOrdered(es, m, n);
        assert false;
      }
    }
  }

  lemma DeltaCarried(es: seq<Event>, n: nat, m: nat, k: nat)
    requires n <= m <= |es| && k <= |Run(START, es).log| && |Run(START, es[..n]).log| <= |Run(START, es).log|
    requires var log, k0 := Run(START, es).log, |Run(START, es[..n]).log|;
             Run(START, es[..m]).log == log[..if k < k0 then k0 else k] && (k <= k0 ==> m == n)
    ensures var log, k0 := Run(START, es).log, |Run(START, es[..n]).log|;
            CarriesAll(Above(Data(Batches(log[..k])), LastLSN(Batches(log[..k0]))), After(es[..m], n))
  {
    hide Run, Data, LastLSN, Above, Carries, After;
    var log, k0 := Run(START, es).log, |Run(START, es[..n]).log|;
    assert es[..m][..n] == es[..n];
    AfterCarried(es[..m], n);
    if k < k0 {
      var bs := Batches(log[..k0]);
      assert bs[..k] == Batches(log[..k]);
      LSNsGrow(bs, k);
      DataIncreases(bs[..k]);
      AboveNothing(Data(bs[..k]), LastLSN(bs));
      AfterNone(es[..m]);
    }
    assert k >= k0 ==> log[..k][..k0] == log[..k0];
  }

  lemma AfterNone(es: seq<Event>)
    ensures After(es, |es|) == []
  {
  }
}
