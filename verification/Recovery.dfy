/** Crash recovery of the WAL (internal/wal/recovery.go): batches as AppendBatch numbers them, the
  * replay state that carries batch atomicity across segments, and what is recovered when the
  * last segment is cut at any byte. */
module Recovery {
  import opened Core
  import opened Bytes
  import opened Frames

  /* ----- batches ----- */

  /** A record before it has an LSN. */
  datatype Item = Item(kind: Byte, payload: seq<Byte>)

  type Batch = seq<Item>

  /** A batch AppendBatch can journal: not empty, countable in 32 bits, and of data records. */
  predicate Loggable(batch: Batch) {
    && 0 < |batch| < TWO_32
    && forall i | 0 <= i < |batch| ::
         batch[i].kind != 0 && batch[i].kind != BATCH_COMMIT && |batch[i].payload| < TWO_32
  }

  predicate AllLoggable(batches: seq<Batch>) {
    forall i | 0 <= i < |batches| :: Loggable(batches[i])
  }

  /** The records of a batch appended when the last LSN in use is `lsn`. */
  function Numbered(batch: Batch, lsn: nat): (rs: seq<WalRecord>)
    ensures |rs| == |batch|
  {
    seq(|batch|, i requires 0 <= i < |batch| => WalRecord(lsn + 1 + i, batch[i].kind, batch[i].payload))
  }

  /** The LSN in use after the batches. */
  function LastLSN(batches: seq<Batch>): nat {
    if batches == [] then 0 else LastLSN(batches[..|batches| - 1]) + |batches[|batches| - 1]| + 1
  }

  /** A batch on the log: its records, then its commit marker. */
  function Logged(batch: Batch, lsn: nat): seq<WalRecord> {
    Numbered(batch, lsn) + [Commit(lsn + |batch| + 1, |batch|)]
  }

  /** The whole log. */
  function Log(batches: seq<Batch>): seq<WalRecord> {
    if batches == [] then []
    else
      var n := |batches| - 1;
      Log(batches[..n]) + Logged(batches[n], LastLSN(batches[..n]))
  }

  /** The data records of the log. */
  function Data(batches: seq<Batch>): seq<WalRecord> {
    if batches == [] then []
    else
      var n := |batches| - 1;
      Data(batches[..n]) + Numbered(batches[n], LastLSN(batches[..n]))
  }

  /* ----- the replay state ----- */

  /** replayState, with the records handed to the handler so far. */
  datatype RState = RState(pending: seq<WalRecord>, highest: nat, delivered: seq<WalRecord>)

  const FRESH := RState([], 0, [])

  /** One frame: a commit marker releases the pending records if they are as many as it announces,
    * and drops them otherwise; any other record waits. */
  function Feed(st: RState, r: WalRecord): RState {
    if r.kind == BATCH_COMMIT then
      if |st.pending| == Announced(r) then RState([], r.lsn, st.delivered + st.pending)
      else st.(pending := [])
    else st.(pending := st.pending + [r])
  }

  function FeedAll(st: RState, rs: seq<WalRecord>): RState {
    if rs == [] then st else Feed(FeedAll(st, rs[..|rs| - 1]), rs[|rs| - 1])
  }

  lemma FeedNothing(st: RState)
    ensures FeedAll(st, []) == st
  {
  }

  lemma CommitKind(lsn: nat, count: nat)
    ensures Commit(lsn, count).kind == BATCH_COMMIT
  {
  }

  lemma {:induction false} FeedAppend(st: RState, xs: seq<WalRecord>, ys: seq<WalRecord>)
    ensures FeedAll(st, xs + ys) == FeedAll(FeedAll(st, xs), ys)
  {
    hide Feed;
    if ys == [] {
      assert xs + ys == xs;
    } else {
      var n := |ys| - 1;
      assert (xs + ys)[..|xs| + n] == xs + ys[..n];
      FeedAppend(st, xs, ys[..n]);
    }
  }

  /** Data records only wait. */
  lemma {:induction false} FeedData(st: RState, rs: seq<WalRecord>)
    requires forall i | 0 <= i < |rs| :: rs[i].kind != BATCH_COMMIT
    ensures FeedAll(st, rs) == st.(pending := st.pending + rs)
  {
    if rs == [] {
      assert st.pending + rs == st.pending;
    } else {
      var n := |rs| - 1;
      FeedData(st, rs[..n]);
      assert st.pending + rs == st.pending + rs[..n] + [rs[n]];
    }
  }

  lemma FeedLogged(st: RState, batch: Batch, lsn: nat)
    requires Loggable(batch) && lsn + |batch| + 1 < TWO_64 && st.pending == []
    ensures FeedAll(st, Logged(batch, lsn)) == RState([], lsn + |batch| + 1, st.delivered + Numbered(batch, lsn))
  {
    hide FeedAll;
    var data, commit := Numbered(batch, lsn), Commit(lsn + |batch| + 1, |batch|);
    FeedData(st, data);
    FeedAppend(st, data, [commit]);
    FeedOne(st.(pending := st.pending + data), commit);
    CommitAnnounces(lsn + |batch| + 1, |batch|);
    assert [] + data == data;
  }

  /** A batch without its commit marker is held back. */
  lemma FeedPartly(st: RState, batch: Batch, lsn: nat, q: nat)
    requires Loggable(batch) && st.pending == [] && q <= |batch|
    ensures FeedAll(st, Logged(batch, lsn)[..q]) == st.(pending := Logged(batch, lsn)[..q])
  {
    FeedData(st, Logged(batch, lsn)[..q]);
    assert [] + Logged(batch, lsn)[..q] == Logged(batch, lsn)[..q];
  }

  lemma FeedOne(st: RState, r: WalRecord)
    ensures FeedAll(st, [r]) == Feed(st, r)
  {
    assert [r][..0] == [];
    assert FeedAll(st, []) == st;
  }

  lemma {:induction false} LSNsGrow(batches: seq<Batch>, k: nat)
    requires k <= |batches|
    ensures LastLSN(batches[..k]) <= LastLSN(batches)
  {
    if k == |batches| {
      assert batches[..k] == batches;
    } else {
      var n := |batches| - 1;
      LSNsGrow(batches[..n], k);
      assert batches[..n][..k] == batches[..k];
    }
  }

  /** Replaying a complete log delivers every data record, in order. */
  lemma {:induction false} FeedLog(batches: seq<Batch>)
    requires AllLoggable(batches) && LastLSN(batches) < TWO_63
    ensures FeedAll(FRESH, Log(batches)) == RState([], LastLSN(batches), Data(batches))
  {
    hide Feed, Loggable, Logged;
    if batches != [] {
      var n := |batches| - 1;
      LSNsGrow(batches, n);
      FeedLog(batches[..n]);
      FeedAppend(FRESH, Log(batches[..n]), Logged(batches[n], LastLSN(batches[..n])));
      FeedLogged(FeedAll(FRESH, Log(batches[..n])), batches[n], LastLSN(batches[..n]));
    }
  }

  /** How many batches are complete within the first `p` records of the log. */
  function Complete(batches: seq<Batch>, p: nat): (k: nat)
    ensures k <= |batches|
  {
    if batches == [] then 0
    else if |Log(batches)| <= p then |batches|
    else Complete(batches[..|batches| - 1], p)
  }

  /** Replaying any prefix of a log delivers exactly the complete batches and holds back the rest. */
  lemma {:induction false} FeedPrefix(batches: seq<Batch>, p: nat)
    requires AllLoggable(batches) && LastLSN(batches) < TWO_63 && p <= |Log(batches)|
    ensures var k := Complete(batches, p);
            && |Log(batches[..k])| <= p
            && Log(batches)[..|Log(batches[..k])|] == Log(batches[..k])
            && FeedAll(FRESH, Log(batches)[..p])
               == RState(Log(batches)[|Log(batches[..k])|..p], LastLSN(batches[..k]), Data(batches[..k]))
  {
    hide Feed, FeedAll, Loggable, Logged;
    if |Log(batches)| <= p {
      assert batches[..|batches|] == batches;
      assert Log(batches)[..p] == Log(batches);
      FeedLog(batches);
    } else {
      var n := |batches| - 1;
      var before := Log(batches[..n]);
      assert batches[..n][..Complete(batches[..n], p)] == batches[..Complete(batches[..n], p)];
      LSNsGrow(batches, n);
      if p < |before| {
        FeedPrefix(batches[..n], p);
        assert Log(batches)[..p] == before[..p];
      } else {
        CompleteAll(batches[..n], p);
        FeedLastPart(batches, p);
      }
    }
  }

  /** The same when the prefix ends inside the last batch. */
  lemma FeedLastPart(batches: seq<Batch>, p: nat)
    requires AllLoggable(batches) && LastLSN(batches) < TWO_63 && batches != []
    requires var n := |batches| - 1; |Log(batches[..n])| <= p < |Log(batches)|
    ensures var n := |batches| - 1;
            && Log(batches)[..|Log(batches[..n])|] == Log(batches[..n])
            && FeedAll(FRESH, Log(batches)[..p])
               == RState(Log(batches)[|Log(batches[..n])|..p], LastLSN(batches[..n]), Data(batches[..n]))
  {
    hide Feed, FeedAll, Loggable, Data;
    var n := |batches| - 1;
    var before, last := Log(batches[..n]), Logged(batches[n], LastLSN(batches[..n]));
    assert Log(batches) == before + last;
    LSNsGrow(batches, n);
    FeedLog(batches[..n]);
    var waiting := last[..p - |before|];
    assert (before + last)[..p] == before + waiting && (before + last)[|before|..p] == waiting;
    FeedAppend(FRESH, before, waiting);
    FeedPartly(FeedAll(FRESH, before), batches[n], LastLSN(batches[..n]), p - |before|);
  }

  lemma CompleteAll(batches: seq<Batch>, p: nat)
    requires |Log(batches)| <= p
    ensures Complete(batches, p) == |batches|
  {
  }
}
