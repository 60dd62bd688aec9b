/** The replication follower (internal/replication/follower.go) as steps: it connects, receives
  * frames, loses its connection, crashes and restarts on its own WAL, and re-syncs from scratch
  * after repeated failures. */
module Replication {
  import opened Machine
  import opened Bytes
  import opened Frames
  import opened Recovery
  import opened Segments
  import opened SegmentRecovery
  import opened Packing
  import opened Wals
  import opened Restart

  /** Only in the stream: the primary announces its durable head. */
  const HEAD: Byte := 5

  /** A batch that grows this large is flushed before its commit marker arrives. */
  const FLUSH_THRESHOLD: nat := 4096

  /** Checksum, segment size of the local WAL, and consecutive failures that trip the breaker. */
  datatype Config = Config(crc: Checksum, max: nat, limit: nat)

  /** The follower: its WAL files and their last LSN, the ledger, the primary's LSN it has applied,
    * the highest term it has accepted, and the records of an unfinished batch. */
  datatype Follower = Follower(wal: Layout, walLSN: nat, state: State, lastLSN: nat, term: nat,
                               failures: nat, pending: seq<WalRecord>)

  const NEW := Follower(NO_FILES, 0, EMPTY, 0, 0, 0, [])

  /* ----- the local WAL ----- */

  datatype Append = Append(wal: Layout, lsn: nat, ok: bool)

  /** AppendBatch as a function of the files and the last LSN. */
  function AppendTo(cfg: Config, wal: Layout, lsn: nat, batch: Recovery.Batch): Append {
    var n := Encodable(batch, cfg.max);
    if batch == [] then Append(wal, lsn, true)
    else if n < |batch| then Append(wal, lsn + n + 1, false)
    else if cfg.max < COMMIT_SIZE then
      Append(Sealed(PlaceAll(wal, FramesOf(cfg.crc, Numbered(batch, lsn)), cfg.max)), lsn + n + 1, false)
    else Append(PlaceAll(wal, FramesOf(cfg.crc, Logged(batch, lsn)), cfg.max), lsn + n + 1, true)
  }

  /** Records without the LSNs of the primary: the local WAL numbers them again. */
  function Items(rs: seq<WalRecord>): (b: Recovery.Batch)
    ensures |b| == |rs|
  {
    seq(|rs|, i requires 0 <= i < |rs| => Item(rs[i].kind, rs[i].payload))
  }

  datatype Flushed = Flushed(f: Follower, ok: bool)

  /** flush: journal the buffered records as one batch, then apply them. */
  ghost function Flush(cfg: Config, f: Follower): Flushed {
    if f.pending == [] then Flushed(f, true)
    else
      var a := AppendTo(cfg, f.wal, f.walLSN, Items(f.pending));
      var g := f.(pending := [], wal := a.wal, walLSN := a.lsn);
      if !a.ok then Flushed(g, false)
      else
        var h := HandleAll(f.state, f.pending);
        Flushed(g.(state := h.state), h.err.None?)
  }

  /* ----- steps ----- */

  /** fullResync. */
  function Resync(f: Follower): Follower {
    f.(wal := NO_FILES, walLSN := 0, state := EMPTY, lastLSN := 0, pending := [])
  }

  /** The stream or the attempt to open it ended with an error. */
  function Failure(cfg: Config, f: Follower): Follower {
    var g := f.(pending := [], failures := f.failures + 1);
    if g.failures >= cfg.limit then Resync(g).(failures := 0) else g
  }

  /** The follower after a step, and whether its stream is open. */
  datatype Outcome = Outcome(f: Follower, up: bool)

  /** The handshake: a primary of a lower term is refused, which is not counted as a failure. */
  function Connect(f: Follower, term: nat): Outcome {
    var g := f.(pending := []);
    if f.term != 0 && term < f.term then Outcome(g, false)
    else Outcome(g.(term := if term > f.term then term else f.term, failures := 0), true)
  }

  /** One frame. */
  ghost function Receive(cfg: Config, f: Follower, term: nat, r: WalRecord): Outcome {
    if term < f.term then Outcome(f.(pending := []), false)
    else if r.kind == HEAD then Outcome(f, true)
    else if r.kind == BATCH_COMMIT then
      var done := Flush(cfg, f);
      if done.ok then Outcome(done.f.(lastLSN := if r.lsn > f.lastLSN then r.lsn else f.lastLSN), true)
      else Outcome(Failure(cfg, done.f), false)
    else if r.lsn <= f.lastLSN then Outcome(f, true)
    else
      var g := f.(pending := f.pending + [r]);
      if |g.pending| < FLUSH_THRESHOLD then Outcome(g, true)
      else
        var done := Flush(cfg, g);
        if done.ok then Outcome(done.f, true) else Outcome(Failure(cfg, done.f), false)
  }

  /** The LSN the primary's stream has reached, worked out from the local records. */
  function AppliedLSN(rs: seq<WalRecord>): nat {
    var top := MaxLSN(rs);
    if top > 0 then top + 1 else 0
  }

  function MaxLSN(rs: seq<WalRecord>): nat {
    if rs == [] then 0
    else
      var top := MaxLSN(rs[..|rs| - 1]);
      if rs[|rs| - 1].lsn > top then rs[|rs| - 1].lsn else top
  }

  /** A new process on the same files: recoverLocalState.  The accepted term is on disk too. */
  ghost function Reopen(cfg: Config, f: Follower): Outcome {
    var disk := Files(f.wal);
    var found, after := ReplayDisk(cfg.crc, disk, FRESH).state, DiskAfter(cfg.crc, disk);
    var h := HandleAll(EMPTY, found.delivered);
    SomethingLeft(cfg.crc, disk);
    var n := |after| - 1;
    Outcome(Follower(Layout(after[..n], after[n]), found.highest, h.state, AppliedLSN(found.delivered), f.term, 0, []),
            h.err.None?)
  }

  /** What a crash leaves: the process had appended `p` frames of the buffered batch, and the last
    * segment is cut at byte `c`. */
  function Crashed(cfg: Config, f: Follower, p: nat, c: nat): Follower {
    var frames := FramesOf(cfg.crc, Logged(Items(f.pending), f.walLSN));
    var wal := if p <= |frames| then PlaceAll(f.wal, frames[..p], cfg.max) else f.wal;
    f.(wal := if c <= |wal.open| then wal.(open := wal.open[..c]) else wal)
  }

  /** What a re-sync leaves when the process stops after it has removed `n` segments, oldest first;
    * a directory without segments gets an empty one. */
  function Wiped(f: Follower, n: nat): Follower
    requires n <= |Files(f.wal)|
  {
    var files := Files(f.wal)[n..];
    f.(wal := if files == [] then NO_FILES else Layout(files[..|files| - 1], files[|files| - 1]))
  }

  /* ----- terms ----- */

  /** No step lowers the accepted term. */
  lemma TermNeverFalls(cfg: Config, f: Follower, term: nat, r: WalRecord)
    ensures Connect(f, term).f.term >= f.term && Receive(cfg, f, term, r).f.term == f.term
    ensures Reopen(cfg, f).f.term == f.term && Failure(cfg, f).term == f.term
  {
    hide HandleAll, AppendTo, DiskAfter, ReplayDisk;
  }
}
