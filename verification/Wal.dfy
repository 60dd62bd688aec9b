/** The write-ahead log (internal/wal/wal.go, internal/wal/segment.go): the segment being written,
  * the batch encoder and the writer that rotates at frame ends. */
module Wals {
  import opened Core
  import opened Bytes
  import opened Frames
  import opened Recovery
  import opened Segments
  import opened SegmentRecovery
  import opened Packing

  /** Why an append failed. */
  datatype WalError = InvalidRecordType | PayloadTooLarge | RecordTooLarge(size: nat)

  datatype Appended = Started(lsn: nat) | Failed(error: WalError)

  class Segment {
    const maxSize: nat
    var file: seq<Byte>
    var writeOffset: nat
    var syncedOffset: nat

    ghost predicate Valid()
      reads this
    {
      writeOffset == |file| && syncedOffset <= writeOffset
    }

    /** openSegment on a file with this content; what is found there counts as durable. */
    constructor (content: seq<Byte>, maxSize: nat)
      ensures Valid() && file == content && syncedOffset == |content| && this.maxSize == maxSize
    {
      this.maxSize := maxSize;
      file, writeOffset, syncedOffset := content, |content|, |content|;
    }

    predicate IsFull(next: nat)
      reads this
    {
      writeOffset + next > maxSize
    }

    /** The buffered write path: all of `p` at the write offset, or nothing. */
    method Write(p: seq<Byte>) returns (ok: bool)
      requires Valid()
      modifies this
      ensures Valid() && syncedOffset == old(syncedOffset)
      ensures ok <==> |old(file)| + |p| <= maxSize
      ensures file == if ok then old(file) + p else old(file)
    {
      if IsFull(|p|) { return false; }
      file := file[..writeOffset] + p;
      writeOffset := writeOffset + |p|;
      ok := true;
    }

    /** Everything written so far becomes durable. */
    method Sync()
      requires Valid()
      modifies this
      ensures Valid() && file == old(file) && syncedOffset == |file|
    {
      syncedOffset := writeOffset;
    }
  }

  class Wal {
    const crc: Checksum
    const segmentSize: nat
    var closed: seq<seq<Byte>>
    var current: Segment
    var currentLSN: nat
    var encBuf: seq<Byte>
    var frameEnds: seq<nat>

    ghost predicate Valid()
      reads this, current
    {
      current.Valid() && current.maxSize == segmentSize > 0
    }

    /** The files, closed ones first. */
    ghost function OnFile(): Layout
      reads this, current
    {
      Layout(closed, current.file)
    }

    /** Open on existing segments, the last of which is continued. */
    constructor (crc: Checksum, segmentSize: nat, closed: seq<seq<Byte>>, open: seq<Byte>)
      requires segmentSize > 0
      ensures Valid() && OnFile() == Layout(closed, open) && currentLSN == 0
      ensures this.crc == crc && this.segmentSize == segmentSize
      ensures fresh(current)
    {
      this.crc, this.segmentSize, this.closed := crc, segmentSize, closed;
      currentLSN, encBuf, frameEnds := 0, [], [];
      current := new Segment(open, segmentSize);
    }

    /** rotateLocked: the current segment is synced and closed, an empty one is opened. */
    method Rotate()
      requires Valid()
      modifies this`closed, this`current, current
      ensures Valid() && fresh(current)
      ensures OnFile() == Layout(old(closed) + [old(current.file)], [])
    {
      current.Sync();
      closed := closed + [current.file];
      current := new Segment([], segmentSize);
    }

    /** writeBuffered: packs the buffered frames into segments.  It succeeds exactly when every
      * frame fits an empty segment; otherwise the frames before the first oversized one have
      * been written. */
    method WriteBuffered(buf: seq<Byte>, ghost frames: seq<seq<Byte>>) returns (ok: bool)
      requires Valid()
      requires buf == Flat(frames) && Ends(frames, frameEnds) && forall i | 0 <= i < |frames| :: frames[i] != []
      modifies this`closed, this`current, current
      ensures Valid() && (current == old(current) || fresh(current))
      ensures ok <==> Fit(frames, segmentSize)
      ensures OnFile() == if ok then PlaceAll(old(OnFile()), frames, segmentSize)
                          else Sealed(PlaceAll(old(OnFile()), frames[..Fitting(frames, segmentSize)], segmentSize))
    {
      hide Flat, Fitting, PlaceAll, Place, Sealed, Ends, Caught;
      ghost var start := OnFile();
      var written, fi := 0, 0;
      assert frames[..0] == [] && frames[..|frames|] == frames;
      NothingPlaced(start, segmentSize);
      CaughtUp(start, frames, 0, segmentSize);
      while written < |buf|
        invariant Valid() && (current == old(current) || fresh(current))
        invariant 0 <= fi <= |frames| && written == |Flat(frames[..fi])| <= |buf|
        invariant forall i | 0 <= i < fi :: |frames[i]| <= segmentSize
        invariant Caught(OnFile(), PlaceAll(start, frames[..fi], segmentSize), frames, fi, segmentSize)
        decreases |buf| - written, current.writeOffset
      {
        ghost var base := PlaceAll(start, frames[..fi], segmentSize);
        if fi == |frames| { assert false; }
        Grows(frames, fi);
        if current.IsFull(1) { TurnOver(base, frames, fi); }
        var space := current.maxSize - current.writeOffset;
        var end, next := NextCut(written, fi, space, frames);
        if next > fi { Between(frames, fi + 1, next); }
        if end == written {
          if space < segmentSize {
            TurnOver(base, frames, fi);
            continue;
          }
          NoRoom(OnFile(), base, frames, fi, segmentSize);
          FittingIs(frames, segmentSize, fi);
          return false;
        }
        Between(frames, fi, next);
        WriteOut(buf[written..end], start, frames, fi, next);
        CaughtUp(OnFile(), frames, next, segmentSize);
        fi, written := next, end;
      }
      ok := true;
      if fi < |frames| { Grows(frames, fi); }
      AllPlaced(OnFile(), PlaceAll(start, frames, segmentSize), frames, segmentSize);
    }

    /** A rotation before a frame that does not fit. */
    method TurnOver(ghost base: Layout, ghost frames: seq<seq<Byte>>, ghost fi: nat)
      requires Valid() && fi < |frames| && Caught(OnFile(), base, frames, fi, segmentSize)
      requires current.file != [] && |current.file| + |frames[fi]| > segmentSize
      modifies this`closed, this`current, current
      ensures Valid() && fresh(current) && current.file == [] && Caught(OnFile(), base, frames, fi, segmentSize)
    {
      hide Caught;
      Turn(OnFile(), base, frames, fi, segmentSize);
      Rotate();
    }

    /** One write of the frames `fi` to `next`, which fit. */
    method WriteOut(chunk: seq<Byte>, ghost start: Layout, ghost frames: seq<seq<Byte>>, ghost fi: nat, ghost next: nat)
      requires Valid() && fi < next <= |frames| && chunk == Flat(frames[fi..next])
      requires |current.file| + |chunk| <= segmentSize
      requires Caught(OnFile(), PlaceAll(start, frames[..fi], segmentSize), frames, fi, segmentSize)
      modifies current
      ensures Valid() && OnFile() == PlaceAll(start, frames[..next], segmentSize)
      ensures forall i | fi <= i < next :: |frames[i]| <= segmentSize
    {
      hide Caught, Flat, PlaceAll;
      Packed(OnFile(), start, frames, fi, next, segmentSize);
      Inside(frames[fi..next]);
      assert forall i | fi <= i < next :: frames[i] == frames[fi..next][i - fi];
      var _ := current.Write(chunk);
    }

    /** The largest prefix of the buffered frames, from `fi` on, that fits in `space` bytes. */
    method NextCut(written: nat, fi: nat, space: nat, ghost frames: seq<seq<Byte>>) returns (end: nat, next: nat)
      requires Ends(frames, frameEnds) && fi <= |frames| && written == |Flat(frames[..fi])|
      ensures fi <= next <= |frames| && end == |Flat(frames[..next])|
      ensures next > fi ==> end - written <= space
      ensures next < |frames| ==> |Flat(frames[..next + 1])| - written > space
    {
      hide Flat;
      end, next := written, fi;
      while next < |frameEnds| && frameEnds[next] - written <= space
        invariant fi <= next <= |frames| && end == |Flat(frames[..next])|
        invariant next > fi ==> end - written <= space
      {
        end := frameEnds[next];
        next := next + 1;
      }
    }

    /** The encoding loop of AppendBatch: one buffer, the frame ends, and an LSN per record, up to
      * the first record that is invalid or larger than a segment. */
    method Encode(batch: Batch) returns (refused: Option<WalError>)
      requires Valid()
      modifies this`encBuf, this`frameEnds, this`currentLSN
      ensures var n := Encodable(batch, segmentSize);
              if n == |batch| then
                && refused == None && currentLSN == old(currentLSN) + n
                && Encoded(crc, Numbered(batch, old(currentLSN)), encBuf, frameEnds)
              else refused == Some(Refusal(batch[n])) && currentLSN == old(currentLSN) + n + 1
    {
      hide Flat, Frame, Encodable, FramesOf, Encoded;
      var lsn := currentLSN;
      encBuf, frameEnds := [], [];
      NothingEncoded(crc);
      ghost var rs: seq<WalRecord> := [];
      for i := 0 to |batch|
        invariant currentLSN == lsn + i && rs == Numbered(batch, lsn)[..i]
        invariant Encoded(crc, rs, encBuf, frameEnds)
        invariant forall j | 0 <= j < i :: FitsFrame(batch[j], segmentSize)
      {
        currentLSN := currentLSN + 1;
        var record := WalRecord(currentLSN, batch[i].kind, batch[i].payload);
        if !FitsFrame(batch[i], segmentSize) { EncodableIs(batch, segmentSize, i); }
        if record.kind == 0 { return Some(InvalidRecordType); }
        if |record.payload| >= TWO_32 { return Some(PayloadTooLarge); }
        EncodeOne(crc, rs, record, encBuf, frameEnds);
        var start := |encBuf|;
        encBuf := encBuf + Frame(crc, record);
        if |encBuf| - start > segmentSize { return Some(RecordTooLarge(|encBuf| - start)); }
        frameEnds := frameEnds + [|encBuf|];
        rs := rs + [record];
      }
      EncodableIs(batch, segmentSize, |batch|);
      assert Numbered(batch, lsn)[..|batch|] == Numbered(batch, lsn);
      refused := None;
    }

    /** AppendBatch: numbers the records, encodes them and the commit marker, and packs them.  An
      * invalid or oversized record is refused before anything is written, but the LSNs given out
      * so far stay used; only the commit marker can fail after records were written. */
    method AppendBatch(batch: Batch) returns (r: Appended)
      requires Valid()
      modifies this, current
      ensures Valid() && (current == old(current) || fresh(current))
      ensures batch == []
              ==> r == Started(old(currentLSN)) && OnFile() == old(OnFile()) && currentLSN == old(currentLSN)
      ensures var lsn, n := old(currentLSN), Encodable(batch, segmentSize);
              batch != [] ==>
                && (r.Started? <==> n == |batch| && COMMIT_SIZE <= segmentSize)
                && currentLSN == lsn + n + 1
                && (r.Started? ==>
                      && r.lsn == lsn + 1
                      && OnFile() == PlaceAll(old(OnFile()), FramesOf(crc, Logged(batch, lsn)), segmentSize))
                && (n < |batch| ==> r == Failed(Refusal(batch[n])) && OnFile() == old(OnFile()))
                && (n == |batch| && r.Failed? ==>
                      && r.error == RecordTooLarge(COMMIT_SIZE)
                      && OnFile() == Sealed(PlaceAll(old(OnFile()), FramesOf(crc, Numbered(batch, lsn)), segmentSize)))
    {
      hide Flat, Fitting, Fit, PlaceAll, Sealed, Frame, Encodable, FramesOf, Numbered, Commit, Encoded;
      if |batch| == 0 { return Started(currentLSN); }
      ghost var lsn := currentLSN;
      var startLSN := currentLSN + 1;
      var refused := Encode(batch);
      if refused.Some? { return Failed(refused.value); }
      currentLSN := currentLSN + 1;
      var commit := Commit(currentLSN, |batch|);
      EncodeOne(crc, Numbered(batch, lsn), commit, encBuf, frameEnds);
      encBuf := encBuf + Frame(crc, commit);
      frameEnds := frameEnds + [|encBuf|];
      ghost var frames := FramesOf(crc, Logged(batch, lsn));
      EncodedFrames(crc, Logged(batch, lsn), encBuf, frameEnds);
      LoggedFits(crc, batch, lsn, segmentSize);
      var ok := WriteBuffered(encBuf, frames);
      r := if ok then Started(startLSN) else Failed(RecordTooLarge(COMMIT_SIZE));
    }

    /** Sync makes everything in the current segment durable. */
    method Sync()
      requires Valid()
      modifies current
      ensures Valid() && OnFile() == old(OnFile()) && current.syncedOffset == |current.file|
    {
      current.Sync();
    }

    /** Recover: replays the segments from LSN 0, truncates what is uncommitted, raises the LSN
      * watermark and continues the last segment that is left. */
    method Recover() returns (delivered: seq<WalRecord>)
      requires Valid()
      modifies this, current
      ensures Valid() && fresh(current)
      ensures Files(OnFile()) == DiskAfter(crc, Files(old(OnFile())))
      ensures var r := ReplayDisk(crc, Files(old(OnFile())), FRESH).state;
              && delivered == r.delivered
              && currentLSN == if r.highest > old(currentLSN) then r.highest else old(currentLSN)
    {
      hide ReplayDisk, DiskAfter;
      var disk := closed + [current.file];
      SomethingLeft(crc, disk);
      var st, after := RecoverSegments(crc, disk);
      delivered := st.delivered;
      if st.highest > currentLSN { currentLSN := st.highest; }
      closed := after[..|after| - 1];
      current := new Segment(after[|after| - 1], segmentSize);
    }

    /** Reset: all segments removed, the watermark zeroed. */
    method Reset()
      requires Valid()
      modifies this
      ensures Valid() && fresh(current) && OnFile() == Layout([], []) && currentLSN == 0
    {
      closed, currentLSN := [], 0;
      current := new Segment([], segmentSize);
    }
  }

  /** The size of a commit frame: header, 12 bytes, checksum. */
  const COMMIT_SIZE: nat := 29

  /** A record that can be encoded and fits a segment. */
  predicate FitsFrame(item: Item, max: nat) {
    item.kind != 0 && |item.payload| < TWO_32 && HEADER_SIZE + |item.payload| + CRC_SIZE <= max
  }

  function Refusal(item: Item): WalError {
    if item.kind == 0 then InvalidRecordType
    else if |item.payload| >= TWO_32 then PayloadTooLarge
    else RecordTooLarge(HEADER_SIZE + |item.payload| + CRC_SIZE)
  }

  /** How many records come before the first that cannot be encoded. */
  function Encodable(batch: Batch, max: nat): (n: nat)
    ensures n <= |batch|
  {
    if batch == [] || !FitsFrame(batch[0], max) then 0 else 1 + Encodable(batch[1..], max)
  }

  lemma {:induction false} EncodableIs(batch: Batch, max: nat, n: nat)
    requires n <= |batch| && forall i | 0 <= i < n :: FitsFrame(batch[i], max)
    requires n < |batch| ==> !FitsFrame(batch[n], max)
    ensures Encodable(batch, max) == n
    decreases n
  {
    hide FitsFrame;
    if n > 0 { EncodableIs(batch[1..], max, n - 1); }
  }

  lemma {:induction false} EncodableFit(batch: Batch, max: nat)
    requires Encodable(batch, max) == |batch|
    ensures forall i | 0 <= i < |batch| :: FitsFrame(batch[i], max)
  {
    hide FitsFrame;
    if batch != [] {
      EncodableFit(batch[1..], max);
      assert forall i | 1 <= i < |batch| :: batch[i] == batch[1..][i - 1];
    }
  }

  /** The encode buffer and frame ends of these records. */
  ghost predicate Encoded(crc: Checksum, rs: seq<WalRecord>, buf: seq<Byte>, ends: seq<nat>) {
    buf == Flat(FramesOf(crc, rs)) && Ends(FramesOf(crc, rs), ends)
  }

  lemma NothingEncoded(crc: Checksum)
    ensures Encoded(crc, [], [], [])
  {
  }

  lemma EncodedFrames(crc: Checksum, rs: seq<WalRecord>, buf: seq<Byte>, ends: seq<nat>)
    requires Encoded(crc, rs, buf, ends)
    ensures buf == Flat(FramesOf(crc, rs)) && Ends(FramesOf(crc, rs), ends)
    ensures forall i | 0 <= i < |rs| :: FramesOf(crc, rs)[i] != []
  {
    hide Flat, Frame;
  }

  lemma EncodeOne(crc: Checksum, rs: seq<WalRecord>, r: WalRecord, buf: seq<Byte>, ends: seq<nat>)
    requires Encoded(crc, rs, buf, ends)
    ensures var buf' := buf + Frame(crc, r); Encoded(crc, rs + [r], buf', ends + [|buf'|])
  {
    hide Flat, Frame;
    var fs, fs' := FramesOf(crc, rs), FramesOf(crc, rs + [r]);
    assert fs' == fs + [Frame(crc, r)];
    FlatAppend(fs, [Frame(crc, r)]);
    FlatOne(Frame(crc, r));
    assert fs'[..|fs'|] == fs';
    forall i | 0 <= i < |fs'|
      ensures (ends + [|buf + Frame(crc, r)|])[i] == |Flat(fs'[..i + 1])|
    {
      if i < |fs| { assert fs'[..i + 1] == fs[..i + 1]; }
    }
  }

  /** Which frames of a batch fit a segment: all, or all but the commit marker. */
  lemma LoggedFits(crc: Checksum, batch: Batch, lsn: nat, max: nat)
    requires Encodable(batch, max) == |batch|
    ensures var frames := FramesOf(crc, Logged(batch, lsn));
            && (Fit(frames, max) <==> COMMIT_SIZE <= max)
            && (COMMIT_SIZE > max ==>
                  Fitting(frames, max) == |batch| && frames[..|batch|] == FramesOf(crc, Numbered(batch, lsn)))
  {
    hide Frame, Encodable, Fitting;
    var frames := FramesOf(crc, Logged(batch, lsn));
    EncodableFit(batch, max);
    assert forall i | 0 <= i < |batch| :: |frames[i]| == HEADER_SIZE + |batch[i].payload| + CRC_SIZE;
    assert |frames[|batch|]| == COMMIT_SIZE;
    if COMMIT_SIZE > max { FittingIs(frames, max, |batch|); }
  }

  lemma SomethingLeft(crc: Checksum, disk: seq<seq<Byte>>)
    requires disk != []
    ensures |DiskAfter(crc, disk)| > 0
  {
  }

  /** The files are those of the frames placed so far, up to a rotation that the next frame would
    * cause anyway. */
  ghost predicate Caught(l: Layout, base: Layout, frames: seq<seq<Byte>>, fi: nat, max: nat)
    requires fi <= |frames|
  {
    if fi == |frames| then l == base
    else if |frames[fi]| <= max then Place(l, frames[fi], max) == Place(base, frames[fi], max)
    else Sealed(l) == Sealed(base)
  }

  /** `ends[i]` is where frame `i` ends in the buffer. */
  ghost predicate Ends(frames: seq<seq<Byte>>, ends: seq<nat>) {
    |ends| == |frames| && forall i | 0 <= i < |frames| :: ends[i] == |Flat(frames[..i + 1])|
  }

  lemma NothingPlaced(l: Layout, max: nat)
    ensures Flat([]) == [] && PlaceAll(l, [], max) == l
  {
  }

  lemma CaughtUp(l: Layout, frames: seq<seq<Byte>>, fi: nat, max: nat)
    requires fi <= |frames|
    ensures Caught(l, l, frames, fi, max)
  {
  }

  lemma AllPlaced(l: Layout, base: Layout, frames: seq<seq<Byte>>, max: nat)
    requires Caught(l, base, frames, |frames|, max)
    ensures l == base
  {
  }

  /** Rotating before a frame that does not fit changes nothing in the end. */
  lemma Turn(l: Layout, base: Layout, frames: seq<seq<Byte>>, fi: nat, max: nat)
    requires fi < |frames| && Caught(l, base, frames, fi, max) && l.open != [] && |l.open| + |frames[fi]| > max
    ensures Caught(Layout(l.closed + [l.open], []), base, frames, fi, max)
  {
    assert [] + frames[fi] == frames[fi];
  }

  /** An empty segment that does not take the frame: the frame is too large for any. */
  lemma NoRoom(l: Layout, base: Layout, frames: seq<seq<Byte>>, fi: nat, max: nat)
    requires fi < |frames| && Caught(l, base, frames, fi, max) && l.open == [] && |frames[fi]| > max
    ensures l == Sealed(base)
  {
  }

  /** Frames that fit together are placed by one write. */
  lemma Packed(l: Layout, start: Layout, frames: seq<seq<Byte>>, fi: nat, next: nat, max: nat)
    requires fi < next <= |frames| && Caught(l, PlaceAll(start, frames[..fi], max), frames, fi, max)
    requires |l.open| + |Flat(frames[fi..next])| <= max
    ensures PlaceAll(start, frames[..next], max) == l.(open := l.open + Flat(frames[fi..next]))
    decreases next
  {
    var mid := next - 1;
    assert frames[..next][..mid] == frames[..mid] && frames[fi..next][..mid - fi] == frames[fi..mid];
    var base := PlaceAll(start, frames[..mid], max);
    if mid == fi {
      assert frames[fi..mid] == [] && [] + frames[fi] == frames[fi];
      NothingPlaced(l, max);
    } else {
      Packed(l, start, frames, fi, mid, max);
      assert l.open + (Flat(frames[fi..mid]) + frames[mid]) == l.open + Flat(frames[fi..mid]) + frames[mid];
    }
  }

  lemma Grows(frames: seq<seq<Byte>>, i: nat)
    requires i < |frames|
    ensures |Flat(frames[..i + 1])| == |Flat(frames[..i])| + |frames[i]| <= |Flat(frames)|
  {
    assert frames[..i + 1][..i] == frames[..i];
    Between(frames, i + 1, |frames|);
    assert frames[..|frames|] == frames;
  }

  lemma {:induction false} Inside(frames: seq<seq<Byte>>)
    ensures forall i | 0 <= i < |frames| :: |frames[i]| <= |Flat(frames)|
  {
    if frames != [] { Inside(frames[..|frames| - 1]); }
  }

  lemma Between(frames: seq<seq<Byte>>, i: nat, j: nat)
    requires i <= j <= |frames|
    ensures |Flat(frames[..i])| <= |Flat(frames[..j])| <= |Flat(frames)|
    ensures Flat(frames)[|Flat(frames[..i])|..|Flat(frames[..j])|] == Flat(frames[i..j])
  {
    hide Flat;
    assert frames == frames[..j] + frames[j..] && frames[..j] == frames[..i] + frames[i..j];
    FlatAppend(frames[..j], frames[j..]);
    FlatAppend(frames[..i], frames[i..j]);
  }

  /* ----- what a run of appends leaves to recovery ----- */

  const NO_FILES := Layout([], [])

  /** The files after these batches were appended to an empty WAL. */
  function Journal(crc: Checksum, batches: seq<Batch>, max: nat): Layout {
    if batches == [] then NO_FILES
    else
      var n := |batches| - 1;
      PlaceAll(Journal(crc, batches[..n], max), FramesOf(crc, Logged(batches[n], LastLSN(batches[..n]))), max)
  }

  predicate AllFit(batches: seq<Batch>, max: nat) {
    && COMMIT_SIZE <= max
    && forall i | 0 <= i < |batches| :: Encodable(batches[i], max) == |batches[i]|
  }

  /** The segments hold the log, cut only between frames, and none is larger than the maximum. */
  lemma {:induction false} JournalHoldsLog(crc: Checksum, batches: seq<Batch>, max: nat)
    requires AllFit(batches, max)
    ensures Stores(crc, Journal(crc, batches, max), Log(batches))
    ensures Bounded(Journal(crc, batches, max), max)
  {
    hide Stores, PlaceAll, Bounded, Encodable, Numbered, Fit;
    if batches == [] {
      NothingHeld(crc, max);
    } else {
      var n := |batches| - 1;
      var before, rs := Journal(crc, batches[..n], max), Logged(batches[n], LastLSN(batches[..n]));
      JournalHoldsLog(crc, batches[..n], max);
      PackingKeepsFrames(crc, before, Log(batches[..n]), rs, max);
      LoggedFits(crc, batches[n], LastLSN(batches[..n]), max);
      PackingAppends(before, FramesOf(crc, rs), max);
    }
  }

  lemma NothingHeld(crc: Checksum, max: nat)
    ensures Stores(crc, NO_FILES, []) && Bounded(NO_FILES, max)
  {
    assert Holding(crc, NO_FILES, [], []);
    assert Joined([]) + [] == [];
  }

  /** For every list of batches, every segment size that fits each frame and every cut of the last
    * segment: recovering what AppendBatch wrote delivers exactly the batches whose commit frame
    * lies before the cut, whatever segments they straddle. */
  lemma JournalRecovers(crc: Checksum, batches: seq<Batch>, max: nat, c: nat)
    requires AllLoggable(batches) && LastLSN(batches) < TWO_63 && AllFit(batches, max)
    requires c <= |Journal(crc, batches, max).open|
    ensures var l := Journal(crc, batches, max);
            var k := Durable(crc, batches, |Flat(l.closed)| + c);
            var r := ReplayDisk(crc, l.closed + [l.open[..c]], FRESH);
            r.state.delivered == Data(batches[..k]) && r.state.highest == LastLSN(batches[..k])
  {
    hide Journal, AllFit, Loggable, LastLSN, Log, Written, Durable, ReplayDisk, Data, Joined;
    var l := Journal(crc, batches, max);
    JournalHoldsLog(crc, batches, max);
    var parts, last :| Holding(crc, l, parts, last) && Joined(parts) + last == Log(batches);
    FlatOnDisk(crc, parts);
    TornTailRecovery(crc, batches, parts, last, c);
  }

  lemma {:induction false} FlatOnDisk(crc: Checksum, parts: seq<seq<WalRecord>>)
    ensures Flat(OnDisk(crc, parts)) == Written(crc, Joined(parts))
    decreases |parts|
  {
    hide Written;
    if parts == [] {
      NothingWritten(crc);
    } else {
      var n := |parts| - 1;
      FlatOnDisk(crc, parts[..n]);
      assert parts == parts[..n] + [parts[n]];
      assert OnDisk(crc, parts)[..n] == OnDisk(crc, parts[..n]);
      JoinedAppend(parts[..n], [parts[n]]);
      JoinedOne(parts[n]);
      WrittenAppend(crc, Joined(parts[..n]), parts[n]);
    }
  }
}
