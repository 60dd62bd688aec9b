/** What a stream reader delivers from a WAL (internal/wal/stream.go): at rest, a run of whole
  * batches that contains every batch above its start; on the live segment, the batches synced
  * later; and the two situations in which batches are missed. */
module Streams {
  import opened Core
  import opened Bytes
  import opened Frames
  import opened Recovery
  import opened Segments
  import opened Truncation
  import opened SegmentRecovery
  import opened Skipping
  import opened Streaming

  /* ----- the frame walk on what was written ----- */

  predicate Streamable(rs: seq<WalRecord>) {
    forall i | 0 <= i < |rs| :: Framable(rs[i]) && |rs[i].payload| <= PEEK_MAX_PAYLOAD
  }

  /** Whole frames are read; a frame that is only partly there is not. */
  lemma {:induction false} WalkedWritten(crc: Checksum, rs: seq<WalRecord>, r: WalRecord, torn: seq<Byte>)
    requires Streamable(rs) && Streamable([r])
    requires |torn| < |Frame(crc, r)| && torn == Frame(crc, r)[..|torn|]
    ensures Walked(crc, Written(crc, rs) + torn) == Found(rs, if torn == [] then Clean else Short)
    decreases |rs|
  {
    hide Frame, Decode, AnnouncedLength;
    var data := Written(crc, rs) + torn;
    if rs == [] {
      assert data == torn && [r][0] == r;
      if |torn| >= HEADER_SIZE + CRC_SIZE {
        PartialFrame(crc, r, data);
        PartialLength(crc, r, data);
      }
    } else {
      var first, rest := Frame(crc, rs[0]), Written(crc, rs[1..]) + torn;
      assert data == first + rest;
      PartialFrame(crc, rs[0], data);
      PartialLength(crc, rs[0], data);
      DecodeExactly(crc, first, rs[0]);
      assert data[..|first|] == first && data[|first|..] == rest;
      WalkedWritten(crc, rs[1..], r, torn);
    }
  }

  lemma PartialLength(crc: Checksum, r: WalRecord, data: seq<Byte>)
    requires Framable(r) && |data| >= HEADER_SIZE + CRC_SIZE
    requires AnnouncedLength(data) == |Frame(crc, r)|
    ensures Get(data[9..13]) == |r.payload|
  {
  }

  lemma WalkedCut(crc: Checksum, rs: seq<WalRecord>, c: nat)
    requires Streamable(rs) && c <= |Written(crc, rs)|
    ensures var m := Whole(crc, rs, c);
            Walked(crc, Written(crc, rs)[..c]) == Found(rs[..m], if c == |Written(crc, rs[..m])| then Clean else Short)
  {
    hide Frame, Written, Walked, Whole, Framable;
    CutWritten(crc, rs, c);
    var m := Whole(crc, rs, c);
    var whole := Written(crc, rs[..m]);
    var torn := Written(crc, rs)[|whole|..c];
    assert Written(crc, rs)[..c] == whole + torn;
    if m < |rs| {
      WalkedWritten(crc, rs[..m], rs[m], torn);
    } else {
      CommitAnnounces(0, 0);
      WalkedWritten(crc, rs[..m], Commit(0, 0), torn);
    }
  }

  lemma WalkedAll(crc: Checksum, rs: seq<WalRecord>)
    requires Streamable(rs)
    ensures Walked(crc, Written(crc, rs)) == Found(rs, Clean)
  {
    hide Written, Walked, Whole, Framable;
    var c := |Written(crc, rs)|;
    WalkedCut(crc, rs, c);
    WholeAll(crc, rs);
    assert rs[..|rs|] == rs && Written(crc, rs)[..c] == Written(crc, rs);
  }

  /* ----- batches in the stream ----- */

  lemma {:induction false} EmitsAppend(p: seq<WalRecord>, xs: seq<WalRecord>, ys: seq<WalRecord>)
    ensures Emits(p, xs + ys) == Emits(p, xs) + Emits(Left(p, xs), ys)
    decreases |xs|
  {
    hide Left, Announced, Emits;
    if xs == [] {
      assert xs + ys == ys && [] + Emits(p, ys) == Emits(p, ys);
      YieldNothing(p);
      EmitsNone(p);
    } else {
      var r, rest := xs[0], xs[1..];
      SplitFirst(xs, ys);
      YieldAppend(p, [r], rest);
      EmitsFirst(p, r, rest);
      EmitsFirst(p, r, rest + ys);
      if r.kind == BATCH_COMMIT {
        YieldCommit(p, r);
        EmitsAppend([], rest, ys);
        var done := if |p| == Announced(r) then p + [r] else [];
        Regroup(done, Emits([], rest), Emits(Left([], rest), ys));
      } else {
        YieldData(p, [r]);
        EmitsAppend(p + [r], rest, ys);
      }
    }
  }

  lemma EmitsNone(p: seq<WalRecord>)
    ensures Emits(p, []) == []
  {
  }

  lemma {:induction false} EmitsData(p: seq<WalRecord>, rs: seq<WalRecord>)
    requires forall i | 0 <= i < |rs| :: rs[i].kind != BATCH_COMMIT
    ensures Emits(p, rs) == []
    decreases |rs|
  {
    if rs != [] { EmitsData(p + [rs[0]], rs[1..]); }
  }

  /** Data records and a commit marker: all of them if the count is right, nothing otherwise. */
  lemma EmitsBatch(data: seq<WalRecord>, commit: WalRecord)
    requires commit.kind == BATCH_COMMIT && forall i | 0 <= i < |data| :: data[i].kind != BATCH_COMMIT
    ensures Emits([], data + [commit]) == (if |data| == Announced(commit) then data + [commit] else [])
    ensures Left([], data + [commit]) == []
  {
    hide Left, Emits, Announced, Yield;
    assert [] + data == data && [commit] == [commit] + [];
    YieldData([], data);
    EmitsData([], data);
    EmitsAppend([], data, [commit]);
    YieldAppend([], data, [commit]);
    YieldCommit(data, commit);
    EmitsFirst(data, commit, []);
    EmitsNone([]);
  }

  /** A batch read from its record `q` on: the whole batch if that is the first, nothing else. */
  lemma EmitsLogged(batch: Batch, lsn: nat, q: nat)
    requires Loggable(batch) && lsn + |batch| + 1 < TWO_64 && q <= |batch| + 1
    ensures var rs := Logged(batch, lsn)[q..];
            && Emits([], rs) == (if q == 0 then Logged(batch, lsn) else [])
            && Left([], rs) == []
  {
    hide Left, Emits, Announced, Commit, Yield;
    var all, rs := Logged(batch, lsn), Logged(batch, lsn)[q..];
    if q == |batch| + 1 {
      assert rs == [];
      EmitsNone([]);
      YieldNothing([]);
    } else {
      var commit, data := Commit(lsn + |batch| + 1, |batch|), all[q..|batch|];
      assert rs == data + [commit];
      LoggedKinds(batch, lsn);
      assert forall i | 0 <= i < |data| :: data[i] == all[q + i];
      EmitsBatch(data, commit);
      CommitAnnounces(lsn + |batch| + 1, |batch|);
      if q == 0 { assert rs == all; }
    }
  }

  lemma LoggedKinds(batch: Batch, lsn: nat)
    requires Loggable(batch)
    ensures forall i | 0 <= i < |batch| :: Logged(batch, lsn)[i].kind != BATCH_COMMIT
    ensures Commit(lsn + |batch| + 1, |batch|).kind == BATCH_COMMIT
  {
  }

  /** The first batch that starts at or after record `s` of the log. */
  function FirstWhole(batches: seq<Batch>, s: nat): (j: nat)
    ensures j <= |batches|
  {
    if batches == [] || LastLSN(batches[..|batches| - 1]) < s then |batches|
    else FirstWhole(batches[..|batches| - 1], s)
  }

  /** Reading a log from any record on delivers it from the next batch boundary on. */
  lemma {:induction false} EmitsLog(batches: seq<Batch>, s: nat)
    requires AllLoggable(batches) && LastLSN(batches) < TWO_63 && s <= |Log(batches)|
    ensures var b := LastLSN(batches[..FirstWhole(batches, s)]);
            && s <= b <= |Log(batches)|
            && Emits([], Log(batches)[s..]) == Log(batches)[b..] && Left([], Log(batches)[s..]) == []
  {
    hide Emits, Left, Loggable, Logged, Yield;
    LogLength(batches);
    if batches == [] {
      assert Log(batches)[s..] == [] && batches[..0] == [];
      EmitsNone([]);
      YieldNothing([]);
    } else {
      var n := |batches| - 1;
      var lsn := LastLSN(batches[..n]);
      LogLength(batches[..n]);
      LSNsGrow(batches, n);
      assert batches[..|batches|] == batches;
      if lsn < s {
        EmitsLogged(batches[n], lsn, s - lsn);
        assert Log(batches)[s..] == Logged(batches[n], lsn)[s - lsn..];
      } else {
        var j := FirstWhole(batches[..n], s);
        assert batches[..n][..j] == batches[..j];
        EmitsLog(batches[..n], s);
        EmitsMore(Log(batches[..n]), s, LastLSN(batches[..j]), batches[n], lsn);
      }
    }
  }

  lemma EmitsMore(before: seq<WalRecord>, s: nat, b: nat, batch: Batch, lsn: nat)
    requires s <= b <= |before| && Loggable(batch) && lsn + |batch| + 1 < TWO_64
    requires Emits([], before[s..]) == before[b..] && Left([], before[s..]) == []
    ensures var all := before + Logged(batch, lsn);
            Emits([], all[s..]) == all[b..] && Left([], all[s..]) == []
  {
    hide Emits, Left, Loggable, Logged, Yield;
    var last := Logged(batch, lsn);
    var all := before + last;
    EmitsLogged(batch, lsn, 0);
    assert last[0..] == last;
    assert all[s..] == before[s..] + last && all[b..] == before[b..] + last;
    EmitsAppend([], before[s..], last);
    YieldAppend([], before[s..], last);
  }

  lemma LogLength(batches: seq<Batch>)
    ensures |Log(batches)| == LastLSN(batches)
  {
    LogPositions(batches);
  }

  /** It is the batch with index at most `k` exactly when nothing of batch `k` was skipped. */
  lemma {:induction false} FirstWholeAt(batches: seq<Batch>, s: nat, k: nat)
    requires k <= |batches|
    ensures FirstWhole(batches, s) <= k <==> k == |batches| || s <= LastLSN(batches[..k])
  {
    if batches != [] && k < |batches| {
      var n := |batches| - 1;
      if LastLSN(batches[..n]) < s {
        LSNsGrow(batches[..n], k);
        assert batches[..n][..k] == batches[..k];
      } else {
        FirstWholeAt(batches[..n], s, k);
        assert batches[..n][..k] == batches[..k];
      }
    }
  }

  /* ----- a WAL at rest ----- */

  /** The segments a new reader reads. */
  function ReadFrom(parts: seq<seq<WalRecord>>, from: nat): seq<seq<WalRecord>> {
    if parts == [] then []
    else (if LastOf(parts[0]) <= from then [] else [parts[0]]) + ReadFrom(parts[1..], from)
  }

  /** Some segment ends with the record of this LSN. */
  ghost predicate EndsAt(parts: seq<seq<WalRecord>>, lsn: nat) {
    exists i | 0 <= i < |parts| :: parts[i] != [] && LastOf(parts[i]) == lsn
  }

  /** The skipped segments are the first `s` records. */
  lemma {:induction false} ReadFromIsSuffix(parts: seq<seq<WalRecord>>, from: nat, base: nat) returns (s: nat)
    requires Positioned(Joined(parts), base)
    ensures s <= |Joined(parts)| && Joined(ReadFrom(parts, from)) == Joined(parts)[s..]
    ensures s > 0 ==> base + s <= from && EndsAt(parts, base + s)
    decreases |parts|
  {
    hide Positioned, LastOf, EndsAt, Joined;
    if parts == [] {
      s := 0;
    } else {
      var part, rest := parts[0], parts[1..];
      FirstPart(parts, base);
      assert [part] + rest == parts;
      var s' := ReadFromIsSuffix(rest, from, base + |part|);
      if LastOf(part) <= from {
        s := |part| + s';
        assert [] + ReadFrom(rest, from) == ReadFrom(rest, from);
        assert (part + Joined(rest))[s..] == Joined(rest)[s'..];
        if s' > 0 {
          EndsLater(part, rest, base + s);
        } else if part != [] {
          EndsFirst(part, rest);
        }
      } else {
        s := 0;
        LastPositioned(part, base, from);
        JoinedAppend([part], ReadFrom(rest, from));
        JoinedOne(part);
        assert Joined(rest)[0..] == Joined(rest);
      }
    }
  }

  lemma LastPositioned(part: seq<WalRecord>, base: nat, from: nat)
    requires LastOf(part) > from && LastOf(part) == if part == [] then 0 else base + |part|
    ensures base + |part| > from
  {
  }

  lemma EndsFirst(part: seq<WalRecord>, rest: seq<seq<WalRecord>>)
    requires part != []
    ensures EndsAt([part] + rest, LastOf(part))
  {
    assert ([part] + rest)[0] == part;
  }

  /** A segment that ends at `from` is skipped, with everything before it. */
  lemma {:induction false} SkipsThrough(parts: seq<seq<WalRecord>>, from: nat, base: nat)
    requires Positioned(Joined(parts), base) && EndsAt(parts, from)
    ensures from > base && |Joined(ReadFrom(parts, from))| + (from - base) <= |Joined(parts)|
    decreases |parts|
  {
    var part, rest := parts[0], parts[1..];
    FirstPart(parts, base);
    var i :| 0 <= i < |parts| && parts[i] != [] && LastOf(parts[i]) == from;
    assert [] + ReadFrom(rest, from) == ReadFrom(rest, from);
    if i == 0 {
      var _ := ReadFromIsSuffix(rest, from, base + |part|);
    } else {
      assert rest[i - 1] == parts[i];
      SkipsThrough(rest, from, base + |part|);
    }
  }

  lemma EndsLater(part: seq<WalRecord>, rest: seq<seq<WalRecord>>, lsn: nat)
    requires EndsAt(rest, lsn)
    ensures EndsAt([part] + rest, lsn)
  {
    var i :| 0 <= i < |rest| && rest[i] != [] && LastOf(rest[i]) == lsn;
    assert ([part] + rest)[i + 1] == rest[i];
  }

  /** Fully synced segments. */
  function AtRest(crc: Checksum, parts: seq<seq<WalRecord>>): Disk
    requires parts != []
  {
    Disk(OnDisk(crc, parts), {}, |Written(crc, parts[|parts| - 1])|)
  }

  lemma {:induction false} ReadSelected(crc: Checksum, parts: seq<seq<WalRecord>>, from: nat, i: nat)
    requires i <= |parts| && parts != []
    requires forall k | 0 <= k < |parts| :: Walkable(parts[k]) && |Written(crc, parts[k])| <= PEEK_CHUNK
    ensures var d := AtRest(crc, parts);
            ReadAll(crc, d, Selected(d, from, i)) == Reading(Joined(ReadFrom(parts[i..], from)), false)
    decreases |parts| - i
  {
    hide Written, ReadOne, Durably, Live, Peek, Walkable, Ascending, LastOf;
    var d := AtRest(crc, parts);
    if i < |parts| {
      ReadSelected(crc, parts, from, i + 1);
      assert parts[i..][0] == parts[i] && parts[i..][1..] == parts[i + 1..];
      PeekExact(crc, parts[i]);
      var more, below := Selected(d, from, i + 1), ReadFrom(parts[i + 1..], from);
      if LastOf(parts[i]) <= from {
        assert [] + more == more && [] + below == below;
      } else {
        assert ([i] + more)[0] == i && ([i] + more)[1..] == more && ([parts[i]] + below)[1..] == below;
        ReadWhole(crc, parts, i);
      }
    }
  }

  lemma ReadWhole(crc: Checksum, parts: seq<seq<WalRecord>>, i: nat)
    requires i < |parts| && Walkable(parts[i])
    ensures var d := AtRest(crc, parts); ReadOne(crc, Durably(d, i), Live(d, i)) == Reading(parts[i], false)
  {
    hide Written, Walked, Walkable;
    var d := AtRest(crc, parts);
    WalkableStreams(parts[i]);
    WalkedAll(crc, parts[i]);
    assert Durably(d, i) == d.files[i];
  }

  lemma WalkableStreams(rs: seq<WalRecord>)
    requires Walkable(rs)
    ensures Streamable(rs)
  {
  }

  /** The segments, small enough for exact peeks, hold the log. */
  predicate LiesIn(crc: Checksum, batches: seq<Batch>, parts: seq<seq<WalRecord>>) {
    && parts != [] && Joined(parts) == Log(batches)
    && forall i | 0 <= i < |parts| :: |Written(crc, parts[i])| <= PEEK_CHUNK
  }

  /** A new reader of these segments delivers the log from record `at` on. */
  ghost predicate Serves(crc: Checksum, batches: seq<Batch>, parts: seq<seq<WalRecord>>, from: nat, at: nat)
    requires parts != []
  {
    at <= |Log(batches)| && Offered(crc, AtRest(crc, parts), from) == Reading(Log(batches)[at..], false)
  }

  /** For every way a log lies in small segments and every start: the reader delivers the log from
    * the first batch boundary after the `s` skipped records. */
  lemma StreamOf(crc: Checksum, batches: seq<Batch>, parts: seq<seq<WalRecord>>, from: nat) returns (s: nat)
    requires AllLoggable(batches) && LastLSN(batches) < TWO_63 && LiesIn(crc, batches, parts)
    ensures s <= |Log(batches)| == LastLSN(batches) && (s > 0 ==> s <= from && EndsAt(parts, s))
    ensures EndsAt(parts, from) ==> s >= from
    ensures Serves(crc, batches, parts, from, LastLSN(batches[..FirstWhole(batches, s)]))
  {
    hide Written, Log, LastLSN, Emits, ReadAll, Selected, ReadFrom, Joined, Walkable, Loggable, OnDisk, LastOf,
      FirstWhole;
    LogPositions(batches);
    LogFramable(batches);
    s := ReadFromIsSuffix(parts, from, 0);
    if EndsAt(parts, from) { SkipsThrough(parts, from, 0); }
    PartsWalkable(crc, parts);
    ReadSelected(crc, parts, from, 0);
    assert parts[0..] == parts;
    EmitsLog(batches, s);
  }

  /** Started at a commit LSN, a reader over a WAL at rest delivers whole batches in order, a suffix
    * of the log that contains every batch above its start. */
  lemma StreamAtRest(crc: Checksum, batches: seq<Batch>, parts: seq<seq<WalRecord>>, k: nat) returns (j: nat)
    requires AllLoggable(batches) && LastLSN(batches) < TWO_63 && LiesIn(crc, batches, parts) && k <= |batches|
    ensures j <= k && Serves(crc, batches, parts, LastLSN(batches[..k]), LastLSN(batches[..j]))
  {
    hide LastLSN, Serves, Loggable, FirstWhole, LiesIn;
    var s := StreamOf(crc, batches, parts, LastLSN(batches[..k]));
    j := FirstWhole(batches, s);
    FirstWholeAt(batches, s, k);
  }

  /** Started one above a commit LSN, as a follower asks for it: the next batch is delivered
    * exactly when no segment ends with that batch's first record. */
  lemma StreamFromNext(crc: Checksum, batches: seq<Batch>, parts: seq<seq<WalRecord>>, k: nat) returns (j: nat)
    requires AllLoggable(batches) && LastLSN(batches) < TWO_63 && LiesIn(crc, batches, parts) && k < |batches|
    ensures var from := LastLSN(batches[..k]) + 1;
            j <= k + 1 && Serves(crc, batches, parts, from, LastLSN(batches[..j])) && (j <= k <==> !EndsAt(parts, from))
  {
    hide LastLSN, Serves, Loggable, FirstWhole, LastOf, LiesIn;
    var from := LastLSN(batches[..k]) + 1;
    var s := StreamOf(crc, batches, parts, from);
    j := FirstWhole(batches, s);
    FirstWholeAt(batches, s, k);
    FirstWholeAt(batches, s, k + 1);
    NextLSN(batches, k);
  }

  lemma NextLSN(batches: seq<Batch>, k: nat)
    requires k < |batches|
    ensures LastLSN(batches[..k]) + 1 <= LastLSN(batches[..k + 1])
  {
    assert batches[..k + 1][..k] == batches[..k];
  }

  /* ----- a WAL that grows ----- */

  lemma WrittenSlice(crc: Checksum, rs: seq<WalRecord>, m: nat, q: nat)
    requires m <= q <= |rs|
    ensures |Written(crc, rs[..m])| <= |Written(crc, rs[..q])| <= |Written(crc, rs)|
    ensures Written(crc, rs)[|Written(crc, rs[..m])|..|Written(crc, rs[..q])|] == Written(crc, rs[m..q])
    ensures Written(crc, rs)[|Written(crc, rs[..m])|..] == Written(crc, rs[m..])
  {
    hide Written;
    assert rs == rs[..q] + rs[q..] && rs[..q] == rs[..m] + rs[m..q] && rs == rs[..m] + rs[m..];
    WrittenAppend(crc, rs[..q], rs[q..]);
    WrittenAppend(crc, rs[..m], rs[m..q]);
    WrittenAppend(crc, rs[..m], rs[m..]);
  }

  /** A reader on the live segment that has read `m` of its records: whatever is synced into the
    * segment later is coming, frame by whole frame, and nothing beyond the synced offset. */
  lemma LiveSegmentGrows(reader: StreamReader, d: Disk, rs: seq<WalRecord>, m: nat)
    requires reader.Valid(d) && reader.open && Live(d, reader.id) && reader.emit == []
    requires d.files[reader.id] == Written(reader.crc, rs) && Streamable(rs)
    requires m <= |rs| && reader.offset == |Written(reader.crc, rs[..m])|
    ensures var q := Whole(reader.crc, rs, d.synced);
            m <= q && reader.Coming(d) == Reading(Emits(reader.pending, rs[m..q]), false)
  {
    hide Written, Walked, Emits, Peek, Framable, Whole;
    var crc, offset := reader.crc, reader.offset;
    var c := d.synced - offset;
    WrittenSlice(crc, rs, m, |rs|);
    assert rs[m..|rs|] == rs[m..];
    assert reader.Unread(d) == Written(crc, rs)[offset..][..c];
    WholeFrom(crc, rs, m, d.synced);
    WalkedCut(crc, rs[m..], c);
    NotLast(reader.ids, reader.seen, reader.idx);
    assert reader.Todo(d) == [];
    var q := Whole(crc, rs, d.synced);
    assert rs[m..][..q - m] == rs[m..q] && rs[m..q] + [] == rs[m..q];
    assert [] + Emits(reader.pending, rs[m..q]) == Emits(reader.pending, rs[m..q]);
  }

  lemma {:induction false} WholeFrom(crc: Checksum, rs: seq<WalRecord>, m: nat, c: nat)
    requires m <= |rs| && |Written(crc, rs[..m])| <= c
    ensures Whole(crc, rs, c) == m + Whole(crc, rs[m..], c - |Written(crc, rs[..m])|)
    decreases m
  {
    hide Frame;
    if m > 0 {
      assert rs[..m][0] == rs[0] && rs[..m][1..] == rs[1..][..m - 1] && rs[m..] == rs[1..][m - 1..];
      WholeFrom(crc, rs[1..], m - 1, c - |Frame(crc, rs[0])|);
    } else {
      assert rs[..0] == [] && rs[0..] == rs;
    }
  }

  /** The segment is closed under a reader that opened it when it held `n` records and has read
    * `m`: the rest of the segment is read exactly when it had been read or was there at opening. */
  lemma ClosedUnderReader(reader: StreamReader, d: Disk, rs: seq<WalRecord>, m: nat, n: nat)
    requires reader.Valid(d) && reader.open && !Live(d, reader.id)
    requires d.files[reader.id] == Written(reader.crc, rs) && Streamable(rs)
    requires m <= |rs| && reader.offset == |Written(reader.crc, rs[..m])|
    requires n <= |rs| && reader.size == |Written(reader.crc, rs[..n])|
    ensures var read := ReadOne(reader.crc, reader.Unread(d), false);
            && read == Reading(if m <= n then rs[m..n] else [], false)
            && (read.records == rs[m..] <==> m == |rs| || n == |rs|)
  {
    hide Written, Walked, Peek, Framable, Ascending;
    var crc := reader.crc;
    reader.UnreadIs(d);
    SliceIsRest(rs, m, n);
    if m <= n {
      WrittenSlice(crc, rs, m, n);
      ReadSlice(crc, rs, m, n);
    } else {
      WrittenPrefix(crc, rs, n, m);
      ReadSlice(crc, rs, 0, 0);
      assert rs[0..0] == [];
      NothingWritten(crc);
    }
  }

  lemma ReadSlice(crc: Checksum, rs: seq<WalRecord>, m: nat, n: nat)
    requires Streamable(rs) && m <= n <= |rs|
    ensures ReadOne(crc, Written(crc, rs[m..n]), false) == Reading(rs[m..n], false)
  {
    hide Written, Walked, Framable;
    WalkedAll(crc, rs[m..n]);
  }

  lemma SliceIsRest(rs: seq<WalRecord>, m: nat, n: nat)
    requires m <= |rs| && n <= |rs|
    ensures (if m <= n then rs[m..n] else []) == rs[m..] <==> m == |rs| || n == |rs|
  {
    var slice := if m <= n then rs[m..n] else [];
    assert |slice| == (if m <= n then n - m else 0) && |rs[m..]| == |rs| - m;
    if m == |rs| { assert slice == []; }
    if n == |rs| { assert slice == rs[m..]; }
  }

  /** The same files but for file `j`; when that is the live one, what of it is durable may differ. */
  predicate SameBut(d: Disk, d': Disk, j: nat) {
    && |d.files| == |d'.files| && d'.gone == d.gone
    && (forall i | 0 <= i < |d.files| && i != j :: d'.files[i] == d.files[i])
    && (!Live(d, j) ==> d'.synced == d.synced)
  }

  lemma {:induction false} ReadSame(crc: Checksum, d: Disk, d': Disk, j: nat, todo: seq<nat>)
    requires Proper(d) && Proper(d') && SameBut(d, d', j)
    requires forall i | 0 <= i < |todo| :: todo[i] < |d.files| && todo[i] != j
    ensures ReadAll(crc, d', todo) == ReadAll(crc, d, todo)
  {
    hide ReadOne, Then;
    if todo != [] {
      assert Durably(d', todo[0]) == Durably(d, todo[0]);
      ReadSame(crc, d, d', j, todo[1..]);
    }
  }

  /** A segment that is gone, or whose peeked tail is at or below the start, when the reader first
    * lists the segments has no influence on what is coming ever after, whatever is written and
    * synced into it. */
  lemma PassedOverForGood(reader: StreamReader, d: Disk, d': Disk, j: nat)
    requires reader.Valid(d) && reader.Valid(d') && SameBut(d, d', j)
    requires reader.ids != [] && j < |reader.listed.files|
    requires j in reader.listed.gone || Peek(reader.listed.files[j]) <= reader.from
    ensures reader.Coming(d') == reader.Coming(d)
  {
    hide Selected, ReadAll, ReadOne, Then, Emits, Ascending, Peek;
    SelectedExactly(reader.listed, reader.from, 0, j);
    assert j !in reader.ids;
    var listed, later := reader.ids[if reader.open then reader.idx + 1 else reader.idx..],
      Since(reader.seen, |d.files|);
    var todo := reader.Todo(d);
    assert todo == listed + later && reader.Todo(d') == todo;
    assert forall i | 0 <= i < |todo| :: todo[i] != j;
    ReadSame(reader.crc, d, d', j, todo);
    if reader.open { assert reader.Unread(d') == reader.Unread(d); }
  }

  /** So a batch is missed: a reader that listed the first of two segments and has finished it waits
    * for a third, whatever is synced into the second. */
  lemma SecondSegmentIsMissed(reader: StreamReader, d: Disk)
    requires reader.Valid(d) && |d.files| == 2 && reader.ids == [0] && reader.seen == 2
    requires reader.idx == 1 && !reader.open && reader.pending == [] && reader.emit == []
    ensures reader.Coming(d) == Reading([], false)
  {
    hide Selected, ReadOne, Ascending;
    assert reader.Todo(d) == [];
  }

  /** Next until caught up, by a new reader: exactly what the listed segments offer. */
  method StreamFrom(crc: Checksum, from: nat, d: Disk) returns (out: seq<WalRecord>, end: Delivery)
    requires Proper(d)
    ensures var offered := Offered(crc, d, from);
            out == offered.records && end == if offered.failed then Corrupted else CaughtUp
  {
    hide Offered, Emits, ReadAll;
    var reader := new StreamReader(crc, from);
    reader.NewReader(d);
    out, end := reader.Drain(d);
  }

  /** It happens: a reader that starts at 0 on one full and one empty segment lists only the first. */
  lemma EmptyTailIsNotListed(crc: Checksum, part: seq<WalRecord>)
    requires Walkable(part) && part != [] && |Written(crc, part)| <= PEEK_CHUNK
    ensures Selected(Disk([Written(crc, part), []], {}, 0), 0, 0) == [0]
  {
    hide Written, Peek, Ascending;
    var d := Disk([Written(crc, part), []], {}, 0);
    PeekExact(crc, part);
    LastPositive(part);
    EmptyPeek();
    assert Selected(d, 0, 2) == [];
    assert Selected(d, 0, 1) == [] + Selected(d, 0, 2);
    assert Selected(d, 0, 0) == [0] + Selected(d, 0, 1);
  }

  lemma LastPositive(rs: seq<WalRecord>)
    requires Walkable(rs) && rs != []
    ensures LastOf(rs) > 0
  {
  }

  lemma EmptyPeek()
    ensures Peek([]) == 0
  {
  }
}
