/** Recovery above a snapshot (internal/wal/recovery.go, internal/wal/wal.go): segments whose tail
  * shows that they end at or below the snapshot's LSN are not read, or have been deleted.  What
  * is delivered above that LSN is the same. */
module Skipping {
  import opened Core
  import opened Bytes
  import opened Frames
  import opened Recovery
  import opened Segments
  import opened Truncation

  /* ----- the tail peek ----- */

  const PEEK_CHUNK := 65536
  const PEEK_RESYNC := 4096
  const PEEK_MAX_PAYLOAD := 1048576

  /** The bytes start with what could be a frame; the checksum is not looked at. */
  predicate Plausible(b: seq<Byte>) {
    && |b| >= HEADER_SIZE + CRC_SIZE
    && Get(b[9..13]) <= PEEK_MAX_PAYLOAD
    && AnnouncedLength(b) <= |b|
    && b[8] != 0
    && 0 < Get(b[..8]) < TWO_63
  }

  /** The bytes a chain of plausible frames covers, and the LSN of its last frame (0 if none). */
  datatype Chain = Chain(end: nat, lsn: nat)

  function Walk(b: seq<Byte>, last: nat): (c: Chain)
    ensures c.end <= |b|
    decreases |b|
  {
    if !Plausible(b) then Chain(0, last)
    else
      var n := AnnouncedLength(b);
      var rest := Walk(b[n..], Get(b[..8]));
      Chain(n + rest.end, rest.lsn)
  }

  /** walkFrameChain. */
  method WalkFrameChain(b: seq<Byte>) returns (end: nat, lsn: nat)
    ensures Chain(end, lsn) == Walk(b, 0)
  {
    hide Walk, Get;
    end, lsn := 0, 0;
    assert b[0..] == b;
    while end + HEADER_SIZE + CRC_SIZE <= |b|
      invariant end <= |b|
      invariant var rest := Walk(b[end..], lsn); Walk(b, 0) == Chain(end + rest.end, rest.lsn)
    {
      var tail := b[end..];
      WalkStep(tail, lsn);
      if Get(tail[9..13]) > PEEK_MAX_PAYLOAD { break; }
      var length := AnnouncedLength(tail);
      if length > |tail| { break; }
      if tail[8] == 0 { break; }
      var next := Get(tail[..8]);
      if next == 0 || next >= TWO_63 { break; }
      assert tail[length..] == b[end + length..];
      lsn := next;
      end := end + length;
    }
    WalkShort(b[end..], lsn);
  }

  lemma WalkStep(b: seq<Byte>, last: nat)
    requires |b| >= HEADER_SIZE + CRC_SIZE
    ensures Walk(b, last)
         == if Plausible(b) then
              var rest := Walk(b[AnnouncedLength(b)..], Get(b[..8]));
              Chain(AnnouncedLength(b) + rest.end, rest.lsn)
            else Chain(0, last)
  {
  }

  lemma WalkShort(b: seq<Byte>, last: nat)
    ensures !Plausible(b) ==> Walk(b, last) == Chain(0, last)
  {
  }

  function Least(x: nat, y: nat): nat { if x < y then x else y }

  /** Try the start offsets one after the other until a chain reaches the end. */
  function PeekFrom(b: seq<Byte>, start: nat, bestEnd: nat, bestLSN: nat): nat
    requires start <= |b|
    decreases |b| - start
  {
    if start >= Least(|b|, PEEK_RESYNC) then bestLSN
    else
      var c := Walk(b[start..], 0);
      var better := start + c.end > bestEnd;
      var lsn := if better then c.lsn else bestLSN;
      if c.end == |b| - start then lsn
      else PeekFrom(b, start + 1, if better then start + c.end else bestEnd, lsn)
  }

  /** What the peek reads of a segment. */
  function Tail(data: seq<Byte>): seq<Byte> {
    data[|data| - Least(|data|, PEEK_CHUNK)..]
  }

  function Peek(data: seq<Byte>): nat {
    if |data| < HEADER_SIZE + CRC_SIZE then 0 else PeekFrom(Tail(data), 0, 0, 0)
  }

  /** peekSegmentMaxLSN. */
  method PeekSegmentMaxLSN(data: seq<Byte>) returns (lsn: nat)
    ensures lsn == Peek(data)
  {
    hide Walk;
    if |data| < HEADER_SIZE + CRC_SIZE { return 0; }
    var b := data[|data| - Least(|data|, PEEK_CHUNK)..];
    var bestEnd: nat;
    bestEnd, lsn := 0, 0;
    var start := 0;
    while start < Least(|b|, PEEK_RESYNC)
      invariant 0 <= start <= |b|
      invariant Peek(data) == PeekFrom(b, start, bestEnd, lsn)
    {
      var end, found := WalkFrameChain(b[start..]);
      if start + end > bestEnd {
        bestEnd, lsn := start + end, found;
      }
      if end == |b| - start { return; }
      start := start + 1;
    }
  }

  /** The LSN of the last record. */
  function LastOf(rs: seq<WalRecord>): nat {
    if rs == [] then 0 else rs[|rs| - 1].lsn
  }

  /** Records a peek can walk over. */
  predicate Walkable(rs: seq<WalRecord>) {
    forall i | 0 <= i < |rs| :: Framable(rs[i]) && 0 < rs[i].lsn < TWO_63 && |rs[i].payload| <= PEEK_MAX_PAYLOAD
  }

  lemma {:induction false} WalkWritten(crc: Checksum, rs: seq<WalRecord>, last: nat)
    requires Walkable(rs)
    ensures Walk(Written(crc, rs), last) == Chain(|Written(crc, rs)|, if rs == [] then last else LastOf(rs))
    decreases |rs|
  {
    hide Frame, AnnouncedLength;
    if rs != [] {
      var b, first := Written(crc, rs), Frame(crc, rs[0]);
      FrameParts(crc, rs[0]);
      assert b[..|first|] == first && b[|first|..] == Written(crc, rs[1..]);
      PartialFrame(crc, rs[0], b);
      assert b[..8] == first[..8] && b[8] == first[8] && b[9..13] == first[9..13];
      WalkWritten(crc, rs[1..], rs[0].lsn);
    }
  }

  /** The peek is exact on a well-formed segment that fits in what it reads. */
  lemma PeekExact(crc: Checksum, rs: seq<WalRecord>)
    requires Walkable(rs) && |Written(crc, rs)| <= PEEK_CHUNK
    ensures Peek(Written(crc, rs)) == LastOf(rs)
  {
    hide Frame, Walk;
    var data := Written(crc, rs);
    if rs != [] {
      assert |data| >= |Frame(crc, rs[0])| >= HEADER_SIZE + CRC_SIZE;
      assert Tail(data) == data && data[0..] == data;
      WalkWritten(crc, rs, 0);
    }
  }

  /* ----- skipping on records ----- */

  /** The segments that are read when a snapshot covers everything through `from`: the last one,
    * and the others whose last LSN is above. */
  function ReadParts(parts: seq<seq<WalRecord>>, from: nat): (read: seq<seq<WalRecord>>)
    ensures parts != [] ==> read != []
  {
    if |parts| <= 1 then parts
    else (if LastOf(parts[0]) <= from then [] else [parts[0]]) + ReadParts(parts[1..], from)
  }

  /** TruncateBefore: segments before the last that end below `lsn` are deleted. */
  function Pruned(parts: seq<seq<WalRecord>>, lsn: nat): seq<seq<WalRecord>> {
    if |parts| <= 1 then parts
    else (if LastOf(parts[0]) < lsn then [] else [parts[0]]) + Pruned(parts[1..], lsn)
  }

  /** The filter RecoverFromLSN puts before the handler. */
  function Above(rs: seq<WalRecord>, from: nat): seq<WalRecord> {
    if rs == [] then []
    else Above(rs[..|rs| - 1], from) + (if rs[|rs| - 1].lsn > from then [rs[|rs| - 1]] else [])
  }

  lemma {:induction false} AboveAppend(xs: seq<WalRecord>, ys: seq<WalRecord>, from: nat)
    ensures Above(xs + ys, from) == Above(xs, from) + Above(ys, from)
  {
    if ys == [] {
      assert xs + ys == xs;
    } else {
      var n := |ys| - 1;
      assert (xs + ys)[..|xs| + n] == xs + ys[..n];
      AboveAppend(xs, ys[..n], from);
    }
  }

  predicate AtMost(rs: seq<WalRecord>, from: nat) {
    forall i | 0 <= i < |rs| :: rs[i].lsn <= from
  }

  lemma {:induction false} AboveNothing(rs: seq<WalRecord>, from: nat)
    requires AtMost(rs, from)
    ensures Above(rs, from) == []
  {
    if rs != [] { AboveNothing(rs[..|rs| - 1], from); }
  }

  /** Everything fed through `from` is delivered or pending at or below `from`. */
  lemma {:induction false} FeedAtMost(st: RState, rs: seq<WalRecord>, from: nat)
    requires AtMost(st.pending, from) && AtMost(st.delivered, from) && st.highest <= from && AtMost(rs, from)
    ensures var a := FeedAll(st, rs);
            AtMost(a.pending, from) && AtMost(a.delivered, from) && a.highest <= from
  {
    if rs != [] { FeedAtMost(st, rs[..|rs| - 1], from); }
  }

  /** The LSNs of a log are its positions. */
  lemma {:induction false} LogPositions(batches: seq<Batch>)
    ensures |Log(batches)| == LastLSN(batches)
    ensures forall i | 0 <= i < |Log(batches)| :: Log(batches)[i].lsn == i + 1
  {
    if batches != [] { LogPositions(batches[..|batches| - 1]); }
  }

  /** Positions: record `i` of the run has LSN `base + i + 1`. */
  predicate Positioned(rs: seq<WalRecord>, base: nat) {
    forall i | 0 <= i < |rs| :: rs[i].lsn == base + i + 1
  }

  lemma FirstPart(parts: seq<seq<WalRecord>>, base: nat)
    requires Positioned(Joined(parts), base) && parts != []
    ensures Joined(parts) == parts[0] + Joined(parts[1..]) && Positioned(Joined(parts[1..]), base + |parts[0]|)
    ensures LastOf(parts[0]) == if parts[0] == [] then 0 else base + |parts[0]|
  {
    var part, more := parts[0], Joined(parts[1..]);
    assert Joined(parts) == part + more;
    SplitPositions(part, more, base);
  }

  lemma SplitPositions(part: seq<WalRecord>, more: seq<WalRecord>, base: nat)
    requires Positioned(part + more, base)
    ensures Positioned(part, base) && Positioned(more, base + |part|)
    ensures LastOf(part) == if part == [] then 0 else base + |part|
  {
    var all := part + more;
    assert forall i | 0 <= i < |part| :: part[i] == all[i];
    assert forall i | 0 <= i < |more| :: more[i] == all[|part| + i];
  }

  /** Skipping drops records from the front, all of them at or below `from`. */
  lemma {:induction false} ReadIsSuffix(parts: seq<seq<WalRecord>>, from: nat, base: nat) returns (s: nat)
    requires Positioned(Joined(parts), base)
    ensures s <= |Joined(parts)| && Joined(ReadParts(parts, from)) == Joined(parts)[s..]
    ensures s > 0 ==> base + s <= from
    decreases |parts|
  {
    var all := Joined(parts);
    if |parts| <= 1 {
      s := 0;
    } else {
      var part, rest := parts[0], parts[1..];
      assert all == part + Joined(rest);
      assert forall i | 0 <= i < |Joined(rest)| :: Joined(rest)[i] == all[|part| + i];
      if LastOf(part) <= from {
        assert part != [] ==> all[|part| - 1] == part[|part| - 1];
        var s' := ReadIsSuffix(rest, from, base + |part|);
        s := if s' > 0 then |part| + s' else |part|;
        assert [] + ReadParts(rest, from) == ReadParts(rest, from);
      } else {
        assert all[|part| - 1] == part[|part| - 1];
        var s' := ReadIsSuffix(rest, from, base + |part|);
        assert s' == 0;
        s := 0;
        assert ([part] + ReadParts(rest, from))[1..] == ReadParts(rest, from);
      }
    }
  }

  /** Pruning first changes nothing: the pruned segments would have been skipped. */
  lemma {:induction false} PrunedReads(parts: seq<seq<WalRecord>>, from: nat)
    ensures ReadParts(Pruned(parts, from), from) == ReadParts(parts, from)
    ensures parts != [] ==> Pruned(parts, from) != []
    decreases |parts|
  {
    hide LastOf;
    if |parts| > 1 {
      var rest := Pruned(parts[1..], from);
      PrunedReads(parts[1..], from);
      if LastOf(parts[0]) < from {
        assert Pruned(parts, from) == [] + rest == rest;
        assert [] + ReadParts(parts[1..], from) == ReadParts(parts[1..], from);
      } else {
        var kept := [parts[0]] + rest;
        assert Pruned(parts, from) == kept && kept[0] == parts[0] && kept[1..] == rest && |kept| > 1;
      }
    }
  }

  /** Feeding the tail of a log from inside or before the snapshot: above the snapshot's LSN the
    * same records come out, and the watermark is the same once it is at least that LSN. */
  lemma TailAbove(batches: seq<Batch>, k: nat, p: nat, s: nat)
    requires AllLoggable(batches) && LastLSN(batches) < TWO_63 && k <= |batches| && p <= |Log(batches)|
    requires var from := LastLSN(batches[..k]); s <= p && (s > 0 ==> s <= from)
    ensures var from := LastLSN(batches[..k]);
            var full, tail := FeedAll(FRESH, Log(batches)[..p]), FeedAll(FRESH, Log(batches)[s..p]);
            && Above(tail.delivered, from) == Above(full.delivered, from)
            && (if tail.highest < from then from else tail.highest)
              == (if full.highest < from then from else full.highest)
            && (from <= p ==> tail.pending == full.pending)
  {
    hide FeedAll, Log, LastLSN, Feed, Loggable;
    var from, all := LastLSN(batches[..k]), Log(batches);
    LogPositions(batches);
    LogPositions(batches[..k]);
    LogPrefix(batches, k);
    if p <= from {
      BelowAll(all[..p], from);
      BelowAll(all[s..p], from);
      if p == from && s > 0 {
        if s < p { EndsAtCommit(batches, k, s); } else { assert all[s..p] == []; FeedNothing(FRESH); }
        EndsAtCommit(batches, k, 0);
        assert all[0..from] == all[..p];
      } else if p == from {
        assert all[0..p] == all[..p];
      }
    } else {
      var head, rest := all[..from], all[from..p];
      assert all[..p] == head + rest && all[s..p] == all[s..from] + rest;
      FeedAppend(FRESH, head, rest);
      FeedAppend(FRESH, all[s..from], rest);
      BelowAll(head, from);
      BelowAll(all[s..from], from);
      if from > 0 {
        EndsAtCommit(batches, k, 0);
        assert all[0..from] == head;
        if s < from { EndsAtCommit(batches, k, s); } else { assert all[s..from] == []; FeedNothing(FRESH); }
      } else {
        assert head == [] && all[s..from] == [];
      }
      SameAbove(FeedAll(FRESH, head), FeedAll(FRESH, all[s..from]), rest, from);
    }
  }

  lemma {:induction false} LogPrefix(batches: seq<Batch>, k: nat)
    requires k <= |batches|
    ensures Log(batches[..k]) <= Log(batches)
    ensures k > 0 ==> |Log(batches[..k])| > 0 && Log(batches[..k])[|Log(batches[..k])| - 1].kind == BATCH_COMMIT
  {
    if k == |batches| {
      assert batches[..k] == batches;
    } else {
      var n := |batches| - 1;
      LogPrefix(batches[..n], k);
      assert batches[..n][..k] == batches[..k];
    }
  }

  /** Records at or below `from`, replayed from scratch, show nothing above it. */
  lemma BelowAll(rs: seq<WalRecord>, from: nat)
    requires AtMost(rs, from)
    ensures var a := FeedAll(FRESH, rs);
            Above(a.delivered, from) == [] && a.highest <= from && AtMost(a.delivered, from)
  {
    hide FeedAll;
    FeedAtMost(FRESH, rs, from);
    AboveNothing(FeedAll(FRESH, rs).delivered, from);
  }

  /** At the snapshot's LSN nothing is pending, wherever the replay started. */
  lemma EndsAtCommit(batches: seq<Batch>, k: nat, s: nat)
    requires k <= |batches| && LastLSN(batches[..k]) <= |Log(batches)| && s < LastLSN(batches[..k])
    ensures FeedAll(FRESH, Log(batches)[s..LastLSN(batches[..k])]).pending == []
  {
    hide Log, LastLSN;
    var from, all := LastLSN(batches[..k]), Log(batches);
    LogPositions(batches[..k]);
    LogPrefix(batches, k);
    var rs := all[s..from];
    if k == 0 {
      assert batches[..0] == [];
      LastOfNone();
      assert false;
    }
    assert rs[|rs| - 1] == Log(batches[..k])[from - 1];
  }

  lemma LastOfNone()
    ensures LastLSN([]) == 0
  {
  }

  lemma SameAbove(a: RState, b: RState, rest: seq<WalRecord>, from: nat)
    requires a.pending == b.pending && Above(a.delivered, from) == Above(b.delivered, from) == []
    requires a.highest <= from && b.highest <= from
    ensures var a', b' := FeedAll(a, rest), FeedAll(b, rest);
            && Above(a'.delivered, from) == Above(b'.delivered, from)
            && (if a'.highest < from then from else a'.highest) == (if b'.highest < from then from else b'.highest)
            && a'.pending == b'.pending
  {
    FeedYields(a, rest);
    FeedYields(b, rest);
    AboveAppend(a.delivered, Yield(a.pending, rest), from);
    AboveAppend(b.delivered, Yield(b.pending, rest), from);
    SameHighest(a, b, rest, from);
  }

  lemma {:induction false} SameHighest(a: RState, b: RState, rest: seq<WalRecord>, from: nat)
    requires a.pending == b.pending && a.highest <= from && b.highest <= from
    ensures var a', b' := FeedAll(a, rest), FeedAll(b, rest);
            && a'.pending == b'.pending
            && (a'.highest == b'.highest || (a'.highest <= from && b'.highest <= from))
  {
    if rest != [] { SameHighest(a, b, rest[..|rest| - 1], from); }
  }

  /** For every way the first `p` records of a log lie in segments and every commit LSN `from` of
    * that log, with or without deleting segments below `from` first: reading only the segments
    * that are not skipped delivers exactly the records above `from` that a full recovery delivers. */
  lemma SkippingIsHarmless(batches: seq<Batch>, k: nat, p: nat, parts: seq<seq<WalRecord>>)
    requires AllLoggable(batches) && LastLSN(batches) < TWO_63 && k <= |batches| && p <= |Log(batches)|
    requires Joined(parts) == Log(batches)[..p]
    ensures var from := LastLSN(batches[..k]);
            var full := FeedAll(FRESH, Joined(parts));
            var skipped, pruned := FeedAll(FRESH, Joined(ReadParts(parts, from))),
              FeedAll(FRESH, Joined(ReadParts(Pruned(parts, from), from)));
            && Above(skipped.delivered, from) == Above(full.delivered, from)
            && pruned == skipped
            && (if skipped.highest < from then from else skipped.highest)
              == (if full.highest < from then from else full.highest)
  {
    hide FeedAll, Log, LastLSN, Loggable;
    var from := LastLSN(batches[..k]);
    LogPositions(batches);
    assert Positioned(Joined(parts), 0);
    var s := ReadIsSuffix(parts, from, 0);
    assert Log(batches)[..p][s..] == Log(batches)[s..p];
    TailAbove(batches, k, p, s);
    PrunedReads(parts, from);
  }

  /* ----- skipping on bytes ----- */

  /** The segment files recovery above `from` reads. */
  function SkipDisk(disk: seq<seq<Byte>>, from: nat): seq<seq<Byte>> {
    if |disk| <= 1 || from == 0 then disk
    else (if Peek(disk[0]) <= from then [] else [disk[0]]) + SkipDisk(disk[1..], from)
  }

  /** TruncateBefore on files; the active segment is the last one. */
  function PruneDisk(disk: seq<seq<Byte>>, lsn: nat): seq<seq<Byte>> {
    if |disk| <= 1 then disk
    else (if Peek(disk[0]) < lsn then [] else [disk[0]]) + PruneDisk(disk[1..], lsn)
  }

  method TruncateBefore(disk: seq<seq<Byte>>, lsn: nat) returns (after: seq<seq<Byte>>)
    ensures after == PruneDisk(disk, lsn)
  {
    hide Peek;
    after := [];
    var i := 0;
    while i + 1 < |disk|
      invariant 0 <= i <= |disk|
      invariant |disk| > 0 ==> i < |disk|
      invariant PruneDisk(disk, lsn) == after + PruneDisk(disk[i..], lsn)
    {
      assert disk[i..][0] == disk[i] && disk[i..][1..] == disk[i + 1..];
      var max := PeekSegmentMaxLSN(disk[i]);
      if max >= lsn {
        after := after + [disk[i]];
      }
      i := i + 1;
    }
    after := after + disk[i..];
  }

  lemma {:induction false} PruneThenSkip(disk: seq<seq<Byte>>, from: nat)
    requires from > 0
    ensures SkipDisk(PruneDisk(disk, from), from) == SkipDisk(disk, from)
    ensures disk != [] ==> PruneDisk(disk, from) != []
    decreases |disk|
  {
    hide Peek;
    if |disk| > 1 {
      PruneThenSkip(disk[1..], from);
      if Peek(disk[0]) < from {
        assert [] + PruneDisk(disk[1..], from) == PruneDisk(disk[1..], from);
      } else {
        assert ([disk[0]] + PruneDisk(disk[1..], from))[1..] == PruneDisk(disk[1..], from);
      }
    }
  }

  lemma SkipFirst(disk: seq<seq<Byte>>, from: nat)
    requires disk != []
    ensures SkipDisk(disk, from)
         == (if from > 0 && |disk| > 1 && Peek(disk[0]) <= from then [] else [disk[0]]) + SkipDisk(disk[1..], from)
  {
    hide Peek;
  }

  method Filter(rs: seq<WalRecord>, from: nat) returns (out: seq<WalRecord>)
    ensures out == Above(rs, from)
  {
    out := [];
    for i := 0 to |rs|
      invariant out == Above(rs[..i], from)
    {
      assert rs[..i + 1][..i] == rs[..i];
      if rs[i].lsn > from { out := out + [rs[i]]; }
    }
    assert rs[..|rs|] == rs;
  }

  lemma {:induction false} SkipOnDisk(crc: Checksum, parts: seq<seq<WalRecord>>, last: seq<WalRecord>, tail: seq<Byte>,
                                      from: nat)
    requires from > 0
    requires forall i | 0 <= i < |parts| :: Walkable(parts[i]) && |Written(crc, parts[i])| <= PEEK_CHUNK
    ensures exists read: seq<seq<WalRecord>> ::
              && ReadParts(parts + [last], from) == read + [last]
              && SkipDisk(OnDisk(crc, parts) + [tail], from) == OnDisk(crc, read) + [tail]
    decreases |parts|
  {
    hide Peek, Walkable, Written, LastOf, SkipDisk, ReadParts;
    if parts == [] {
      assert [] + [last] == [last] && OnDisk(crc, []) + [tail] == [tail];
      SkipLast(last, tail, from);
    } else {
      var part, rest := parts[0], parts[1..];
      SkipOnDisk(crc, rest, last, tail, from);
      var read :| ReadParts(rest + [last], from) == read + [last]
               && SkipDisk(OnDisk(crc, rest) + [tail], from) == OnDisk(crc, read) + [tail];
      PeekExact(crc, part);
      var all, disk := parts + [last], OnDisk(crc, parts) + [tail];
      assert all[0] == part && all[1..] == rest + [last];
      assert disk[0] == Written(crc, part) && disk[1..] == OnDisk(crc, rest) + [tail];
      SkipFirst(disk, from);
      ReadPartsFirst(all, from);
      if LastOf(part) <= from {
        assert [] + (read + [last]) == read + [last] && [] + (OnDisk(crc, read) + [tail]) == OnDisk(crc, read) + [tail];
      } else {
        ReadMore(crc, part, read, last, tail);
      }
    }
  }

  lemma SkipLast(last: seq<WalRecord>, tail: seq<Byte>, from: nat)
    ensures ReadParts([last], from) == [last] && SkipDisk([tail], from) == [tail]
  {
  }

  lemma ReadPartsFirst(parts: seq<seq<WalRecord>>, from: nat)
    requires |parts| > 1
    ensures ReadParts(parts, from)
            == (if LastOf(parts[0]) <= from then [] else [parts[0]]) + ReadParts(parts[1..], from)
  {
    hide LastOf;
  }

  lemma ReadMore(crc: Checksum, part: seq<WalRecord>, read: seq<seq<WalRecord>>, last: seq<WalRecord>, tail: seq<Byte>)
    ensures [part] + (read + [last]) == [part] + read + [last]
    ensures [Written(crc, part)] + (OnDisk(crc, read) + [tail]) == OnDisk(crc, [part] + read) + [tail]
  {
    hide Written;
    assert OnDisk(crc, [part] + read) == [Written(crc, part)] + OnDisk(crc, read);
  }

  /** On disk, with segments small enough for an exact peek and the last segment cut anywhere:
    * recovery above a commit LSN delivers exactly what a full recovery delivers above it. */
  lemma RecoverAboveCommit(crc: Checksum, batches: seq<Batch>, k: nat, parts: seq<seq<WalRecord>>, last: seq<WalRecord>,
                           c: nat)
    requires AllLoggable(batches) && LastLSN(batches) < TWO_63 && 0 < k <= |batches|
    requires Joined(parts) + last == Log(batches) && c <= |Written(crc, last)|
    requires forall i | 0 <= i < |parts| :: |Written(crc, parts[i])| <= PEEK_CHUNK
    ensures var from := LastLSN(batches[..k]);
            var disk := OnDisk(crc, parts) + [Written(crc, last)[..c]];
            var full, above := ReplayDisk(crc, disk, FRESH).state, ReplayDisk(crc, SkipDisk(disk, from), FRESH).state;
            && Above(above.delivered, from) == Above(full.delivered, from)
            && (if above.highest < from then from else above.highest)
              == (if full.highest < from then from else full.highest)
            && SkipDisk(PruneDisk(disk, from), from) == SkipDisk(disk, from)
  {
    hide FeedAll, Log, LastLSN, Loggable, Written, ReplayDisk, SkipDisk, PruneDisk, ReadParts, Above, Whole, Walkable;
    var from, all, m := LastLSN(batches[..k]), Log(batches), Whole(crc, last, c);
    var p := |Joined(parts)| + m;
    LogFramable(batches);
    LogPositions(batches);
    LogPositions(batches[..k]);
    LogPrefix(batches, k);
    assert forall i | 0 <= i < |Joined(parts)| :: Joined(parts)[i] == all[i];
    assert forall i | 0 <= i < |last| :: last[i] == all[|Joined(parts)| + i];
    JoinedAppend(parts, [last[..m]]);
    JoinedOne(last[..m]);
    assert Joined(parts + [last[..m]]) == all[..p];
    SkippingIsHarmless(batches, k, p, parts + [last[..m]]);
    PartsWalkable(crc, parts);
    var tail := Written(crc, last)[..c];
    SkipOnDisk(crc, parts, last[..m], tail, from);
    var read :| ReadParts(parts + [last[..m]], from) == read + [last[..m]]
             && SkipDisk(OnDisk(crc, parts) + [tail], from) == OnDisk(crc, read) + [tail];
    ReplayCutDisk(crc, parts, last, c, FRESH);
    JoinedAppend(read, [last[..m]]);
    ReadFramable(parts, last[..m], read, from);
    ReplayCutDisk(crc, read, last, c, FRESH);
    PruneThenSkip(OnDisk(crc, parts) + [tail], from);
  }

  /** Records of a log in a small segment can be walked over. */
  lemma {:induction false} PartsWalkable(crc: Checksum, parts: seq<seq<WalRecord>>)
    requires AllFramable(Joined(parts)) && forall i | 0 <= i < |Joined(parts)| :: 0 < Joined(parts)[i].lsn < TWO_63
    requires forall i | 0 <= i < |parts| :: |Written(crc, parts[i])| <= PEEK_CHUNK
    ensures forall i | 0 <= i < |parts| :: Walkable(parts[i])
    decreases |parts|
  {
    hide Written;
    if parts != [] {
      var part, rest := parts[0], parts[1..];
      assert forall i | 0 <= i < |part| :: part[i] == Joined(parts)[i];
      assert forall i | 0 <= i < |Joined(rest)| :: Joined(rest)[i] == Joined(parts)[|part| + i];
      PartsWalkable(crc, rest);
      forall i | 0 <= i < |part|
        ensures |part[i].payload| <= PEEK_MAX_PAYLOAD
      {
        FrameInside(crc, part, i);
      }
    }
  }

  lemma FrameInside(crc: Checksum, rs: seq<WalRecord>, i: nat)
    requires i < |rs|
    ensures |Frame(crc, rs[i])| <= |Written(crc, rs)|
    decreases |rs|
  {
    if i > 0 { FrameInside(crc, rs[1..], i - 1); }
  }

  lemma {:induction false} ReadFramable(parts: seq<seq<WalRecord>>, last: seq<WalRecord>, read: seq<seq<WalRecord>>,
                                        from: nat)
    requires AllFramable(Joined(parts)) && ReadParts(parts + [last], from) == read + [last]
    ensures AllFramable(Joined(read))
    decreases |parts|
  {
    hide Framable;
    if parts == [] {
      assert parts + [last] == [last];
      assert |read + [last]| == 1;
    } else {
      var part, rest := parts[0], parts[1..];
      assert (parts + [last])[0] == part && (parts + [last])[1..] == rest + [last];
      assert forall i | 0 <= i < |part| :: part[i] == Joined(parts)[i];
      assert forall i | 0 <= i < |Joined(rest)| :: Joined(rest)[i] == Joined(parts)[|part| + i];
      var below := ReadParts(rest + [last], from);
      if LastOf(part) <= from {
        assert [] + below == below;
        ReadFramable(rest, last, read, from);
      } else {
        assert read + [last] == [part] + below && |below| >= 1;
        assert |read| >= 1 && (read + [last])[0] == read[0];
        var more := read[1..];
        assert read[0] == part && below == more + [last] by { assert (read + [last])[1..] == read[1..] + [last]; }
        ReadFramable(rest, last, more, from);
      }
    }
  }
}
