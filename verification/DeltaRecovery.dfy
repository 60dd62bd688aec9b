/** Recovery above a snapshot and what it leaves on disk (internal/wal/recovery.go, recoverSegments with
  * fromLSN above 0): uncommitted records above the snapshot are cut from the segments that were read;
  * skipped segments, and a WAL that ends below the snapshot inside a batch, are left alone. */
module DeltaRecovery {
  import opened Core
  import opened Bytes
  import opened Frames
  import opened Recovery
  import opened Segments
  import opened Truncation
  import opened SegmentRecovery
  import opened Skipping

  /** minRecordLSN: the largest int64 when there is no record. */
  function MinLSN(rs: seq<WalRecord>): int {
    if rs == [] then TWO_63 - 1
    else
      var least := MinLSN(rs[..|rs| - 1]);
      if rs[|rs| - 1].lsn < least then rs[|rs| - 1].lsn else least
  }

  /** The first segment is not read: it is not the last one and its tail is at or below `from`. */
  predicate Skips(disk: seq<seq<Byte>>, from: nat)
    requires disk != []
  {
    from > 0 && |disk| > 1 && Peek(disk[0]) <= from
  }

  /** The files after truncation: skipped ones whole, read ones through their own last commit. */
  function CutFrom(crc: Checksum, disk: seq<seq<Byte>>, from: nat, p: seq<WalRecord>): seq<seq<Byte>> {
    if disk == [] then []
    else if Skips(disk, from) then [disk[0]] + CutFrom(crc, disk[1..], from, p)
    else
      var found := Parse(crc, disk[0]);
      var n := CommittedBytes(crc, p, found.records);
      [if n <= |disk[0]| then disk[0][..n] else disk[0]]
        + (if found.clean then CutFrom(crc, disk[1..], from, Left(p, found.records)) else [])
  }

  /** Recovery truncates: it stopped, or holds records of an unfinished batch, above `from`. */
  predicate Truncates(crc: Checksum, disk: seq<seq<Byte>>, from: nat) {
    var r := ReplayDisk(crc, SkipDisk(disk, from), FRESH);
    (r.stopped || r.state.pending != []) && (from == 0 || MinLSN(r.state.pending) > from)
  }

  /** The files after recovery above `from`. */
  function DiskFrom(crc: Checksum, disk: seq<seq<Byte>>, from: nat): seq<seq<Byte>> {
    if Truncates(crc, disk, from) then CutFrom(crc, disk, from, []) else disk
  }

  method MinRecordLSN(rs: seq<WalRecord>) returns (least: int)
    ensures least == MinLSN(rs)
  {
    least := TWO_63 - 1;
    for i := 0 to |rs|
      invariant least == MinLSN(rs[..i])
    {
      assert rs[..i + 1][..i] == rs[..i];
      if rs[i].lsn < least { least := rs[i].lsn; }
    }
    assert rs[..|rs|] == rs;
  }

  /** RecoverFromLSN: what the handler sees, the watermark, and the files it leaves. */
  method RecoverFromLSN(crc: Checksum, disk: seq<seq<Byte>>, from: nat)
    returns (delivered: seq<WalRecord>, watermark: nat, after: seq<seq<Byte>>)
    ensures var r := ReplayDisk(crc, SkipDisk(disk, from), FRESH).state;
            && delivered == Above(r.delivered, from)
            && watermark == if r.highest < from then from else r.highest
    ensures after == DiskFrom(crc, disk, from)
  {
    hide Peek, Parse, FeedAll, CommittedBytes, SkipDisk, ReplayDisk, CutFrom, MinLSN, Above;
    var st, stopped, cuts := ReadSegments(crc, disk, from);
    after := disk;
    if stopped || |st.pending| > 0 {
      var least := MinRecordLSN(st.pending);
      if from == 0 || least > from { after := cuts; }
    }
    delivered := Filter(st.delivered, from);
    watermark := if st.highest < from then from else st.highest;
  }

  /** The loop over the segments, with the cuts it would make. */
  method ReadSegments(crc: Checksum, disk: seq<seq<Byte>>, from: nat)
    returns (st: RState, stopped: bool, cuts: seq<seq<Byte>>)
    ensures Replayed(st, stopped) == ReplayDisk(crc, SkipDisk(disk, from), FRESH)
    ensures cuts == CutFrom(crc, disk, from, [])
  {
    hide Peek, Parse, FeedAll, CommittedBytes, SkipDisk, ReplayDisk, CutFrom, Left;
    st, stopped, cuts := FRESH, false, [];
    var i := 0;
    ghost var goal := ReplayDisk(crc, SkipDisk(disk, from), FRESH);
    assert disk[0..] == disk;
    while i < |disk| && !stopped
      invariant 0 <= i <= |disk|
      invariant if stopped then goal == Replayed(st, true) && CutFrom(crc, disk, from, []) == cuts
                else goal == ReplayDisk(crc, SkipDisk(disk[i..], from), st)
                     && CutFrom(crc, disk, from, []) == cuts + CutFrom(crc, disk[i..], from, st.pending)
      decreases |disk| - i, !stopped
    {
      ReadNext(crc, disk[i..], from, st, cuts);
      TailOf(disk, i);
      var skip := false;
      if from > 0 && i < |disk| - 1 {
        var max := PeekSegmentMaxLSN(disk[i]);
        skip := max <= from;
      }
      if skip {
        cuts := cuts + [disk[i]];
      } else {
        var stop, committed, next := ReplaySegment(crc, disk[i], st);
        cuts := cuts + [if committed <= |disk[i]| then disk[i][..committed] else disk[i]];
        st, stopped := next, stop;
      }
      i := i + 1;
    }
    if !stopped { ReadNone(crc, disk[i..], from, st); }
  }

  /** One turn of the loop, when the segment is skipped and when it is read. */
  lemma ReadNext(crc: Checksum, disk: seq<seq<Byte>>, from: nat, st: RState, cuts: seq<seq<Byte>>)
    requires disk != []
    ensures var rest := disk[1..];
            if Skips(disk, from) then
              && ReplayDisk(crc, SkipDisk(disk, from), st) == ReplayDisk(crc, SkipDisk(rest, from), st)
              && cuts + CutFrom(crc, disk, from, st.pending) == cuts + [disk[0]] + CutFrom(crc, rest, from, st.pending)
            else
              var found := Parse(crc, disk[0]);
              var n, st1 := CommittedBytes(crc, st.pending, found.records), FeedAll(st, found.records);
              var cut := [if n <= |disk[0]| then disk[0][..n] else disk[0]];
              && ReplayDisk(crc, SkipDisk(disk, from), st)
                 == (if found.clean then ReplayDisk(crc, SkipDisk(rest, from), st1) else Replayed(st1, true))
              && cuts + CutFrom(crc, disk, from, st.pending)
                 == (if found.clean then cuts + cut + CutFrom(crc, rest, from, st1.pending) else cuts + cut)
  {
    hide Peek, Parse, FeedAll, CommittedBytes, Left, SkipDisk, ReplayDisk, CutFrom;
    var rest := disk[1..];
    var more := SkipDisk(rest, from);
    SkipFirst(disk, from);
    CutFirst(crc, disk, from, st.pending);
    if Skips(disk, from) {
      assert [] + more == more;
      Regroup(cuts, [disk[0]], CutFrom(crc, rest, from, st.pending));
    } else {
      var found := Parse(crc, disk[0]);
      var n, st1 := CommittedBytes(crc, st.pending, found.records), FeedAll(st, found.records);
      FeedYields(st, found.records);
      ReplayFirst(crc, disk[0], more, st);
      Regroup(cuts, [if n <= |disk[0]| then disk[0][..n] else disk[0]], CutFrom(crc, rest, from, st1.pending));
    }
  }

  lemma CutFirst(crc: Checksum, disk: seq<seq<Byte>>, from: nat, p: seq<WalRecord>)
    requires disk != []
    ensures CutFrom(crc, disk, from, p)
         == if Skips(disk, from) then [disk[0]] + CutFrom(crc, disk[1..], from, p)
            else
              var found := Parse(crc, disk[0]);
              var n := CommittedBytes(crc, p, found.records);
              var cut := [if n <= |disk[0]| then disk[0][..n] else disk[0]];
              if found.clean then cut + CutFrom(crc, disk[1..], from, Left(p, found.records)) else cut
  {
    hide Peek, Parse, CommittedBytes, Left, Skips;
  }

  lemma ReplayFirst(crc: Checksum, data: seq<Byte>, more: seq<seq<Byte>>, st: RState)
    ensures var found := Parse(crc, data);
            var st1 := FeedAll(st, found.records);
            ReplayDisk(crc, [data] + more, st)
            == if found.clean then ReplayDisk(crc, more, st1) else Replayed(st1, true)
  {
    hide Parse, FeedAll;
    assert ([data] + more)[1..] == more;
  }

  lemma TailOf(disk: seq<seq<Byte>>, i: nat)
    requires i < |disk|
    ensures disk[i..][0] == disk[i] && disk[i..][1..] == disk[i + 1..] && |disk[i..]| == |disk| - i
  {
  }

  lemma ReadNone(crc: Checksum, disk: seq<seq<Byte>>, from: nat, st: RState)
    requires disk == []
    ensures ReplayDisk(crc, SkipDisk(disk, from), st) == Replayed(st, false)
    ensures forall cuts: seq<seq<Byte>> :: cuts + CutFrom(crc, disk, from, st.pending) == cuts
  {
  }

  /* ----- on records ----- */

  function CutParts(parts: seq<seq<WalRecord>>, from: nat, p: seq<WalRecord>): (cut: seq<seq<WalRecord>>)
    ensures |cut| == |parts|
    decreases |parts|
  {
    if parts == [] then []
    else if |parts| > 1 && LastOf(parts[0]) <= from then [parts[0]] + CutParts(parts[1..], from, p)
    else [parts[0][..Committed(p, parts[0])]] + CutParts(parts[1..], from, Left(p, parts[0]))
  }

  /** Truncation of files is truncation of their records. */
  lemma {:induction false} CutCutDisk(crc: Checksum, parts: seq<seq<WalRecord>>, last: seq<WalRecord>, c: nat,
                                      from: nat, p: seq<WalRecord>)
    requires from > 0 && AllFramable(Joined(parts)) && AllFramable(last) && c <= |Written(crc, last)|
    requires forall i | 0 <= i < |parts| :: Walkable(parts[i]) && |Written(crc, parts[i])| <= PEEK_CHUNK
    ensures CutFrom(crc, OnDisk(crc, parts) + [Written(crc, last)[..c]], from, p)
         == OnDisk(crc, CutParts(parts + [last[..Whole(crc, last, c)]], from, p))
    decreases |parts|
  {
    hide Written, Parse, Whole, Committed, CommittedBytes, Left, Peek, Walkable, Framable, LastOf;
    var m, tail := Whole(crc, last, c), Written(crc, last)[..c];
    var disk, all := OnDisk(crc, parts) + [tail], parts + [last[..m]];
    ParseCut(crc, last, c);
    if parts == [] {
      assert disk == [tail] && disk[1..] == [] && all[0] == last[..m] && all[1..] == [];
      CutWritten(crc, last, c);
      KeepPrefix(crc, last[..m], p, tail);
    } else {
      var first := parts[0];
      assert disk[0] == Written(crc, first) && disk[1..] == OnDisk(crc, parts[1..]) + [tail];
      assert all[0] == first && all[1..] == parts[1..] + [last[..m]];
      FirstFramable(parts);
      ParseAll(crc, first);
      PeekExact(crc, first);
      KeepPrefix(crc, first, p, Written(crc, first));
      var p' := if LastOf(first) <= from then p else Left(p, first);
      CutCutDisk(crc, parts[1..], last, c, from, p');
      var kept := if LastOf(first) <= from then first else first[..Committed(p, first)];
      var more := CutParts(all[1..], from, p');
      assert CutParts(all, from, p) == [kept] + more;
      assert CutFrom(crc, disk, from, p) == [Written(crc, kept)] + OnDisk(crc, more);
      OnDiskFirst(crc, kept, more);
    }
  }

  lemma OnDiskFirst(crc: Checksum, part: seq<WalRecord>, more: seq<seq<WalRecord>>)
    ensures OnDisk(crc, [part] + more) == [Written(crc, part)] + OnDisk(crc, more)
  {
    hide Written;
  }

  /** The commit marker of LSN `from` is among the records, which start after LSN `base`. */
  predicate CommitAhead(rs: seq<WalRecord>, base: nat, from: nat) {
    base < from ==> from <= base + |rs| && rs[from - 1 - base].kind == BATCH_COMMIT
  }

  /** On aligned segments that reach the commit of `from`, cutting the segments that were read is
    * cutting all of them: the skipped ones hold whole batches. */
  lemma {:induction false} CutIsKept(parts: seq<seq<WalRecord>>, from: nat, p: seq<WalRecord>, base: nat)
    requires Positioned(Joined(parts), base) && AllAccepted(p, Joined(parts)) && Aligned(parts, p)
    requires CommitAhead(Joined(parts), base, from) && (base < from ==> p == [])
    ensures CutParts(parts, from, p) == KeptParts(parts, p)
    decreases |parts|
  {
    hide Left, Committed, AllAccepted, Positioned, LastOf;
    if parts != [] {
      var part, rest := parts[0], parts[1..];
      FirstPart(parts, base);
      AllAcceptedSplit(p, part, Joined(rest));
      var p' := Left(p, part);
      BoundaryBelow(part, rest, p, base, from);
      CutIsKept(rest, from, p', base + |part|);
      if |parts| > 1 && LastOf(part) <= from {
        if part == [] {
          YieldNothing(p);
        } else {
          WholePart(part, p);
        }
        assert part[..|part|] == part;
      }
    }
  }

  /** At a segment end at or below `from` no batch is open. */
  lemma BoundaryBelow(part: seq<WalRecord>, rest: seq<seq<WalRecord>>, p: seq<WalRecord>, base: nat, from: nat)
    requires AllAccepted(Left(p, part), Joined(rest)) && Aligned(rest, Left(p, part))
    requires CommitAhead(part + Joined(rest), base, from) && (base < from ==> p == [])
    ensures CommitAhead(Joined(rest), base + |part|, from)
    ensures base < from && base + |part| <= from ==> Left(p, part) == []
    ensures base + |part| < from ==> Left(p, part) == []
  {
    hide Left, AllAccepted, Aligned;
    var all := part + Joined(rest);
    if base + |part| < from {
      assert all[from - 1 - base] == Joined(rest)[from - 1 - base - |part|];
      if Left(p, part) != [] {
        AlignedInside(rest, Left(p, part));
        assert false;
      }
    } else if base < from && base + |part| == from {
      assert part[|part| - 1].kind == BATCH_COMMIT;
      EndsInCommit(part, p);
    }
  }

  /** A segment that leaves no batch open is kept whole. */
  lemma WholePart(part: seq<WalRecord>, p: seq<WalRecord>)
    requires part != [] && AllAccepted(p, part) && Left(p, part) == []
    ensures Committed(p, part) == |part|
  {
    hide AllAccepted;
    var n := |part| - 1;
    LastClosesBatch(part, p);
    CommittedIs(p, part, |part|);
  }

  lemma LastClosesBatch(part: seq<WalRecord>, p: seq<WalRecord>)
    requires part != [] && Left(p, part) == []
    ensures part[|part| - 1].kind == BATCH_COMMIT
  {
  }
}
