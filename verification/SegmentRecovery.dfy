/** recoverSegments on bytes: the segment replay loop, what it delivers and what it leaves on disk
  * (internal/wal/recovery.go). */
module SegmentRecovery {
  import opened Core
  import opened Bytes
  import opened Frames
  import opened Recovery
  import opened Segments
  import opened Truncation

  /** The bytes of a segment through its last accepted commit. */
  function CommittedBytes(crc: Checksum, p: seq<WalRecord>, rs: seq<WalRecord>): nat {
    |Written(crc, rs[..Committed(p, rs)])|
  }

  /** The frame at `offset`, if a whole and intact one is there. */
  method ReadFrame(crc: Checksum, data: seq<Byte>, offset: nat) returns (r: Option<WalRecord>, next: nat)
    requires offset < |data|
    ensures match r
            case None => Parse(crc, data[offset..]) == Scan([], false)
            case Some(rec) =>
              && offset < next <= |data| && Decode(crc, data[offset..next]) == r
              && var rest := Parse(crc, data[next..]);
                 Parse(crc, data[offset..]) == Scan([rec] + rest.records, rest.clean)
  {
    hide Decode;
    next := offset;
    if |data| - offset < HEADER_SIZE + CRC_SIZE { return None, next; }
    var length := AnnouncedLength(data[offset..]);
    if offset + length > |data| { return None, next; }
    next := offset + length;
    assert data[offset..][..length] == data[offset..next] && data[offset..][length..] == data[next..];
    r := Decode(crc, data[offset..next]);
  }

  /** replaySegment. */
  method ReplaySegment(crc: Checksum, data: seq<Byte>, st0: RState)
    returns (stop: bool, committed: nat, st: RState)
    ensures var found := Parse(crc, data);
            && stop == !found.clean
            && st == FeedAll(st0, found.records)
            && committed == CommittedBytes(crc, st0.pending, found.records)
  {
    hide Decode, Written, FeedAll, CommittedBytes, Announced, Parse;
    st, committed := st0, 0;
    ghost var rs: seq<WalRecord> := [];
    FeedNothing(st0);
    NothingCommitted(crc, st0.pending);
    NothingWritten(crc);
    var offset: nat := 0;
    assert data[0..] == data && rs + Parse(crc, data).records == Parse(crc, data).records;
    while offset < |data|
      invariant offset <= |data| && offset == |Written(crc, rs)|
      invariant var rest := Parse(crc, data[offset..]);
                Parse(crc, data) == Scan(rs + rest.records, rest.clean)
      invariant st == FeedAll(st0, rs) && committed == CommittedBytes(crc, st0.pending, rs)
    {
      var frame, next := ReadFrame(crc, data, offset);
      if frame.None? {
        assert rs + [] == rs;
        return true, committed, st;
      }
      var r := frame.value;
      NextRecord(crc, st0, rs, r, data[offset..next]);
      if r.kind == BATCH_COMMIT {
        if |st.pending| == Announced(r) {
          st := RState([], r.lsn, st.delivered + st.pending);
          committed := next;
        } else {
          st := st.(pending := []);
        }
      } else {
        st := st.(pending := st.pending + [r]);
      }
      assert rs + ([r] + Parse(crc, data[next..]).records) == rs + [r] + Parse(crc, data[next..]).records;
      rs := rs + [r];
      offset := next;
    }
    ParseNothing(crc);
    assert data[offset..] == [] && rs + [] == rs;
    stop := false;
  }

  lemma ParseNothing(crc: Checksum)
    ensures Parse(crc, []) == Scan([], true)
  {
  }

  lemma NothingWritten(crc: Checksum)
    ensures Written(crc, []) == []
  {
  }

  lemma NothingCommitted(crc: Checksum, p: seq<WalRecord>)
    ensures CommittedBytes(crc, p, []) == 0
  {
  }

  lemma NextRecord(crc: Checksum, st0: RState, rs: seq<WalRecord>, r: WalRecord, frame: seq<Byte>)
    requires Decode(crc, frame) == Some(r)
    ensures FeedAll(st0, rs + [r]) == Feed(FeedAll(st0, rs), r)
    ensures |Written(crc, rs + [r])| == |Written(crc, rs)| + |frame|
    ensures CommittedBytes(crc, st0.pending, rs + [r])
         == if Accepts(FeedAll(st0, rs).pending, r) then |Written(crc, rs + [r])|
           else CommittedBytes(crc, st0.pending, rs)
  {
    hide Frame, Feed, Decode;
    var all := rs + [r];
    assert all[..|rs|] == rs;
    DecodeExactly(crc, frame, r);
    WrittenAppend(crc, rs, [r]);
    assert Written(crc, [r]) == frame + [] by { assert [r][1..] == []; NothingWritten(crc); }
    FeedYields(st0, rs);
    if Accepts(Left(st0.pending, rs), r) {
      assert all[..|all|] == all;
    } else {
      var n := Committed(st0.pending, rs);
      assert all[..n] == rs[..n];
    }
  }

  /* ----- the segments after recovery from LSN 0 ----- */

  /** Each read segment cut back to its own last commit; segments after a stop are gone. */
  function Kept(crc: Checksum, disk: seq<seq<Byte>>, p: seq<WalRecord>): seq<seq<Byte>> {
    if disk == [] then []
    else
      var found := Parse(crc, disk[0]);
      var keep := CommittedBytes(crc, p, found.records);
      var cut := if keep <= |disk[0]| then disk[0][..keep] else disk[0];
      if found.clean then [cut] + Kept(crc, disk[1..], Left(p, found.records)) else [cut]
  }

  function DiskAfter(crc: Checksum, disk: seq<seq<Byte>>): seq<seq<Byte>> {
    var r := ReplayDisk(crc, disk, FRESH);
    if r.stopped || r.state.pending != [] then Kept(crc, disk, []) else disk
  }

  /** recoverSegments with fromLSN 0: the replay over all segments, then the truncation. */
  method RecoverSegments(crc: Checksum, disk: seq<seq<Byte>>) returns (st: RState, after: seq<seq<Byte>>)
    ensures st == ReplayDisk(crc, disk, FRESH).state
    ensures after == DiskAfter(crc, disk)
  {
    hide Parse, FeedAll, CommittedBytes, Left;
    st := FRESH;
    var cuts: seq<seq<Byte>> := [];
    var stopped := false;
    var i := 0;
    while i < |disk| && !stopped
      invariant 0 <= i <= |disk|
      invariant if stopped then ReplayDisk(crc, disk, FRESH) == Replayed(st, true) && Kept(crc, disk, []) == cuts
                else ReplayDisk(crc, disk, FRESH) == ReplayDisk(crc, disk[i..], st)
                     && Kept(crc, disk, []) == cuts + Kept(crc, disk[i..], st.pending)
      decreases |disk| - i, !stopped
    {
      FeedYields(st, Parse(crc, disk[i]).records);
      assert disk[i..][0] == disk[i] && disk[i..][1..] == disk[i + 1..];
      var stop, committed, next := ReplaySegment(crc, disk[i], st);
      cuts := cuts + [if committed <= |disk[i]| then disk[i][..committed] else disk[i]];
      st := next;
      stopped := stop;
      i := i + 1;
    }
    after := if stopped || |st.pending| > 0 then cuts else disk;
  }

  /** Truncation of segments whose last one is cut is truncation of their records. */
  lemma {:induction false} KeptCutDisk(crc: Checksum, parts: seq<seq<WalRecord>>, last: seq<WalRecord>, c: nat,
                                       p: seq<WalRecord>)
    requires AllFramable(Joined(parts)) && AllFramable(last) && c <= |Written(crc, last)|
    ensures var m := Whole(crc, last, c);
            Kept(crc, OnDisk(crc, parts) + [Written(crc, last)[..c]], p)
            == OnDisk(crc, KeptParts(parts + [last[..m]], p))
    decreases |parts|
  {
    hide Written, Whole, Kept, KeptParts, Joined, Framable, Left;
    var m, tail := Whole(crc, last, c), [Written(crc, last)[..c]];
    if parts == [] {
      assert OnDisk(crc, parts) + tail == tail && parts + [last[..m]] == [last[..m]];
      KeptCutFile(crc, last, c, p);
    } else {
      var first := parts[0];
      OnDiskRest(crc, parts, tail);
      FirstFramable(parts);
      KeptCutDisk(crc, parts[1..], last, c, Left(p, first));
      KeptWhole(crc, first, OnDisk(crc, parts[1..]) + tail, p);
      assert (parts + [last[..m]])[0] == first && (parts + [last[..m]])[1..] == parts[1..] + [last[..m]];
      KeptPartsFirst(crc, parts + [last[..m]], p);
    }
  }

  lemma KeptPartsFirst(crc: Checksum, parts: seq<seq<WalRecord>>, p: seq<WalRecord>)
    requires parts != []
    ensures OnDisk(crc, KeptParts(parts, p))
         == [Written(crc, parts[0][..Committed(p, parts[0])])] + OnDisk(crc, KeptParts(parts[1..], Left(p, parts[0])))
  {
    hide Written, Committed, Left;
  }

  /** The last file. */
  lemma KeptCutFile(crc: Checksum, last: seq<WalRecord>, c: nat, p: seq<WalRecord>)
    requires AllFramable(last) && c <= |Written(crc, last)|
    ensures Kept(crc, [Written(crc, last)[..c]], p) == OnDisk(crc, KeptParts([last[..Whole(crc, last, c)]], p))
  {
    hide Written, Parse, Whole, Committed, CommittedBytes, Left;
    var m, data := Whole(crc, last, c), Written(crc, last)[..c];
    ParseCut(crc, last, c);
    CutWritten(crc, last, c);
    KeepPrefix(crc, last[..m], p, data);
    KeptPartsFirst(crc, [last[..m]], p);
    NothingKept(crc, p, Left(p, last[..m]));
  }

  lemma NothingKept(crc: Checksum, p: seq<WalRecord>, q: seq<WalRecord>)
    ensures Kept(crc, [], p) == OnDisk(crc, KeptParts([], q)) == []
  {
  }

  /** A file of whole frames before others. */
  lemma KeptWhole(crc: Checksum, first: seq<WalRecord>, more: seq<seq<Byte>>, p: seq<WalRecord>)
    requires AllFramable(first)
    ensures Kept(crc, [Written(crc, first)] + more, p)
         == [Written(crc, first[..Committed(p, first)])] + Kept(crc, more, Left(p, first))
  {
    hide Written, Parse, Committed, CommittedBytes, Left;
    assert ([Written(crc, first)] + more)[1..] == more;
    ParseAll(crc, first);
    KeepPrefix(crc, first, p, Written(crc, first));
  }

  /** Cutting a segment at its committed bytes keeps its committed records. */
  lemma KeepPrefix(crc: Checksum, rs: seq<WalRecord>, p: seq<WalRecord>, data: seq<Byte>)
    requires |Written(crc, rs)| <= |data| && data[..|Written(crc, rs)|] == Written(crc, rs)
    ensures CommittedBytes(crc, p, rs) <= |data|
    ensures data[..CommittedBytes(crc, p, rs)] == Written(crc, rs[..Committed(p, rs)])
  {
    hide Written, Committed;
    var n := Committed(p, rs);
    assert rs == rs[..n] + rs[n..];
    WrittenAppend(crc, rs[..n], rs[n..]);
    assert data[..CommittedBytes(crc, p, rs)] == data[..|Written(crc, rs)|][..CommittedBytes(crc, p, rs)];
  }

  /** After a torn or unfinished tail: when the segments are aligned, the disk holds exactly the
    * log of the delivered batches; when they are not, the next recovery delivers fewer records. */
  lemma RecoveredDisk(crc: Checksum, batches: seq<Batch>, parts: seq<seq<WalRecord>>, last: seq<WalRecord>, c: nat)
    requires AllLoggable(batches) && LastLSN(batches) < TWO_63
    requires Joined(parts) + last == Log(batches) && c <= |Written(crc, last)|
    ensures var disk := OnDisk(crc, parts) + [Written(crc, last)[..c]];
            var seen := parts + [last[..Whole(crc, last, c)]];
            var r, k := ReplayDisk(crc, disk, FRESH), Durable(crc, batches, |Written(crc, Joined(parts))| + c);
            var after := DiskAfter(crc, disk);
            var again := ReplayDisk(crc, after, FRESH);
            if r.stopped || r.state.pending != [] then
              && after == OnDisk(crc, KeptParts(seen, []))
              && (Aligned(seen, []) ==> Joined(KeptParts(seen, [])) == Log(batches[..k]))
              && !again.stopped && again.state.pending == []
              && (again.state.delivered == r.state.delivered <==> Aligned(seen, []))
            else after == disk
  {
    hide Written, Whole, ReplayDisk, FeedAll, Log, LastLSN, Complete, Durable, Framable, Yield, Committed, AllAccepted,
      Aligned, KeptParts, Kept, OnDisk, Joined;
    var seen := parts + [last[..Whole(crc, last, c)]];
    SeenOfLog(crc, batches, parts, last, c);
    CommittedOfLog(batches, |Joined(seen)|);
    ReplayCutDisk(crc, parts, last, c, FRESH);
    FeedYields(FRESH, Joined(seen));
    assert FRESH.delivered + Yield([], Joined(seen)) == Yield([], Joined(seen));
    KeptCutDisk(crc, parts, last, c, []);
    KeptReplays(crc, seen);
    if Aligned(seen, []) { AlignedKept(seen); }
  }

  /** Replaying what truncation keeps: nothing waits, and the same records come out exactly when the
    * segments are aligned. */
  lemma KeptReplays(crc: Checksum, seen: seq<seq<WalRecord>>)
    requires AllFramable(Joined(seen)) && AllAccepted([], Joined(seen))
    ensures var again := ReplayDisk(crc, OnDisk(crc, KeptParts(seen, [])), FRESH);
            && !again.stopped && again.state.pending == []
            && (again.state.delivered == Yield([], Joined(seen)) <==> Aligned(seen, []))
  {
    hide ReplayDisk, FeedAll, Framable, Left, Yield, AllAccepted, Aligned, KeptParts, OnDisk, Joined;
    var kept := Joined(KeptParts(seen, []));
    KeptAgain(seen, []);
    KeptFramable(seen, []);
    ReplayWhole(crc, KeptParts(seen, []));
    FeedYields(FRESH, kept);
    assert FRESH.delivered + Yield([], kept) == Yield([], kept);
  }

  lemma {:induction false} KeptFramable(parts: seq<seq<WalRecord>>, p: seq<WalRecord>)
    requires AllFramable(Joined(parts))
    ensures AllFramable(Joined(KeptParts(parts, p)))
    decreases |parts|
  {
    hide Framable, Left, Committed;
    if parts != [] {
      var part, rest := parts[0], parts[1..];
      assert forall i | 0 <= i < |part| :: part[i] == Joined(parts)[i];
      assert forall i | 0 <= i < |Joined(rest)| :: Joined(rest)[i] == Joined(parts)[|part| + i];
      KeptFramable(rest, Left(p, part));
      assert KeptParts(parts, p)[1..] == KeptParts(rest, Left(p, part));
    }
  }

  /** Segments of whole frames replay to the end. */
  lemma {:induction false} ReplayWhole(crc: Checksum, parts: seq<seq<WalRecord>>)
    requires AllFramable(Joined(parts))
    ensures ReplayDisk(crc, OnDisk(crc, parts), FRESH) == Replayed(FeedAll(FRESH, Joined(parts)), false)
  {
    hide Written, FeedAll, Framable, Whole;
    if parts == [] {
      FeedNothing(FRESH);
    } else {
      var n := |parts| - 1;
      var last := parts[n];
      assert parts == parts[..n] + [last];
      JoinedAppend(parts[..n], [last]);
      JoinedOne(last);
      assert forall i | 0 <= i < |Joined(parts[..n])| :: Joined(parts[..n])[i] == Joined(parts)[i];
      assert forall i | 0 <= i < |last| :: last[i] == Joined(parts)[|Joined(parts[..n])| + i];
      var c := |Written(crc, last)|;
      ReplayCutDisk(crc, parts[..n], last, c, FRESH);
      WholeAll(crc, last);
      assert last[..|last|] == last && Written(crc, last)[..c] == Written(crc, last);
      assert OnDisk(crc, parts) == OnDisk(crc, parts[..n]) + [Written(crc, last)];
    }
  }

  lemma {:induction false} WholeAll(crc: Checksum, rs: seq<WalRecord>)
    ensures Whole(crc, rs, |Written(crc, rs)|) == |rs|
  {
    hide Frame;
    if rs != [] { WholeAll(crc, rs[1..]); }
  }

  /* ----- a WAL of one segment ----- */

  /** Recovering a one-segment WAL cut at any byte leaves exactly the log of its durable batches;
    * batches appended after that follow them in the next recovery, under larger LSNs. */
  lemma SingleSegment(crc: Checksum, batches: seq<Batch>, c: nat, more: seq<Batch>)
    requires AllLoggable(batches) && AllLoggable(more) && LastLSN(batches) < TWO_63
    requires c <= |Written(crc, Log(batches))|
    requires LastLSN(batches[..Durable(crc, batches, c)] + more) < TWO_63
    ensures var k := Durable(crc, batches, c);
            var now := batches[..k] + more;
            && DiskAfter(crc, [Written(crc, Log(batches))[..c]]) == [Written(crc, Log(batches[..k]))]
            && Log(batches[..k]) <= Log(now)
            && ReplayDisk(crc, [Written(crc, Log(now))], FRESH) == Replayed(RState([], LastLSN(now), Data(now)), false)
            && Data(batches[..k]) <= Data(now)
            && forall i, j | 0 <= i < j < |Data(now)| :: Data(now)[i].lsn < Data(now)[j].lsn
  {
    hide Written, FeedAll, Log, Data, LastLSN, Durable, ReplayDisk, Loggable, KeptParts, Aligned, Whole, Kept;
    var k := Durable(crc, batches, c);
    var now := batches[..k] + more;
    var log := Log(batches);
    assert Joined([]) == [] && [] + log == log;
    NothingWritten(crc);
    assert OnDisk(crc, []) == [];
    RecoveredDisk(crc, batches, [], log, c);
    TornTailRecovery(crc, batches, [], log, c);
    OneSegment(crc, batches, c);
    LogExtends(batches[..k], more);
    LogFramable(now);
    FeedLog(now);
    JoinedOne(Log(now));
    ReplayWhole(crc, [Log(now)]);
    assert OnDisk(crc, [Log(now)]) == [Written(crc, Log(now))];
    DataIncreases(now);
  }

  lemma OneSegment(crc: Checksum, batches: seq<Batch>, c: nat)
    requires AllLoggable(batches) && LastLSN(batches) < TWO_63 && c <= |Written(crc, Log(batches))|
    ensures var k := Durable(crc, batches, c);
            DiskAfter(crc, [Written(crc, Log(batches))[..c]]) == [Written(crc, Log(batches[..k]))]
  {
    hide Written, FeedAll, Log, LastLSN, Durable, ReplayDisk, Loggable, Whole, Committed, Complete, AllAccepted,
      Aligned, KeptParts, DiskAfter;
    var log, m, k := Log(batches), Whole(crc, Log(batches), c), Durable(crc, batches, c);
    var disk := [Written(crc, log)[..c]];
    assert Joined([]) == [] && [] + log == log && [] + log[..m] == log[..m];
    NothingWritten(crc);
    assert OnDisk(crc, []) == [] && [] + disk == disk && [] + [log[..m]] == [log[..m]];
    RecoveredDisk(crc, batches, [], log, c);
    SeenOfLog(crc, batches, [], log, c);
    CommittedOfLog(batches, m);
    var r := ReplayDisk(crc, disk, FRESH);
    if r.stopped || r.state.pending != [] {
      OneKept(log[..m]);
      assert OnDisk(crc, [Log(batches[..k])]) == [Written(crc, Log(batches[..k]))];
    } else {
      ReplayCutDisk(crc, [], log, c, FRESH);
      CleanPrefix(crc, batches, c);
    }
  }

  /** A cut at the end of a batch leaves the written form of the batches before it. */
  lemma CleanPrefix(crc: Checksum, batches: seq<Batch>, c: nat)
    requires AllLoggable(batches) && LastLSN(batches) < TWO_63 && c <= |Written(crc, Log(batches))|
    requires var m := Whole(crc, Log(batches), c);
             c == |Written(crc, Log(batches)[..m])| && FeedAll(FRESH, Log(batches)[..m]).pending == []
    ensures var k := Complete(batches, Whole(crc, Log(batches), c));
            Written(crc, Log(batches))[..c] == Written(crc, Log(batches[..k]))
  {
    hide Written, FeedAll, Log, LastLSN, Loggable, Whole, Complete;
    var m := Whole(crc, Log(batches), c);
    FeedPrefix(batches, m);
    CutWritten(crc, Log(batches), c);
    assert Log(batches)[..m] == Log(batches[..Complete(batches, m)]);
  }

  lemma OneKept(rs: seq<WalRecord>)
    ensures KeptParts([rs], []) == [rs[..Committed([], rs)]] && Aligned([rs], [])
  {
    assert [rs][1..] == [];
  }

  lemma {:induction false} LogExtends(batches: seq<Batch>, more: seq<Batch>)
    ensures Log(batches) <= Log(batches + more) && Data(batches) <= Data(batches + more)
    ensures AllLoggable(batches) && AllLoggable(more) ==> AllLoggable(batches + more)
  {
    if more == [] {
      assert batches + more == batches;
    } else {
      var n := |more| - 1;
      assert (batches + more)[..|batches| + n] == batches + more[..n];
      LogExtends(batches, more[..n]);
    }
  }

  lemma {:induction false} DataIncreases(batches: seq<Batch>)
    ensures forall i | 0 <= i < |Data(batches)| :: 0 < Data(batches)[i].lsn <= LastLSN(batches)
    ensures forall i, j | 0 <= i < j < |Data(batches)| :: Data(batches)[i].lsn < Data(batches)[j].lsn
  {
    if batches != [] {
      DataIncreases(batches[..|batches| - 1]);
    }
  }
}
