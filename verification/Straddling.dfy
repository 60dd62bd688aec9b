/** What AppendBatch writes can be lost by recovery (internal/wal/wal.go, writeBuffered;
  * internal/wal/recovery.go): a batch whose commit marker opens the next segment. */
module Straddling {
  import opened Core
  import opened Bytes
  import opened Frames
  import opened Recovery
  import opened Segments
  import opened Truncation
  import opened SegmentRecovery
  import opened Packing
  import opened Wals

  /** The files, the last one cut at byte `c`, deliver other records to a second recovery than to
    * the first. */
  ghost predicate Forgets(crc: Checksum, l: Layout, c: nat) {
    && c <= |l.open|
    && var disk := l.closed + [l.open[..c]];
       ReplayDisk(crc, DiskAfter(crc, disk), FRESH).state.delivered != ReplayDisk(crc, disk, FRESH).state.delivered
  }

  /** The payload of a frame that fills a segment. */
  function Padding(max: nat): seq<Byte>
    requires max >= HEADER_SIZE + CRC_SIZE
  {
    seq(max - HEADER_SIZE - CRC_SIZE, _ => 0)
  }

  /** One record that fills a segment, and one more; each is a batch. */
  function Filling(max: nat): seq<Batch>
    requires max >= HEADER_SIZE + CRC_SIZE
  {
    [[Item(TRANSFER, Padding(max))], [Item(TRANSFER, [])]]
  }

  /** For every segment size: AppendBatch puts the record of the first batch into one segment and
    * its commit marker into the next, before the second batch.  A crash before the second commit
    * marker is synced is recovered from with the first batch, and the recovery after that has lost
    * it. */
  lemma StraddlingBatchIsLost(crc: Checksum, max: nat)
    requires 75 <= max < TWO_32
    ensures var batches := Filling(max);
            && AllLoggable(batches) && LastLSN(batches) < TWO_63 && AllFit(batches, max)
            && exists c :: Forgets(crc, Journal(crc, batches, max), c)
  {
    hide ReplayDisk, DiskAfter, Written, Frame, Journal, AllFit, Commit;
    var batches := Filling(max);
    var payload := Padding(max);
    var r1, c2, r3, c4 := WalRecord(1, TRANSFER, payload), Commit(2, 1), WalRecord(3, TRANSFER, []), Commit(4, 1);
    TwoBatches(batches, payload);
    FillingFits(max);
    var parts, last := [[r1]], [c2, r3, c4];
    JoinedOne([r1]);
    assert Joined(parts) + last == [r1, c2, r3, c4];
    var c := |Written(crc, [c2, r3])|;
    assert last[..2] == [c2, r3];
    WrittenPrefix(crc, last, 2, 3);
    assert last[..3] == last;
    WholePrefix(crc, last, 2);
    RecoveredDisk(crc, batches, parts, last, c);
    CommitKind(2, 1);
    TornSecond(crc, r1, c2, r3, c4, c);
    NotAligned(r1, c2, r3);
    assert parts + [last[..2]] == [[r1], [c2, r3]];
    FillingJournal(crc, max);
    assert Forgets(crc, Journal(crc, batches, max), c);
  }

  /** The second batch waits for its commit marker. */
  lemma TornSecond(crc: Checksum, r1: WalRecord, c2: WalRecord, r3: WalRecord, c4: WalRecord, c: nat)
    requires AllFramable([r1, c2, r3, c4]) && r1.kind == r3.kind == TRANSFER && c2.kind == BATCH_COMMIT
    requires c <= |Written(crc, [c2, r3, c4])| && Whole(crc, [c2, r3, c4], c) == 2
    ensures ReplayDisk(crc, OnDisk(crc, [[r1]]) + [Written(crc, [c2, r3, c4])[..c]], FRESH).state.pending == [r3]
  {
    hide ReplayDisk, Written, Framable, Whole, OnDisk;
    var all, last := [r1, c2, r3, c4], [c2, r3, c4];
    JoinedOne([r1]);
    assert forall i | 0 <= i < 3 :: last[i] == all[i + 1];
    assert [r1][0] == all[0];
    ReplayCutDisk(crc, [[r1]], last, c, FRESH);
    assert [r1] + last[..2] == [r1, c2, r3];
    Leftover(r1, c2, r3);
  }

  lemma TwoBatches(batches: seq<Batch>, payload: seq<Byte>)
    requires batches == [[Item(TRANSFER, payload)], [Item(TRANSFER, [])]] && |payload| < TWO_32
    ensures Log(batches) == [WalRecord(1, TRANSFER, payload), Commit(2, 1), WalRecord(3, TRANSFER, []), Commit(4, 1)]
    ensures LastLSN(batches) == 4 && AllLoggable(batches) && AllFramable(Log(batches))
    ensures LastLSN(batches[..1]) == 2 && LastLSN(batches[..1][..0]) == 0
    ensures Logged(batches[0], 0) == [WalRecord(1, TRANSFER, payload), Commit(2, 1)]
    ensures Logged(batches[1], 2) == [WalRecord(3, TRANSFER, []), Commit(4, 1)]
  {
    hide Commit;
    assert batches[..1] == [batches[0]] && batches[..1][..0] == [];
    assert LastLSN([]) == 0 && Log([]) == [];
    assert Log(batches[..1]) == [WalRecord(1, TRANSFER, payload), Commit(2, 1)];
    LogFramable(batches);
  }

  lemma FillingFits(max: nat)
    requires 75 <= max < TWO_32
    ensures AllFit(Filling(max), max)
  {
    hide Encodable;
    var batches := Filling(max);
    forall i | 0 <= i < |batches|
      ensures Encodable(batches[i], max) == |batches[i]|
    {
      EncodableIs(batches[i], max, 1);
    }
  }

  /** The frames one after the other. */
  lemma FillingJournal(crc: Checksum, max: nat)
    requires 75 <= max < TWO_32
    ensures var r1, c2, r3, c4 := WalRecord(1, TRANSFER, Padding(max)), Commit(2, 1), WalRecord(3, TRANSFER, []),
            Commit(4, 1);
            Journal(crc, Filling(max), max) == Layout(OnDisk(crc, [[r1]]), Written(crc, [c2, r3, c4]))
  {
    hide Frame, Written, Log, LastLSN, Logged, PlaceAll, Place, Commit, Padding;
    var batches, payload := Filling(max), Padding(max);
    PaddingFills(max);
    var r1, c2, r3, c4 := WalRecord(1, TRANSFER, payload), Commit(2, 1), WalRecord(3, TRANSFER, []), Commit(4, 1);
    TwoBatches(batches, payload);
    assert batches[..1][..0] == [] && batches[..1][0] == batches[0];
    assert Journal(crc, batches[..1][..0], max) == NO_FILES;
    var one := Layout([Frame(crc, r1)], Frame(crc, c2));
    PlaceTwo(crc, NO_FILES, r1, c2, max);
    PlaceTwo(crc, one, r3, c4, max);
    assert Journal(crc, batches[..1], max) == PlaceAll(NO_FILES, FramesOf(crc, [r1, c2]), max);
    assert Journal(crc, batches, max) == PlaceAll(Journal(crc, batches[..1], max), FramesOf(crc, [r3, c4]), max);
    PlaceFilling(Frame(crc, r1), Frame(crc, c2), Frame(crc, r3), Frame(crc, c4), max) by { CommitLength(crc); }
    WrittenOne(crc, r1);
    assert OnDisk(crc, [[r1]]) == [Written(crc, [r1])];
    WrittenThree(crc, c2, r3, c4);
  }

  lemma PaddingFills(max: nat)
    requires 75 <= max < TWO_32
    ensures |Padding(max)| == max - HEADER_SIZE - CRC_SIZE < TWO_32
  {
  }

  lemma CommitLength(crc: Checksum)
    ensures |Frame(crc, Commit(2, 1))| == |Frame(crc, Commit(4, 1))| == COMMIT_SIZE
  {
    hide Frame;
  }

  lemma PlaceFilling(f1: seq<Byte>, f2: seq<Byte>, f3: seq<Byte>, f4: seq<Byte>, max: nat)
    requires |f1| == max && |f2| == |f4| == COMMIT_SIZE && |f3| == 17 && 75 <= max
    ensures Place(Place(NO_FILES, f1, max), f2, max) == Layout([f1], f2)
    ensures Place(Place(Layout([f1], f2), f3, max), f4, max) == Layout([f1], f2 + f3 + f4)
  {
    assert [] + f1 == f1;
    assert NO_FILES.closed + [f1] == [f1];
  }

  lemma PlaceTwo(crc: Checksum, l: Layout, a: WalRecord, b: WalRecord, max: nat)
    ensures PlaceAll(l, FramesOf(crc, [a, b]), max) == Place(Place(l, Frame(crc, a), max), Frame(crc, b), max)
  {
    hide Frame, Place;
    var frames: seq<seq<Byte>> := FramesOf(crc, [a, b]);
    var one: seq<seq<Byte>> := frames[..1];
    assert frames[1] == Frame(crc, b) && one[0] == Frame(crc, a) && |one| == 1 && one[..0] == [];
    assert PlaceAll(l, one, max) == Place(PlaceAll(l, one[..0], max), one[0], max);
  }

  lemma WrittenThree(crc: Checksum, a: WalRecord, b: WalRecord, c: WalRecord)
    ensures Written(crc, [a, b, c]) == Frame(crc, a) + Frame(crc, b) + Frame(crc, c)
  {
    hide Frame, Written;
    assert [a, b, c] == [a] + ([b] + [c]);
    WrittenAppend(crc, [a], [b] + [c]);
    WrittenAppend(crc, [b], [c]);
    WrittenOne(crc, a);
    WrittenOne(crc, b);
    WrittenOne(crc, c);
  }

  lemma {:induction false} WholePrefix(crc: Checksum, rs: seq<WalRecord>, m: nat)
    requires m < |rs|
    ensures Whole(crc, rs, |Written(crc, rs[..m])|) == m
  {
    hide Frame;
    if m > 0 {
      assert rs[..m][0] == rs[0] && rs[..m][1..] == rs[1..][..m - 1];
      WholePrefix(crc, rs[1..], m - 1);
    } else {
      assert rs[..0] == [];
    }
  }

  lemma Leftover(r1: WalRecord, c2: WalRecord, r3: WalRecord)
    requires r1.kind == r3.kind == TRANSFER && c2.kind == BATCH_COMMIT
    ensures FeedAll(FRESH, [r1, c2, r3]).pending == [r3]
  {
    var rs := [r1, c2, r3];
    assert rs[..2] == [r1, c2] && rs[..2][..1] == [r1];
    FeedOne(FRESH, r1);
    assert FeedAll(FRESH, rs[..2]).pending == [];
  }

  lemma NotAligned(r1: WalRecord, c2: WalRecord, r3: WalRecord)
    requires r1.kind == TRANSFER && c2.kind == BATCH_COMMIT
    ensures !Aligned([[r1], [c2, r3]], [])
  {
    var parts := [[r1], [c2, r3]];
    assert parts[1..] == [[c2, r3]];
    YieldData([], [r1]);
    assert [c2, r3][0].kind == BATCH_COMMIT;
    assert HasCommit(parts[1..][0]);
  }
}
