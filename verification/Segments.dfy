/** Segment files as bytes: frames back to back, the frame walk of recovery, and recovery of a
  * WAL spread over segments whose last one was cut at any byte (internal/wal/recovery.go). */
module Segments {
  import opened Core
  import opened Bytes
  import opened Frames
  import opened Recovery

  predicate AllFramable(rs: seq<WalRecord>) {
    forall i | 0 <= i < |rs| :: Framable(rs[i])
  }

  /** The bytes of records written one after the other. */
  function Written(crc: Checksum, rs: seq<WalRecord>): seq<Byte> {
    if rs == [] then [] else Frame(crc, rs[0]) + Written(crc, rs[1..])
  }

  lemma {:induction false} WrittenAppend(crc: Checksum, xs: seq<WalRecord>, ys: seq<WalRecord>)
    ensures Written(crc, xs + ys) == Written(crc, xs) + Written(crc, ys)
  {
    hide Frame;
    if xs == [] {
      assert xs + ys == ys;
    } else {
      assert (xs + ys)[1..] == xs[1..] + ys;
      WrittenAppend(crc, xs[1..], ys);
    }
  }

  /* ----- the frame walk ----- */

  /** The records found from the start of the data, and whether the walk reached its end. */
  datatype Scan = Scan(records: seq<WalRecord>, clean: bool)

  function Parse(crc: Checksum, data: seq<Byte>): Scan
    decreases |data|
  {
    if data == [] then Scan([], true)
    else if |data| < HEADER_SIZE + CRC_SIZE then Scan([], false)
    else
      var n := AnnouncedLength(data);
      if n > |data| then Scan([], false)
      else
        match Decode(crc, data[..n])
        case None => Scan([], false)
        case Some(r) =>
          var rest := Parse(crc, data[n..]);
          Scan([r] + rest.records, rest.clean)
  }

  /** A frame is announced by its own header, even when only part of it is there. */
  lemma PartialFrame(crc: Checksum, r: WalRecord, data: seq<Byte>)
    requires Framable(r) && |data| >= HEADER_SIZE + CRC_SIZE
    requires if |data| < |Frame(crc, r)| then data == Frame(crc, r)[..|data|]
             else data[..|Frame(crc, r)|] == Frame(crc, r)
    ensures AnnouncedLength(data) == |Frame(crc, r)|
  {
    FrameParts(crc, r);
    assert data[9..13] == Frame(crc, r)[9..13];
  }

  /** Whole frames are found; a frame torn at the end stops the walk there. */
  lemma {:induction false} ParseWritten(crc: Checksum, rs: seq<WalRecord>, r: WalRecord, torn: seq<Byte>)
    requires AllFramable(rs) && Framable(r)
    requires |torn| < |Frame(crc, r)| && torn == Frame(crc, r)[..|torn|]
    ensures Parse(crc, Written(crc, rs) + torn) == Scan(rs, torn == [])
    decreases |rs|
  {
    hide Frame, Decode, AnnouncedLength;
    var data := Written(crc, rs) + torn;
    if rs == [] {
      assert data == torn;
      if |torn| >= HEADER_SIZE + CRC_SIZE { PartialFrame(crc, r, data); }
    } else {
      var first, rest := Frame(crc, rs[0]), Written(crc, rs[1..]) + torn;
      assert data == first + rest;
      PartialFrame(crc, rs[0], data);
      DecodeExactly(crc, first, rs[0]);
      assert data[..|first|] == first && data[|first|..] == rest;
      ParseWritten(crc, rs[1..], r, torn);
    }
  }

  /** How many whole frames the first `c` bytes hold. */
  function Whole(crc: Checksum, rs: seq<WalRecord>, c: nat): (m: nat)
    ensures m <= |rs|
  {
    if rs == [] || |Frame(crc, rs[0])| > c then 0 else 1 + Whole(crc, rs[1..], c - |Frame(crc, rs[0])|)
  }

  lemma ShiftCut(first: seq<Byte>, rest: seq<Byte>, whole: seq<Byte>, c: nat)
    requires |first| + |whole| <= c <= |first| + |rest| && rest[..|whole|] == whole
    ensures (first + rest)[..|first + whole|] == first + whole
    ensures (first + rest)[|first + whole|..c] == rest[|whole|..c - |first|]
  {
  }

  /** A cut leaves whole frames and then part of the next frame. */
  lemma {:induction false} CutWritten(crc: Checksum, rs: seq<WalRecord>, c: nat)
    requires c <= |Written(crc, rs)|
    ensures var m := Whole(crc, rs, c);
            var whole := Written(crc, rs[..m]);
            && |whole| <= c && Written(crc, rs)[..|whole|] == whole
            && (m == |rs| ==> c == |whole|)
            && (m < |rs| ==> c - |whole| < |Frame(crc, rs[m])|
                             && Written(crc, rs)[|whole|..c] == Frame(crc, rs[m])[..c - |whole|])
    decreases |rs|
  {
    hide Frame, Written, Whole;
    WrittenFirst(crc, rs);
    WholeFirst(crc, rs, c);
    WrittenFirst(crc, rs[..0]);
    if rs != [] {
      var first := Frame(crc, rs[0]);
      if |first| <= c {
        CutWritten(crc, rs[1..], c - |first|);
        var m := Whole(crc, rs[1..], c - |first|);
        assert rs[..m + 1][0] == rs[0] && rs[..m + 1][1..] == rs[1..][..m];
        WrittenFirst(crc, rs[..m + 1]);
        ShiftCut(first, Written(crc, rs[1..]), Written(crc, rs[1..][..m]), c);
      }
    }
  }

  lemma WrittenFirst(crc: Checksum, rs: seq<WalRecord>)
    ensures Written(crc, rs) == if rs == [] then [] else Frame(crc, rs[0]) + Written(crc, rs[1..])
  {
  }

  lemma WholeFirst(crc: Checksum, rs: seq<WalRecord>, c: nat)
    ensures Whole(crc, rs, c)
         == if rs == [] || |Frame(crc, rs[0])| > c then 0 else 1 + Whole(crc, rs[1..], c - |Frame(crc, rs[0])|)
  {
  }

  lemma ParseCut(crc: Checksum, rs: seq<WalRecord>, c: nat)
    requires AllFramable(rs) && c <= |Written(crc, rs)|
    ensures var m := Whole(crc, rs, c);
            Parse(crc, Written(crc, rs)[..c]) == Scan(rs[..m], c == |Written(crc, rs[..m])|)
  {
    hide Frame, Written, Parse, Whole;
    CutWritten(crc, rs, c);
    var m := Whole(crc, rs, c);
    var whole := Written(crc, rs[..m]);
    var torn := Written(crc, rs)[|whole|..c];
    assert Written(crc, rs)[..c] == whole + torn;
    if m < |rs| {
      ParseWritten(crc, rs[..m], rs[m], torn);
    } else {
      ParseWritten(crc, rs[..m], Commit(0, 0), torn) by { CommitAnnounces(0, 0); }
    }
  }

  /* ----- recovery over segments ----- */

  datatype Replayed = Replayed(state: RState, stopped: bool)

  /** recoverSegments from LSN 0: segment after segment, stopping at a torn or corrupt frame. */
  function ReplayDisk(crc: Checksum, disk: seq<seq<Byte>>, st: RState): Replayed {
    if disk == [] then Replayed(st, false)
    else
      var found := Parse(crc, disk[0]);
      var st1 := FeedAll(st, found.records);
      if found.clean then ReplayDisk(crc, disk[1..], st1) else Replayed(st1, true)
  }

  /** The records of all segments in order. */
  function Joined(parts: seq<seq<WalRecord>>): seq<WalRecord> {
    if parts == [] then [] else parts[0] + Joined(parts[1..])
  }

  function OnDisk(crc: Checksum, parts: seq<seq<WalRecord>>): (disk: seq<seq<Byte>>)
    ensures |disk| == |parts|
  {
    seq(|parts|, i requires 0 <= i < |parts| => Written(crc, parts[i]))
  }

  lemma {:induction false} JoinedAppend(xs: seq<seq<WalRecord>>, ys: seq<seq<WalRecord>>)
    ensures Joined(xs + ys) == Joined(xs) + Joined(ys)
  {
    if xs == [] {
      assert xs + ys == ys;
    } else {
      assert (xs + ys)[1..] == xs[1..] + ys;
      JoinedAppend(xs[1..], ys);
    }
  }

  lemma OnDiskAppend(crc: Checksum, parts: seq<seq<WalRecord>>, part: seq<WalRecord>)
    ensures OnDisk(crc, parts + [part]) == OnDisk(crc, parts) + [Written(crc, part)]
  {
    hide Written;
  }

  lemma OnDiskRest(crc: Checksum, parts: seq<seq<WalRecord>>, tail: seq<seq<Byte>>)
    requires parts != []
    ensures OnDisk(crc, parts) + tail == [Written(crc, parts[0])] + (OnDisk(crc, parts[1..]) + tail)
  {
    hide Written;
  }

  lemma FirstFramable(parts: seq<seq<WalRecord>>)
    requires parts != [] && AllFramable(Joined(parts))
    ensures AllFramable(parts[0]) && AllFramable(Joined(parts[1..]))
  {
    FramableParts(parts[0], Joined(parts[1..]));
  }

  lemma FramableParts(xs: seq<WalRecord>, ys: seq<WalRecord>)
    requires AllFramable(xs + ys)
    ensures AllFramable(xs) && AllFramable(ys)
  {
    hide Framable;
    assert forall i | 0 <= i < |xs| :: xs[i] == (xs + ys)[i];
    assert forall i | 0 <= i < |ys| :: ys[i] == (xs + ys)[|xs| + i];
  }

  lemma JoinedOne(part: seq<WalRecord>)
    ensures Joined([part]) == part
  {
    assert [part][1..] == [] && Joined([]) == [];
  }

  /** Whole segments, then one cut at byte `c`: the replay sees the records before the cut. */
  lemma {:induction false} ReplayCutDisk(crc: Checksum, parts: seq<seq<WalRecord>>, last: seq<WalRecord>, c: nat,
                                         st: RState)
    requires AllFramable(Joined(parts)) && AllFramable(last) && c <= |Written(crc, last)|
    ensures var m := Whole(crc, last, c);
            ReplayDisk(crc, OnDisk(crc, parts) + [Written(crc, last)[..c]], st)
            == Replayed(FeedAll(st, Joined(parts) + last[..m]), c != |Written(crc, last[..m])|)
    decreases |parts|
  {
    hide Frame, Written, Parse, Whole, FeedAll;
    var m := Whole(crc, last, c);
    var disk := OnDisk(crc, parts) + [Written(crc, last)[..c]];
    ParseCut(crc, last, c);
    if parts == [] {
      assert disk == [Written(crc, last)[..c]] && disk[1..] == [];
      assert Joined(parts) + last[..m] == last[..m];
    } else {
      var first := parts[0];
      assert disk[0] == Written(crc, first) && disk[1..] == OnDisk(crc, parts[1..]) + [Written(crc, last)[..c]];
      assert AllFramable(first) by { assert forall i | 0 <= i < |first| :: first[i] == Joined(parts)[i]; }
      ParseAll(crc, first);
      assert AllFramable(Joined(parts[1..])) by {
        assert forall i | 0 <= i < |Joined(parts[1..])| :: Joined(parts[1..])[i] == Joined(parts)[|first| + i];
      }
      ReplayCutDisk(crc, parts[1..], last, c, FeedAll(st, first));
      FeedAppend(st, first, Joined(parts[1..]) + last[..m]);
      assert Joined(parts) + last[..m] == first + (Joined(parts[1..]) + last[..m]);
    }
  }

  lemma ParseAll(crc: Checksum, rs: seq<WalRecord>)
    requires AllFramable(rs)
    ensures Parse(crc, Written(crc, rs)) == Scan(rs, true)
  {
    hide Frame, Parse, Written;
    CommitAnnounces(0, 0);
    ParseWritten(crc, rs, Commit(0, 0), []);
    assert Written(crc, rs) + [] == Written(crc, rs);
  }

  /* ----- the torn-tail theorem ----- */

  lemma {:induction false} LogFramable(batches: seq<Batch>)
    requires AllLoggable(batches) && LastLSN(batches) < TWO_63
    ensures AllFramable(Log(batches))
  {
    if batches != [] {
      var n := |batches| - 1;
      LSNsGrow(batches, n);
      LogFramable(batches[..n]);
      LoggedFramable(batches[n], LastLSN(batches[..n]));
    }
  }

  lemma LoggedFramable(batch: Batch, lsn: nat)
    requires Loggable(batch) && lsn + |batch| + 1 < TWO_64
    ensures AllFramable(Logged(batch, lsn))
  {
    CommitAnnounces(lsn + |batch| + 1, |batch|);
  }

  /** How many batches have their commit frame within the first `bytes` bytes of the log. */
  function Durable(crc: Checksum, batches: seq<Batch>, bytes: nat): (k: nat)
    ensures k <= |batches|
  {
    if batches == [] then 0
    else if |Written(crc, Log(batches))| <= bytes then |batches|
    else Durable(crc, batches[..|batches| - 1], bytes)
  }

  lemma WrittenPrefix(crc: Checksum, rs: seq<WalRecord>, p: nat, q: nat)
    requires p <= q <= |rs|
    ensures |Written(crc, rs[..p])| <= |Written(crc, rs[..q])|
    ensures p < q ==> |Written(crc, rs[..p])| < |Written(crc, rs[..q])|
  {
    hide Written;
    assert rs[..q] == rs[..p] + rs[p..q];
    WrittenAppend(crc, rs[..p], rs[p..q]);
    if p < q { WrittenSome(crc, rs[p..q]); }
  }

  lemma WrittenSome(crc: Checksum, rs: seq<WalRecord>)
    requires rs != []
    ensures |Written(crc, rs)| > 0
  {
  }

  /** Counting complete batches by bytes or by whole records is the same, when the first `p`
    * records are those that fit in `bytes`. */
  lemma {:induction false} DurableIsComplete(crc: Checksum, batches: seq<Batch>, all: seq<WalRecord>, p: nat,
                                             bytes: nat)
    requires |Log(batches)| <= |all| && all[..|Log(batches)|] == Log(batches) && p <= |all|
    requires |Written(crc, all[..p])| <= bytes && (p < |all| ==> bytes < |Written(crc, all[..p + 1])|)
    ensures Durable(crc, batches, bytes) == Complete(batches, p)
  {
    hide Written;
    if batches != [] {
      var n := |batches| - 1;
      var q := |Log(batches)|;
      if q <= p {
        WrittenPrefix(crc, all, q, p);
      } else {
        WrittenPrefix(crc, all, p + 1, q);
        assert all[..|Log(batches[..n])|] == Log(batches)[..|Log(batches[..n])|] == Log(batches[..n]);
        DurableIsComplete(crc, batches[..n], all, p, bytes);
      }
    }
  }

  /** Whatever the cut, the whole frames are a prefix of the log, and the durable batches are those
    * that are complete in it. */
  lemma SeenOfLog(crc: Checksum, batches: seq<Batch>, parts: seq<seq<WalRecord>>, last: seq<WalRecord>, c: nat)
    requires AllLoggable(batches) && LastLSN(batches) < TWO_63
    requires Joined(parts) + last == Log(batches) && c <= |Written(crc, last)|
    ensures AllFramable(Joined(parts)) && AllFramable(last) && AllFramable(Joined(parts) + last[..Whole(crc, last, c)])
    ensures var seen, p := Joined(parts) + last[..Whole(crc, last, c)], |Joined(parts)| + Whole(crc, last, c);
            && p <= |Log(batches)| && seen == Log(batches)[..p] && Joined(parts + [last[..Whole(crc, last, c)]]) == seen
            && Durable(crc, batches, |Written(crc, Joined(parts))| + c) == Complete(batches, p)
  {
    hide Written, Whole, Log, LastLSN, Complete, Durable, Framable, Joined, Loggable;
    var all, m := Log(batches), Whole(crc, last, c);
    LogFramable(batches);
    assert forall i | 0 <= i < |Joined(parts)| :: Joined(parts)[i] == all[i];
    assert forall i | 0 <= i < |last| :: last[i] == all[|Joined(parts)| + i];
    JoinedAppend(parts, [last[..m]]);
    JoinedOne(last[..m]);
    CutWritten(crc, last, c);
    CutBytes(crc, Joined(parts), last, m, c);
    DurableIsComplete(crc, batches, all, |Joined(parts)| + m, |Written(crc, Joined(parts))| + c);
  }

  /** For every list of batches, however its log is spread over segments at frame boundaries, and
    * every cut of the last segment: recovery delivers, in order, exactly the records of the
    * batches whose commit frame lies before the cut, and ends at the last such commit's LSN. */
  lemma TornTailRecovery(crc: Checksum, batches: seq<Batch>, parts: seq<seq<WalRecord>>, last: seq<WalRecord>, c: nat)
    requires AllLoggable(batches) && LastLSN(batches) < TWO_63
    requires Joined(parts) + last == Log(batches) && c <= |Written(crc, last)|
    ensures var k := Durable(crc, batches, |Written(crc, Joined(parts))| + c);
            var r := ReplayDisk(crc, OnDisk(crc, parts) + [Written(crc, last)[..c]], FRESH);
            && r.state.delivered == Data(batches[..k])
            && r.state.highest == LastLSN(batches[..k])
  {
    hide Written, Whole, ReplayDisk, FeedAll, Log, Data, LastLSN, Complete, Durable, Framable;
    SeenOfLog(crc, batches, parts, last, c);
    ReplayCutDisk(crc, parts, last, c, FRESH);
    FeedPrefix(batches, |Joined(parts)| + Whole(crc, last, c));
  }

  lemma CutBytes(crc: Checksum, before: seq<WalRecord>, last: seq<WalRecord>, m: nat, c: nat)
    requires m <= |last| && |Written(crc, last[..m])| <= c
    requires m < |last| ==> c - |Written(crc, last[..m])| < |Frame(crc, last[m])|
    ensures var all, p := before + last, |before| + m;
            var bytes := |Written(crc, before)| + c;
            && |Written(crc, all[..p])| <= bytes
            && (p < |all| ==> bytes < |Written(crc, all[..p + 1])|)
  {
    hide Frame;
    var all, p := before + last, |before| + m;
    assert all[..p] == before + last[..m];
    WrittenAppend(crc, before, last[..m]);
    if m < |last| {
      assert all[..p + 1] == all[..p] + [last[m]];
      WrittenAppend(crc, all[..p], [last[m]]);
      assert Written(crc, [last[m]]) == Frame(crc, last[m]) + []
             by { assert [last[m]][1..] == [] && Written(crc, []) == []; }
    }
  }
}
