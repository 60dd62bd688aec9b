/** What the readers of segment files find in any bytes, intact or not (internal/wal/recovery.go,
  * internal/wal/stream.go, internal/wal/wal.go), and which files stay. */
module WalLaws {
  import opened Core
  import opened Bytes
  import opened Frames
  import opened Recovery
  import opened Segments
  import opened Skipping
  import opened Streaming
  import opened Wals

  /* ----- the frame walk of recovery ----- */

  /** The data begins with a whole intact frame. */
  ghost predicate FrameAhead(crc: Checksum, data: seq<Byte>) {
    exists r :: Framable(r) && Frame(crc, r) <= data
  }

  /** One step: a frame is taken exactly when there is one. */
  lemma StepExactly(crc: Checksum, data: seq<Byte>)
    ensures FrameAhead(crc, data) <==>
              && |data| >= HEADER_SIZE + CRC_SIZE && AnnouncedLength(data) <= |data|
              && Decode(crc, data[..AnnouncedLength(data)]).Some?
    ensures forall r | Framable(r) && Frame(crc, r) <= data ::
              && |data| >= HEADER_SIZE + CRC_SIZE && AnnouncedLength(data) == |Frame(crc, r)|
              && Decode(crc, data[..|Frame(crc, r)|]) == Some(r)
  {
    hide Frame, Decode, AnnouncedLength;
    forall r | Framable(r) && Frame(crc, r) <= data
      ensures |data| >= HEADER_SIZE + CRC_SIZE && AnnouncedLength(data) == |Frame(crc, r)|
      ensures Decode(crc, data[..|Frame(crc, r)|]) == Some(r)
    {
      PartialFrame(crc, r, data);
      DecodeExactly(crc, data[..|Frame(crc, r)|], r);
    }
    if |data| >= HEADER_SIZE + CRC_SIZE && AnnouncedLength(data) <= |data|
       && Decode(crc, data[..AnnouncedLength(data)]).Some? {
      var r := Decode(crc, data[..AnnouncedLength(data)]).value;
      DecodeExactly(crc, data[..AnnouncedLength(data)], r);
      assert Framable(r) && Frame(crc, r) <= data;
    }
  }

  /** Frames and then something that does not begin with one: the walk finds exactly the frames, and
    * reaches the end exactly when nothing follows them. */
  lemma {:induction false} ParseFinds(crc: Checksum, rs: seq<WalRecord>, rest: seq<Byte>)
    requires AllFramable(rs) && !FrameAhead(crc, rest)
    ensures Parse(crc, Written(crc, rs) + rest) == Scan(rs, rest == [])
    decreases |rs|
  {
    hide Frame, Decode, AnnouncedLength, FrameAhead, Framable;
    var data := Written(crc, rs) + rest;
    StepExactly(crc, data);
    if rs == [] {
      assert data == rest;
    } else {
      var first, more := Frame(crc, rs[0]), Written(crc, rs[1..]) + rest;
      assert data == first + more;
      assert Framable(rs[0]) && first <= data;
      assert data[..|first|] == first && data[|first|..] == more;
      ParseFinds(crc, rs[1..], rest);
    }
  }

  /** And any bytes are of that form, so this says what recovery reads from a segment with damage
    * anywhere: everything before the first frame that is not intact. */
  lemma {:induction false} AnyBytes(crc: Checksum, data: seq<Byte>) returns (rs: seq<WalRecord>, rest: seq<Byte>)
    ensures AllFramable(rs) && !FrameAhead(crc, rest) && data == Written(crc, rs) + rest
    decreases |data|
  {
    hide Frame, Framable;
    if exists r :: Framable(r) && Frame(crc, r) <= data {
      var r :| Framable(r) && Frame(crc, r) <= data;
      var n := |Frame(crc, r)|;
      var more: seq<WalRecord>;
      more, rest := AnyBytes(crc, data[n..]);
      rs := [r] + more;
      assert rs[1..] == more;
      assert data == data[..n] + data[n..];
      Regroup(Frame(crc, r), Written(crc, more), rest);
    } else {
      rs, rest := [], data;
      assert Written(crc, []) + data == data;
    }
  }

  /* ----- the frame walk of the stream reader ----- */

  /** The same with a payload of at most 1 MiB. */
  ghost predicate SmallFrameAhead(crc: Checksum, data: seq<Byte>) {
    exists r :: Framable(r) && |r.payload| <= 1048576 && Frame(crc, r) <= data
  }

  /** What follows the last frame: nothing; a frame that is not all there, as far as its header can be
    * read; or no frame. */
  function Ending(rest: seq<Byte>): End {
    if rest == [] then Clean
    else if |rest| < 17 || (Get(rest[9..13]) <= 1048576 && Get(rest[9..13]) + 17 > |rest|) then Short
    else Bad
  }

  lemma SmallStep(crc: Checksum, data: seq<Byte>)
    ensures SmallFrameAhead(crc, data) <==> FrameAhead(crc, data) && Get(data[9..13]) <= 1048576
  {
    hide Frame, Decode, Framable, Get;
    StepExactly(crc, data);
    if FrameAhead(crc, data) {
      var r :| Framable(r) && Frame(crc, r) <= data;
      FrameHeader(crc, r, data);
    }
    if SmallFrameAhead(crc, data) {
      var r :| Framable(r) && |r.payload| <= 1048576 && Frame(crc, r) <= data;
      FrameHeader(crc, r, data);
    }
  }

  lemma FrameHeader(crc: Checksum, r: WalRecord, data: seq<Byte>)
    requires Framable(r) && Frame(crc, r) <= data
    ensures |data| >= 17 && Get(data[9..13]) == |r.payload|
  {
    FrameParts(crc, r);
    assert data[9..13] == Frame(crc, r)[9..13];
  }

  lemma {:induction false} StreamFinds(crc: Checksum, rs: seq<WalRecord>, rest: seq<Byte>)
    requires AllFramable(rs) && (forall i | 0 <= i < |rs| :: |rs[i].payload| <= 1048576) && !SmallFrameAhead(crc, rest)
    ensures Walked(crc, Written(crc, rs) + rest) == Found(rs, Ending(rest))
    decreases |rs|
  {
    hide Frame, Decode, FrameAhead, SmallFrameAhead, Framable, Get;
    var data := Written(crc, rs) + rest;
    StepExactly(crc, data);
    if rs == [] {
      assert data == rest;
      SmallStep(crc, rest);
    } else {
      var first, more := Frame(crc, rs[0]), Written(crc, rs[1..]) + rest;
      assert data == first + more;
      assert Framable(rs[0]) && first <= data;
      FrameHeader(crc, rs[0], data);
      assert data[..|first|] == first && data[|first|..] == more;
      StreamFinds(crc, rs[1..], rest);
    }
  }

  /* ----- the tail peek ----- */

  /** A frame of a type other than 0, an LSN that is positive and fits 63 bits and a payload of at most
    * 1 MiB, with any checksum. */
  ghost predicate AnyFrame(frame: seq<Byte>, r: WalRecord) {
    && r.kind != 0 && 0 < r.lsn < TWO_63 && |r.payload| <= 1048576
    && exists crc: Checksum :: frame == Frame(crc, r)
  }

  /** What the peek takes for a frame: one with any checksum. */
  lemma PlausibleExactly(b: seq<Byte>)
    ensures Plausible(b) <==> exists n: nat, r :: n <= |b| && AnyFrame(b[..n], r)
    ensures forall n: nat, r | n <= |b| && AnyFrame(b[..n], r) :: AnnouncedLength(b) == n && Get(b[..8]) == r.lsn
  {
    hide Get, Frame;
    forall n: nat, r | n <= |b| && AnyFrame(b[..n], r)
      ensures Plausible(b) && AnnouncedLength(b) == n && Get(b[..8]) == r.lsn
    {
      var crc: Checksum :| b[..n] == Frame(crc, r);
      FramePlausible(crc, r, b, n);
    }
    if Plausible(b) {
      var n := AnnouncedLength(b);
      var f := b[..n];
      assert f[9..13] == b[9..13] && f[..8] == b[..8];
      var r := WalRecord(Get(f[..8]), f[8], f[13..n - 4]);
      var crc: Checksum := _ => Checked(f[n - 4..]);
      HeaderFrame(f, r, crc);
      assert AnyFrame(b[..n], r);
    }
  }

  lemma FramePlausible(crc: Checksum, r: WalRecord, b: seq<Byte>, n: nat)
    requires r.kind != 0 && 0 < r.lsn < TWO_63 && |r.payload| <= 1048576 && n <= |b| && b[..n] == Frame(crc, r)
    ensures Plausible(b) && AnnouncedLength(b) == n && Get(b[..8]) == r.lsn
  {
    hide Get, Frame;
    FrameParts(crc, r);
    assert b[9..13] == Frame(crc, r)[9..13] && b[..8] == Frame(crc, r)[..8] && b[8] == Frame(crc, r)[8];
  }

  function Checked(b: seq<Byte>): U32
    requires |b| == 4
  {
    Ranges();
    Get(b)
  }

  /** A header with its payload and four more bytes is a frame. */
  lemma HeaderFrame(f: seq<Byte>, r: WalRecord, crc: Checksum)
    requires |f| >= 17 && Get(f[9..13]) == |f| - 17 && r == WalRecord(Get(f[..8]), f[8], f[13..|f| - 4])
    requires forall x :: crc(x) == Checked(f[|f| - 4..])
    ensures f == Frame(crc, r)
  {
    hide Get, Put;
    PutGet(f[..8]);
    PutGet(f[9..13]);
    PutGet(f[|f| - 4..]);
    FourParts(f, |f| - 17);
  }

  /** A chain of plausible frames is walked to its end and no further. */
  lemma {:induction false} WalksChain(frames: seq<seq<Byte>>, rest: seq<Byte>, last: nat)
    requires forall i | 0 <= i < |frames| :: Plausible(frames[i]) && AnnouncedLength(frames[i]) == |frames[i]|
    requires !Plausible(rest)
    ensures frames != [] ==> |frames[|frames| - 1]| >= 17
    ensures Walk(Concat(frames) + rest, last)
         == Chain(|Concat(frames)|, if frames == [] then last else Get(frames[|frames| - 1][..8]))
    decreases |frames|
  {
    hide Get, Walk, Plausible, AnnouncedLength;
    if frames == [] {
      assert Concat(frames) + rest == rest;
      WalkShort(rest, last);
    } else {
      var first, more := frames[0], Concat(frames[1..]) + rest;
      Regroup(first, Concat(frames[1..]), rest);
      WalkFirst(first, more, last);
      WalksChain(frames[1..], rest, Get(first[..8]));
      assert |frames| > 1 ==> frames[1..][|frames| - 2] == frames[|frames| - 1];
    }
  }

  lemma WalkFirst(first: seq<Byte>, more: seq<Byte>, last: nat)
    requires Plausible(first) && AnnouncedLength(first) == |first|
    ensures |first| >= 17
    ensures var c := Walk(more, Get(first[..8]));
            Walk(first + more, last) == Chain(|first| + c.end, c.lsn)
  {
    hide Get;
    var b := first + more;
    assert b[9..13] == first[9..13] && b[..8] == first[..8] && b[8] == first[8] && b[|first|..] == more;
  }

  function Concat(frames: seq<seq<Byte>>): seq<Byte> {
    if frames == [] then [] else frames[0] + Concat(frames[1..])
  }

  /** How far a chain of plausible frames from `s` gets. */
  function Reach(b: seq<Byte>, s: nat): nat
    requires s <= |b|
  {
    s + Walk(b[s..], 0).end
  }

  /** Of the first 4096 places in the data, `s` is the first from which a chain gets furthest. */
  predicate Furthest(b: seq<Byte>, s: nat) {
    && s < |b| && s < 4096
    && (forall i | 0 <= i < 4096 && i < |b| :: Reach(b, i) <= Reach(b, s))
    && (forall i | 0 <= i < s :: Reach(b, i) < Reach(b, s))
  }

  /** The same among the places before `start`. */
  predicate FurthestSoFar(b: seq<Byte>, start: nat, s: nat) {
    && s < start <= |b|
    && (forall i | 0 <= i < start :: Reach(b, i) <= Reach(b, s))
    && (forall i | 0 <= i < s :: Reach(b, i) < Reach(b, s))
  }

  lemma {:induction false} PeekFromFurthest(b: seq<Byte>, start: nat, best: nat) returns (s: nat)
    requires start <= |b| && start <= 4096 && 0 < |b| && FurthestSoFar(b, start, best)
    ensures Furthest(b, s) && PeekFrom(b, start, Reach(b, best), Walk(b[best..], 0).lsn) == Walk(b[s..], 0).lsn
    decreases |b| - start
  {
    hide Walk, Reach;
    if start >= Least(|b|, PEEK_RESYNC) {
      s := best;
    } else {
      ReachIs(b, start);
      ReachIs(b, best);
      var better := Reach(b, start) > Reach(b, best);
      var next := if better then start else best;
      if Walk(b[start..], 0).end == |b| - start {
        if better {
          s := start;
          ReachAtMost(b);
        } else {
          s := best;
          ReachAtMost(b);
        }
      } else {
        assert FurthestSoFar(b, start + 1, next);
        s := PeekFromFurthest(b, start + 1, next);
      }
    }
  }

  lemma ReachIs(b: seq<Byte>, s: nat)
    requires s <= |b|
    ensures Reach(b, s) == s + Walk(b[s..], 0).end <= |b|
  {
  }

  lemma ReachAtMost(b: seq<Byte>)
    ensures forall i | 0 <= i <= |b| :: Reach(b, i) <= |b|
  {
    hide Walk, Reach;
    forall i | 0 <= i <= |b|
      ensures Reach(b, i) <= |b|
    {
      ReachIs(b, i);
    }
  }

  lemma EmptyChain(b: seq<Byte>)
    ensures Walk(b, 0).end == 0 ==> Walk(b, 0).lsn == 0
  {
  }

  /** For any segment of at least 17 bytes: the peek is the LSN at the end of the chain that gets
    * furthest in the last 64 KiB, among those that start in their first 4096 bytes, the earliest start
    * winning a tie. */
  lemma PeekIsFurthest(data: seq<Byte>) returns (s: nat)
    requires |data| >= 17
    ensures var b := data[if |data| <= 65536 then 0 else |data| - 65536..];
            Furthest(b, s) && Peek(data) == Walk(b[s..], 0).lsn
  {
    hide Walk, Reach, PeekFrom;
    var b := Tail(data);
    assert b == data[if |data| <= 65536 then 0 else |data| - 65536..];
    FirstPlace(b);
    EmptyChain(b);
    ReachIs(b, 0);
    assert b[0..] == b;
    if Walk(b, 0).end == |b| {
      s := 0;
      ReachAtMost(b);
    } else {
      assert FurthestSoFar(b, 1, 0);
      s := PeekFromFurthest(b, 1, 0);
    }
  }

  lemma FirstPlace(b: seq<Byte>)
    requires |b| >= 17
    ensures PeekFrom(b, 0, 0, 0)
         == if Walk(b, 0).end == |b| then Walk(b, 0).lsn
            else PeekFrom(b, 1, Walk(b, 0).end, if Walk(b, 0).end > 0 then Walk(b, 0).lsn else 0)
  {
    hide Walk;
    assert b[0..] == b;
  }

  /* ----- which files are deleted ----- */

  function Shifted(places: seq<nat>): (r: seq<nat>)
    ensures |r| == |places| && forall k | 0 <= k < |places| :: r[k] == places[k] + 1
  {
    seq(|places|, k requires 0 <= k < |places| => places[k] + 1)
  }

  lemma PicksMore(disk: seq<seq<Byte>>, places: seq<nat>, after: seq<seq<Byte>>)
    requires disk != [] && Picked(disk[1..], places, after)
    ensures Picked(disk, Shifted(places), after) && Picked(disk, [0] + Shifted(places), [disk[0]] + after)
    ensures forall j: nat :: j in Shifted(places) <==> j > 0 && j - 1 in places
    ensures forall j: nat :: j in [0] + Shifted(places) <==> j == 0 || j - 1 in places
  {
    PicksShifted(disk, places, after);
    ShiftedHas(places);
    FrontHas(Shifted(places));
    hide Picked, Shifted;
    PicksFront(disk, Shifted(places), after);
  }

  lemma PicksShifted(disk: seq<seq<Byte>>, places: seq<nat>, after: seq<seq<Byte>>)
    requires disk != [] && Picked(disk[1..], places, after)
    ensures Picked(disk, Shifted(places), after) && forall k | 0 <= k < |Shifted(places)| :: Shifted(places)[k] > 0
  {
  }

  lemma PicksFront(disk: seq<seq<Byte>>, places: seq<nat>, after: seq<seq<Byte>>)
    requires disk != [] && Picked(disk, places, after) && forall k | 0 <= k < |places| :: places[k] > 0
    ensures Picked(disk, [0] + places, [disk[0]] + after)
  {
    var all, files := [0] + places, [disk[0]] + after;
    assert forall k | 0 < k < |all| :: all[k] == places[k - 1] && files[k] == after[k - 1];
  }

  lemma ShiftedHas(places: seq<nat>)
    ensures forall j: nat :: j in Shifted(places) <==> j > 0 && j - 1 in places
  {
    var r := Shifted(places);
    forall j: nat
      ensures j in r <==> j > 0 && j - 1 in places
    {
      if j in r {
        var k :| 0 <= k < |r| && r[k] == j;
        assert places[k] == j - 1;
      }
      if j > 0 && j - 1 in places {
        var k :| 0 <= k < |places| && places[k] == j - 1;
        assert r[k] == j;
      }
    }
  }

  lemma FrontHas(places: seq<nat>)
    ensures forall j: nat :: j in [0] + places <==> j == 0 || j in places
  {
  }

  /** TruncateBefore leaves exactly the last file and the files whose peek is not below the LSN, in
    * order. */
  lemma {:induction false} PruneExactly(disk: seq<seq<Byte>>, lsn: nat) returns (places: seq<nat>)
    ensures Picked(disk, places, PruneDisk(disk, lsn))
    ensures forall j: nat :: j in places <==> j < |disk| && (j + 1 == |disk| || Peek(disk[j]) >= lsn)
    decreases |disk|
  {
    hide Peek, Picked, Shifted;
    if |disk| <= 1 {
      places := FewFiles(disk);
    } else {
      var rest := PruneExactly(disk[1..], lsn);
      PicksMore(disk, rest, PruneDisk(disk[1..], lsn));
      places := if Peek(disk[0]) >= lsn then [0] + Shifted(rest) else Shifted(rest);
      assert [] + PruneDisk(disk[1..], lsn) == PruneDisk(disk[1..], lsn);
    }
  }

  lemma FewFiles(disk: seq<seq<Byte>>) returns (places: seq<nat>)
    requires |disk| <= 1
    ensures Picked(disk, places, disk) && forall j: nat :: j in places <==> j < |disk|
  {
    places := if disk == [] then [] else [0];
  }

  /** Recovery above an LSN reads exactly the last file and the files whose peek is above it, in order. */
  lemma {:induction false} SkipExactly(disk: seq<seq<Byte>>, from: nat) returns (places: seq<nat>)
    requires from > 0
    ensures Picked(disk, places, SkipDisk(disk, from))
    ensures forall j: nat :: j in places <==> j < |disk| && (j + 1 == |disk| || Peek(disk[j]) > from)
    decreases |disk|
  {
    hide Peek, Picked, Shifted;
    if |disk| <= 1 {
      places := FewFiles(disk);
    } else {
      var rest := SkipExactly(disk[1..], from);
      PicksMore(disk, rest, SkipDisk(disk[1..], from));
      places := if Peek(disk[0]) > from then [0] + Shifted(rest) else Shifted(rest);
      assert [] + SkipDisk(disk[1..], from) == SkipDisk(disk[1..], from);
    }
  }

  /* ----- what AppendBatch refuses ----- */

  /** A record is encoded if and only if it has a type, its payload is shorter than 2^32 bytes and its
    * frame, 17 bytes longer, fits a segment; otherwise the first of these that fails is the error. */
  lemma RefusedExactly(item: Item, max: nat)
    ensures FitsFrame(item, max) <==> item.kind != 0 && |item.payload| < 4294967296 && |item.payload| + 17 <= max
    ensures !FitsFrame(item, max) ==>
              && (Refusal(item) == InvalidRecordType <==> item.kind == 0)
              && (Refusal(item) == PayloadTooLarge <==> item.kind != 0 && |item.payload| >= 4294967296)
              && (item.kind != 0 && |item.payload| < 4294967296 ==>
                    Refusal(item) == RecordTooLarge(|item.payload| + 17))
  {
  }
}
