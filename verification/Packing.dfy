/** How frames are packed into segments (internal/wal/wal.go, writeBuffered): each goes into the
  * open segment if it fits there and otherwise opens the next one. */
module Packing {
  import opened Bytes
  import opened Frames
  import opened Segments

  /** The files of a WAL: the closed segments and the one being written. */
  datatype Layout = Layout(closed: seq<seq<Byte>>, open: seq<Byte>)

  function Files(l: Layout): seq<seq<Byte>> { l.closed + [l.open] }

  function Flat(frames: seq<seq<Byte>>): seq<Byte> {
    if frames == [] then [] else Flat(frames[..|frames| - 1]) + frames[|frames| - 1]
  }

  /** One frame, which is not larger than a segment. */
  function Place(l: Layout, frame: seq<Byte>, max: nat): Layout {
    if |l.open| + |frame| <= max then l.(open := l.open + frame)
    else Layout(l.closed + [l.open], frame)
  }

  function PlaceAll(l: Layout, frames: seq<seq<Byte>>, max: nat): Layout {
    if frames == [] then l else Place(PlaceAll(l, frames[..|frames| - 1], max), frames[|frames| - 1], max)
  }

  /** A rotation, unless the open segment is still empty. */
  function Sealed(l: Layout): Layout {
    if l.open == [] then l else Layout(l.closed + [l.open], [])
  }

  /** How many frames come before the first one that no segment can hold. */
  function Fitting(frames: seq<seq<Byte>>, max: nat): (n: nat)
    ensures n <= |frames|
  {
    if frames == [] || |frames[0]| > max then 0 else 1 + Fitting(frames[1..], max)
  }

  lemma {:induction false} FittingIs(frames: seq<seq<Byte>>, max: nat, n: nat)
    requires n <= |frames| && forall i | 0 <= i < n :: |frames[i]| <= max
    requires n < |frames| ==> |frames[n]| > max
    ensures Fitting(frames, max) == n
    decreases n
  {
    if n > 0 { FittingIs(frames[1..], max, n - 1); }
  }

  predicate Fit(frames: seq<seq<Byte>>, max: nat) {
    forall i | 0 <= i < |frames| :: |frames[i]| <= max
  }

  predicate Bounded(l: Layout, max: nat) {
    forall i | 0 <= i < |Files(l)| :: |Files(l)[i]| <= max
  }

  lemma {:induction false} FlatAppend(xs: seq<seq<Byte>>, ys: seq<seq<Byte>>)
    ensures Flat(xs + ys) == Flat(xs) + Flat(ys)
  {
    if ys == [] {
      assert xs + ys == xs;
    } else {
      var n := |ys| - 1;
      assert (xs + ys)[..|xs| + n] == xs + ys[..n];
      FlatAppend(xs, ys[..n]);
    }
  }

  lemma FlatOne(frame: seq<Byte>)
    ensures Flat([frame]) == frame
  {
    assert [frame][..0] == [] && Flat([]) == [];
  }

  /** Packing appends exactly the frames to the concatenated segments, touches no closed segment
    * and only extends the open one, and keeps every segment within the maximum. */
  lemma {:induction false} PackingAppends(l: Layout, frames: seq<seq<Byte>>, max: nat)
    requires Fit(frames, max)
    ensures var l' := PlaceAll(l, frames, max);
            && Flat(Files(l')) == Flat(Files(l)) + Flat(frames)
            && l.closed <= l'.closed && l.open <= Files(l')[|l.closed|]
            && (Bounded(l, max) ==> Bounded(l', max))
  {
    hide Bounded, Place;
    if frames != [] {
      var n := |frames| - 1;
      var before := PlaceAll(l, frames[..n], max);
      PackingAppends(l, frames[..n], max);
      PlaceAppends(before, frames[n], max);
      assert Files(before)[|l.closed|] <= Files(Place(before, frames[n], max))[|l.closed|];
    }
  }

  lemma PlaceAppends(l: Layout, frame: seq<Byte>, max: nat)
    requires |frame| <= max
    ensures var l' := Place(l, frame, max);
            && Flat(Files(l')) == Flat(Files(l)) + frame
            && l.closed <= l'.closed && |Files(l)| <= |Files(l')|
            && (forall i | 0 <= i < |Files(l)| :: Files(l)[i] <= Files(l')[i])
            && (Bounded(l, max) ==> Bounded(l', max))
  {
    PlaceFlat(l, frame, max);
    if Bounded(l, max) { PlaceBounded(l, frame, max); }
    hide Flat, Bounded;
  }

  lemma PlaceFlat(l: Layout, frame: seq<Byte>, max: nat)
    ensures Flat(Files(Place(l, frame, max))) == Flat(Files(l)) + frame
  {
    hide Flat;
    var l' := Place(l, frame, max);
    FlatAppend(l.closed, [l.open]);
    FlatAppend(l'.closed, [l'.open]);
    FlatOne(l.open);
    FlatOne(l'.open);
    if |l.open| + |frame| <= max {
      assert Flat(l.closed) + (l.open + frame) == Flat(l.closed) + l.open + frame;
    }
  }

  lemma PlaceBounded(l: Layout, frame: seq<Byte>, max: nat)
    requires |frame| <= max && Bounded(l, max)
    ensures Bounded(Place(l, frame, max), max)
  {
    var l' := Place(l, frame, max);
    assert l.open == Files(l)[|l.closed|];
    forall i | 0 <= i < |Files(l')|
      ensures |Files(l')[i]| <= max
    {
      if i < |l.closed| { assert Files(l')[i] == Files(l)[i]; }
    }
  }

  /** Frame `k` did not fit file `i` any more and begins the next one. */
  predicate Overflows(l: Layout, l': Layout, frames: seq<seq<Byte>>, max: nat, i: nat, k: nat) {
    && k < |frames| && i < |l'.closed|
    && |Files(l')[i]| + |frames[k]| > max && frames[k] <= Files(l')[i + 1]
    && Flat(Files(l')[..i + 1]) == Flat(Files(l)) + Flat(frames[..k])
  }

  /** A segment is closed only when the next frame does not fit any more. */
  lemma {:induction false} PacksTightly(l: Layout, frames: seq<seq<Byte>>, max: nat, i: nat) returns (k: nat)
    requires Fit(frames, max) && |l.closed| <= i < |PlaceAll(l, frames, max).closed|
    ensures Overflows(l, PlaceAll(l, frames, max), frames, max, i, k)
  {
    hide Flat, Place;
    k := 0;
    if frames != [] {
      var n := |frames| - 1;
      var before, after := PlaceAll(l, frames[..n], max), PlaceAll(l, frames, max);
      PlaceCloses(before, frames[n], max);
      if i < |before.closed| {
        k := PacksTightly(l, frames[..n], max, i);
        assert Files(after)[..i + 1] == Files(before)[..i + 1] && frames[..n][..k] == frames[..k];
      } else {
        k := n;
        PackingAppends(l, frames[..n], max);
        assert Files(after)[..i + 1] == Files(before);
      }
    }
  }

  lemma PlaceCloses(l: Layout, frame: seq<Byte>, max: nat)
    ensures var l' := Place(l, frame, max);
            && l.closed <= l'.closed && Files(l)[|l.closed|] <= Files(l')[|l.closed|]
            && if |l.open| + |frame| <= max then |l'.closed| == |l.closed|
               else l'.closed == Files(l) && Files(l')[|l.closed| + 1] == frame
  {
  }

  /* ----- packing records ----- */

  function FramesOf(crc: Checksum, rs: seq<WalRecord>): (fs: seq<seq<Byte>>)
    ensures |fs| == |rs|
  {
    seq(|rs|, i requires 0 <= i < |rs| => Frame(crc, rs[i]))
  }

  lemma FramesPrefix(crc: Checksum, rs: seq<WalRecord>, p: nat)
    requires p <= |rs|
    ensures FramesOf(crc, rs)[..p] == FramesOf(crc, rs[..p])
  {
    hide Frame;
  }

  lemma {:induction false} FlatFrames(crc: Checksum, rs: seq<WalRecord>)
    ensures Flat(FramesOf(crc, rs)) == Written(crc, rs)
  {
    hide Frame;
    if rs != [] {
      var n := |rs| - 1;
      FlatFrames(crc, rs[..n]);
      assert FramesOf(crc, rs)[..n] == FramesOf(crc, rs[..n]);
      assert rs == rs[..n] + [rs[n]];
      WrittenAppend(crc, rs[..n], [rs[n]]);
      WrittenOne(crc, rs[n]);
    }
  }

  lemma WrittenOne(crc: Checksum, r: WalRecord)
    ensures Written(crc, [r]) == Frame(crc, r)
  {
    assert [r][1..] == [] && Written(crc, []) == [];
  }

  /** The segments hold these records, each frame whole inside one segment. */
  predicate Holding(crc: Checksum, l: Layout, parts: seq<seq<WalRecord>>, last: seq<WalRecord>) {
    l.closed == OnDisk(crc, parts) && l.open == Written(crc, last)
  }

  ghost predicate Stores(crc: Checksum, l: Layout, rs: seq<WalRecord>) {
    exists parts, last :: Holding(crc, l, parts, last) && Joined(parts) + last == rs
  }

  /** Cuts fall only at frame ends: packing the frames of records leaves segments that hold the
    * had records and then the new ones. */
  lemma {:induction false} PackingKeepsFrames(crc: Checksum, l: Layout, had: seq<WalRecord>, rs: seq<WalRecord>,
                                              max: nat)
    requires Stores(crc, l, had)
    ensures Stores(crc, PlaceAll(l, FramesOf(crc, rs), max), had + rs)
    decreases |rs|
  {
    hide Frame, Written, Joined;
    if rs == [] {
      assert had + rs == had;
    } else {
      var n := |rs| - 1;
      PackingKeepsFrames(crc, l, had, rs[..n], max);
      assert FramesOf(crc, rs)[..n] == FramesOf(crc, rs[..n]);
      PlaceKeepsFrames(crc, PlaceAll(l, FramesOf(crc, rs[..n]), max), had + rs[..n], rs[n], max);
      assert had + rs == had + rs[..n] + [rs[n]];
    }
  }

  lemma PlaceKeepsFrames(crc: Checksum, l: Layout, had: seq<WalRecord>, r: WalRecord, max: nat)
    requires Stores(crc, l, had)
    ensures Stores(crc, Place(l, Frame(crc, r), max), had + [r])
  {
    hide Frame, Written, Joined;
    var parts, last :| Holding(crc, l, parts, last) && Joined(parts) + last == had;
    var l' := Place(l, Frame(crc, r), max);
    WrittenOne(crc, r);
    if |l.open| + |Frame(crc, r)| <= max {
      WrittenAppend(crc, last, [r]);
      assert Holding(crc, l', parts, last + [r]);
      assert Joined(parts) + (last + [r]) == had + [r];
    } else {
      JoinedAppend(parts, [last]);
      JoinedOne(last);
      assert OnDisk(crc, parts + [last]) == OnDisk(crc, parts) + [Written(crc, last)];
      assert Holding(crc, l', parts + [last], [r]);
    }
  }
}
