/** Recovery (internal/wal/recovery.go) and the stream reader (internal/wal/stream.go) on any files
  * whatever is in them. */
module AnyFiles {
  import opened Core
  import opened Bytes
  import opened Frames
  import opened Recovery
  import opened Segments
  import opened Truncation
  import opened SegmentRecovery
  import opened Skipping
  import opened DeltaRecovery
  import opened Streaming
  import opened WalLaws
  import opened Batching

  /* ----- recovery ----- */

  /** The files begin with the frames of `parts`, a file each.  Either that is all there is, or `rest`
    * follows in the last of these files, does not begin with a frame, and `more` files follow. */
  ghost predicate Lies(crc: Checksum, disk: seq<seq<Byte>>, parts: seq<seq<WalRecord>>, rest: seq<Byte>,
                       more: seq<seq<Byte>>)
  {
    && (forall i | 0 <= i < |parts| :: AllFramable(parts[i]))
    && if rest == [] then disk == OnDisk(crc, parts) && more == []
       else
         && parts != [] && !FrameAhead(crc, rest)
         && var n := |parts| - 1;
            disk == OnDisk(crc, parts[..n]) + [Written(crc, parts[n]) + rest] + more
  }

  /** Any files are like that. */
  lemma {:induction false} AnyDisk(crc: Checksum, disk: seq<seq<Byte>>)
    returns (parts: seq<seq<WalRecord>>, rest: seq<Byte>, more: seq<seq<Byte>>)
    ensures Lies(crc, disk, parts, rest, more)
    decreases |disk|
  {
    hide Written, FrameAhead, AllFramable;
    if disk == [] {
      parts, rest, more := [], [], [];
    } else {
      var rs, junk := AnyBytes(crc, disk[0]);
      if junk != [] {
        parts, rest, more := [rs], junk, disk[1..];
        assert disk == OnDisk(crc, []) + [disk[0]] + disk[1..];
        assert parts[..0] == [];
      } else {
        assert disk[0] == Written(crc, rs);
        var others: seq<seq<WalRecord>>;
        others, rest, more := AnyDisk(crc, disk[1..]);
        parts := [rs] + others;
        LiesFront(crc, disk, rs, others, rest, more);
      }
    }
  }

  lemma LiesFront(crc: Checksum, disk: seq<seq<Byte>>, rs: seq<WalRecord>, others: seq<seq<WalRecord>>, rest: seq<Byte>,
                  more: seq<seq<Byte>>)
    requires disk != [] && disk[0] == Written(crc, rs) && AllFramable(rs) && Lies(crc, disk[1..], others, rest, more)
    ensures Lies(crc, disk, [rs] + others, rest, more)
  {
    hide Written, FrameAhead, AllFramable;
    var parts := [rs] + others;
    assert disk == [disk[0]] + disk[1..];
    if rest == [] {
      assert disk == OnDisk(crc, parts);
    } else {
      var n := |others| - 1;
      assert parts[..n + 1] == [rs] + others[..n];
      assert OnDisk(crc, parts[..n + 1]) == [disk[0]] + OnDisk(crc, others[..n]);
    }
  }

  lemma LiesRest(crc: Checksum, disk: seq<seq<Byte>>, parts: seq<seq<WalRecord>>, rest: seq<Byte>, more: seq<seq<Byte>>)
    requires Lies(crc, disk, parts, rest, more) && parts != [] && (rest == [] || |parts| > 1)
    ensures disk != [] && disk[0] == Written(crc, parts[0]) && Lies(crc, disk[1..], parts[1..], rest, more)
  {
    hide Written, FrameAhead, AllFramable;
    if rest == [] {
      assert disk[1..] == OnDisk(crc, parts[1..]);
    } else {
      var n := |parts| - 1;
      assert parts[..n][1..] == parts[1..][..n - 1];
      assert OnDisk(crc, parts[..n])[1..] == OnDisk(crc, parts[1..][..n - 1]);
    }
  }

  lemma LiesLast(crc: Checksum, disk: seq<seq<Byte>>, parts: seq<seq<WalRecord>>, rest: seq<Byte>, more: seq<seq<Byte>>)
    requires Lies(crc, disk, parts, rest, more) && |parts| == 1 && rest != []
    ensures disk != [] && disk[0] == Written(crc, parts[0]) + rest && !FrameAhead(crc, rest)
  {
    hide Written, FrameAhead, AllFramable;
    assert parts[..0] == [] && OnDisk(crc, []) == [];
  }

  lemma JoinedFirst(parts: seq<seq<WalRecord>>)
    requires parts != []
    ensures Joined(parts) == parts[0] + Joined(parts[1..])
    ensures |parts| == 1 ==> Joined(parts) == parts[0]
  {
    if |parts| == 1 { assert Joined(parts[1..]) == []; }
  }

  /** Recovery reads exactly these frames and stops exactly at what is not one. */
  lemma {:induction false} Replays(crc: Checksum, disk: seq<seq<Byte>>, parts: seq<seq<WalRecord>>, rest: seq<Byte>,
                                   more: seq<seq<Byte>>, st: RState)
    requires Lies(crc, disk, parts, rest, more)
    ensures ReplayDisk(crc, disk, st) == Replayed(FeedAll(st, Joined(parts)), rest != [])
    decreases |parts|
  {
    hide Parse, Written, FeedAll, FrameAhead, Joined, Lies, AllFramable;
    if parts == [] {
      LiesNowhere(crc, disk, rest, more);
      FeedNothing(st);
    } else {
      var first := parts[0];
      LiesFramed(crc, disk, parts, rest, more);
      JoinedFirst(parts);
      if rest == [] || |parts| > 1 {
        LiesRest(crc, disk, parts, rest, more);
        ParseAll(crc, first);
        FeedAppend(st, first, Joined(parts[1..]));
        Replays(crc, disk[1..], parts[1..], rest, more, FeedAll(st, first));
      } else {
        LiesLast(crc, disk, parts, rest, more);
        ParseFinds(crc, first, rest);
      }
    }
  }

  lemma LiesNowhere(crc: Checksum, disk: seq<seq<Byte>>, rest: seq<Byte>, more: seq<seq<Byte>>)
    requires Lies(crc, disk, [], rest, more)
    ensures rest == [] && disk == [] && Joined([]) == []
  {
  }

  lemma LiesFramed(crc: Checksum, disk: seq<seq<Byte>>, parts: seq<seq<WalRecord>>, rest: seq<Byte>,
                   more: seq<seq<Byte>>)
    requires Lies(crc, disk, parts, rest, more) && parts != []
    ensures AllFramable(parts[0])
  {
    hide AllFramable;
  }

  /** When it truncates it leaves of each of these files the frames through the last batch it released
    * there, and of the files after a stop nothing. */
  lemma {:induction false} Keeps(crc: Checksum, disk: seq<seq<Byte>>, parts: seq<seq<WalRecord>>, rest: seq<Byte>,
                                 more: seq<seq<Byte>>, p: seq<WalRecord>)
    requires Lies(crc, disk, parts, rest, more)
    ensures Kept(crc, disk, p) == OnDisk(crc, KeptParts(parts, p))
    decreases |parts|
  {
    hide Parse, Written, FrameAhead, Lies, AllFramable, CommittedBytes, Committed, Left;
    if parts == [] {
      LiesNowhere(crc, disk, rest, more);
    } else {
      var first := parts[0];
      LiesFramed(crc, disk, parts, rest, more);
      if rest == [] || |parts| > 1 {
        LiesRest(crc, disk, parts, rest, more);
        ParseAll(crc, first);
        WholePrefix(crc, first, []);
        KeepPrefix(crc, first, p, disk[0]);
        Keeps(crc, disk[1..], parts[1..], rest, more, Left(p, first));
      } else {
        LiesLast(crc, disk, parts, rest, more);
        ParseFinds(crc, first, rest);
        WholePrefix(crc, first, rest);
        KeepPrefix(crc, first, p, disk[0]);
      }
    }
  }

  lemma WholePrefix(crc: Checksum, rs: seq<WalRecord>, rest: seq<Byte>)
    ensures Written(crc, rs)[..|Written(crc, rs)|] == Written(crc, rs)
    ensures (Written(crc, rs) + rest)[..|Written(crc, rs)|] == Written(crc, rs)
  {
    hide Written;
  }

  /** Recovery of any files: what it delivers is what the records before the damage release, and it
    * leaves the files alone exactly when there is no damage and nothing waits for a marker. */
  lemma RecoversAnyFiles(crc: Checksum, disk: seq<seq<Byte>>)
    returns (parts: seq<seq<WalRecord>>, rest: seq<Byte>, more: seq<seq<Byte>>)
    ensures Lies(crc, disk, parts, rest, more)
    ensures ReplayDisk(crc, disk, FRESH) == Replayed(FeedAll(FRESH, Joined(parts)), rest != [])
    ensures DiskAfter(crc, disk) == if rest == [] && Open(Joined(parts)) == |Joined(parts)| then disk
                                    else OnDisk(crc, KeptParts(parts, []))
  {
    hide Lies, ReplayDisk, FeedAll, Joined, Kept, KeptParts, Open, OnDisk;
    parts, rest, more := AnyDisk(crc, disk);
    Replays(crc, disk, parts, rest, more, FRESH);
    Keeps(crc, disk, parts, rest, more, []);
    var _ := DeliversExactly(Joined(parts));
  }

  /* ----- what is kept of a file ----- */

  /** The marker at `z` releases a batch. */
  ghost predicate Releasing(rs: seq<WalRecord>, z: nat) {
    exists a: nat :: Released(rs, a, z)
  }

  /** The last released batch among `rs`, which follow `xs`. */
  lemma {:induction false} CommittedExactly(xs: seq<WalRecord>, rs: seq<WalRecord>)
    ensures var c, all := Committed(Left([], xs), rs), xs + rs;
            && (c > 0 ==> Releasing(all, |xs| + c - 1))
            && forall z: nat | Releasing(all, z) && |xs| <= z :: z < |xs| + c
  {
    hide Left, Open, Releasing, Accepts;
    if rs == [] {
      assert xs + rs == xs;
      ReleasedInside(xs);
    } else {
      var n := |rs| - 1;
      var all, before := xs + rs, xs + rs[..n];
      assert all[..|all| - 1] == before && all[|all| - 1] == rs[n];
      CommittedExactly(xs, rs[..n]);
      YieldAppend([], xs, rs[..n]);
      ReleasingLast(all);
      ReleasedInside(all);
    }
  }

  lemma ReleasedInside(rs: seq<WalRecord>)
    ensures forall z: nat | Releasing(rs, z) :: z < |rs|
  {
  }

  lemma ReleasingLast(rs: seq<WalRecord>)
    requires rs != []
    ensures var n := |rs| - 1;
            && (Releasing(rs, n) <==> Accepts(Left([], rs[..n]), rs[n]))
            && forall z: nat | z < n :: Releasing(rs, z) <==> Releasing(rs[..n], z)
  {
    hide Released, Left, Accepts, Open;
    AcceptsOpen(rs);
    ReleasedLast(rs);
  }

  /** A marker is accepted exactly when it releases the records since the one before. */
  lemma AcceptsOpen(rs: seq<WalRecord>)
    requires rs != []
    ensures var n := |rs| - 1;
            Accepts(Left([], rs[..n]), rs[n]) <==> Released(rs, Open(rs[..n]), n)
  {
    hide Left, Open, Released, Announces, Announced;
    var n := |rs| - 1;
    LeftOpen(rs[..n]);
    OpenReleased(rs);
    AnnouncesIs(rs[n], n - Open(rs[..n]));
  }

  /** Of file `i` are kept the records through the last marker in it that releases a batch, and none
    * when there is no such marker. */
  lemma KeptExactly(parts: seq<seq<WalRecord>>, i: nat)
    requires i < |parts|
    ensures |KeptParts(parts, [])| == |parts|
    ensures var all, base, kept := Joined(parts), |Joined(parts[..i])|, KeptParts(parts, [])[i];
            && kept <= parts[i]
            && (kept != [] ==> Releasing(all, base + |kept| - 1))
            && forall z: nat | Releasing(all, z) && base <= z < base + |parts[i]| :: z < base + |kept|
  {
    hide KeptParts, Committed, Left, Releasing, Joined;
    var xs := Joined(parts[..i]);
    KeptLength(parts, []);
    KeptAt(parts, [], i);
    CommittedExactly(xs, parts[i]);
    JoinedAt(parts, i);
    ReleasingBefore(xs + parts[i], Joined(parts[i + 1..]));
  }

  lemma ReleasingBefore(xs: seq<WalRecord>, ys: seq<WalRecord>)
    ensures forall z: nat | z < |xs| :: Releasing(xs + ys, z) <==> Releasing(xs, z)
  {
    hide Released;
    assert (xs + ys)[..|xs|] == xs;
    forall a: nat, z: nat | z < |xs|
      ensures Released(xs + ys, a, z) <==> Released(xs, a, z)
    {
      ReleasedBefore(xs + ys, |xs|, a, z);
    }
  }

  lemma JoinedAt(parts: seq<seq<WalRecord>>, i: nat)
    requires i < |parts|
    ensures Joined(parts) == Joined(parts[..i]) + parts[i] + Joined(parts[i + 1..])
  {
    hide Joined;
    assert parts == parts[..i] + parts[i..] && parts[i..][0] == parts[i] && parts[i..][1..] == parts[i + 1..];
    JoinedAppend(parts[..i], parts[i..]);
    JoinedFirst(parts[i..]);
    Regroup(Joined(parts[..i]), parts[i], Joined(parts[i + 1..]));
  }

  lemma {:induction false} KeptAt(parts: seq<seq<WalRecord>>, p: seq<WalRecord>, i: nat)
    requires i < |parts| == |KeptParts(parts, p)|
    ensures KeptParts(parts, p)[i] == parts[i][..Committed(Left(p, Joined(parts[..i])), parts[i])]
    decreases i
  {
    hide Committed, Left;
    var first, rest := parts[0], parts[1..];
    if i == 0 {
      YieldNothing(p);
      assert parts[..0] == [];
    } else {
      KeptLength(rest, Left(p, first));
      KeptAt(rest, Left(p, first), i - 1);
      assert parts[..i][0] == first && parts[..i][1..] == rest[..i - 1];
      YieldAppend(p, first, Joined(rest[..i - 1]));
    }
  }

  /* ----- recovery above an LSN ----- */

  /** The files that are read: the last one and those whose peek is above the LSN; all of them for 0. */
  ghost predicate Chosen(disk: seq<seq<Byte>>, from: nat, places: seq<nat>) {
    && Picked(disk, places, SkipDisk(disk, from))
    && forall j: nat :: j in places <==> j < |disk| && (from == 0 || j + 1 == |disk| || Peek(disk[j]) > from)
  }

  /** Truncating above an LSN cuts the files that are read as truncating these files alone would, removes
    * all files after a stop, and leaves the others as they are. */
  ghost predicate Cuts(disk: seq<seq<Byte>>, places: seq<nat>, kept: seq<seq<Byte>>, cut: seq<seq<Byte>>) {
    && |kept| <= |places| && |cut| <= |disk|
    && (forall k | 0 <= k < |places| :: places[k] < |disk|)
    && |cut| == (if kept == [] then 0 else places[|kept| - 1] + 1)
    && (forall k | 0 <= k < |kept| :: places[k] < |cut| && cut[places[k]] == kept[k])
    && forall i: nat | i < |cut| && i !in places :: cut[i] == disk[i]
  }

  lemma ChosenStep(disk: seq<seq<Byte>>, from: nat, others: seq<nat>)
    requires disk != [] && Chosen(disk[1..], from, others)
    ensures Chosen(disk, from, if Skips(disk, from) then Shifted(others) else [0] + Shifted(others))
  {
    hide Peek, Picked, Shifted, SkipDisk;
    SkipFirst(disk, from);
    PicksMore(disk, others, SkipDisk(disk[1..], from));
    assert [] + SkipDisk(disk[1..], from) == SkipDisk(disk[1..], from);
    assert forall j: nat | 0 < j < |disk| :: disk[j] == disk[1..][j - 1];
  }

  lemma CutsSkipped(disk: seq<seq<Byte>>, others: seq<nat>, kept: seq<seq<Byte>>, cut: seq<seq<Byte>>)
    requires disk != [] && kept != [] && Cuts(disk[1..], others, kept, cut)
    ensures Cuts(disk, Shifted(others), kept, [disk[0]] + cut)
  {
    ShiftedHas(others);
    var all := [disk[0]] + cut;
    assert forall i | 0 < i < |all| :: all[i] == cut[i - 1];
  }

  lemma CutsRead(disk: seq<seq<Byte>>, others: seq<nat>, kept: seq<seq<Byte>>, cut: seq<seq<Byte>>, x: seq<Byte>)
    requires disk != [] && Cuts(disk[1..], others, kept, cut)
    ensures Cuts(disk, [0] + Shifted(others), [x] + kept, [x] + cut)
    ensures Cuts(disk, [0] + Shifted(others), [x], [x])
  {
    ShiftedHas(others);
    FrontHas(Shifted(others));
    var places, all := [0] + Shifted(others), [x] + cut;
    assert forall k | 0 < k < |places| :: places[k] == others[k - 1] + 1;
    assert forall i | 0 < i < |all| :: all[i] == cut[i - 1];
  }

  lemma NoFiles(crc: Checksum, from: nat, p: seq<WalRecord>)
    ensures Chosen([], from, []) && Cuts([], [], Kept(crc, SkipDisk([], from), p), CutFrom(crc, [], from, p))
  {
  }

  /** Something of what is read is kept, if only an empty file. */
  lemma SomeKept(crc: Checksum, disk: seq<seq<Byte>>, from: nat, p: seq<WalRecord>)
    requires disk != []
    ensures Kept(crc, SkipDisk(disk, from), p) != []
  {
    hide Peek, Parse, CommittedBytes, Left;
    if |disk| > 1 && from > 0 { SomeKept(crc, disk[1..], from, p); }
  }

  lemma KeptNext(crc: Checksum, data: seq<Byte>, more: seq<seq<Byte>>, p: seq<WalRecord>)
    ensures var found := Parse(crc, data);
            var n := CommittedBytes(crc, p, found.records);
            var cut := if n <= |data| then data[..n] else data;
            Kept(crc, [data] + more, p)
            == if found.clean then [cut] + Kept(crc, more, Left(p, found.records)) else [cut]
  {
    hide Parse, CommittedBytes, Left;
    assert ([data] + more)[1..] == more;
  }

  lemma {:induction false} CutsExactly(crc: Checksum, disk: seq<seq<Byte>>, from: nat, p: seq<WalRecord>)
    returns (places: seq<nat>)
    ensures Chosen(disk, from, places)
    ensures Cuts(disk, places, Kept(crc, SkipDisk(disk, from), p), CutFrom(crc, disk, from, p))
    decreases |disk|
  {
    hide Peek, Parse, CommittedBytes, Left, Shifted, Cuts, Chosen, SkipDisk, CutFrom, Kept, Skips;
    if disk == [] {
      places := [];
      NoFiles(crc, from, p);
    } else {
      var rest, found := disk[1..], Parse(crc, disk[0]);
      var n := CommittedBytes(crc, p, found.records);
      SkipFirst(disk, from);
      CutFirst(crc, disk, from, p);
      var q := if Skips(disk, from) then p else Left(p, found.records);
      var others := CutsExactly(crc, rest, from, q);
      var kept, cut := Kept(crc, SkipDisk(rest, from), q), CutFrom(crc, rest, from, q);
      ChosenStep(disk, from, others);
      SkipsIs(disk, from);
      if Skips(disk, from) {
        places := Shifted(others);
        assert [] + SkipDisk(rest, from) == SkipDisk(rest, from);
        SomeKept(crc, rest, from, p);
        CutsSkipped(disk, others, kept, cut);
      } else {
        places := [0] + Shifted(others);
        KeptNext(crc, disk[0], SkipDisk(rest, from), p);
        CutsRead(disk, others, kept, cut, if n <= |disk[0]| then disk[0][..n] else disk[0]);
      }
    }
  }

  lemma SkipsIs(disk: seq<seq<Byte>>, from: nat)
    requires disk != []
    ensures Skips(disk, from) <==> from > 0 && |disk| > 1 && Peek(disk[0]) <= from
  {
    hide Peek;
  }

  /* ----- the stream reader ----- */

  /** The data are the frames of `rs`, none with more than 1 MiB, and then something else. */
  ghost predicate Holds(crc: Checksum, data: seq<Byte>, rs: seq<WalRecord>, rest: seq<Byte>) {
    && AllFramable(rs) && (forall i | 0 <= i < |rs| :: |rs[i].payload| <= 1048576)
    && !SmallFrameAhead(crc, rest) && data == Written(crc, rs) + rest
  }

  /** Any data are like that. */
  lemma {:induction false} AnyData(crc: Checksum, data: seq<Byte>) returns (rs: seq<WalRecord>, rest: seq<Byte>)
    ensures Holds(crc, data, rs, rest)
    decreases |data|
  {
    hide Frame, Framable;
    if SmallFrameAhead(crc, data) {
      var r :| Framable(r) && |r.payload| <= 1048576 && Frame(crc, r) <= data;
      var n := |Frame(crc, r)|;
      var more: seq<WalRecord>;
      more, rest := AnyData(crc, data[n..]);
      rs := [r] + more;
      assert rs[1..] == more;
      assert data == data[..n] + data[n..];
      Regroup(Frame(crc, r), Written(crc, more), rest);
    } else {
      rs, rest := [], data;
      assert Written(crc, []) + data == data;
    }
  }

  /** The bytes of file `i` that are durable. */
  function Readable(d: Disk, i: nat): seq<Byte>
    requires Proper(d) && i < |d.files|
  {
    if i == |d.files| - 1 then d.files[i][..d.synced] else d.files[i]
  }

  /** What follows the frames of file `i` is an error; the last file may end inside a frame. */
  predicate Breaks(d: Disk, i: nat, rest: seq<Byte>) {
    rest != [] && (i + 1 != |d.files| || Ending(rest) != Short)
  }

  /** The files of a reader's list hold these frames; of deleted ones nothing is expected. */
  ghost predicate HoldsAll(crc: Checksum, d: Disk, todo: seq<nat>, parts: seq<seq<WalRecord>>, rests: seq<seq<Byte>>)
    requires Proper(d) && forall i | 0 <= i < |todo| :: todo[i] < |d.files|
  {
    && |parts| == |rests| == |todo|
    && forall k | 0 <= k < |todo| ::
         if todo[k] in d.gone then parts[k] == [] && rests[k] == []
         else Holds(crc, Readable(d, todo[k]), parts[k], rests[k])
  }

  /** Reading a list of files gives all their frames up to the first error, in order; file `q` is the
    * first with one, or there is none. */
  lemma {:induction false} ReadsExactly(crc: Checksum, d: Disk, todo: seq<nat>, parts: seq<seq<WalRecord>>,
                                        rests: seq<seq<Byte>>, q: nat)
    requires Proper(d) && (forall i | 0 <= i < |todo| :: todo[i] < |d.files|) && HoldsAll(crc, d, todo, parts, rests)
    requires q <= |todo| && (forall k | 0 <= k < q :: !Breaks(d, todo[k], rests[k]))
    requires q < |todo| ==> Breaks(d, todo[q], rests[q])
    ensures ReadAll(crc, d, todo)
         == if q < |todo| then Reading(Joined(parts[..q + 1]), true) else Reading(Joined(parts), false)
    decreases |todo|
  {
    hide Walked, Written, Holds, Joined;
    if todo == [] {
      assert parts == [];
      JoinedNone();
    } else {
      if q > 0 { ReadsExactly(crc, d, todo[1..], parts[1..], rests[1..], q - 1); }
      FirstFile(crc, d, todo, parts, rests);
      JoinedFirst(parts);
      JoinedFirst(parts[..1]);
      if 0 < q < |todo| {
        JoinedFirst(parts[..q + 1]);
        assert parts[..q + 1][1..] == parts[1..][..q];
      }
    }
  }

  lemma JoinedNone()
    ensures Joined([]) == []
  {
  }

  lemma FirstFile(crc: Checksum, d: Disk, todo: seq<nat>, parts: seq<seq<WalRecord>>, rests: seq<seq<Byte>>)
    requires Proper(d) && (forall i | 0 <= i < |todo| :: todo[i] < |d.files|) && HoldsAll(crc, d, todo, parts, rests)
    requires todo != []
    ensures todo[0] !in d.gone ==>
              ReadOne(crc, Durably(d, todo[0]), Live(d, todo[0])) == Reading(parts[0], Breaks(d, todo[0], rests[0]))
  {
    hide Walked, Written, SmallFrameAhead, AllFramable;
    if todo[0] !in d.gone { StreamFinds(crc, parts[0], rests[0]); }
  }
}
