/** Recovery above a snapshot, twice (internal/wal/recovery.go): the second one delivers the same
  * records exactly when the first one cut nothing, or no segment it read begins in the middle of
  * a batch above the snapshot that ends in it. */
module RecoveringAgain {
  import opened Core
  import opened Bytes
  import opened Frames
  import opened Recovery
  import opened Segments
  import opened Truncation
  import opened SegmentRecovery
  import opened Skipping
  import opened DeltaRecovery

  /* ----- the segments that are read ----- */

  /** From the first segment that is read. */
  function Remaining(parts: seq<seq<WalRecord>>, from: nat): seq<seq<WalRecord>> {
    if |parts| > 1 && LastOf(parts[0]) <= from then Remaining(parts[1..], from) else parts
  }

  predicate Beyond(rs: seq<WalRecord>, from: nat) {
    forall i | 0 <= i < |rs| :: rs[i].lsn > from
  }

  lemma {:induction false} AboveBeyond(rs: seq<WalRecord>, from: nat)
    requires Beyond(rs, from)
    ensures Above(rs, from) == rs
  {
    if rs != [] { AboveBeyond(rs[..|rs| - 1], from); }
  }

  lemma {:induction false} YieldBeyond(p: seq<WalRecord>, rs: seq<WalRecord>, from: nat)
    requires Beyond(p, from) && Beyond(rs, from)
    ensures Beyond(Yield(p, rs), from) && Beyond(Left(p, rs), from)
  {
    if rs != [] { YieldBeyond(p, rs[..|rs| - 1], from); }
  }

  lemma FirstBeyond(parts: seq<seq<WalRecord>>, from: nat)
    requires parts != [] && Beyond(Joined(parts), from)
    ensures Beyond(parts[0], from) && Beyond(Joined(parts[1..]), from)
    ensures parts[0] != [] ==> LastOf(parts[0]) > from
  {
    var part, rest := parts[0], parts[1..];
    assert forall i | 0 <= i < |part| :: part[i] == Joined(parts)[i];
    assert forall i | 0 <= i < |Joined(rest)| :: Joined(rest)[i] == Joined(parts)[|part| + i];
  }

  /** Above the snapshot, cutting what is read is cutting everything, and everything is read. */
  lemma {:induction false} AllBeyond(parts: seq<seq<WalRecord>>, from: nat, p: seq<WalRecord>)
    requires Beyond(Joined(parts), from)
    ensures CutParts(parts, from, p) == KeptParts(parts, p)
    ensures Joined(ReadParts(parts, from)) == Joined(parts)
    ensures Beyond(Joined(KeptParts(parts, p)), from)
    decreases |parts|
  {
    hide Left, Committed, Beyond, LastOf;
    if parts != [] {
      var part, rest := parts[0], parts[1..];
      FirstBeyond(parts, from);
      NothingCommittedIn(p);
      AllBeyond(rest, from, Left(p, part));
      JoinFirst(part[..Committed(p, part)], KeptParts(rest, Left(p, part)));
      BeyondJoin(part, Committed(p, part), Joined(KeptParts(rest, Left(p, part))), from);
      if |parts| > 1 { ReadFirst(parts, from); }
    }
  }

  lemma NothingCommittedIn(p: seq<WalRecord>)
    ensures Committed(p, []) == 0 && Left(p, []) == p && LastOf([]) == 0
  {
  }

  lemma JoinFirst(part: seq<WalRecord>, more: seq<seq<WalRecord>>)
    ensures Joined([part] + more) == part + Joined(more)
  {
    assert ([part] + more)[1..] == more;
  }

  lemma BeyondJoin(part: seq<WalRecord>, n: nat, more: seq<WalRecord>, from: nat)
    requires n <= |part| && Beyond(part, from) && Beyond(more, from)
    ensures Beyond(part[..n] + more, from)
  {
  }

  /** One step of the reading. */
  lemma ReadFirst(parts: seq<seq<WalRecord>>, from: nat)
    requires |parts| > 1
    ensures LastOf(parts[0]) <= from ==> ReadParts(parts, from) == ReadParts(parts[1..], from)
    ensures LastOf(parts[0]) > from ==> Joined(ReadParts(parts, from)) == parts[0] + Joined(ReadParts(parts[1..], from))
  {
    hide LastOf;
    var more := ReadParts(parts[1..], from);
    assert [] + more == more;
    JoinFirst(parts[0], more);
  }

  /** Where the first segment that is read lies, in a WAL that reaches beyond the snapshot. */
  lemma {:induction false} CutSplits(parts: seq<seq<WalRecord>>, from: nat, base: nat) returns (i: nat)
    requires Positioned(Joined(parts), base) && base <= from < base + |Joined(parts)| && parts != []
    ensures i < |parts| && Remaining(parts, from) == parts[i..]
    ensures CutParts(parts, from, []) == parts[..i] + KeptParts(parts[i..], [])
    ensures forall j | 0 <= j < i :: LastOf(parts[j]) <= from
    ensures Joined(parts) == Joined(parts[..i]) + Joined(parts[i..])
    ensures base + |Joined(parts[..i])| <= from < base + |Joined(parts[..i])| + |parts[i]|
    ensures Beyond(Joined(parts[i + 1..]), from)
    decreases |parts|
  {
    hide Committed, LastOf, Left, Joined, Positioned, CutParts, KeptParts, Beyond;
    var part, rest := parts[0], parts[1..];
    FirstPart(parts, base);
    if |parts| > 1 && LastOf(part) <= from {
      var i' := CutSplits(rest, from, base + |part|);
      i := i' + 1;
      Shifted(parts, i');
      JoinFirst(part, rest[..i']);
      CutSkips(parts, from);
      assert [part] + (rest[..i'] + KeptParts(rest[i'..], [])) == parts[..i] + KeptParts(parts[i..], []);
    } else {
      i := 0;
      assert parts[0..] == parts && parts[..0] == [] && parts[i + 1..] == rest;
      CutHere(parts, from, base);
    }
  }

  lemma Shifted(parts: seq<seq<WalRecord>>, i: nat)
    requires i < |parts| - 1
    ensures parts[i + 1..] == parts[1..][i..] && parts[i + 2..] == parts[1..][i + 1..]
    ensures parts[..i + 1] == [parts[0]] + parts[1..][..i] && parts[i + 1] == parts[1..][i]
    ensures forall j | 0 < j <= i :: parts[j] == parts[1..][j - 1]
  {
  }

  lemma CutSkips(parts: seq<seq<WalRecord>>, from: nat)
    requires |parts| > 1 && LastOf(parts[0]) <= from
    ensures CutParts(parts, from, []) == [parts[0]] + CutParts(parts[1..], from, [])
  {
  }

  /** The first segment is the first to be read. */
  lemma CutHere(parts: seq<seq<WalRecord>>, from: nat, base: nat)
    requires Positioned(Joined(parts), base) && base <= from < base + |Joined(parts)| && parts != []
    requires |parts| > 1 ==> LastOf(parts[0]) > from
    ensures CutParts(parts, from, []) == [] + KeptParts(parts, [])
    ensures Joined(parts) == Joined([]) + Joined(parts) && Joined([]) == []
    ensures from < base + |parts[0]| && Beyond(Joined(parts[1..]), from)
  {
    hide Committed, LastOf, Left;
    var part, rest := parts[0], parts[1..];
    FirstPart(parts, base);
    NothingCommittedIn([]);
    if |parts| == 1 { assert Joined(rest) == []; }
    assert Beyond(Joined(rest), from);
    AllBeyond(rest, from, Left([], part));
  }

  /** Segments at or below the snapshot in front of others are not read. */
  lemma {:induction false} ReadPast(front: seq<seq<WalRecord>>, more: seq<seq<WalRecord>>, from: nat)
    requires more != [] && forall j | 0 <= j < |front| :: LastOf(front[j]) <= from
    ensures ReadParts(front + more, from) == ReadParts(more, from)
  {
    hide LastOf;
    if front == [] {
      assert front + more == more;
    } else {
      assert (front + more)[0] == front[0] && (front + more)[1..] == front[1..] + more;
      ReadFirst(front + more, from);
      ReadPast(front[1..], more, from);
    }
  }

  /* ----- what they deliver ----- */

  /** Through the last accepted commit a run delivers everything it delivers, and nothing waits there. */
  lemma {:induction false} CommittedDelivers(rs: seq<WalRecord>)
    ensures var n := Committed([], rs);
            Yield([], rs[..n]) == Yield([], rs) && Left([], rs[..n]) == []
  {
    if rs != [] {
      var m, n := |rs| - 1, Committed([], rs);
      CommittedDelivers(rs[..m]);
      if n <= m { assert rs[..m][..n] == rs[..n]; } else { assert rs[..n] == rs; }
    }
  }

  lemma FreshYields(rs: seq<WalRecord>)
    ensures FeedAll(FRESH, rs).delivered == Yield([], rs)
  {
    hide FeedAll;
    FeedYields(FRESH, rs);
  }

  /** A segment that straddles the snapshot, cut, and segments beyond it: what is delivered above
    * the snapshot does not depend on whether the cut segment is read. */
  lemma ReadCut(kept: seq<WalRecord>, more: seq<seq<WalRecord>>, from: nat)
    requires Left([], kept) == [] && Beyond(Joined(more), from)
    requires forall i, j | 0 <= i < j < |kept| :: kept[i].lsn < kept[j].lsn
    ensures Above(Yield([], Joined(ReadParts([kept] + more, from))), from)
         == Above(Yield([], kept), from) + Yield([], Joined(more))
  {
    hide Yield, Left, Beyond;
    var parts := [kept] + more;
    assert parts[0] == kept && parts[1..] == more;
    AllBeyond(more, from, []);
    JoinFirst(kept, more);
    YieldAppend([], kept, Joined(more));
    AboveAppend(Yield([], kept), Yield([], Joined(more)), from);
    EmptyBeyond(from);
    YieldBeyond([], Joined(more), from);
    AboveBeyond(Yield([], Joined(more)), from);
    if more != [] {
      ReadFirst(parts, from);
      if LastOf(kept) <= from {
        BelowAll(kept, from);
        FreshYields(kept);
        assert [] + Yield([], Joined(more)) == Yield([], Joined(more));
      }
    }
  }

  lemma EmptyBeyond(from: nat)
    ensures Beyond([], from)
  {
  }

  /** The segments from the first that is read: what the two recoveries deliver above the snapshot.
    * The first segment is `below` and `above`, of which only `below` may begin inside a batch. */
  lemma RemainingAgain(below: seq<WalRecord>, above: seq<WalRecord>, rest: seq<seq<WalRecord>>, from: nat)
    requires Left([], below) == [] && Beyond(above, from) && Beyond(Joined(rest), from)
    requires AllAccepted([], above + Joined(rest)) && above != []
    requires forall i, j | 0 <= i < j < |below + above| :: (below + above)[i].lsn < (below + above)[j].lsn
    ensures var rem := [below + above] + rest;
            var once, again := Yield([], Joined(ReadParts(rem, from))),
              Yield([], Joined(ReadParts(KeptParts(rem, []), from)));
            Above(again, from) == Above(once, from) <==> Aligned(rem, [])
  {
    hide Yield, Left, Committed, AllAccepted, Beyond, Aligned, KeptParts, ReadParts;
    var first := below + above;
    var rem, p, n := [first] + rest, Left([], first), Committed([], first);
    YieldAppend([], below, above);
    AllAcceptedSplit([], above, Joined(rest));
    KeptAgain(rest, p);
    CommittedDelivers(first);
    EmptyBeyond(from);
    YieldBeyond([], above, from);
    YieldBeyond(p, Joined(rest), from);
    AboveBeyond(Yield(p, Joined(rest)), from);
    AllBeyond(rest, from, p);
    ReadCut(first[..n], KeptParts(rest, p), from);
    LastBeyond(below, above, from);
    ReadOnce(first, rest, from);
    AlignedFirst(first, rest);
  }

  lemma LastBeyond(below: seq<WalRecord>, above: seq<WalRecord>, from: nat)
    requires above != [] && Beyond(above, from)
    ensures LastOf(below + above) > from
  {
    assert (below + above)[|below + above| - 1] == above[|above| - 1];
  }

  lemma AlignedFirst(first: seq<WalRecord>, rest: seq<seq<WalRecord>>)
    ensures Aligned([first] + rest, []) == Aligned(rest, Left([], first))
    ensures KeptParts([first] + rest, []) == [first[..Committed([], first)]] + KeptParts(rest, Left([], first))
  {
    hide Left, Committed;
    assert ([first] + rest)[1..] == rest;
  }

  lemma ReadOnce(first: seq<WalRecord>, rest: seq<seq<WalRecord>>, from: nat)
    requires LastOf(first) > from && Beyond(Joined(rest), from) && Beyond(Yield(Left([], first), Joined(rest)), from)
    ensures Above(Yield([], Joined(ReadParts([first] + rest, from))), from)
         == Above(Yield([], first), from) + Yield(Left([], first), Joined(rest))
  {
    hide Yield, Left, Beyond;
    var parts := [first] + rest;
    assert parts[0] == first && parts[1..] == rest;
    JoinFirst(first, rest);
    AllBeyond(rest, from, []);
    if rest != [] { ReadFirst(parts, from); }
    YieldAppend([], first, Joined(rest));
    AboveAppend(Yield([], first), Yield(Left([], first), Joined(rest)), from);
    AboveBeyond(Yield(Left([], first), Joined(rest)), from);
  }

  /** On the first `p` records of a log, in any segments that reach beyond the snapshot. */
  lemma AgainExactly(batches: seq<Batch>, k: nat, seen: seq<seq<WalRecord>>, p: nat)
    requires AllLoggable(batches) && LastLSN(batches) < TWO_63 && 0 < k <= |batches| && seen != []
    requires LastLSN(batches[..k]) < p <= |Log(batches)| && Joined(seen) == Log(batches)[..p]
    ensures var from := LastLSN(batches[..k]);
            var once, again := ReadParts(seen, from), ReadParts(CutParts(seen, from, []), from);
            Above(Yield([], Joined(again)), from) == Above(Yield([], Joined(once)), from)
            <==> Aligned(Remaining(seen, from), [])
  {
    hide Log, LastLSN, Loggable, Joined, Aligned, AllAccepted, CutParts, KeptParts, Left, Yield, ReadParts, Above;
    var from, all := LastLSN(batches[..k]), Log(batches);
    LogPositions(batches);
    var i := CutSplits(seen, from, 0);
    var front, rem := seen[..i], seen[i..];
    assert front + rem == seen && rem == [rem[0]] + rem[1..] && rem[1..] == seen[i + 1..];
    KeptLength(rem, []);
    ReadPast(front, rem, from);
    ReadPast(front, KeptParts(rem, []), from);
    JoinFirst(rem[0], rem[1..]);
    var s, first := |Joined(front)|, rem[0];
    var below, above := first[..from - s], first[from - s..];
    assert all[..p] == Joined(front) + (first + Joined(rem[1..]));
    Straddles(all, p, s, from, first, Joined(rem[1..]));
    AcceptedAbove(batches, k, p);
    NoneWaiting(batches, k, s);
    RemainingAgain(below, above, rem[1..], from);
  }

  /** Where a segment's records lie in the log. */
  lemma Straddles(all: seq<WalRecord>, p: nat, s: nat, from: nat, first: seq<WalRecord>, more: seq<WalRecord>)
    requires s <= from < s + |first| <= p <= |all| && all[..p][s..] == first + more
    requires forall i | 0 <= i < |all| :: all[i].lsn == i + 1
    ensures first == first[..from - s] + first[from - s..]
    ensures first[..from - s] == all[s..from] && first[from - s..] + more == all[from..p]
    ensures Beyond(first[from - s..], from)
    ensures forall i, j | 0 <= i < j < |first| :: first[i].lsn < first[j].lsn
  {
    assert forall i | 0 <= i < |first| :: first[i] == all[s + i];
    assert all[..p][s..] == all[s..p] && all[s..p] == all[s..from] + all[from..p];
    var both := first + more;
    assert both[..from - s] == first[..from - s] && both[from - s..] == first[from - s..] + more;
  }

  /** Above a commit of a log every commit marker is accepted. */
  lemma AcceptedAbove(batches: seq<Batch>, k: nat, p: nat)
    requires AllLoggable(batches) && LastLSN(batches) < TWO_63 && k <= |batches|
    requires LastLSN(batches[..k]) <= p <= |Log(batches)|
    ensures AllAccepted([], Log(batches)[LastLSN(batches[..k])..p])
  {
    hide Log, LastLSN, Loggable, AllAccepted, Left;
    var from, all := LastLSN(batches[..k]), Log(batches);
    LSNsGrow(batches, k);
    LogPositions(batches[..k]);
    LogPrefix(batches, k);
    LogAccepted(batches);
    LogAccepted(batches[..k]);
    PrefixSplits(all, Log(batches[..k]), p);
    AllAcceptedSplit([], Log(batches[..k]), all[from..]);
    AllAcceptedSplit([], all[from..p], all[p..]);
  }

  lemma PrefixSplits(all: seq<WalRecord>, head: seq<WalRecord>, p: nat)
    requires head <= all && |head| <= p <= |all|
    ensures all == head + all[|head|..] && all[|head|..] == all[|head|..p] + all[p..]
  {
  }

  /** At a commit of the log nothing waits, wherever the reading began. */
  lemma NoneWaiting(batches: seq<Batch>, k: nat, s: nat)
    requires k <= |batches| && s <= LastLSN(batches[..k]) <= |Log(batches)|
    ensures Left([], Log(batches)[s..LastLSN(batches[..k])]) == []
  {
    hide Log, LastLSN, FeedAll;
    var from := LastLSN(batches[..k]);
    if s < from {
      EndsAtCommit(batches, k, s);
      FeedYields(FRESH, Log(batches)[s..from]);
    } else {
      assert Log(batches)[s..from] == [];
      YieldNothing([]);
    }
  }

  /* ----- on bytes ----- */

  /** Reading files above `from` is reading their records. */
  lemma AboveRead(crc: Checksum, parts: seq<seq<WalRecord>>, last: seq<WalRecord>, c: nat, from: nat)
    requires from > 0 && AllFramable(Joined(parts)) && AllFramable(last) && c <= |Written(crc, last)|
    requires forall i | 0 <= i < |parts| :: Walkable(parts[i]) && |Written(crc, parts[i])| <= PEEK_CHUNK
    ensures ReplayDisk(crc, SkipDisk(OnDisk(crc, parts) + [Written(crc, last)[..c]], from), FRESH).state.delivered
         == Yield([], Joined(ReadParts(parts + [last[..Whole(crc, last, c)]], from)))
  {
    hide Joined, Written, ReplayDisk, SkipDisk, OnDisk, FeedAll, Framable, Whole, Walkable, ReadParts, Yield;
    AboveReplay(crc, parts, last, c, from);
    FreshYields(Joined(ReadParts(parts + [last[..Whole(crc, last, c)]], from)));
  }

  /** A cut segment is the beginning of what it was. */
  lemma {:induction false} CutIsPrefix(parts: seq<seq<WalRecord>>, from: nat, p: seq<WalRecord>, i: nat)
    requires i < |parts|
    ensures CutParts(parts, from, p)[i] <= parts[i]
    decreases |parts|
  {
    hide Committed, Left;
    var part, rest := parts[0], parts[1..];
    var p' := if |parts| > 1 && LastOf(part) <= from then p else Left(p, part);
    if i > 0 {
      CutIsPrefix(rest, from, p', i - 1);
      assert CutParts(parts, from, p)[i] == CutParts(rest, from, p')[i - 1];
    }
  }

  /** Whole segments, each the beginning of a segment that could be peeked. */
  lemma ReadWhole(crc: Checksum, cut: seq<seq<WalRecord>>, parts: seq<seq<WalRecord>>, from: nat)
    requires from > 0 && AllFramable(Joined(cut)) && |cut| == |parts| + 1
    requires forall i | 0 <= i < |parts| :: cut[i] <= parts[i]
    requires forall i | 0 <= i < |parts| :: Walkable(parts[i]) && |Written(crc, parts[i])| <= PEEK_CHUNK
    ensures ReplayDisk(crc, SkipDisk(OnDisk(crc, cut), from), FRESH).state.delivered
         == Yield([], Joined(ReadParts(cut, from)))
  {
    hide Joined, Written, ReplayDisk, SkipDisk, OnDisk, FeedAll, Framable, Whole, Walkable, ReadParts, Yield;
    var n := |parts|;
    var front, last := cut[..n], cut[n];
    assert cut == front + [last];
    JoinedAppend(front, [last]);
    JoinedOne(last);
    OnDiskAppend(crc, front, last);
    FrontFramable(Joined(front), last);
    var c := |Written(crc, last)|;
    assert Written(crc, last)[..c] == Written(crc, last);
    WholeAll(crc, last);
    assert last[..|last|] == last;
    forall i | 0 <= i < |front|
      ensures Walkable(front[i]) && |Written(crc, front[i])| <= PEEK_CHUNK
    {
      PrefixWalkable(crc, front[i], parts[i]);
    }
    AboveRead(crc, front, last, c, from);
  }

  lemma FrontFramable(front: seq<WalRecord>, last: seq<WalRecord>)
    requires AllFramable(front + last)
    ensures AllFramable(front) && AllFramable(last)
  {
    hide Framable;
    assert forall i | 0 <= i < |front| :: front[i] == (front + last)[i];
    assert forall i | 0 <= i < |last| :: last[i] == (front + last)[|front| + i];
  }

  lemma PrefixWalkable(crc: Checksum, kept: seq<WalRecord>, part: seq<WalRecord>)
    requires kept <= part && Walkable(part)
    ensures Walkable(kept) && |Written(crc, kept)| <= |Written(crc, part)|
  {
    hide Written, Framable;
    assert kept == part[..|kept|] && part[..|part|] == part;
    WrittenPrefix(crc, part, |kept|, |part|);
  }

  /** Segments that end at or below the snapshot: only the last one is read. */
  lemma {:induction false} RemainingBelow(parts: seq<seq<WalRecord>>, from: nat)
    requires AtMost(Joined(parts), from)
    ensures Aligned(Remaining(parts, from), [])
    decreases |parts|
  {
    hide Left;
    if |parts| > 1 {
      var part, rest := parts[0], parts[1..];
      assert forall i | 0 <= i < |part| :: part[i] == Joined(parts)[i];
      assert forall i | 0 <= i < |Joined(rest)| :: Joined(rest)[i] == Joined(parts)[|part| + i];
      RemainingBelow(rest, from);
    }
  }

  /* ----- what is truncated ----- */

  /** Reading files above `from`, with what is left pending and whether a frame was torn. */
  lemma AboveReplay(crc: Checksum, parts: seq<seq<WalRecord>>, last: seq<WalRecord>, c: nat, from: nat)
    requires from > 0 && AllFramable(Joined(parts)) && AllFramable(last) && c <= |Written(crc, last)|
    requires forall i | 0 <= i < |parts| :: Walkable(parts[i]) && |Written(crc, parts[i])| <= PEEK_CHUNK
    ensures var m := Whole(crc, last, c);
            ReplayDisk(crc, SkipDisk(OnDisk(crc, parts) + [Written(crc, last)[..c]], from), FRESH)
            == Replayed(FeedAll(FRESH, Joined(ReadParts(parts + [last[..m]], from))), c != |Written(crc, last[..m])|)
  {
    hide Joined, Written, ReplayDisk, SkipDisk, OnDisk, FeedAll, Framable, Whole, Walkable, ReadParts;
    var m, tail := Whole(crc, last, c), Written(crc, last)[..c];
    SkipOnDisk(crc, parts, last[..m], tail, from);
    var read :| ReadParts(parts + [last[..m]], from) == read + [last[..m]]
             && SkipDisk(OnDisk(crc, parts) + [tail], from) == OnDisk(crc, read) + [tail];
    ReadFramable(parts, last[..m], read, from);
    ReplayCutDisk(crc, read, last, c, FRESH);
    JoinedAppend(read, [last[..m]]);
    JoinedOne(last[..m]);
  }

  lemma {:induction false} MinBeyond(rs: seq<WalRecord>, from: nat)
    requires Beyond(rs, from) && from < I64_MAX
    ensures MinLSN(rs) > from
  {
    if rs != [] { MinBeyond(rs[..|rs| - 1], from); }
  }

  lemma {:induction false} MinWithin(rs: seq<WalRecord>, from: nat)
    requires rs != [] && AtMost(rs, from)
    ensures MinLSN(rs) <= from
  {
    if |rs| > 1 { MinWithin(rs[..|rs| - 1], from); }
  }

  /** Segments at or below the snapshot: only the last one is read. */
  lemma {:induction false} ReadLast(parts: seq<seq<WalRecord>>, last: seq<WalRecord>, from: nat)
    requires AtMost(Joined(parts), from)
    ensures ReadParts(parts + [last], from) == [last]
    decreases |parts|
  {
    hide LastOf, Joined;
    if parts == [] {
      assert parts + [last] == [last];
    } else {
      var all := parts + [last];
      assert all[0] == parts[0] && all[1..] == parts[1..] + [last];
      FirstAtMost(parts, from);
      LastAtMost(parts[0], from);
      ReadPartsFirst(all, from);
      ReadLast(parts[1..], last, from);
      assert [] + [last] == [last];
    }
  }

  lemma LastAtMost(rs: seq<WalRecord>, from: nat)
    requires AtMost(rs, from)
    ensures LastOf(rs) <= from
  {
  }

  /** When recovery above a commit LSN truncates.  A WAL that reaches the LSN is truncated exactly when a
    * frame is torn or the last batch is not complete.  One that ends below it is truncated exactly when
    * a frame is torn and no record of the last segment waits for a commit: what the snapshot covers is
    * left alone. */
  lemma TruncatesExactly(crc: Checksum, batches: seq<Batch>, k: nat, parts: seq<seq<WalRecord>>, last: seq<WalRecord>,
                         c: nat)
    requires AllLoggable(batches) && LastLSN(batches) < I64_MAX && 0 < k <= |batches|
    requires Joined(parts) + last == Log(batches) && c <= |Written(crc, last)|
    requires forall i | 0 <= i < |parts| :: |Written(crc, parts[i])| <= PEEK_CHUNK
    ensures var from, m := LastLSN(batches[..k]), Whole(crc, last, c);
            var p, torn := |Joined(parts)| + m, c != |Written(crc, last[..m])|;
            Truncates(crc, OnDisk(crc, parts) + [Written(crc, last)[..c]], from) <==>
              if from <= p then torn || |Log(batches[..Complete(batches, p)])| < p
              else torn && Left([], last[..m]) == []
  {
    hide Log, LastLSN, Loggable, Joined, Written, ReplayDisk, SkipDisk, OnDisk, FeedAll, Whole, MinLSN, Complete,
      Framable, Walkable, ReadParts, Left;
    var from, m := LastLSN(batches[..k]), Whole(crc, last, c);
    var seen, p := parts + [last[..m]], |Joined(parts)| + m;
    PositiveCommit(batches, k);
    LSNsGrow(batches, k);
    SeenPrefix(crc, batches, parts, last, c);
    AboveReplay(crc, parts, last, c, from);
    var read := FeedAll(FRESH, Joined(ReadParts(seen, from)));
    FeedYields(FRESH, Joined(ReadParts(seen, from)));
    if from <= p {
      PendingAbove(batches, k, seen, p);
    } else {
      PendingBelow(batches, parts, last[..m], from, p);
    }
  }

  /** What waits when the WAL reaches the snapshot. */
  lemma PendingAbove(batches: seq<Batch>, k: nat, seen: seq<seq<WalRecord>>, p: nat)
    requires AllLoggable(batches) && LastLSN(batches) < I64_MAX && 0 < k <= |batches|
    requires LastLSN(batches[..k]) <= p <= |Log(batches)| && Joined(seen) == Log(batches)[..p]
    ensures var from := LastLSN(batches[..k]);
            var pending := FeedAll(FRESH, Joined(ReadParts(seen, from))).pending;
            (pending != [] <==> |Log(batches[..Complete(batches, p)])| < p) && MinLSN(pending) > from
  {
    hide Log, LastLSN, Loggable, Joined, FeedAll, MinLSN, Complete, ReadParts;
    var from := LastLSN(batches[..k]);
    LogPositions(batches);
    LSNsGrow(batches, k);
    var s := ReadIsSuffix(seen, from, 0);
    assert Log(batches)[..p][s..] == Log(batches)[s..p];
    TailAbove(batches, k, p, s);
    FeedPrefix(batches, p);
    CompleteAtLeast(batches, k, p);
    var done := Complete(batches, p);
    LogPositions(batches[..done]);
    LSNsGrow(batches[..done], k);
    assert batches[..done][..k] == batches[..k];
    var pending := Log(batches)[|Log(batches[..done])|..p];
    assert Beyond(pending, from);
    MinBeyond(pending, from);
  }

  /** What waits when it ends below. */
  lemma PendingBelow(batches: seq<Batch>, parts: seq<seq<WalRecord>>, last: seq<WalRecord>, from: nat, p: nat)
    requires p < from < I64_MAX && p <= |Log(batches)| && Joined(parts + [last]) == Log(batches)[..p]
    ensures var pending := FeedAll(FRESH, Joined(ReadParts(parts + [last], from))).pending;
            && pending == Left([], last) && (pending != [] ==> MinLSN(pending) <= from)
            && (pending == [] ==> MinLSN(pending) > from)
  {
    hide Log, Joined, FeedAll, MinLSN, ReadParts;
    LogPositions(batches);
    JoinedAppend(parts, [last]);
    JoinedOne(last);
    assert AtMost(Joined(parts) + last, from);
    SplitAtMost(Joined(parts), last, from);
    ReadLast(parts, last, from);
    FeedYields(FRESH, last);
    PendingAtMost(last, from);
    var pending := Left([], last);
    if pending != [] { MinWithin(pending, from); } else { MinBeyond(pending, from); }
  }

  lemma PendingAtMost(rs: seq<WalRecord>, from: nat)
    requires AtMost(rs, from)
    ensures AtMost(Left([], rs), from)
  {
    hide FeedAll;
    FeedAtMost(RState([], 0, []), rs, from);
  }

  /* ----- recovering again ----- */

  /** For every log, every commit LSN of it, every way it lies in segments small enough for an exact
    * peek and every cut of the last one: recovering again from that LSN delivers the same records
    * if and only if the first recovery truncates nothing or no segment from the first it read on
    * begins in mid-batch and holds a commit; straddling batches before that are harmless.  When no
    * segment does, and the WAL reaches the LSN, the files hold exactly the complete batches. */
  lemma RecoverAgain(crc: Checksum, batches: seq<Batch>, k: nat, parts: seq<seq<WalRecord>>, last: seq<WalRecord>,
                     c: nat)
    requires AllLoggable(batches) && LastLSN(batches) < TWO_63 && 0 < k <= |batches|
    requires Joined(parts) + last == Log(batches) && c <= |Written(crc, last)|
    requires forall i | 0 <= i < |parts| :: |Written(crc, parts[i])| <= PEEK_CHUNK
    ensures var from := LastLSN(batches[..k]);
            var disk, seen := OnDisk(crc, parts) + [Written(crc, last)[..c]], parts + [last[..Whole(crc, last, c)]];
            var after := DiskFrom(crc, disk, from);
            && (Above(ReplayDisk(crc, SkipDisk(after, from), FRESH).state.delivered, from)
                == Above(ReplayDisk(crc, SkipDisk(disk, from), FRESH).state.delivered, from)
                <==> (Truncates(crc, disk, from) ==> Aligned(Remaining(seen, from), [])))
            && (Truncates(crc, disk, from) && Aligned(seen, []) && from <= |Joined(seen)| ==>
                  && after == OnDisk(crc, KeptParts(seen, []))
                  && Joined(KeptParts(seen, [])) == Log(batches[..Complete(batches, |Joined(seen)|)]))
  {
    hide Log, LastLSN, Loggable, Joined, Written, ReplayDisk, SkipDisk, OnDisk, Above, Whole, Aligned, CutFrom,
      CutParts, KeptParts, MinLSN, Complete, Remaining, Framable, Walkable;
    var from, m := LastLSN(batches[..k]), Whole(crc, last, c);
    var disk, seen := OnDisk(crc, parts) + [Written(crc, last)[..c]], parts + [last[..m]];
    if Truncates(crc, disk, from) {
      var p := |Joined(parts)| + m;
      PositiveCommit(batches, k);
      SeenPrefix(crc, batches, parts, last, c);
      CutCutDisk(crc, parts, last, c, from, []);
      TruncatedAgain(crc, batches, k, parts, last, c);
      if Aligned(seen, []) && from <= p { CutReaches(batches, k, seen, p); }
    }
  }

  /** Reading the cut files and reading them again. */
  lemma TruncatedAgain(crc: Checksum, batches: seq<Batch>, k: nat, parts: seq<seq<WalRecord>>, last: seq<WalRecord>,
                       c: nat)
    requires AllLoggable(batches) && LastLSN(batches) < TWO_63 && 0 < k <= |batches|
    requires Joined(parts) + last == Log(batches) && c <= |Written(crc, last)|
    requires forall i | 0 <= i < |parts| :: |Written(crc, parts[i])| <= PEEK_CHUNK
    ensures var from := LastLSN(batches[..k]);
            var disk, seen := OnDisk(crc, parts) + [Written(crc, last)[..c]], parts + [last[..Whole(crc, last, c)]];
            Above(ReplayDisk(crc, SkipDisk(OnDisk(crc, CutParts(seen, from, [])), from), FRESH).state.delivered, from)
            == Above(ReplayDisk(crc, SkipDisk(disk, from), FRESH).state.delivered, from)
            <==> Aligned(Remaining(seen, from), [])
  {
    hide Log, LastLSN, Loggable, Joined, Written, ReplayDisk, SkipDisk, OnDisk, Above, Whole, Aligned, CutParts,
      Complete, Remaining, Framable, Walkable, ReadParts, Yield, Data;
    var from, m := LastLSN(batches[..k]), Whole(crc, last, c);
    var seen, p := parts + [last[..m]], |Joined(parts)| + m;
    PositiveCommit(batches, k);
    SeenPrefix(crc, batches, parts, last, c);
    if from < p {
      AboveRead(crc, parts, last, c, from);
      CutReads(crc, batches, parts, last[..m], from, p);
      AgainExactly(batches, k, seen, p);
    } else {
      RecoverAboveCommit(crc, batches, k, parts, last, c);
      CompleteDelivered(crc, batches, parts, last, c);
      AgainBelow(crc, batches, k, seen, p);
      LogPositions(batches);
      RemainingBelow(seen, from);
    }
  }

  lemma CutReads(crc: Checksum, batches: seq<Batch>, parts: seq<seq<WalRecord>>, end: seq<WalRecord>, from: nat, p: nat)
    requires AllLoggable(batches) && LastLSN(batches) < TWO_63 && from > 0
    requires p <= |Log(batches)| && Joined(parts + [end]) == Log(batches)[..p]
    requires forall i | 0 <= i < |parts| :: Walkable(parts[i]) && |Written(crc, parts[i])| <= PEEK_CHUNK
    ensures var cut := CutParts(parts + [end], from, []);
            ReplayDisk(crc, SkipDisk(OnDisk(crc, cut), from), FRESH).state.delivered
              == Yield([], Joined(ReadParts(cut, from)))
  {
    hide Log, LastLSN, Loggable, Joined, Written, ReplayDisk, SkipDisk, OnDisk, CutParts, Framable, Walkable, ReadParts,
      Yield;
    var seen := parts + [end];
    LogFramable(batches);
    LogPositions(batches);
    CutAtMost(seen, from, [], |Log(batches)|);
    forall i | 0 <= i < |parts|
      ensures CutParts(seen, from, [])[i] <= parts[i]
    {
      CutIsPrefix(seen, from, [], i);
    }
    ReadWhole(crc, CutParts(seen, from, []), parts, from);
  }

  /** Segments that reach the commit of `from`, aligned: the cut leaves the log of the complete batches. */
  lemma CutReaches(batches: seq<Batch>, k: nat, seen: seq<seq<WalRecord>>, p: nat)
    requires AllLoggable(batches) && LastLSN(batches) < TWO_63 && 0 < k <= |batches|
    requires p <= |Log(batches)| && Joined(seen) == Log(batches)[..p] && Aligned(seen, [])
    requires LastLSN(batches[..k]) <= p
    ensures var cut := CutParts(seen, LastLSN(batches[..k]), []);
            && cut == KeptParts(seen, []) && Joined(cut) == Log(batches[..Complete(batches, p)])
            && k <= Complete(batches, p)
  {
    hide Log, LastLSN, Loggable, Joined, Aligned, AllAccepted, Committed, Complete, CutParts, KeptParts, Left;
    var from, all := LastLSN(batches[..k]), Log(batches);
    LogPositions(batches);
    LogPositions(batches[..k]);
    LogPrefix(batches, k);
    CommittedOfLog(batches, p);
    assert all[..p][from - 1] == Log(batches[..k])[from - 1];
    CutIsKept(seen, from, [], 0);
    AlignedKept(seen);
    CompleteAtLeast(batches, k, p);
  }

  lemma {:induction false} CompleteAtLeast(batches: seq<Batch>, k: nat, p: nat)
    requires k <= |batches| && LastLSN(batches[..k]) <= p
    ensures k <= Complete(batches, p)
  {
    LogPositions(batches);
    if k == |batches| {
      assert batches[..k] == batches;
    } else {
      var n := |batches| - 1;
      assert batches[..n][..k] == batches[..k];
      CompleteAtLeast(batches[..n], k, p);
    }
  }

  /** Records at or below `from`, in any segments: nothing is delivered above it. */
  lemma BelowDeliversNone(crc: Checksum, parts: seq<seq<WalRecord>>, from: nat)
    requires AllFramable(Joined(parts)) && AtMost(Joined(parts), from)
    ensures Above(ReplayDisk(crc, SkipDisk(OnDisk(crc, parts), from), FRESH).state.delivered, from) == []
  {
    hide Joined, Written, ReplayDisk, SkipDisk, OnDisk, Above, FeedAll, Framable;
    var read := SkipKeepsSome(crc, parts, from);
    ReplayWhole(crc, read);
    BelowAll(Joined(read), from);
  }

  /** Whatever is skipped, what is read are some of the segments. */
  lemma {:induction false} SkipKeepsSome(crc: Checksum, parts: seq<seq<WalRecord>>, from: nat)
    returns (read: seq<seq<WalRecord>>)
    requires AllFramable(Joined(parts)) && AtMost(Joined(parts), from)
    ensures SkipDisk(OnDisk(crc, parts), from) == OnDisk(crc, read)
    ensures AllFramable(Joined(read)) && AtMost(Joined(read), from)
    decreases |parts|
  {
    hide Written, Peek, Framable, SkipDisk, Joined, OnDisk;
    var disk := OnDisk(crc, parts);
    if |parts| <= 1 || from == 0 {
      SkipNone(disk, from);
      read := parts;
    } else {
      var part := parts[0];
      FirstFramable(parts);
      FirstAtMost(parts, from);
      OnDiskRest(crc, parts);
      SkipFirst(disk, from);
      var more := SkipKeepsSome(crc, parts[1..], from);
      read := if Peek(disk[0]) <= from then more else [part] + more;
      assert [] + OnDisk(crc, more) == OnDisk(crc, more);
      OnDiskFirst(crc, part, more);
      JoinFirst(part, more);
      BothAtMost(part, Joined(more), from);
    }
  }

  lemma SkipNone(disk: seq<seq<Byte>>, from: nat)
    requires |disk| <= 1 || from == 0
    ensures SkipDisk(disk, from) == disk
  {
  }

  lemma OnDiskRest(crc: Checksum, parts: seq<seq<WalRecord>>)
    requires parts != []
    ensures OnDisk(crc, parts)[0] == Written(crc, parts[0]) && OnDisk(crc, parts)[1..] == OnDisk(crc, parts[1..])
  {
    hide Written;
  }

  lemma FirstAtMost(parts: seq<seq<WalRecord>>, from: nat)
    requires parts != [] && AtMost(Joined(parts), from)
    ensures AtMost(parts[0], from) && AtMost(Joined(parts[1..]), from)
  {
    hide Joined, AtMost;
    var part, rest := parts[0], parts[1..];
    assert parts == [part] + rest;
    JoinFirst(part, rest);
    SplitAtMost(part, Joined(rest), from);
  }

  lemma SplitAtMost(part: seq<WalRecord>, more: seq<WalRecord>, from: nat)
    requires AtMost(part + more, from)
    ensures AtMost(part, from) && AtMost(more, from)
  {
    assert forall i | 0 <= i < |part| :: part[i] == (part + more)[i];
    assert forall i | 0 <= i < |more| :: more[i] == (part + more)[|part| + i];
  }

  lemma PrefixAtMost(part: seq<WalRecord>, n: nat, from: nat)
    requires AtMost(part, from) && AllFramable(part) && n <= |part|
    ensures AtMost(part[..n], from) && AllFramable(part[..n]) && part[..|part|] == part
  {
    hide Framable;
  }

  lemma BothAtMost(part: seq<WalRecord>, more: seq<WalRecord>, from: nat)
    requires AtMost(part, from) && AtMost(more, from) && AllFramable(part) && AllFramable(more)
    ensures AtMost(part + more, from) && AllFramable(part + more)
  {
    hide Framable;
  }

  /** What is cut is taken from the records. */
  lemma {:induction false} CutAtMost(parts: seq<seq<WalRecord>>, from: nat, p: seq<WalRecord>, bound: nat)
    requires AllFramable(Joined(parts)) && AtMost(Joined(parts), bound)
    ensures AllFramable(Joined(CutParts(parts, from, p))) && AtMost(Joined(CutParts(parts, from, p)), bound)
    decreases |parts|
  {
    hide Framable, Committed, Left, Joined, AtMost, LastOf;
    if parts == [] {
      assert CutParts(parts, from, p) == parts;
    } else {
      var part, rest := parts[0], parts[1..];
      FirstFramable(parts);
      FirstAtMost(parts, bound);
      var skipped := |parts| > 1 && LastOf(part) <= from;
      var p', kept := if skipped then p else Left(p, part), if skipped then part else part[..Committed(p, part)];
      CutAtMost(rest, from, p', bound);
      assert CutParts(parts, from, p) == [kept] + CutParts(rest, from, p');
      JoinFirst(kept, CutParts(rest, from, p'));
      PrefixAtMost(part, |kept|, bound);
      BothAtMost(kept, Joined(CutParts(rest, from, p')), bound);
    }
  }

  lemma PositiveCommit(batches: seq<Batch>, k: nat)
    requires 0 < k <= |batches|
    ensures LastLSN(batches[..k]) > 0
  {
  }

  /** The records of cut segments are a prefix of the log, framable and walkable. */
  lemma SeenPrefix(crc: Checksum, batches: seq<Batch>, parts: seq<seq<WalRecord>>, last: seq<WalRecord>, c: nat)
    requires AllLoggable(batches) && LastLSN(batches) < TWO_63
    requires Joined(parts) + last == Log(batches) && c <= |Written(crc, last)|
    requires forall i | 0 <= i < |parts| :: |Written(crc, parts[i])| <= PEEK_CHUNK
    ensures var m := Whole(crc, last, c);
            var p := |Joined(parts)| + m;
            p <= |Log(batches)| && Joined(parts + [last[..m]]) == Log(batches)[..p]
    ensures AllFramable(Joined(parts)) && AllFramable(last)
    ensures forall i | 0 <= i < |parts| :: Walkable(parts[i])
  {
    hide Log, LastLSN, Loggable, Joined, Written, Framable, Whole, Walkable, Durable, Complete;
    SeenOfLog(crc, batches, parts, last, c);
    LogPositions(batches);
    assert forall i | 0 <= i < |Joined(parts)| :: Joined(parts)[i] == Log(batches)[i];
    PartsWalkable(crc, parts);
  }

  /** A full recovery delivers the batches that are complete in the whole frames. */
  lemma CompleteDelivered(crc: Checksum, batches: seq<Batch>, parts: seq<seq<WalRecord>>, last: seq<WalRecord>, c: nat)
    requires AllLoggable(batches) && LastLSN(batches) < TWO_63
    requires Joined(parts) + last == Log(batches) && c <= |Written(crc, last)|
    ensures var p := |Joined(parts)| + Whole(crc, last, c);
            var r := ReplayDisk(crc, OnDisk(crc, parts) + [Written(crc, last)[..c]], FRESH).state;
            p <= |Log(batches)| && r.delivered == Data(batches[..Complete(batches, p)])
  {
    hide Log, LastLSN, Loggable, Joined, Written, Framable, Whole, ReplayDisk, OnDisk, Data, FeedAll, Complete, Durable;
    SeenOfLog(crc, batches, parts, last, c);
    ReplayCutDisk(crc, parts, last, c, FRESH);
    FeedPrefix(batches, |Joined(parts)| + Whole(crc, last, c));
  }

  lemma AgainBelow(crc: Checksum, batches: seq<Batch>, k: nat, seen: seq<seq<WalRecord>>, p: nat)
    requires AllLoggable(batches) && LastLSN(batches) < TWO_63 && k <= |batches|
    requires p <= |Log(batches)| && Joined(seen) == Log(batches)[..p] && p <= LastLSN(batches[..k])
    ensures var from, cut := LastLSN(batches[..k]), CutParts(seen, LastLSN(batches[..k]), []);
            && Above(ReplayDisk(crc, SkipDisk(OnDisk(crc, cut), from), FRESH).state.delivered, from) == []
            && Above(Data(batches[..Complete(batches, p)]), from) == []
  {
    hide Log, LastLSN, Loggable, Joined, Written, ReplayDisk, SkipDisk, OnDisk, Data, Above, CutParts, Framable,
      Complete;
    var from := LastLSN(batches[..k]);
    LogFramable(batches);
    LogPositions(batches);
    CutAtMost(seen, from, [], from);
    BelowDeliversNone(crc, CutParts(seen, from, []), from);
    FeedPrefix(batches, p);
    LogPositions(batches[..Complete(batches, p)]);
    DataIncreases(batches[..Complete(batches, p)]);
    AboveNothing(Data(batches[..Complete(batches, p)]), from);
  }
}
