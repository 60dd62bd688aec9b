/** What recovery leaves on disk (internal/wal/recovery.go, recoverSegments): after a torn or
  * unfinished tail it cuts every segment back to its own last commit.  That is harmless exactly
  * when no delivered batch started in an earlier segment than its commit. */
module Truncation {
  import opened Core
  import opened Frames
  import opened Recovery
  import opened Segments

  /* ----- what a run of records delivers, given what is pending ----- */

  function Yield(pending: seq<WalRecord>, rs: seq<WalRecord>): seq<WalRecord> {
    FeedAll(RState(pending, 0, []), rs).delivered
  }

  function Left(pending: seq<WalRecord>, rs: seq<WalRecord>): seq<WalRecord> {
    FeedAll(RState(pending, 0, []), rs).pending
  }

  lemma {:induction false} FeedYields(st: RState, rs: seq<WalRecord>)
    ensures FeedAll(st, rs).delivered == st.delivered + Yield(st.pending, rs)
    ensures FeedAll(st, rs).pending == Left(st.pending, rs)
  {
    if rs == [] {
      assert st.delivered + [] == st.delivered;
    } else {
      FeedYields(st, rs[..|rs| - 1]);
    }
  }

  lemma YieldAppend(p: seq<WalRecord>, xs: seq<WalRecord>, ys: seq<WalRecord>)
    ensures Yield(p, xs + ys) == Yield(p, xs) + Yield(Left(p, xs), ys)
    ensures Left(p, xs + ys) == Left(Left(p, xs), ys)
  {
    hide FeedAll;
    FeedAppend(RState(p, 0, []), xs, ys);
    FeedYields(FeedAll(RState(p, 0, []), xs), ys);
  }

  lemma YieldNothing(p: seq<WalRecord>)
    ensures Yield(p, []) == [] && Left(p, []) == p
  {
  }

  lemma YieldData(p: seq<WalRecord>, rs: seq<WalRecord>)
    requires forall i | 0 <= i < |rs| :: rs[i].kind != BATCH_COMMIT
    ensures Yield(p, rs) == [] && Left(p, rs) == p + rs
  {
    FeedData(RState(p, 0, []), rs);
  }

  /** The commit marker `r` releases the pending records. */
  predicate Accepts(p: seq<WalRecord>, r: WalRecord) {
    r.kind == BATCH_COMMIT && |p| == Announced(r)
  }

  lemma YieldCommit(p: seq<WalRecord>, r: WalRecord)
    requires r.kind == BATCH_COMMIT
    ensures Left(p, [r]) == [] && Yield(p, [r]) == if Accepts(p, r) then p else []
  {
    FeedOne(RState(p, 0, []), r);
  }

  /** How many records there are through the last accepted commit; 0 when there is none. */
  function Committed(p: seq<WalRecord>, rs: seq<WalRecord>): (n: nat)
    ensures n <= |rs|
  {
    if rs == [] then 0
    else
      var n := |rs| - 1;
      if Accepts(Left(p, rs[..n]), rs[n]) then n + 1 else Committed(p, rs[..n])
  }

  /* ----- truncation on records ----- */

  /** Each segment's records through its own last commit. */
  function KeptParts(parts: seq<seq<WalRecord>>, p: seq<WalRecord>): seq<seq<WalRecord>> {
    if parts == [] then []
    else [parts[0][..Committed(p, parts[0])]] + KeptParts(parts[1..], Left(p, parts[0]))
  }

  lemma KeptLength(parts: seq<seq<WalRecord>>, p: seq<WalRecord>)
    ensures |KeptParts(parts, p)| == |parts|
    decreases |parts|
  {
    hide Left, Committed;
    if parts != [] { KeptLength(parts[1..], Left(p, parts[0])); }
  }

  /** Every commit marker on the way is accepted, as in a log that AppendBatch wrote. */
  predicate AllAccepted(p: seq<WalRecord>, rs: seq<WalRecord>) {
    forall i | 0 <= i < |rs| && rs[i].kind == BATCH_COMMIT :: Accepts(Left(p, rs[..i]), rs[i])
  }

  predicate HasCommit(rs: seq<WalRecord>) {
    exists i | 0 <= i < |rs| :: rs[i].kind == BATCH_COMMIT
  }

  /** No segment that holds a commit marker begins in the middle of a batch. */
  predicate Aligned(parts: seq<seq<WalRecord>>, p: seq<WalRecord>) {
    if parts == [] then true
    else (HasCommit(parts[0]) ==> p == []) && Aligned(parts[1..], Left(p, parts[0]))
  }

  lemma AllAcceptedSplit(p: seq<WalRecord>, xs: seq<WalRecord>, ys: seq<WalRecord>)
    requires AllAccepted(p, xs + ys)
    ensures AllAccepted(p, xs) && AllAccepted(Left(p, xs), ys)
  {
    hide Left, Accepts;
    var all := xs + ys;
    forall i | 0 <= i < |xs| && xs[i].kind == BATCH_COMMIT
      ensures Accepts(Left(p, xs[..i]), xs[i])
    {
      assert all[..i] == xs[..i] && all[i] == xs[i];
    }
    forall i | 0 <= i < |ys| && ys[i].kind == BATCH_COMMIT
      ensures Accepts(Left(Left(p, xs), ys[..i]), ys[i])
    {
      assert all[..|xs| + i] == xs + ys[..i] && all[|xs| + i] == ys[i];
      YieldAppend(p, xs, ys[..i]);
    }
  }

  /** After the last commit of an all-accepted run only data records follow. */
  lemma {:induction false} AfterCommitted(p: seq<WalRecord>, rs: seq<WalRecord>)
    requires AllAccepted(p, rs)
    ensures var n := Committed(p, rs);
            && (forall i | n <= i < |rs| :: rs[i].kind != BATCH_COMMIT)
            && (n > 0 ==> rs[n - 1].kind == BATCH_COMMIT)
  {
    hide Left;
    if rs != [] {
      var m := |rs| - 1;
      assert forall i | 0 <= i < m :: rs[..m][..i] == rs[..i];
      AfterCommitted(p, rs[..m]);
    }
  }

  /** An all-accepted run delivers what it delivers through its last commit, where nothing waits. */
  lemma CommittedYields(p: seq<WalRecord>, rs: seq<WalRecord>)
    requires AllAccepted(p, rs)
    ensures var n := Committed(p, rs);
            && (n > 0 <==> HasCommit(rs))
            && Yield(p, rs) == Yield(p, rs[..n])
            && (n > 0 ==> Left(p, rs[..n]) == [])
  {
    hide Yield, Left, Committed, Accepts;
    var n := Committed(p, rs);
    AfterCommitted(p, rs);
    assert rs == rs[..n] + rs[n..];
    YieldAppend(p, rs[..n], rs[n..]);
    YieldData(Left(p, rs[..n]), rs[n..]);
    assert Yield(p, rs[..n]) + [] == Yield(p, rs[..n]);
    if n > 0 {
      assert rs[..n] == rs[..n - 1] + [rs[n - 1]];
      YieldAppend(p, rs[..n - 1], [rs[n - 1]]);
      YieldCommit(Left(p, rs[..n - 1]), rs[n - 1]);
    }
  }

  /** One segment replayed again after truncation, from an empty pending list: the same records
    * when the segment began a batch; fewer when it holds a commit and began inside one. */
  lemma PartAgain(part: seq<WalRecord>, p: seq<WalRecord>)
    requires AllAccepted(p, part)
    ensures var kept := part[..Committed(p, part)];
            && Left([], kept) == []
            && (if HasCommit(part) && p != [] then |Yield([], kept)| < |Yield(p, part)|
                else Yield([], kept) == Yield(p, part))
  {
    hide Yield, Left, Committed, AllAccepted;
    CommittedYields(p, part);
    var n := Committed(p, part);
    if n == 0 {
      assert part[..0] == [];
      YieldNothing(p);
      YieldNothing([]);
    } else if p != [] {
      assert part == part[..n] + part[n..];
      AllAcceptedSplit(p, part[..n], part[n..]);
      LastIsCommit(p, part);
      StraddlerLost(part[..n], p);
    }
  }

  lemma LastIsCommit(p: seq<WalRecord>, rs: seq<WalRecord>)
    requires AllAccepted(p, rs) && Committed(p, rs) > 0
    ensures rs[Committed(p, rs) - 1].kind == BATCH_COMMIT
  {
    AfterCommitted(p, rs);
  }

  /** Data records, a commit marker, and the rest. */
  lemma YieldBatch(p: seq<WalRecord>, head: seq<WalRecord>, commit: WalRecord, rest: seq<WalRecord>)
    requires commit.kind == BATCH_COMMIT && forall i | 0 <= i < |head| :: head[i].kind != BATCH_COMMIT
    ensures Yield(p, head + ([commit] + rest)) == (if Accepts(p + head, commit) then p + head else []) + Yield([], rest)
    ensures Left(p, head + ([commit] + rest)) == Left([], rest)
  {
    hide Yield, Left;
    YieldData(p, head);
    YieldAppend(p, head, [commit] + rest);
    YieldAppend(p + head, [commit], rest);
    YieldCommit(p + head, commit);
  }

  lemma EndsInCommit(part: seq<WalRecord>, p: seq<WalRecord>)
    requires part != [] && part[|part| - 1].kind == BATCH_COMMIT
    ensures Left(p, part) == []
  {
  }

  /** A batch that began in an earlier segment is dropped: its commit finds too few records. */
  lemma StraddlerLost(kept: seq<WalRecord>, p: seq<WalRecord>)
    requires AllAccepted(p, kept) && p != [] && kept != [] && kept[|kept| - 1].kind == BATCH_COMMIT
    ensures Left([], kept) == [] && |Yield([], kept)| < |Yield(p, kept)|
  {
    hide Yield, Left, FirstCommit;
    EndsInCommit(kept, []);
    var f := FirstCommit(kept);
    YieldData(p, kept[..f]);
    assert Accepts(p + kept[..f], kept[f]);
    assert kept == kept[..f] + ([kept[f]] + kept[f + 1..]);
    YieldBatch(p, kept[..f], kept[f], kept[f + 1..]);
    YieldBatch([], kept[..f], kept[f], kept[f + 1..]);
  }

  /** The index of the first commit marker. */
  function FirstCommit(rs: seq<WalRecord>): (f: nat)
    requires HasCommit(rs)
    ensures f < |rs| && rs[f].kind == BATCH_COMMIT && forall i | 0 <= i < f :: rs[i].kind != BATCH_COMMIT
  {
    if rs[0].kind == BATCH_COMMIT then 0
    else
      assert HasCommit(rs[1..]) by {
        var i :| 0 <= i < |rs| && rs[i].kind == BATCH_COMMIT;
        assert rs[1..][i - 1].kind == BATCH_COMMIT;
      }
      var f := FirstCommit(rs[1..]);
      assert forall i | 0 < i < f + 1 :: rs[i] == rs[1..][i - 1];
      f + 1
  }

  /** Replaying the truncated segments delivers the same records exactly when they are aligned. */
  lemma {:induction false} KeptAgain(parts: seq<seq<WalRecord>>, p: seq<WalRecord>)
    requires AllAccepted(p, Joined(parts))
    ensures var kept := Joined(KeptParts(parts, p));
            && Left([], kept) == []
            && (if Aligned(parts, p) then Yield([], kept) == Yield(p, Joined(parts))
                else |Yield([], kept)| < |Yield(p, Joined(parts))|)
    decreases |parts|
  {
    hide Yield, Left, AllAccepted, Committed;
    if parts == [] {
      YieldNothing(p);
      YieldNothing([]);
    } else {
      var part, rest := parts[0], parts[1..];
      var kept := part[..Committed(p, part)];
      AllAcceptedSplit(p, part, Joined(rest));
      PartAgain(part, p);
      KeptAgain(rest, Left(p, part));
      YieldAppend(p, part, Joined(rest));
      assert KeptParts(parts, p)[1..] == KeptParts(rest, Left(p, part));
      YieldAppend([], kept, Joined(KeptParts(rest, Left(p, part))));
    }
  }

  /* ----- aligned segments keep the committed prefix ----- */

  /** The last accepted commit, found from its neighbourhood. */
  lemma {:induction false} CommittedIs(p: seq<WalRecord>, rs: seq<WalRecord>, n: nat)
    requires AllAccepted(p, rs) && n <= |rs|
    requires n > 0 ==> rs[n - 1].kind == BATCH_COMMIT
    requires forall i | n <= i < |rs| :: rs[i].kind != BATCH_COMMIT
    ensures Committed(p, rs) == n
  {
    AfterCommitted(p, rs);
  }

  /** Inside a batch, aligned segments hold no further commit, so all is cut. */
  lemma {:induction false} AlignedInside(parts: seq<seq<WalRecord>>, p: seq<WalRecord>)
    requires Aligned(parts, p) && p != [] && AllAccepted(p, Joined(parts))
    ensures Joined(KeptParts(parts, p)) == []
    ensures forall i | 0 <= i < |Joined(parts)| :: Joined(parts)[i].kind != BATCH_COMMIT
    decreases |parts|
  {
    hide Left, AllAccepted, Committed;
    if parts != [] {
      var part := parts[0];
      assert forall i | 0 <= i < |part| :: part[i].kind != BATCH_COMMIT;
      YieldData(p, part);
      AllAcceptedSplit(p, part, Joined(parts[1..]));
      CommittedIs(p, part, 0);
      AlignedInside(parts[1..], Left(p, part));
      assert KeptParts(parts, p)[1..] == KeptParts(parts[1..], Left(p, part));
    }
  }

  /** A first segment: after its last commit it leaves its data records waiting. */
  lemma FirstSegment(part: seq<WalRecord>)
    requires AllAccepted([], part)
    ensures var n := Committed([], part);
            && Left([], part) == part[n..]
            && (n > 0 ==> part[n - 1].kind == BATCH_COMMIT)
            && (forall i | n <= i < |part| :: part[i].kind != BATCH_COMMIT)
  {
    hide Left, Yield, AllAccepted, Committed;
    var n := Committed([], part);
    AfterCommitted([], part);
    CommittedYields([], part);
    assert part == part[..n] + part[n..];
    YieldAppend([], part[..n], part[n..]);
    YieldData([], part[n..]);
    if n == 0 {
      assert part[..n] == [];
      YieldNothing([]);
    }
    assert [] + part[n..] == part[n..];
  }

  /** Aligned segments are cut back to the records through the last commit of the whole run. */
  lemma {:induction false} AlignedKept(parts: seq<seq<WalRecord>>)
    requires Aligned(parts, []) && AllAccepted([], Joined(parts))
    ensures Joined(KeptParts(parts, [])) == Joined(parts)[..Committed([], Joined(parts))]
    decreases |parts|
  {
    hide Left, AllAccepted, Committed, HasCommit;
    if parts != [] {
      var part, rest := parts[0], parts[1..];
      var n, p := Committed([], part), Left([], part);
      AllAcceptedSplit([], part, Joined(rest));
      FirstSegment(part);
      assert KeptParts(parts, [])[1..] == KeptParts(rest, p);
      if n < |part| {
        AlignedInside(rest, p);
        KeptHere(part, Joined(rest), n);
      } else {
        AlignedKept(rest);
        KeptThere(part, Joined(rest));
      }
    }
  }

  lemma KeptHere(part: seq<WalRecord>, more: seq<WalRecord>, n: nat)
    requires AllAccepted([], part + more) && n <= |part| && (n > 0 ==> part[n - 1].kind == BATCH_COMMIT)
    requires forall i | n <= i < |part| :: part[i].kind != BATCH_COMMIT
    requires forall i | 0 <= i < |more| :: more[i].kind != BATCH_COMMIT
    ensures (part + more)[..Committed([], part + more)] == part[..n] + []
  {
    hide AllAccepted, Committed;
    CommittedIs([], part + more, n);
  }

  lemma KeptThere(part: seq<WalRecord>, more: seq<WalRecord>)
    requires AllAccepted([], part + more) && AllAccepted([], more)
    requires part != [] ==> part[|part| - 1].kind == BATCH_COMMIT
    ensures (part + more)[..Committed([], part + more)] == part[..|part|] + more[..Committed([], more)]
  {
    hide AllAccepted, Committed;
    var k := Committed([], more);
    AfterCommitted([], more);
    CommittedIs([], part + more, |part| + k);
  }

  /* ----- logs ----- */

  lemma AllAcceptedJoin(p: seq<WalRecord>, xs: seq<WalRecord>, ys: seq<WalRecord>)
    requires AllAccepted(p, xs) && AllAccepted(Left(p, xs), ys)
    ensures AllAccepted(p, xs + ys)
  {
    hide Left, Accepts;
    var all := xs + ys;
    forall i | 0 <= i < |all| && all[i].kind == BATCH_COMMIT
      ensures Accepts(Left(p, all[..i]), all[i])
    {
      if i < |xs| {
        assert all[..i] == xs[..i] && all[i] == xs[i];
      } else {
        assert all[..i] == xs + ys[..i - |xs|];
        YieldAppend(p, xs, ys[..i - |xs|]);
      }
    }
  }

  /** In a log every commit marker is accepted. */
  lemma {:induction false} LogAccepted(batches: seq<Batch>)
    requires AllLoggable(batches) && LastLSN(batches) < TWO_63
    ensures AllAccepted([], Log(batches)) && Left([], Log(batches)) == []
  {
    hide Left, AllAccepted, Loggable;
    if batches == [] {
      YieldNothing([]);
      NothingAccepted([]);
    } else {
      var n := |batches| - 1;
      LSNsGrow(batches, n);
      LogAccepted(batches[..n]);
      LoggedAccepted(batches[n], LastLSN(batches[..n]));
      AllAcceptedJoin([], Log(batches[..n]), Logged(batches[n], LastLSN(batches[..n])));
      YieldAppend([], Log(batches[..n]), Logged(batches[n], LastLSN(batches[..n])));
    }
  }

  lemma NothingAccepted(p: seq<WalRecord>)
    ensures AllAccepted(p, [])
  {
  }

  lemma LoggedAccepted(batch: Batch, lsn: nat)
    requires Loggable(batch) && lsn + |batch| + 1 < TWO_64
    ensures AllAccepted([], Logged(batch, lsn)) && Left([], Logged(batch, lsn)) == []
  {
    hide Left, AllAccepted, Announced, Commit;
    CommitAnnounces(lsn + |batch| + 1, |batch|);
    DataThenCommit(Numbered(batch, lsn), Commit(lsn + |batch| + 1, |batch|))
      by { CommitKind(lsn + |batch| + 1, |batch|); }
  }

  lemma DataThenCommit(data: seq<WalRecord>, commit: WalRecord)
    requires commit.kind == BATCH_COMMIT && Announced(commit) == |data|
    requires forall i | 0 <= i < |data| :: data[i].kind != BATCH_COMMIT
    ensures AllAccepted([], data + [commit]) && Left([], data + [commit]) == []
  {
    hide Left, Announced;
    var rs := data + [commit];
    assert rs[..|data|] == data;
    YieldData([], data);
    assert [] + data == data;
    YieldAppend([], data, [commit]);
    YieldCommit(data, commit);
  }

  /** In the first `p` records of a log, the last commit is that of the last complete batch. */
  lemma CommittedOfLog(batches: seq<Batch>, p: nat)
    requires AllLoggable(batches) && LastLSN(batches) < TWO_63 && p <= |Log(batches)|
    ensures AllAccepted([], Log(batches)[..p])
    ensures Log(batches)[..p][..Committed([], Log(batches)[..p])] == Log(batches[..Complete(batches, p)])
  {
    hide Left, Yield, AllAccepted, Committed, FeedAll, Loggable, Log;
    var rs, k := Log(batches)[..p], Complete(batches, p);
    LogAccepted(batches);
    assert Log(batches) == rs + Log(batches)[p..];
    AllAcceptedSplit([], rs, Log(batches)[p..]);
    FeedPrefix(batches, p);
    var q := |Log(batches[..k])|;
    assert rs[..q] == Log(batches[..k]);
    if k > 0 { LogEndsInCommit(batches[..k]); }
    WaitingIsData(rs, q, k, batches);
    CommittedIs([], rs, q);
  }

  lemma LogEndsInCommit(batches: seq<Batch>)
    requires batches != []
    ensures |Log(batches)| > 0 && Log(batches)[|Log(batches)| - 1].kind == BATCH_COMMIT
  {
  }

  /** What recovery holds back contains no commit marker. */
  lemma WaitingIsData(rs: seq<WalRecord>, q: nat, k: nat, batches: seq<Batch>)
    requires q <= |rs| && AllAccepted([], rs) && FeedAll(FRESH, rs).pending == rs[q..]
    ensures forall i | q <= i < |rs| :: rs[i].kind != BATCH_COMMIT
    ensures k == 0 && |Log(batches[..0])| == q ==> q == 0
  {
    hide Log, Feed;
    assert batches[..0] == [] && |Log([])| == 0 by { LogOfNothing(); }
    FeedYields(FRESH, rs);
    PendingIsData([], rs);
  }

  lemma LogOfNothing()
    ensures Log([]) == []
  {
  }

  lemma {:induction false} PendingIsData(p: seq<WalRecord>, rs: seq<WalRecord>)
    requires forall i | 0 <= i < |p| :: p[i].kind != BATCH_COMMIT
    ensures forall i | 0 <= i < |Left(p, rs)| :: Left(p, rs)[i].kind != BATCH_COMMIT
  {
    if rs != [] {
      var n := |rs| - 1;
      PendingIsData(p, rs[..n]);
      var waiting := Left(p, rs[..n]);
      assert Left(p, rs) == if rs[n].kind == BATCH_COMMIT then [] else waiting + [rs[n]];
    }
  }
}
