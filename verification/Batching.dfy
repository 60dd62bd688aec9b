/** Which records recovery (internal/wal/recovery.go) and the stream reader (internal/wal/stream.go)
  * release, of any records in any order. */
module Batching {
  import opened Core
  import opened Bytes
  import opened Frames
  import opened Recovery
  import opened Truncation
  import opened Streaming
  import opened Streams

  /** The records from `a` on, up to the commit marker at `z`: they start after a marker or at the
    * beginning and have no marker among them, and the marker's payload has their number at byte 8, or is too
    * short for one and there are none. */
  predicate Released(rs: seq<WalRecord>, a: nat, z: nat) {
    && a <= z < |rs| && (a == 0 || rs[a - 1].kind == 4) && rs[z].kind == 4
    && (forall k | a <= k < z :: rs[k].kind != 4)
    && Announces(rs[z], z - a)
  }

  predicate Announces(r: WalRecord, count: nat) {
    if |r.payload| >= 12 then Get(r.payload[8..12]) == count else count == 0
  }

  /** The place after the last commit marker. */
  function Open(rs: seq<WalRecord>): (a: nat)
    ensures a <= |rs| && (a == 0 || rs[a - 1].kind == 4) && forall k | a <= k < |rs| :: rs[k].kind != 4
  {
    if rs == [] || rs[|rs| - 1].kind == 4 then |rs| else Open(rs[..|rs| - 1])
  }

  lemma MorePicked<T>(xs: seq<T>, n: nat, places: seq<nat>, out: seq<T>, a: nat, b: nat)
    requires n <= |xs| && Picked(xs[..n], places, out) && a <= b <= |xs|
    requires forall k | 0 <= k < |places| :: places[k] < a
    ensures Picked(xs, places + Since(a, b), out + xs[a..b])
  {
    var all, more := places + Since(a, b), out + xs[a..b];
    assert forall k | 0 <= k < |all| :: all[k] == if k < |places| then places[k] else a + (k - |places|);
    assert forall k | 0 <= k < |more| :: more[k] == xs[all[k]];
  }

  lemma SinceHas(a: nat, b: nat)
    requires a <= b
    ensures forall j: nat :: j in Since(a, b) <==> a <= j < b
  {
    forall j: nat | a <= j < b
      ensures j in Since(a, b)
    {
      assert Since(a, b)[j - a] == j;
    }
  }

  /** The places of the released records, with or without the markers. */
  ghost function Places(rs: seq<WalRecord>, markers: bool): seq<nat> {
    if rs == [] then []
    else
      var n := |rs| - 1;
      var open := Open(rs[..n]);
      Places(rs[..n], markers) + if Released(rs, open, n) then Since(open, if markers then n + 1 else n) else []
  }

  lemma {:induction false} PlacesExactly(rs: seq<WalRecord>, markers: bool)
    ensures forall j: nat :: j in Places(rs, markers) <==>
              exists a: nat, z: nat :: Released(rs, a, z) && a <= j && (j < z || (markers && j == z))
    ensures forall k | 0 <= k < |Places(rs, markers)| :: Places(rs, markers)[k] < Open(rs)
  {
    hide Open, Released;
    if rs == [] {
      NoneReleased(rs);
    } else {
      var n := |rs| - 1;
      var open := Open(rs[..n]);
      var b := if markers then n + 1 else n;
      PlacesExactly(rs[..n], markers);
      ReleasedLast(rs);
      OpenLast(rs);
      SinceHas(open, b);
      forall j: nat
        ensures j in Places(rs, markers) <==>
                  exists a: nat, z: nat :: Released(rs, a, z) && a <= j && (j < z || (markers && j == z))
      {
        if j in Places(rs[..n], markers) {
          var a: nat, z: nat :| Released(rs[..n], a, z) && a <= j && (j < z || (markers && j == z));
          assert Released(rs, a, z);
        }
      }
    }
  }

  lemma NoneReleased(rs: seq<WalRecord>)
    requires rs == []
    ensures forall a: nat, z: nat :: !Released(rs, a, z)
  {
  }

  lemma OpenLast(rs: seq<WalRecord>)
    requires rs != []
    ensures Open(rs) == if rs[|rs| - 1].kind == 4 then |rs| else Open(rs[..|rs| - 1])
  {
  }

  lemma OnlyOpen(rs: seq<WalRecord>, a: nat)
    requires rs != [] && Released(rs, a, |rs| - 1)
    ensures a == Open(rs[..|rs| - 1]) && rs[|rs| - 1].kind == 4
  {
    hide Announces;
    var before := rs[..|rs| - 1];
    var open := Open(before);
    assert open > 0 ==> before[open - 1] == rs[open - 1];
    assert a > 0 ==> before[a - 1] == rs[a - 1];
  }

  lemma ReleasedBefore(rs: seq<WalRecord>, n: nat, a: nat, z: nat)
    requires n <= |rs| && z < n
    ensures Released(rs, a, z) <==> Released(rs[..n], a, z)
  {
    hide Announces;
    assert rs[..n][z] == rs[z];
    assert 0 < a <= z ==> rs[..n][a - 1] == rs[a - 1];
    assert forall k | a <= k < z :: rs[..n][k] == rs[k];
  }

  lemma ReleasedLast(rs: seq<WalRecord>)
    requires rs != []
    ensures var n := |rs| - 1;
            && (forall a: nat, z: nat | Released(rs, a, z) ::
                  if z == n then a == Open(rs[..n]) && rs[n].kind == 4 else Released(rs[..n], a, z))
            && forall a: nat, z: nat | Released(rs[..n], a, z) :: Released(rs, a, z) && z < n
  {
    hide Open, Announces;
    var n := |rs| - 1;
    forall a: nat, z: nat | Released(rs, a, z)
      ensures if z == n then a == Open(rs[..n]) && rs[n].kind == 4 else Released(rs[..n], a, z)
    {
      if z == n { OnlyOpen(rs, a); } else { ReleasedBefore(rs, n, a, z); }
    }
    forall a: nat, z: nat | Released(rs[..n], a, z)
      ensures Released(rs, a, z) && z < n
    {
      ReleasedBefore(rs, n, a, z);
    }
  }

  /** One more record. */
  lemma PicksNext(rs: seq<WalRecord>, markers: bool, out: seq<WalRecord>)
    requires rs != [] && Picked(rs[..|rs| - 1], Places(rs[..|rs| - 1], markers), out)
    ensures var n := |rs| - 1;
            var open := Open(rs[..n]);
            Picked(rs, Places(rs, markers),
                   out + if Released(rs, open, n) then rs[open..if markers then n + 1 else n] else [])
  {
    hide Open, Released, Picked;
    var n := |rs| - 1;
    var open := Open(rs[..n]);
    PlacesExactly(rs[..n], markers);
    MorePicked(rs, n, Places(rs[..n], markers), out, open, if markers then n + 1 else n);
    MorePicked(rs, n, Places(rs[..n], markers), out, open, open);
    assert rs[open..open] == [] && Since(open, open) == [];
  }

  lemma FeedLast(rs: seq<WalRecord>)
    requires rs != [] && FeedAll(FRESH, rs[..|rs| - 1]).pending == rs[..|rs| - 1][Open(rs[..|rs| - 1])..]
    ensures var n := |rs| - 1;
            var open, before, after := Open(rs[..n]), FeedAll(FRESH, rs[..n]), FeedAll(FRESH, rs);
            && after.pending == rs[Open(rs)..]
            && after.delivered == before.delivered + (if Released(rs, open, n) then rs[open..n] else [])
            && after.highest == if Released(rs, open, n) then rs[n].lsn else before.highest
  {
    hide Open, Announces, Announced, Released, FeedAll;
    var n := |rs| - 1;
    var open := Open(rs[..n]);
    FeedNext(rs);
    OpenLast(rs);
    AnnouncesIs(rs[n], n - open);
    OpenReleased(rs);
    SliceEnd(rs, open, n);
  }

  lemma SliceEnd<T>(xs: seq<T>, a: nat, n: nat)
    requires a <= n == |xs| - 1
    ensures xs[..n][a..] == xs[a..n] && |xs[a..n]| == n - a
    ensures xs[a..] == xs[a..n + 1] == xs[a..n] + [xs[n]] && xs[n + 1..] == [] && xs == xs[..n] + [xs[n]]
  {
  }

  lemma FeedNext(rs: seq<WalRecord>)
    requires rs != []
    ensures FeedAll(FRESH, rs) == Feed(FeedAll(FRESH, rs[..|rs| - 1]), rs[|rs| - 1])
  {
  }

  lemma AnnouncesIs(r: WalRecord, n: nat)
    ensures Announces(r, n) <==> Announced(r) == n
  {
    hide Get;
  }

  lemma OpenReleased(rs: seq<WalRecord>)
    requires rs != []
    ensures var n := |rs| - 1;
            var open := Open(rs[..n]);
            Released(rs, open, n) <==> rs[n].kind == 4 && Announces(rs[n], n - open)
  {
    hide Announces;
    var before := rs[..|rs| - 1];
    var open := Open(before);
    assert open > 0 ==> before[open - 1] == rs[open - 1];
    assert forall k | open <= k < |before| :: before[k] == rs[k];
  }

  lemma {:induction false} Delivers(rs: seq<WalRecord>)
    ensures Picked(rs, Places(rs, false), FeedAll(FRESH, rs).delivered)
    ensures FeedAll(FRESH, rs).pending == rs[Open(rs)..]
  {
    hide Open, Released, Picked;
    if rs == [] {
      NothingPicked(rs);
    } else {
      var n := |rs| - 1;
      Delivers(rs[..n]);
      PicksNext(rs, false, FeedAll(FRESH, rs[..n]).delivered);
      FeedLast(rs);
    }
  }

  lemma NothingPicked(rs: seq<WalRecord>)
    ensures Picked(rs, [], [])
  {
  }

  /** Recovery hands on exactly the records of the released batches, in order; the records after the
    * last marker wait. */
  lemma DeliversExactly(rs: seq<WalRecord>) returns (places: seq<nat>)
    ensures Picked(rs, places, FeedAll(FRESH, rs).delivered)
    ensures forall j: nat :: j in places <==> exists a: nat, z: nat :: Released(rs, a, z) && a <= j < z
    ensures FeedAll(FRESH, rs).pending == rs[Open(rs)..]
  {
    hide Open, Released, Picked, FeedAll, Places;
    Delivers(rs);
    PlacesExactly(rs, false);
    places := Places(rs, false);
  }

  /** The LSN it continues from is that of the last marker that released a batch, and 0 if none did. */
  lemma {:induction false} HighestExactly(rs: seq<WalRecord>)
    ensures (forall a: nat, z: nat :: !Released(rs, a, z)) ==> FeedAll(FRESH, rs).highest == 0
    ensures forall a: nat, z: nat | Released(rs, a, z) && (forall b: nat, y: nat | Released(rs, b, y) :: y <= z) ::
              FeedAll(FRESH, rs).highest == rs[z].lsn
  {
    hide Open, Released;
    if rs == [] {
      NoneReleased(rs);
    } else {
      var n := |rs| - 1;
      HighestExactly(rs[..n]);
      ReleasedLast(rs);
      Delivers(rs[..n]);
      FeedLast(rs);
    }
  }

  lemma {:induction false} Emitted(rs: seq<WalRecord>)
    ensures Picked(rs, Places(rs, true), Emits([], rs))
  {
    hide Open, Released, Picked, Emits, Left, FeedAll;
    if rs == [] {
      NothingPicked(rs);
      EmitsNone([]);
    } else {
      var n := |rs| - 1;
      Emitted(rs[..n]);
      PicksNext(rs, true, Emits([], rs[..n]));
      EmitLast(rs);
    }
  }

  lemma EmitLast(rs: seq<WalRecord>)
    requires rs != []
    ensures var n := |rs| - 1;
            var open := Open(rs[..n]);
            Emits([], rs) == Emits([], rs[..n]) + if Released(rs, open, n) then rs[open..n + 1] else []
  {
    hide Open, Left, FeedAll, Emits, Released, Announces, Announced;
    var n := |rs| - 1;
    var open := Open(rs[..n]);
    OpenReleased(rs);
    AnnouncesIs(rs[n], n - open);
    EmitNext(rs);
    EmitsOne(rs[open..n], rs[n]);
    SliceEnd(rs, open, n);
  }

  lemma EmitNext(rs: seq<WalRecord>)
    requires rs != []
    ensures var n := |rs| - 1;
            Emits([], rs) == Emits([], rs[..n]) + Emits(rs[Open(rs[..n])..n], [rs[n]])
  {
    hide Open, Left, FeedAll, Emits, Picked, Places;
    var n := |rs| - 1;
    SliceEnd(rs, Open(rs[..n]), n);
    EmitsAppend([], rs[..n], [rs[n]]);
    LeftOpen(rs[..n]);
  }

  lemma LeftOpen(rs: seq<WalRecord>)
    ensures Left([], rs) == rs[Open(rs)..]
  {
    hide Open, FeedAll, Picked, Places;
    Delivers(rs);
  }

  lemma EmitsOne(p: seq<WalRecord>, r: WalRecord)
    ensures Emits(p, [r]) == if r.kind == 4 && |p| == Announced(r) then p + [r] else []
  {
    hide Announced;
    EmitsNone([]);
    EmitsNone(p + [r]);
  }

  /** The stream releases exactly the same batches, each with its marker. */
  lemma EmitsExactly(rs: seq<WalRecord>) returns (places: seq<nat>)
    ensures Picked(rs, places, Emits([], rs))
    ensures forall j: nat :: j in places <==> exists a: nat, z: nat :: Released(rs, a, z) && a <= j <= z
  {
    hide Open, Released, Picked, Emits, Places;
    Emitted(rs);
    PlacesExactly(rs, true);
    places := Places(rs, true);
  }
}
