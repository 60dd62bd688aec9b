/** The replication stream reader (internal/wal/stream.go): a cursor over the segment files that
  * delivers whole batches from the durable part of the log. */
module Streaming {
  import opened Bytes
  import opened Frames
  import opened Skipping

  /* ----- what is there to read ----- */

  /** How a frame walk ends: at the end of the data, at a frame that is not all there, or at bytes
    * that are not a frame. */
  datatype End = Clean | Short | Bad

  datatype Found = Found(records: seq<WalRecord>, end: End)

  /** The frames from the start of the data, as readFrame takes them one by one. */
  function Walked(crc: Checksum, data: seq<Byte>): Found
    decreases |data|
  {
    if data == [] then Found([], Clean)
    else if |data| < HEADER_SIZE + CRC_SIZE then Found([], Short)
    else if Get(data[9..13]) > PEEK_MAX_PAYLOAD then Found([], Bad)
    else
      var n := AnnouncedLength(data);
      if n > |data| then Found([], Short)
      else
        match Decode(crc, data[..n])
        case None => Found([], Bad)
        case Some(r) =>
          var rest := Walked(crc, data[n..]);
          Found([r] + rest.records, rest.end)
  }

  /** Records, and whether an error follows them. */
  datatype Reading = Reading(records: seq<WalRecord>, failed: bool)

  /** One segment, or what is left of it.  Only the live segment may end inside a frame. */
  function ReadOne(crc: Checksum, data: seq<Byte>, live: bool): Reading {
    var found := Walked(crc, data);
    Reading(found.records, found.end == Bad || (found.end == Short && !live))
  }

  /** The files by position, which of them were deleted, and how far the live one, the last, is
    * durable. */
  datatype Disk = Disk(files: seq<seq<Byte>>, gone: set<nat>, synced: nat)

  predicate Proper(d: Disk) {
    |d.files| > 0 && |d.files| - 1 !in d.gone && d.synced <= |d.files[|d.files| - 1]|
  }

  predicate Live(d: Disk, i: nat) {
    i + 1 == |d.files|
  }

  /** The readable bytes of a segment when it is opened now. */
  function Durably(d: Disk, i: nat): seq<Byte>
    requires Proper(d) && i < |d.files|
  {
    if Live(d, i) then d.files[i][..d.synced] else d.files[i]
  }

  /** Segments that still exist read one after the other up to the first error. */
  function ReadAll(crc: Checksum, d: Disk, todo: seq<nat>): Reading
    requires Proper(d) && forall i | 0 <= i < |todo| :: todo[i] < |d.files|
  {
    if todo == [] then Reading([], false)
    else if todo[0] in d.gone then ReadAll(crc, d, todo[1..])
    else Then(ReadOne(crc, Durably(d, todo[0]), Live(d, todo[0])), ReadAll(crc, d, todo[1..]))
  }

  function Then(r: Reading, more: Reading): Reading {
    if r.failed then r else Reading(r.records + more.records, more.failed)
  }

  /** The records released when `rs` follow the pending ones: whole batches, each with its commit
    * marker; a batch of another size than its marker announces is dropped. */
  function Emits(pending: seq<WalRecord>, rs: seq<WalRecord>): seq<WalRecord>
    decreases |rs|
  {
    if rs == [] then []
    else if rs[0].kind == BATCH_COMMIT then
      (if |pending| == Announced(rs[0]) then pending + [rs[0]] else []) + Emits([], rs[1..])
    else Emits(pending + [rs[0]], rs[1..])
  }

  /** The segments a new reader lists: the existing ones whose tail is above `from`. */
  function Selected(d: Disk, from: nat, i: nat): (list: seq<nat>)
    requires i <= |d.files|
    ensures Ascending(list, i, |d.files|)
    decreases |d.files| - i
  {
    if i == |d.files| then []
    else (if i in d.gone || Peek(d.files[i]) <= from then [] else [i]) + Selected(d, from, i + 1)
  }

  lemma SelectedNext(d: Disk, from: nat, i: nat)
    requires i < |d.files|
    ensures Selected(d, from, i)
            == (if i in d.gone || Peek(d.files[i]) <= from then [] else [i]) + Selected(d, from, i + 1)
  {
    hide Peek, Ascending;
  }

  lemma SelectedEnd(d: Disk, from: nat)
    ensures Selected(d, from, |d.files|) == []
  {
  }

  /** Which segments these are. */
  lemma {:induction false} SelectedExactly(d: Disk, from: nat, i: nat, j: nat)
    requires i <= |d.files|
    ensures j in Selected(d, from, i) <==> i <= j < |d.files| && j !in d.gone && Peek(d.files[j]) > from
    decreases |d.files| - i
  {
    hide Peek, Ascending;
    if i < |d.files| { SelectedExactly(d, from, i + 1, j); }
  }

  predicate Ascending(list: seq<nat>, low: nat, high: nat) {
    && (forall k | 0 <= k < |list| :: low <= list[k] < high)
    && (forall k, l | 0 <= k < l < |list| :: list[k] < list[l])
  }

  function Since(seen: nat, n: nat): (list: seq<nat>)
    requires seen <= n
    ensures |list| == n - seen && forall k | 0 <= k < |list| :: list[k] == seen + k
  {
    seq(n - seen, k requires 0 <= k < n - seen => seen + k)
  }

  lemma SinceJoins(a: nat, b: nat, c: nat)
    requires a <= b <= c
    ensures forall list: seq<nat> :: list + Since(a, b) + Since(b, c) == list + Since(a, c)
  {
    assert Since(a, b) + Since(b, c) == Since(a, c);
    forall list: seq<nat>
      ensures list + Since(a, b) + Since(b, c) == list + Since(a, c)
    {
      assert list + Since(a, b) + Since(b, c) == list + (Since(a, b) + Since(b, c));
    }
  }

  /** What a new reader delivers. */
  ghost function Offered(crc: Checksum, d: Disk, from: nat): Reading
    requires Proper(d)
  {
    var r := ReadAll(crc, d, Selected(d, from, 0));
    Reading(Emits([], r.records), r.failed)
  }

  /* ----- the reader ----- */

  datatype Delivery = Record(record: WalRecord) | CaughtUp | Corrupted

  datatype Framed = Got(record: WalRecord, length: nat) | Later | Broken

  /** What reading one frame of the data means: it is whole and intact, or it may still come, or the
    * data is corrupt. */
  predicate Reads(crc: Checksum, data: seq<Byte>, live: bool, f: Framed) {
    var found := Walked(crc, data);
    match f
    case Later => live && found == Found([], Short)
    case Broken => found.records == [] && (found.end == Bad || (found.end == Short && !live))
    case Got(record, length) =>
      && 0 < length <= |data|
      && var rest := Walked(crc, data[length..]);
         found == Found([record] + rest.records, rest.end)
  }

  class StreamReader {
    const crc: Checksum
    const from: nat
    var ids: seq<nat>
    var idx: nat
    var seen: nat
    var open: bool
    var id: nat
    var size: nat
    var offset: nat
    var pending: seq<WalRecord>
    var emit: seq<WalRecord>
    /** The files as they were when the segments were first listed. */
    ghost var listed: Disk

    /** The segments of the first listing, and all those that were created since. */
    ghost predicate Listed()
      reads this`ids, this`seen, this`listed
    {
      && |listed.files| <= seen
      && ids == Selected(listed, from, 0) + Since(|listed.files|, seen)
    }

    /** The cursor makes sense for the files as they are now. */
    ghost predicate Valid(d: Disk)
      reads this`ids, this`idx, this`seen, this`open, this`id, this`size, this`offset, this`listed
    {
      && Proper(d)
      && (ids == [] ==> idx == 0 && !open)
      && (ids != [] ==> seen <= |d.files| && Listed())
      && idx <= |ids|
      && Ascending(ids, 0, seen)
      && (open ==> idx < |ids| && id == ids[idx] < |d.files| && size <= |d.files[id]| && offset <= |d.files[id]|
                   && (Live(d, id) ==> offset <= d.synced))
    }

    constructor (crc: Checksum, from: nat)
      ensures this.crc == crc && this.from == from
      ensures ids == [] && idx == 0 && !open && pending == [] && emit == []
    {
      this.crc, this.from, listed := crc, from, Disk([], {}, 0);
      ids, idx, seen, open, id, size, offset, pending, emit := [], 0, 0, false, 0, 0, 0, [], [];
    }

    lemma NewReader(d: Disk)
      requires Proper(d) && ids == [] && idx == 0 && !open && pending == [] && emit == []
      ensures Valid(d) && Coming(d) == Offered(crc, d, from)
    {
      hide Emits, ReadAll, Selected, Peek;
    }

    /** The segments still to be opened. */
    ghost function Todo(d: Disk): (list: seq<nat>)
      requires Valid(d)
      reads this`ids, this`idx, this`seen, this`open, this`id, this`size, this`offset, this`listed
      ensures forall k | 0 <= k < |list| :: list[k] < |d.files|
    {
      if ids == [] then Selected(d, from, 0)
      else ids[if open then idx + 1 else idx..] + Since(seen, |d.files|)
    }

    /** The unread part of the open segment: for the live one up to what is durable, for a closed
      * one up to the size it had when it was opened. */
    ghost function Unread(d: Disk): seq<Byte>
      requires Valid(d) && open
      reads this`ids, this`idx, this`seen, this`open, this`id, this`size, this`offset, this`listed
    {
      if Live(d, id) then d.files[id][offset..d.synced]
      else if offset <= size then d.files[id][offset..size]
      else []
    }

    ghost function Remaining(d: Disk): Reading
      requires Valid(d)
      reads this`ids, this`idx, this`seen, this`open, this`id, this`size, this`offset, this`listed
    {
      if open then Then(ReadOne(crc, Unread(d), Live(d, id)), ReadAll(crc, d, Todo(d)))
      else ReadAll(crc, d, Todo(d))
    }

    /** Everything the reader will deliver from these files, and whether an error ends it. */
    ghost function Coming(d: Disk): Reading
      requires Valid(d)
      reads this
    {
      Reading(emit + Emits(pending, Remaining(d).records), Remaining(d).failed)
    }

    /** Steps left: segments to finish. */
    ghost function Segments(d: Disk): nat
      requires Valid(d)
      reads this`ids, this`idx, this`seen, this`open, this`id, this`size, this`offset, this`listed
    {
      |Todo(d)| + if open then 1 else 0
    }

    /** ensureOpen: opens the next segment if none is open; false when there is none.  Segments that
      * were deleted since they were listed are passed over. */
    method EnsureOpen(d: Disk) returns (ok: bool)
      requires Valid(d)
      modifies this`ids, this`idx, this`seen, this`open, this`id, this`size, this`offset, this`listed
      ensures Valid(d) && ok == open
      ensures Remaining(d) == old(Remaining(d)) && Segments(d) <= old(Segments(d))
      ensures !ok ==> Todo(d) == []
      ensures old(open) ==> unchanged(this)
    {
      hide Peek, Walked, Ascending, Remaining, Todo, Segments, Unread, Listed;
      if open { return true; }
      if ids == [] {
        var some := ListFirst(d);
        if !some { return false; }
      }
      PassDeleted(d);
      if idx == |ids| {
        var more := ListMore(d);
        if !more { return false; }
        PassDeleted(d);
      }
      OpenNext(d);
      ok := true;
    }

    /** The first listing; nothing is listed when no tail is above the start. */
    method ListFirst(d: Disk) returns (some: bool)
      requires Valid(d) && ids == []
      modifies this`ids, this`idx, this`seen, this`listed
      ensures Valid(d) && !open && (some <==> ids != []) && (!some ==> Todo(d) == [])
      ensures Remaining(d) == old(Remaining(d)) && Segments(d) == old(Segments(d))
    {
      hide Peek, Walked, Ascending;
      var found := Listing(d);
      some := found != [];
      if some {
        ids, seen, idx, listed := found, |d.files|, 0, d;
        assert Since(seen, |d.files|) == [] && found[0..] + [] == found && found + [] == found;
      }
    }

    /** All listed segments are done: list those created since; the live one is among them. */
    method ListMore(d: Disk) returns (more: bool)
      requires Valid(d) && !open && ids != [] && idx == |ids|
      modifies this`ids, this`seen
      ensures Valid(d) && (more <==> idx < |ids|) && (!more ==> Todo(d) == [])
      ensures ids != [] && (more ==> ids[|ids| - 1] == |d.files| - 1)
      ensures Remaining(d) == old(Remaining(d)) && Segments(d) == old(Segments(d))
    {
      hide Peek, Walked;
      more := seen < |d.files|;
      if more {
        ghost var before := Todo(d);
        SinceJoins(|listed.files|, seen, |d.files|);
        ids, seen := ids + Since(seen, |d.files|), |d.files|;
        assert Todo(d) == before;
      }
    }

    /** Deleted segments have nothing to read. */
    method PassDeleted(d: Disk)
      requires Valid(d) && !open && ids != []
      modifies this`idx
      ensures Valid(d) && old(idx) <= idx && (idx < |ids| ==> ids[idx] !in d.gone)
      ensures old(idx) < |ids| && ids[|ids| - 1] !in d.gone ==> idx < |ids|
      ensures Remaining(d) == old(Remaining(d)) && Segments(d) <= old(Segments(d))
    {
      hide Peek, Walked, Ascending, Remaining, Todo, Segments, Unread;
      while idx < |ids| && ids[idx] in d.gone
        invariant Valid(d) && old(idx) <= idx
        invariant old(idx) < |ids| && ids[|ids| - 1] !in d.gone ==> idx < |ids|
        invariant Remaining(d) == old(Remaining(d)) && Segments(d) <= old(Segments(d))
        decreases |ids| - idx
      {
        PassOne(d);
      }
    }

    method PassOne(d: Disk)
      requires Valid(d) && !open && idx < |ids| && ids[idx] in d.gone
      modifies this`idx
      ensures Valid(d) && idx == old(idx) + 1 && Remaining(d) == old(Remaining(d)) && Segments(d) < old(Segments(d))
    {
      hide Peek, Walked, Ascending, ReadOne;
      ghost var todo := Todo(d);
      idx := idx + 1;
      assert todo[0] in d.gone && todo[1..] == Todo(d);
    }

    method OpenNext(d: Disk)
      requires Valid(d) && !open && idx < |ids| && ids[idx] !in d.gone
      modifies this`open, this`id, this`size, this`offset
      ensures Valid(d) && open && offset == 0
      ensures Remaining(d) == old(Remaining(d)) && Segments(d) == old(Segments(d))
    {
      hide Peek, Walked;
      ghost var todo := Todo(d);
      id := ids[idx];
      size, offset, open := |d.files[id]|, 0, true;
      assert todo == [id] + Todo(d);
      assert Unread(d) == Durably(d, id);
    }

    /** Next.  It delivers the first record that is coming, or says that nothing is, or that the
      * bytes after what was delivered are corrupt. */
    method Next(d: Disk) returns (r: Delivery)
      requires Valid(d)
      modifies this
      ensures Valid(d)
      ensures var was := old(Coming(d));
              if was.records == [] then r == (if was.failed then Corrupted else CaughtUp) && Coming(d) == was
              else r == Record(was.records[0]) && Coming(d) == was.(records := was.records[1..])
    {
      hide Peek, Walked, Emits, ReadAll, ReadOne, Then, Remaining, Todo, Unread, Segments, Ascending, Announced, Listed;
      ghost var was := Coming(d);
      while true
        invariant Valid(d) && Coming(d) == was
        decreases Segments(d), if open then 0 else 1, if open then |Unread(d)| else 0
      {
        if |emit| > 0 {
          r := Record(emit[0]);
          emit := emit[1..];
          return;
        }
        var ok := EnsureOpen(d);
        if !ok {
          NoneOpen(d);
          return CaughtUp;
        }
        var stop, end := ReadOpen(d);
        if stop { return end; }
      }
    }

    /** The part of Next that works on the open segment: nothing more can be read for now, or a
      * record is taken, or the segment is finished. */
    method ReadOpen(d: Disk) returns (stop: bool, end: Delivery)
      requires Valid(d) && open && emit == []
      modifies this
      ensures Valid(d) && Coming(d) == old(Coming(d))
      ensures stop ==> Coming(d).records == [] && end == if Coming(d).failed then Corrupted else CaughtUp
      ensures !stop ==> || Segments(d) < old(Segments(d))
                        || (Segments(d) == old(Segments(d)) && open && |Unread(d)| < |old(Unread(d))|)
    {
      hide Peek, Walked, Emits, ReadAll, ReadOne, Then, Remaining, Todo, Unread, Segments, Ascending, Announced, Listed;
      stop, end := true, CaughtUp;
      var live := Live(d, id);
      var limit := if live then d.synced else size;
      if offset >= limit {
        if live {
          AtDurableEnd(d);
        } else {
          Advance(d);
          stop := false;
        }
        return;
      }
      UnreadIs(d);
      var frame := ReadFrame(d.files[id][offset..limit], live);
      match frame
      case Later =>
        AtDurableEnd(d);
      case Broken =>
        AtBroken(d);
        end := Corrupted;
      case Got(record, length) =>
        Take(d, record, length);
        stop := false;
    }

    /** Next until it has nothing more: everything that is coming, in order. */
    method Drain(d: Disk) returns (out: seq<WalRecord>, end: Delivery)
      requires Valid(d)
      modifies this
      ensures Valid(d)
      ensures var was := old(Coming(d));
              out == was.records && end == (if was.failed then Corrupted else CaughtUp)
              && Coming(d) == was.(records := [])
    {
      hide Coming, Valid, Remaining, Emits;
      ghost var was := Coming(d);
      out, end := [], CaughtUp;
      while true
        invariant Valid(d)
        invariant was == Reading(out + Coming(d).records, Coming(d).failed)
        decreases |Coming(d).records|
      {
        ghost var now := Coming(d);
        end := Next(d);
        if !end.Record? { return; }
        assert now.records == [now.records[0]] + now.records[1..];
        out := out + [end.record];
      }
    }

    lemma UnreadIs(d: Disk)
      requires Valid(d) && open
      ensures Unread(d) == if Live(d, id) then d.files[id][offset..d.synced]
                           else if offset <= size then d.files[id][offset..size] else []
    {
    }

    lemma NoneOpen(d: Disk)
      requires Valid(d) && !open && Todo(d) == [] && emit == []
      ensures Coming(d) == Reading([], false)
    {
    }

    /** Nothing whole is left of the live segment, and it is the last one. */
    lemma AtDurableEnd(d: Disk)
      requires Valid(d) && open && Live(d, id) && emit == []
      requires offset >= d.synced || Walked(crc, Unread(d)) == Found([], Short)
      ensures Coming(d) == Reading([], false)
    {
      hide Peek;
      assert offset >= d.synced ==> Unread(d) == [];
      NotLast(ids, seen, idx);
      assert Todo(d) == [];
    }

    lemma AtBroken(d: Disk)
      requires Valid(d) && open && emit == []
      requires var found := Walked(crc, Unread(d));
               found.records == [] && (found.end == Bad || (found.end == Short && !Live(d, id)))
      ensures Coming(d) == Reading([], true)
    {
      hide Peek, Walked, ReadAll;
    }

    /** The segment is finished: the next one, if there is one. */
    method Advance(d: Disk)
      requires Valid(d) && open && !Live(d, id) && offset >= size
      modifies this`ids, this`idx, this`seen, this`open, this`id, this`size, this`offset, this`listed
      ensures Valid(d) && Remaining(d) == old(Remaining(d)) && Segments(d) < old(Segments(d))
    {
      hide Peek, Walked, ReadAll;
      NothingToRead(crc, d, pending);
      assert Unread(d) == [];
      ghost var todo := Todo(d);
      open := false;
      idx := idx + 1;
      assert Todo(d) == todo;
      assert [] + ReadAll(crc, d, todo).records == ReadAll(crc, d, todo).records;
      var _ := EnsureOpen(d);
    }

    /** The part of Next that takes one record: a commit marker releases the batch it closes. */
    method Take(d: Disk, record: WalRecord, length: nat)
      requires Valid(d) && open && emit == [] && 0 < length <= |Unread(d)|
      requires var rest := Walked(crc, Unread(d)[length..]);
               Walked(crc, Unread(d)) == Found([record] + rest.records, rest.end)
      modifies this`offset, this`pending, this`emit
      ensures Valid(d) && Coming(d) == old(Coming(d)) && open && Unread(d) == old(Unread(d))[length..]
      ensures Segments(d) == old(Segments(d))
    {
      hide Peek, Walked, ReadAll, Emits, Announced, Remaining, Todo, Valid, Unread, Segments, Ascending;
      Step(d, record, length);
      ghost var rest := Remaining(d).records;
      EmitsFirst(pending, record, rest);
      if record.kind == BATCH_COMMIT {
        if |pending| == Announced(record) {
          emit := pending + [record];
        }
        pending := [];
      } else {
        pending := pending + [record];
      }
    }

    method Step(d: Disk, record: WalRecord, length: nat)
      requires Valid(d) && open && 0 < length <= |Unread(d)|
      requires var rest := Walked(crc, Unread(d)[length..]);
               Walked(crc, Unread(d)) == Found([record] + rest.records, rest.end)
      modifies this`offset
      ensures Valid(d) && open && Unread(d) == old(Unread(d))[length..]
      ensures Segments(d) == old(Segments(d))
      ensures Remaining(d).failed == old(Remaining(d)).failed
      ensures old(Remaining(d)).records == [record] + Remaining(d).records
    {
      hide Peek, Walked, ReadAll, Then, ReadOne, Ascending, Listed, Selected;
      ghost var unread, todo := Unread(d), ReadAll(crc, d, Todo(d));
      ReadOneFirst(crc, unread, Live(d, id), record, length);
      offset := offset + length;
      assert Unread(d) == unread[length..];
      ThenFirst(record, ReadOne(crc, Unread(d), Live(d, id)), todo);
    }

    /** readFrame, with the check before it that a header fits. */
    method ReadFrame(data: seq<Byte>, live: bool) returns (f: Framed)
      requires data != []
      ensures Reads(crc, data, live, f)
    {
      hide Decode;
      if |data| < HEADER_SIZE + CRC_SIZE {
        return if live then Later else Broken;
      }
      if Get(data[9..13]) > PEEK_MAX_PAYLOAD { return Broken; }
      var length := AnnouncedLength(data);
      if length > |data| {
        return if live then Later else Broken;
      }
      var r := Decode(crc, data[..length]);
      if r.None? { return Broken; }
      f := Got(r.value, length);
    }

    method Listing(d: Disk) returns (list: seq<nat>)
      ensures list == Selected(d, from, 0)
    {
      hide Peek, Ascending, Selected;
      list := [];
      var i := 0;
      while i < |d.files|
        invariant 0 <= i <= |d.files|
        invariant Selected(d, from, 0) == list + Selected(d, from, i)
      {
        SelectedNext(d, from, i);
        if i !in d.gone {
          var max := PeekSegmentMaxLSN(d.files[i]);
          if max > from { list := list + [i]; }
        }
        i := i + 1;
      }
      SelectedEnd(d, from);
    }
  }

  lemma NothingToRead(crc: Checksum, d: Disk, pending: seq<WalRecord>)
    requires Proper(d)
    ensures ReadAll(crc, d, []) == Reading([], false)
    ensures ReadOne(crc, [], true) == ReadOne(crc, [], false) == Reading([], false)
    ensures Then(Reading([], false), Reading([], false)) == Reading([], false)
    ensures Emits(pending, []) == []
  {
  }

  lemma NotLast(list: seq<nat>, n: nat, k: nat)
    requires Ascending(list, 0, n) && k < |list|
    ensures k + 1 < |list| ==> list[k] + 1 < n
  {
    if k + 1 < |list| { assert list[k] < list[k + 1]; }
  }

  lemma ReadOneFirst(crc: Checksum, data: seq<Byte>, live: bool, record: WalRecord, length: nat)
    requires length <= |data|
    requires var rest := Walked(crc, data[length..]); Walked(crc, data) == Found([record] + rest.records, rest.end)
    ensures var rest := ReadOne(crc, data[length..], live);
            ReadOne(crc, data, live) == Reading([record] + rest.records, rest.failed)
  {
    hide Walked;
  }

  lemma ThenFirst(r: WalRecord, rest: Reading, more: Reading)
    ensures Then(Reading([r] + rest.records, rest.failed), more)
         == Reading([r] + Then(rest, more).records, Then(rest, more).failed)
  {
  }

  lemma EmitsFirst(pending: seq<WalRecord>, r: WalRecord, rest: seq<WalRecord>)
    ensures Emits(pending, [r] + rest)
         == if r.kind != BATCH_COMMIT then Emits(pending + [r], rest)
            else (if |pending| == Announced(r) then pending + [r] else []) + Emits([], rest)
  {
    assert ([r] + rest)[1..] == rest;
  }
}
