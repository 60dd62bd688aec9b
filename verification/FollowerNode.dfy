/** The follower in place (internal/replication/follower.go): its fields, its WAL and its
  * AccountManager, updated frame by frame, proved against the steps of module Replication. */
module FollowerNodes {
  import opened Core
  import opened Holds
  import opened Machine
  import opened Replaying
  import opened ExpiryHeaps
  import opened Manager
  import opened Loop
  import opened Frames
  import opened Recovery
  import opened Segments
  import opened SegmentRecovery
  import opened Skipping
  import opened Packing
  import opened Wals
  import opened Codec
  import opened Restart
  import opened Replication
  import opened Following

  /* ----- payloads ----- */

  /** The records that payloads decode to, up to the first that does not. */
  datatype Readout = Readout(records: seq<Record>, bad: Option<Error>)

  function ReadOut(ws: seq<WalRecord>): Readout
    decreases |ws|
  {
    if ws == [] then Readout([], None)
    else if ws[0].kind == ACCOUNT then
      match DecodeAccount(ws[0].payload)
      case None => Readout([], Some(InvalidAccountPayload))
      case Some(a) => Prefixed(AccountRecord(a), ReadOut(ws[1..]))
    else if ws[0].kind == TRANSFER then
      match DecodeTransfer(ws[0].payload)
      case None => Readout([], Some(InvalidTransferPayload))
      case Some(t) => Prefixed(TransferRecord(t), ReadOut(ws[1..]))
    else ReadOut(ws[1..])
  }

  function Prefixed(r: Record, rest: Readout): Readout {
    rest.(records := [r] + rest.records)
  }

  /** Handling payloads is replaying what they decode to. */
  lemma {:induction false} HandleReadOut(s: State, ws: seq<WalRecord>)
    ensures var out := ReadOut(ws);
            var a := Replay(s, out.records);
            HandleAll(s, ws) == if a.err.Some? then a else Applied(a.state, out.bad)
    decreases |ws|
  {
    hide DecodeAccount, DecodeTransfer, ReplayRecord;
    if ws != [] {
      var a := Handle(s, ws[0]);
      var rest := ReadOut(ws[1..]);
      HandleReadOut(a.state, ws[1..]);
      if ReadOut(ws).records != rest.records && ReadOut(ws).records != [] {
        assert ReadOut(ws).records[1..] == rest.records;
      }
    }
  }

  method ReadRecords(ws: seq<WalRecord>) returns (rs: seq<Record>, bad: Option<Error>)
    ensures Readout(rs, bad) == ReadOut(ws)
  {
    hide DecodeAccount, DecodeTransfer;
    rs, bad := [], None;
    for i := 0 to |ws|
      invariant var rest := ReadOut(ws[i..]); ReadOut(ws) == Readout(rs + rest.records, rest.bad)
    {
      assert ws[i..][0] == ws[i] && ws[i..][1..] == ws[i + 1..];
      if ws[i].kind == ACCOUNT {
        var a := DecodeAccountPayload(ws[i].payload);
        if a.None? { return rs, Some(InvalidAccountPayload); }
        rs := rs + [AccountRecord(a.value)];
      } else if ws[i].kind == TRANSFER {
        var t := DecodeTransferPayload(ws[i].payload);
        if t.None? { return rs, Some(InvalidTransferPayload); }
        rs := rs + [TransferRecord(t.value)];
      }
    }
  }

  /** From sound books, applying these payloads opens no hold under an id still open. */
  ghost predicate Applicable(s: State, ws: seq<WalRecord>) {
    Sound(s.books) && ReopensNone(s, ReadOut(ws).records)
  }

  /* ----- the node ----- */

  class FollowerNode {
    const cfg: Config
    const wal: Wal
    var accounts: AccountManager
    var lastLSN: nat
    var lastTerm: nat
    var failures: nat
    var pending: seq<WalRecord>

    ghost predicate Valid()
      reads this, wal, wal.current, accounts, accounts.expiry, accounts.owned
    {
      wal.Valid() && wal.crc == cfg.crc && wal.segmentSize == cfg.max && accounts.Formed()
    }

    ghost function Value(): Follower
      requires accounts.Indexes()
      reads this, wal, wal.current, accounts
    {
      Follower(wal.OnFile(), wal.currentLSN, accounts.Value(), lastLSN, lastTerm, failures, pending)
    }

    constructor (cfg: Config, wal: Wal)
      requires wal.Valid() && wal.crc == cfg.crc && wal.segmentSize == cfg.max
      requires wal.OnFile() == NO_FILES && wal.currentLSN == 0
      ensures Valid() && accounts.Valid() && Value() == NEW && this.cfg == cfg && this.wal == wal
    {
      this.cfg, this.wal := cfg, wal;
      accounts := new AccountManager();
      lastLSN, lastTerm, failures, pending := 0, 0, 0, [];
    }

    /** Apply records to the ledger, stopping at the first error. */
    method Apply(ws: seq<WalRecord>) returns (err: Option<Error>)
      requires Valid()
      modifies accounts, accounts.expiry, accounts.owned
      ensures Valid() && fresh(accounts.owned - old(accounts.owned))
      ensures old(accounts.Valid()) && Applicable(old(accounts.Value()), ws) ==>
                accounts.Valid() && Applied(accounts.Value(), err) == HandleAll(old(accounts.Value()), ws)
    {
      hide Wal.Valid, ReopensNone, ReadOut, HandleAll, Replay, Sound, AccountManager.Indexes, AccountManager.Filed,
        AccountManager.Agrees, AccountManager.AccountMap, ExpiryHeap.Valid, Entries;
      HandleReadOut(accounts.Value(), ws);
      var rs, bad := ReadRecords(ws);
      err := Recover(accounts, rs);
      if err.None? { err := bad; }
    }

    /** flush: one group commit in the WAL, then the ledger. */
    method Flush() returns (ok: bool)
      requires Valid()
      modifies this`pending, wal, wal.current, accounts, accounts.expiry, accounts.owned
      ensures Valid() && fresh(accounts.owned - old(accounts.owned))
              && (wal.current == old(wal.current) || fresh(wal.current))
      ensures old(accounts.Valid()) && Applicable(old(accounts.Value()), old(pending)) ==>
                accounts.Valid() && Flushed(Value(), ok) == Replication.Flush(cfg, old(Value()))
    {
      hide Wal.Valid, Wal.OnFile, Applicable, HandleAll, Encodable, PlaceAll, FramesOf, Packing.Sealed, Items,
        AccountManager.Indexes, AccountManager.Filed, AccountManager.Agrees, AccountManager.AccountMap,
        ExpiryHeap.Valid, Entries;
      if |pending| == 0 { return true; }
      var batch := pending;
      pending := [];
      var r := wal.AppendBatch(Items(batch));
      if r.Failed? { return false; }
      wal.Sync();
      var err := Apply(batch);
      ok := err.None?;
    }

    /** fullResync: a fresh ledger, an empty WAL, the position back at the start. */
    method FullResync()
      requires Valid()
      modifies this, wal
      ensures Valid() && accounts.Valid() && Value() == Resync(old(Value()))
      ensures fresh(wal.current) && fresh(accounts) && fresh(accounts.expiry) && accounts.owned == {}
    {
      hide Wal.Valid, Wal.OnFile, AccountManager.Indexes, AccountManager.Filed, AccountManager.Agrees, ExpiryHeap.Valid,
        Entries;
      accounts := new AccountManager();
      lastLSN := 0;
      pending := [];
      wal.Reset();
    }

    /** The stream, or the attempt to open one, ended with an error other than a refusal. */
    method Fail()
      requires Valid()
      modifies this, wal
      ensures Valid() && (old(accounts.Valid()) ==> accounts.Valid()) && Value() == Failure(cfg, old(Value()))
      ensures (wal.current == old(wal.current) || fresh(wal.current))
      ensures accounts == old(accounts) || (fresh(accounts) && fresh(accounts.expiry) && accounts.owned == {})
    {
      hide Wal.Valid, Wal.OnFile, AccountManager.Indexes, AccountManager.Filed, AccountManager.Agrees, ExpiryHeap.Valid,
        Entries;
      pending := [];
      failures := failures + 1;
      if failures >= cfg.limit {
        FullResync();
        failures := 0;
      }
    }

    /** The handshake of syncLoop; false means the primary was refused. */
    method Handshake(term: nat) returns (up: bool)
      requires Valid()
      modifies this`pending, this`lastTerm, this`failures
      ensures Valid() && (old(accounts.Valid()) ==> accounts.Valid())
              && Outcome(Value(), up) == Connect(old(Value()), term)
    {
      hide Wal.Valid, Wal.OnFile, AccountManager.Indexes, AccountManager.Filed, AccountManager.Agrees, ExpiryHeap.Valid,
        Entries;
      pending := [];
      if lastTerm != 0 && term < lastTerm { return false; }
      if term > lastTerm { lastTerm := term; }
      failures := 0;
      up := true;
    }

    /** One frame of the stream; false means that the stream is closed. */
    method ReceiveFrame(term: nat, r: WalRecord) returns (up: bool)
      requires Valid()
      modifies this, wal, wal.current, accounts, accounts.expiry, accounts.owned
      ensures Valid()
      ensures && old(accounts.Valid()) && Applicable(old(accounts.Value()), old(pending))
              && (r.lsn > old(lastLSN) ==> Applicable(old(accounts.Value()), old(pending) + [r])) ==>
                accounts.Valid() && Outcome(Value(), up) == Receive(cfg, old(Value()), term, r)
    {
      hide Wal.Valid, Wal.OnFile, Applicable, Replication.Flush, Failure, AccountManager.Indexes, AccountManager.Filed,
        AccountManager.Agrees, AccountManager.AccountMap, ExpiryHeap.Valid, Entries;
      if term < lastTerm {
        pending := [];
        return false;
      }
      if r.kind == HEAD { return true; }
      if r.kind == BATCH_COMMIT {
        var ok := Flush();
        if !ok {
          Fail();
          return false;
        }
        if r.lsn > lastLSN { lastLSN := r.lsn; }
        return true;
      }
      if r.lsn <= lastLSN { return true; }
      pending := pending + [r];
      up := true;
      if |pending| >= FLUSH_THRESHOLD {
        up := Flush();
        if !up { Fail(); }
      }
    }

    /** recoverLocalState in a new process: replay the local WAL into an empty ledger and work out
      * the primary's position from the records. */
    method RecoverLocalState() returns (ok: bool)
      requires Valid() && accounts.Valid()
      requires wal.currentLSN == 0 && accounts.Value() == EMPTY && lastLSN == 0 && failures == 0 && pending == []
      modifies this`lastLSN, wal, wal.current, accounts, accounts.expiry, accounts.owned
      ensures Valid()
      ensures Applicable(EMPTY, ReplayDisk(cfg.crc, Files(old(wal.OnFile())), FRESH).state.delivered) ==>
                accounts.Valid() && Outcome(Value(), ok) == Reopen(cfg, old(Value()))
    {
      hide Wal.Valid, Applicable, HandleAll, ReplayDisk, DiskAfter, MaxLSN, AccountManager.Indexes,
        AccountManager.Filed, AccountManager.Agrees, AccountManager.AccountMap, ExpiryHeap.Valid, Entries;
      SomethingLeft(cfg.crc, Files(wal.OnFile()));
      var delivered := wal.Recover();
      var err := Apply(delivered);
      var top := HighestLSN(delivered);
      lastLSN := if top > 0 then top + 1 else 0;
      ok := err.None?;
    }
  }

  method HighestLSN(rs: seq<WalRecord>) returns (top: nat)
    ensures top == MaxLSN(rs)
  {
    top := 0;
    for i := 0 to |rs|
      invariant top == MaxLSN(rs[..i])
    {
      assert rs[..i + 1][..i] == rs[..i];
      if rs[i].lsn > top { top := rs[i].lsn; }
    }
    assert rs[..|rs|] == rs;
  }

  /* ----- what a primary's journal guarantees ----- */

  lemma {:induction false} ReopensNonePrefix(s: State, xs: seq<Record>, ys: seq<Record>)
    requires ReopensNone(s, xs + ys)
    ensures ReopensNone(s, xs)
    decreases |xs|
  {
    hide ReplayRecord, OpensAfresh;
    if xs != [] {
      assert (xs + ys)[0] == xs[0] && (xs + ys)[1..] == xs[1..] + ys;
      var a := ReplayRecord(s, xs[0]);
      if a.err.None? { ReopensNonePrefix(a.state, xs[1..], ys); }
    }
  }

  lemma {:induction false} ReplayKeepsSound(s: State, rs: seq<Record>)
    requires Sound(s.books) && Replay(s, rs).err.None?
    ensures Sound(Replay(s, rs).state.books)
    decreases |rs|
  {
    hide ReplayRecord, Sound, ReopensNone;
    if rs != [] {
      ReplayStep(s, rs);
      ReplayKeepsSound(ReplayRecord(s, rs[0]).state, rs[1..]);
    }
  }

  /** Payloads that carry records decode to them; a commit marker at the end is passed over. */
  lemma {:induction false} ReadOutCarried(ws: seq<WalRecord>, rs: seq<Record>, rest: seq<WalRecord>)
    requires CarriesAll(ws, rs) && (rest == [] || (|rest| == 1 && rest[0].kind == BATCH_COMMIT))
    ensures ReadOut(ws + rest) == Readout(rs, None)
    decreases |ws|
  {
    hide EncodeAccount, EncodeTransfer, DecodeAccount, DecodeTransfer;
    if ws == [] {
      assert ws + rest == rest;
      if rest != [] { assert rest[1..] == []; }
    } else {
      assert (ws + rest)[0] == ws[0] && (ws + rest)[1..] == ws[1..] + rest;
      ReadOutCarried(ws[1..], rs[1..], rest);
      assert rs == [rs[0]] + rs[1..];
      match rs[0]
      case AccountRecord(a) => AccountRoundTrip(a, []);
      case TransferRecord(t) => TransferRoundTrip(t, []);
    }
  }

  lemma FollowsIsSound(cfg: Config, log: seq<seq<Record>>, f: Follower, k: nat)
    requires Follows(cfg, log, f, k)
    ensures Sound(f.state.books)
  {
    hide Sound, Flatten, Replay, Stores, Log, LastLSN;
    EmptyIsSound();
    ReplayKeepsSound(EMPTY, Flatten(log[..k]));
  }

  /** The primary's next records reopen no hold of a follower in step. */
  lemma NextReopensNone(cfg: Config, es: seq<Event>, f: Follower, k: nat)
    requires k < |Run(START, es).log| && Follows(cfg, Run(START, es).log, f, k)
    ensures ReopensNone(f.state, Run(START, es).log[k])
  {
    hide Run, ReopensNone, Flatten, Replay, Stores, Log, LastLSN;
    var log := Run(START, es).log;
    var m := PrefixFor(es, k + 1);
    RunReopensNone(es[..m]);
    NextRecords(log, k);
    ReopensNoneAppend(EMPTY, Flatten(log[..k]), log[k]);
  }

  /** A follower in step can apply what it has buffered, and that with the stream's next record
    * unless it is a duplicate: the node takes the steps of the protocol. */
  lemma FollowerCanApply(cfg: Config, es: seq<Event>, f: Follower, k: nat, at: nat)
    requires Primary(cfg, es)
    requires var log := Run(START, es).log;
             Follows(cfg, log, f, k) && Buffers(log, f, k, Online(at)) && at < |Log(Batches(log))|
    ensures var r := Log(Batches(Run(START, es).log))[at];
            Applicable(f.state, f.pending) && (r.lsn > f.lastLSN ==> Applicable(f.state, f.pending + [r]))
  {
    hide Primary, Run, Sound, ReopensNone, Follows, Log, ReadOut, Batches;
    var log := Run(START, es).log;
    FollowsIsSound(cfg, log, f, k);
    if at < f.lastLSN {
      NothingToApply(f.state);
      LogPositions(Batches(log));
    } else {
      InsideApplies(cfg, es, f, k, at);
    }
  }

  lemma InsideApplies(cfg: Config, es: seq<Event>, f: Follower, k: nat, at: nat)
    requires Primary(cfg, es)
    requires var log := Run(START, es).log;
             Follows(cfg, log, f, k) && Buffers(log, f, k, Online(at)) && f.lastLSN <= at < |Log(Batches(log))|
    ensures var r := Log(Batches(Run(START, es).log))[at];
            ReopensNone(f.state, ReadOut(f.pending).records) && ReopensNone(f.state, ReadOut(f.pending + [r]).records)
  {
    hide AdmissibleRun, Run, ReopensNone, Flatten, Replay, Stores, Log, LastLSN, ReadOut, Batches, Numbered, CarriesAll,
      Commit, EncodeAccount, EncodeTransfer;
    var log := Run(START, es).log;
    var all, base := Log(Batches(log)), f.lastLSN;
    PrimaryLog(cfg, es);
    PrefixBatches(log, k);
    RecordAt(log, k, at);
    NextReopensNone(cfg, es, f, k);
    NumberedCarries(log[k], base);
    BatchAt(log, k);
    var ws := all[base..base + |log[k]|];
    assert ws[..at - base] == all[base..at] == f.pending;
    assert at < base + |log[k]| ==> ws[at - base] == all[at];
    CommitKind(at + 1, |log[k]|);
    PartApplies(f.state, log[k], ws, at - base, all[at]);
  }

  lemma BatchAt(log: seq<seq<Record>>, k: nat)
    requires k < |log|
    ensures Batches(log)[k] == BatchOf(log[k])
  {
  }

  lemma NothingToApply(s: State)
    ensures ReopensNone(s, ReadOut([]).records)
  {
  }

  /** Part of a batch, and that with the next record or the commit marker. */
  lemma PartApplies(s: State, rs: seq<Record>, ws: seq<WalRecord>, q: nat, next: WalRecord)
    requires CarriesAll(ws, rs) && ReopensNone(s, rs) && q <= |ws|
    requires if q < |ws| then next == ws[q] else next.kind == BATCH_COMMIT
    ensures ReopensNone(s, ReadOut(ws[..q]).records) && ReopensNone(s, ReadOut(ws[..q] + [next]).records)
  {
    hide ReopensNone, ReadOut, Carries;
    assert ws[..q] + [] == ws[..q] && rs == rs[..q] + rs[q..];
    ReadOutCarried(ws[..q], rs[..q], []);
    ReopensNonePrefix(s, rs[..q], rs[q..]);
    if q < |ws| {
      assert ws[..q] + [next] == ws[..q + 1] && ws[..q + 1] + [] == ws[..q + 1] && rs == rs[..q + 1] + rs[q + 1..];
      ReadOutCarried(ws[..q + 1], rs[..q + 1], []);
      ReopensNonePrefix(s, rs[..q + 1], rs[q + 1..]);
    } else {
      ReadOutCarried(ws[..q], rs[..q], [next]);
    }
  }

  /** The records of any number of the primary's batches can be applied at a restart. */
  lemma RestartCanApply(es: seq<Event>, k: nat)
    requires k <= |Run(START, es).log|
    ensures Applicable(EMPTY, Data(Batches(Run(START, es).log[..k])))
  {
    hide Run, Sound, ReopensNone, Flatten, ReadOut, Batches, Data;
    var log := Run(START, es).log;
    var m := PrefixFor(es, k);
    RunReopensNone(es[..m]);
    EmptyIsSound();
    DataCarries(log[..k]);
    ReadOutCarried(Data(Batches(log[..k])), Flatten(log[..k]), []);
    assert Data(Batches(log[..k])) + [] == Data(Batches(log[..k]));
  }

  /** In every run of a follower: the node can take the next frame, and it can restart after any
    * crash and any interrupted re-sync, as the steps of the run say. */
  lemma NodeTakesEveryStep(cfg: Config, es: seq<Event>, acts: seq<Act>, p: nat, c: nat, n: nat)
    requires Primary(cfg, es) && AllAllowed(cfg, Run(START, es).log, acts)
    ensures var log := Run(START, es).log;
            var s := HappenAll(cfg, log, acts);
            && (s.session.Online? && s.session.at < |Log(Batches(log))| ==>
                  var r := Log(Batches(log))[s.session.at];
                  && Applicable(s.f.state, s.f.pending)
                  && (r.lsn > s.f.lastLSN ==> Applicable(s.f.state, s.f.pending + [r])))
            && (Allowed(cfg, log, s, Crash(p, c)) ==>
                  Applicable(EMPTY, ReplayDisk(cfg.crc, Files(Crashed(cfg, s.f, p, c).wal), FRESH).state.delivered))
            && (Allowed(cfg, log, s, Wipe(n)) ==>
                  Applicable(EMPTY, ReplayDisk(cfg.crc, Files(Wiped(s.f, n).wal), FRESH).state.delivered))
  {
    hide Served, Run, Follows, HappenAll, Log, Batches, Applicable, Crashed, Wiped, Separated, ReplayDisk, Restartable,
      Receive, Reopen;
    var log := Run(START, es).log;
    var s := HappenAll(cfg, log, acts);
    var k := FollowerKeepsUp(cfg, es, acts);
    if s.session.Online? && s.session.at < |Log(Batches(log))| {
      FollowerCanApply(cfg, es, s.f, k, s.session.at);
    }
    if Allowed(cfg, log, s, Crash(p, c)) {
      if p > 0 { CommitArrived(cfg, es, s.f, k, s.session.at); }
      var k' := CrashFollows(cfg, es, s.f, k, p, c);
      RestartCanApply(es, k');
    }
    if Allowed(cfg, log, s, Wipe(n)) {
      var k' := WipeFollows(cfg, es, s.f, k, n);
      RestartCanApply(es, k');
    }
  }
}
