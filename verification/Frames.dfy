/** WAL records and their wire frames (internal/wal/record.go).  The checksum is any function. */
module Frames {
  import opened Core
  import opened Bytes

  type Checksum = seq<Byte> -> U32

  const TRANSFER: Byte := 1
  const ACCOUNT: Byte := 2
  const CHECKPOINT: Byte := 3
  const BATCH_COMMIT: Byte := 4

  /** 8 bytes LSN, 1 byte type, 4 bytes payload length; 4 bytes checksum at the end. */
  const HEADER_SIZE := 13
  const CRC_SIZE := 4

  datatype WalRecord = WalRecord(lsn: nat, kind: Byte, payload: seq<Byte>)

  /** What a frame can carry: a 64-bit LSN, a type other than 0, a payload length of 32 bits. */
  predicate Framable(r: WalRecord) {
    r.lsn < TWO_64 && r.kind != 0 && |r.payload| < TWO_32
  }

  function Body(r: WalRecord): (b: seq<Byte>)
    ensures |b| == HEADER_SIZE + |r.payload|
  {
    Put(r.lsn, 8) + [r.kind] + Put(|r.payload|, 4) + r.payload
  }

  /** appendFrame on an empty buffer. */
  function Frame(crc: Checksum, r: WalRecord): (b: seq<Byte>)
    ensures |b| == HEADER_SIZE + |r.payload| + CRC_SIZE
  {
    Body(r) + Put(crc(Body(r)), 4)
  }

  /** DecodeRecord; None stands for ErrCorrupted. */
  function Decode(crc: Checksum, b: seq<Byte>): Option<WalRecord> {
    if |b| < HEADER_SIZE + CRC_SIZE then None else
    var lsn := Get(b[..8]);
    var kind := b[8];
    if kind == 0 then None else
    var n := Get(b[9..13]);
    if |b| != HEADER_SIZE + n + CRC_SIZE then None else
    if crc(b[..HEADER_SIZE + n]) != Get(b[HEADER_SIZE + n..]) then None else
    Some(WalRecord(lsn, kind, b[HEADER_SIZE..HEADER_SIZE + n]))
  }

  /** The length a header announces. */
  function AnnouncedLength(b: seq<Byte>): nat
    requires |b| >= HEADER_SIZE
  {
    HEADER_SIZE + Get(b[9..13]) + CRC_SIZE
  }

  lemma FrameParts(crc: Checksum, r: WalRecord)
    requires Framable(r)
    ensures var b := Frame(crc, r);
            && Get(b[..8]) == r.lsn && b[8] == r.kind && Get(b[9..13]) == |r.payload|
            && b[..HEADER_SIZE + |r.payload|] == Body(r)
            && b[HEADER_SIZE..HEADER_SIZE + |r.payload|] == r.payload
            && Get(b[HEADER_SIZE + |r.payload|..]) == crc(Body(r))
  {
    Ranges();
    GetPut(r.lsn, 8);
    GetPut(|r.payload|, 4);
    GetPut(crc(Body(r)), 4);
    var b := Frame(crc, r);
    assert b[..8] == Put(r.lsn, 8);
    assert b[9..13] == Put(|r.payload|, 4);
    assert b[..HEADER_SIZE + |r.payload|] == Body(r);
    assert b[HEADER_SIZE + |r.payload|..] == Put(crc(Body(r)), 4);
    assert b[HEADER_SIZE..HEADER_SIZE + |r.payload|] == r.payload;
  }

  /** Decoding accepts exactly the frames of framable records, and returns the record. */
  lemma DecodeExactly(crc: Checksum, b: seq<Byte>, r: WalRecord)
    ensures Decode(crc, b) == Some(r) <==> Framable(r) && b == Frame(crc, r)
  {
    if Framable(r) && b == Frame(crc, r) { FrameDecodes(crc, r); }
    if Decode(crc, b) == Some(r) { DecodedIsFrame(crc, b, r); }
    hide Decode, Frame;
  }

  lemma FrameDecodes(crc: Checksum, r: WalRecord)
    requires Framable(r)
    ensures Decode(crc, Frame(crc, r)) == Some(r)
  {
    hide Frame, Body, Get;
    FrameParts(crc, r);
  }

  lemma DecodedIsFrame(crc: Checksum, b: seq<Byte>, r: WalRecord)
    requires Decode(crc, b) == Some(r)
    ensures Framable(r) && b == Frame(crc, r)
  {
    hide Get, Put;
    Ranges();
    var n := |r.payload|;
    PutGet(b[..8]);
    PutGet(b[9..13]);
    PutGet(b[HEADER_SIZE + n..]);
    FourParts(b, n);
  }

  lemma FourParts(b: seq<Byte>, n: nat)
    requires |b| == HEADER_SIZE + n + CRC_SIZE
    ensures b[..HEADER_SIZE + n] == b[..8] + [b[8]] + b[9..13] + b[13..HEADER_SIZE + n]
    ensures b == b[..HEADER_SIZE + n] + b[HEADER_SIZE + n..]
  {
  }

  /** The commit marker of a batch: payload is the commit LSN and the number of records. */
  function Commit(lsn: nat, count: nat): WalRecord {
    WalRecord(lsn, BATCH_COMMIT, Put(lsn, 8) + Put(count, 4))
  }

  /** The number of records a commit marker announces; 0 when its payload is short. */
  function Announced(r: WalRecord): nat {
    if |r.payload| >= 12 then Get(r.payload[8..12]) else 0
  }

  lemma CommitAnnounces(lsn: nat, count: nat)
    requires lsn < TWO_64 && count < TWO_32
    ensures Announced(Commit(lsn, count)) == count && Framable(Commit(lsn, count))
  {
    Ranges();
    GetPut(count, 4);
    assert Commit(lsn, count).payload[8..12] == Put(count, 4);
  }
}
