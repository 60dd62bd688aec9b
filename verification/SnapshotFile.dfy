/** The snapshot file (internal/snapshot/snapshot.go): magic, LSN, accounts and open holds behind
  * their counts, and a checksum over all of it. */
module SnapshotFile {
  import opened Core
  import opened Bytes
  import opened Frames
  import opened Codec

  /* ----- rows of payloads ----- */

  /** A payload format: every value takes `size` bytes, and decoding undoes encoding. */
  ghost predicate Format<T(!new)>(enc: T -> seq<Byte>, dec: seq<Byte> -> Option<T>, size: nat) {
    && size > 0
    && (forall x :: |enc(x)| == size && dec(enc(x)) == Some(x))
    && (forall b :: dec(b).Some? <==> |b| == size)
  }

  function EncodeAll<T>(enc: T -> seq<Byte>, xs: seq<T>): seq<Byte> {
    if xs == [] then [] else EncodeAll(enc, xs[..|xs| - 1]) + enc(xs[|xs| - 1])
  }

  lemma EncodeNone<T>(enc: T -> seq<Byte>)
    ensures EncodeAll(enc, []) == []
  {
  }

  lemma EncodeNext<T>(enc: T -> seq<Byte>, xs: seq<T>, i: nat)
    requires i < |xs|
    ensures EncodeAll(enc, xs[..i + 1]) == EncodeAll(enc, xs[..i]) + enc(xs[i])
  {
    assert xs[..i + 1][..i] == xs[..i];
  }

  /** `n` payloads from the start of the bytes. */
  function DecodeAll<T>(dec: seq<Byte> -> Option<T>, size: nat, b: seq<Byte>, n: nat): Option<seq<T>>
    requires |b| == n * size
  {
    if n == 0 then Some([])
    else
      var at := (n - 1) * size;
      match (DecodeAll(dec, size, b[..at], n - 1), dec(b[at..]))
      case (Some(xs), Some(x)) => Some(xs + [x])
      case _ => None
  }

  lemma {:induction false} EncodedLength<T(!new)>(enc: T -> seq<Byte>, dec: seq<Byte> -> Option<T>, size: nat,
                                           xs: seq<T>)
    requires Format(enc, dec, size)
    ensures |EncodeAll(enc, xs)| == |xs| * size
  {
    if xs != [] {
      EncodedLength(enc, dec, size, xs[..|xs| - 1]);
      OneMoreRow(|xs| - 1, size);
    }
  }

  lemma OneMoreRow(n: nat, size: nat)
    ensures (n + 1) * size == n * size + size
  {
  }

  lemma {:induction false} DecodeEncoded<T(!new)>(enc: T -> seq<Byte>, dec: seq<Byte> -> Option<T>, size: nat,
                                           xs: seq<T>)
    requires Format(enc, dec, size)
    ensures |EncodeAll(enc, xs)| == |xs| * size
    ensures DecodeAll(dec, size, EncodeAll(enc, xs), |xs|) == Some(xs)
  {
    EncodedLength(enc, dec, size, xs);
    if xs != [] {
      var n := |xs| - 1;
      DecodeEncoded(enc, dec, size, xs[..n]);
      assert xs == xs[..n] + [xs[n]];
      DecodeLast(dec, size, EncodeAll(enc, xs[..n]), enc(xs[n]), n, xs[..n]);
    }
  }

  /** One more row decodes to one more value. */
  lemma DecodeLast<T>(dec: seq<Byte> -> Option<T>, size: nat, rows: seq<Byte>, row: seq<Byte>, n: nat, xs: seq<T>)
    requires |rows| == n * size && |row| == size && DecodeAll(dec, size, rows, n) == Some(xs)
    ensures |rows + row| == (n + 1) * size
    ensures dec(row).Some? ==> DecodeAll(dec, size, rows + row, n + 1) == Some(xs + [dec(row).value])
  {
    OneMoreRow(n, size);
    assert (rows + row)[..|rows|] == rows && (rows + row)[|rows|..] == row;
  }

  /** Decoding never fails on the right number of bytes. */
  lemma {:induction false} DecodeSome<T(!new)>(enc: T -> seq<Byte>, dec: seq<Byte> -> Option<T>, size: nat,
                                        b: seq<Byte>, n: nat)
    requires Format(enc, dec, size) && |b| == n * size
    ensures var r := DecodeAll(dec, size, b, n); r.Some? && |r.value| == n
    decreases n
  {
    if n > 0 {
      OneMoreRow(n - 1, size);
      DecodeSome(enc, dec, size, b[..(n - 1) * size], n - 1);
      assert |b[(n - 1) * size..]| == size;
    }
  }

  lemma TransferSizes(b: seq<Byte>)
    ensures DecodeTransfer(b).Some? <==> |b| == TRANSFER_SIZE
  {
    hide GetRow;
  }

  lemma AccountSizes(b: seq<Byte>)
    ensures DecodeAccount(b).Some? <==> |b| == ACCOUNT_SIZE
  {
    hide GetRow;
  }

  lemma TransferFormat()
    ensures Format(EncodeTransfer, DecodeTransfer, TRANSFER_SIZE)
  {
    hide EncodeTransfer, DecodeTransfer;
    forall t: Transfer
      ensures |EncodeTransfer(t)| == TRANSFER_SIZE && DecodeTransfer(EncodeTransfer(t)) == Some(t)
    {
      TransferRoundTrip(t, []);
    }
    forall b: seq<Byte>
      ensures DecodeTransfer(b).Some? <==> |b| == TRANSFER_SIZE
    {
      TransferSizes(b);
    }
  }

  lemma AccountFormat()
    ensures Format(EncodeAccount, DecodeAccount, ACCOUNT_SIZE)
  {
    hide EncodeAccount, DecodeAccount;
    forall a: Account
      ensures |EncodeAccount(a)| == ACCOUNT_SIZE && DecodeAccount(EncodeAccount(a)) == Some(a)
    {
      AccountRoundTrip(a, []);
    }
    forall b: seq<Byte>
      ensures DecodeAccount(b).Some? <==> |b| == ACCOUNT_SIZE
    {
      AccountSizes(b);
    }
  }

  /* ----- the file ----- */

  /** "LEDGER03". */
  const MAGIC: seq<Byte> := [76, 69, 68, 71, 69, 82, 48, 51]

  datatype Snapshot = Snapshot(lsn: I64, accounts: seq<Account>, pendings: seq<Transfer>)

  function Content(s: Snapshot): seq<Byte> {
    MAGIC + Put(Bits(s.lsn), 8) + Put(|s.accounts|, 8) + EncodeAll(EncodeAccount, s.accounts)
      + Put(|s.pendings|, 8) + EncodeAll(EncodeTransfer, s.pendings)
  }

  function FileOf(crc: Checksum, s: Snapshot): seq<Byte> {
    Content(s) + Put(crc(Content(s)), 4)
  }

  /** Write: every part goes to the file and to the running checksum, which ends the file. */
  method Write(crc: Checksum, s: Snapshot) returns (file: seq<Byte>)
    ensures file == FileOf(crc, s)
  {
    hide Put, EncodeAccount, EncodeTransfer, EncodeAll, Bits;
    EncodeNone(EncodeAccount);
    EncodeNone(EncodeTransfer);
    assert s.accounts[..0] == [] && s.pendings[..0] == [];
    file := MAGIC;
    file := file + Put(Bits(s.lsn), 8);
    file := file + Put(|s.accounts|, 8);
    ghost var head := file;
    for i := 0 to |s.accounts|
      invariant file == head + EncodeAll(EncodeAccount, s.accounts[..i])
    {
      EncodeNext(EncodeAccount, s.accounts, i);
      file := AppendAccountPayload(file, s.accounts[i]);
    }
    assert s.accounts[..|s.accounts|] == s.accounts;
    file := file + Put(|s.pendings|, 8);
    head := file;
    for i := 0 to |s.pendings|
      invariant file == head + EncodeAll(EncodeTransfer, s.pendings[..i])
    {
      EncodeNext(EncodeTransfer, s.pendings, i);
      file := AppendTransferPayload(file, s.pendings[i]);
    }
    assert s.pendings[..|s.pendings|] == s.pendings;
    var checksum := crc(file);
    file := file + Put(checksum, 4);
  }

  /** Outcomes of Read.  Crash: the byte counts agree only modulo 2^64 and the allocation for them
    * fails. */
  datatype Loaded = Loaded(snapshot: Snapshot) | InvalidSize | Corrupted | InvalidMagic | Crash

  /** Where the count of holds is, computed in 64 bits. */
  function HoldsAt(count: nat): nat { (24 + count * ACCOUNT_SIZE) % TWO_64 }

  /** That offset leaves room for the count below 2^64: it is 24 more than a multiple of 128. */
  lemma HoldsAtFits(count: nat)
    ensures HoldsAt(count) + 8 < TWO_64
  {
    var m := TWO_64 / ACCOUNT_SIZE;
    var q, r := count / m, count % m;
    assert count == q * m + r;
    assert 24 + count * ACCOUNT_SIZE == (24 + r * ACCOUNT_SIZE) + q * TWO_64;
  }

  function Read(crc: Checksum, data: seq<Byte>): Loaded {
    if |data| < 36 then InvalidSize else
    var content := data[..|data| - 4];
    if Get(data[|data| - 4..]) != crc(content) then Corrupted else
    if data[..8] != MAGIC then InvalidMagic else
    var lsn := ToI64(Get(data[8..16]));
    var count := Get(data[16..24]);
    var pendOff := HoldsAt(count);
    if |content| < (pendOff + 8) % TWO_64 then InvalidSize else
    HoldsAtFits(count);
    var pending := Get(data[pendOff..pendOff + 8]);
    if |content| != (pendOff + 8 + pending * TRANSFER_SIZE) % TWO_64 then InvalidSize else
    if 24 + count * ACCOUNT_SIZE != pendOff || |content| != pendOff + 8 + pending * TRANSFER_SIZE then Crash else
    match (DecodeAll(DecodeAccount, ACCOUNT_SIZE, data[24..pendOff], count),
           DecodeAll(DecodeTransfer, TRANSFER_SIZE, data[pendOff + 8..|content|], pending))
    case (Some(accounts), Some(pendings)) => Loaded(Snapshot(lsn, accounts, pendings))
    case _ => InvalidSize
  }

  /** Length, checksum and magic are right. */
  predicate Intact(crc: Checksum, data: seq<Byte>) {
    && |data| >= 36
    && Get(data[|data| - 4..]) == crc(data[..|data| - 4])
    && data[..8] == MAGIC
  }

  /** Read crashes if and only if the file is intact and its size is right modulo 2^64 but not in
    * fact; it loads a snapshot if and only if the file is intact and its size is right. */
  lemma ReadExactly(crc: Checksum, data: seq<Byte>)
    ensures Read(crc, data) == Crash <==>
              && Intact(crc, data)
              && var n, count := |data| - 4, Get(data[16..24]);
                 var off := HoldsAt(count);
                 && off + 8 <= n
                 && var pending := Get(data[off..off + 8]);
                    && (off + 8 + pending * TRANSFER_SIZE) % TWO_64 == n
                    && 32 + count * ACCOUNT_SIZE + pending * TRANSFER_SIZE != n
    ensures Read(crc, data).Loaded? <==>
              && Intact(crc, data)
              && var n, count := |data| - 4, Get(data[16..24]);
                 && 32 + count * ACCOUNT_SIZE <= n < TWO_64
                 && var off := 24 + count * ACCOUNT_SIZE;
                    n == off + 8 + Get(data[off..off + 8]) * TRANSFER_SIZE
  {
    hide Get, DecodeAll, DecodeAccount, DecodeTransfer, Format, HoldsAt;
    if Intact(crc, data) {
      var n, count := |data| - 4, Get(data[16..24]);
      var off := HoldsAt(count);
      HoldsAtFits(count);
      HoldsAtIs(count);
      AccountFormat();
      TransferFormat();
      if off + 8 <= n {
        var pending := Get(data[off..off + 8]);
        if 24 + count * ACCOUNT_SIZE == off && n == off + 8 + pending * TRANSFER_SIZE {
          DecodeSome(EncodeAccount, DecodeAccount, ACCOUNT_SIZE, data[24..off], count);
          DecodeSome(EncodeTransfer, DecodeTransfer, TRANSFER_SIZE, data[off + 8..n], pending);
        }
      }
    }
  }

  lemma HoldsAtIs(count: nat)
    ensures HoldsAt(count) <= 24 + count * ACCOUNT_SIZE
    ensures 24 + count * ACCOUNT_SIZE < TWO_64 ==> HoldsAt(count) == 24 + count * ACCOUNT_SIZE
  {
  }

  /** Where the parts of a file are. */
  lemma FileParts(crc: Checksum, s: Snapshot)
    ensures var data, n, m := FileOf(crc, s), |s.accounts| * ACCOUNT_SIZE, |s.pendings| * TRANSFER_SIZE;
            && |data| == 36 + n + m && data[..|data| - 4] == Content(s)
            && data[|data| - 4..] == Put(crc(Content(s)), 4)
            && data[..8] == MAGIC && data[8..16] == Put(Bits(s.lsn), 8) && data[16..24] == Put(|s.accounts|, 8)
            && data[24..24 + n] == EncodeAll(EncodeAccount, s.accounts)
            && data[24 + n..32 + n] == Put(|s.pendings|, 8)
            && data[32 + n..|data| - 4] == EncodeAll(EncodeTransfer, s.pendings)
  {
    hide Put, EncodeAll, EncodeAccount, DecodeAccount, EncodeTransfer, DecodeTransfer, Bits, Format;
    AccountFormat();
    TransferFormat();
    EncodedLength(EncodeAccount, DecodeAccount, ACCOUNT_SIZE, s.accounts);
    EncodedLength(EncodeTransfer, DecodeTransfer, TRANSFER_SIZE, s.pendings);
    var data, n := FileOf(crc, s), |s.accounts| * ACCOUNT_SIZE;
    assert data[..|data| - 4] == Content(s);
    assert data[..8] == MAGIC;
    assert data[8..16] == Put(Bits(s.lsn), 8);
    assert data[16..24] == Put(|s.accounts|, 8);
    assert data[24 + n..32 + n] == Put(|s.pendings|, 8);
  }

  /** Reading what was written gives the snapshot back, for every snapshot whose file fits in 64
    * bits of length. */
  lemma ReadWritten(crc: Checksum, s: Snapshot)
    requires |FileOf(crc, s)| < TWO_64
    ensures Read(crc, FileOf(crc, s)) == Loaded(s)
  {
    hide Get, Put, Range, EncodeAll, DecodeAll, EncodeAccount, DecodeAccount, EncodeTransfer, DecodeTransfer, Content,
      FileOf, Format;
    AccountFormat();
    TransferFormat();
    DecodeEncoded(EncodeAccount, DecodeAccount, ACCOUNT_SIZE, s.accounts);
    DecodeEncoded(EncodeTransfer, DecodeTransfer, TRANSFER_SIZE, s.pendings);
    FileParts(crc, s);
    Ranges();
    GetPut(crc(Content(s)), 4);
    GetPut(Bits(s.lsn), 8);
    GetPut(|s.accounts|, 8);
    GetPut(|s.pendings|, 8);
  }

  /** Read as the loops that fill the two slices. */
  method ReadFile(crc: Checksum, data: seq<Byte>) returns (r: Loaded)
    ensures r == Read(crc, data)
  {
    hide Get, DecodeAll, DecodeAccount, DecodeTransfer;
    if |data| < 36 { return InvalidSize; }
    var content := data[..|data| - 4];
    if Get(data[|data| - 4..]) != crc(content) { return Corrupted; }
    if data[..8] != MAGIC { return InvalidMagic; }
    var lsn := ToI64(Get(data[8..16]));
    var count := Get(data[16..24]);
    var pendOff := HoldsAt(count);
    if |content| < (pendOff + 8) % TWO_64 { return InvalidSize; }
    HoldsAtFits(count);
    var pending := Get(data[pendOff..pendOff + 8]);
    if |content| != (pendOff + 8 + pending * TRANSFER_SIZE) % TWO_64 { return InvalidSize; }
    if 24 + count * ACCOUNT_SIZE != pendOff || |content| != pendOff + 8 + pending * TRANSFER_SIZE { return Crash; }
    var accounts := ReadAccounts(data[24..pendOff], count);
    var pendings := ReadTransfers(data[pendOff + 8..|content|], pending);
    r := Loaded(Snapshot(lsn, accounts, pendings));
  }

  method ReadAccounts(b: seq<Byte>, n: nat) returns (xs: seq<Account>)
    requires |b| == n * ACCOUNT_SIZE
    ensures DecodeAll(DecodeAccount, ACCOUNT_SIZE, b, n) == Some(xs)
  {
    hide DecodeAccount, DecodeAll;
    xs := [];
    DecodeNone(DecodeAccount, ACCOUNT_SIZE, b[..0]);
    var at: nat := 0;
    for i := 0 to n
      invariant at == i * ACCOUNT_SIZE <= |b|
      invariant DecodeAll(DecodeAccount, ACCOUNT_SIZE, b[..at], i) == Some(xs)
    {
      assert at + ACCOUNT_SIZE == (i + 1) * ACCOUNT_SIZE <= n * ACCOUNT_SIZE;
      var x := DecodeAccountPayload(b[at..at + ACCOUNT_SIZE]);
      AccountSizes(b[at..at + ACCOUNT_SIZE]);
      DecodeNext(DecodeAccount, ACCOUNT_SIZE, b, i, xs, x);
      xs := xs + [x.value];
      at := at + ACCOUNT_SIZE;
    }
    assert b[..at] == b;
  }

  method ReadTransfers(b: seq<Byte>, n: nat) returns (xs: seq<Transfer>)
    requires |b| == n * TRANSFER_SIZE
    ensures DecodeAll(DecodeTransfer, TRANSFER_SIZE, b, n) == Some(xs)
  {
    hide DecodeTransfer, DecodeAll;
    xs := [];
    DecodeNone(DecodeTransfer, TRANSFER_SIZE, b[..0]);
    var at: nat := 0;
    for i := 0 to n
      invariant at == i * TRANSFER_SIZE <= |b|
      invariant DecodeAll(DecodeTransfer, TRANSFER_SIZE, b[..at], i) == Some(xs)
    {
      assert at + TRANSFER_SIZE == (i + 1) * TRANSFER_SIZE <= n * TRANSFER_SIZE;
      var x := DecodeTransferPayload(b[at..at + TRANSFER_SIZE]);
      TransferSizes(b[at..at + TRANSFER_SIZE]);
      DecodeNext(DecodeTransfer, TRANSFER_SIZE, b, i, xs, x);
      xs := xs + [x.value];
      at := at + TRANSFER_SIZE;
    }
    assert b[..at] == b;
  }

  lemma DecodeNone<T>(dec: seq<Byte> -> Option<T>, size: nat, b: seq<Byte>)
    requires b == []
    ensures DecodeAll(dec, size, b, 0) == Some([])
  {
  }

  lemma DecodeNext<T>(dec: seq<Byte> -> Option<T>, size: nat, b: seq<Byte>, i: nat, xs: seq<T>, x: Option<T>)
    requires (i + 1) * size <= |b| && i * size + size == (i + 1) * size
    requires DecodeAll(dec, size, b[..i * size], i) == Some(xs) && dec(b[i * size..i * size + size]) == x && x.Some?
    ensures DecodeAll(dec, size, b[..(i + 1) * size], i + 1) == Some(xs + [x.value])
  {
    hide DecodeAll;
    var at, end := i * size, (i + 1) * size;
    SliceJoin(b, at, end);
    DecodeLast(dec, size, b[..at], b[at..end], i, xs);
  }

  lemma SliceJoin(b: seq<Byte>, at: nat, end: nat)
    requires at <= end <= |b|
    ensures b[..at] + b[at..end] == b[..end]
  {
  }

  /** A file with a correct checksum whose account count wraps the size computation. */
  lemma HugeCountCrashes(crc: Checksum)
    ensures exists data :: Read(crc, data) == Crash
  {
    hide Get, Put, Range;
    var count := 0x200_0000_0000_0000;
    var content := MAGIC + Put(0, 8) + Put(count, 8) + Put(0, 8);
    var data := content + Put(crc(content), 4);
    assert data[..|data| - 4] == content && data[|data| - 4..] == Put(crc(content), 4);
    assert data[..8] == MAGIC && data[16..24] == Put(count, 8) && data[24..32] == Put(0, 8);
    Ranges();
    GetPut(crc(content), 4);
    GetPut(count, 8);
    GetPut(0, 8);
    assert Read(crc, data) == Crash;
  }
}
