/** Where everything is, byte by byte: transfer and account payloads (internal/core/codec.go), WAL
  * frames and commit markers (internal/wal/record.go), snapshot files (internal/snapshot/snapshot.go). */
module Layouts {
  import opened Core
  import opened Bytes
  import opened Codec
  import opened Frames
  import opened Machine
  import opened SnapshotFile
  import opened Restart

  /** The byte at `at + i` is digit `i` of the `width` digits of `n` to the base 256, the most significant
    * first. */
  predicate Digit(b: seq<Byte>, at: nat, width: nat, n: nat, i: nat)
    requires i < width && at + width <= |b|
  {
    b[at + i] == n / Range(width - 1 - i) % 256
  }

  predicate Digits(b: seq<Byte>, at: nat, width: nat, n: nat) {
    at + width <= |b| && forall i | 0 <= i < width :: Digit(b, at, width, n, i)
  }

  lemma {:induction false} PutDigits(n: nat, width: nat)
    ensures Digits(Put(n, width), 0, width, n)
  {
    hide Range;
    if width > 0 {
      PutDigits(n / 256, width - 1);
      forall i | 0 <= i < width
        ensures Digit(Put(n, width), 0, width, n, i)
      {
        if i < width - 1 {
          assert Digit(Put(n / 256, width - 1), 0, width - 1, n / 256, i);
          RangeNext(width - 2 - i);
          Quotients(n, Range(width - 2 - i));
        } else {
          RangeZero();
        }
      }
    }
  }

  lemma RangeNext(k: nat)
    ensures Range(k + 1) == 256 * Range(k)
  {
  }

  lemma RangeZero()
    ensures Range(0) == 1
  {
  }

  /** Dividing by 256 and then by `r` is dividing by both at once. */
  lemma Quotients(n: nat, r: nat)
    requires r > 0
    ensures n / 256 / r == n / (256 * r)
  {
    var q := n / 256;
    var a := q / r;
    assert q == a * r + q % r && n == 256 * q + n % 256;
    var rest := 256 * (q % r) + n % 256;
    assert n == 256 * (a * r) + rest;
    Times(q % r, r);
    assert 0 <= rest < 256 * r;
    Quotient(n, 256 * r, a, rest) by { assert (256 * r) * a == 256 * (a * r); }
  }

  lemma Times(x: nat, r: nat)
    requires x < r
    ensures 256 * x + 256 <= 256 * r
  {
  }

  lemma Quotient(n: nat, d: nat, a: nat, rest: nat)
    requires d > 0 && n == d * a + rest && rest < d
    ensures n / d == a
  {
    var q := n / d;
    assert n == d * q + n % d;
    if q < a { Larger(d, q, a); }
    if a < q { Larger(d, a, q); }
  }

  lemma Distributes(d: nat, x: nat, y: nat)
    ensures d * (x + y) == d * x + d * y && d * y >= 0
  {
  }

  lemma Larger(d: nat, x: nat, y: nat)
    requires x < y
    ensures d * x + d <= d * y
  {
    var z := y - x - 1;
    Distributes(d, x, 1 + z);
    Distributes(d, 1, z);
  }

  /** Digits of a slice are digits of the whole. */
  lemma SliceDigits(b: seq<Byte>, at: nat, width: nat, n: nat)
    requires at + width <= |b| && b[at..at + width] == Put(n, width)
    ensures Digits(b, at, width, n)
  {
    hide Range, Put;
    PutDigits(n, width);
    forall i | 0 <= i < width
      ensures Digit(b, at, width, n, i)
    {
      assert Digit(Put(n, width), 0, width, n, i);
      assert b[at + i] == b[at..at + width][i];
    }
  }

  /* ----- rows ----- */

  /** Where field `i` starts. */
  function Offset(widths: seq<nat>, i: nat): nat
    requires i <= |widths|
  {
    if i == 0 then 0 else Offset(widths, i - 1) + widths[i - 1]
  }

  lemma {:induction false} OffsetFirst(widths: seq<nat>, i: nat)
    requires 0 < i <= |widths|
    ensures Offset(widths, i) == widths[0] + Offset(widths[1..], i - 1)
    decreases i
  {
    if i > 1 { OffsetFirst(widths, i - 1); }
  }

  /** Field `i` of a row. */
  lemma {:induction false} RowField(values: seq<nat>, widths: seq<nat>, i: nat)
    requires |values| == |widths| && i < |widths|
    ensures Digits(PutRow(values, widths), Offset(widths, i), widths[i], values[i])
    decreases i
  {
    hide Range, Put, Digits;
    var b, w := PutRow(values, widths), widths[0];
    var rest := PutRow(values[1..], widths[1..]);
    assert b == Put(values[0], w) + rest;
    if i == 0 {
      assert b[0..0 + w] == Put(values[0], w);
      SliceDigits(b, 0, w, values[0]);
    } else {
      RowField(values[1..], widths[1..], i - 1);
      OffsetFirst(widths, i);
      ShiftDigits(b, w, rest, Offset(widths[1..], i - 1), widths[i], values[i]);
    }
  }

  lemma ShiftDigits(b: seq<Byte>, w: nat, rest: seq<Byte>, at: nat, width: nat, n: nat)
    requires w <= |b| && b[w..] == rest && Digits(rest, at, width, n)
    ensures Digits(b, w + at, width, n)
  {
    hide Range;
    var off := w + at;
    forall i | 0 <= i < width
      ensures Digit(b, off, width, n, i)
    {
      assert Digit(rest, at, width, n, i);
      assert b[off + i] == rest[at + i];
    }
  }

  /** The signed timestamp as an unsigned number. */
  function Unsigned(x: I64): nat { if x >= 0 then x else x + TWO_64 }

  lemma NoOffset(widths: seq<nat>)
    ensures Offset(widths, 0) == 0
  {
  }

  lemma NextOffset(widths: seq<nat>, i: nat, at: nat)
    requires i < |widths| && Offset(widths, i) == at
    ensures Offset(widths, i + 1) == at + widths[i]
  {
  }

  lemma TransferOffsets()
    ensures var w := TRANSFER_ROW;
            && Offset(w, 0) == 0 && Offset(w, 1) == 16 && Offset(w, 2) == 32 && Offset(w, 3) == 48 && Offset(w, 4) == 64
            && Offset(w, 5) == 96 && Offset(w, 6) == 112 && Offset(w, 7) == 120 && Offset(w, 8) == 128
            && Offset(w, 9) == 132 && Offset(w, 10) == 134 && Offset(w, 11) == 136 && Offset(w, 12) == 140
  {
    hide Offset;
    var w := TRANSFER_ROW;
    NoOffset(w);
    NextOffset(w, 0, 0);
    NextOffset(w, 1, 16);
    NextOffset(w, 2, 32);
    NextOffset(w, 3, 48);
    NextOffset(w, 4, 64);
    NextOffset(w, 5, 96);
    NextOffset(w, 6, 112);
    NextOffset(w, 7, 120);
    NextOffset(w, 8, 128);
    NextOffset(w, 9, 132);
    NextOffset(w, 10, 134);
    NextOffset(w, 11, 136);
  }

  lemma TransferField(t: Transfer, i: nat)
    requires i < 13
    ensures Digits(EncodeTransfer(t), Offset(TRANSFER_ROW, i), TRANSFER_ROW[i], TransferFields(t)[i])
  {
    hide Digits, PutRow, Offset;
    RowField(TransferFields(t), TRANSFER_ROW, i);
  }

  /** The 144 bytes of a transfer. */
  lemma TransferLayout(t: Transfer)
    ensures var b := EncodeTransfer(t);
            && |b| == 144
            && Digits(b, 0, 16, t.id) && Digits(b, 16, 16, t.debit) && Digits(b, 32, 16, t.credit)
            && Digits(b, 48, 16, t.amount) && Digits(b, 64, 32, t.key) && Digits(b, 96, 16, t.userData)
            && Digits(b, 112, 8, Unsigned(t.timestamp)) && Digits(b, 120, 8, t.timeout)
            && Digits(b, 128, 4, t.ledger) && Digits(b, 132, 2, t.code) && Digits(b, 134, 2, 0)
            && Digits(b, 136, 4, t.flags) && Digits(b, 140, 4, 0)
  {
    hide Digits, Offset, EncodeTransfer;
    TransferOffsets();
    TransferField(t, 0);
    TransferField(t, 1);
    TransferField(t, 2);
    TransferField(t, 3);
    TransferField(t, 4);
    TransferField(t, 5);
    TransferField(t, 6);
    TransferField(t, 7);
    TransferField(t, 8);
    TransferField(t, 9);
    TransferField(t, 10);
    TransferField(t, 11);
    TransferField(t, 12);
  }

  lemma TransferReadField(b: seq<Byte>, i: nat)
    requires |b| == 144 && i < |TRANSFER_ROW|
    ensures Digits(b, Offset(TRANSFER_ROW, i), TRANSFER_ROW[i], TransferValues(b)[i])
  {
    hide Digits, PutRow, GetRow, Offset;
    TransferWidth();
    PutGetRow(b, TRANSFER_ROW);
    RowField(TransferValues(b), TRANSFER_ROW, i);
  }

  function TransferValues(b: seq<Byte>): (v: seq<nat>)
    requires |b| == 144
    ensures |v| == |TRANSFER_ROW|
  {
    TransferWidth();
    GetRow(b, TRANSFER_ROW)
  }

  lemma ReadTransfer(b: seq<Byte>, t: Transfer)
    requires DecodeTransfer(b) == Some(t)
    ensures |b| == 144
    ensures var v := TransferValues(b); v[0] == t.id && v[1] == t.debit && v[2] == t.credit && v[3] == t.amount
    ensures var v := TransferValues(b); v[4] == t.key && v[5] == t.userData && v[7] == t.timeout && v[8] == t.ledger
    ensures var v := TransferValues(b); v[9] == t.code && v[11] == t.flags && v[6] == Unsigned(t.timestamp)
  {
    hide GetRow, Fits, TransferOf;
    TransferWidth();
    FieldsOf(TransferValues(b), t);
  }

  lemma FieldsOf(v: seq<nat>, t: Transfer)
    requires |v| == 13 && Fits(v, TRANSFER_ROW) && TransferOf(v) == t
    ensures v[0] == t.id && v[1] == t.debit && v[2] == t.credit && v[3] == t.amount && v[4] == t.key
    ensures v[5] == t.userData && v[6] == Unsigned(t.timestamp) && v[7] == t.timeout && v[8] == t.ledger
    ensures v[9] == t.code && v[11] == t.flags
  {
    hide Fits;
    TransferInRange(v);
    UnsignedBack(v[6]);
  }

  lemma UnsignedBack(x: nat)
    requires x < TWO_64
    ensures Unsigned(ToI64(x)) == x
  {
    if x < TWO_63 {
      assert ToI64(x) == x;
    } else {
      assert x + TWO_63 == TWO_64 + (x - TWO_63);
      assert ToI64(x) == x - TWO_64;
    }
  }

  /** What decoding reads where, whatever is in the padding. */
  lemma TransferRead(b: seq<Byte>, t: Transfer)
    requires DecodeTransfer(b) == Some(t)
    ensures Digits(b, 0, 16, t.id) && Digits(b, 16, 16, t.debit) && Digits(b, 32, 16, t.credit)
    ensures Digits(b, 48, 16, t.amount) && Digits(b, 64, 32, t.key) && Digits(b, 96, 16, t.userData)
    ensures Digits(b, 112, 8, Unsigned(t.timestamp)) && Digits(b, 120, 8, t.timeout)
    ensures Digits(b, 128, 4, t.ledger) && Digits(b, 132, 2, t.code) && Digits(b, 136, 4, t.flags)
  {
    hide Digits, Offset, DecodeTransfer;
    ReadTransfer(b, t);
    TransferOffsets();
    TransferReadField(b, 0);
    TransferReadField(b, 1);
    TransferReadField(b, 2);
    TransferReadField(b, 3);
    TransferReadField(b, 4);
    TransferReadField(b, 5);
    TransferReadField(b, 6);
    TransferReadField(b, 7);
    TransferReadField(b, 8);
    TransferReadField(b, 9);
    TransferReadField(b, 11);
  }

  lemma AccountOffsets()
    ensures var w := ACCOUNT_ROW;
            && Offset(w, 0) == 0 && Offset(w, 1) == 16 && Offset(w, 2) == 20 && Offset(w, 3) == 24 && Offset(w, 4) == 26
            && Offset(w, 5) == 28 && Offset(w, 6) == 32 && Offset(w, 7) == 48 && Offset(w, 8) == 64
            && Offset(w, 9) == 80 && Offset(w, 10) == 96 && Offset(w, 11) == 112
  {
    hide Offset;
    var w := ACCOUNT_ROW;
    NoOffset(w);
    NextOffset(w, 0, 0);
    NextOffset(w, 1, 16);
    NextOffset(w, 2, 20);
    NextOffset(w, 3, 24);
    NextOffset(w, 4, 26);
    NextOffset(w, 5, 28);
    NextOffset(w, 6, 32);
    NextOffset(w, 7, 48);
    NextOffset(w, 8, 64);
    NextOffset(w, 9, 80);
    NextOffset(w, 10, 96);
  }

  lemma AccountField(a: Account, i: nat)
    requires i < 12
    ensures Digits(EncodeAccount(a), Offset(ACCOUNT_ROW, i), ACCOUNT_ROW[i], AccountFields(a)[i])
  {
    hide Digits, PutRow, Offset;
    RowField(AccountFields(a), ACCOUNT_ROW, i);
  }

  /** The 128 bytes of an account. */
  lemma AccountLayout(a: Account)
    ensures var b := EncodeAccount(a);
            && |b| == 128
            && Digits(b, 0, 16, a.id) && Digits(b, 16, 4, a.currency) && Digits(b, 20, 4, a.ledger)
            && Digits(b, 24, 2, a.code) && Digits(b, 26, 2, 0) && Digits(b, 28, 4, a.flags)
            && Digits(b, 32, 16, a.userData) && Digits(b, 48, 16, a.postedDebits) && Digits(b, 64, 16, a.postedCredits)
            && Digits(b, 80, 16, a.pendingDebits) && Digits(b, 96, 16, a.pendingCredits) && Digits(b, 112, 16, 0)
  {
    hide Digits, Offset, EncodeAccount;
    AccountOffsets();
    AccountField(a, 0);
    AccountField(a, 1);
    AccountField(a, 2);
    AccountField(a, 3);
    AccountField(a, 4);
    AccountField(a, 5);
    AccountField(a, 6);
    AccountField(a, 7);
    AccountField(a, 8);
    AccountField(a, 9);
    AccountField(a, 10);
    AccountField(a, 11);
  }

  lemma AccountReadField(b: seq<Byte>, i: nat)
    requires |b| == 128 && i < |ACCOUNT_ROW|
    ensures Digits(b, Offset(ACCOUNT_ROW, i), ACCOUNT_ROW[i], AccountValues(b)[i])
  {
    hide Digits, PutRow, GetRow, Offset;
    AccountWidth();
    PutGetRow(b, ACCOUNT_ROW);
    RowField(AccountValues(b), ACCOUNT_ROW, i);
  }

  function AccountValues(b: seq<Byte>): (v: seq<nat>)
    requires |b| == 128
    ensures |v| == |ACCOUNT_ROW|
  {
    AccountWidth();
    GetRow(b, ACCOUNT_ROW)
  }

  lemma ReadAccount(b: seq<Byte>, a: Account)
    requires DecodeAccount(b) == Some(a)
    ensures |b| == 128
    ensures var v := AccountValues(b); v[0] == a.id && v[1] == a.currency && v[2] == a.ledger && v[3] == a.code
    ensures var v := AccountValues(b); v[5] == a.flags && v[6] == a.userData && v[7] == a.postedDebits
    ensures var v := AccountValues(b); v[8] == a.postedCredits && v[9] == a.pendingDebits && v[10] == a.pendingCredits
  {
    hide GetRow, Range;
    AccountWidth();
    AccountInRange(AccountValues(b));
  }

  lemma AccountRead(b: seq<Byte>, a: Account)
    requires DecodeAccount(b) == Some(a)
    ensures Digits(b, 0, 16, a.id) && Digits(b, 16, 4, a.currency) && Digits(b, 20, 4, a.ledger)
    ensures Digits(b, 24, 2, a.code) && Digits(b, 28, 4, a.flags) && Digits(b, 32, 16, a.userData)
    ensures Digits(b, 48, 16, a.postedDebits) && Digits(b, 64, 16, a.postedCredits)
    ensures Digits(b, 80, 16, a.pendingDebits) && Digits(b, 96, 16, a.pendingCredits)
  {
    hide Digits, Offset, DecodeAccount;
    ReadAccount(b, a);
    AccountOffsets();
    AccountReadField(b, 0);
    AccountReadField(b, 1);
    AccountReadField(b, 2);
    AccountReadField(b, 3);
    AccountReadField(b, 5);
    AccountReadField(b, 6);
    AccountReadField(b, 7);
    AccountReadField(b, 8);
    AccountReadField(b, 9);
    AccountReadField(b, 10);
  }

  /* ----- frames ----- */

  /** A frame: LSN, type, payload length, payload, checksum of all that. */
  lemma FrameLayout(crc: Checksum, r: WalRecord)
    ensures var b, n := Frame(crc, r), |r.payload|;
            && |b| == n + 17
            && Digits(b, 0, 8, r.lsn) && b[8] == r.kind && Digits(b, 9, 4, n) && b[13..13 + n] == r.payload
            && Digits(b, 13 + n, 4, crc(b[..13 + n]))
  {
    hide Digits, Put;
    var b, n := Frame(crc, r), |r.payload|;
    assert b[0..8] == Put(r.lsn, 8) && b[9..13] == Put(n, 4) && b[13..13 + n] == r.payload;
    assert b[..13 + n] == Body(r) && b[13 + n..13 + n + 4] == Put(crc(Body(r)), 4);
    SliceDigits(b, 0, 8, r.lsn);
    SliceDigits(b, 9, 4, n);
    SliceDigits(b, 13 + n, 4, crc(Body(r)));
  }

  /** A commit marker is of type 4, and its payload is its LSN and the number of records. */
  lemma CommitLayout(lsn: nat, count: nat)
    ensures var c := Commit(lsn, count);
            && c.lsn == lsn && c.kind == 4 && |c.payload| == 12
            && Digits(c.payload, 0, 8, lsn) && Digits(c.payload, 8, 4, count)
  {
    hide Digits, Put;
    var p := Commit(lsn, count).payload;
    assert p[0..8] == Put(lsn, 8) && p[8..12] == Put(count, 4);
    SliceDigits(p, 0, 8, lsn);
    SliceDigits(p, 8, 4, count);
  }

  /** Transfers are journaled under type 1 and accounts under type 2. */
  lemma RecordTypes(r: Record)
    ensures match r
            case TransferRecord(t) => ItemOf(r).kind == 1 && ItemOf(r).payload == EncodeTransfer(t)
            case AccountRecord(a) => ItemOf(r).kind == 2 && ItemOf(r).payload == EncodeAccount(a)
  {
  }

  /** What the replay handler makes of a record: type 2 is an account of 128 bytes, type 1 a transfer of
    * 144, other types are passed over. */
  lemma HandleExactly(s: State, w: WalRecord)
    ensures w.kind == 2 && |w.payload| != 128 ==> Handle(s, w) == Applied(s, Some(InvalidAccountPayload))
    ensures w.kind == 1 && |w.payload| != 144 ==> Handle(s, w) == Applied(s, Some(InvalidTransferPayload))
    ensures w.kind !in {1, 2} ==> Handle(s, w) == Applied(s, None)
    ensures w.kind == 2 && |w.payload| == 128 ==>
              && DecodeAccount(w.payload).Some?
              && Handle(s, w) == ReplayRecord(s, AccountRecord(DecodeAccount(w.payload).value))
    ensures w.kind == 1 && |w.payload| == 144 ==>
              && DecodeTransfer(w.payload).Some?
              && Handle(s, w) == ReplayRecord(s, TransferRecord(DecodeTransfer(w.payload).value))
  {
    hide GetRow, ReplayRecord;
  }

  /* ----- snapshot files ----- */

  /** A snapshot file: LEDGER03, the LSN, the accounts with their number before them, the holds with
    * theirs, the checksum of all that. */
  lemma SnapshotLayout(crc: Checksum, s: Snapshot)
    ensures var f, n, m := FileOf(crc, s), |s.accounts|, |s.pendings|;
            && |f| == 36 + 128 * n + 144 * m
            && f[..8] == [76, 69, 68, 71, 69, 82, 48, 51]
            && Digits(f, 8, 8, Unsigned(s.lsn)) && Digits(f, 16, 8, n) && Digits(f, 24 + 128 * n, 8, m)
            && Digits(f, |f| - 4, 4, crc(f[..|f| - 4]))
    ensures var f, n, m := FileOf(crc, s), |s.accounts|, |s.pendings|;
            && (forall i | 0 <= i < n :: Slot(f, 24, 128, i) == EncodeAccount(s.accounts[i]))
            && (forall i | 0 <= i < m :: Slot(f, 32 + 128 * n, 144, i) == EncodeTransfer(s.pendings[i]))
  {
    hide Digits, Put, EncodeAll, EncodeAccount, EncodeTransfer, FileOf, Content, DecodeAccount, DecodeTransfer, Format;
    var f, n, m := FileOf(crc, s), |s.accounts|, |s.pendings|;
    FileParts(crc, s);
    assert f[0..8] == f[..8];
    SliceDigits(f, 8, 8, Unsigned(s.lsn));
    SliceDigits(f, 16, 8, n);
    SliceDigits(f, 24 + 128 * n, 8, m);
    assert f[|f| - 4..] == f[|f| - 4..|f| - 4 + 4];
    SliceDigits(f, |f| - 4, 4, crc(Content(s)));
    AccountFormat();
    TransferFormat();
    forall i | 0 <= i < n
      ensures Slot(f, 24, 128, i) == EncodeAccount(s.accounts[i])
    {
      RowOf(EncodeAccount, DecodeAccount, 128, s.accounts, i);
      SlotOf(f, 24, 128, n, i);
    }
    forall i | 0 <= i < m
      ensures Slot(f, 32 + 128 * n, 144, i) == EncodeTransfer(s.pendings[i])
    {
      RowOf(EncodeTransfer, DecodeTransfer, 144, s.pendings, i);
      SlotOf(f, 32 + 128 * n, 144, m, i);
    }
  }

  /** Why a file is refused: shorter than 36 bytes, then a checksum that is not that of the rest, then a
    * first word other than LEDGER03. */
  lemma SnapshotRefused(crc: Checksum, data: seq<Byte>)
    ensures |data| < 36 ==> Read(crc, data) == InvalidSize
    ensures Read(crc, data) == Corrupted <==> |data| >= 36 && Get(data[|data| - 4..]) != crc(data[..|data| - 4])
    ensures Read(crc, data) == InvalidMagic <==>
              && |data| >= 36 && Get(data[|data| - 4..]) == crc(data[..|data| - 4])
              && data[..8] != [76, 69, 68, 71, 69, 82, 48, 51]
  {
    hide Get, DecodeAll, DecodeAccount, DecodeTransfer, HoldsAt;
    if |data| >= 36 { HoldsAtFits(Get(data[16..24])); }
  }

  /** Row `i` of rows of `size` bytes from `at` on. */
  function Slot(f: seq<Byte>, at: nat, size: nat, i: nat): seq<Byte> {
    if at + size * i + size <= |f| then f[at + size * i..at + size * i + size] else []
  }

  lemma SlotOf(f: seq<Byte>, at: nat, size: nat, n: nat, i: nat)
    requires i < n && at + n * size <= |f|
    ensures i * size + size <= n * size
    ensures Slot(f, at, size, i) == f[at..at + n * size][i * size..i * size + size]
  {
    Larger(size, i, n);
    assert i * size == size * i && n * size == size * n;
    SliceOfSlice(f, at, n * size, i * size, i * size + size);
  }

  lemma SliceOfSlice(f: seq<Byte>, at: nat, n: nat, from: nat, to: nat)
    requires from <= to <= n && at + n <= |f|
    ensures f[at..at + n][from..to] == f[at + from..at + to]
  {
    var xs, ys := f[at..at + n][from..to], f[at + from..at + to];
    assert |xs| == |ys|;
    forall i | 0 <= i < |xs|
      ensures xs[i] == ys[i]
    {
      assert xs[i] == f[at..at + n][from + i];
    }
  }

  lemma {:induction false} RowOf<T(!new)>(enc: T -> seq<Byte>, dec: seq<Byte> -> Option<T>, size: nat, xs: seq<T>,
                                          i: nat)
    requires Format(enc, dec, size) && i < |xs|
    ensures |EncodeAll(enc, xs)| == |xs| * size && i * size + size <= |xs| * size
    ensures EncodeAll(enc, xs)[i * size..i * size + size] == enc(xs[i])
  {
    hide EncodeAll;
    var n := |xs| - 1;
    EncodedLength(enc, dec, size, xs);
    EncodedLength(enc, dec, size, xs[..n]);
    EncodeNext(enc, xs, n);
    assert xs[..n + 1] == xs;
    OneMoreRow(n, size);
    Larger(size, i, |xs|);
    assert i * size == size * i && |xs| * size == size * |xs|;
    if i < n {
      RowOf(enc, dec, size, xs[..n], i);
      assert EncodeAll(enc, xs)[i * size..i * size + size] == EncodeAll(enc, xs[..n])[i * size..i * size + size];
    }
  }
}
