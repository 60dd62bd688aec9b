/** The fixed-size payloads of transfers and accounts (internal/core/codec.go).  A payload is a row
  * of big-endian fields; fields that are padding are written as zero and not looked at. */
module Codec {
  import opened Core
  import opened Bytes

  /* ----- rows of fields ----- */

  function Width(widths: seq<nat>): nat {
    if widths == [] then 0 else widths[0] + Width(widths[1..])
  }

  lemma WidthNone(widths: seq<nat>)
    requires widths == []
    ensures Width(widths) == 0
  {
  }

  lemma WidthFrom(row: seq<nat>, i: nat)
    requires i < |row|
    ensures Width(row[i..]) == row[i] + Width(row[i + 1..])
  {
    assert row[i..][1..] == row[i + 1..];
  }

  lemma WidthFour(row: seq<nat>, i: nat)
    requires i + 4 <= |row|
    ensures Width(row[i..]) == row[i] + row[i + 1] + row[i + 2] + row[i + 3] + Width(row[i + 4..])
  {
    hide Width;
    WidthFrom(row, i);
    WidthFrom(row, i + 1);
    WidthFrom(row, i + 2);
    WidthFrom(row, i + 3);
  }

  predicate Fits(values: seq<nat>, widths: seq<nat>) {
    |values| == |widths| && forall i | 0 <= i < |widths| :: values[i] < Range(widths[i])
  }

  function PutRow(values: seq<nat>, widths: seq<nat>): (b: seq<Byte>)
    requires |values| == |widths|
    ensures |b| == Width(widths)
  {
    if widths == [] then [] else Put(values[0], widths[0]) + PutRow(values[1..], widths[1..])
  }

  function GetRow(b: seq<Byte>, widths: seq<nat>): (values: seq<nat>)
    requires |b| == Width(widths)
    ensures Fits(values, widths)
    decreases |widths|
  {
    if widths == [] then []
    else [Get(b[..widths[0]])] + GetRow(b[widths[0]..], widths[1..])
  }

  lemma {:induction false} GetPutRow(values: seq<nat>, widths: seq<nat>)
    requires Fits(values, widths)
    ensures GetRow(PutRow(values, widths), widths) == values
    decreases |widths|
  {
    hide Get, Put, Range;
    if widths != [] {
      var w := widths[0];
      GetPut(values[0], w);
      GetPutRow(values[1..], widths[1..]);
      var b := PutRow(values, widths);
      assert b[..w] == Put(values[0], w) && b[w..] == PutRow(values[1..], widths[1..]);
    }
  }

  lemma {:induction false} PutGetRow(b: seq<Byte>, widths: seq<nat>)
    requires |b| == Width(widths)
    ensures PutRow(GetRow(b, widths), widths) == b
    decreases |widths|
  {
    hide Get, Put, Range;
    if widths != [] {
      var w, v := widths[0], GetRow(b, widths);
      var rest := GetRow(b[w..], widths[1..]);
      PutGet(b[..w]);
      PutGetRow(b[w..], widths[1..]);
      assert v == [Get(b[..w])] + rest && v[0] == Get(b[..w]) && v[1..] == rest;
      assert PutRow(v, widths) == b[..w] + b[w..] == b;
    }
  }

  function Zeros(n: nat): (b: seq<Byte>)
    ensures |b| == n
  {
    seq(n, i => 0)
  }

  /** Append zeros, then step through them and fill in one field after the other. */
  method AppendRow(dst: seq<Byte>, values: seq<nat>, widths: seq<nat>) returns (b: seq<Byte>)
    requires |values| == |widths|
    ensures b == dst + PutRow(values, widths)
  {
    b := dst + Zeros(Width(widths));
    var off := |dst|;
    ghost var done: seq<Byte> := dst;
    assert values[0..] == values && widths[0..] == widths;
    for i := 0 to |widths|
      invariant off == |done| && b == done + Zeros(Width(widths[i..]))
      invariant dst + PutRow(values, widths) == done + PutRow(values[i..], widths[i..])
    {
      var w := widths[i];
      assert widths[i..][1..] == widths[i + 1..] && values[i..][1..] == values[i + 1..];
      b := b[..off] + Put(values[i], w) + b[off + w..];
      off := off + w;
      done := done + Put(values[i], w);
    }
  }

  /** Step through the bytes and read one field after the other. */
  method ReadRow(b: seq<Byte>, widths: seq<nat>) returns (values: seq<nat>)
    requires |b| == Width(widths)
    ensures values == GetRow(b, widths)
  {
    hide Get, Width, GetRow, Fits;
    values := [];
    var off := 0;
    assert b[0..] == b && widths[0..] == widths;
    for i := 0 to |widths|
      invariant 0 <= off <= |b| && |b| - off == Width(widths[i..])
      invariant GetRow(b, widths) == values + GetRow(b[off..], widths[i..])
    {
      var w := widths[i];
      WidthFrom(widths, i);
      RowFrom(b[off..], widths, i);
      assert b[off..][w..] == b[off + w..] && b[off..][..w] == b[off..off + w];
      values := values + [Get(b[off..off + w])];
      off := off + w;
    }
    RowNone(b[off..], widths[|widths|..]);
  }

  lemma RowFrom(b: seq<Byte>, row: seq<nat>, i: nat)
    requires i < |row| && |b| == Width(row[i..])
    ensures var w := row[i];
            && w <= |b| && |b| - w == Width(row[i + 1..])
            && GetRow(b, row[i..]) == [Get(b[..w])] + GetRow(b[w..], row[i + 1..])
  {
    assert row[i..][1..] == row[i + 1..];
  }

  lemma RowNone(b: seq<Byte>, row: seq<nat>)
    requires row == [] && |b| == Width(row)
    ensures GetRow(b, row) == []
  {
  }

  /* ----- transfers ----- */

  const TRANSFER_SIZE: nat := 144

  /** id, debit, credit, amount, key, user data, timestamp, timeout, ledger, code, padding, flags,
    * padding. */
  const TRANSFER_ROW: seq<nat> := [16, 16, 16, 16, 32, 16, 8, 8, 4, 2, 2, 4, 4]

  /** A signed number as the 64 bits that represent it. */
  function Bits(x: I64): U64 { x % TWO_64 }

  function TransferFields(t: Transfer): (v: seq<nat>)
    ensures |v| == |TRANSFER_ROW|
  {
    [t.id, t.debit, t.credit, t.amount, t.key, t.userData, Bits(t.timestamp), t.timeout,
     t.ledger, t.code, 0, t.flags, 0]
  }

  lemma TransferFits(t: Transfer)
    ensures Fits(TransferFields(t), TRANSFER_ROW)
  {
    hide Range;
    Ranges();
  }

  lemma TransferInRange(v: seq<nat>)
    requires Fits(v, TRANSFER_ROW)
    ensures v[0] < TWO_128 && v[1] < TWO_128 && v[2] < TWO_128 && v[3] < TWO_128 && v[4] < TWO_256 && v[5] < TWO_128
    ensures v[6] < TWO_64 && v[7] < TWO_64 && v[8] < TWO_32 && v[9] < TWO_16 && v[11] < TWO_32
  {
    hide Range;
    Ranges();
  }

  function TransferOf(v: seq<nat>): Transfer
    requires Fits(v, TRANSFER_ROW)
  {
    TransferInRange(v);
    Transfer(v[0], v[1], v[2], v[3], v[4], v[5], ToI64(v[6]), v[7], v[8], v[9], v[11])
  }

  lemma TransferWidth()
    ensures Width(TRANSFER_ROW) == TRANSFER_SIZE
  {
    hide Width;
    assert TRANSFER_ROW[0..] == TRANSFER_ROW;
    WidthFour(TRANSFER_ROW, 0);
    WidthFour(TRANSFER_ROW, 4);
    WidthFour(TRANSFER_ROW, 8);
    WidthFrom(TRANSFER_ROW, 12);
    WidthNone(TRANSFER_ROW[13..]);
  }

  function EncodeTransfer(t: Transfer): (b: seq<Byte>)
    ensures |b| == TRANSFER_SIZE
  {
    TransferWidth();
    PutRow(TransferFields(t), TRANSFER_ROW)
  }

  function DecodeTransfer(b: seq<Byte>): Option<Transfer> {
    if |b| != TRANSFER_SIZE then None
    else
      TransferWidth();
      Some(TransferOf(GetRow(b, TRANSFER_ROW)))
  }

  method AppendTransferPayload(dst: seq<Byte>, t: Transfer) returns (b: seq<Byte>)
    ensures b == dst + EncodeTransfer(t)
  {
    hide PutRow;
    b := AppendRow(dst, TransferFields(t), TRANSFER_ROW);
  }

  method DecodeTransferPayload(b: seq<Byte>) returns (t: Option<Transfer>)
    ensures t == DecodeTransfer(b)
  {
    hide GetRow, Fits;
    if |b| != TRANSFER_SIZE { return None; }
    TransferWidth();
    var v := ReadRow(b, TRANSFER_ROW);
    t := Some(TransferOf(v));
  }

  /** The padding of a payload is zero. */
  predicate TransferPadded(b: seq<Byte>)
    requires |b| == TRANSFER_SIZE
  {
    TransferWidth();
    var v := GetRow(b, TRANSFER_ROW);
    v[10] == 0 && v[12] == 0
  }

  lemma TransferFieldsBack(v: seq<nat>, t: Transfer)
    requires Fits(v, TRANSFER_ROW)
    ensures TransferOf(v) == t && v[10] == 0 && v[12] == 0 <==> v == TransferFields(t)
  {
    hide Range;
    Ranges();
  }

  /** Decoding accepts exactly the payloads of 144 bytes, undoes encoding, and loses only the
    * padding: a payload is what encoding writes exactly when its padding is zero. */
  lemma TransferRoundTrip(t: Transfer, b: seq<Byte>)
    ensures DecodeTransfer(EncodeTransfer(t)) == Some(t)
    ensures DecodeTransfer(b).Some? <==> |b| == TRANSFER_SIZE
    ensures b == EncodeTransfer(t) <==> DecodeTransfer(b) == Some(t) && TransferPadded(b)
  {
    hide PutRow, GetRow, TransferFields, TransferOf, Fits;
    TransferWidth();
    TransferFits(t);
    var v := TransferFields(t);
    GetPutRow(v, TRANSFER_ROW);
    TransferFieldsBack(v, t);
    if |b| == TRANSFER_SIZE {
      PutGetRow(b, TRANSFER_ROW);
      TransferFieldsBack(GetRow(b, TRANSFER_ROW), t);
    }
  }

  /* ----- accounts ----- */

  const ACCOUNT_SIZE: nat := 128

  /** id, currency, ledger, code, padding, flags, user data, the four totals, reserved bytes. */
  const ACCOUNT_ROW: seq<nat> := [16, 4, 4, 2, 2, 4, 16, 16, 16, 16, 16, 16]

  function AccountFields(a: Account): (v: seq<nat>)
    ensures |v| == |ACCOUNT_ROW|
  {
    [a.id, a.currency, a.ledger, a.code, 0, a.flags, a.userData,
     a.postedDebits, a.postedCredits, a.pendingDebits, a.pendingCredits, 0]
  }

  lemma AccountFits(a: Account)
    ensures Fits(AccountFields(a), ACCOUNT_ROW)
  {
    hide Range;
    Ranges();
  }

  lemma AccountInRange(v: seq<nat>)
    requires Fits(v, ACCOUNT_ROW)
    ensures v[0] < TWO_128 && v[1] < TWO_32 && v[2] < TWO_32 && v[3] < TWO_16 && v[5] < TWO_32 && v[6] < TWO_128
    ensures v[7] < TWO_128 && v[8] < TWO_128 && v[9] < TWO_128 && v[10] < TWO_128
  {
    hide Range;
    Ranges();
  }

  function AccountOf(v: seq<nat>): Account
    requires Fits(v, ACCOUNT_ROW)
  {
    AccountInRange(v);
    Account(v[0], v[1], v[2], v[3], v[5], v[6], v[7], v[8], v[9], v[10])
  }

  lemma AccountWidth()
    ensures Width(ACCOUNT_ROW) == ACCOUNT_SIZE
  {
    hide Width;
    assert ACCOUNT_ROW[0..] == ACCOUNT_ROW;
    WidthFour(ACCOUNT_ROW, 0);
    WidthFour(ACCOUNT_ROW, 4);
    WidthFour(ACCOUNT_ROW, 8);
    WidthNone(ACCOUNT_ROW[12..]);
  }

  function EncodeAccount(a: Account): (b: seq<Byte>)
    ensures |b| == ACCOUNT_SIZE
  {
    AccountWidth();
    PutRow(AccountFields(a), ACCOUNT_ROW)
  }

  function DecodeAccount(b: seq<Byte>): Option<Account> {
    if |b| != ACCOUNT_SIZE then None
    else
      AccountWidth();
      Some(AccountOf(GetRow(b, ACCOUNT_ROW)))
  }

  method AppendAccountPayload(dst: seq<Byte>, a: Account) returns (b: seq<Byte>)
    ensures b == dst + EncodeAccount(a)
  {
    hide PutRow;
    b := AppendRow(dst, AccountFields(a), ACCOUNT_ROW);
  }

  method DecodeAccountPayload(b: seq<Byte>) returns (a: Option<Account>)
    ensures a == DecodeAccount(b)
  {
    hide GetRow, Fits;
    if |b| != ACCOUNT_SIZE { return None; }
    AccountWidth();
    var v := ReadRow(b, ACCOUNT_ROW);
    a := Some(AccountOf(v));
  }

  predicate AccountPadded(b: seq<Byte>)
    requires |b| == ACCOUNT_SIZE
  {
    AccountWidth();
    var v := GetRow(b, ACCOUNT_ROW);
    v[4] == 0 && v[11] == 0
  }

  lemma AccountFieldsBack(v: seq<nat>, a: Account)
    requires Fits(v, ACCOUNT_ROW)
    ensures AccountOf(v) == a && v[4] == 0 && v[11] == 0 <==> v == AccountFields(a)
  {
    hide Range;
    Ranges();
  }

  lemma AccountRoundTrip(a: Account, b: seq<Byte>)
    ensures DecodeAccount(EncodeAccount(a)) == Some(a)
    ensures DecodeAccount(b).Some? <==> |b| == ACCOUNT_SIZE
    ensures b == EncodeAccount(a) <==> DecodeAccount(b) == Some(a) && AccountPadded(b)
  {
    hide PutRow, GetRow, AccountFields, AccountOf, Fits;
    AccountWidth();
    AccountFits(a);
    var v := AccountFields(a);
    GetPutRow(v, ACCOUNT_ROW);
    AccountFieldsBack(v, a);
    if |b| == ACCOUNT_SIZE {
      PutGetRow(b, ACCOUNT_ROW);
      AccountFieldsBack(GetRow(b, ACCOUNT_ROW), a);
    }
  }
}
