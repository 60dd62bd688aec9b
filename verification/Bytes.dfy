/** Big-endian numbers in byte strings (encoding/binary). */
module Bytes {
  import opened Core

  type Byte = x: nat | x < 256

  /** 256 to the power `width`: one more than the largest number of that many bytes. */
  function Range(width: nat): (r: nat)
    ensures r > 0
  {
    if width == 0 then 1 else 256 * Range(width - 1)
  }

  lemma Ranges()
    ensures Range(1) == 256 && Range(2) == TWO_16 && Range(4) == TWO_32 && Range(8) == TWO_64
    ensures Range(16) == TWO_128 && Range(32) == TWO_256
  {
    assert Range(4) == 256 * 256 * Range(2);
    assert Range(8) == 256 * 256 * 256 * 256 * Range(4) by { assert Range(6) == 256 * 256 * Range(4); }
    RangeAdd(8, 8);
    RangeAdd(16, 16);
  }

  lemma {:induction false} RangeAdd(a: nat, b: nat)
    ensures Range(a + b) == Range(a) * Range(b)
  {
    if a > 0 {
      RangeAdd(a - 1, b);
      assert 256 * (Range(a - 1) * Range(b)) == 256 * Range(a - 1) * Range(b);
    }
  }

  function Put(n: nat, width: nat): (b: seq<Byte>)
    ensures |b| == width
  {
    if width == 0 then [] else Put(n / 256, width - 1) + [n % 256]
  }

  function Get(b: seq<Byte>): (n: nat)
    ensures n < Range(|b|)
  {
    if b == [] then 0 else 256 * Get(b[..|b| - 1]) + b[|b| - 1]
  }

  /** Reading back what was written gives the number, reduced to the width. */
  lemma {:induction false} GetPut(n: nat, width: nat)
    requires n < Range(width)
    ensures Get(Put(n, width)) == n
  {
    if width > 0 {
      GetPut(n / 256, width - 1);
      assert Put(n, width)[..width - 1] == Put(n / 256, width - 1);
    }
  }

  lemma {:induction false} PutGet(b: seq<Byte>)
    ensures Put(Get(b), |b|) == b
  {
    if b != [] {
      PutGet(b[..|b| - 1]);
      assert b == b[..|b| - 1] + [b[|b| - 1]];
    }
  }
}
