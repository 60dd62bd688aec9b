/** 128-bit numbers as two 64-bit words (internal/core/uint128.go): the word arithmetic computes the
  * arithmetic of module Core, and the decimal text of a number parses back to it. */
module Words {
  import opened Core
  import opened Bytes

  datatype Uint128 = Uint128(lo: U64, hi: U64)

  datatype WordError = Overflow | Underflow | InvalidString | InvalidBinary

  datatype WordResult = Value(words: Uint128) | Error(error: WordError)

  const ZERO := Uint128(0, 0)

  /** The number two words stand for. */
  function Number(a: Uint128): (n: U128) { a.hi * TWO_64 + a.lo }

  /** The words of a number. */
  function WordsOf(n: U128): (a: Uint128)
    ensures Number(a) == n
  {
    Uint128(n % TWO_64, n / TWO_64)
  }

  lemma NumberInjective(a: Uint128, b: Uint128)
    ensures Number(a) == Number(b) <==> a == b
  {
  }

  /* ----- the operations of math/bits ----- */

  datatype Pair = Pair(word: U64, carry: U64)

  function Add64(x: U64, y: U64, carry: U64): Pair
    requires carry <= 1
  {
    var sum := x + y + carry;
    if sum < TWO_64 then Pair(sum, 0) else Pair(sum - TWO_64, 1)
  }

  function Sub64(x: U64, y: U64, borrow: U64): Pair
    requires borrow <= 1
  {
    var diff := x - y - borrow;
    if diff >= 0 then Pair(diff, 0) else Pair(diff + TWO_64, 1)
  }

  /** The high and low words of a product. */
  function Mul64(x: U64, y: U64): (p: Uint128)
    ensures p.hi * TWO_64 + p.lo == x * y
  {
    ProductFits(x, y);
    Uint128((x * y) % TWO_64, (x * y) / TWO_64)
  }

  lemma ProductFits(x: U64, y: U64)
    ensures 0 <= x * y < TWO_64 * TWO_64 && 0 <= (x * y) / TWO_64 < TWO_64
  {
    ProductBelow(x, y, TWO_64);
    QuotientBelow(x * y, TWO_64);
  }

  lemma ProductBelow(x: nat, y: nat, m: nat)
    requires x < m && y < m
    ensures 0 <= x * y < m * m
  {
    Grows(x, y, m);
    Grows(m, y, m);
    assert m * y < m * m;
  }

  lemma Grows(x: nat, y: nat, m: nat)
    requires x <= m
    ensures 0 <= x * y <= m * y
  {
    assert m * y - x * y == (m - x) * y;
  }

  lemma QuotientBelow(p: nat, m: nat)
    requires 0 < m && p < m * m
    ensures 0 <= p / m < m
  {
    assert p == p / m * m + p % m;
    if p / m >= m { Grows(m, m, p / m); }
  }

  /* ----- arithmetic ----- */

  function AddWords(a: Uint128, b: Uint128): WordResult {
    var lo := Add64(a.lo, b.lo, 0);
    var hi := Add64(a.hi, b.hi, lo.carry);
    if hi.carry != 0 then Error(Overflow) else Value(Uint128(lo.word, hi.word))
  }

  function Compare(a: Uint128, b: Uint128): int {
    if a.hi < b.hi then -1
    else if a.hi > b.hi then 1
    else if a.lo < b.lo then -1
    else if a.lo > b.lo then 1
    else 0
  }

  function SubWords(a: Uint128, b: Uint128): WordResult {
    if Compare(a, b) < 0 then Error(Underflow)
    else
      var lo := Sub64(a.lo, b.lo, 0);
      var hi := Sub64(a.hi, b.hi, lo.carry);
      if hi.carry != 0 then Error(Underflow) else Value(Uint128(lo.word, hi.word))
  }

  function MulWords(a: Uint128, m: U64): WordResult {
    var high, low := Mul64(a.hi, m), Mul64(a.lo, m);
    var hi := Add64(high.lo, low.hi, 0);
    if high.hi != 0 || hi.carry != 0 then Error(Overflow) else Value(Uint128(low.lo, hi.word))
  }

  /** Comparison orders words as it orders numbers. */
  lemma CompareExact(a: Uint128, b: Uint128)
    ensures Compare(a, b) < 0 <==> Number(a) < Number(b)
    ensures Compare(a, b) == 0 <==> Number(a) == Number(b)
  {
  }

  /** Addition on words is addition of 128-bit numbers, and overflow is reported exactly. */
  lemma AddExact(a: Uint128, b: Uint128)
    ensures AddWords(a, b) == match Core.Add(Number(a), Number(b))
                              case Some(n) => Value(WordsOf(n))
                              case None => Error(Overflow)
  {
    var r := AddWords(a, b);
    if r.Value? {
      assert Number(r.words) == Number(a) + Number(b);
      NumberInjective(r.words, WordsOf(Number(a) + Number(b)));
    }
  }

  lemma SubExact(a: Uint128, b: Uint128)
    ensures SubWords(a, b) == match Core.Sub(Number(a), Number(b))
                              case Some(n) => Value(WordsOf(n))
                              case None => Error(Underflow)
  {
    CompareExact(a, b);
    var r := SubWords(a, b);
    if Number(b) <= Number(a) {
      assert r.Value? && Number(r.words) == Number(a) - Number(b);
      NumberInjective(r.words, WordsOf(Number(a) - Number(b)));
    }
  }

  lemma MulExact(a: Uint128, m: U64)
    ensures MulWords(a, m) == if Number(a) * m < TWO_128 then Value(WordsOf(Number(a) * m)) else Error(Overflow)
  {
    hide Mul64;
    var high, low := Mul64(a.hi, m), Mul64(a.lo, m);
    Distribute(a.hi, a.lo, m);
    var p, q := a.hi * m, a.lo * m;
    assert p == high.hi * TWO_64 + high.lo && q == low.hi * TWO_64 + low.lo;
    assert Number(a) * m == p * TWO_64 + q;
    var r := MulWords(a, m);
    if r.Value? {
      assert Number(r.words) == Number(a) * m;
      NumberInjective(r.words, WordsOf(Number(a) * m));
    }
  }

  lemma Distribute(hi: nat, lo: nat, m: nat)
    ensures (hi * TWO_64 + lo) * m == (hi * m) * TWO_64 + lo * m
  {
  }

  /* ----- decimal text ----- */

  const DIGIT_0: Byte := 48

  predicate IsDigit(c: Byte) { DIGIT_0 <= c <= DIGIT_0 + 9 }

  predicate Digits(s: seq<Byte>) { forall i | 0 <= i < |s| :: IsDigit(s[i]) }

  /** The value of a string of digits. */
  function ValueOf(s: seq<Byte>): nat
    requires Digits(s)
  {
    if s == [] then 0 else 10 * ValueOf(s[..|s| - 1]) + (s[|s| - 1] - DIGIT_0)
  }

  /** How many digits a string starts with. */
  function Leading(s: seq<Byte>): (n: nat)
    ensures n <= |s| && Digits(s[..n]) && (n < |s| ==> !IsDigit(s[n]))
  {
    if s == [] then 0
    else
      var n := Leading(s[..|s| - 1]);
      if n == |s| - 1 && IsDigit(s[n]) then
        assert s[..n + 1] == s;
        n + 1
      else
        assert s[..n] == s[..|s| - 1][..n];
        n
  }

  lemma LeadingIs(s: seq<Byte>, n: nat)
    requires n <= |s| && Digits(s[..n]) && (n < |s| ==> !IsDigit(s[n]))
    ensures Leading(s) == n
  {
    hide Leading;
    var m := Leading(s);
    assert m < |s| ==> forall k | m < k <= |s| :: s[..k][m] == s[m];
    assert n < |s| ==> forall k | n < k <= |s| :: s[..k][n] == s[n];
  }

  lemma LeadingAtLeast(s: seq<Byte>, i: nat)
    requires i <= |s| && Digits(s[..i])
    ensures i <= Leading(s)
  {
    hide Leading;
    var m := Leading(s);
    assert m < |s| ==> forall k | m < k <= |s| :: s[..k][m] == s[m];
  }

  /** A longer string of digits has no smaller value. */
  lemma {:induction false} ValueGrows(s: seq<Byte>, k: nat)
    requires Digits(s) && k <= |s|
    ensures ValueOf(s[..k]) <= ValueOf(s)
  {
    if k == |s| {
      assert s[..k] == s;
    } else {
      ValueGrows(s[..|s| - 1], k);
      assert s[..|s| - 1][..k] == s[..k];
    }
  }

  /** What a string parses to: digits that lead past 2^128 overflow, whatever follows them; other
    * strings that are not all digits, and the empty one, are invalid. */
  function Parsed(s: seq<Byte>): WordResult {
    var n := Leading(s);
    var v := ValueOf(s[..n]);
    if v >= TWO_128 then Error(Overflow)
    else if s == [] || n < |s| then Error(InvalidString)
    else Value(WordsOf(v))
  }

  /** FromString: multiply by ten and add, digit after digit. */
  method FromString(s: seq<Byte>) returns (r: WordResult)
    ensures r == Parsed(s)
  {
    hide MulWords, AddWords, Number, WordsOf, Parsed;
    ParsedStops(s, 0);
    if s == [] {
      return Error(InvalidString);
    }
    var acc := ZERO;
    ZeroIs(s);
    for i := 0 to |s|
      invariant Digits(s[..i]) && ValueOf(s[..i]) == Number(acc) < TWO_128
    {
      var c := s[i];
      ParsedStops(s, i);
      if c < DIGIT_0 || c > DIGIT_0 + 9 { return Error(InvalidString); }
      var digit := Uint128(c - DIGIT_0, 0);
      DigitIs(digit);
      NextValue(s, i);
      MulExact(acc, 10);
      var product := MulWords(acc, 10);
      if product.Error? {
        ParsedOverflows(s, i + 1);
        return product;
      }
      AddExact(product.words, digit);
      var sum := AddWords(product.words, digit);
      if sum.Error? {
        ParsedOverflows(s, i + 1);
        return sum;
      }
      acc := sum.words;
    }
    ParsedStops(s, |s|);
    NumberInjective(acc, WordsOf(Number(acc)));
    r := Value(acc);
  }

  lemma ZeroIs(s: seq<Byte>)
    ensures Number(ZERO) == 0 && Digits(s[..0]) && ValueOf(s[..0]) == 0
  {
  }

  lemma DigitIs(a: Uint128)
    requires a.hi == 0
    ensures Number(a) == a.lo
  {
  }

  lemma NextValue(s: seq<Byte>, i: nat)
    requires i < |s| && Digits(s[..i]) && IsDigit(s[i])
    ensures Digits(s[..i + 1]) && ValueOf(s[..i + 1]) == 10 * ValueOf(s[..i]) + (s[i] - DIGIT_0)
  {
    assert s[..i + 1][..i] == s[..i];
  }

  /** Reading stops at the first byte that is no digit, or at the end. */
  lemma ParsedStops(s: seq<Byte>, i: nat)
    ensures i < |s| && Digits(s[..i]) && ValueOf(s[..i]) < TWO_128 && !IsDigit(s[i])
            ==> Parsed(s) == Error(InvalidString)
    ensures i == |s| && Digits(s[..i]) && ValueOf(s[..i]) < TWO_128 ==>
              Parsed(s) == if s == [] then Error(InvalidString) else Value(WordsOf(ValueOf(s[..i])))
    ensures s == [] ==> Parsed(s) == Error(InvalidString)
  {
    hide WordsOf;
    if i <= |s| && Digits(s[..i]) && (i < |s| ==> !IsDigit(s[i])) { LeadingIs(s, i); }
    assert s == [] ==> s[..Leading(s)] == [];
  }

  lemma ParsedOverflows(s: seq<Byte>, i: nat)
    requires i <= |s| && Digits(s[..i]) && ValueOf(s[..i]) >= TWO_128
    ensures Parsed(s) == Error(Overflow)
  {
    var n := Leading(s);
    LeadingAtLeast(s, i);
    ValueGrows(s[..n], i);
    assert s[..n][..i] == s[..i];
  }

  /** String: the decimal text of a number. */
  function Decimal(n: nat): (s: seq<Byte>)
    ensures s != [] && Digits(s)
  {
    if n < 10 then [DIGIT_0 + n] else Decimal(n / 10) + [DIGIT_0 + n % 10]
  }

  lemma {:induction false} DecimalValue(n: nat)
    ensures ValueOf(Decimal(n)) == n
  {
    var s := Decimal(n);
    if n < 10 {
      assert s[..0] == [];
    } else {
      DecimalValue(n / 10);
      assert s[..|s| - 1] == Decimal(n / 10);
    }
  }

  /** Parsing the decimal text of any number gives it back; and a string that parses is the decimal
    * text of its value exactly when it has no superfluous leading zero. */
  lemma DecimalRoundTrip(a: Uint128, s: seq<Byte>)
    ensures Parsed(Decimal(Number(a))) == Value(a)
    ensures Parsed(s).Value? ==> (Decimal(Number(Parsed(s).words)) == s <==> |s| == 1 || s[0] != DIGIT_0)
  {
    hide Decimal, ValueOf;
    var text := Decimal(Number(a));
    DecimalValue(Number(a));
    assert text[..|text|] == text;
    ParsedStops(text, |text|);
    NumberInjective(a, WordsOf(Number(a)));
    if Parsed(s).Value? {
      assert s[..|s|] == s;
      DecimalOfValue(s);
    }
  }

  lemma {:induction false} DecimalOfValue(s: seq<Byte>)
    requires Digits(s) && s != []
    ensures Decimal(ValueOf(s)) == s <==> |s| == 1 || s[0] != DIGIT_0
    ensures s[0] != DIGIT_0 ==> ValueOf(s) > 0
  {
    var n := |s| - 1;
    var front := s[..n];
    if n == 0 {
      assert ValueOf(front) == 0;
    } else {
      DecimalOfValue(front);
      assert ValueOf(s) / 10 == ValueOf(front) && ValueOf(s) % 10 == s[n] - DIGIT_0;
      assert s == front + [s[n]];
      if ValueOf(s) >= 10 {
        assert Decimal(ValueOf(s)) == s <==> Decimal(ValueOf(front)) == front;
      }
    }
  }

  /* ----- binary form ----- */

  function MarshalBinary(a: Uint128): (b: seq<Byte>)
    ensures |b| == 16
  {
    Put(a.hi, 8) + Put(a.lo, 8)
  }

  function UnmarshalBinary(b: seq<Byte>): WordResult {
    if |b| != 16 then Error(InvalidBinary)
    else
      Ranges();
      Value(Uint128(Get(b[8..]), Get(b[..8])))
  }

  /** The binary form is the big-endian form of the number, and reading it back is exact. */
  lemma BinaryRoundTrip(a: Uint128, b: seq<Byte>)
    ensures UnmarshalBinary(MarshalBinary(a)) == Value(a)
    ensures UnmarshalBinary(b) == Value(a) <==> b == MarshalBinary(a)
    ensures Get(MarshalBinary(a)) == Number(a)
  {
    hide Put, Get, Range;
    Ranges();
    GetPut(a.hi, 8);
    GetPut(a.lo, 8);
    var m := MarshalBinary(a);
    assert m[..8] == Put(a.hi, 8) && m[8..] == Put(a.lo, 8);
    GetAppend(Put(a.hi, 8), Put(a.lo, 8));
    if |b| == 16 {
      PutGet(b[..8]);
      PutGet(b[8..]);
      assert b == b[..8] + b[8..];
    }
  }

  lemma {:induction false} GetAppend(xs: seq<Byte>, ys: seq<Byte>)
    ensures Get(xs + ys) == Get(xs) * Range(|ys|) + Get(ys)
  {
    if ys == [] {
      assert xs + ys == xs;
    } else {
      var n := |ys| - 1;
      assert (xs + ys)[..|xs| + n] == xs + ys[..n];
      GetAppend(xs, ys[..n]);
      ShiftByte(Get(xs), Range(n), Get(ys[..n]), ys[n]);
    }
  }

  lemma ShiftByte(g: nat, r: nat, t: nat, d: nat)
    ensures 256 * (g * r + t) + d == g * (256 * r) + (256 * t + d)
  {
    assert 256 * (g * r) == g * (256 * r);
  }
}
