/**
  JANG weights: small integers packed into 32-bit words, with a scale and a bias for every group of
  columns. A word is a natural number below 2^32; shifting right divides by a power of two and
  masking takes the remainder.
  */
module Jang {

  // ---------------------------------------------------------------- fields of a word

  const WORD_BITS: nat := 32

  function TwoTo(n: nat): (p: nat)
    ensures p > 0
  {
    if n == 0 then 1 else 2 * TwoTo(n - 1)
  }

  /** `(word >> (bits * j)) & mask`. */
  function Field(word: nat, bits: nat, j: nat): (v: nat)
    ensures v < TwoTo(bits)
  {
    (word / TwoTo(bits * j)) % TwoTo(bits)
  }

  /** The word whose fields are the values, the first lowest. */
  function Pack(values: seq<nat>, bits: nat): nat {
    if |values| == 0 then 0 else values[0] + TwoTo(bits) * Pack(values[1..], bits)
  }

  function Unpack(word: nat, bits: nat, count: nat): (r: seq<nat>)
    ensures |r| == count
  {
    seq(count, j requires 0 <= j < count => Field(word, bits, j))
  }

  lemma {:induction false} TwoToAdds(m: nat, n: nat)
    ensures TwoTo(m + n) == TwoTo(m) * TwoTo(n)
    decreases m
  {
    if m > 0 {
      TwoToAdds(m - 1, n);
      TwiceAProduct(TwoTo(m - 1), TwoTo(n));
    }
  }

  lemma TwiceAProduct(a: nat, b: nat)
    ensures 2 * (a * b) == (2 * a) * b
  {}

  lemma DivideTwice(x: nat, a: nat, b: nat)
    requires a > 0 && b > 0
    ensures a * b > 0 && x / (a * b) == (x / a) / b
  {
    var q := (x / a) / b;
    var r := (x / a) % b;
    assert x / a == b * q + r;
    assert x == a * (x / a) + x % a;
    assert a * (b * q + r) == (a * b) * q + a * r by { Distribute(a, b * q, r); assert a * (b * q) == (a * b) * q; }
    var rest := a * r + x % a;
    assert x == (a * b) * q + rest;
    assert rest < a * b by {
      assert r <= b - 1;
      MultiplyKeepsOrder(a, r, b - 1);
      Distribute(a, b, -1);
    }
    assert a * b > 0 by { MultiplyKeepsOrder(a, 1, b); }
    QuotientIs(x, a * b, q, rest);
  }

  lemma Distribute(a: int, b: int, c: int)
    ensures a * (b + c) == a * b + a * c
  {}

  lemma MultiplyKeepsOrder(a: nat, b: int, c: int)
    requires b <= c
    ensures a * b <= a * c
  {}

  lemma QuotientIs(x: int, d: int, q: int, r: int)
    requires d > 0 && 0 <= r < d && x == d * q + r
    ensures x / d == q && x % d == r
  {
    if x / d < q { MultiplyKeepsOrder(d, x / d + 1, q); Distribute(d, x / d, 1); }
    if x / d > q { MultiplyKeepsOrder(d, q + 1, x / d); Distribute(d, q, 1); }
  }

  // The same in terms of one base: the fields of a word are its digits.

  function Power(base: nat, n: nat): (p: nat)
    requires base > 0
    ensures p > 0
  {
    if n == 0 then 1 else Product(base, Power(base, n - 1))
  }

  function Product(a: nat, b: nat): (p: nat)
    ensures a > 0 && b > 0 ==> p > 0
  {
    if a > 0 && b > 0 then MultiplyKeepsOrder(a, 1, b); a * b else 0
  }

  function Digit(word: nat, base: nat, j: nat): nat
    requires base > 0
  {
    (word / Power(base, j)) % base
  }

  lemma StepBack(bits: nat, j: nat, m: nat)
    requires j > 0 && m == bits * j
    ensures m >= bits && m - bits == bits * (j - 1)
  {
    Distribute(bits, 1, j - 1);
    MultiplyKeepsOrder(bits, 1, j);
  }

  lemma {:induction false} ShiftIsPower(bits: nat, j: nat, m: nat)
    requires m == bits * j
    ensures TwoTo(m) == Power(TwoTo(bits), j)
    decreases j
  {
    if j == 0 {
      assert m == 0;
    } else {
      hide TwoTo;
      StepBack(bits, j, m);
      ShiftIsPower(bits, j - 1, m - bits);
      TwoToAddsUp(bits, m - bits, m);
    }
  }

  lemma TwoToAddsUp(m: nat, n: nat, sum: nat)
    requires sum == m + n
    ensures TwoTo(sum) == Product(TwoTo(m), TwoTo(n))
  {
    TwoToAdds(m, n);
  }

  lemma FieldIsDigit(word: nat, bits: nat, j: nat)
    ensures Field(word, bits, j) == Digit(word, TwoTo(bits), j)
  {
    hide TwoTo, Power;
    ShiftIsPower(bits, j, bits * j);
  }

  /** Past the first digit, the digits are those of the word divided by the base. */
  lemma LaterDigit(word: nat, base: nat, j: nat)
    requires base > 0
    ensures Digit(word, base, j + 1) == Digit(word / base, base, j)
  {
    DivideTwice(word, base, Power(base, j));
  }

  lemma FirstDigit(word: nat, base: nat)
    requires base > 0
    ensures Digit(word, base, 0) == word % base
  {}

  lemma PackBelow(low: nat, high: nat, base: nat, limit: nat)
    requires low < base && high < limit
    ensures low + base * high < Product(base, limit)
  {
    MultiplyKeepsOrder(base, high + 1, limit);
    Distribute(base, high, 1);
  }

  lemma PackFirst(values: seq<nat>, bits: nat)
    requires |values| > 0 && values[0] < TwoTo(bits)
    ensures Pack(values, bits) / TwoTo(bits) == Pack(values[1..], bits)
    ensures Pack(values, bits) % TwoTo(bits) == values[0]
  {
    hide TwoTo;
    QuotientIs(Pack(values, bits), TwoTo(bits), Pack(values[1..], bits), values[0]);
  }

  lemma PackFits(values: seq<nat>, bits: nat, limit: nat)
    requires |values| > 0 && values[0] < TwoTo(bits) && Pack(values[1..], bits) < limit
    ensures Pack(values, bits) < Product(TwoTo(bits), limit)
  {
    hide TwoTo;
    PackBelow(values[0], Pack(values[1..], bits), TwoTo(bits), limit);
  }

  /** The digits of a packed word are the values. */
  lemma {:induction false} DigitsOfPack(values: seq<nat>, bits: nat)
    requires forall j | 0 <= j < |values| :: values[j] < TwoTo(bits)
    ensures forall j | 0 <= j < |values| :: Digit(Pack(values, bits), TwoTo(bits), j) == values[j]
    ensures Pack(values, bits) < Power(TwoTo(bits), |values|)
  {
    if |values| > 0 {
      hide TwoTo, Digit, Product;
      var rest := values[1..];
      var word := Pack(values, bits);
      var base := TwoTo(bits);
      DigitsOfPack(rest, bits);
      PackFirst(values, bits);
      PackFits(values, bits, Power(base, |rest|));
      hide Pack;
      FirstDigit(word, base);
      forall j | 0 < j < |values| ensures Digit(word, base, j) == values[j] {
        LaterDigit(word, base, j - 1);
        assert Digit(Pack(rest, bits), base, j - 1) == rest[j - 1];
      }
    }
  }

  lemma HighBelow(word: nat, base: nat, limit: nat)
    requires base > 0 && limit > 0 && word < Product(base, limit)
    ensures word / base < limit
  {
    if word / base >= limit { MultiplyKeepsOrder(base, limit, word / base); }
  }

  ghost function Digits(word: nat, base: nat, count: nat): (r: seq<nat>)
    requires base > 0
    ensures |r| == count
  {
    seq(count, j requires 0 <= j < count => Digit(word, base, j))
  }

  lemma LaterDigits(word: nat, base: nat, count: nat)
    requires count > 0 && base > 0
    ensures Digits(word, base, count)[1..] == Digits(word / base, base, count - 1)
    ensures Digits(word, base, count)[0] == word % base
  {
    FirstDigit(word, base);
    hide Digit;
    forall j | 0 <= j < count - 1 ensures Digits(word, base, count)[1..][j] == Digits(word / base, base, count - 1)[j] {
      LaterDigit(word, base, j);
    }
  }

  lemma {:induction false} PackOfDigits(word: nat, bits: nat, count: nat)
    requires word < Power(TwoTo(bits), count)
    ensures Pack(Digits(word, TwoTo(bits), count), bits) == word
    decreases count
  {
    if count > 0 {
      hide TwoTo, Digits, Product, Pack;
      var high := HighPart(word, TwoTo(bits), Power(TwoTo(bits), count - 1));
      PackOfDigits(high, bits, count - 1);
      PackOneMore(word, bits, count, high);
    }
  }

  lemma HighPart(word: nat, base: nat, limit: nat) returns (high: nat)
    requires base > 0 && limit > 0 && word < Product(base, limit)
    ensures high == word / base && high < limit
  {
    HighBelow(word, base, limit);
    high := word / base;
  }

  lemma PackOneMore(word: nat, bits: nat, count: nat, high: nat)
    requires count > 0 && high == word / TwoTo(bits) && Pack(Digits(high, TwoTo(bits), count - 1), bits) == high
    ensures Pack(Digits(word, TwoTo(bits), count), bits) == word
  {
    hide TwoTo, Digits, Pack;
    LaterDigits(word, TwoTo(bits), count);
    PackUnfold(Digits(word, TwoTo(bits), count), bits, word);
  }

  lemma PackUnfold(values: seq<nat>, bits: nat, word: nat)
    requires |values| > 0 && values[0] == word % TwoTo(bits) && Pack(values[1..], bits) == word / TwoTo(bits)
    ensures Pack(values, bits) == word
  {
    hide TwoTo;
  }

  lemma UnpackIsDigits(word: nat, bits: nat, count: nat)
    ensures Unpack(word, bits, count) == Digits(word, TwoTo(bits), count)
  {
    hide TwoTo, Field, Digit;
    forall j | 0 <= j < count
      ensures Field(word, bits, j) == Digit(word, TwoTo(bits), j)
    {
      FieldIsDigit(word, bits, j);
    }
  }

  /** Unpacking inverts packing. */
  lemma UnpackAfterPack(values: seq<nat>, bits: nat)
    requires forall j | 0 <= j < |values| :: values[j] < TwoTo(bits)
    ensures Unpack(Pack(values, bits), bits, |values|) == values
    ensures Pack(values, bits) < TwoTo(bits * |values|)
  {
    hide TwoTo, Unpack, Digit, Power, Pack;
    DigitsOfPack(values, bits);
    UnpackIsDigits(Pack(values, bits), bits, |values|);
    ShiftIsPower(bits, |values|, bits * |values|);
  }

  /** And packing inverts unpacking, for a word that fits. */
  lemma PackAfterUnpack(word: nat, bits: nat, count: nat)
    requires word < TwoTo(bits * count)
    ensures Pack(Unpack(word, bits, count), bits) == word
  {
    hide TwoTo, Unpack, Digits, Power, Pack;
    ShiftIsPower(bits, count, bits * count);
    UnpackIsDigits(word, bits, count);
    PackOfDigits(word, bits, count);
  }

  predicate IsPackingWidth(valuesPerWord: nat) { valuesPerWord == 4 || valuesPerWord == 8 || valuesPerWord == 16 }

  /** At every supported width the fields fill the word exactly. */
  lemma WordsRoundTrip(values: seq<nat>, word: nat)
    requires IsPackingWidth(|values|) && word < TwoTo(WORD_BITS)
    requires forall j | 0 <= j < |values| :: values[j] < TwoTo(WORD_BITS / |values|)
    ensures var bits := WORD_BITS / |values|;
      && bits * |values| == WORD_BITS
      && Pack(values, bits) < TwoTo(WORD_BITS) && Unpack(Pack(values, bits), bits, |values|) == values
      && Pack(Unpack(word, bits, |values|), bits) == word
  {
    hide TwoTo;
    var bits := WORD_BITS / |values|;
    assert bits * |values| == WORD_BITS by {
      if |values| == 4 { assert bits == 8; } else if |values| == 8 { assert bits == 4; } else { assert bits == 2; }
    }
    UnpackAfterPack(values, bits);
    PackAfterUnpack(word, bits, |values|);
  }
}
