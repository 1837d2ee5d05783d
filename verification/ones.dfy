/** The function Ones counts bits with octal masks and a remainder; it does count them. */
module OnesTrick {
  import opened ValueLists

  /** The lowest octal digit. */
  function Low(m: nat): (o: nat)
    ensures o < 8
  {
    m % 8
  }

  /** The octal digits above it. */
  function High(m: nat): nat {
    m / 8
  }

  lemma Split(m: nat)
    ensures m == 8 * High(m) + Low(m)
  {}

  lemma Join(a: nat, o: nat)
    requires o < 8
    ensures High(8 * a + o) == a && Low(8 * a + o) == o
  {}

  function Pow8(n: nat): (r: nat)
    ensures r > 0
  {
    if n == 0 then 1 else 8 * Pow8(n - 1)
  }

  /** n octal digits 3. */
  function Threes(n: nat): nat {
    if n == 0 then 0 else 8 * Threes(n - 1) + 3
  }

  /** The digits 7 and 0 by turns, n pairs of them below a digit 3. */
  function SevensBelow(n: nat): nat {
    if n == 0 then 3 else 64 * SevensBelow(n - 1) + 7
  }

  /** Every octal digit of m halved. */
  function Halved(m: nat, n: nat): nat {
    if n == 0 then 0 else 8 * Halved(High(m), n - 1) + Low(m) / 2
  }

  /** The number of bits of an octal digit. */
  function Bits3(o: nat): (r: nat)
    requires o < 8
    ensures r <= 3
  {
    o - o / 2 - o / 4
  }

  /** Every octal digit of m replaced by the number of its bits. */
  function Counts(m: nat, n: nat): nat {
    if n == 0 then 0 else 8 * Counts(High(m), n - 1) + Bits3(Low(m))
  }

  /** The counts of two octal digits at a time, as digits to the base 64; the topmost digit stands alone. */
  function Pairs(m: nat, n: nat): nat {
    if n == 0 then Bits3(Low(m)) else 64 * Pairs(High(High(m)), n - 1) + Bits3(Low(m)) + Bits3(Low(High(m)))
  }

  /** & on the lowest bit. */
  lemma AndBit(a: nat, x: nat, b: nat, y: nat)
    requires x < 2 && y < 2
    ensures And(2 * a + x, 2 * b + y) == 2 * And(a, b) + if y == 1 then x else 0
  {
    assert (2 * a + x) / 2 == a && (2 * a + x) % 2 == x;
    assert (2 * b + y) / 2 == b && (2 * b + y) % 2 == y;
  }

  /** & on the lowest octal digit, given by its bits, with a digit 3, 7 or 0. */
  lemma AndDigit(a: nat, x2: nat, x1: nat, x0: nat, b: nat)
    requires x2 < 2 && x1 < 2 && x0 < 2
    ensures And(8 * a + 4 * x2 + 2 * x1 + x0, 8 * b + 3) == 8 * And(a, b) + 2 * x1 + x0
    ensures And(8 * a + 4 * x2 + 2 * x1 + x0, 8 * b + 7) == 8 * And(a, b) + 4 * x2 + 2 * x1 + x0
    ensures And(8 * a + 4 * x2 + 2 * x1 + x0, 8 * b) == 8 * And(a, b)
  {
    hide And;
    AndBit(4 * a + 2 * x2 + x1, x0, 4 * b + 1, 1);
    AndBit(2 * a + x2, x1, 2 * b, 1);
    AndBit(a, x2, b, 0);
    AndBit(4 * a + 2 * x2 + x1, x0, 4 * b + 3, 1);
    AndBit(2 * a + x2, x1, 2 * b + 1, 1);
    AndBit(a, x2, b, 1);
    AndBit(4 * a + 2 * x2 + x1, x0, 4 * b, 0);
    AndBit(2 * a + x2, x1, 2 * b, 0);
  }

  /** The bits of an octal digit. */
  lemma DigitBits(o: nat) returns (x2: nat, x1: nat, x0: nat)
    requires o < 8
    ensures x2 < 2 && x1 < 2 && x0 < 2 && o == 4 * x2 + 2 * x1 + x0
    ensures o / 2 == 2 * x2 + x1 && o / 4 == x2 && Bits3(o) == x2 + x1 + x0
  {
    x2, x1, x0 := if o >= 4 then 1 else 0, if o == 2 || o == 3 || o >= 6 then 1 else 0, if o == 1 || o == 3 || o == 5 || o == 7 then 1 else 0;
  }

  lemma HalfOf(m: nat, q: nat, x2: nat, x1: nat, x0: nat)
    requires x2 < 2 && x1 < 2 && x0 < 2 && m == 8 * q + 4 * x2 + 2 * x1 + x0
    ensures m / 2 == 8 * (q / 2) + 4 * (q % 2) + 2 * x2 + x1
  {
    assert q == 2 * (q / 2) + q % 2;
    assert m == 2 * (4 * q + 2 * x2 + x1) + x0;
  }

  /** Shifting by one bit and keeping two bits of three halves every octal digit. */
  lemma {:induction false} ShiftHalves(m: nat, n: nat)
    ensures And(m / 2, Threes(n)) == Halved(m, n)
  {
    if n > 0 {
      hide And;
      var q := High(m);
      Split(m);
      var x2, x1, x0 := DigitBits(Low(m));
      HalfOf(m, q, x2, x1, x0);
      AndDigit(q / 2, q % 2, x2, x1, Threes(n - 1));
      ShiftHalves(q, n - 1);
    }
  }

  /** Less its halves and the halves of those, every digit is the number of its bits. */
  lemma {:induction false} HalvesCount(m: nat, n: nat)
    requires m < Pow8(n)
    ensures m - Halved(m, n) - Halved(Halved(m, n), n) == Counts(m, n)
  {
    if n > 0 {
      Split(m);
      HalvesCount(High(m), n - 1);
      Join(Halved(High(m), n - 1), Low(m) / 2);
    }
  }

  lemma LowCount(m: nat, n: nat)
    ensures Low(Counts(m, n)) <= 3
  {
    if n > 0 {
      Join(Counts(High(m), n - 1), Bits3(Low(m)));
    }
  }

  /** A digit stays where a 7 is kept, a digit below 4 where a 3 is, and none is left where none is kept. */
  lemma SmallDigit(a: nat, o: nat, b: nat)
    requires o < 8
    ensures And(8 * a + o, 8 * b + 7) == 8 * And(a, b) + o
    ensures And(8 * a + o, 8 * b) == 8 * And(a, b)
    ensures o < 4 ==> And(8 * a + o, 8 * b + 3) == 8 * And(a, b) + o
  {
    var x2, x1, x0 := DigitBits(o);
    hide And;
    AndDigit(a, x2, x1, x0, b);
  }

  lemma OneCount(m: nat)
    requires m < 4 * Pow8(0)
    ensures And(Counts(m, 1) + High(Counts(m, 1)), SevensBelow(0)) == Pairs(m, 0)
  {
    var o := Bits3(Low(m));
    assert Counts(m, 1) == o && o <= 2;
    SmallDigit(0, o, 0);
  }

  lemma CountsTwice(m: nat, n: nat)
    ensures Counts(m, n + 2) == 8 * (8 * Counts(High(High(m)), n) + Bits3(Low(High(m)))) + Bits3(Low(m))
  {}

  lemma AddsUp(c2: nat, p0: nat, p1: nat)
    requires p0 <= 3 && p1 <= 3
    ensures var c := 8 * (8 * c2 + p1) + p0;
            c + High(c) == 8 * (8 * (c2 + High(c2)) + p1 + Low(c2)) + p0 + p1
  {
    Join(8 * c2 + p1, p0);
    Split(c2);
  }

  lemma PairAnd(a: nat, o1: nat, o0: nat, s: nat)
    requires o1 < 8 && o0 < 8
    ensures And(8 * (8 * a + o1) + o0, 64 * s + 7) == 64 * And(a, s) + o0
  {
    hide And;
    SmallDigit(8 * a + o1, o0, 8 * s);
    SmallDigit(a, o1, s);
  }

  lemma PairsStep(m: nat, n: nat)
    requires n > 0
    ensures Pairs(m, n) == 64 * Pairs(High(High(m)), n - 1) + Bits3(Low(m)) + Bits3(Low(High(m)))
    ensures SevensBelow(n) == 64 * SevensBelow(n - 1) + 7
  {}

  lemma OnePairMore(m: nat, n: nat)
    requires n > 0
    requires var c2 := Counts(High(High(m)), 2 * (n - 1) + 1);
             And(c2 + High(c2), SevensBelow(n - 1)) == Pairs(High(High(m)), n - 1)
    ensures And(Counts(m, 2 * n + 1) + High(Counts(m, 2 * n + 1)), SevensBelow(n)) == Pairs(m, n)
  {
    hide And, Counts, Bits3, Low, High, SevensBelow, Pairs;
    CountsTwice(m, 2 * n - 1);
    LowCount(High(High(m)), 2 * n - 1);
    var c2 := Counts(High(High(m)), 2 * n - 1);
    AddsUp(c2, Bits3(Low(m)), Bits3(Low(High(m))));
    PairAnd(c2 + High(c2), Bits3(Low(High(m))) + Low(c2), Bits3(Low(m)) + Bits3(Low(High(m))), SevensBelow(n - 1));
    PairsStep(m, n);
  }

  lemma Smaller(m: nat, n: nat)
    requires n > 0 && m < 4 * Pow8(2 * n)
    ensures High(High(m)) < 4 * Pow8(2 * (n - 1))
  {
    assert Pow8(2 * n) == 8 * Pow8(2 * n - 1) && Pow8(2 * n - 1) == 8 * Pow8(2 * n - 2);
    Split(m);
    Split(High(m));
  }

  /** Adding neighbouring counts and keeping every other digit gives the pairs. */
  lemma {:induction false} PairsKept(m: nat, n: nat)
    requires m < 4 * Pow8(2 * n)
    ensures And(Counts(m, 2 * n + 1) + High(Counts(m, 2 * n + 1)), SevensBelow(n)) == Pairs(m, n)
    decreases n
  {
    hide And, Counts, Bits3, Pow8, Low, High, SevensBelow, Pairs;
    if n == 0 {
      OneCount(m);
    } else {
      Smaller(m, n);
      PairsKept(High(High(m)), n - 1);
      OnePairMore(m, n);
    }
  }

  lemma OnesByBit(a: nat, x: nat)
    requires x < 2
    ensures Ones(2 * a + x) == Ones(a) + x
  {
    assert (2 * a + x) / 2 == a && (2 * a + x) % 2 == x;
  }

  /** The bits of a number are those of its lowest octal digit and those above. */
  lemma OnesByDigit(m: nat)
    ensures Ones(m) == Ones(High(m)) + Bits3(Low(m))
  {
    hide Ones, High, Low;
    Split(m);
    var q := High(m);
    var x2, x1, x0 := DigitBits(Low(m));
    OnesByBit(4 * q + 2 * x2 + x1, x0);
    OnesByBit(2 * q + x2, x1);
    OnesByBit(q, x2);
  }

  lemma TopPair(m: nat)
    requires m < 4 * Pow8(0)
    ensures Pairs(m, 0) == Bits3(Low(m)) && Ones(High(m)) == 0
  {}

  lemma Mod63(n: int, k: int)
    ensures (n + 63 * k) % 63 == n % 63
  {}

  lemma SameRemainder(a: nat, b: nat, s: nat)
    requires a % 63 == b % 63
    ensures (64 * a + s) % 63 == (b + s) % 63
  {
    var i, j := a / 63, b / 63;
    assert 64 * a + s == b + s + 63 * (a + i - j);
    Mod63(b + s, a + i - j);
  }

  /** The remainder by 63 adds up the digits to the base 64. */
  lemma {:induction false} RemainderAdds(m: nat, n: nat)
    requires m < 4 * Pow8(2 * n)
    ensures Pairs(m, n) % 63 == Ones(m) % 63
    decreases n
  {
    hide Ones, Pairs, Bits3, Pow8, High, Low;
    OnesByDigit(m);
    if n > 0 {
      Smaller(m, n);
      OnesByDigit(High(m));
      RemainderAdds(High(High(m)), n - 1);
      SameRemainder(Pairs(High(High(m)), n - 1), Ones(High(High(m))), Bits3(Low(m)) + Bits3(Low(High(m))));
      PairsStep(m, n);
    } else {
      TopPair(m);
    }
  }

  /** There are no more bits than places. */
  lemma {:induction false} OnesBounded(m: nat, k: nat)
    requires m < Pow2(k)
    ensures Ones(m) <= k
  {
    if k > 0 {
      OnesBounded(m / 2, k - 1);
    }
  }

  const OCTAL_THREES: nat := 0xDB6DB6DB
  const OCTAL_SEVENS: nat := 0xC71C71C7

  lemma Constants()
    ensures Threes(11) == OCTAL_THREES && SevensBelow(5) == OCTAL_SEVENS
    ensures Pow8(11) == 2 * WORD && 4 * Pow8(10) == WORD && Pow2(32) == WORD
  {
    assert Threes(3) == 219 && Threes(6) == 112347 && Threes(9) == 57521883;
    assert SevensBelow(2) == 12743;
    assert Pow8(3) == 512 && Pow8(6) == 262144 && Pow8(9) == 134217728;
    assert Pow2(4) == 16 && Pow2(8) == 256 && Pow2(12) == 4096 && Pow2(16) == 65536;
    assert Pow2(20) == 1048576 && Pow2(24) == 16777216 && Pow2(28) == 268435456;
  }

  /** The function Ones: it gives the number of bits of any mask. */
  method CountOnes(mask: Card32) returns (n: nat)
    ensures n == Ones(mask)
  {
    hide And, Ones, Threes, SevensBelow, Pow8, Pow2, Halved, Counts, Pairs;
    Constants();
    ShiftHalves(mask, 11);
    var y: nat := And(mask / 2, OCTAL_THREES);
    ShiftHalves(y, 11);
    HalvesCount(mask, 11);
    var z: nat := mask - y - And(y / 2, OCTAL_THREES);
    PairsKept(mask, 5);
    RemainderAdds(mask, 5);
    OnesBounded(mask, 32);
    n := And(z + z / 8, OCTAL_SEVENS) % 63;
  }
}
