/** 32-bit words as numbers: what shifting, joining and converting does to the value. */
module WordBits {
  import opened Arithmetic
  type word = bv32

  const TWO32: nat := 0x1_0000_0000

  /** The word as a number. */
  function Value(w: word): (n: nat) {
    w as nat
  }

  /** The octal digit of `w` at the bits `[j, j + 3)`. */
  function Digit(w: word, j: bv5): word {
    (w >> j) & 7
  }

  /** Three bits split off the low part of a word. */
  lemma TopBits(w: word)
    ensures Value(w) == 0x4000_0000 * Value(w >> 30) + Value(w & 0x3FFF_FFFF)
  {
  }

  lemma Bits27(w: word)
    ensures Value(w & 0x3FFF_FFFF) == 0x800_0000 * Value(Digit(w, 27)) + Value(w & 0x7FF_FFFF)
  {
  }

  lemma Bits24(w: word)
    ensures Value(w & 0x7FF_FFFF) == 0x100_0000 * Value(Digit(w, 24)) + Value(w & 0xFF_FFFF)
  {
  }

  lemma Bits21(w: word)
    ensures Value(w & 0xFF_FFFF) == 0x20_0000 * Value(Digit(w, 21)) + Value(w & 0x1F_FFFF)
  {
  }

  lemma Bits18(w: word)
    ensures Value(w & 0x1F_FFFF) == 0x4_0000 * Value(Digit(w, 18)) + Value(w & 0x3_FFFF)
  {
  }

  lemma Bits15(w: word)
    ensures Value(w & 0x3_FFFF) == 0x8000 * Value(Digit(w, 15)) + Value(w & 0x7FFF)
  {
  }

  lemma Bits12(w: word)
    ensures Value(w & 0x7FFF) == 0x1000 * Value(Digit(w, 12)) + Value(w & 0xFFF)
  {
  }

  lemma Bits9(w: word)
    ensures Value(w & 0xFFF) == 0x200 * Value(Digit(w, 9)) + Value(w & 0x1FF)
  {
  }

  lemma Bits6(w: word)
    ensures Value(w & 0x1FF) == 0x40 * Value(Digit(w, 6)) + Value(w & 0x3F)
  {
  }

  lemma Bits3(w: word)
    ensures Value(w & 0x3F) == 8 * Value(Digit(w, 3)) + Value(w & 7)
  {
  }

  /** The value of the digits from bit 3 on, divided by eight. */
  function Upper(w: word): nat {
    0x800_0000 * Value(w >> 30) + 0x100_0000 * Value(Digit(w, 27)) + 0x20_0000 * Value(Digit(w, 24))
    + 0x4_0000 * Value(Digit(w, 21)) + 0x8000 * Value(Digit(w, 18)) + 0x1000 * Value(Digit(w, 15))
    + 0x200 * Value(Digit(w, 12)) + 0x40 * Value(Digit(w, 9)) + 8 * Value(Digit(w, 6)) + Value(Digit(w, 3))
  }

  /** A word is its octal digits. */
  lemma Octal(w: word)
    ensures Value(w) == 8 * Upper(w) + Value(w & 7)
  {
    hide Digit, Value;
    TopBits(w); Bits27(w); Bits24(w); Bits21(w); Bits18(w);
    Bits15(w); Bits12(w); Bits9(w); Bits6(w); Bits3(w);
  }

  /** Shifting right by three moves every digit down one place. */
  lemma ShiftedDigits(w: word)
    ensures w >> 30 == Digit(w >> 3, 27) && Digit(w, 27) == Digit(w >> 3, 24) && Digit(w, 24) == Digit(w >> 3, 21)
    ensures Digit(w, 21) == Digit(w >> 3, 18) && Digit(w, 18) == Digit(w >> 3, 15)
    ensures Digit(w, 15) == Digit(w >> 3, 12) && Digit(w, 12) == Digit(w >> 3, 9) && Digit(w, 9) == Digit(w >> 3, 6)
    ensures Digit(w, 6) == Digit(w >> 3, 3) && Digit(w, 3) == (w >> 3) & 7 && (w >> 3) >> 30 == 0
  {
  }

  lemma ValueOfZero()
    ensures Value(0) == 0
  {
  }

  lemma ShiftRight3(w: word)
    ensures Value(w) == 8 * Value(w >> 3) + Value(w & 7)
  {
    hide Digit, Value;
    Octal(w);
    Octal(w >> 3);
    ShiftedDigits(w);
    ValueOfZero();
  }

  lemma ShiftRight29(w: word)
    ensures Value(w) == 0x2000_0000 * Value(w >> 29) + Value(w & 0x1FFF_FFFF)
  {
  }

  lemma SmallWord(w: word)
    ensures w <= 7 ==> Value(w) <= 7
    ensures w <= 3 ==> Value(w) <= 3
  {
  }

  lemma LowDigits(w: word)
    ensures var v := w & 0x1FFF_FFFF;
            v >> 30 == 0 && Digit(v, 27) <= 3 && Digit(v, 24) <= 7 && Digit(v, 21) <= 7 && Digit(v, 18) <= 7
            && Digit(v, 15) <= 7 && Digit(v, 12) <= 7 && Digit(v, 9) <= 7 && Digit(v, 6) <= 7 && Digit(v, 3) <= 7
            && v & 7 <= 7
  {
  }

  lemma LowBits29(w: word)
    ensures Value(w & 0x1FFF_FFFF) < 0x2000_0000
  {
    hide Value, Digit;
    var v := w & 0x1FFF_FFFF;
    Octal(v);
    LowDigits(w);
    ValueOfZero();
    SmallWord(Digit(v, 27)); SmallWord(Digit(v, 24)); SmallWord(Digit(v, 21)); SmallWord(Digit(v, 18));
    SmallWord(Digit(v, 15)); SmallWord(Digit(v, 12)); SmallWord(Digit(v, 9)); SmallWord(Digit(v, 6));
    SmallWord(Digit(v, 3)); SmallWord(v & 7);
  }

  /** Shifting right by 29 is dividing by 2^29. */
  lemma ShiftIsDivision(w: word)
    ensures Value(w >> 29) == Value(w) / 0x2000_0000 && w >> 29 <= 7
  {
    hide Value;
    ShiftRight29(w);
    LowBits29(w);
  }

  /** Joining with a bitwise or: the parts have no bit in common and can be split again. */
  lemma JoinedBits(high: word, low: word)
    requires low <= 7
    ensures ((high << 3) | low) >> 3 == high & 0x1FFF_FFFF && ((high << 3) | low) & 7 == low
  {
    hide *;
  }

  lemma DropTop(top: nat, rest: nat, low: nat)
    requires rest < 0x2000_0000 && low <= 7
    ensures (8 * (0x2000_0000 * top + rest) + low) % TWO32 == 8 * rest + low
  {
  }

  /** What the code joins with a bitwise or, behind a shift by three, is a sum modulo 2^32. */
  lemma JoinedIsSum(high: word, low: word)
    requires low <= 7
    ensures Value((high << 3) | low) == (8 * Value(high) + Value(low)) % TWO32
  {
    hide Value;
    JoinedBits(high, low);
    ShiftRight3((high << 3) | low);
    ShiftRight29(high);
    LowBits29(high);
    SmallWord(low);
    DropTop(Value(high >> 29), Value(high & 0x1FFF_FFFF), Value(low));
  }

  /** The high word of a 64-bit number shifted left by three, from its two words. */
  lemma HighWord(high: word, low: word)
    ensures Value((high << 3) | (low >> 29)) == (8 * Value(high) + Value(low) / 0x2000_0000) % TWO32
  {
    hide Value;
    ShiftIsDivision(low);
    JoinedIsSum(high, low >> 29);
  }

  // ----- converting -----

  lemma SmallWordOf(n: nat) returns (w: word)
    requires n < 8
    ensures Value(w) == n && w <= 7
  {
    w := if n == 0 then 0 else if n == 1 then 1 else if n == 2 then 2 else if n == 3 then 3
         else if n == 4 then 4 else if n == 5 then 5 else if n == 6 then 6 else 7;
  }

  /** Every number below 2^32 is the value of a word. */
  lemma WordOf(n: nat) returns (w: word)
    requires n < TWO32
    ensures Value(w) == n
    decreases n
  {
    hide Value;
    if n < 8 {
      w := SmallWordOf(n);
    } else {
      var high := WordOf(n / 8);
      var low := SmallWordOf(n % 8);
      w := (high << 3) | low;
      JoinedIsSum(high, low);
    }
  }

  /** A number as a word, as in an assignment to `sph_u32`. */
  function Word(n: nat): word
    requires n < TWO32
  {
    n as word
  }

  lemma BackAndForth(w: word)
    ensures Value(w) < TWO32 && Word(Value(w)) == w
  {
  }

  /** Converting to a word and back changes nothing below 2^32. */
  lemma ThereAndBack(n: nat)
    requires n < TWO32
    ensures Value(Word(n)) == n
  {
    hide Value, Word;
    var w := WordOf(n);
    BackAndForth(w);
  }

  // ----- shifting by one -----

  lemma Bounded(w: word)
    ensures Value(w) < TWO32
  {
  }

  /** The digits of a word, cut one bit higher. */
  lemma OddTop(w: word)
    ensures Value(w) == 0x8000_0000 * Value(w >> 31) + Value(w & 0x7FFF_FFFF)
  {
  }

  lemma Odd28(w: word)
    ensures Value(w & 0x7FFFFFFF) == 0x10000000 * Value(Digit(w, 28)) + Value(w & 0xFFFFFFF)
  {
  }

  lemma Odd25(w: word)
    ensures Value(w & 0xFFFFFFF) == 0x2000000 * Value(Digit(w, 25)) + Value(w & 0x1FFFFFF)
  {
  }

  lemma Odd22(w: word)
    ensures Value(w & 0x1FFFFFF) == 0x400000 * Value(Digit(w, 22)) + Value(w & 0x3FFFFF)
  {
  }

  lemma Odd19(w: word)
    ensures Value(w & 0x3FFFFF) == 0x80000 * Value(Digit(w, 19)) + Value(w & 0x7FFFF)
  {
  }

  lemma Odd16(w: word)
    ensures Value(w & 0x7FFFF) == 0x10000 * Value(Digit(w, 16)) + Value(w & 0xFFFF)
  {
  }

  lemma Odd13(w: word)
    ensures Value(w & 0xFFFF) == 0x2000 * Value(Digit(w, 13)) + Value(w & 0x1FFF)
  {
  }

  lemma Odd10(w: word)
    ensures Value(w & 0x1FFF) == 0x400 * Value(Digit(w, 10)) + Value(w & 0x3FF)
  {
  }

  lemma Odd7(w: word)
    ensures Value(w & 0x3FF) == 0x80 * Value(Digit(w, 7)) + Value(w & 0x7F)
  {
  }

  lemma Odd4(w: word)
    ensures Value(w & 0x7F) == 0x10 * Value(Digit(w, 4)) + Value(w & 0xF)
  {
  }

  lemma Odd1(w: word)
    ensures Value(w & 0xF) == 0x2 * Value(Digit(w, 1)) + Value(w & 0x1)
  {
  }

  lemma HalfDigits(w: word)
    ensures w >> 31 == (w >> 1) >> 30 && Digit(w, 28) == Digit(w >> 1, 27) && Digit(w, 25) == Digit(w >> 1, 24)
    ensures Digit(w, 22) == Digit(w >> 1, 21) && Digit(w, 19) == Digit(w >> 1, 18) && Digit(w, 16) == Digit(w >> 1, 15)
    ensures Digit(w, 13) == Digit(w >> 1, 12) && Digit(w, 10) == Digit(w >> 1, 9) && Digit(w, 7) == Digit(w >> 1, 6)
    ensures Digit(w, 4) == Digit(w >> 1, 3) && Digit(w, 1) == (w >> 1) & 7 && w & 1 <= 1
  {
  }

  lemma Halving(w: word)
    ensures Value(w) == 2 * Value(w >> 1) + Value(w & 1)
  {
    hide Value, Digit;
    OddTop(w); Odd28(w); Odd25(w); Odd22(w); Odd19(w); Odd16(w); Odd13(w); Odd10(w); Odd7(w); Odd4(w); Odd1(w);
    HalfDigits(w);
    Octal(w >> 1);
  }

  lemma BitValue(w: word)
    ensures w <= 1 ==> Value(w) <= 1
  {
  }

  function Left(w: word, s: bv6): word
    requires s <= 32
  {
    w << s
  }

  function Right(w: word, s: bv6): word
    requires s <= 32
  {
    w >> s
  }

  lemma OneBit(w: word)
    ensures w & 1 <= 1 && Right(w, 1) == w >> 1 && Left(w, 1) >> 1 == w & 0x7FFF_FFFF && Left(w, 1) & 1 == 0
    ensures (w & 0x7FFF_FFFF) >> 29 <= 3 && w >> 31 <= 1
  {
  }

  lemma ShiftRight1(w: word)
    ensures Value(Right(w, 1)) == Value(w) / 2
  {
    hide Value, Right;
    OneBit(w);
    Halving(w);
    BitValue(w & 1);
  }

  lemma Below31(w: word)
    ensures Value(w & 0x7FFF_FFFF) < 0x8000_0000
  {
    hide Value, Left, Right;
    var u := w & 0x7FFF_FFFF;
    OneBit(w);
    ShiftRight29(u);
    LowBits29(u);
    SmallWord(u >> 29);
  }

  lemma ShiftLeft1(w: word)
    ensures Value(Left(w, 1)) == (2 * Value(w)) % TWO32
  {
    hide Value, Left, Right;
    OneBit(w);
    Halving(Left(w, 1));
    ValueOfZero();
    OddTop(w);
    Below31(w);
    DivModUnique(2 * Value(w), TWO32, Value(w >> 31), 2 * Value(w & 0x7FFF_FFFF));
  }

  // ----- adding -----

  lemma TopDisjoint(x: word, y: word)
    requires x & y == 0
    ensures (x >> 30) & (y >> 30) == 0 && (x | y) >> 30 == (x >> 30) | (y >> 30) && x >> 30 <= 7 && y >> 30 <= 7
    ensures (x & 7) & (y & 7) == 0 && (x | y) & 7 == (x & 7) | (y & 7) && x & 7 <= 7 && y & 7 <= 7
  {
  }

  lemma SmallSum(x: word, y: word)
    requires x <= 7 && y <= 7 && x & y == 0
    ensures Value(x | y) == Value(x) + Value(y)
  {
  }

  lemma TopSum(x: word, y: word)
    requires x & y == 0
    ensures Value((x | y) >> 30) == Value(x >> 30) + Value(y >> 30)
  {
    hide Value;
    TopDisjoint(x, y);
    SmallSum(x >> 30, y >> 30);
  }

  lemma DigitsDisjoint(x: word, y: word, j: bv5)
    requires x & y == 0
    ensures Digit(x, j) & Digit(y, j) == 0 && Digit(x | y, j) == Digit(x, j) | Digit(y, j)
    ensures Digit(x, j) <= 7 && Digit(y, j) <= 7
  {
  }

  lemma DigitSum(x: word, y: word, j: bv5)
    requires x & y == 0
    ensures Value(Digit(x | y, j)) == Value(Digit(x, j)) + Value(Digit(y, j))
  {
    hide Value, Digit;
    DigitsDisjoint(x, y, j);
    SmallSum(Digit(x, j), Digit(y, j));
  }

  lemma LastSum(x: word, y: word)
    requires x & y == 0
    ensures Value((x | y) & 7) == Value(x & 7) + Value(y & 7)
  {
    hide Value;
    TopDisjoint(x, y);
    SmallSum(x & 7, y & 7);
  }

  /** Words without a common bit: the bitwise or is their sum. */
  lemma DisjointSum(x: word, y: word)
    requires x & y == 0
    ensures Value(x | y) == Value(x) + Value(y)
  {
    hide Value, Digit;
    Octal(x); Octal(y); Octal(x | y);
    TopSum(x, y);
    DigitSum(x, y, 27); DigitSum(x, y, 24); DigitSum(x, y, 21); DigitSum(x, y, 18); DigitSum(x, y, 15);
    DigitSum(x, y, 12); DigitSum(x, y, 9); DigitSum(x, y, 6); DigitSum(x, y, 3); LastSum(x, y);
  }

  /** `x` and `y` have no bit in common and together are `z`. */
  predicate Splits(z: word, x: word, y: word) {
    x & y == 0 && x | y == z
  }

  lemma SplitSum(z: word, x: word, y: word)
    requires Splits(z, x, y)
    ensures Value(z) == Value(x) + Value(y)
  {
    hide Value;
    DisjointSum(x, y);
  }

  lemma LastDigit(w: word)
    ensures w & 7 != 7 ==> (w + 1) >> 3 == w >> 3 && (w + 1) & 7 == (w & 7) + 1
    ensures w & 7 == 7 && w != 0xFFFF_FFFF ==> (w + 1) >> 3 == (w >> 3) + 1 && (w + 1) & 7 == 0
    ensures w != 0xFFFF_FFFF ==> w >> 3 != 0xFFFF_FFFF
  {
  }

  lemma SmallIncrement(d: word)
    requires d < 7
    ensures Value(d + 1) == Value(d) + 1
  {
    assert d == 0 || d == 1 || d == 2 || d == 3 || d == 4 || d == 5 || d == 6;
  }

  lemma ValueOfSeven()
    ensures Value(7) == 7
  {
  }

  lemma LowDigitIsSmall(w: word)
    ensures w & 7 <= 7 && (w & 7 != 7 ==> w & 7 < 7)
  {
  }

  /** The next word is one more. */
  lemma Increment(w: word)
    requires w != 0xFFFF_FFFF
    ensures Value(w + 1) == Value(w) + 1
    decreases Value(w)
  {
    hide Value;
    LastDigit(w);
    ShiftRight3(w);
    ShiftRight3(w + 1);
    LowDigitIsSmall(w);
    ValueOfSeven();
    ValueOfZero();
    if w & 7 == 7 {
      Increment(w >> 3);
    } else {
      SmallIncrement(w & 7);
    }
  }

  lemma ValueOfLargest()
    ensures Value(0xFFFF_FFFF) == TWO32 - 1
  {
  }

  /** A word to look at: the facts below are about the words that are named so. */
  predicate Mark(w: word) {
    true
  }

  lemma Successor(w: word)
    ensures Value(w + 1) == (Value(w) + 1) % TWO32
    ensures w != 0xFFFF_FFFF ==> Value(w + 1) == Value(w) + 1
  {
    hide Value;
    Bounded(w + 1);
    if w == 0xFFFF_FFFF {
      ValueOfLargest();
      ValueOfZero();
    } else {
      Increment(w);
    }
  }

  /** Adding one is adding one modulo 2^32. */
  lemma Successors()
    ensures forall w: word {:trigger Mark(w)} :: Value(w + 1) == (Value(w) + 1) % TWO32
    ensures forall w: word {:trigger Mark(w)} :: w != 0xFFFF_FFFF ==> Value(w + 1) == Value(w) + 1
  {
    forall w: word ensures Value(w + 1) == (Value(w) + 1) % TWO32
                        && (w != 0xFFFF_FFFF ==> Value(w + 1) == Value(w) + 1)
    {
      Successor(w);
    }
  }

  lemma AddModulo(a: nat, b: nat)
    ensures ((a + b) % TWO32 + 1) % TWO32 == (a + (b + 1)) % TWO32
  {
  }

  /** Adding words is adding their values modulo 2^32. */
  lemma {:induction false} SumValue(x: word, y: word)
    ensures Value(x + y) == (Value(x) + Value(y)) % TWO32
    decreases Value(y)
  {
    hide Value;
    if y == 0 {
      ValueOfZero();
      Bounded(x);
    } else {
      forall y': word {:trigger Mark(y')} | Value(y') < Value(y)
        ensures Value(x + y') == (Value(x) + Value(y')) % TWO32
      {
        SumValue(x, y');
      }
      Successors();
      assert Mark(y - 1);
      assert Mark(x + (y - 1));
      AddModulo(Value(x), Value(y - 1));
    }
  }

  // ----- shifting and rotating -----

  /** 2 to the power `s`. */
  function Power2(s: nat): (p: nat)
    ensures p > 0
  {
    if s == 0 then 1 else 2 * Power2(s - 1)
  }

  /** A shift amount as a number. */
  function Amount(s: bv6): nat {
    s as nat
  }

  lemma OneMoreLeft(w: word, s: bv6)
    requires 0 < s <= 32
    ensures w << s == (w << (s - 1)) << 1
  {
    hide *;
  }

  lemma OneMoreRight(w: word, s: bv6)
    requires 0 < s <= 32
    ensures w >> s == (w >> (s - 1)) >> 1
  {
    hide *;
  }

  lemma OneMoreShift(w: word, s: bv6)
    requires 0 < s <= 32
    ensures s - 1 < 32 && Left(w, s) == Left(Left(w, s - 1), 1) && Right(w, s) == Right(Right(w, s - 1), 1)
  {
    OneMoreLeft(w, s);
    OneMoreRight(w, s);
  }

  lemma NoShift(w: word)
    ensures Left(w, 0) == w && Right(w, 0) == w
  {
  }

  lemma Doubled(m: nat)
    ensures (2 * (m % TWO32)) % TWO32 == (2 * m) % TWO32
  {
    ModOfSum(m, m, TWO32);
    ModOfSum(m, m % TWO32, TWO32);
  }

  lemma TwiceTheProduct(v: nat, p: nat)
    ensures v * (2 * p) == 2 * (v * p)
  {
  }

  lemma LeftStep(v: nat, p: nat)
    ensures (2 * ((v * p) % TWO32)) % TWO32 == (v * (2 * p)) % TWO32
  {
    Doubled(v * p);
    TwiceTheProduct(v, p);
  }

  lemma RightStep(v: nat, p: nat)
    requires p > 0
    ensures (v / p) / 2 == v / (2 * p)
  {
    var q, r := v / p, v % p;
    assert v == q * p + r;
    var h, b := q / 2, q % 2;
    assert q == 2 * h + b;
    assert q * p == h * (2 * p) + b * p;
    assert b * p + r < 2 * p;
    DivModUnique(v, 2 * p, h, b * p + r);
  }

  lemma AmountStep(s: bv6)
    ensures s == 0 ==> Power2(Amount(s)) == 1
    ensures s != 0 ==> Amount(s - 1) == Amount(s) - 1 && Power2(Amount(s)) == 2 * Power2(Amount(s - 1))
  {
  }

  /** Shifting is multiplying modulo 2^32, and dividing. */
  lemma {:induction false} ShiftValue(w: word, s: bv6)
    requires s <= 32
    ensures Value(Left(w, s)) == (Value(w) * Power2(Amount(s))) % TWO32
    ensures Value(Right(w, s)) == Value(w) / Power2(Amount(s))
    decreases Amount(s)
  {
    hide Value, Power2, Amount, Left, Right;
    AmountStep(s);
    if s == 0 {
      NoShift(w);
      Bounded(w);
    } else {
      OneMoreShift(w, s);
      ShiftValue(w, s - 1);
      ShiftLeft1(Left(w, s - 1));
      ShiftRight1(Right(w, s - 1));
      LeftStep(Value(w), Power2(Amount(s - 1)));
      RightStep(Value(w), Power2(Amount(s - 1)));
    }
  }

  /** `SPH_ROTL32`. */
  function Rotl(w: word, s: bv6): word
    requires 0 < s < 32
  {
    (w << s) | (w >> (32 - s))
  }

  lemma RotlSplits(w: word, s: bv6)
    requires 0 < s < 32
    ensures 32 - s <= 32 && Splits(Rotl(w, s), Left(w, s), Right(w, 32 - s))
  {
  }

  lemma RotlSum(w: word, s: bv6)
    requires 0 < s < 32
    ensures 32 - s <= 32 && Value(Rotl(w, s)) == Value(Left(w, s)) + Value(Right(w, 32 - s))
  {
    hide Value, Left, Right, Rotl, Splits;
    RotlSplits(w, s);
    SplitSum(Rotl(w, s), Left(w, s), Right(w, 32 - s));
  }

  lemma Complement(s: bv6)
    requires 0 < s < 32
    ensures 32 - s <= 32 && 0 < Amount(s) < 32 && Amount(32 - s) == 32 - Amount(s)
  {
  }

  /** Rotating left by `s`: multiplied by 2^s modulo 2^32, plus what that pushes out at the top. */
  lemma RotlValue(w: word, s: bv6)
    requires 0 < s < 32
    ensures 0 < Amount(s) < 32
    ensures Value(Rotl(w, s)) == (Value(w) * Power2(Amount(s))) % TWO32 + Value(w) / Power2(32 - Amount(s))
  {
    hide Value, Power2, Amount, Left, Right, Rotl;
    Complement(s);
    RotlSum(w, s);
    ShiftValue(w, s);
    ShiftValue(w, 32 - s);
  }
}
