/** The MD5 compression function (sph_md5.c).

    The reference is the table-driven form of section 3.4 of RFC 1321: one step function whose round
    function, word index, shift and constant are looked up by step number. The code unrolls the 64 steps,
    keeps the registers in place, and writes two of the four round functions differently.
  */
module Md5Compress {
  import opened Arithmetic
  import opened LittleEndian
  import WordBits

  datatype State = State(a: word, b: word, c: word, d: word)

  // ----- section 3.4 of RFC 1321 -----

  function F(x: word, y: word, z: word): word { (x & y) | (!x & z) }
  function G(x: word, y: word, z: word): word { (x & z) | (y & !z) }
  function H(x: word, y: word, z: word): word { x ^ y ^ z }
  function I(x: word, y: word, z: word): word { y ^ (x | !z) }

  function Mix(i: nat, x: word, y: word, z: word): word
  {
    if i < 16 then F(x, y, z) else if i < 32 then G(x, y, z) else if i < 48 then H(x, y, z) else I(x, y, z)
  }

  /** Which word of the block step `i` reads. */
  function WordIndex(i: nat): (k: nat)
    ensures k < 16
  {
    if i < 16 then i % 16 else if i < 32 then (5 * i + 1) % 16 else if i < 48 then (3 * i + 5) % 16 else (7 * i) % 16
  }

  function Shift(i: nat): (s: bv6)
    ensures 0 < s < 32
  {
    if i < 16 then [7, 12, 17, 22][i % 4]
    else if i < 32 then [5, 9, 14, 20][i % 4]
    else if i < 48 then [4, 11, 16, 23][i % 4]
    else [6, 10, 15, 21][i % 4]
  }

  function T1(i: nat): word
  {
    match i
    case 0 => 0xd76aa478 case 1 => 0xe8c7b756 case 2 => 0x242070db case 3 => 0xc1bdceee
    case 4 => 0xf57c0faf case 5 => 0x4787c62a case 6 => 0xa8304613 case 7 => 0xfd469501
    case 8 => 0x698098d8 case 9 => 0x8b44f7af case 10 => 0xffff5bb1 case 11 => 0x895cd7be
    case 12 => 0x6b901122 case 13 => 0xfd987193 case 14 => 0xa679438e case 15 => 0x49b40821
    case _ => 0
  }

  function T2(i: nat): word
  {
    match i
    case 16 => 0xf61e2562 case 17 => 0xc040b340 case 18 => 0x265e5a51 case 19 => 0xe9b6c7aa
    case 20 => 0xd62f105d case 21 => 0x02441453 case 22 => 0xd8a1e681 case 23 => 0xe7d3fbc8
    case 24 => 0x21e1cde6 case 25 => 0xc33707d6 case 26 => 0xf4d50d87 case 27 => 0x455a14ed
    case 28 => 0xa9e3e905 case 29 => 0xfcefa3f8 case 30 => 0x676f02d9 case 31 => 0x8d2a4c8a
    case _ => 0
  }

  function T3(i: nat): word
  {
    match i
    case 32 => 0xfffa3942 case 33 => 0x8771f681 case 34 => 0x6d9d6122 case 35 => 0xfde5380c
    case 36 => 0xa4beea44 case 37 => 0x4bdecfa9 case 38 => 0xf6bb4b60 case 39 => 0xbebfbc70
    case 40 => 0x289b7ec6 case 41 => 0xeaa127fa case 42 => 0xd4ef3085 case 43 => 0x04881d05
    case 44 => 0xd9d4d039 case 45 => 0xe6db99e5 case 46 => 0x1fa27cf8 case 47 => 0xc4ac5665
    case _ => 0
  }

  function T4(i: nat): word
  {
    match i
    case 48 => 0xf4292244 case 49 => 0x432aff97 case 50 => 0xab9423a7 case 51 => 0xfc93a039
    case 52 => 0x655b59c3 case 53 => 0x8f0ccc92 case 54 => 0xffeff47d case 55 => 0x85845dd1
    case 56 => 0x6fa87e4f case 57 => 0xfe2ce6e0 case 58 => 0xa3014314 case 59 => 0x4e0811a1
    case 60 => 0xf7537e82 case 61 => 0xbd3af235 case 62 => 0x2ad7d2bb case 63 => 0xeb86d391
    case _ => 0
  }

  /** The table `T`: the integer part of 4294967296 times the absolute value of the sine of `i + 1`. */
  function T(i: nat): word
  {
    if i < 16 then T1(i) else if i < 32 then T2(i) else if i < 48 then T3(i) else T4(i)
  }

  /** Addition modulo 2^32: `SPH_T32(x + y)`. */
  function Add(x: word, y: word): word { x + y }

  /** The operation of one step: `b + ((a + mix + x + t) <<< s)`. */
  function Op(a: word, b: word, mix: word, x: word, t: word, s: bv6): word
    requires 0 < s < 32
  {
    Add(b, WordBits.Rotl(Add(Add(Add(a, mix), x), t), s))
  }

  lemma SumOfTwo(x: word, y: word)
    ensures WordBits.Value(Add(x, y)) == (WordBits.Value(x) + WordBits.Value(y)) % WordBits.TWO32
  {
    hide WordBits.Value;
    WordBits.SumValue(x, y);
  }

  lemma SumOfFour(a: word, m: word, x: word, t: word)
    ensures WordBits.Value(Add(Add(Add(a, m), x), t))
            == (WordBits.Value(a) + WordBits.Value(m) + WordBits.Value(x) + WordBits.Value(t)) % WordBits.TWO32
  {
    hide WordBits.Value, Add;
    SumOfTwo(a, m);
    SumOfTwo(Add(a, m), x);
    SumOfTwo(Add(Add(a, m), x), t);
    ModOfSum(WordBits.Value(a) + WordBits.Value(m), WordBits.Value(x), WordBits.TWO32);
    ModOfSum(WordBits.Value(a) + WordBits.Value(m) + WordBits.Value(x), WordBits.Value(t), WordBits.TWO32);
  }

  /** A number below 2^32 rotated left by `s` of 32 bits. */
  function RotatedNumber(v: nat, s: nat): int
    requires s <= 32
  {
    (v * WordBits.Power2(s)) % WordBits.TWO32 + v / WordBits.Power2(32 - s)
  }

  /** The operation of one step in numbers. */
  lemma OpValue(a: word, b: word, mix: word, x: word, t: word, s: bv6)
    requires 0 < s < 32
    ensures 0 < WordBits.Amount(s) < 32
    ensures var v := (WordBits.Value(a) + WordBits.Value(mix) + WordBits.Value(x) + WordBits.Value(t)) % WordBits.TWO32;
            WordBits.Value(Op(a, b, mix, x, t, s))
            == (WordBits.Value(b) + RotatedNumber(v, WordBits.Amount(s))) % WordBits.TWO32
  {
    hide WordBits.Value, WordBits.Rotl, WordBits.Power2, WordBits.Amount, Add;
    SumOfFour(a, mix, x, t);
    var v := Add(Add(Add(a, mix), x), t);
    WordBits.RotlValue(v, s);
    SumOfTwo(b, WordBits.Rotl(v, s));
  }

  /** Step `i`: compute one register and rename the four for the next step. */
  function Step(st: State, x: seq<word>, i: nat): State
    requires |x| == 16
  {
    State(st.d, Op(st.a, st.b, Mix(i, st.b, st.c, st.d), x[WordIndex(i)], T(i), Shift(i)), st.b, st.c)
  }

  /** The registers after the first `n` steps. */
  function After(st: State, x: seq<word>, n: nat): State
    requires |x| == 16
  {
    if n == 0 then st else Step(After(st, x, n - 1), x, n - 1)
  }

  /** A block of 64 bytes as 16 words, low-order byte first. */
  function Words(block: seq<byte>): (x: seq<word>)
    requires |block| == 64
    ensures |x| == 16
  {
    seq(16, i requires 0 <= i < 16 => Dec32le(block[4 * i..4 * i + 4]))
  }

  function Compress(st: State, block: seq<byte>): State
    requires |block| == 64
  {
    var r := After(st, Words(block), 64);
    State(Add(st.a, r.a), Add(st.b, r.b), Add(st.c, r.c), Add(st.d, r.d))
  }

  // ----- the code -----

  function CodeF(b: word, c: word, d: word): word { ((c ^ d) & b) ^ d }
  function CodeG(b: word, c: word, d: word): word { ((c ^ b) & d) ^ c }
  function CodeH(b: word, c: word, d: word): word { b ^ c ^ d }
  function CodeI(b: word, c: word, d: word): word { c ^ (b | !d) }

  lemma ChooseRewritten(x: word, y: word, z: word)
    ensures ((y ^ z) & x) ^ z == (x & y) | (!x & z)
  {
    hide *;
  }

  lemma ChooseRewritten'(x: word, y: word, z: word)
    ensures ((y ^ x) & z) ^ y == (x & z) | (y & !z)
  {
    hide *;
  }

  lemma FAgrees(b: word, c: word, d: word)
    ensures CodeF(b, c, d) == F(b, c, d)
  {
    ChooseRewritten(b, c, d);
  }

  lemma GAgrees(b: word, c: word, d: word)
    ensures CodeG(b, c, d) == G(b, c, d)
  {
    ChooseRewritten'(b, c, d);
  }

  /** The rewritten round functions compute the published ones. */
  lemma RoundFunctionsAgree(b: word, c: word, d: word)
    ensures CodeF(b, c, d) == F(b, c, d) && CodeG(b, c, d) == G(b, c, d)
    ensures CodeH(b, c, d) == H(b, c, d) && CodeI(b, c, d) == I(b, c, d)
  {
    hide CodeF, CodeG, F, G;
    FAgrees(b, c, d);
    GAgrees(b, c, d);
  }

  /** What the tables hold for step `i`. */
  predicate Entry(i: nat, k: nat, t: word, s: bv6) {
    k == WordIndex(i) && t == T(i) && s == Shift(i)
  }

  /** One step of each round, given what the tables hold for it, with the round function as the code writes it. */
  lemma StepF(st: State, x: seq<word>, i: nat, k: nat, t: word, s: bv6)
    requires |x| == 16 && 0 <= i < 16 && 0 < s < 32 && k < 16 && Entry(i, k, t, s)
    ensures var r := After(st, x, i);
            After(st, x, i + 1) == State(r.d, Op(r.a, r.b, CodeF(r.b, r.c, r.d), x[k], t, s), r.b, r.c)
  {
    hide Op, T, Shift, WordIndex, F, G, H, I, CodeF, CodeG, CodeH, CodeI;
    var r := After(st, x, i);
    RoundFunctionsAgree(r.b, r.c, r.d);
  }

  lemma StepG(st: State, x: seq<word>, i: nat, k: nat, t: word, s: bv6)
    requires |x| == 16 && 16 <= i < 32 && 0 < s < 32 && k < 16 && Entry(i, k, t, s)
    ensures var r := After(st, x, i);
            After(st, x, i + 1) == State(r.d, Op(r.a, r.b, CodeG(r.b, r.c, r.d), x[k], t, s), r.b, r.c)
  {
    hide Op, T, Shift, WordIndex, F, G, H, I, CodeF, CodeG, CodeH, CodeI;
    var r := After(st, x, i);
    RoundFunctionsAgree(r.b, r.c, r.d);
  }

  lemma StepH(st: State, x: seq<word>, i: nat, k: nat, t: word, s: bv6)
    requires |x| == 16 && 32 <= i < 48 && 0 < s < 32 && k < 16 && Entry(i, k, t, s)
    ensures var r := After(st, x, i);
            After(st, x, i + 1) == State(r.d, Op(r.a, r.b, CodeH(r.b, r.c, r.d), x[k], t, s), r.b, r.c)
  {
    hide Op, T, Shift, WordIndex, F, G, H, I, CodeF, CodeG, CodeH, CodeI;
    var r := After(st, x, i);
    RoundFunctionsAgree(r.b, r.c, r.d);
  }

  lemma StepI(st: State, x: seq<word>, i: nat, k: nat, t: word, s: bv6)
    requires |x| == 16 && 48 <= i < 64 && 0 < s < 32 && k < 16 && Entry(i, k, t, s)
    ensures var r := After(st, x, i);
            After(st, x, i + 1) == State(r.d, Op(r.a, r.b, CodeI(r.b, r.c, r.d), x[k], t, s), r.b, r.c)
  {
    hide Op, T, Shift, WordIndex, F, G, H, I, CodeF, CodeG, CodeH, CodeI;
    var r := After(st, x, i);
    RoundFunctionsAgree(r.b, r.c, r.d);
  }

  lemma Entries1()
    ensures Entry(0, 0, 0xD76AA478, 7) && Entry(1, 1, 0xE8C7B756, 12)
         && Entry(2, 2, 0x242070DB, 17) && Entry(3, 3, 0xC1BDCEEE, 22)
    ensures Entry(4, 4, 0xF57C0FAF, 7) && Entry(5, 5, 0x4787C62A, 12)
         && Entry(6, 6, 0xA8304613, 17) && Entry(7, 7, 0xFD469501, 22)
  {
  }

  lemma Entries2()
    ensures Entry(8, 8, 0x698098D8, 7) && Entry(9, 9, 0x8B44F7AF, 12)
         && Entry(10, 10, 0xFFFF5BB1, 17) && Entry(11, 11, 0x895CD7BE, 22)
    ensures Entry(12, 12, 0x6B901122, 7) && Entry(13, 13, 0xFD987193, 12)
         && Entry(14, 14, 0xA679438E, 17) && Entry(15, 15, 0x49B40821, 22)
  {
  }

  lemma Entries3()
    ensures Entry(16, 1, 0xF61E2562, 5) && Entry(17, 6, 0xC040B340, 9)
         && Entry(18, 11, 0x265E5A51, 14) && Entry(19, 0, 0xE9B6C7AA, 20)
    ensures Entry(20, 5, 0xD62F105D, 5) && Entry(21, 10, 0x02441453, 9)
         && Entry(22, 15, 0xD8A1E681, 14) && Entry(23, 4, 0xE7D3FBC8, 20)
  {
  }

  lemma Entries4()
    ensures Entry(24, 9, 0x21E1CDE6, 5) && Entry(25, 14, 0xC33707D6, 9)
         && Entry(26, 3, 0xF4D50D87, 14) && Entry(27, 8, 0x455A14ED, 20)
    ensures Entry(28, 13, 0xA9E3E905, 5) && Entry(29, 2, 0xFCEFA3F8, 9)
         && Entry(30, 7, 0x676F02D9, 14) && Entry(31, 12, 0x8D2A4C8A, 20)
  {
  }

  lemma Entries5()
    ensures Entry(32, 5, 0xFFFA3942, 4) && Entry(33, 8, 0x8771F681, 11)
         && Entry(34, 11, 0x6D9D6122, 16) && Entry(35, 14, 0xFDE5380C, 23)
    ensures Entry(36, 1, 0xA4BEEA44, 4) && Entry(37, 4, 0x4BDECFA9, 11)
         && Entry(38, 7, 0xF6BB4B60, 16) && Entry(39, 10, 0xBEBFBC70, 23)
  {
  }

  lemma Entries6()
    ensures Entry(40, 13, 0x289B7EC6, 4) && Entry(41, 0, 0xEAA127FA, 11)
         && Entry(42, 3, 0xD4EF3085, 16) && Entry(43, 6, 0x04881D05, 23)
    ensures Entry(44, 9, 0xD9D4D039, 4) && Entry(45, 12, 0xE6DB99E5, 11)
         && Entry(46, 15, 0x1FA27CF8, 16) && Entry(47, 2, 0xC4AC5665, 23)
  {
  }

  lemma Entries7()
    ensures Entry(48, 0, 0xF4292244, 6) && Entry(49, 7, 0x432AFF97, 10)
         && Entry(50, 14, 0xAB9423A7, 15) && Entry(51, 5, 0xFC93A039, 21)
    ensures Entry(52, 12, 0x655B59C3, 6) && Entry(53, 3, 0x8F0CCC92, 10)
         && Entry(54, 10, 0xFFEFF47D, 15) && Entry(55, 1, 0x85845DD1, 21)
  {
  }

  lemma Entries8()
    ensures Entry(56, 8, 0x6FA87E4F, 6) && Entry(57, 15, 0xFE2CE6E0, 10)
         && Entry(58, 6, 0xA3014314, 15) && Entry(59, 13, 0x4E0811A1, 21)
    ensures Entry(60, 4, 0xF7537E82, 6) && Entry(61, 11, 0xBD3AF235, 10)
         && Entry(62, 2, 0x2AD7D2BB, 15) && Entry(63, 9, 0xEB86D391, 21)
  {
  }

  /** Steps 1 to 16 of `MD5_ROUND_BODY`. */
  method Round1(a: word, b: word, c: word, d: word, x: seq<word>, ghost st: State)
    returns (A: word, B: word, C: word, D: word)
    requires |x| == 16 && State(a, b, c, d) == After(st, x, 0)
    ensures State(A, B, C, D) == After(st, x, 16)
  {
    hide *;
    Entries1();
    A, B, C, D := a, b, c, d;
    StepF(st, x, 0, 0, 0xD76AA478, 7);
    A := Op(A, B, CodeF(B, C, D), x[0], 0xD76AA478, 7);
    StepF(st, x, 1, 1, 0xE8C7B756, 12);
    D := Op(D, A, CodeF(A, B, C), x[1], 0xE8C7B756, 12);
    StepF(st, x, 2, 2, 0x242070DB, 17);
    C := Op(C, D, CodeF(D, A, B), x[2], 0x242070DB, 17);
    StepF(st, x, 3, 3, 0xC1BDCEEE, 22);
    B := Op(B, C, CodeF(C, D, A), x[3], 0xC1BDCEEE, 22);
    StepF(st, x, 4, 4, 0xF57C0FAF, 7);
    A := Op(A, B, CodeF(B, C, D), x[4], 0xF57C0FAF, 7);
    StepF(st, x, 5, 5, 0x4787C62A, 12);
    D := Op(D, A, CodeF(A, B, C), x[5], 0x4787C62A, 12);
    StepF(st, x, 6, 6, 0xA8304613, 17);
    C := Op(C, D, CodeF(D, A, B), x[6], 0xA8304613, 17);
    StepF(st, x, 7, 7, 0xFD469501, 22);
    B := Op(B, C, CodeF(C, D, A), x[7], 0xFD469501, 22);
    Entries2();
    StepF(st, x, 8, 8, 0x698098D8, 7);
    A := Op(A, B, CodeF(B, C, D), x[8], 0x698098D8, 7);
    StepF(st, x, 9, 9, 0x8B44F7AF, 12);
    D := Op(D, A, CodeF(A, B, C), x[9], 0x8B44F7AF, 12);
    StepF(st, x, 10, 10, 0xFFFF5BB1, 17);
    C := Op(C, D, CodeF(D, A, B), x[10], 0xFFFF5BB1, 17);
    StepF(st, x, 11, 11, 0x895CD7BE, 22);
    B := Op(B, C, CodeF(C, D, A), x[11], 0x895CD7BE, 22);
    StepF(st, x, 12, 12, 0x6B901122, 7);
    A := Op(A, B, CodeF(B, C, D), x[12], 0x6B901122, 7);
    StepF(st, x, 13, 13, 0xFD987193, 12);
    D := Op(D, A, CodeF(A, B, C), x[13], 0xFD987193, 12);
    StepF(st, x, 14, 14, 0xA679438E, 17);
    C := Op(C, D, CodeF(D, A, B), x[14], 0xA679438E, 17);
    StepF(st, x, 15, 15, 0x49B40821, 22);
    B := Op(B, C, CodeF(C, D, A), x[15], 0x49B40821, 22);
  }

  /** Steps 17 to 32 of `MD5_ROUND_BODY`. */
  method Round2(a: word, b: word, c: word, d: word, x: seq<word>, ghost st: State)
    returns (A: word, B: word, C: word, D: word)
    requires |x| == 16 && State(a, b, c, d) == After(st, x, 16)
    ensures State(A, B, C, D) == After(st, x, 32)
  {
    hide *;
    Entries3();
    A, B, C, D := a, b, c, d;
    StepG(st, x, 16, 1, 0xF61E2562, 5);
    A := Op(A, B, CodeG(B, C, D), x[1], 0xF61E2562, 5);
    StepG(st, x, 17, 6, 0xC040B340, 9);
    D := Op(D, A, CodeG(A, B, C), x[6], 0xC040B340, 9);
    StepG(st, x, 18, 11, 0x265E5A51, 14);
    C := Op(C, D, CodeG(D, A, B), x[11], 0x265E5A51, 14);
    StepG(st, x, 19, 0, 0xE9B6C7AA, 20);
    B := Op(B, C, CodeG(C, D, A), x[0], 0xE9B6C7AA, 20);
    StepG(st, x, 20, 5, 0xD62F105D, 5);
    A := Op(A, B, CodeG(B, C, D), x[5], 0xD62F105D, 5);
    StepG(st, x, 21, 10, 0x02441453, 9);
    D := Op(D, A, CodeG(A, B, C), x[10], 0x02441453, 9);
    StepG(st, x, 22, 15, 0xD8A1E681, 14);
    C := Op(C, D, CodeG(D, A, B), x[15], 0xD8A1E681, 14);
    StepG(st, x, 23, 4, 0xE7D3FBC8, 20);
    B := Op(B, C, CodeG(C, D, A), x[4], 0xE7D3FBC8, 20);
    Entries4();
    StepG(st, x, 24, 9, 0x21E1CDE6, 5);
    A := Op(A, B, CodeG(B, C, D), x[9], 0x21E1CDE6, 5);
    StepG(st, x, 25, 14, 0xC33707D6, 9);
    D := Op(D, A, CodeG(A, B, C), x[14], 0xC33707D6, 9);
    StepG(st, x, 26, 3, 0xF4D50D87, 14);
    C := Op(C, D, CodeG(D, A, B), x[3], 0xF4D50D87, 14);
    StepG(st, x, 27, 8, 0x455A14ED, 20);
    B := Op(B, C, CodeG(C, D, A), x[8], 0x455A14ED, 20);
    StepG(st, x, 28, 13, 0xA9E3E905, 5);
    A := Op(A, B, CodeG(B, C, D), x[13], 0xA9E3E905, 5);
    StepG(st, x, 29, 2, 0xFCEFA3F8, 9);
    D := Op(D, A, CodeG(A, B, C), x[2], 0xFCEFA3F8, 9);
    StepG(st, x, 30, 7, 0x676F02D9, 14);
    C := Op(C, D, CodeG(D, A, B), x[7], 0x676F02D9, 14);
    StepG(st, x, 31, 12, 0x8D2A4C8A, 20);
    B := Op(B, C, CodeG(C, D, A), x[12], 0x8D2A4C8A, 20);
  }

  /** Steps 33 to 48 of `MD5_ROUND_BODY`. */
  method Round3(a: word, b: word, c: word, d: word, x: seq<word>, ghost st: State)
    returns (A: word, B: word, C: word, D: word)
    requires |x| == 16 && State(a, b, c, d) == After(st, x, 32)
    ensures State(A, B, C, D) == After(st, x, 48)
  {
    hide *;
    Entries5();
    A, B, C, D := a, b, c, d;
    StepH(st, x, 32, 5, 0xFFFA3942, 4);
    A := Op(A, B, CodeH(B, C, D), x[5], 0xFFFA3942, 4);
    StepH(st, x, 33, 8, 0x8771F681, 11);
    D := Op(D, A, CodeH(A, B, C), x[8], 0x8771F681, 11);
    StepH(st, x, 34, 11, 0x6D9D6122, 16);
    C := Op(C, D, CodeH(D, A, B), x[11], 0x6D9D6122, 16);
    StepH(st, x, 35, 14, 0xFDE5380C, 23);
    B := Op(B, C, CodeH(C, D, A), x[14], 0xFDE5380C, 23);
    StepH(st, x, 36, 1, 0xA4BEEA44, 4);
    A := Op(A, B, CodeH(B, C, D), x[1], 0xA4BEEA44, 4);
    StepH(st, x, 37, 4, 0x4BDECFA9, 11);
    D := Op(D, A, CodeH(A, B, C), x[4], 0x4BDECFA9, 11);
    StepH(st, x, 38, 7, 0xF6BB4B60, 16);
    C := Op(C, D, CodeH(D, A, B), x[7], 0xF6BB4B60, 16);
    StepH(st, x, 39, 10, 0xBEBFBC70, 23);
    B := Op(B, C, CodeH(C, D, A), x[10], 0xBEBFBC70, 23);
    Entries6();
    StepH(st, x, 40, 13, 0x289B7EC6, 4);
    A := Op(A, B, CodeH(B, C, D), x[13], 0x289B7EC6, 4);
    StepH(st, x, 41, 0, 0xEAA127FA, 11);
    D := Op(D, A, CodeH(A, B, C), x[0], 0xEAA127FA, 11);
    StepH(st, x, 42, 3, 0xD4EF3085, 16);
    C := Op(C, D, CodeH(D, A, B), x[3], 0xD4EF3085, 16);
    StepH(st, x, 43, 6, 0x04881D05, 23);
    B := Op(B, C, CodeH(C, D, A), x[6], 0x04881D05, 23);
    StepH(st, x, 44, 9, 0xD9D4D039, 4);
    A := Op(A, B, CodeH(B, C, D), x[9], 0xD9D4D039, 4);
    StepH(st, x, 45, 12, 0xE6DB99E5, 11);
    D := Op(D, A, CodeH(A, B, C), x[12], 0xE6DB99E5, 11);
    StepH(st, x, 46, 15, 0x1FA27CF8, 16);
    C := Op(C, D, CodeH(D, A, B), x[15], 0x1FA27CF8, 16);
    StepH(st, x, 47, 2, 0xC4AC5665, 23);
    B := Op(B, C, CodeH(C, D, A), x[2], 0xC4AC5665, 23);
  }

  /** Steps 49 to 64 of `MD5_ROUND_BODY`. */
  method Round4(a: word, b: word, c: word, d: word, x: seq<word>, ghost st: State)
    returns (A: word, B: word, C: word, D: word)
    requires |x| == 16 && State(a, b, c, d) == After(st, x, 48)
    ensures State(A, B, C, D) == After(st, x, 64)
  {
    hide *;
    Entries7();
    A, B, C, D := a, b, c, d;
    StepI(st, x, 48, 0, 0xF4292244, 6);
    A := Op(A, B, CodeI(B, C, D), x[0], 0xF4292244, 6);
    StepI(st, x, 49, 7, 0x432AFF97, 10);
    D := Op(D, A, CodeI(A, B, C), x[7], 0x432AFF97, 10);
    StepI(st, x, 50, 14, 0xAB9423A7, 15);
    C := Op(C, D, CodeI(D, A, B), x[14], 0xAB9423A7, 15);
    StepI(st, x, 51, 5, 0xFC93A039, 21);
    B := Op(B, C, CodeI(C, D, A), x[5], 0xFC93A039, 21);
    StepI(st, x, 52, 12, 0x655B59C3, 6);
    A := Op(A, B, CodeI(B, C, D), x[12], 0x655B59C3, 6);
    StepI(st, x, 53, 3, 0x8F0CCC92, 10);
    D := Op(D, A, CodeI(A, B, C), x[3], 0x8F0CCC92, 10);
    StepI(st, x, 54, 10, 0xFFEFF47D, 15);
    C := Op(C, D, CodeI(D, A, B), x[10], 0xFFEFF47D, 15);
    StepI(st, x, 55, 1, 0x85845DD1, 21);
    B := Op(B, C, CodeI(C, D, A), x[1], 0x85845DD1, 21);
    Entries8();
    StepI(st, x, 56, 8, 0x6FA87E4F, 6);
    A := Op(A, B, CodeI(B, C, D), x[8], 0x6FA87E4F, 6);
    StepI(st, x, 57, 15, 0xFE2CE6E0, 10);
    D := Op(D, A, CodeI(A, B, C), x[15], 0xFE2CE6E0, 10);
    StepI(st, x, 58, 6, 0xA3014314, 15);
    C := Op(C, D, CodeI(D, A, B), x[6], 0xA3014314, 15);
    StepI(st, x, 59, 13, 0x4E0811A1, 21);
    B := Op(B, C, CodeI(C, D, A), x[13], 0x4E0811A1, 21);
    StepI(st, x, 60, 4, 0xF7537E82, 6);
    A := Op(A, B, CodeI(B, C, D), x[4], 0xF7537E82, 6);
    StepI(st, x, 61, 11, 0xBD3AF235, 10);
    D := Op(D, A, CodeI(A, B, C), x[11], 0xBD3AF235, 10);
    StepI(st, x, 62, 2, 0x2AD7D2BB, 15);
    C := Op(C, D, CodeI(D, A, B), x[2], 0x2AD7D2BB, 15);
    StepI(st, x, 63, 9, 0xEB86D391, 21);
    B := Op(B, C, CodeI(C, D, A), x[9], 0xEB86D391, 21);
  }

  lemma NoSteps(st: State, x: seq<word>)
    requires |x| == 16
    ensures After(st, x, 0) == st
  {
  }

  /** `md5_round`: decode the block and add the result of the 64 steps to the chaining values. */
  method Md5Round(data: seq<byte>, r: array<word>)
    requires |data| == 64 && r.Length == 4
    modifies r
    ensures State(r[0], r[1], r[2], r[3]) == Compress(old(State(r[0], r[1], r[2], r[3])), data)
  {
    hide After, Dec32le, Add;
    var xs := new word[16];
    var i := 0;
    while i < 16
      invariant 0 <= i <= 16
      invariant forall k :: 0 <= k < i ==> xs[k] == Words(data)[k]
      invariant r[..] == old(r[..])
    {
      xs[i] := Dec32le(data[4 * i..4 * i + 4]);
      i := i + 1;
    }
    var x := xs[..];
    assert x == Words(data);
    ghost var st := State(r[0], r[1], r[2], r[3]);
    NoSteps(st, x);
    var A, B, C, D := Round1(r[0], r[1], r[2], r[3], x, st);
    A, B, C, D := Round2(A, B, C, D, x, st);
    A, B, C, D := Round3(A, B, C, D, x, st);
    A, B, C, D := Round4(A, B, C, D, x, st);
    r[0] := Add(r[0], A);
    r[1] := Add(r[1], B);
    r[2] := Add(r[2], C);
    r[3] := Add(r[3], D);
  }
}
