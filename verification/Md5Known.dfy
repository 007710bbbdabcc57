/** A known answer of section A.5 of RFC 1321, for the message "abc": the 64 steps on its padded block, from the
    initial registers to the digest.
  */
module Md5Known {
  import opened LittleEndian
  import opened Md5Compress
  import opened Md5Spec
  import WordBits

  const ABC: seq<byte> := [0x61, 0x62, 0x63]

  /** The words of the padded message: its three bytes and the 1 bit, and the length in bits. */
  predicate IsAbc(x: seq<word>) {
    |x| == 16 && x[0] == 0x8063_6261 && x[14] == 24
    && x[1] == 0 && x[2] == 0 && x[3] == 0 && x[4] == 0 && x[5] == 0 && x[6] == 0 && x[7] == 0 && x[8] == 0
    && x[9] == 0 && x[10] == 0 && x[11] == 0 && x[12] == 0 && x[13] == 0 && x[15] == 0
  }

  // ----- the 64 steps, eight at a time: first the values of the operations, then the registers -----

  lemma Values1()
    ensures CodeF(0xefcdab89, 0x98badcfe, 0x10325476) == 0x98badcfe
         && Op(0x67452301, 0xefcdab89, 0x98badcfe, 0x80636261, 0xd76aa478, 7) == 0xd6d117b4
    ensures CodeF(0xd6d117b4, 0xefcdab89, 0x98badcfe) == 0xceebcbca
         && Op(0x10325476, 0xd6d117b4, 0xceebcbca, 0, 0xe8c7b756, 12) == 0x344a8432
    ensures CodeF(0x344a8432, 0xd6d117b4, 0xefcdab89) == 0xdfc52fb9
         && Op(0x98badcfe, 0x344a8432, 0xdfc52fb9, 0, 0x242070db, 17) == 0x2f6fbd72
    ensures CodeF(0x2f6fbd72, 0x344a8432, 0xd6d117b4) == 0xf4da86b6
         && Op(0xefcdab89, 0x2f6fbd72, 0xf4da86b6, 0, 0xc1bdceee, 22) == 0x7ad956f2
    ensures CodeF(0x7ad956f2, 0x2f6fbd72, 0x344a8432) == 0x2e4b9472
         && Op(0xd6d117b4, 0x7ad956f2, 0x2e4b9472, 0, 0xf57c0faf, 7) == 0xc73741ef
    ensures CodeF(0xc73741ef, 0x7ad956f2, 0x2f6fbd72) == 0x6a59fcf2
         && Op(0x344a8432, 0xc73741ef, 0x6a59fcf2, 0, 0x4787c62a, 12) == 0x8bac3051
    ensures CodeF(0x8bac3051, 0xc73741ef, 0x7ad956f2) == 0xf37546e3
         && Op(0x2f6fbd72, 0x8bac3051, 0xf37546e3, 0, 0xa8304613, 17) == 0x207dc67b
    ensures CodeF(0x207dc67b, 0x8bac3051, 0xc73741ef) == 0xc72e01d5
         && Op(0x7ad956f2, 0x207dc67b, 0xc72e01d5, 0, 0xfd469501, 22) == 0x928d99f6
  {
  }

  lemma Steps1(st: State, x: seq<word>)
    requires IsAbc(x) && After(st, x, 0) == State(0x67452301, 0xefcdab89, 0x98badcfe, 0x10325476)
    ensures After(st, x, 8) == State(0xc73741ef, 0x928d99f6, 0x207dc67b, 0x8bac3051)
  {
    hide After, Op, CodeF, CodeG, CodeH, CodeI, Entry;
    Values1();
    Entries1();
    StepF(st, x, 0, 0, 0xd76aa478, 7);
    StepF(st, x, 1, 1, 0xe8c7b756, 12);
    StepF(st, x, 2, 2, 0x242070db, 17);
    StepF(st, x, 3, 3, 0xc1bdceee, 22);
    StepF(st, x, 4, 4, 0xf57c0faf, 7);
    StepF(st, x, 5, 5, 0x4787c62a, 12);
    StepF(st, x, 6, 6, 0xa8304613, 17);
    StepF(st, x, 7, 7, 0xfd469501, 22);
  }

  lemma Values2()
    ensures CodeF(0x928d99f6, 0x207dc67b, 0x8bac3051) == 0x092da073
         && Op(0xc73741ef, 0x928d99f6, 0x092da073, 0, 0x698098d8, 7) == 0x854b3712
    ensures CodeF(0x854b3712, 0x928d99f6, 0x207dc67b) == 0xa03dd17b
         && Op(0x8bac3051, 0x854b3712, 0xa03dd17b, 0, 0x8b44f7af, 12) == 0x74e2f284
    ensures CodeF(0x74e2f284, 0x854b3712, 0x928d99f6) == 0x864f3b72
         && Op(0x207dc67b, 0x74e2f284, 0x864f3b72, 0, 0xffff5bb1, 17) == 0x3020401c
    ensures CodeF(0x3020401c, 0x74e2f284, 0x854b3712) == 0xb56b7706
         && Op(0x928d99f6, 0x3020401c, 0xb56b7706, 0, 0x895cd7be, 22) == 0x5ed49596
    ensures CodeF(0x5ed49596, 0x3020401c, 0x74e2f284) == 0x30226214
         && Op(0x854b3712, 0x5ed49596, 0x30226214, 0, 0x6b901122, 7) == 0xdda9b9a6
    ensures CodeF(0xdda9b9a6, 0x5ed49596, 0x3020401c) == 0x7c80d19e
         && Op(0x74e2f284, 0xdda9b9a6, 0x7c80d19e, 0, 0xfd987193, 12) == 0xa1051895
    ensures CodeF(0xa1051895, 0xdda9b9a6, 0x5ed49596) == 0xdfd19d86
         && Op(0x3020401c, 0xa1051895, 0xdfd19d86, 24, 0xa679438e, 17) == 0xe396856b
    ensures CodeF(0xe396856b, 0xa1051895, 0xdda9b9a6) == 0xbd2d3885
         && Op(0x5ed49596, 0xe396856b, 0xbd2d3885, 0, 0x49b40821, 22) == 0x72aff2e0
  {
  }

  lemma Steps2(st: State, x: seq<word>)
    requires IsAbc(x) && After(st, x, 8) == State(0xc73741ef, 0x928d99f6, 0x207dc67b, 0x8bac3051)
    ensures After(st, x, 16) == State(0xdda9b9a6, 0x72aff2e0, 0xe396856b, 0xa1051895)
  {
    hide After, Op, CodeF, CodeG, CodeH, CodeI, Entry;
    Values2();
    Entries2();
    StepF(st, x, 8, 8, 0x698098d8, 7);
    StepF(st, x, 9, 9, 0x8b44f7af, 12);
    StepF(st, x, 10, 10, 0xffff5bb1, 17);
    StepF(st, x, 11, 11, 0x895cd7be, 22);
    StepF(st, x, 12, 12, 0x6b901122, 7);
    StepF(st, x, 13, 13, 0xfd987193, 12);
    StepF(st, x, 14, 14, 0xa679438e, 17);
    StepF(st, x, 15, 15, 0x49b40821, 22);
  }

  lemma Values3()
    ensures CodeG(0x72aff2e0, 0xe396856b, 0xa1051895) == 0x629795ea
         && Op(0xdda9b9a6, 0x72aff2e0, 0x629795ea, 0, 0xf61e2562, 5) == 0x3e9e9126
    ensures CodeG(0x3e9e9126, 0x72aff2e0, 0xe396856b) == 0x32bff3a2
         && Op(0xa1051895, 0x3e9e9126, 0x32bff3a2, 0, 0xc040b340, 9) == 0x4a1d804e
    ensures CodeG(0x4a1d804e, 0x3e9e9126, 0x72aff2e0) == 0x4e1d8146
         && Op(0xe396856b, 0x4a1d804e, 0x4e1d8146, 0, 0x265e5a51, 14) == 0xe25e1652
    ensures CodeG(0xe25e1652, 0x4a1d804e, 0x3e9e9126) == 0x621f104a
         && Op(0x72aff2e0, 0xe25e1652, 0x621f104a, 0x80636261, 0xe9b6c7aa, 20) == 0xb5b204e4
    ensures CodeG(0xb5b204e4, 0xe25e1652, 0x4a1d804e) == 0xa0521654
         && Op(0x3e9e9126, 0xb5b204e4, 0xa0521654, 0, 0xd62f105d, 5) == 0x59a8ffda
    ensures CodeG(0x59a8ffda, 0xb5b204e4, 0xe25e1652) == 0x55a816f6
         && Op(0x4a1d804e, 0x59a8ffda, 0x55a816f6, 0, 0x02441453, 9) == 0x6d002f1e
    ensures CodeG(0x6d002f1e, 0x59a8ffda, 0xb5b204e4) == 0x6d08ff1e
         && Op(0xe25e1652, 0x6d002f1e, 0x6d08ff1e, 0, 0xd8a1e681, 14) == 0xabfc7920
    ensures CodeG(0xabfc7920, 0x6d002f1e, 0x59a8ffda) == 0x2da87904
         && Op(0xb5b204e4, 0xabfc7920, 0x2da87904, 0, 0xe7d3fbc8, 20) == 0x47092c07
  {
  }

  lemma Steps3(st: State, x: seq<word>)
    requires IsAbc(x) && After(st, x, 16) == State(0xdda9b9a6, 0x72aff2e0, 0xe396856b, 0xa1051895)
    ensures After(st, x, 24) == State(0x59a8ffda, 0x47092c07, 0xabfc7920, 0x6d002f1e)
  {
    hide After, Op, CodeF, CodeG, CodeH, CodeI, Entry;
    Values3();
    Entries3();
    StepG(st, x, 16, 1, 0xf61e2562, 5);
    StepG(st, x, 17, 6, 0xc040b340, 9);
    StepG(st, x, 18, 11, 0x265e5a51, 14);
    StepG(st, x, 19, 0, 0xe9b6c7aa, 20);
    StepG(st, x, 20, 5, 0xd62f105d, 5);
    StepG(st, x, 21, 10, 0x02441453, 9);
    StepG(st, x, 22, 15, 0xd8a1e681, 14);
    StepG(st, x, 23, 4, 0xe7d3fbc8, 20);
  }

  lemma Values4()
    ensures CodeG(0x47092c07, 0xabfc7920, 0x6d002f1e) == 0xc7fc7c26
         && Op(0x59a8ffda, 0x47092c07, 0xc7fc7c26, 0, 0x21e1cde6, 5) == 0xb7f268cf
    ensures CodeG(0xb7f268cf, 0x47092c07, 0xabfc7920) == 0xe7f16c07
         && Op(0x6d002f1e, 0xb7f268cf, 0xe7f16c07, 24, 0xc33707d6, 9) == 0x09388eff
    ensures CodeG(0x09388eff, 0xb7f268cf, 0x47092c07) == 0xb1fa4ccf
         && Op(0xabfc7920, 0x09388eff, 0xb1fa4ccf, 0, 0xf4d50d87, 14) == 0xfe1623b1
    ensures CodeG(0xfe1623b1, 0x09388eff, 0xb7f268cf) == 0xbe1aa6b1
         && Op(0x47092c07, 0xfe1623b1, 0xbe1aa6b1, 0, 0x455a14ed, 20) == 0x786acb8f
    ensures CodeG(0x786acb8f, 0xfe1623b1, 0x09388eff) == 0xfe2eab8f
         && Op(0xb7f268cf, 0x786acb8f, 0xfe2eab8f, 0, 0xa9e3e905, 5) == 0x790a77fb
    ensures CodeG(0x790a77fb, 0x786acb8f, 0xfe1623b1) == 0x786aebbf
         && Op(0x09388eff, 0x790a77fb, 0x786aebbf, 0, 0xfcefa3f8, 9) == 0x9f47e4f8
    ensures CodeG(0x9f47e4f8, 0x790a77fb, 0x786acb8f) == 0x1942f4f8
         && Op(0xfe1623b1, 0x9f47e4f8, 0x1942f4f8, 0, 0x676f02d9, 14) == 0xa62884aa
    ensures CodeG(0xa62884aa, 0x9f47e4f8, 0x790a77fb) == 0xa64d84aa
         && Op(0x786acb8f, 0xa62884aa, 0xa64d84aa, 0, 0x8d2a4c8a, 20) == 0x726342d3
  {
  }

  lemma Steps4(st: State, x: seq<word>)
    requires IsAbc(x) && After(st, x, 24) == State(0x59a8ffda, 0x47092c07, 0xabfc7920, 0x6d002f1e)
    ensures After(st, x, 32) == State(0x790a77fb, 0x726342d3, 0xa62884aa, 0x9f47e4f8)
  {
    hide After, Op, CodeF, CodeG, CodeH, CodeI, Entry;
    Values4();
    Entries4();
    StepG(st, x, 24, 9, 0x21e1cde6, 5);
    StepG(st, x, 25, 14, 0xc33707d6, 9);
    StepG(st, x, 26, 3, 0xf4d50d87, 14);
    StepG(st, x, 27, 8, 0x455a14ed, 20);
    StepG(st, x, 28, 13, 0xa9e3e905, 5);
    StepG(st, x, 29, 2, 0xfcefa3f8, 9);
    StepG(st, x, 30, 7, 0x676f02d9, 14);
    StepG(st, x, 31, 12, 0x8d2a4c8a, 20);
  }

  lemma Values5()
    ensures CodeH(0x726342d3, 0xa62884aa, 0x9f47e4f8) == 0x4b0c2281
         && Op(0x790a77fb, 0x726342d3, 0x4b0c2281, 0, 0xfffa3942, 4) == 0xb3707ebf
    ensures CodeH(0xb3707ebf, 0x726342d3, 0xa62884aa) == 0x673bb8c6
         && Op(0x9f47e4f8, 0xb3707ebf, 0x673bb8c6, 0, 0x8771f681, 11) == 0x60127b2e
    ensures CodeH(0x60127b2e, 0xb3707ebf, 0x726342d3) == 0xa1014742
         && Op(0xa62884aa, 0x60127b2e, 0xa1014742, 0, 0x6d9d6122, 16) == 0x8d212ff5
    ensures CodeH(0x8d212ff5, 0x60127b2e, 0xb3707ebf) == 0x5e432a64
         && Op(0x726342d3, 0x8d212ff5, 0x5e432a64, 24, 0xfde5380c, 23) == 0x3b0875c7
    ensures CodeH(0x3b0875c7, 0x8d212ff5, 0x60127b2e) == 0xd63b211c
         && Op(0xb3707ebf, 0x3b0875c7, 0xd63b211c, 0, 0xa4beea44, 4) == 0x21b117b9
    ensures CodeH(0x21b117b9, 0x3b0875c7, 0x8d212ff5) == 0x97984d8b
         && Op(0x60127b2e, 0x21b117b9, 0x97984d8b, 0, 0x4bdecfa9, 11) == 0x6e7429d5
    ensures CodeH(0x6e7429d5, 0x21b117b9, 0x3b0875c7) == 0x74cd4bab
         && Op(0x8d212ff5, 0x6e7429d5, 0x74cd4bab, 0, 0xf6bb4b60, 16) == 0x3575227e
    ensures CodeH(0x3575227e, 0x6e7429d5, 0x21b117b9) == 0x7ab01c12
         && Op(0x3b0875c7, 0x3575227e, 0x7ab01c12, 0, 0xbebfbc70, 23) == 0x5a2f5ea5
  {
  }

  lemma Steps5(st: State, x: seq<word>)
    requires IsAbc(x) && After(st, x, 32) == State(0x790a77fb, 0x726342d3, 0xa62884aa, 0x9f47e4f8)
    ensures After(st, x, 40) == State(0x21b117b9, 0x5a2f5ea5, 0x3575227e, 0x6e7429d5)
  {
    hide After, Op, CodeF, CodeG, CodeH, CodeI, Entry;
    Values5();
    Entries5();
    StepH(st, x, 32, 5, 0xfffa3942, 4);
    StepH(st, x, 33, 8, 0x8771f681, 11);
    StepH(st, x, 34, 11, 0x6d9d6122, 16);
    StepH(st, x, 35, 14, 0xfde5380c, 23);
    StepH(st, x, 36, 1, 0xa4beea44, 4);
    StepH(st, x, 37, 4, 0x4bdecfa9, 11);
    StepH(st, x, 38, 7, 0xf6bb4b60, 16);
    StepH(st, x, 39, 10, 0xbebfbc70, 23);
  }

  lemma Values6()
    ensures CodeH(0x5a2f5ea5, 0x3575227e, 0x6e7429d5) == 0x012e550e
         && Op(0x21b117b9, 0x5a2f5ea5, 0x012e550e, 0, 0x289b7ec6, 4) == 0x11de1779
    ensures CodeH(0x11de1779, 0x5a2f5ea5, 0x3575227e) == 0x7e846ba2
         && Op(0x6e7429d5, 0x11de1779, 0x7e846ba2, 0x80636261, 0xeaa127fa, 11) == 0xfadcaa38
    ensures CodeH(0xfadcaa38, 0x11de1779, 0x5a2f5ea5) == 0xb12de3e4
         && Op(0x3575227e, 0xfadcaa38, 0xb12de3e4, 0, 0xd4ef3085, 16) == 0x31c465ca
    ensures CodeH(0x31c465ca, 0xfadcaa38, 0x11de1779) == 0xdac6d88b
         && Op(0x5a2f5ea5, 0x31c465ca, 0xdac6d88b, 0, 0x04881d05, 23) == 0x4c6124f4
    ensures CodeH(0x4c6124f4, 0x31c465ca, 0xfadcaa38) == 0x8779eb06
         && Op(0x11de1779, 0x4c6124f4, 0x8779eb06, 0, 0xd9d4d039, 4) == 0x7f2e507b
    ensures CodeH(0x7f2e507b, 0x4c6124f4, 0x31c465ca) == 0x028b1145
         && Op(0xfadcaa38, 0x7f2e507b, 0x028b1145, 0, 0xe6db99e5, 11) == 0x99d9679d
    ensures CodeH(0x99d9679d, 0x7f2e507b, 0x4c6124f4) == 0xaa961312
         && Op(0x31c465ca, 0x99d9679d, 0xaa961312, 0, 0x1fa27cf8, 16) == 0x8fae6399
    ensures CodeH(0x8fae6399, 0x99d9679d, 0x7f2e507b) == 0x6959547f
         && Op(0x4c6124f4, 0x8fae6399, 0x6959547f, 0, 0xc4ac5665, 23) == 0x7beb9700
  {
  }

  lemma Steps6(st: State, x: seq<word>)
    requires IsAbc(x) && After(st, x, 40) == State(0x21b117b9, 0x5a2f5ea5, 0x3575227e, 0x6e7429d5)
    ensures After(st, x, 48) == State(0x7f2e507b, 0x7beb9700, 0x8fae6399, 0x99d9679d)
  {
    hide After, Op, CodeF, CodeG, CodeH, CodeI, Entry;
    Values6();
    Entries6();
    StepH(st, x, 40, 13, 0x289b7ec6, 4);
    StepH(st, x, 41, 0, 0xeaa127fa, 11);
    StepH(st, x, 42, 3, 0xd4ef3085, 16);
    StepH(st, x, 43, 6, 0x04881d05, 23);
    StepH(st, x, 44, 9, 0xd9d4d039, 4);
    StepH(st, x, 45, 12, 0xe6db99e5, 11);
    StepH(st, x, 46, 15, 0x1fa27cf8, 16);
    StepH(st, x, 47, 2, 0xc4ac5665, 23);
  }

  lemma Values7()
    ensures CodeI(0x7beb9700, 0x8fae6399, 0x99d9679d) == 0xf041fcfb
         && Op(0x7f2e507b, 0x7beb9700, 0xf041fcfb, 0x80636261, 0xf4292244, 6) == 0x7b201df8
    ensures CodeI(0x7b201df8, 0x7beb9700, 0x8fae6399) == 0x009a0afe
         && Op(0x99d9679d, 0x7b201df8, 0x009a0afe, 0, 0x432aff97, 10) == 0xf4e8e96e
    ensures CodeI(0xf4e8e96e, 0x7b201df8, 0x7beb9700) == 0x8fdcf407
         && Op(0x8fae6399, 0xf4e8e96e, 0x8fdcf407, 24, 0xab9423a7, 15) == 0xb298cefd
    ensures CodeI(0xb298cefd, 0xf4e8e96e, 0x7b201df8) == 0x42370791
         && Op(0x7beb9700, 0xb298cefd, 0x42370791, 0, 0xfc93a039, 21) == 0x8bf025c4
    ensures CodeI(0x8bf025c4, 0xb298cefd, 0xf4e8e96e) == 0x396ff928
         && Op(0x7b201df8, 0x8bf025c4, 0x396ff928, 0, 0x655b59c3, 6) == 0x06cc5e8a
    ensures CodeI(0x06cc5e8a, 0x8bf025c4, 0xb298cefd) == 0xc41f5a4e
         && Op(0xf4e8e96e, 0x06cc5e8a, 0xc41f5a4e, 0, 0x8f0ccc92, 10) == 0x5b0d97aa
    ensures CodeI(0x5b0d97aa, 0x06cc5e8a, 0x8bf025c4) == 0x79c38131
         && Op(0xb298cefd, 0x5b0d97aa, 0x79c38131, 0, 0xffeff47d, 15) == 0x7d632dd0
    ensures CodeI(0x7d632dd0, 0x5b0d97aa, 0x06cc5e8a) == 0xa67e3a5f
         && Op(0x8bf025c4, 0x7d632dd0, 0xa67e3a5f, 0, 0x85845dd1, 21) == 0x3bfa2c27
  {
  }

  lemma Steps7(st: State, x: seq<word>)
    requires IsAbc(x) && After(st, x, 48) == State(0x7f2e507b, 0x7beb9700, 0x8fae6399, 0x99d9679d)
    ensures After(st, x, 56) == State(0x06cc5e8a, 0x3bfa2c27, 0x7d632dd0, 0x5b0d97aa)
  {
    hide After, Op, CodeF, CodeG, CodeH, CodeI, Entry;
    Values7();
    Entries7();
    StepI(st, x, 48, 0, 0xf4292244, 6);
    StepI(st, x, 49, 7, 0x432aff97, 10);
    StepI(st, x, 50, 14, 0xab9423a7, 15);
    StepI(st, x, 51, 5, 0xfc93a039, 21);
    StepI(st, x, 52, 12, 0x655b59c3, 6);
    StepI(st, x, 53, 3, 0x8f0ccc92, 10);
    StepI(st, x, 54, 10, 0xffeff47d, 15);
    StepI(st, x, 55, 1, 0x85845dd1, 21);
  }

  lemma Values8()
    ensures CodeI(0x3bfa2c27, 0x7d632dd0, 0x5b0d97aa) == 0xc29941a7
         && Op(0x06cc5e8a, 0x3bfa2c27, 0xc29941a7, 0, 0x6fa87e4f, 6) == 0x7f81cc35
    ensures CodeI(0x7f81cc35, 0x3bfa2c27, 0x7d632dd0) == 0xc467f218
         && Op(0x5b0d97aa, 0x7f81cc35, 0xc467f218, 0, 0xfe2ce6e0, 10) == 0x094454ab
    ensures CodeI(0x094454ab, 0x7f81cc35, 0x3bfa2c27) == 0xb2c41bce
         && Op(0x7d632dd0, 0x094454ab, 0xb2c41bce, 0, 0xa3014314, 15) == 0x4f9dbe3f
    ensures CodeI(0x4f9dbe3f, 0x094454ab, 0x7f81cc35) == 0xc6bbeb54
         && Op(0x3bfa2c27, 0x4f9dbe3f, 0xc6bbeb54, 0, 0x4e0811a1, 21) == 0x7327d604
    ensures CodeI(0x7327d604, 0x4f9dbe3f, 0x094454ab) == 0xb822416b
         && Op(0x7f81cc35, 0x7327d604, 0xb822416b, 0, 0xf7537e82, 6) == 0x310ade8f
    ensures CodeI(0x310ade8f, 0x7327d604, 0x4f9dbe3f) == 0xc24d09cb
         && Op(0x094454ab, 0x310ade8f, 0xc24d09cb, 0, 0xbd3af235, 10) == 0x624d8cb2
    ensures CodeI(0x624d8cb2, 0x310ade8f, 0x7327d604) == 0xdfd77374
         && Op(0x4f9dbe3f, 0x624d8cb2, 0xdfd77374, 0, 0x2ad7d2bb, 15) == 0xe484b9d8
    ensures CodeI(0xe484b9d8, 0x624d8cb2, 0x310ade8f) == 0x8cb8354a
         && Op(0x7327d604, 0xe484b9d8, 0x8cb8354a, 0, 0xeb86d391, 21) == 0xc08226b3
  {
  }

  lemma Steps8(st: State, x: seq<word>)
    requires IsAbc(x) && After(st, x, 56) == State(0x06cc5e8a, 0x3bfa2c27, 0x7d632dd0, 0x5b0d97aa)
    ensures After(st, x, 64) == State(0x310ade8f, 0xc08226b3, 0xe484b9d8, 0x624d8cb2)
  {
    hide After, Op, CodeF, CodeG, CodeH, CodeI, Entry;
    Values8();
    Entries8();
    StepI(st, x, 56, 8, 0x6fa87e4f, 6);
    StepI(st, x, 57, 15, 0xfe2ce6e0, 10);
    StepI(st, x, 58, 6, 0xa3014314, 15);
    StepI(st, x, 59, 13, 0x4e0811a1, 21);
    StepI(st, x, 60, 4, 0xf7537e82, 6);
    StepI(st, x, 61, 11, 0xbd3af235, 10);
    StepI(st, x, 62, 2, 0x2ad7d2bb, 15);
    StepI(st, x, 63, 9, 0xeb86d391, 21);
  }

  lemma AllSteps(x: seq<word>)
    requires IsAbc(x)
    ensures After(IV, x, 64) == State(0x310ade8f, 0xc08226b3, 0xe484b9d8, 0x624d8cb2)
  {
    hide After;
    NoSteps(IV, x);
    Steps1(IV, x);
    Steps2(IV, x);
    Steps3(IV, x);
    Steps4(IV, x);
    Steps5(IV, x);
    Steps6(IV, x);
    Steps7(IV, x);
    Steps8(IV, x);
  }

  // ----- from bytes to words and back -----

  lemma FirstOf(b: byte, rest: seq<byte>)
    ensures DecodeLe([b] + rest) == ByteAsNat(b) + 256 * DecodeLe(rest)
  {
    assert ([b] + rest)[1..] == rest;
  }

  lemma NoBytes()
    ensures DecodeLe([]) == 0
  {
  }

  lemma FourBytesLe(a: byte, b: byte, c: byte, d: byte)
    ensures DecodeLe([a, b, c, d])
            == ByteAsNat(a) + 256 * ByteAsNat(b) + 0x1_0000 * ByteAsNat(c) + 0x100_0000 * ByteAsNat(d)
  {
    hide ByteAsNat, DecodeLe, Power256;
    NoBytes();
    FirstOf(d, []);
    FirstOf(c, [d]);
    FirstOf(b, [c, d]);
    FirstOf(a, [b, c, d]);
    assert [d] + [] == [d] && [c] + [d] == [c, d] && [b] + [c, d] == [b, c, d] && [a] + [b, c, d] == [a, b, c, d];
  }

  /** A word from its four bytes. */
  lemma WordOfBytes(bs: seq<byte>, a: byte, b: byte, c: byte, d: byte, w: word)
    requires bs == [a, b, c, d]
    requires WordBits.Value(w)
             == ByteAsNat(a) + 256 * ByteAsNat(b) + 0x1_0000 * ByteAsNat(c) + 0x100_0000 * ByteAsNat(d)
    ensures Dec32le(bs) == w && Enc32le(w) == bs
  {
    hide DecodeLe, ByteAsNat, WordBits.Value, WordBits.Word, EncodeLe;
    FourBytesLe(a, b, c, d);
    WordBits.BackAndForth(w);
    EncodeDecode(bs);
  }

  lemma InputValues()
    ensures WordBits.Value(0x8063_6261)
            == ByteAsNat(0x61) + 256 * ByteAsNat(0x62) + 0x1_0000 * ByteAsNat(0x63) + 0x100_0000 * ByteAsNat(0x80)
    ensures WordBits.Value(24) == ByteAsNat(24) && ByteAsNat(0) == 0 && WordBits.Value(0) == 0
  {
  }

  lemma OutputValues()
    ensures WordBits.Value(0x98500190)
            == ByteAsNat(0x90) + 256 * ByteAsNat(0x01) + 0x1_0000 * ByteAsNat(0x50) + 0x100_0000 * ByteAsNat(0x98)
    ensures WordBits.Value(0xb04fd23c)
            == ByteAsNat(0x3c) + 256 * ByteAsNat(0xd2) + 0x1_0000 * ByteAsNat(0x4f) + 0x100_0000 * ByteAsNat(0xb0)
    ensures WordBits.Value(0x7d3f96d6)
            == ByteAsNat(0xd6) + 256 * ByteAsNat(0x96) + 0x1_0000 * ByteAsNat(0x3f) + 0x100_0000 * ByteAsNat(0x7d)
    ensures WordBits.Value(0x727fe128)
            == ByteAsNat(0x28) + 256 * ByteAsNat(0xe1) + 0x1_0000 * ByteAsNat(0x7f) + 0x100_0000 * ByteAsNat(0x72)
  {
  }

  lemma EncodeZero(k: nat)
    ensures EncodeLe(0, k) == Zeros(k)
  {
    if k > 0 {
      EncodeZero(k - 1);
    }
  }

  lemma LengthField()
    ensures EncodeLe(24, 8) == [24] + Zeros(7)
  {
    hide Zeros;
    EncodeZero(7);
  }

  lemma ClosingByte()
    ensures FinalByte(0, 0) == 0x80 && PadLength(3) == 52
  {
  }

  lemma PaddedAbc()
    ensures var p := Padded(ABC, 0, 0);
            |p| == 64 && p[0] == 0x61 && p[1] == 0x62 && p[2] == 0x63 && p[3] == 0x80 && p[56] == 24
            && forall j :: 4 <= j < 64 && j != 56 ==> p[j] == 0
  {
    hide EncodeLe, FinalByte, PadLength;
    LengthField();
    ClosingByte();
  }

  lemma InputWords()
    ensures |Padded(ABC, 0, 0)| == 64 && IsAbc(Words(Padded(ABC, 0, 0)))
  {
    hide Dec32le, Enc32le, ByteAsNat, WordBits.Value, Padded;
    PaddedAbc();
    InputValues();
    var p := Padded(ABC, 0, 0);
    WordOfBytes(p[0..4], 0x61, 0x62, 0x63, 0x80, 0x8063_6261);
    WordOfBytes(p[56..60], 24, 0, 0, 0, 24);
    forall k | 1 <= k < 16 && k != 14 ensures Words(p)[k] == 0 {
      WordOfBytes(p[4 * k..4 * k + 4], 0, 0, 0, 0, 0);
    }
  }

  lemma OneBlock(p: seq<byte>)
    requires |p| == 64
    ensures Fold(IV, p) == Compress(IV, p)
  {
    hide Compress, IV;
    assert p[..64] == p && p[64..] == [];
  }

  lemma Digests()
    ensures Enc32le(0x98500190) == [0x90, 0x01, 0x50, 0x98] && Enc32le(0xb04fd23c) == [0x3c, 0xd2, 0x4f, 0xb0]
    ensures Enc32le(0x7d3f96d6) == [0xd6, 0x96, 0x3f, 0x7d] && Enc32le(0x727fe128) == [0x28, 0xe1, 0x7f, 0x72]
  {
    hide Dec32le, Enc32le, ByteAsNat, WordBits.Value;
    OutputValues();
    WordOfBytes([0x90, 0x01, 0x50, 0x98], 0x90, 0x01, 0x50, 0x98, 0x98500190);
    WordOfBytes([0x3c, 0xd2, 0x4f, 0xb0], 0x3c, 0xd2, 0x4f, 0xb0, 0xb04fd23c);
    WordOfBytes([0xd6, 0x96, 0x3f, 0x7d], 0xd6, 0x96, 0x3f, 0x7d, 0x7d3f96d6);
    WordOfBytes([0x28, 0xe1, 0x7f, 0x72], 0x28, 0xe1, 0x7f, 0x72, 0x727fe128);
  }

  lemma ChainedAbc(p: seq<byte>)
    requires |p| == 64 && IsAbc(Words(p))
    ensures Compress(IV, p) == State(0x98500190, 0xb04fd23c, 0x7d3f96d6, 0x727fe128)
  {
    hide After, Words;
    AllSteps(Words(p));
  }

  /** MD5 ("abc") = 900150983cd24fb0d6963f7d28e17f72. */
  lemma KnownAnswer()
    ensures Md5([0x61, 0x62, 0x63], 0, 0)
            == [0x90, 0x01, 0x50, 0x98, 0x3c, 0xd2, 0x4f, 0xb0, 0xd6, 0x96, 0x3f, 0x7d, 0x28, 0xe1, 0x7f, 0x72]
  {
    hide Compress, Fold, IV, Padded, Words, Enc32le;
    InputWords();
    var p := Padded(ABC, 0, 0);
    OneBlock(p);
    ChainedAbc(p);
    Digests();
  }
}
