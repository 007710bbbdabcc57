/** MD5 of a message, as sections 3.1 to 3.5 of RFC 1321 define it. */
module Md5Spec {
  import opened LittleEndian
  import opened Md5Compress
  import opened Sequences

  const IV: State := State(0x67452301, 0xEFCDAB89, 0x98BADCFE, 0x10325476)

  /** Section 3.4: run the compression function over the whole blocks of `m`, in order. */
  function Fold(st: State, m: seq<byte>): State
    decreases |m|
  {
    if |m| < 64 then st else Fold(Compress(st, m[..64]), m[64..])
  }

  function Zeros(n: nat): (z: seq<byte>)
    ensures |z| == n
  {
    seq(n, _ => 0)
  }

  /** The number of zero bytes after the byte that carries the 1 bit. */
  function PadLength(n: nat): (k: nat)
    ensures k < 64
  {
    (119 - n % 64) % 64
  }

  /** The byte with the last `n` bits of the message, from the top of `ub`, then the 1 bit of the padding. */
  function FinalByte(ub: byte, n: nat): byte
    requires n < 8
  {
    var z: byte := 0x80 >> n;
    (ub & (0 - z)) | z
  }

  /** Sections 3.1 and 3.2: the 1 bit, zeros up to 56 modulo 64 bytes, and the length in bits modulo 2^64. */
  function Padded(m: seq<byte>, ub: byte, n: nat): seq<byte>
    requires n < 8
  {
    m + ([FinalByte(ub, n)] + Zeros(PadLength(|m|)) + EncodeLe(8 * |m| + n, 8))
  }

  /** Section 3.5: the four words, low-order byte first. */
  function Output(st: State): (bs: seq<byte>)
    ensures |bs| == 16
  {
    Enc32le(st.a) + Enc32le(st.b) + Enc32le(st.c) + Enc32le(st.d)
  }

  /** The digest of `m` followed by the top `n` bits of `ub`. */
  function Md5(m: seq<byte>, ub: byte, n: nat): (bs: seq<byte>)
    requires n < 8
    ensures |bs| == 16
  {
    Output(Fold(IV, Padded(m, ub, n)))
  }

  /** The padding is the shortest that leaves room for the length field at the end of a block. */
  lemma PaddingIsMinimal(n: nat, k: nat)
    ensures (n + 1 + PadLength(n)) % 64 == 56
    ensures (n + 1 + k) % 64 == 56 ==> PadLength(n) <= k
  {
    var q, r := n / 64, n % 64;
    assert n == 64 * q + r;
  }

  lemma PaddedLength(m: seq<byte>, ub: byte, n: nat)
    requires n < 8
    ensures |Padded(m, ub, n)| % 64 == 0
  {
    hide PadLength, FinalByte, EncodeLe;
    PaddingIsMinimal(|m|, 0);
    assert |Padded(m, ub, n)| == |m| + 1 + PadLength(|m|) + 8;
  }

  /** Bit `i` of a byte. */
  predicate Bit(b: byte, i: nat)
    requires i < 8
  {
    (b >> i) & 1 == 1
  }

  /** The final byte keeps the top `n` bits of `ub`, then has a 1 and zeros. */
  lemma FinalByteBits(ub: byte, n: nat, i: nat)
    requires n < 8 && i < 8
    ensures Bit(FinalByte(ub, n), i) == if i > 7 - n then Bit(ub, i) else i == 7 - n
  {
    if n == 0 {
    } else if n == 1 {
    } else if n == 2 {
    } else if n == 3 {
    } else if n == 4 {
    } else if n == 5 {
    } else if n == 6 {
    } else {
    }
  }

  /** Folding is sequential over whole blocks. */
  lemma {:induction false} FoldAppend(st: State, m: seq<byte>, d: seq<byte>)
    requires |m| % 64 == 0
    ensures Fold(st, m + d) == Fold(Fold(st, m), d)
    decreases |m|
  {
    hide Compress;
    if |m| < 64 {
      assert m == [];
      Empty(d);
    } else {
      assert (m + d)[..64] == m[..64] && (m + d)[64..] == m[64..] + d;
      FoldAppend(Compress(st, m[..64]), m[64..], d);
    }
  }

  /** One more block. */
  lemma FoldBlock(st: State, m: seq<byte>, block: seq<byte>)
    requires |m| % 64 == 0 && |block| == 64
    ensures Fold(st, m + block) == Compress(Fold(st, m), block)
  {
    hide Compress;
    FoldAppend(st, m, block);
    assert block[..64] == block && block[64..] == [];
  }
}
