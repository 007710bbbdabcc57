/** Little-endian encoding and decoding of unsigned integers (sph_types.h). */
module LittleEndian {
  import opened Arithmetic
  import WordBits

  type byte = bv8
  type word = WordBits.word

  /** 256 to the power `k`. */
  function Power256(k: nat): (p: nat)
    ensures p > 0
  {
    if k == 0 then 1 else 256 * Power256(k - 1)
  }

  /** The low `k` bytes of `v`, least significant first. */
  function EncodeLe(v: nat, k: nat): (bs: seq<byte>)
    ensures |bs| == k
  {
    if k == 0 then [] else [(v % 256) as byte] + EncodeLe(v / 256, k - 1)
  }

  /** The value of `bs`, least significant byte first. */
  function DecodeLe(bs: seq<byte>): (v: nat)
    ensures v < Power256(|bs|)
  {
    if bs == [] then 0 else bs[0] as nat + 256 * DecodeLe(bs[1..])
  }

  lemma DigitOfRemainder(v: nat, p: nat)
    requires p > 0
    ensures v % (256 * p) == v % 256 + 256 * ((v / 256) % p)
  {
    var q, r := (v / 256) / p, (v / 256) % p;
    assert v / 256 == q * p + r;
    assert v == q * (256 * p) + (v % 256 + 256 * r) by {
      assert 256 * (q * p) == q * (256 * p);
    }
    DivModUnique(v, 256 * p, q, v % 256 + 256 * r);
  }

  function ByteAsNat(b: byte): nat {
    b as nat
  }

  function NatAsByte(n: nat): byte
    requires n < 256
  {
    n as byte
  }

  lemma ByteZero()
    ensures ByteAsNat(0) == 0
  {
  }

  lemma ByteIncrement(c: byte)
    ensures ByteAsNat(c) < 255 ==> ByteAsNat(c + 1) == ByteAsNat(c) + 1
  {
  }

  lemma ByteOf(n: nat) returns (b: byte)
    requires n < 256
    ensures ByteAsNat(b) == n
  {
    hide ByteAsNat;
    if n == 0 {
      b := 0;
      ByteZero();
    } else {
      var c := ByteOf(n - 1);
      b := c + 1;
      ByteIncrement(c);
    }
  }

  lemma ByteBackAndForth(b: byte)
    ensures ByteAsNat(b) < 256 && NatAsByte(ByteAsNat(b)) == b
  {
  }

  lemma ByteOfNat(n: nat)
    requires n < 256
    ensures ByteAsNat(NatAsByte(n)) == n
  {
    hide ByteAsNat, NatAsByte;
    var b := ByteOf(n);
    ByteBackAndForth(b);
  }

  /** Converting to a byte and back changes nothing below 256. */
  lemma ByteValue(n: nat)
    requires n < 256
    ensures (n as byte) as nat == n
  {
    ByteOfNat(n);
  }

  lemma FirstByte(v: nat, k: nat)
    requires k > 0
    ensures DecodeLe(EncodeLe(v, k)) == v % 256 + 256 * DecodeLe(EncodeLe(v / 256, k - 1))
  {
    hide Power256;
    ByteValue(v % 256);
    assert EncodeLe(v, k)[0] == (v % 256) as byte && EncodeLe(v, k)[1..] == EncodeLe(v / 256, k - 1);
  }

  /** Decoding undoes encoding, modulo what fits in `k` bytes. */
  lemma {:induction false} DecodeEncode(v: nat, k: nat)
    ensures DecodeLe(EncodeLe(v, k)) == v % Power256(k)
  {
    if k > 0 {
      DecodeEncode(v / 256, k - 1);
      DigitOfRemainder(v, Power256(k - 1));
      FirstByte(v, k);
    }
  }

  /** Encoding undoes decoding. */
  lemma {:induction false} EncodeDecode(bs: seq<byte>)
    ensures EncodeLe(DecodeLe(bs), |bs|) == bs
  {
    if bs != [] {
      EncodeDecode(bs[1..]);
      var v := DecodeLe(bs);
      DivModUnique(v, 256, DecodeLe(bs[1..]), bs[0] as nat);
      assert (bs[0] as nat) as byte == bs[0];
    }
  }

  lemma LowDigit(low: nat, p: nat, high: nat)
    requires low < 256 * p
    ensures (low + 256 * p * high) % 256 == low % 256
    ensures (low + 256 * p * high) / 256 == low / 256 + p * high
  {
    assert 256 * p * high == 256 * (p * high);
    DivModUnique(low + 256 * p * high, 256, low / 256 + p * high, low % 256);
  }

  /** A long encoding is the encodings of its low and its high part. */
  lemma {:induction false} EncodeInParts(low: nat, high: nat, k: nat, m: nat)
    requires low < Power256(k)
    ensures EncodeLe(low + Power256(k) * high, k + m) == EncodeLe(low, k) + EncodeLe(high, m)
  {
    if k > 0 {
      LowDigit(low, Power256(k - 1), high);
      EncodeInParts(low / 256, high, k - 1, m);
    }
  }

  /** Only the value modulo `256^k` matters to a `k`-byte encoding. */
  lemma {:induction false} EncodeModulo(v: nat, k: nat)
    ensures EncodeLe(v % Power256(k), k) == EncodeLe(v, k)
  {
    DecodeEncode(v, k);
    EncodeDecode(EncodeLe(v, k));
  }

  /** A 32-bit word as four bytes, and back. */
  function Enc32le(w: word): (bs: seq<byte>)
    ensures |bs| == 4
  {
    EncodeLe(WordBits.Value(w), 4)
  }

  lemma FourBytes()
    ensures Power256(4) == WordBits.TWO32
  {
  }

  function Dec32le(bs: seq<byte>): word
    requires |bs| == 4
  {
    FourBytes();
    WordBits.Word(DecodeLe(bs))
  }

  lemma WordRoundTrip(w: word)
    ensures Dec32le(Enc32le(w)) == w
  {
    hide EncodeLe, DecodeLe, Power256, WordBits.Value, WordBits.Word;
    FourBytes();
    WordBits.BackAndForth(w);
    DecodeEncode(WordBits.Value(w), 4);
  }

  lemma BytesRoundTrip(bs: seq<byte>)
    requires |bs| == 4
    ensures Enc32le(Dec32le(bs)) == bs
  {
    hide EncodeLe, DecodeLe, Power256, WordBits.Value, WordBits.Word;
    FourBytes();
    WordBits.ThereAndBack(DecodeLe(bs));
    EncodeDecode(bs);
  }
}
