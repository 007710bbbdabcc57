/** The streaming MD5 engine (md_helper.c, instantiated by sph_md5.c).

    A context consumes a message piece by piece through a 64-byte buffer, with a fast path that runs the
    compression function directly on the caller's bytes. The abstract state is the message so far,
    `done + tail`; every method's contract is about that message, so the digest cannot depend on how the
    message was cut, on the alignment of the pieces, or on which of the two counters the build uses.
  */
module Md5Context {
  import opened Arithmetic
  import opened LittleEndian
  import opened Md5Compress
  import opened Md5Spec
  import opened Sequences
  import WordBits

  const TWO32 := WordBits.TWO32
  const TWO64: nat := 0x1_0000_0000_0000_0000

  /** `memcpy(dst + at, src, |src|)`. */
  method Memcpy(dst: array<byte>, at: nat, src: seq<byte>)
    requires at + |src| <= dst.Length
    modifies dst
    ensures dst[..] == old(dst[..at]) + src + old(dst[at + |src|..])
  {
    forall i | 0 <= i < |src| {
      dst[at + i] := src[i];
    }
  }

  /** `memset(dst + from, 0, to - from)`. */
  method Memzero(dst: array<byte>, from: nat, to: nat)
    requires from <= to <= dst.Length
    modifies dst
    ensures dst[..] == old(dst[..from]) + Zeros(to - from) + old(dst[to..])
  {
    forall i | from <= i < to {
      dst[i] := 0;
    }
  }

  lemma OffsetFromCount(done: nat, tail: nat, count: nat)
    requires done % 64 == 0 && tail < 64 && count == (done + tail) % TWO64
    ensures count % 64 == tail
  {
    ModOfMod(done + tail, 64, TWO64 / 64);
  }

  lemma LowBits(low: nat, high: nat)
    ensures (low + TWO32 * high) % 64 == low % 64
  {
    ModPlusMultiple(low, (TWO32 / 64) * high, 64);
  }

  /** The two words `low` and `high` after adding `k`. */
  function CarriedHigh(low: nat, high: nat, k: nat): nat
  {
    ((if (low + k) % TWO32 < low then (high + 1) % TWO32 else high) + k / TWO32) % TWO32
  }

  /** The carry test is right for every length, not only for those below 2^32. */
  lemma CarryRefinesSum(low: nat, high: nat, n: nat, k: nat)
    requires low < TWO32 && high < TWO32 && low + TWO32 * high == n % TWO64
    ensures (low + k) % TWO32 + TWO32 * CarriedHigh(low, high, k) == (n + k) % TWO64
  {
    ModOfSum(n, k, TWO64);
    var k0, k1 := k % TWO32, k / TWO32;
    assert k == k0 + TWO32 * k1;
    var carry := if low + k0 >= TWO32 then 1 else 0;
    var low' := low + k0 - TWO32 * carry;
    DivModUnique(low + k, TWO32, k1 + carry, low');
    var sum := high + carry + k1;
    assert low + TWO32 * high + k == low' + TWO32 * sum;
    var q := sum / TWO32;
    assert sum == q * TWO32 + sum % TWO32;
    DivModUnique(low + TWO32 * high + k, TWO64, q, low' + TWO32 * (sum % TWO32));
    assert CarriedHigh(low, high, k) == sum % TWO32 by {
      if carry == 1 {
        ModOfSum(high + 1, k1, TWO32);
      }
    }
  }

  lemma ShortCarry(low: nat, high: nat, n: nat, k: nat)
    requires low < TWO32 && high < TWO32 && low + TWO32 * high == n % TWO64 && k <= 64
    ensures var high' := if (low + k) % TWO32 < low then (high + 1) % TWO32 else high;
            high' < TWO32 && (low + k) % TWO32 + TWO32 * high' == (n + k) % TWO64
  {
    CarryRefinesSum(low, high, n, k);
    assert k / TWO32 == 0;
  }

  /** A message grows by a chunk that stays in the buffer, or that completes a block. */
  lemma Grow(done: seq<byte>, tail: seq<byte>, chunk: seq<byte>)
    requires |done| % 64 == 0 && |tail| + |chunk| <= 64
    ensures (done + tail) + chunk == done + (tail + chunk)
    ensures |tail| + |chunk| == 64 ==>
              |done + (tail + chunk)| % 64 == 0
              && Fold(IV, done + (tail + chunk)) == Compress(Fold(IV, done), tail + chunk)
  {
    hide Compress, Fold, IV;
    Assoc(done, tail, chunk);
    if |tail| + |chunk| == 64 {
      FoldBlock(IV, done, tail + chunk);
    }
  }

  lemma BlockBoundary(done: nat, tail: nat, total: nat)
    requires done % 64 == 0 && tail < 64 && total == done + tail && total % 64 == 0
    ensures tail == 0
  {
  }

  lemma EightBytes()
    ensures Power256(8) == TWO64 && Power256(4) == TWO32
  {
  }

  lemma ShiftedWords(low: nat, high: nat, n: nat)
    requires low < TWO32 && high < TWO32 && n < 8
    ensures var low', high' := (low * 8) % TWO32 + n, (high * 8 + low / 0x2000_0000) % TWO32;
            low' < TWO32 && low' + TWO32 * high' == ((low + TWO32 * high) * 8) % TWO64 + n
  {
    var c := low / 0x2000_0000;
    DivModUnique(low * 8, TWO32, c, low * 8 - TWO32 * c);
    var h := high * 8 + c;
    var q := h / TWO32;
    assert h == q * TWO32 + h % TWO32;
    DivModUnique((low + TWO32 * high) * 8, TWO64, q, (low * 8) % TWO32 + TWO32 * (h % TWO32));
  }

  lemma WideLength(total: nat, n: nat)
    requires n < 8
    ensures EncodeLe((total % TWO64 * 8) % TWO64 + n, 8) == EncodeLe(8 * total + n, 8)
  {
    hide EncodeLe;
    EightBytes();
    hide Power256;
    var q, r := total / TWO64, total % TWO64;
    assert total == q * TWO64 + r;
    DivModUnique(8 * r, TWO64, 8 * r / TWO64, 8 * r % TWO64);
    var v := (8 * r) % TWO64 + n;
    assert v < TWO64;
    assert 8 * total + n == (8 * q + 8 * r / TWO64) * TWO64 + v;
    DivModUnique(8 * total + n, TWO64, 8 * q + 8 * r / TWO64, v);
    EncodeModulo(8 * total + n, 8);
  }

  /** The shifted and recombined words encode to the same eight bytes as the 64-bit counter. */
  lemma SplitLength(low: nat, high: nat, total: nat, n: nat)
    requires low < TWO32 && high < TWO32 && low + TWO32 * high == total % TWO64 && n < 8
    ensures var low', high' := (low * 8) % TWO32 + n, (high * 8 + low / 0x2000_0000) % TWO32;
            EncodeLe(low', 4) + EncodeLe(high', 4) == EncodeLe(8 * total + n, 8)
  {
    hide EncodeLe;
    EightBytes();
    var low', high' := (low * 8) % TWO32 + n, (high * 8 + low / 0x2000_0000) % TWO32;
    EncodeInParts(low', high', 4, 4);
    ShiftedWords(low, high, n);
    WideLength(total, n);
  }

  /** The padded message is the compressed blocks, then the buffer padded to one block or to two. */
  lemma OneOrTwoBlocks(done: seq<byte>, tail: seq<byte>, ub: byte, n: nat, length: seq<byte>)
    requires |done| % 64 == 0 && |tail| < 64 && n < 8
    requires length == EncodeLe(8 * (|done| + |tail|) + n, 8)
    ensures var st, head := Fold(IV, done), tail + [FinalByte(ub, n)];
            Fold(IV, Padded(done + tail, ub, n))
            == if |tail| < 56 then Compress(st, head + Zeros(55 - |tail|) + length)
               else Compress(Compress(st, head + Zeros(63 - |tail|)), Zeros(56) + length)
  {
    hide Compress, Fold, IV, FinalByte, EncodeLe;
    var head := tail + [FinalByte(ub, n)];
    var pad := PadLength(|done| + |tail|);
    if |tail| < 56 {
      assert pad == 55 - |tail|;
      var block := head + Zeros(55 - |tail|) + length;
      assert Padded(done + tail, ub, n) == done + block;
      FoldBlock(IV, done, block);
    } else {
      assert pad == 119 - |tail|;
      var b1, b2 := head + Zeros(63 - |tail|), Zeros(56) + length;
      assert Zeros(63 - |tail|) + Zeros(56) == Zeros(pad);
      assert Padded(done + tail, ub, n) == (done + b1) + b2;
      FoldBlock(IV, done, b1);
      FoldBlock(IV, done + b1, b2);
    }
  }

  class Context {
    /** Whether the build has a 64-bit type: one counter, or two 32-bit words. */
    const sph64: bool

    var buf: array<byte>
    var val: array<word>
    var count: nat
    var countHigh: nat
    var countLow: nat

    /** The message so far: whole blocks already compressed, and the part in the buffer. */
    ghost var done: seq<byte>
    ghost var tail: seq<byte>

    /** The counter, in either form, holds `n` modulo 2^64. */
    ghost predicate Counts(n: nat)
      reads `count, `countHigh, `countLow
    {
      if sph64 then count == n % TWO64
      else countLow < TWO32 && countHigh < TWO32 && countLow + TWO32 * countHigh == n % TWO64
    }

    ghost predicate Valid()
      reads this, buf, val
    {
      buf.Length == 64 && val.Length == 4
      && |done| % 64 == 0 && |tail| < 64
      && buf[..|tail|] == tail
      && State(val[0], val[1], val[2], val[3]) == Fold(IV, done)
      && Counts(|done| + |tail|)
    }

    ghost function Message(): seq<byte>
      reads `done, `tail
    {
      done + tail
    }

    /** `sph_md5_init` on a new context. */
    constructor (sph64: bool)
      ensures Valid() && Message() == [] && fresh(buf) && fresh(val) && this.sph64 == sph64
    {
      this.sph64 := sph64;
      buf := new byte[64];
      val := new word[4][IV.a, IV.b, IV.c, IV.d];
      count, countHigh, countLow := 0, 0, 0;
      done, tail := [], [];
    }

    /** `sph_md5_init`: back to the empty message. */
    method Init()
      requires buf.Length == 64 && val.Length == 4
      modifies this`count, this`countHigh, this`countLow, this`done, this`tail, val
      ensures Valid() && Message() == []
    {
      val[0], val[1], val[2], val[3] := IV.a, IV.b, IV.c, IV.d;
      count, countHigh, countLow := 0, 0, 0;
      done, tail := [], [];
    }

    /** The offset in the buffer: the low six bits of the counter. */
    method Current() returns (current: nat)
      requires Valid()
      ensures current == |tail|
    {
      current := if sph64 then count % 64 else countLow % 64;
      OffsetFromCount(|done|, |tail|, if sph64 then count else countLow + TWO32 * countHigh);
      LowBits(countLow, countHigh);
    }

    /** The counter update of the buffered path, for at most a block. */
    method CountShort(clen: nat, ghost n: nat)
      requires Counts(n) && clen <= 64
      modifies `count, `countHigh, `countLow
      ensures Counts(n + clen)
    {
      if sph64 {
        count := (count + clen) % TWO64;
        ModOfSum(n, clen, TWO64);
      } else {
        ShortCarry(countLow, countHigh, n, clen);
        var clow := countLow;
        var clow2 := (clow + clen) % TWO32;
        countLow := clow2;
        if clow2 < clow {
          countHigh := (countHigh + 1) % TWO32;
        }
      }
    }

    /** The counter update of the direct path: the carry out of the low word, and the part of the length
        that does not fit in it. */
    method CountLong(origLen: nat, ghost n: nat)
      requires Counts(n) && origLen < TWO64
      modifies `count, `countHigh, `countLow
      ensures Counts(n + origLen)
    {
      if sph64 {
        count := (count + origLen) % TWO64;
        ModOfSum(n, origLen, TWO64);
      } else {
        CarryRefinesSum(countLow, countHigh, n, origLen);
        var clow := countLow;
        var clow2 := (clow + origLen) % TWO32;
        countLow := clow2;
        if clow2 < clow {
          countHigh := (countHigh + 1) % TWO32;
        }
        countHigh := (countHigh + origLen / TWO32) % TWO32;
      }
    }

    /** `md5_short`: copy into the buffer, compressing it whenever it is full. */
    method Short(bytes: seq<byte>)
      requires Valid()
      modifies this`count, this`countHigh, this`countLow, this`done, this`tail, buf, val
      ensures Valid() && Message() == old(Message()) + bytes
    {
      hide Compress, Fold, Counts, IV;
      var data := bytes;
      var current := Current();
      Empty(Message());
      while |data| > 0
        invariant Valid() && current == |tail|
        invariant Message() + data == old(Message()) + bytes
        decreases |data|
      {
        var clen := 64 - current;
        if clen > |data| {
          clen := |data|;
        }
        var chunk := data[..clen];
        Grow(done, tail, chunk);
        Assoc(Message(), chunk, data[clen..]);
        Split(data, clen);
        ghost var n := |done| + |tail|;
        Memcpy(buf, current, chunk);
        assert buf[..current + clen] == tail + chunk;
        data := data[clen..];
        current := current + clen;
        if current == 64 {
          assert buf[..] == tail + chunk;
          Md5Round(buf[..], val);
          done, tail := done + (tail + chunk), [];
          Empty(done);
          current := 0;
        } else {
          tail := tail + chunk;
        }
        CountShort(clen, n);
      }
      Empty(Message());
    }

    /** Compress the first block of `data` where it lies. */
    method Block(data: seq<byte>)
      requires buf.Length == 64 && val.Length == 4 && |data| >= 64 && |done| % 64 == 0
      requires State(val[0], val[1], val[2], val[3]) == Fold(IV, done)
      modifies `done, val
      ensures |done| == |old(done)| + 64 && done + data[64..] == old(done) + data
      ensures State(val[0], val[1], val[2], val[3]) == Fold(IV, done)
    {
      hide Compress, Fold, IV;
      Split(data, 64);
      Assoc(done, data[..64], data[64..]);
      FoldBlock(IV, done, data[..64]);
      Md5Round(data[..64], val);
      done := done + data[..64];
    }

    /** The direct path of `sph_md5`: compress whole blocks where they lie and keep the remainder. */
    method Direct(bytes: seq<byte>)
      requires Valid() && tail == [] && |bytes| < TWO64
      modifies this`count, this`countHigh, this`countLow, this`done, this`tail, buf, val
      ensures Valid() && Message() == old(Message()) + bytes
    {
      hide Compress, Fold, Counts, IV;
      var data := bytes;
      var origLen := |data|;
      ghost var n := |done|;
      Empty(done);
      while |data| >= 64
        invariant buf.Length == 64 && val.Length == 4 && tail == [] && Counts(n) && |done| % 64 == 0
        invariant State(val[0], val[1], val[2], val[3]) == Fold(IV, done)
        invariant done + data == old(done) + bytes && n + origLen == |done| + |data|
        decreases |data|
      {
        Block(data);
        data := data[64..];
      }
      if |data| > 0 {
        Memcpy(buf, 0, data);
      }
      tail := data;
      assert buf[..|tail|] == tail;
      CountLong(origLen, n);
    }

    /** `sph_md5`: `address` is where the bytes lie, and `unaligned` whether the machine reads unaligned
        words efficiently; neither shows in the contract. */
    method Update(bytes: seq<byte>, address: nat, unaligned: bool)
      requires Valid() && |bytes| < TWO64
      modifies this`count, this`countHigh, this`countLow, this`done, this`tail, buf, val
      ensures Valid() && Message() == old(Message()) + bytes
    {
      hide Compress, Fold, Counts, IV;
      if |bytes| < 2 * 64 {
        Short(bytes);
        return;
      }
      var data := bytes;
      var at := address;
      var current := Current();
      Empty(Message());
      if current > 0 {
        var t := 64 - current;
        Assoc(Message(), data[..t], data[t..]);
        Split(data, t);
        Short(data[..t]);
        BlockBoundary(|done|, |tail|, |old(Message())| - current + 64);
        data := data[t..];
        at := at + t;
      }
      if !unaligned && at % 4 != 0 {
        Short(data);
        return;
      }
      Direct(data);
    }

    /** Write the closing byte behind the message. */
    method Mark(ub: byte, n: nat) returns (current: nat)
      requires Valid() && n < 8
      modifies buf
      ensures current == |tail| + 1 && buf[..current] == tail + [FinalByte(ub, n)]
    {
      hide Compress, Fold, IV, Counts;
      current := Current();
      var z: byte := 0x80 >> n;
      buf[current] := (ub & (0 - z)) | z;
      current := current + 1;
    }

    /** The part of `md5_addbits_and_close` before the length field: close the message with the top `n` bits
        of `ub` and the 1 bit, and zero the buffer up to the field, in the next block when need be. */
    method ClosePadding(ub: byte, n: nat)
      requires Valid() && n < 8
      modifies buf, val
      ensures var st, head := Fold(IV, done), tail + [FinalByte(ub, n)];
              if |tail| < 56
              then buf[..56] == head + Zeros(55 - |tail|) && State(val[0], val[1], val[2], val[3]) == st
              else buf[..56] == Zeros(56)
                   && State(val[0], val[1], val[2], val[3]) == Compress(st, head + Zeros(63 - |tail|))
    {
      hide Compress, Fold, IV, Counts, FinalByte;
      var current := Mark(ub, n);
      ghost var head := tail + [FinalByte(ub, n)];
      if current > 56 {
        Memzero(buf, current, 64);
        assert buf[..] == head + Zeros(64 - current);
        Md5Round(buf[..], val);
        Memzero(buf, 0, 56);
        assert buf[..56] == Zeros(56);
      } else {
        Memzero(buf, current, 56);
        assert buf[..56] == head + Zeros(56 - current);
      }
    }

    /** The length field from the two words of the counter. */
    method NarrowLength(n: nat) returns (bs: seq<byte>)
      requires !sph64 && Counts(|done| + |tail|) && n < 8
      ensures bs == EncodeLe(8 * (|done| + |tail|) + n, 8)
    {
      hide EncodeLe, WordBits.Value, WordBits.Word;
      var low := countLow;
      var high := (WordBits.Word(countHigh) << 3) | (WordBits.Word(low) >> 29);
      WordBits.ThereAndBack(countHigh);
      WordBits.ThereAndBack(low);
      WordBits.HighWord(WordBits.Word(countHigh), WordBits.Word(low));
      low := (low * 8) % TWO32 + n;
      SplitLength(countLow, countHigh, |done| + |tail|, n);
      bs := EncodeLe(low, 4) + Enc32le(high);
    }

    /** The length field, from either form of the counter. */
    method EncodedLength(n: nat) returns (bs: seq<byte>)
      requires Counts(|done| + |tail|) && n < 8
      ensures bs == EncodeLe(8 * (|done| + |tail|) + n, 8)
    {
      hide EncodeLe;
      if sph64 {
        bs := EncodeLe((count * 8) % TWO64 + n, 8);
        WideLength(|done| + |tail|, n);
      } else {
        bs := NarrowLength(n);
      }
    }

    /** The output loop of `md5_addbits_and_close`, with `rnum == 4`. */
    method WriteDigest(dst: array<byte>)
      requires val.Length == 4 && dst.Length == 16
      modifies dst
      ensures dst[..] == Output(State(val[0], val[1], val[2], val[3]))
    {
      hide Enc32le;
      var u := 0;
      ghost var w := [];
      while u < 4
        invariant 0 <= u <= 4 && |w| == 4 * u && dst[..4 * u] == w
        invariant u == 1 ==> w == Enc32le(val[0])
        invariant u == 2 ==> w == Enc32le(val[0]) + Enc32le(val[1])
        invariant u == 3 ==> w == Enc32le(val[0]) + Enc32le(val[1]) + Enc32le(val[2])
        invariant u == 4 ==> w == Enc32le(val[0]) + Enc32le(val[1]) + Enc32le(val[2]) + Enc32le(val[3])
      {
        Memcpy(dst, 4 * u, Enc32le(val[u]));
        w := w + Enc32le(val[u]);
        u := u + 1;
      }
      assert dst[..16] == dst[..];
    }

    /** `md5_addbits_and_close`: pad, compress, and write the digest. */
    method AddBitsAndClose(ub: byte, n: nat, dst: array<byte>)
      requires Valid() && n < 8 && dst.Length == 16 && dst != buf
      modifies buf, val, dst
      ensures dst[..] == Md5(old(Message()), ub, n)
    {
      hide Compress, Fold, IV, Enc32le, EncodeLe, Padded, Counts, FinalByte, Output;
      ClosePadding(ub, n);
      var length := EncodedLength(n);
      ghost var front := buf[..56];
      Memcpy(buf, 56, length);
      assert buf[..] == front + length;
      OneOrTwoBlocks(done, tail, ub, n, length);
      Md5Round(buf[..], val);
      WriteDigest(dst);
    }

    /** `sph_md5_addbits_and_close`: the digest of the message and the extra bits; the context starts over. */
    method AddBitsAndFinish(ub: byte, n: nat, dst: array<byte>)
      requires Valid() && n < 8 && dst.Length == 16 && dst != buf
      modifies this`count, this`countHigh, this`countLow, this`done, this`tail, buf, val, dst
      ensures dst[..] == Md5(old(Message()), ub, n)
      ensures Valid() && Message() == []
    {
      AddBitsAndClose(ub, n, dst);
      Init();
    }

    /** `sph_md5_close`. */
    method Finish(dst: array<byte>)
      requires Valid() && dst.Length == 16 && dst != buf
      modifies this`count, this`countHigh, this`countLow, this`done, this`tail, buf, val, dst
      ensures dst[..] == Md5(old(Message()), 0, 0)
      ensures Valid() && Message() == []
    {
      AddBitsAndFinish(0, 0, dst);
    }
  }

  /** The bytes of all chunks, in order. */
  function Concat(chunks: seq<seq<byte>>): seq<byte>
  {
    if chunks == [] then [] else Concat(chunks[..|chunks| - 1]) + chunks[|chunks| - 1]
  }

  /** `getHashFromFile` on the chunks that reading produces: the digest of their concatenation, whatever the
      chunk sizes, the places the chunks lie at and the build. */
  method HashChunks(chunks: seq<seq<byte>>, addresses: seq<nat>, sph64: bool, unaligned: bool)
    returns (digest: seq<byte>)
    requires |addresses| == |chunks| && forall c :: c in chunks ==> |c| < TWO64
    ensures digest == Md5(Concat(chunks), 0, 0)
  {
    hide Md5, IV, Fold, Compress;
    var ctx := new Context(sph64);
    var i := 0;
    while i < |chunks|
      invariant 0 <= i <= |chunks| && ctx.Valid() && fresh(ctx) && fresh(ctx.buf) && fresh(ctx.val)
      invariant ctx.Message() == Concat(chunks[..i])
    {
      assert chunks[..i + 1][..i] == chunks[..i];
      ctx.Update(chunks[i], addresses[i], unaligned);
      i := i + 1;
    }
    assert chunks[..i] == chunks;
    var dst := new byte[16];
    ctx.Finish(dst);
    digest := dst[..];
  }
}
