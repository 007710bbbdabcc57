/** Dynamic strings whose header changes with their size (sds.c, sds.h).

    A string is a header with a length and a capacity, and a buffer with a NUL behind the text. The width of
    the header fields depends on the header type; the smallest type has no capacity field and so no memory of
    free space.
  */
module SdsBuffer {
  import opened Buffers
  import opened LittleEndian
  import opened Sequences

  const NUL := '\0'
  const SDS_MAX_PREALLOC := 0x10_0000
  const SIZE_MAX := 0xFFFF_FFFF_FFFF_FFFF

  datatype Kind = Type5 | Type8 | Type16 | Type32 | Type64

  /** The header fields of a type hold numbers below this. */
  function Limit(kind: Kind): nat {
    match kind
    case Type5 => 0x20
    case Type8 => 0x100
    case Type16 => 0x1_0000
    case Type32 => 0x1_0000_0000
    case Type64 => 0x1_0000_0000_0000_0000
  }

  function HdrSize(kind: Kind): nat {
    match kind
    case Type5 => 1
    case Type8 => 3
    case Type16 => 5
    case Type32 => 9
    case Type64 => 17
  }

  /** `sdsReqType`. */
  function ReqType(size: nat): Kind {
    if size < 0x20 then Type5
    else if size < 0x100 then Type8
    else if size < 0x1_0000 then Type16
    else if size < 0x1_0000_0000 then Type32
    else Type64
  }

  /** The type chosen is the smallest one that can hold the size. */
  lemma ReqTypeIsSmallest(size: nat)
    requires size <= SIZE_MAX
    ensures size < Limit(ReqType(size))
    ensures forall k: Kind :: size < Limit(k) ==> Limit(ReqType(size)) <= Limit(k)
  {
  }

  /** A header is a flags byte and two fields, each as wide as the numbers it holds; the smallest type has its length in
      five bits of the flags. */
  lemma FieldsFitHeader(kind: Kind)
    ensures kind != Type5 ==> Limit(kind) == Power256((HdrSize(kind) - 1) / 2) && HdrSize(kind) % 2 == 1
    ensures kind == Type5 ==> Limit(kind) == 32 && HdrSize(kind) == 1
  {
    assert Power256(1) == 256 * Power256(0);
    assert Power256(2) == 256 * Power256(1);
    assert Power256(3) == 256 * Power256(2);
    assert Power256(4) == 256 * Power256(3);
    assert Power256(5) == 256 * Power256(4);
    assert Power256(6) == 256 * Power256(5);
    assert Power256(7) == 256 * Power256(6);
    assert Power256(8) == 256 * Power256(7);
  }

  /** The capacity that growing to `wanted` characters asks for. */
  function Preallocate(wanted: nat): nat {
    if wanted < SDS_MAX_PREALLOC then wanted * 2 else wanted + SDS_MAX_PREALLOC
  }

  /** The size of the block fits in a `size_t`; no larger one can be allocated. */
  predicate Allocatable(size: nat) {
    size + HdrSize(Type64) + 1 <= SIZE_MAX
  }

  // ----- sizes over a run -----

  /** Length, capacity, and how many characters growing has moved so far. */
  datatype Shape = Shape(len: nat, alloc: nat, moved: nat)

  /** Make room for `add` more characters. */
  function Room(s: Shape, add: nat): Shape {
    if s.alloc >= s.len + add then s else Shape(s.len, Preallocate(s.len + add), s.moved + s.len)
  }

  /** Append `add` characters. */
  function Cat(s: Shape, add: nat): Shape {
    Room(s, add).(len := s.len + add)
  }

  function CatAll(s: Shape, adds: seq<nat>): Shape
    decreases |adds|
  {
    if adds == [] then s else CatAll(Cat(s, adds[0]), adds[1..])
  }

  function Sum(adds: seq<nat>): nat {
    if adds == [] then 0 else adds[0] + Sum(adds[1..])
  }

  /** Every growth in the run doubles. */
  predicate Doubling(s: Shape, adds: seq<nat>)
    decreases |adds|
  {
    adds == []
    || ((s.alloc >= s.len + adds[0] || s.len + adds[0] < SDS_MAX_PREALLOC) && Doubling(Cat(s, adds[0]), adds[1..]))
  }

  function Potential(s: Shape): nat {
    if 2 * s.len >= s.alloc then 2 * s.len - s.alloc else 0
  }

  /** One append pays for what it moves out of the potential. */
  lemma CatAmortised(s: Shape, add: nat)
    requires s.len <= s.alloc && (s.alloc >= s.len + add || s.len + add < SDS_MAX_PREALLOC)
    ensures var t := Cat(s, add);
            t.moved + Potential(t) <= s.moved + Potential(s) + 2 * add && t.len == s.len + add <= t.alloc
  {
  }

  lemma {:induction false} RunAmortised(s: Shape, adds: seq<nat>)
    requires s.len <= s.alloc && Doubling(s, adds)
    ensures var t := CatAll(s, adds);
            t.moved + Potential(t) <= s.moved + Potential(s) + 2 * Sum(adds)
            && t.len == s.len + Sum(adds) <= t.alloc
    decreases |adds|
  {
    hide Cat, Potential;
    if adds != [] {
      CatAmortised(s, adds[0]);
      RunAmortised(Cat(s, adds[0]), adds[1..]);
    }
  }

  /** Any run of appends that starts without free space moves at most the initial length plus twice what it
      appends, as long as growing doubles. */
  lemma AppendsAreAmortised(s: Shape, adds: seq<nat>)
    requires s.len == s.alloc && Doubling(s, adds)
    ensures CatAll(s, adds).moved - s.moved <= s.len + 2 * Sum(adds)
  {
    RunAmortised(s, adds);
  }

  /** Growing doubles as long as the text stays below 1 MiB. */
  lemma {:induction false} ShortRunsDouble(s: Shape, adds: seq<nat>)
    requires s.len + Sum(adds) < SDS_MAX_PREALLOC
    ensures Doubling(s, adds)
    decreases |adds|
  {
    if adds != [] {
      ShortRunsDouble(Cat(s, adds[0]), adds[1..]);
    }
  }

  predicate Spacious(s: Shape, bound: nat) {
    s.alloc <= bound || s.alloc - s.len <= if s.len < 0x10_0000 then s.len else 0x10_0000
  }

  lemma CatIsFrugal(s: Shape, add: nat, bound: nat)
    requires Spacious(s, bound)
    ensures Spacious(Cat(s, add), bound)
  {
  }

  lemma {:induction false} FreeSpaceStaysBounded(s: Shape, adds: seq<nat>, bound: nat)
    requires Spacious(s, bound)
    ensures Spacious(CatAll(s, adds), bound)
    decreases |adds|
  {
    hide Cat, Spacious;
    if adds != [] {
      CatIsFrugal(s, adds[0], bound);
      FreeSpaceStaysBounded(Cat(s, adds[0]), adds[1..], bound);
    }
  }

  /** Growing is frugal: after any run of appends, the capacity is that of the start, or at most as much is free as is
      in use, and never more than 1 MiB. */
  lemma {:induction false} FreeSpaceIsBounded(s: Shape, adds: seq<nat>)
    ensures var t := CatAll(s, adds);
            t.alloc <= s.alloc || (t.alloc - t.len <= t.len && t.alloc - t.len <= 0x10_0000)
  {
    FreeSpaceStaysBounded(s, adds, s.alloc);
  }

  // ----- the strings -----

  function Zeros(n: nat): (r: string)
    ensures |r| == n && forall i :: 0 <= i < n ==> r[i] == '\0'
  {
    seq(n, _ => NUL)
  }

  class Sds {
    var kind: Kind
    var len: nat
    /** The capacity field; the smallest type has none. */
    var allocField: nat
    var buf: array<char>

    /** How many characters of old content growing has moved. */
    ghost var moved: nat

    /** `sdsalloc`. */
    function Alloc(): nat
      reads `kind, `len, `allocField
    {
      if kind == Type5 then len else allocField
    }

    /** `sdsavail`. */
    function Avail(): nat
      reads `kind, `len, `allocField
    {
      if kind == Type5 || allocField < len then 0 else allocField - len
    }

    ghost function Contents(): string
      reads `len, `buf, buf
    {
      Used(buf, len)
    }

    ghost function Sizes(): Shape
      reads `kind, `len, `allocField, `moved
    {
      Shape(len, Alloc(), moved)
    }

    ghost predicate Fits()
      reads `kind, `len, `allocField, `buf
    {
      len <= Alloc() < Limit(kind) && Alloc() < buf.Length
    }

    /** The fields fit in the header, the text and its NUL in the buffer. */
    ghost predicate Valid()
      reads `kind, `len, `allocField, `buf, buf
    {
      Fits() && buf[len] == NUL
    }

    /** `sdsnewlen` with initial text. */
    constructor (init: string)
      requires Allocatable(|init|)
      ensures Valid() && fresh(buf)
      ensures Contents() == init && Alloc() == |init| && moved == 0
      ensures kind == if init == "" then Type8 else ReqType(|init|)
    {
      var k := ReqType(|init|);
      kind := if k == Type5 && |init| == 0 then Type8 else k;
      len, allocField, moved := |init|, |init|, 0;
      var b := new char[|init| + 1](_ => NUL);
      AppendTo(b, 0, init);
      b[|init|] := NUL;
      buf := b;
      new;
      Empty(init);
    }

    /** `sdssetlen`: the field keeps the low bits. */
    method SetLen(n: nat)
      modifies `len
      ensures len == n % Limit(kind) && (n < Limit(kind) ==> len == n)
    {
      len := n % Limit(kind);
    }

    /** `sdssetalloc`. */
    method SetAlloc(n: nat)
      modifies `allocField
      ensures kind != Type5 ==> allocField == n % Limit(kind) && (n < Limit(kind) ==> allocField == n)
      ensures kind == Type5 ==> allocField == old(allocField)
    {
      if kind != Type5 {
        allocField := n % Limit(kind);
      }
    }

    /** The block is replaced by one for `size` characters; the text and its NUL are moved. */
    method Reallocate(size: nat)
      requires len <= size && len < buf.Length && buf[len] == NUL
      modifies `buf
      ensures fresh(buf) && buf.Length == size + 1 && Contents() == old(Contents()) && buf[len] == NUL
    {
      var newBuf := new char[size + 1](_ => NUL);
      forall i | 0 <= i < len + 1 {
        newBuf[i] := buf[i];
      }
      assert newBuf[..len] == buf[..len];
      buf := newBuf;
    }

    /** The string in a larger block behind a header of type `newKind`. */
    method MoveTo(newKind: Kind, size: nat)
      requires Valid() && len <= size < Limit(newKind) && newKind != Type5
      modifies `kind, `allocField, `buf, `len
      ensures Valid() && fresh(buf) && Contents() == old(Contents()) && len == old(len)
      ensures kind == newKind && Alloc() == size
    {
      Reallocate(size);
      if kind != newKind {
        var n := len;
        kind := newKind;
        SetLen(n);
      }
      SetAlloc(size);
    }

    /** `sdsMakeRoomFor`. */
    method MakeRoomFor(addlen: nat)
      requires Valid() && Allocatable(Preallocate(len + addlen))
      modifies `kind, `allocField, `buf, `len, `moved
      ensures Valid() && (buf == old(buf) || fresh(buf))
      ensures Contents() == old(Contents()) && len == old(len)
      ensures Sizes() == Room(old(Sizes()), addlen)
      ensures Avail() >= addlen
      ensures old(Avail()) >= addlen ==> Alloc() == old(Alloc()) && buf == old(buf) && kind == old(kind)
      ensures old(Avail()) < addlen ==>
                Alloc() == (if len + addlen < 0x10_0000 then 2 * (len + addlen) else len + addlen + 0x10_0000)
                && kind == if ReqType(Alloc()) == Type5 then Type8 else ReqType(Alloc())
    {
      if Avail() >= addlen {
        return;
      }
      var newlen := len + addlen;
      if newlen < SDS_MAX_PREALLOC {
        newlen := newlen * 2;
      } else {
        newlen := newlen + SDS_MAX_PREALLOC;
      }
      var newKind := ReqType(newlen);
      if newKind == Type5 {
        newKind := Type8;
      }
      MoveTo(newKind, newlen);
      moved := moved + len;
    }

    /** `sdsRemoveFreeSpace`. */
    method RemoveFreeSpace()
      requires Valid()
      modifies `kind, `allocField, `buf, `len
      ensures Valid() && (buf == old(buf) || fresh(buf))
      ensures Contents() == old(Contents()) && len == old(len)
      ensures Alloc() == len
      ensures kind == if old(Avail()) == 0 || (ReqType(len) != Type5 && ReqType(len) != Type8)
                      then old(kind) else ReqType(len)
    {
      if Avail() == 0 {
        return;
      }
      var newKind := ReqType(len);
      Reallocate(len);
      if kind != newKind && (newKind == Type5 || newKind == Type8) {
        var n := len;
        kind := newKind;
        SetLen(n);
      }
      SetAlloc(len);
    }

    /** `sdsclear`. */
    method Clear()
      requires Valid()
      modifies `len, buf
      ensures Valid() && Contents() == "" && (kind != Type5 ==> Alloc() == old(Alloc()))
    {
      SetLen(0);
      buf[0] := NUL;
    }

    /** `sdsgrowzero`. */
    method GrowZero(n: nat)
      requires Valid() && (n > len ==> Allocatable(Preallocate(n)))
      modifies this, buf
      ensures Valid() && (buf == old(buf) || fresh(buf))
      ensures n <= old(len) ==> Contents() == old(Contents()) && Sizes() == old(Sizes())
      ensures n > old(len) ==>
                Contents() == old(Contents()) + Zeros(n - old(len)) && Sizes() == Cat(old(Sizes()), n - old(len))
    {
      if n <= len {
        return;
      }
      var curlen := len;
      MakeRoomFor(n - curlen);
      AppendTo(buf, curlen, Zeros(n - curlen));
      buf[n] := NUL;
      SetLen(n);
    }

    /** `sdscatlen`. */
    method CatLen(t: string)
      requires Valid() && Allocatable(Preallocate(len + |t|))
      modifies this, buf
      ensures Valid() && (buf == old(buf) || fresh(buf))
      ensures Contents() == old(Contents()) + t
      ensures Sizes() == Cat(old(Sizes()), |t|)
    {
      var curlen := len;
      MakeRoomFor(|t|);
      AppendTo(buf, curlen, t);
      SetLen(curlen + |t|);
      buf[curlen + |t|] := NUL;
    }

    /** `sdscpylen`. */
    method CpyLen(t: string)
      requires Valid() && Allocatable(Preallocate(|t|))
      modifies this, buf
      ensures Valid() && (buf == old(buf) || fresh(buf))
      ensures Contents() == t
      ensures |t| <= old(Alloc()) ==> kind == old(kind) && (kind != Type5 ==> Alloc() == old(Alloc()))
      ensures |t| > old(Alloc()) ==> Alloc() == if |t| < 0x10_0000 then 2 * |t| else |t| + 0x10_0000
    {
      if Alloc() < |t| {
        MakeRoomFor(|t| - len);
      }
      AppendTo(buf, 0, t);
      buf[|t|] := NUL;
      SetLen(|t|);
      Empty(t);
    }
  }
}
