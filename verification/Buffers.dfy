/** Copying in and out of the used part of a fixed buffer. */
module Buffers {
  /** The first `n` characters of a buffer. */
  ghost function Used(buf: array<char>, n: nat): string
    reads buf
  {
    if n <= buf.Length then buf[..n] else ""
  }

  /** `s` without its first `n` characters. */
  ghost function Behind(s: string, n: nat): string {
    if n <= |s| then s[n..] else ""
  }

  lemma Appended(before: string, after: string, used: nat, data: string)
    requires used + |data| <= |before| == |after|
    requires forall i :: 0 <= i < used ==> after[i] == before[i]
    requires forall i :: used <= i < used + |data| ==> after[i] == data[i - used]
    ensures after[..used + |data|] == before[..used] + data
  {
  }

  method AppendTo(buf: array<char>, used: nat, data: string)
    requires used + |data| <= buf.Length
    modifies buf
    ensures Used(buf, used + |data|) == old(Used(buf, used)) + data
  {
    forall i | 0 <= i < |data| {
      buf[used + i] := data[i];
    }
    Appended(old(buf[..]), buf[..], used, data);
  }

  /** Drop the first `n` of the used characters; the others move to the front. */
  method DropFront(buf: array<char>, used: nat, n: nat)
    requires n <= used <= buf.Length
    modifies buf
    ensures Used(buf, used - n) == Behind(old(Used(buf, used)), n)
  {
    if used - n > 0 {
      forall i | 0 <= i < used - n {
        buf[i] := buf[i + n];
      }
    }
    assert buf[..used - n] == old(buf[..used])[n..];
  }
}
