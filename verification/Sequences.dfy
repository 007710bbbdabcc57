/** Facts about slices and concatenation, kept apart so that proofs can name the one they need. */
module Sequences {
  lemma Assoc<T>(a: seq<T>, b: seq<T>, c: seq<T>)
    ensures (a + b) + c == a + (b + c)
  {
  }

  lemma Empty<T>(a: seq<T>)
    ensures a + [] == a && [] + a == a
  {
  }

  /** A slice cut after its first `n` elements. */
  lemma CutSlice<T>(s: seq<T>, i: nat, j: nat, n: nat)
    requires i + n <= j <= |s|
    ensures s[i..j][..n] == s[i..i + n] && s[i..j][n..] == s[i + n..j]
  {
  }

  /** Equal tails have equal slices. */
  lemma SameTail<T>(s: seq<T>, t: seq<T>, i: nat)
    requires i <= |s| == |t| && s[i..] == t[i..]
    ensures forall j, k :: i <= j <= k <= |s| ==> s[j..k] == t[j..k]
    ensures forall j :: i <= j < |s| ==> s[j] == t[j]
  {
    forall j | i <= j < |s| ensures s[j] == t[j] {
      assert s[i..][j - i] == t[i..][j - i];
    }
  }

  lemma Split<T>(s: seq<T>, i: nat)
    requires i <= |s|
    ensures s == s[..i] + s[i..]
  {
  }

  /** The first element of `b` moved to the end of `a`. */
  lemma Shift<T>(a: seq<T>, b: seq<T>)
    requires b != []
    ensures a + b == (a + [b[0]]) + b[1..]
  {
  }
}
