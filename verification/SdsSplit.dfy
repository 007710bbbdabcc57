/** Splitting a string at a separator and joining it again (sds.c, `sdssplitlen`, `sdsjoinsds`). */
module SdsSplit {
  import opened Options
  import opened Sequences

  // ----- what splitting means -----

  predicate OccursAt(s: string, sep: string, k: int) {
    0 <= k && k + |sep| <= |s| && s[k..k + |sep|] == sep
  }

  ghost predicate Free(s: string, sep: string) {
    forall k :: !OccursAt(s, sep, k)
  }

  /** An occurrence behind `start` is one in the rest of the string. */
  lemma ShiftedAt(s: string, sep: string, start: nat, k: nat)
    requires start <= |s|
    ensures OccursAt(s[start..], sep, k) == OccursAt(s, sep, k + start)
  {
    if k + start + |sep| <= |s| {
      assert s[start..][k..k + |sep|] == s[k + start..k + start + |sep|];
    }
  }

  lemma NotBefore(s: string, sep: string, k: int)
    requires k < 0
    ensures !OccursAt(s, sep, k)
  {
  }

  lemma Inside(s: string, sep: string, k: int)
    requires OccursAt(s, sep, k)
    ensures 0 <= k && k + |sep| <= |s|
  {
  }

  lemma NotShorter(s: string, sep: string)
    requires |s| <= |sep| && !OccursAt(s, sep, 0)
    ensures Free(s, sep)
  {
  }

  lemma LaterOccurrence(s: string, sep: string, r: int)
    requires s != "" && !OccursAt(s, sep, 0)
    requires r >= 0 ==> OccursAt(s[1..], sep, r) && forall k: nat :: k < r ==> !OccursAt(s[1..], sep, k)
    requires r < 0 ==> Free(s[1..], sep)
    ensures r >= 0 ==> OccursAt(s, sep, r + 1) && forall k: nat :: k < r + 1 ==> !OccursAt(s, sep, k)
    ensures r < 0 ==> Free(s, sep)
  {
    hide OccursAt;
    if r >= 0 {
      ShiftedAt(s, sep, 1, r);
    }
    forall k: nat | 0 < k && (r >= 0 ==> k < r + 1) ensures !OccursAt(s, sep, k) {
      ShiftedAt(s, sep, 1, k - 1);
    }
    if r < 0 {
      forall k ensures !OccursAt(s, sep, k) {
        if k < 0 {
          NotBefore(s, sep, k);
        }
      }
    }
  }

  /** Where `sep` first occurs in `s`, or -1. */
  function Find(s: string, sep: string): (r: int)
    ensures r >= 0 ==> OccursAt(s, sep, r) && forall k: nat :: k < r ==> !OccursAt(s, sep, k)
    ensures r < 0 ==> Free(s, sep)
    decreases |s|
  {
    hide OccursAt, Free;
    if OccursAt(s, sep, 0) then 0
    else if |s| <= |sep| then NotShorter(s, sep); -1
    else
      var r := Find(s[1..], sep);
      LaterOccurrence(s, sep, r);
      if r < 0 then -1 else r + 1
  }

  lemma FindIs(s: string, sep: string, r: nat)
    requires OccursAt(s, sep, r) && forall k: nat :: k < r ==> !OccursAt(s, sep, k)
    ensures Find(s, sep) == r
  {
  }

  lemma FindNothing(s: string, sep: string)
    requires Free(s, sep)
    ensures Find(s, sep) < 0
  {
  }

  /** The pieces between the separators. */
  function Pieces(s: string, sep: string): (r: seq<string>)
    requires sep != ""
    ensures r != []
    decreases |s|
  {
    var k := Find(s, sep);
    if k < 0 then [s] else [s[..k]] + Pieces(s[k + |sep|..], sep)
  }

  function Join(ts: seq<string>, sep: string): string {
    if ts == [] then "" else if |ts| == 1 then ts[0] else ts[0] + sep + Join(ts[1..], sep)
  }

  /** What `sdssplitlen` returns: no array for an empty separator, and no tokens for an empty string. */
  function Split(s: string, sep: string): Option<seq<string>> {
    if sep == "" then None else if s == "" then Some([]) else Some(Pieces(s, sep))
  }

  // ----- the laws -----

  lemma Found(s: string, sep: string)
    requires sep != "" && Find(s, sep) >= 0
    ensures var k := Find(s, sep); OccursAt(s, sep, k) && Free(s[..k], sep)
  {
    var k := Find(s, sep);
    forall j ensures !OccursAt(s[..k], sep, j) {
      if OccursAt(s[..k], sep, j) {
        assert s[..k][j..j + |sep|] == s[j..j + |sep|];
        assert OccursAt(s, sep, j);
      }
    }
  }

  lemma Around(s: string, sep: string, k: nat)
    requires OccursAt(s, sep, k)
    ensures s == s[..k] + sep + s[k + |sep|..]
  {
    assert s == s[..k] + s[k..k + |sep|] + s[k + |sep|..];
  }

  lemma NotFound(s: string, sep: string)
    requires Find(s, sep) < 0
    ensures Free(s, sep)
  {
  }

  /** Joining the pieces gives the string back, and no piece contains the separator. */
  lemma {:induction false} JoinOfPieces(s: string, sep: string)
    requires sep != ""
    ensures Join(Pieces(s, sep), sep) == s
    ensures forall i :: 0 <= i < |Pieces(s, sep)| ==> Free(Pieces(s, sep)[i], sep)
    decreases |s|
  {
    hide Find, Free;
    var k := Find(s, sep);
    if k >= 0 {
      Found(s, sep);
      var rest := Pieces(s[k + |sep|..], sep);
      JoinOfPieces(s[k + |sep|..], sep);
      assert ([s[..k]] + rest)[1..] == rest;
      Around(s, sep, k);
    } else {
      NotFound(s, sep);
    }
  }

  /** Only an empty separator is refused; otherwise joining the tokens gives the string back, and no token contains the
      separator. */
  lemma JoinOfSplit(s: string, sep: string)
    ensures Split(s, sep) == None <==> sep == ""
    ensures sep != "" ==> Join(Split(s, sep).value, sep) == s && forall t :: t in Split(s, sep).value ==> Free(t, sep)
  {
    hide Pieces, Free;
    if sep != "" {
      JoinOfPieces(s, sep);
    }
  }

  /** Tokens whose separators can be recognised again: none shows up early, not even across the border of a
      token and the separator behind it. */
  ghost predicate Separable(ts: seq<string>, sep: string) {
    ts != []
    && if |ts| == 1 then Find(ts[0], sep) < 0
       else Find(ts[0] + sep, sep) == |ts[0]| && Separable(ts[1..], sep)
  }

  /** The first separator of `t + sep + rest` begins at or before the border, and is seen without `rest`. */
  lemma EarlyOccurrence(t: string, sep: string, rest: string)
    ensures var s := t + sep + rest; Find(s, sep) == Find(t + sep, sep) && Find(s, sep) >= 0
  {
    var s, u := t + sep + rest, t + sep;
    assert u[|t|..|t| + |sep|] == sep && OccursAt(u, sep, |t|);
    forall k | 0 <= k <= |t| ensures OccursAt(s, sep, k) == OccursAt(u, sep, k) {
      assert s[k..k + |sep|] == u[k..k + |sep|];
    }
    FindIs(s, sep, Find(u, sep));
  }

  lemma BehindSeparator(t: string, sep: string, rest: string)
    ensures var s := t + sep + rest; s[..|t|] == t && s[|t| + |sep|..] == rest
  {
  }

  lemma FindInside(s: string, sep: string)
    ensures Find(s, sep) <= |s|
  {
  }

  lemma {:induction false} PiecesOfJoin(ts: seq<string>, sep: string)
    requires sep != "" && ts != []
    ensures Pieces(Join(ts, sep), sep) == ts <==> Separable(ts, sep)
  {
    hide Find;
    var s := Join(ts, sep);
    if |ts| > 1 {
      var rest := Join(ts[1..], sep);
      EarlyOccurrence(ts[0], sep, rest);
      PiecesOfJoin(ts[1..], sep);
      BehindSeparator(ts[0], sep, rest);
      assert ts == [ts[0]] + ts[1..];
      if Find(s, sep) == |ts[0]| {
        assert Pieces(s, sep) == [ts[0]] + Pieces(rest, sep);
        assert Pieces(s, sep)[1..] == Pieces(rest, sep);
      } else {
        FindInside(s, sep);
        assert Pieces(s, sep)[0] == s[..Find(s, sep)];
        assert |s[..Find(s, sep)]| != |ts[0]|;
      }
    } else {
      FindInside(s, sep);
    }
  }

  lemma JoinIsEmpty(ts: seq<string>, sep: string)
    requires sep != ""
    ensures Join(ts, sep) == "" <==> ts == [] || ts == [""]
  {
  }

  /** Splitting a join gives the tokens back exactly when the separators can be recognised; a single empty
      token is lost, because the empty string has no tokens. */
  lemma SplitOfJoin(ts: seq<string>, sep: string)
    requires sep != ""
    ensures Split(Join(ts, sep), sep) == Some(ts) <==> ts == [] || (Separable(ts, sep) && ts != [""])
  {
    hide Pieces, Separable, Join;
    JoinIsEmpty(ts, sep);
    if ts != [] {
      PiecesOfJoin(ts, sep);
    }
  }

  lemma FindOrFree(s: string, sep: string)
    ensures Find(s, sep) < 0 <==> Free(s, sep)
  {
  }

  lemma OneByteBorder(t: string, sep: string)
    requires |sep| == 1
    ensures Find(t + sep, sep) == |t| <==> Free(t, sep)
  {
    var u := t + sep;
    assert u[|t|..|t| + 1] == sep && OccursAt(u, sep, |t|);
    forall k | 0 <= k < |t| ensures OccursAt(u, sep, k) == OccursAt(t, sep, k) {
      assert u[k..k + 1] == t[k..k + 1];
    }
  }

  /** For a separator of one byte it is enough that no token contains it. */
  lemma {:induction false} OneByteSeparable(ts: seq<string>, sep: string)
    requires |sep| == 1
    ensures Separable(ts, sep) <==> ts != [] && forall i :: 0 <= i < |ts| ==> Free(ts[i], sep)
  {
    hide Find, Free;
    if ts != [] {
      if |ts| == 1 {
        FindOrFree(ts[0], sep);
      } else {
        OneByteSeparable(ts[1..], sep);
        OneByteBorder(ts[0], sep);
        if forall i :: 0 <= i < |ts[1..]| ==> Free(ts[1..][i], sep) {
          forall i | 1 <= i < |ts| ensures Free(ts[i], sep) {
            assert ts[i] == ts[1..][i - 1];
          }
        }
      }
    }
  }

  /** With two bytes it is not enough: the tokens "a-" and "b" do not contain "--", but their join splits
      differently. */
  lemma BorderExample()
    ensures Free("a-", "--") && Free("b", "--")
    ensures Split(Join(["a-", "b"], "--"), "--") != Some(["a-", "b"])
  {
    var s := "a---b";
    assert "a-"[0..2] == "a-" && "a-" != "--" by { assert "a-"[0] == 'a'; }
    assert "a-" + "--" == "a---";
    assert OccursAt("a---", "--", 1) by { assert "a---"[1..3] == "--"; }
    SplitOfJoin(["a-", "b"], "--");
  }

  // ----- the code -----

  /** The bound of the scan, an unsigned 64-bit difference in the code. */
  function ScanBound(len: nat, seplen: nat): nat
    requires seplen >= 1
  {
    (len - (seplen - 1)) % 0x1_0000_0000_0000_0000
  }

  /** The scan compares inside the string exactly when the string is not shorter than the separator by more
      than one byte; this is what callers have to see to. */
  lemma ScanStaysInside(len: nat, seplen: nat)
    requires 1 <= seplen < 0x8000_0000 && 0 < len < 0x8000_0000_0000_0000
    ensures ScanBound(len, seplen) + (seplen - 1) <= len <==> len >= seplen - 1
  {
  }

  /** One byte and a separator of three: the bound wraps around, and the scan would start to compare outside. */
  lemma ScanOutsideExample()
    ensures ScanBound(1, 3) == 0xFFFF_FFFF_FFFF_FFFF && ScanBound(1, 3) + (3 - 1) > 1
  {
  }

  lemma Start(s: string, sep: string)
    requires sep != ""
    ensures [] + Pieces(s[0..], sep) == Pieces(s, sep)
  {
    hide Pieces;
    assert s[0..] == s;
  }

  /** `s_realloc` of the token array. */
  method Grow(tokens: array<string>, elements: nat, slots: nat) returns (r: array<string>)
    requires elements <= tokens.Length <= slots
    ensures fresh(r) && r.Length == slots && r[..elements] == tokens[..elements]
  {
    r := new string[slots](_ => "");
    forall i | 0 <= i < tokens.Length {
      r[i] := tokens[i];
    }
  }

  lemma PiecesAt(t: string, sep: string, k: nat)
    requires sep != "" && OccursAt(t, sep, k) && forall i: nat :: i < k ==> !OccursAt(t, sep, i)
    ensures k + |sep| <= |t| && Pieces(t, sep) == [t[..k]] + Pieces(t[k + |sep|..], sep)
  {
    hide Find, OccursAt;
    Inside(t, sep, k);
    FindIs(t, sep, k);
  }

  lemma SliceFrom(s: string, i: nat, j: nat, n: nat)
    requires i <= j && j + n <= |s|
    ensures s[i..][..j - i] == s[i..j] && s[i..][j - i + n..] == s[j + n..]
  {
  }

  /** The first occurrence behind `start` is the first one in the rest. */
  lemma FirstInRest(s: string, sep: string, start: nat, j: nat)
    requires start <= j && OccursAt(s, sep, j) && start <= |s|
    requires forall k :: start <= k < j ==> !OccursAt(s, sep, k)
    ensures OccursAt(s[start..], sep, j - start)
    ensures forall i: nat :: i < j - start ==> !OccursAt(s[start..], sep, i)
  {
    hide OccursAt;
    ShiftedAt(s, sep, start, j - start);
    forall i: nat | i < j - start ensures !OccursAt(s[start..], sep, i) {
      ShiftedAt(s, sep, start, i);
    }
  }

  lemma FirstPiece(s: string, sep: string, start: nat, j: nat)
    requires sep != "" && start <= j && OccursAt(s, sep, j)
    requires forall k :: start <= k < j ==> !OccursAt(s, sep, k)
    ensures j + |sep| <= |s| && Pieces(s[start..], sep) == [s[start..j]] + Pieces(s[j + |sep|..], sep)
  {
    hide Find, Pieces, OccursAt;
    Inside(s, sep, j);
    FirstInRest(s, sep, start, j);
    PiecesAt(s[start..], sep, j - start);
    SliceFrom(s, start, j, |sep|);
  }

  lemma OneMorePiece(s: string, sep: string, start: nat, j: nat, tokens: seq<string>)
    requires sep != "" && start <= j && OccursAt(s, sep, j)
    requires forall k :: start <= k < j ==> !OccursAt(s, sep, k)
    ensures j + |sep| <= |s|
    ensures tokens + Pieces(s[start..], sep) == (tokens + [s[start..j]]) + Pieces(s[j + |sep|..], sep)
  {
    hide Find, Pieces, OccursAt;
    FirstPiece(s, sep, start, j);
    Assoc(tokens, [s[start..j]], Pieces(s[j + |sep|..], sep));
  }

  method Put(tokens: array<string>, elements: nat, token: string)
    requires elements < tokens.Length
    modifies tokens
    ensures tokens[..elements + 1] == old(tokens[..elements]) + [token]
  {
    tokens[elements] := token;
  }

  lemma PastTheEnd(s: string, sep: string, k: int)
    requires k > |s| - |sep|
    ensures !OccursAt(s, sep, k)
  {
  }

  lemma LastPiece(s: string, sep: string, start: nat, tokens: seq<string>)
    requires sep != "" && start <= |s|
    requires forall k :: start <= k <= |s| - |sep| ==> !OccursAt(s, sep, k)
    ensures tokens + Pieces(s[start..], sep) == tokens + [s[start..]]
  {
    hide Find, OccursAt;
    forall k ensures !OccursAt(s[start..], sep, k) {
      if k < 0 {
        NotBefore(s[start..], sep, k);
      } else {
        ShiftedAt(s, sep, start, k);
        if k + start > |s| - |sep| {
          PastTheEnd(s, sep, k + start);
        }
      }
    }
    FindNothing(s[start..], sep);
  }

  /** Both tests of the code find the separator. */
  lemma MatchHere(s: string, sep: string, j: nat)
    requires sep != "" && j + |sep| <= |s|
    requires (|sep| == 1 && s[j] == sep[0]) || s[j..j + |sep|] == sep
    ensures OccursAt(s, sep, j)
  {
    if |sep| == 1 {
      assert s[j..j + 1] == [s[j]] && sep == [sep[0]];
    }
  }

  /** `sdssplitlen`. */
  method SplitLen(s: string, sep: string) returns (r: Option<seq<string>>)
    requires s == "" || |s| >= |sep| - 1
    requires |s| < 0x8000_0000_0000_0000 && |sep| < 0x8000_0000
    ensures r == Split(s, sep)
  {
    hide Find, Pieces;
    if |sep| < 1 {
      return None;
    }
    var elements, slots := 0, 5;
    var tokens := new string[slots](_ => "");
    if |s| == 0 {
      return Some([]);
    }
    var start: nat, j: nat := 0, 0;
    Start(s, sep);
    while j < ScanBound(|s|, |sep|)
      invariant ScanBound(|s|, |sep|) == |s| - (|sep| - 1)
      invariant start <= j && start <= |s|
      invariant fresh(tokens) && tokens.Length == slots && elements + 1 <= slots
      invariant Pieces(s, sep) == tokens[..elements] + Pieces(s[start..], sep)
      invariant forall k :: start <= k < j ==> !OccursAt(s, sep, k)
      decreases |s| - j
    {
      if slots < elements + 2 {
        slots := slots * 2;
        tokens := Grow(tokens, elements, slots);
      }
      if (|sep| == 1 && s[j] == sep[0]) || s[j..j + |sep|] == sep {
        MatchHere(s, sep, j);
        OneMorePiece(s, sep, start, j, tokens[..elements]);
        Put(tokens, elements, s[start..j]);
        elements := elements + 1;
        start := j + |sep|;
        j := j + |sep| - 1;
      }
      j := j + 1;
    }
    LastPiece(s, sep, start, tokens[..elements]);
    Put(tokens, elements, s[start..]);
    elements := elements + 1;
    return Some(tokens[..elements]);
  }

  lemma JoinStart(argv: seq<string>, sep: string)
    ensures "" + Join(argv[0..], sep) == Join(argv, sep)
  {
    hide Join;
    assert argv[0..] == argv;
  }

  lemma JoinStep(argv: seq<string>, sep: string, j: nat, join: string)
    requires j < |argv|
    ensures join + Join(argv[j..], sep)
         == (if j != |argv| - 1 then join + argv[j] + sep else join + argv[j]) + Join(argv[j + 1..], sep)
  {
    assert argv[j..][1..] == argv[j + 1..];
    Assoc(join, argv[j], sep);
    Assoc(join, argv[j] + sep, Join(argv[j + 1..], sep));
    Empty(join + argv[j]);
  }

  lemma JoinEnd(argv: seq<string>, sep: string, join: string)
    ensures join + Join(argv[|argv|..], sep) == join
  {
  }

  /** `sdsjoinsds`, and `sdsjoin` for strings without NUL. */
  method JoinSds(argv: seq<string>, sep: string) returns (join: string)
    ensures join == Join(argv, sep)
  {
    hide Join;
    join := "";
    var j := 0;
    JoinStart(argv, sep);
    while j < |argv|
      invariant j <= |argv|
      invariant join + Join(argv[j..], sep) == Join(argv, sep)
    {
      JoinStep(argv, sep, j, join);
      join := join + argv[j];
      if j != |argv| - 1 {
        join := join + sep;
      }
      j := j + 1;
    }
    JoinEnd(argv, sep, join);
  }
}
