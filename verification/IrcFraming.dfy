/** Cutting a byte stream into lines (libircclient-src/utils.c). */
module IrcFraming {
  import opened Sequences

  predicate CrlfAt(s: string, i: int) {
    0 <= i < |s| - 1 && s[i] == '\r' && s[i + 1] == '\n'
  }

  /** The offset behind the first line end, or 0. */
  function FirstCrlf(s: string): (r: nat)
    ensures r == 0 ==> forall i :: !CrlfAt(s, i)
    ensures r != 0 ==> 2 <= r <= |s| && CrlfAt(s, r - 2) && forall i :: i < r - 2 ==> !CrlfAt(s, i)
  {
    if |s| < 2 then 0
    else if CrlfAt(s, 0) then 2
    else
      var r := FirstCrlf(s[1..]);
      assert forall i :: i > 0 ==> CrlfAt(s, i) == CrlfAt(s[1..], i - 1);
      if r == 0 then 0 else r + 1
  }

  /** The offset of the first line end is determined by its meaning. */
  lemma FirstCrlfIs(s: string, r: nat)
    requires 2 <= r <= |s| && CrlfAt(s, r - 2) && forall i :: i < r - 2 ==> !CrlfAt(s, i)
    ensures FirstCrlf(s) == r
  {
  }

  lemma NoCrlf(s: string)
    requires forall i :: !CrlfAt(s, i)
    ensures FirstCrlf(s) == 0
  {
  }

  /** `libirc_findcrlf`. */
  method FindCrlf(buf: array<char>, length: nat) returns (r: nat)
    requires length <= buf.Length
    ensures r == FirstCrlf(buf[..length])
    ensures r == 0 ==> forall i :: 0 <= i < length - 1 ==> buf[i] != '\r' || buf[i + 1] != '\n'
    ensures r != 0 ==> 2 <= r <= length && buf[r - 2] == '\r' && buf[r - 1] == '\n'
                       && forall i :: 0 <= i < r - 2 ==> buf[i] != '\r' || buf[i + 1] != '\n'
  {
    ghost var s := buf[..length];
    var offset := 0;
    while offset < length - 1
      invariant 0 <= offset
      invariant forall i :: i < offset ==> !CrlfAt(s, i)
      invariant forall i :: 0 <= i < offset && i < length - 1 ==> buf[i] != '\r' || buf[i + 1] != '\n'
    {
      if buf[offset] == '\r' && buf[offset + 1] == '\n' {
        assert CrlfAt(s, offset);
        FirstCrlfIs(s, offset + 2);
        return offset + 2;
      }
      assert !CrlfAt(s, offset);
      offset := offset + 1;
    }
    NoCrlf(s);
    return 0;
  }

  /** Complete lines, with their line ends, and what is left. */
  datatype Cut = Cut(lines: seq<string>, rest: string)

  function Lines(s: string): Cut
    decreases |s|
  {
    var r := FirstCrlf(s);
    if r == 0 then Cut([], s)
    else var more := Lines(s[r..]); Cut([s[..r]] + more.lines, more.rest)
  }

  function Flatten(lines: seq<string>): string {
    if lines == [] then "" else lines[0] + Flatten(lines[1..])
  }

  /** Nothing is lost, each line ends at its first line end, and the rest has none. */
  ghost predicate IsCutOf(c: Cut, s: string) {
    Flatten(c.lines) + c.rest == s
    && (forall i :: 0 <= i < |c.lines| ==> FirstCrlf(c.lines[i]) == |c.lines[i]| && c.lines[i] != "")
    && FirstCrlf(c.rest) == 0
  }

  /** The first line end of `a` stays the first one when text is added. */
  lemma FirstCrlfStays(a: string, b: string)
    requires FirstCrlf(a) != 0
    ensures FirstCrlf(a + b) == FirstCrlf(a)
  {
    var r := FirstCrlf(a);
    assert forall i :: i < |a| - 1 ==> CrlfAt(a + b, i) == CrlfAt(a, i);
    FirstCrlfIs(a + b, r);
  }

  lemma LineItself(s: string, r: nat)
    requires r == FirstCrlf(s) && r != 0
    ensures FirstCrlf(s[..r]) == r && s == s[..r] + s[r..]
  {
    assert forall i :: i < r - 1 ==> CrlfAt(s[..r], i) == CrlfAt(s, i);
    FirstCrlfIs(s[..r], r);
  }

  lemma LinesStep(s: string)
    ensures FirstCrlf(s) == 0 ==> Lines(s) == Cut([], s)
    ensures var r := FirstCrlf(s);
            r != 0 ==> r <= |s| && Lines(s) == Cut([s[..r]] + Lines(s[r..]).lines, Lines(s[r..]).rest)
  {
    hide FirstCrlf;
  }

  lemma CutOfRest(s: string)
    requires FirstCrlf(s) == 0
    ensures IsCutOf(Cut([], s), s)
  {
    hide FirstCrlf;
    Empty(s);
  }

  lemma CutOfLine(line: string, c: Cut, s: string)
    requires FirstCrlf(line) == |line| && line != "" && IsCutOf(c, s)
    ensures IsCutOf(Cut([line] + c.lines, c.rest), line + s)
  {
    hide FirstCrlf;
    assert ([line] + c.lines)[1..] == c.lines;
    Assoc(line, Flatten(c.lines), c.rest);
  }

  /** `Lines` cuts every stream in the way `IsCutOf` describes. */
  lemma {:induction false} LinesIsCut(s: string)
    ensures IsCutOf(Lines(s), s)
    decreases |s|
  {
    hide FirstCrlf, Lines, IsCutOf;
    var r := FirstCrlf(s);
    LinesStep(s);
    if r == 0 {
      CutOfRest(s);
    } else {
      LineItself(s, r);
      LinesIsCut(s[r..]);
      CutOfLine(s[..r], Lines(s[r..]), s[r..]);
    }
  }

  lemma Prefixed(a: string, b: string)
    ensures (a + b)[..|a|] == a && (a + b)[|a|..] == b
  {
  }

  lemma CutParts(c: Cut, s: string)
    requires IsCutOf(c, s)
    ensures c.lines == [] ==> s == c.rest && FirstCrlf(s) == 0
    ensures c.lines != [] ==>
              var line, more := c.lines[0], Cut(c.lines[1..], c.rest);
              var tail := Flatten(more.lines) + more.rest;
              s == line + tail && FirstCrlf(line) == |line| && line != "" && IsCutOf(more, tail)
  {
    hide FirstCrlf;
    if c.lines == [] {
      Empty(c.rest);
    } else {
      Assoc(c.lines[0], Flatten(c.lines[1..]), c.rest);
    }
  }

  /** A stream has only one cut. */
  lemma {:induction false} CutIsUnique(c: Cut, s: string)
    requires IsCutOf(c, s)
    ensures Lines(s) == c
    decreases |c.lines|
  {
    hide FirstCrlf, Lines, IsCutOf;
    LinesStep(s);
    CutParts(c, s);
    if c.lines != [] {
      var line, more := c.lines[0], Cut(c.lines[1..], c.rest);
      var tail := Flatten(more.lines) + more.rest;
      FirstCrlfStays(line, tail);
      Prefixed(line, tail);
      CutIsUnique(more, tail);
    }
  }

  lemma {:induction false} FlattenAppend(a: seq<string>, b: seq<string>)
    ensures Flatten(a + b) == Flatten(a) + Flatten(b)
  {
    if a == [] {
      assert a + b == b;
    } else {
      assert (a + b)[1..] == a[1..] + b;
      FlattenAppend(a[1..], b);
    }
  }

  /** More text only affects the part that was left. */
  lemma LinesAppend(a: string, b: string)
    ensures var c, d := Lines(a), Lines(Lines(a).rest + b);
            Lines(a + b) == Cut(c.lines + d.lines, d.rest)
  {
    hide FirstCrlf, Lines;
    var c, d := Lines(a), Lines(Lines(a).rest + b);
    LinesIsCut(a);
    LinesIsCut(c.rest + b);
    FlattenAppend(c.lines, d.lines);
    Assoc(Flatten(c.lines), Flatten(d.lines), d.rest);
    Assoc(Flatten(c.lines), c.rest, b);
    CutIsUnique(Cut(c.lines + d.lines, d.rest), a + b);
  }

  lemma PastTheLeftover(left: string, future: string)
    requires left != "" && FirstCrlf(left) == 0
    ensures var c := Lines(left + future);
            if c.lines == [] then c.rest == left + future else |c.lines[0]| > |left|
  {
    var r := FirstCrlf(left + future);
    assert r == 0 || r > |left| || CrlfAt(left, r - 2);
  }

  /** When no line is longer than `limit` and less is left over at the end, less than `limit` is left over after
      any part of the stream. */
  lemma LeftoverIsShort(received: string, future: string, limit: nat)
    requires |Lines(received + future).rest| < limit
    requires forall i :: 0 <= i < |Lines(received + future).lines| ==>
               |Lines(received + future).lines[i]| <= limit
    ensures |Lines(received).rest| < limit
  {
    hide FirstCrlf, Flatten, Lines;
    LinesAppend(received, future);
    LinesIsCut(received);
    var left, done := Lines(received).rest, Lines(received).lines;
    if left != "" {
      var more := Lines(left + future).lines;
      PastTheLeftover(left, future);
      if more != [] {
        assert Lines(received + future).lines[|done|] == more[0];
      }
    }
  }

  /** What is left over never reaches `limit`, in whatever place the stream is cut. */
  ghost predicate AlwaysShort(s: string, limit: nat) {
    forall n :: 0 <= n <= |s| ==> |Lines(s[..n]).rest| < limit
  }

  lemma FlattenFirst(line: string, more: seq<string>)
    ensures Flatten([line] + more) == line + Flatten(more)
  {
    assert ([line] + more)[1..] == more;
  }

  lemma FrontOfStream(s: string, a: string, line: string, b: string, rest: string, k: nat)
    requires k <= |line| && s == a + (line + b) + rest
    ensures |a| + k <= |s| && s[..|a| + k] == a + line[..k]
  {
  }

  lemma FrontHasNoLineEnd(line: string, k: nat)
    requires FirstCrlf(line) == |line| && k < |line|
    ensures FirstCrlf(line[..k]) == 0
  {
    var r := FirstCrlf(line[..k]);
    assert r != 0 ==> CrlfAt(line, r - 2);
  }

  /** The part of the stream that ends in the middle of line `i`, after `limit` characters of it. */
  lemma MiddleOfLine(s: string, i: nat, limit: nat)
    requires i < |Lines(s).lines| && |Lines(s).lines[i]| > limit
    ensures exists n :: 0 <= n <= |s| && |Lines(s[..n]).rest| == limit
  {
    hide FirstCrlf, Lines, Flatten;
    var lines := Lines(s).lines;
    var line, n := lines[i], |Flatten(lines[..i])| + limit;
    LinesIsCut(s);
    LinesIsCut(Flatten(lines[..i]) + line[..limit]);
    assert lines == lines[..i] + ([line] + lines[i + 1..]);
    FlattenAppend(lines[..i], [line] + lines[i + 1..]);
    FlattenFirst(line, lines[i + 1..]);
    FrontOfStream(s, Flatten(lines[..i]), line, Flatten(lines[i + 1..]), Lines(s).rest, limit);
    FrontHasNoLineEnd(line, limit);
    CutIsUnique(Cut(lines[..i], line[..limit]), s[..n]);
  }

  /** There is always room exactly when no line is longer than the limit and the stream does not end inside one
      that is. */
  lemma AlwaysShortIff(s: string, limit: nat)
    ensures AlwaysShort(s, limit)
       <==> |Lines(s).rest| < limit && forall i :: 0 <= i < |Lines(s).lines| ==> |Lines(s).lines[i]| <= limit
  {
    hide FirstCrlf, Lines, Flatten;
    if i :| 0 <= i < |Lines(s).lines| && |Lines(s).lines[i]| > limit {
      MiddleOfLine(s, i, limit);
    } else if |Lines(s).rest| >= limit {
      assert s[..|s|] == s;
    } else {
      forall n | 0 <= n <= |s| ensures |Lines(s[..n]).rest| < limit {
        Split(s, n);
        LeftoverIsShort(s[..n], s[n..], limit);
      }
    }
  }
}
