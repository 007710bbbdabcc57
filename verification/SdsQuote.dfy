/** Quoting strings and splitting a line of quoted arguments (sds.c, `sdscatrepr` and `sdssplitargs`).

    A line is the characters in front of the terminating NUL; reading at its end gives that NUL.
  */
module SdsQuote {
  import opened Options
  import opened Sequences
  import SdsSplit

  const NUL := '\0'
  const BELL := '\U{0007}'
  const BACKSPACE := '\U{0008}'
  const VERTICAL_TAB := '\U{000B}'
  const FORM_FEED := '\U{000C}'

  /** The characters are bytes. */
  predicate Bytes(s: string) {
    forall i :: 0 <= i < |s| ==> s[i] <= '\U{00FF}'
  }

  // ----- quoting -----

  predicate IsPrint(c: char) {
    ' ' <= c <= '~'
  }

  function HexDigit(d: nat): char
    requires d < 16
  {
    if d < 10 then '0' + d as char else 'a' + (d - 10) as char
  }

  /** A byte as it is written between the quotes. */
  function Escape(c: char): string
    requires c <= '\U{00FF}'
  {
    if c == '\\' || c == '"' then ['\\', c]
    else if c == '\n' then "\\n"
    else if c == '\r' then "\\r"
    else if c == '\t' then "\\t"
    else if c == BELL then "\\a"
    else if c == BACKSPACE then "\\b"
    else if IsPrint(c) then [c]
    else ['\\', 'x', HexDigit(c as int / 16), HexDigit(c as int % 16)]
  }

  function Escaped(s: string): string
    requires Bytes(s)
  {
    if s == "" then "" else Escape(s[0]) + Escaped(s[1..])
  }

  function Repr(s: string): string
    requires Bytes(s)
  {
    "\"" + Escaped(s) + "\""
  }

  lemma ReprStart(s: string, text: string)
    requires Bytes(text)
    ensures s + "\"" + (Escaped(text[0..]) + "\"") == s + Repr(text)
  {
    hide Escaped;
    assert text[0..] == text;
  }

  lemma ReprStep(r: string, text: string, k: nat)
    requires Bytes(text) && k < |text|
    ensures r + (Escaped(text[k..]) + "\"") == (r + Escape(text[k])) + (Escaped(text[k + 1..]) + "\"")
  {
    hide Escape;
    assert text[k..][1..] == text[k + 1..];
  }

  lemma ReprEnd(text: string)
    ensures Escaped(text[|text|..]) + "\"" == "\""
  {
  }

  /** `sdscatrepr`. */
  method CatRepr(s: string, text: string) returns (r: string)
    requires Bytes(text)
    ensures r == s + Repr(text)
  {
    hide Escaped, Escape;
    r := s + "\"";
    var k := 0;
    ReprStart(s, text);
    while k < |text|
      invariant k <= |text|
      invariant r + (Escaped(text[k..]) + "\"") == s + Repr(text)
    {
      ReprStep(r, text, k);
      var c := text[k];
      r := r + Escape(c);
      k := k + 1;
    }
    ReprEnd(text);
    r := r + "\"";
  }

  // ----- the parser, one character at a time -----

  /** The character `k` places ahead. */
  function Peek(rest: string, k: nat): char {
    if k < |rest| then rest[k] else NUL
  }

  predicate IsSpace(c: char) {
    c == ' ' || c == '\t' || c == '\n' || c == '\r' || c == VERTICAL_TAB || c == FORM_FEED
  }

  predicate IsHexDigit(c: char) {
    '0' <= c <= '9' || 'a' <= c <= 'f' || 'A' <= c <= 'F'
  }

  function HexValue(c: char): (r: nat)
    ensures r < 16
  {
    if '0' <= c <= '9' then (c - '0') as int
    else if 'a' <= c <= 'f' then (c - 'a') as int + 10
    else if 'A' <= c <= 'F' then (c - 'A') as int + 10
    else 0
  }

  /** The character that a backslash and `c` stand for in double quotes. */
  function Unescape(c: char): char {
    match c
    case 'n' => '\n'
    case 'r' => '\r'
    case 't' => '\t'
    case 'b' => BACKSPACE
    case 'a' => BELL
    case _ => c
  }

  datatype Mode = Plain | InDouble | InSingle

  /** One turn of the token loop: fail, or take `used` characters, add `text` to the token and go on in
      `mode`, or end the token. */
  datatype Turn = Fail | Go(used: nat, text: string, mode: Mode, done: bool)

  /** The loop steps over the character at its position, unless it is the NUL. */
  function Past(rest: string, k: nat): nat {
    if Peek(rest, k) != NUL then k + 1 else k
  }

  /** A closing quote must be followed by a blank or the end. */
  function Close(rest: string): Turn {
    if Peek(rest, 1) != NUL && !IsSpace(Peek(rest, 1)) then Fail else Go(1, "", Plain, true)
  }

  function TurnOf(rest: string, mode: Mode): Turn {
    var c, c1 := Peek(rest, 0), Peek(rest, 1);
    match mode
    case InDouble =>
      if c == '\\' && c1 == 'x' && IsHexDigit(Peek(rest, 2)) && IsHexDigit(Peek(rest, 3)) then
        Go(4, [(HexValue(Peek(rest, 2)) * 16 + HexValue(Peek(rest, 3))) as char], InDouble, false)
      else if c == '\\' && c1 != NUL then Go(2, [Unescape(c1)], InDouble, false)
      else if c == '"' then Close(rest)
      else if c == NUL then Fail
      else Go(1, [c], InDouble, false)
    case InSingle =>
      if c == '\\' && c1 == '\'' then Go(2, "'", InSingle, false)
      else if c == '\'' then Close(rest)
      else if c == NUL then Fail
      else Go(1, [c], InSingle, false)
    case Plain =>
      if c == ' ' || c == '\n' || c == '\r' || c == '\t' || c == NUL then Go(Past(rest, 0), "", Plain, true)
      else if c == '"' then Go(1, "", InDouble, false)
      else if c == '\'' then Go(1, "", InSingle, false)
      else Go(1, [c], Plain, false)
  }

  /** A turn that does not end the token takes a character, and no turn goes past the end: the loop ends. */
  lemma TurnAdvances(rest: string, mode: Mode)
    ensures var t := TurnOf(rest, mode);
            t.Go? ==> t.used <= |rest| && (t.used > 0 || t.done)
    ensures var t := TurnOf(rest, mode);
            t.Go? && (Peek(rest, 0) != NUL) ==> t.used > 0
  {
  }

  /** The token at the front of `rest`, and how many characters it takes. */
  function Token(rest: string, mode: Mode, current: string): (r: Option<(string, nat)>)
    ensures r.Some? ==> r.value.1 <= |rest|
    ensures r.Some? && Peek(rest, 0) != NUL ==> r.value.1 > 0
    decreases |rest|
  {
    hide TurnOf;
    TurnAdvances(rest, mode);
    match TurnOf(rest, mode)
    case Fail => None
    case Go(used, text, next, done) =>
      if done then Some((current + text, used))
      else
        var r := Token(rest[used..], next, current + text);
        if r.None? then None else Some((r.value.0, used + r.value.1))
  }

  function Blanks(rest: string): (n: nat)
    ensures n <= |rest|
    decreases |rest|
  {
    if rest != "" && IsSpace(rest[0]) then 1 + Blanks(rest[1..]) else 0
  }

  /** The text behind the blanks. */
  function Stripped(rest: string): string {
    rest[Blanks(rest)..]
  }

  /** The arguments in `rest`, or `None` for a line with a bad quote. */
  function Args(rest: string): Option<seq<string>>
    decreases |rest|
  {
    hide Token;
    var s := Stripped(rest);
    if Peek(s, 0) == NUL then Some([])
    else
      var t := Token(s, Plain, "");
      if t.None? then None
      else
        var more := Args(s[t.value.1..]);
        if more.None? then None else Some([t.value.0] + more.value)
  }

  /** The arguments found so far and those behind them. */
  function After(found: seq<string>, more: Option<seq<string>>): Option<seq<string>> {
    if more.None? then None else Some(found + more.value)
  }

  // ----- quoting and parsing undo each other -----

  lemma HexDigitValue(d: nat)
    requires d < 16
    ensures IsHexDigit(HexDigit(d)) && HexValue(HexDigit(d)) == d && IsPrint(HexDigit(d))
  {
  }

  lemma HexRoundTrip(c: char)
    requires c <= '\U{00FF}'
    ensures var h, l := HexDigit(c as int / 16), HexDigit(c as int % 16);
            IsHexDigit(h) && IsHexDigit(l) && (HexValue(h) * 16 + HexValue(l)) as char == c
            && IsPrint(h) && IsPrint(l)
  {
    HexDigitValue(c as int / 16);
    HexDigitValue(c as int % 16);
  }

  /** In double quotes, an escaped byte is read back as the byte. */
  lemma EscapeIsRead(c: char, more: string)
    requires c <= '\U{00FF}'
    ensures TurnOf(Escape(c) + more, InDouble) == Go(|Escape(c)|, [c], InDouble, false)
  {
    var rest := Escape(c) + more;
    HexRoundTrip(c);
    hide HexValue, HexDigit, IsHexDigit;
    assert forall k :: 0 <= k < |Escape(c)| ==> Peek(rest, k) == Escape(c)[k];
  }

  /** What may follow a closing quote: a blank, or the end. */
  predicate QuoteEnds(tail: string) {
    tail == "" || tail[0] in " \n\r\t\U{000B}\U{000C}" || tail[0] == NUL
  }

  lemma ClosingQuote(tail: string)
    ensures TurnOf("\"" + tail, InDouble) == if QuoteEnds(tail) then Go(1, "", Plain, true) else Fail
  {
    assert ("\"" + tail)[0] == '"';
    assert tail != "" ==> ("\"" + tail)[1] == tail[0];
  }

  lemma FourParts(a: string, b: string, c: string, d: string)
    ensures (a + b) + c + d == a + (b + c + d)
  {
  }

  lemma Behind(a: string, b: string)
    ensures (a + b)[|a|..] == b
  {
  }

  lemma OneTurn(rest: string, mode: Mode, current: string)
    requires TurnOf(rest, mode).Go? && !TurnOf(rest, mode).done && TurnOf(rest, mode).used <= |rest|
    ensures var t := TurnOf(rest, mode);
            var r := Token(rest[t.used..], t.mode, current + t.text);
            Token(rest, mode, current) == if r.None? then None else Some((r.value.0, t.used + r.value.1))
  {
    hide TurnOf;
    TurnAdvances(rest, mode);
  }

  lemma TokenEnds(tail: string, current: string)
    ensures Token("\"" + tail, InDouble, current) == if QuoteEnds(tail) then Some((current, 1)) else None
  {
    hide TurnOf, QuoteEnds;
    ClosingQuote(tail);
    Empty(current);
  }

  lemma {:induction false} EscapedIsRead(s: string, tail: string, current: string)
    requires Bytes(s)
    ensures Token(Escaped(s) + "\"" + tail, InDouble, current)
            == if QuoteEnds(tail) then Some((current + s, |Escaped(s)| + 1)) else None
    decreases |s|
  {
    hide TurnOf, Escape, QuoteEnds, Token;
    if s == "" {
      assert Escaped(s) + "\"" + tail == "\"" + tail;
      TokenEnds(tail, current);
      Empty(current);
    } else {
      var rest := Escaped(s[1..]) + "\"" + tail;
      FourParts(Escape(s[0]), Escaped(s[1..]), "\"", tail);
      EscapeIsRead(s[0], rest);
      Behind(Escape(s[0]), rest);
      EscapedIsRead(s[1..], tail, current + [s[0]]);
      Shift(current, s);
      OneTurn(Escape(s[0]) + rest, InDouble, current);
    }
  }

  /** A quoted string at the front of a line is one token if and only if a blank or the end follows it. */
  lemma ReprIsRead(s: string, tail: string)
    requires Bytes(s)
    ensures Token(Repr(s) + tail, Plain, "") == if QuoteEnds(tail) then Some((s, |Repr(s)|)) else None
  {
    hide Token, Escaped, QuoteEnds;
    var rest := Escaped(s) + "\"" + tail;
    FourParts("\"", Escaped(s), "\"", tail);
    assert Peek("\"" + rest, 0) == '"';
    Behind("\"", rest);
    OneTurn("\"" + rest, Plain, "");
    Empty("");
    EscapedIsRead(s, tail, "");
    Empty(s);
  }

  ghost predicate AllBytes(ts: seq<string>) {
    forall i :: 0 <= i < |ts| ==> Bytes(ts[i])
  }

  function Reprs(ts: seq<string>): seq<string>
    requires AllBytes(ts)
  {
    if ts == [] then [] else [Repr(ts[0])] + Reprs(ts[1..])
  }

  lemma ArgsOfNothing()
    ensures Args("") == Some([])
  {
    assert ""[0..] == "";
  }

  lemma JoinFront(ts: seq<string>)
    requires AllBytes(ts) && ts != []
    ensures SdsSplit.Join(Reprs(ts), " ")
         == Repr(ts[0]) + if |ts| == 1 then "" else " " + SdsSplit.Join(Reprs(ts[1..]), " ")
  {
    hide Repr;
    var rs := Reprs(ts);
    assert rs[1..] == Reprs(ts[1..]);
    if |ts| == 1 {
      Empty(Repr(ts[0]));
    } else {
      assert Reprs(ts[1..]) != [];
      Assoc(Repr(ts[0]), " ", SdsSplit.Join(rs[1..], " "));
    }
  }

  lemma ReprStarts(s: string, tail: string)
    requires Bytes(s)
    ensures Peek(Repr(s) + tail, 0) == '"' && Repr(s) + tail != ""
  {
  }

  lemma {:induction false} EscapedIsPrintable(s: string)
    requires Bytes(s)
    ensures forall i :: 0 <= i < |Escaped(s)| ==> IsPrint(Escaped(s)[i])
  {
    if s != "" {
      EscapedIsPrintable(s[1..]);
      HexRoundTrip(s[0]);
      hide HexDigit;
    }
  }

  /** The quoted form has only printable characters, so it has no NUL and survives as a C string. */
  lemma {:induction false} ReprIsPrintable(s: string)
    requires Bytes(s)
    ensures forall i :: 0 <= i < |Repr(s)| ==> IsPrint(Repr(s)[i])
  {
    EscapedIsPrintable(s);
    hide Escaped;
  }

  // ----- the other two forms of an argument -----

  /** Text in single quotes; only the quote itself is escaped. */
  function InQuotes(s: string): string {
    if s == "" then "" else (if s[0] == '\'' then "\\'" else [s[0]]) + InQuotes(s[1..])
  }

  /** What single quotes can hold: no NUL, and no backslash in front of the closing quote. */
  predicate Quotable(s: string) {
    NUL !in s && (s == "" || s[|s| - 1] != '\\')
  }

  /** The text behind the first character of `s`, up to the closing quote. */
  function Remaining(s: string): string
    requires s != ""
  {
    InQuotes(s[1..]) + "'"
  }

  lemma RemainingIs(s: string)
    requires s != ""
    ensures Remaining(s) == InQuotes(s[1..]) + "'"
    ensures Peek(Remaining(s), 0) == '\'' <==> s[1..] == ""
  {
    var t := s[1..];
    if t != "" {
      assert InQuotes(t)[0] == if t[0] == '\'' then '\\' else t[0];
      assert Remaining(s)[0] == InQuotes(t)[0];
    }
  }

  lemma EscapedQuote(more: string)
    ensures TurnOf("\\'" + more, InSingle) == Go(2, "'", InSingle, false)
  {
    var rest := "\\'" + more;
    assert rest[0] == '\\' && rest[1] == '\'';
  }

  lemma OtherCharacter(c: char, more: string)
    requires c != '\''
    ensures TurnOf([c] + more, InSingle)
            == if c == NUL then Fail
               else if c == '\\' && Peek(more, 0) == '\'' then Go(2, "'", InSingle, false)
               else Go(1, [c], InSingle, false)
  {
    assert Peek([c] + more, 0) == c && Peek([c] + more, 1) == Peek(more, 0);
  }

  lemma SingleTurn(s: string)
    requires s != ""
    ensures var rest := InQuotes(s) + "'";
            TurnOf(rest, InSingle)
            == if s[0] == NUL then Fail
               else if s == "\\" then Go(2, "'", InSingle, false)
               else Go(if s[0] == '\'' then 2 else 1, [s[0]], InSingle, false)
    ensures var rest, n := InQuotes(s) + "'", if s[0] == '\'' then 2 else 1;
            n <= |rest| && rest[n..] == Remaining(s)
  {
    hide TurnOf, Remaining;
    var front := if s[0] == '\'' then "\\'" else [s[0]];
    Assoc(front, InQuotes(s[1..]), "'");
    RemainingIs(s);
    Behind(front, Remaining(s));
    if s[0] == '\'' {
      EscapedQuote(Remaining(s));
    } else {
      OtherCharacter(s[0], Remaining(s));
      assert s == [s[0]] + s[1..];
    }
  }

  lemma LoneQuote()
    ensures TurnOf("'", InSingle) == Go(1, "", Plain, true)
    ensures TurnOf("", InSingle) == Fail
    ensures InQuotes("\\") + "'" == "\\'" && "\\'"[2..] == ""
    ensures InQuotes("") + "'" == "'"
  {
    assert InQuotes("\\") == "\\" + "";
  }

  lemma QuotedLength(s: string)
    requires s != ""
    ensures |InQuotes(s)| == (if s[0] == '\'' then 2 else 1) + |InQuotes(s[1..])|
  {
  }

  lemma {:induction false} QuotedIsRead(s: string, current: string)
    ensures Token(InQuotes(s) + "'", InSingle, current)
         == if Quotable(s) then Some((current + s, |InQuotes(s)| + 1)) else None
    decreases |s|
  {
    hide TurnOf, InQuotes;
    LoneQuote();
    if s == "" {
      Empty(current);
    } else {
      var rest := InQuotes(s) + "'";
      SingleTurn(s);
      QuotedLength(s);
      if s == "\\" {
        LoneQuote();
        OneTurn(rest, InSingle, current);
      } else if s[0] != NUL {
        OneTurn(rest, InSingle, current);
        QuotedIsRead(s[1..], current + [s[0]]);
        Shift(current, s);
        assert s == [s[0]] + s[1..];
      }
    }
  }

  /** `rest` starts an argument. */
  predicate StartsArgument(rest: string) {
    Peek(rest, 0) != NUL && !IsSpace(Peek(rest, 0))
  }

  lemma OpenSingle(rest: string)
    ensures TurnOf("'" + rest, Plain) == Go(1, "", InSingle, false) && StartsArgument("'" + rest)
  {
  }

  lemma FirstArgument(line: string)
    requires StartsArgument(line)
    ensures var t := Token(line, Plain, "");
            Args(line) == if t.None? then None
                          else var more := Args(line[t.value.1..]);
                               if more.None? then None else Some([t.value.0] + more.value)
  {
    hide Token;
    assert line[0..] == line;
  }

  /** A text in single quotes comes back exactly when single quotes can hold it. */
  lemma SingleQuotes(s: string)
    ensures Args("'" + (InQuotes(s) + "'")) == if Quotable(s) then Some([s]) else None
  {
    hide Token, Args, Quotable, InQuotes;
    var rest := InQuotes(s) + "'";
    var line := "'" + rest;
    Behind("'", rest);
    OpenSingle(rest);
    OneTurn(line, Plain, "");
    Empty("");
    QuotedIsRead(s, "");
    Empty(s);
    FirstArgument(line);
    ArgsOfNothing();
    if Quotable(s) {
      assert line[|line|..] == "";
      Empty([s]);
    }
  }

  /** The text "a\\" in single quotes is rejected: its backslash escapes the closing quote. */
  lemma BackslashExample()
    ensures Args("'a\\'") == None
  {
    hide Args;
    assert InQuotes("\\") == "\\" + InQuotes("");
    assert "a\\"[1..] == "\\" && InQuotes("a\\") == "a" + InQuotes("\\");
    assert "'" + (InQuotes("a\\") + "'") == "'a\\'";
    SingleQuotes("a\\");
  }

  /** What ends a word: one of four blanks, or the end. */
  predicate WordEnds(tail: string) {
    tail == "" || tail[0] in " \n\r\t"
  }

  /** No quote or NUL, and none of these blanks. */
  predicate NothingSpecial(w: string) {
    forall i :: 0 <= i < |w| ==> w[i] !in " \n\r\t\"'" && w[i] != NUL
  }

  /** A word of such characters that starts an argument. */
  predicate IsWord(w: string) {
    w != "" && w[0] !in "\U{000B}\U{000C}" && NothingSpecial(w)
  }

  lemma WordTurn(w: string, tail: string)
    requires NothingSpecial(w)
    requires WordEnds(tail)
    ensures TurnOf(w + tail, Plain)
            == if w != "" then Go(1, [w[0]], Plain, false) else Go(if tail == "" then 0 else 1, "", Plain, true)
  {
    if w != "" {
      assert (w + tail)[0] == w[0];
    } else {
      assert w + tail == tail;
    }
  }

  lemma LastTurn(rest: string, mode: Mode, current: string)
    requires TurnOf(rest, mode).Go? && TurnOf(rest, mode).done
    ensures Token(rest, mode, current) == Some((current + TurnOf(rest, mode).text, TurnOf(rest, mode).used))
  {
    hide TurnOf;
  }

  lemma FirstOfWord(w: string, tail: string)
    requires w != "" && NothingSpecial(w)
    ensures NothingSpecial(w[1..]) && (w + tail)[1..] == w[1..] + tail
  {
  }

  lemma {:induction false} WordIsRead(w: string, tail: string, current: string)
    requires NothingSpecial(w) && WordEnds(tail)
    ensures Token(w + tail, Plain, current) == Some((current + w, |w| + if tail == "" then 0 else 1))
    decreases |w|
  {
    hide TurnOf, Token, NothingSpecial, WordEnds;
    var rest := w + tail;
    WordTurn(w, tail);
    if w == "" {
      Empty(tail);
      Empty(current);
      LastTurn(rest, Plain, current);
    } else {
      OneTurn(rest, Plain, current);
      FirstOfWord(w, tail);
      WordIsRead(w[1..], tail, current + [w[0]]);
      Shift(current, w);
    }
  }

  // ----- one argument and the rest of the line -----

  lemma BlankFirst(line: string)
    requires line != "" && IsSpace(line[0])
    ensures Stripped(line) == Stripped(line[1..])
  {
    var rest := line[1..];
    assert line[1 + Blanks(rest)..] == rest[Blanks(rest)..];
  }

  lemma SameArguments(a: string, b: string)
    requires Stripped(a) == Stripped(b)
    ensures Args(a) == Args(b)
  {
    hide Token, Blanks;
  }

  /** Any of the six blanks in front of an argument is skipped. */
  lemma BlankIsSkipped(c: char, rest: string)
    requires c in " \n\r\t\U{000B}\U{000C}"
    ensures Args([c] + rest) == Args(rest)
  {
    hide Token, Args, Blanks;
    Behind([c], rest);
    BlankFirst([c] + rest);
    SameArguments([c] + rest, rest);
  }

  /** A quoted string is an argument when a blank or the end follows, and otherwise the line is rejected. */
  lemma QuotedArgument(s: string, tail: string)
    requires Bytes(s)
    ensures Args(Repr(s) + tail) == if QuoteEnds(tail) then After([s], Args(tail)) else None
  {
    hide Token, Args, Repr, QuoteEnds;
    var line := Repr(s) + tail;
    ReprIsRead(s, tail);
    ReprStarts(s, tail);
    FirstArgument(line);
    Behind(Repr(s), tail);
  }

  /** Quoting any byte strings, joining them with spaces and splitting the line gives them back. */
  lemma {:induction false} ArgsOfReprs(ts: seq<string>)
    requires AllBytes(ts)
    ensures Args(SdsSplit.Join(Reprs(ts), " ")) == Some(ts)
  {
    hide Token, Repr, Args;
    ArgsOfNothing();
    if ts != [] {
      assert [ts[0]] + ts[1..] == ts;
      var tail := if |ts| == 1 then "" else " " + SdsSplit.Join(Reprs(ts[1..]), " ");
      JoinFront(ts);
      ArgsOfReprs(ts[1..]);
      QuotedArgument(ts[0], tail);
      if |ts| > 1 {
        BlankIsSkipped(' ', SdsSplit.Join(Reprs(ts[1..]), " "));
      }
    }
  }

  /** A word ends at four of the blanks, which a vertical tab and a form feed are not; those stay in the word. */
  lemma WordArgument(w: string, tail: string)
    requires IsWord(w) && WordEnds(tail)
    ensures Args(w + tail) == After([w], Args(tail))
  {
    hide Token, Args;
    var line := w + tail;
    assert line[0] == w[0];
    WordIsRead(w, tail, "");
    Empty(w);
    FirstArgument(line);
    if tail == "" {
      assert line[|w|..] == "";
    } else {
      assert line[|w| + 1..] == tail[1..] && [tail[0]] + tail[1..] == tail;
      BlankIsSkipped(tail[0], tail[1..]);
    }
  }

  /** Words joined with spaces are split into the words. */
  lemma {:induction false} ArgsOfWords(ws: seq<string>)
    requires forall i :: 0 <= i < |ws| ==> IsWord(ws[i])
    ensures Args(SdsSplit.Join(ws, " ")) == Some(ws)
  {
    hide Token, Args;
    ArgsOfNothing();
    if ws != [] {
      var w, more := ws[0], SdsSplit.Join(ws[1..], " ");
      assert [w] + ws[1..] == ws;
      ArgsOfWords(ws[1..]);
      var tail := if |ws| == 1 then "" else " " + more;
      WordArgument(w, tail);
      if |ws| > 1 {
        BlankIsSkipped(' ', more);
        Assoc(w, " ", more);
      } else {
        Empty(w);
      }
    }
  }

  lemma OpenDouble(rest: string)
    ensures TurnOf("\"" + rest, Plain) == Go(1, "", InDouble, false) && StartsArgument("\"" + rest)
  {
  }

  lemma NothingInQuotes(current: string)
    ensures Token("", InDouble, current) == None
  {
  }

  lemma {:induction false} EscapedRunsOut(s: string, current: string)
    requires Bytes(s)
    ensures Token(Escaped(s), InDouble, current) == None
    decreases |s|
  {
    hide TurnOf, Escape, Token;
    if s == "" {
      NothingInQuotes(current);
    } else {
      var rest := Escaped(s[1..]);
      EscapeIsRead(s[0], rest);
      Behind(Escape(s[0]), rest);
      EscapedRunsOut(s[1..], current + [s[0]]);
      OneTurn(Escape(s[0]) + rest, InDouble, current);
    }
  }

  /** A line that ends inside double quotes is rejected, whatever they hold. */
  lemma UnterminatedQuote(s: string)
    requires Bytes(s)
    ensures Args("\"" + Escaped(s)) == None
  {
    hide TurnOf, Token, Args, Escaped;
    var rest := Escaped(s);
    Behind("\"", rest);
    OpenDouble(rest);
    OneTurn("\"" + rest, Plain, "");
    Empty("");
    EscapedRunsOut(s, "");
    FirstArgument("\"" + rest);
  }

  lemma BackslashTurn(c: char, rest: string)
    requires c !in "nrtbax" && c != NUL
    ensures TurnOf(['\\', c] + rest, InDouble) == Go(2, [c], InDouble, false)
  {
  }

  lemma NothingFollows()
    ensures QuoteEnds("")
  {
  }

  /** A backslash in front of any other character stands for that character. */
  lemma OtherEscapes(c: char)
    requires c !in "nrtbax" && c != NUL
    ensures Args("\"" + (['\\', c] + "\"")) == Some([[c]])
  {
    hide TurnOf, Token, Args, QuoteEnds;
    var rest := ['\\', c] + "\"";
    var line := "\"" + rest;
    Behind("\"", rest);
    OpenDouble(rest);
    OneTurn(line, Plain, "");
    Empty("");
    BackslashTurn(c, "\"");
    Behind(['\\', c], "\"");
    OneTurn(rest, InDouble, "");
    Empty([c]);
    TokenEnds("", [c]);
    NothingFollows();
    assert "\"" + "" == "\"";
    FirstArgument(line);
    ArgsOfNothing();
    assert line[|line|..] == "";
    Empty([[c]]);
  }

  // ----- the two alphabets -----

  /** Printable text without quotes and backslashes is quoted as it is. */
  lemma {:induction false} PrintableStays(s: string)
    requires forall i :: 0 <= i < |s| ==> ' ' <= s[i] <= '~' && s[i] != '"' && s[i] != '\\'
    ensures Bytes(s) && Repr(s) == "\"" + s + "\""
    decreases |s|
  {
    if s != "" {
      PrintableStays(s[1..]);
      assert [s[0]] + s[1..] == s;
      assert Escaped(s[1..]) == s[1..] by {
        assert Repr(s[1..])[1..|s|] == Escaped(s[1..]) && ("\"" + s[1..] + "\"")[1..|s|] == s[1..];
      }
    }
  }

  /** All other bytes that have a letter, and a hexadecimal one. */
  lemma SpecialEscapes()
    ensures Escape('"') == "\\\"" && Escape('\\') == "\\\\"
    ensures Escape('\n') == "\\n" && Escape('\r') == "\\r" && Escape('\t') == "\\t"
    ensures Escape('\U{0007}') == "\\a" && Escape('\U{0008}') == "\\b"
    ensures Escape('\0') == "\\x00" && Escape('\U{007F}') == "\\x7f" && Escape('\U{00AB}') == "\\xab"
  {
  }

  /** Hexadecimal digits are read in either case. */
  lemma HexDigitIs(c: char)
    ensures IsHexDigit(c) <==> c in "0123456789abcdefABCDEF"
    ensures 'A' <= c <= 'F' ==> HexValue(c) == c as int - 'A' as int + 10
  {
    assert forall i :: 0 <= i < 22 ==> IsHexDigit("0123456789abcdefABCDEF"[i]);
    if '0' <= c <= '9' {
      assert c == "0123456789abcdefABCDEF"[c as int - '0' as int];
    } else if 'a' <= c <= 'f' {
      assert c == "0123456789abcdefABCDEF"[10 + c as int - 'a' as int];
    } else if 'A' <= c <= 'F' {
      assert c == "0123456789abcdefABCDEF"[16 + c as int - 'A' as int];
    }
  }

  // ----- the code -----

  lemma NothingFound(more: Option<seq<string>>)
    ensures After([], more) == more
  {
    if more.Some? {
      Empty(more.value);
    }
  }

  lemma OneBlank(line: string, p: nat)
    requires p < |line| && IsSpace(line[p])
    ensures Args(line[p..]) == Args(line[p + 1..])
  {
    hide Token, Args, Blanks;
    var rest := line[p + 1..];
    assert line[p..][1..] == rest;
    BlankFirst(line[p..]);
    SameArguments(line[p..], rest);
  }

  lemma Ahead(line: string, p: nat)
    requires p <= |line|
    ensures forall k: nat :: Peek(line[p..], k) == Peek(line, p + k)
  {
  }

  /** The blanks in front of an argument. */
  method SkipBlanks(line: string, start: nat) returns (p: nat)
    requires start <= |line|
    ensures start <= p <= |line| && !IsSpace(Peek(line, p))
    ensures Args(line[p..]) == Args(line[start..])
    ensures forall k: nat :: Peek(line[p..], k) == Peek(line, p + k)
  {
    hide Args;
    p := start;
    while Peek(line, p) != NUL && IsSpace(Peek(line, p))
      invariant start <= p <= |line|
      invariant Args(line[p..]) == Args(line[start..])
      decreases |line| - p
    {
      OneBlank(line, p);
      p := p + 1;
    }
    Ahead(line, p);
  }

  /** A token read `p` characters into the line. */
  function Moved(r: Option<(string, nat)>, p: nat): Option<(string, nat)> {
    if r.None? then None else Some((r.value.0, p + r.value.1))
  }

  function ModeOf(inq: bool, insq: bool): Mode {
    if inq then InDouble else if insq then InSingle else Plain
  }

  function From(line: string, p: nat): string {
    if p <= |line| then line[p..] else ""
  }

  lemma TokenTurn(line: string, p: nat, mode: Mode, current: string)
    requires p <= |line|
    ensures var t := TurnOf(line[p..], mode);
            Moved(Token(line[p..], mode, current), p)
            == if t.Fail? then None
               else if t.done then Some((current + t.text, p + t.used))
               else Moved(Token(From(line, p + t.used), t.mode, current + t.text), p + t.used)
  {
    hide TurnOf;
    var t := TurnOf(line[p..], mode);
    TurnAdvances(line[p..], mode);
    if t.Go? {
      assert line[p..][t.used..] == line[p + t.used..];
    }
  }

  /** The loop over the characters of one argument, with the code's flags. */
  method GetToken(line: string, start: nat) returns (r: Option<(string, nat)>)
    requires start <= |line|
    ensures r == Moved(Token(line[start..], Plain, ""), start)
    ensures r.Some? ==> start <= r.value.1 <= |line|
  {
    hide Token, IsSpace, HexValue, Unescape;
    var inq, insq, done := false, false, false;
    var p: nat := start;
    var current := "";
    while !done
      invariant start <= p <= |line| && !(inq && insq)
      invariant Moved(Token(line[start..], Plain, ""), start)
             == if done then Some((current, p)) else Moved(Token(line[p..], ModeOf(inq, insq), current), p)
      decreases if done then 0 else 1, |line| - p
    {
      TokenTurn(line, p, ModeOf(inq, insq), current);
      TurnAdvances(line[p..], ModeOf(inq, insq));
      Ahead(line, p);
      Empty(current);
      if inq {
        if Peek(line, p) == '\\' && Peek(line, p + 1) == 'x'
           && IsHexDigit(Peek(line, p + 2)) && IsHexDigit(Peek(line, p + 3)) {
          current := current + [(HexValue(Peek(line, p + 2)) * 16 + HexValue(Peek(line, p + 3))) as char];
          p := p + 3;
        } else if Peek(line, p) == '\\' && Peek(line, p + 1) != NUL {
          p := p + 1;
          current := current + [Unescape(Peek(line, p))];
        } else if Peek(line, p) == '"' {
          if Peek(line, p + 1) != NUL && !IsSpace(Peek(line, p + 1)) {
            return None;
          }
          done := true;
        } else if Peek(line, p) == NUL {
          return None;
        } else {
          current := current + [Peek(line, p)];
        }
      } else if insq {
        if Peek(line, p) == '\\' && Peek(line, p + 1) == '\'' {
          p := p + 1;
          current := current + "'";
        } else if Peek(line, p) == '\'' {
          if Peek(line, p + 1) != NUL && !IsSpace(Peek(line, p + 1)) {
            return None;
          }
          done := true;
        } else if Peek(line, p) == NUL {
          return None;
        } else {
          current := current + [Peek(line, p)];
        }
      } else {
        match Peek(line, p) {
          case ' ' => done := true;
          case '\n' => done := true;
          case '\r' => done := true;
          case '\t' => done := true;
          case '\0' => done := true;
          case '"' => inq := true;
          case '\'' => insq := true;
          case _ => current := current + [Peek(line, p)];
        }
      }
      if Peek(line, p) != NUL {
        p := p + 1;
      }
    }
    return Some((current, p));
  }

  lemma BadArgument(line: string, p: nat)
    requires p <= |line| && StartsArgument(line[p..]) && Token(line[p..], Plain, "").None?
    ensures Args(line[p..]).None?
  {
    hide Token;
    assert line[p..][0..] == line[p..];
  }

  lemma OneMoreArgument(line: string, p: nat, vector: seq<string>, text: string, q: nat)
    requires p <= q <= |line| && StartsArgument(line[p..])
    requires Moved(Token(line[p..], Plain, ""), p) == Some((text, q))
    ensures After(vector, Args(line[p..])) == After(vector + [text], Args(line[q..]))
    ensures p < q
  {
    hide Token;
    assert line[p..][0..] == line[p..] && line[p..][q - p..] == line[q..];
    var more := Args(line[q..]);
    if more.Some? {
      Assoc(vector, [text], more.value);
    }
  }

  lemma NoMoreArguments(line: string, p: nat)
    requires p <= |line| && Peek(line[p..], 0) == NUL
    ensures Args(line[p..]) == Some([])
  {
    hide Token;
    assert line[p..][0..] == line[p..];
  }

  /** `sdssplitargs`: the result is `None` where the code returns NULL. */
  method SplitArgs(line: string) returns (r: Option<seq<string>>)
    ensures r == Args(line)
  {
    hide Args, Token, TurnOf;
    var p: nat := 0;
    var vector: seq<string> := [];
    assert line[0..] == line;
    NothingFound(Args(line));
    while true
      invariant p <= |line|
      invariant Args(line) == After(vector, Args(line[p..]))
      decreases |line| - p
    {
      p := SkipBlanks(line, p);
      if Peek(line, p) != NUL {
        var token := GetToken(line, p);
        if token.None? {
          BadArgument(line, p);
          return None;
        }
        OneMoreArgument(line, p, vector, token.value.0, token.value.1);
        vector := vector + [token.value.0];
        p := token.value.1;
      } else {
        NoMoreArguments(line, p);
        Empty(vector);
        return Some(vector);
      }
    }
  }
}
