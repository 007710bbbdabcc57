/** From the server's messages to the parser's callbacks: framing, parsing and printing together. */
module IrcStream {
  import opened IrcFraming
  import opened IrcMessage
  import opened IrcParser
  import opened Options
  import opened Sequences

  function Prints(ms: seq<Message>): seq<string> {
    if ms == [] then [] else [Print(ms[0])] + Prints(ms[1..])
  }

  function AllCalls(ms: seq<Message>): seq<Event> {
    if ms == [] then [] else Calls(ms[0]) + AllCalls(ms[1..])
  }

  /** What feeding lines to a parser comes to; `defined` is false when the parser writes behind its buffer. */
  datatype Feed = Feed(state: State, events: seq<Event>, defined: bool)

  /** `libirc_process_incoming_data` for each delivered line; it ignores what the parser returns and never resets
      it. */
  function ExecLines(p: State, lines: seq<string>, refuses: Refusal): Feed
    requires Valid(p)
    decreases |lines|
  {
    if lines == [] then Feed(p, [], true)
    else
      var r := Exec(p, lines[0], refuses);
      if r.status.Overrun? then Feed(r.state, r.events, false)
      else
        var more := ExecLines(r.state, lines[1..], refuses);
        Feed(more.state, r.events + more.events, more.defined)
  }

  /** Messages that the parser has room for. */
  predicate Sendable(ms: seq<Message>) {
    forall i :: 0 <= i < |ms| ==> WellFormed(ms[i]) && |Line(ms[i])| <= RAW_BUFFER_SIZE
  }

  lemma WithoutJoin(a: string, b: string, bad: string)
    requires Without(a, bad) && Without(b, bad)
    ensures Without(a + b, bad)
  {
  }

  lemma WithoutFewer(a: string, bad: string, fewer: string)
    requires Without(a, bad) && forall c :: c in fewer ==> c in bad
    ensures Without(a, fewer)
  {
  }

  lemma PrefixHasNoLineEnd(p: Prefix)
    requires WellFormed(Message(Some(p), "", [], None))
    ensures Without(PrintPrefix(p), "\r\n")
  {
  }

  lemma {:induction false} MiddlesHaveNoLineEnd(middles: seq<string>)
    requires forall i :: 0 <= i < |middles| ==> IsMiddle(middles[i])
    ensures Without(PrintMiddles(middles), "\r\n")
  {
    if middles != [] {
      MiddlesHaveNoLineEnd(middles[1..]);
      assert IsMiddle(middles[0]);
      WithoutFewer(middles[0], "\r\n ", "\r\n");
      WithoutJoin(" " + middles[0], PrintMiddles(middles[1..]), "\r\n");
    }
  }

  lemma LineHasNoLineEnd(m: Message)
    requires WellFormed(m)
    ensures Without(Line(m), "\r\n")
  {
    hide PrintPrefix, PrintMiddles;
    MiddlesHaveNoLineEnd(m.middles);
    if m.prefix.Some? {
      PrefixHasNoLineEnd(m.prefix.value);
    }
  }

  lemma PrintedLineEndsAtItsEnd(m: Message)
    requires WellFormed(m)
    ensures FirstCrlf(Print(m)) == |Print(m)| && Print(m) != ""
  {
    hide FirstCrlf, Line, WellFormed;
    LineHasNoLineEnd(m);
    var s := Print(m);
    assert s[|s| - 2] == '\r' && s[|s| - 1] == '\n';
    forall i | 0 <= i < |s| - 2 ensures !CrlfAt(s, i) {
      assert s[i] == Line(m)[i];
    }
    FirstCrlfIs(s, |s|);
  }

  lemma {:induction false} PrintsAreLines(ms: seq<Message>)
    requires Sendable(ms)
    ensures forall i :: 0 <= i < |Prints(ms)| ==>
              FirstCrlf(Prints(ms)[i]) == |Prints(ms)[i]| && 0 < |Prints(ms)[i]| <= RAW_BUFFER_SIZE + 2
    ensures |Prints(ms)| == |ms|
  {
    hide FirstCrlf, WellFormed, Line;
    if ms != [] {
      PrintsAreLines(ms[1..]);
      PrintedLineEndsAtItsEnd(ms[0]);
    }
  }

  lemma PrintsLength(ms: seq<Message>)
    ensures |Prints(ms)| == |ms|
  {
    hide Print;
  }

  lemma {:induction false} PrintsTake(ms: seq<Message>, k: nat)
    requires k <= |ms|
    ensures |Prints(ms)| == |ms|
    ensures Prints(ms[..k]) == Prints(ms)[..k]
  {
    hide Print;
    if k == 0 {
    } else {
      PrintsTake(ms[1..], k - 1);
      assert ms[..k][1..] == ms[1..][..k - 1];
    }
    PrintsLength(ms);
  }

  /** Parsing printed messages line by line makes exactly their calls. */
  lemma {:induction false} PrintedLinesAreParsed(ms: seq<Message>, refuses: Refusal)
    requires Sendable(ms) && Accepting(refuses)
    ensures ExecLines(INITIAL, Prints(ms), refuses) == Feed(INITIAL, AllCalls(ms), true)
  {
    hide Exec, WellFormed, Line, Print, Calls;
    if ms != [] {
      PrintedMessageIsParsed(ms[0], refuses);
      PrintedLinesAreParsed(ms[1..], refuses);
    }
  }

  predicate AllWellFormed(ms: seq<Message>) {
    forall i :: 0 <= i < |ms| ==> WellFormed(ms[i])
  }

  /** No call is a complaint. */
  ghost predicate NoComplaint(events: seq<Event>) {
    forall e :: e in events ==> e.kind != OnError
  }

  lemma {:induction false} FieldsDoNotComplain(kind: Kind, pending: string, fields: seq<string>)
    requires kind != OnError
    ensures NoComplaint(FieldEvents(kind, pending, fields))
    decreases |fields|
  {
    if fields != [] {
      FieldsDoNotComplain(OnParam, fields[0], fields[1..]);
    }
  }

  lemma CallsDoNotComplain(m: Message)
    ensures NoComplaint(Calls(m))
  {
    hide FieldEvents;
    FieldsDoNotComplain(OnCommand, m.command, Parameters(m));
  }

  lemma {:induction false} AllCallsDoNotComplain(ms: seq<Message>)
    ensures NoComplaint(AllCalls(ms))
  {
    hide Calls;
    if ms != [] {
      CallsDoNotComplain(ms[0]);
      AllCallsDoNotComplain(ms[1..]);
    }
  }

  /** A message that is too long ends in a complaint and leaves the buffer full. */
  lemma LongMessage(m: Message, refuses: Refusal)
    requires WellFormed(m) && |Line(m)| > RAW_BUFFER_SIZE && Accepting(refuses)
    ensures var r := Exec(INITIAL, Print(m), refuses);
            r.status.Aborted? && Stuck(r.state) && |r.state.raw| == RAW_BUFFER_SIZE + 1 && !NoComplaint(r.events)
  {
    hide Exec, WellFormed, Line;
    LineHasNoLineEnd(m);
    LongLinesAreRefused(Line(m), refuses);
    ExecSplit(INITIAL, Line(m), "\r\n", refuses);
    var events := Exec(INITIAL, Line(m), refuses).events;
    var all := Exec(INITIAL, Print(m), refuses).events;
    assert all[|events| - 1].kind == OnError && all[|events| - 1] in all;
  }

  lemma FirstLine(ms: seq<Message>, refuses: Refusal)
    requires ms != []
    ensures var r := Exec(INITIAL, Print(ms[0]), refuses);
            ExecLines(INITIAL, Prints(ms), refuses)
            == if r.status.Overrun? then Feed(r.state, r.events, false)
               else var more := ExecLines(r.state, Prints(ms[1..]), refuses);
                    Feed(more.state, r.events + more.events, more.defined)
    ensures Exec(INITIAL, Print(ms[0]), refuses).events <= ExecLines(INITIAL, Prints(ms), refuses).events
  {
    hide Exec, Print;
    assert Prints(ms)[1..] == Prints(ms[1..]);
  }

  lemma ComplaintStays(some: seq<Event>, all: seq<Event>)
    requires some <= all && !NoComplaint(some)
    ensures !NoComplaint(all)
  {
    var e :| e in some && e.kind == OnError;
    assert e in all;
  }

  lemma Cancel<T>(a: seq<T>, b: seq<T>, c: seq<T>)
    ensures a + b == a + c <==> b == c
  {
    if a + b == a + c {
      assert b == (a + b)[|a|..] && c == (a + c)[|a|..];
    }
  }

  /** A stream of messages is parsed as its messages exactly when none of them is too long. */
  lemma {:induction false} ParsedAsMessages(ms: seq<Message>, refuses: Refusal)
    requires AllWellFormed(ms) && Accepting(refuses)
    ensures ExecLines(INITIAL, Prints(ms), refuses) == Feed(INITIAL, AllCalls(ms), true) <==> Sendable(ms)
  {
    hide Exec, WellFormed, Line, Print, Calls, NoComplaint;
    if ms != [] {
      FirstLine(ms, refuses);
      if |Line(ms[0])| > RAW_BUFFER_SIZE {
        LongMessage(ms[0], refuses);
        AllCallsDoNotComplain(ms);
        ComplaintStays(Exec(INITIAL, Print(ms[0]), refuses).events,
                       ExecLines(INITIAL, Prints(ms), refuses).events);
      } else {
        PrintedMessageIsParsed(ms[0], refuses);
        ParsedAsMessages(ms[1..], refuses);
        Cancel(Calls(ms[0]), ExecLines(INITIAL, Prints(ms[1..]), refuses).events, AllCalls(ms[1..]));
        assert Sendable(ms) <==> Sendable(ms[1..]) by {
          assert forall i :: 0 < i < |ms| ==> ms[i] == ms[1..][i - 1];
        }
      }
    }
  }

  // ----- after an error -----

  predicate StartsWithText(line: string) {
    line != "" && line[0] != '\r' && line[0] != '\n'
  }

  function Complaints(lines: seq<string>): seq<Event> {
    if lines == [] then [] else [Event(OnError, lines[0])] + Complaints(lines[1..])
  }

  /** A parser in error refuses line after line, whatever is in them, and keeps the first byte of each; the line
      that finds the buffer full makes it write behind it. */
  lemma {:induction false} StuckOnLines(p: State, lines: seq<string>, refuses: Refusal)
    requires Stuck(p) && forall i :: 0 <= i < |lines| ==> StartsWithText(lines[i])
    ensures var f := ExecLines(p, lines, refuses);
            (f.defined <==> |p.raw| + |lines| <= RAW_BUFFER_SIZE + 1)
            && (f.defined ==>
                  Stuck(f.state) && |f.state.raw| == |p.raw| + |lines| && f.events == Complaints(lines))
    decreases |lines|
  {
    hide Exec;
    if lines != [] {
      assert StartsWithText(lines[0]);
      LineWhenStuck(p, lines[0], refuses);
      if |p.raw| <= RAW_BUFFER_SIZE {
        StuckOnLines(Exec(p, lines[0], refuses).state, lines[1..], refuses);
      }
    }
  }

  /** So a message that is too long is fatal: the next one that is not empty is written behind the buffer. */
  lemma LongMessageThenAnother(m: Message, next: Message, refuses: Refusal)
    requires WellFormed(m) && |Line(m)| > RAW_BUFFER_SIZE && Accepting(refuses)
    requires WellFormed(next) && Line(next) != ""
    ensures !ExecLines(INITIAL, [Print(m), Print(next)], refuses).defined
  {
    hide Exec, WellFormed, Line;
    LongMessage(m, refuses);
    LineHasNoLineEnd(next);
    assert Print(next)[0] == Line(next)[0];
    var lines := [Print(m), Print(next)];
    assert lines[1..] == [Print(next)];
    StuckOnLines(Exec(INITIAL, Print(m), refuses).state, [Print(next)], refuses);
  }

  lemma StrayReturn(refuses: Refusal)
    ensures Exec(INITIAL, "a\rb\r\n", refuses)
         == Run(State("ab", 0, Error, UndefinedState), [Event(OnError, "b\r\n")], Aborted(2))
  {
    var s := "a\rb\r\n";
    var p1, p2 := State("a", 0, Command, NoError), State("a", 0, End, NoError);
    assert s[1..] == "\rb\r\n" && "\rb\r\n"[1..] == "b\r\n";
    assert [] + ['a'] == "a" && "a" + ['b'] == "ab";
    assert ByteStep(INITIAL, 'a', refuses) == Continue(p1, []);
    assert ByteStep(p1, '\r', refuses) == Continue(p2, []);
    assert ByteStep(p2, 'b', refuses) == Abort(State("ab", 0, Error, UndefinedState));
    hide ByteStep;
    assert Exec(p2, "b\r\n", refuses) == Run(State("ab", 0, Error, UndefinedState), [Event(OnError, "b\r\n")], Aborted(0));
    assert Exec(p1, "\rb\r\n", refuses) == Run(State("ab", 0, Error, UndefinedState), [Event(OnError, "b\r\n")], Aborted(1));
  }

  lemma NoLineEndInNothing()
    ensures FirstCrlf("") == 0
  {
  }

  lemma TwoLines(a: string, b: string)
    requires FirstCrlf(a) == |a| && a != "" && FirstCrlf(b) == |b| && b != ""
    ensures Lines(a + b) == Cut([a, b], "")
  {
    hide Lines, FirstCrlf;
    NoLineEndInNothing();
    FlattenFirst(a, [b]);
    FlattenFirst(b, []);
    Empty(b);
    Empty(a + b);
    assert [a] + [b] == [a, b] && [b] + [] == [b];
    CutIsUnique(Cut([a, b], ""), a + b);
  }

  lemma StrayLines()
    ensures var bad, good := "a\rb\r\n", "PING x\r\n"; Lines(bad + good) == Cut([bad, good], "")
  {
    hide Lines, FirstCrlf;
    var bad, good := "a\rb\r\n", "PING x\r\n";
    assert CrlfAt(bad, 3) && !CrlfAt(bad, 0) && !CrlfAt(bad, 1) && !CrlfAt(bad, 2);
    FirstCrlfIs(bad, 5);
    assert CrlfAt(good, 6);
    FirstCrlfIs(good, 8);
    TwoLines(bad, good);
  }

  function Letters(n: nat): (r: string)
    ensures |r| == n && Without(r, "\r\n :")
  {
    seq(n, _ => 'A')
  }

  lemma LoneCommand(s: string)
    requires Without(s, "\r\n :")
    ensures var m := Message(None, s, [], None); WellFormed(m) && Line(m) == s && Print(m) == s + "\r\n"
  {
    var m := Message(None, s, [], None);
    WithoutFewer(s, "\r\n :", "\r\n ");
    assert s != "" ==> s[0] != ':';
  }

  /** A command of 513 letters, which framing lets through, and the "PING x" behind it is written behind the
      buffer. */
  lemma LongMessageExample(refuses: Refusal)
    requires Accepting(refuses)
    ensures var bad, good := Letters(513) + "\r\n", "PING x\r\n";
            |bad| <= 2047 && Lines(bad + good) == Cut([bad, good], "")
            && !ExecLines(INITIAL, [bad, good], refuses).defined
  {
    hide Letters, ExecLines, Lines, FirstCrlf;
    var m, next := Message(None, Letters(513), [], None), Message(None, "PING", ["x"], None);
    LoneCommand(Letters(513));
    assert PrintMiddles(["x"]) == " x";
    assert Print(next) == "PING x\r\n";
    LongMessageThenAnother(m, next, refuses);
    PrintedLineEndsAtItsEnd(m);
    PrintedLineEndsAtItsEnd(next);
    TwoLines(Print(m), Print(next));
  }

  /** A stray carriage return is enough: the next message is refused, and the parser stays as it is. */
  lemma StrayReturnExample(refuses: Refusal)
    requires Accepting(refuses)
    ensures var bad, good := "a\rb\r\n", "PING x\r\n";
            Lines(bad + good) == Cut([bad, good], "")
            && var f := ExecLines(INITIAL, [bad, good], refuses);
               f.defined && f.state.phase == Error && f.events == [Event(OnError, "b\r\n"), Event(OnError, good)]
  {
    var bad, good := "a\rb\r\n", "PING x\r\n";
    StrayReturn(refuses);
    StrayLines();
    hide Exec, Lines, FirstCrlf;
    var p := State("ab", 0, Error, UndefinedState);
    assert [bad, good][1..] == [good];
    StuckOnLines(p, [good], refuses);
    assert Complaints([good]) == [Event(OnError, good)];
  }

  /** However much of the stream has arrived, and in whatever pieces: the delivered lines are the first
      messages, whole; the parser has made exactly their calls; and what is left over is less than a line. */
  lemma EveryMessageArrives(ms: seq<Message>, received: string, future: string, refuses: Refusal)
    requires Sendable(ms) && Accepting(refuses) && received + future == Flatten(Prints(ms))
    ensures var k := |Lines(received).lines|;
            k <= |ms|
            && Lines(received).lines == Prints(ms[..k])
            && ExecLines(INITIAL, Lines(received).lines, refuses) == Feed(INITIAL, AllCalls(ms[..k]), true)
            && |Lines(received).rest| < RAW_BUFFER_SIZE + 2
            && (future == "" ==> k == |ms| && Lines(received).rest == "")
  {
    hide FirstCrlf, WellFormed, Line, Print, Prints, Exec, ExecLines, Lines, Flatten, Calls, AllCalls;
    var lines := Prints(ms);
    PrintsAreLines(ms);
    Empty(Flatten(lines));
    NoLineEndInNothing();
    CutIsUnique(Cut(lines, ""), received + future);
    LinesAppend(received, future);
    var k := |Lines(received).lines|;
    assert lines[..k] == Lines(received).lines;
    PrintsTake(ms, k);
    PrintedLinesAreParsed(ms[..k], refuses);
    LeftoverIsShort(received, future, RAW_BUFFER_SIZE + 2);
    Empty(received);
  }
}
