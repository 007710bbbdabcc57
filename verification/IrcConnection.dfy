/** The receive path of a connection: the buffer that cuts what comes in into lines, and the parser that gets them
    (libircclient-src/libircclient.c, `irc_process_select_descriptors`).
  */
module IrcConnection {
  import opened IrcFraming
  import opened IrcMessage
  import opened IrcParser
  import opened IrcSession
  import opened IrcStream
  import opened Sequences

  lemma FeedNothing(p: State, refuses: Refusal)
    requires Valid(p)
    ensures ExecLines(p, [], refuses) == Feed(p, [], true)
  {
  }

  /** One more line, when the parser is still defined. */
  lemma {:induction false} FeedOneMore(p: State, lines: seq<string>, line: string, refuses: Refusal)
    requires Valid(p) && ExecLines(p, lines, refuses).defined && Valid(ExecLines(p, lines, refuses).state)
    ensures var f := ExecLines(p, lines, refuses);
            var run := Exec(f.state, line, refuses);
            ExecLines(p, lines + [line], refuses) == Feed(run.state, f.events + run.events, !run.status.Overrun?)
    decreases |lines|
  {
    hide Exec;
    if lines == [] {
      assert [line][1..] == [] && [] + [line] == [line];
      var run := Exec(p, line, refuses);
      FeedNothing(run.state, refuses);
      Empty(run.events);
    } else {
      var r := Exec(p, lines[0], refuses);
      assert (lines + [line])[0] == lines[0] && (lines + [line])[1..] == lines[1..] + [line];
      FeedOneMore(r.state, lines[1..], line, refuses);
      var f := ExecLines(r.state, lines[1..], refuses);
      Assoc(r.events, f.events, Exec(f.state, line, refuses).events);
    }
  }

  /** Lines behind an undefined one change nothing. */
  lemma {:induction false} UndefinedStays(p: State, lines: seq<string>, more: seq<string>, refuses: Refusal)
    requires Valid(p) && !ExecLines(p, lines, refuses).defined
    ensures ExecLines(p, lines + more, refuses) == ExecLines(p, lines, refuses)
    decreases |lines|
  {
    hide Exec;
    if lines != [] {
      var r := Exec(p, lines[0], refuses);
      assert (lines + more)[0] == lines[0] && (lines + more)[1..] == lines[1..] + more;
      if !r.status.Overrun? {
        UndefinedStays(r.state, lines[1..], more, refuses);
      }
    }
  }

  lemma NoLinesYet()
    ensures Lines("").lines == []
  {
  }

  lemma OneMoreOf<T>(s: seq<T>, i: nat)
    requires i < |s|
    ensures s[..i] + [s[i]] == s[..i + 1]
  {
  }

  lemma AllOf<T>(s: seq<T>, i: nat)
    requires i <= |s|
    ensures s[..i] + s[i..] == s && (i == |s| ==> s[..i] == s)
  {
  }

  lemma FrontOfLines<T>(a: seq<T>, b: seq<T>)
    ensures (a + b)[..|a|] == a
  {
  }

  class Connection {
    const session: Session
    const parser: Parser

    /** The parser has not written behind its buffer. */
    var defined: bool

    /** What the parser has come to, as the outcome of feeding it lines. */
    ghost function Fed(): Feed
      reads `defined, parser, parser.raw
    {
      Feed(parser.Now(), parser.calls, defined)
    }

    ghost predicate Separate()
    {
      parser.raw != session.incomingBuf && parser.raw != session.outgoingBuf
    }

    /** The parser has made exactly the calls for the lines received. */
    ghost predicate Valid()
      reads this, session, session.incomingBuf, session.outgoingBuf, parser, parser.raw
    {
      session.Valid() && parser.Ready() && Separate()
      && Fed() == ExecLines(INITIAL, Lines(session.received).lines, parser.refuses)
    }

    constructor (refuses: Refusal)
      ensures Valid() && defined && session.received == "" && parser.refuses == refuses
      ensures fresh(session) && fresh(parser) && fresh(session.incomingBuf) && fresh(session.outgoingBuf)
           && fresh(parser.raw)
    {
      session := new Session();
      parser := new Parser(refuses);
      defined := true;
      new;
      hide ExecLines;
      FeedNothing(INITIAL, refuses);
      NoLinesYet();
    }

    lemma DeliveredIs()
      requires session.Valid()
      ensures session.delivered == Lines(session.received).lines
    {
    }

    /** `libirc_process_incoming_data` for each line from `k` on. */
    method ParseLines(k: nat)
      requires parser.Ready() && Separate() && defined && k <= |session.delivered|
      requires Fed() == ExecLines(INITIAL, session.delivered[..k], parser.refuses)
      modifies `defined, parser, parser.raw
      ensures parser.Ready() && Fed() == ExecLines(INITIAL, session.delivered, parser.refuses)
    {
      hide ExecLines, Exec;
      ghost var lines := session.delivered;
      var i := k;
      while i < |session.delivered| && defined
        invariant k <= i <= |session.delivered| && session.delivered == lines && parser.Ready()
        invariant Fed() == ExecLines(INITIAL, lines[..i], parser.refuses)
        decreases |session.delivered| - i
      {
        FeedOneMore(INITIAL, lines[..i], lines[i], parser.refuses);
        OneMoreOf(lines, i);
        var n;
        n, defined := parser.Execute(session.delivered[i]);
        i := i + 1;
      }
      AllOf(lines, i);
      if !defined {
        UndefinedStays(INITIAL, lines[..i], lines[i..], parser.refuses);
      }
    }

    /** Read what the socket gives, and parse the lines that this completes. The code parses each line before it
        looks for the next one; neither touches what the other works on. */
    method Read(io: Io<string>) returns (ret: int)
      requires Valid() && defined
      requires io.Did? ==> 0 < |io.value| <= BUFFER_SIZE - 1 - session.incomingOffset
      modifies `defined, session, session.incomingBuf, parser, parser.raw
      ensures Valid()
      ensures session.received == old(session.received) + if io.Did? then io.value else ""
    {
      hide ExecLines, Lines, Exec;
      ghost var before := session.received;
      Empty(before);
      DeliveredIs();
      var k := |session.delivered|;
      ret := session.Read(io);
      DeliveredIs();
      if io.Did? {
        LinesAppend(before, io.value);
        FrontOfLines(Lines(before).lines, Lines(Lines(before).rest + io.value).lines);
      } else {
        AllOf(session.delivered, k);
      }
      ParseLines(k);
    }

    /** While the server sends messages that the parser has room for, the calls made are those of the messages
        that have arrived whole, and the parser is ready for the next one. */
    lemma CallsAreThoseOfMessages(ms: seq<Message>, future: string)
      requires Valid() && Sendable(ms) && Accepting(parser.refuses)
      requires session.received + future == Flatten(Prints(ms))
      ensures var k := |Lines(session.received).lines|;
              k <= |ms| && defined && parser.Now() == INITIAL && parser.calls == AllCalls(ms[..k])
      ensures future == "" ==> parser.calls == AllCalls(ms)
    {
      hide ExecLines, Lines, Exec, Flatten, Prints, WellFormed, Line, AllCalls, Sendable;
      EveryMessageArrives(ms, session.received, future, parser.refuses);
      assert ms[..|ms|] == ms;
    }
  }
}
