/** The two buffers of an IRC connection (libircclient-src/libircclient.c): received text that is not yet a
    whole line, and commands that the socket has not taken yet.

    `received` and `accepted` are everything that ever came in and everything that was ever queued. The
    buffers, the lines handed to the parser and the bytes sent are functions of those two histories, however
    the socket cuts its reads and writes.
  */
module IrcSession {
  import opened Buffers
  import opened IrcFraming
  import opened Sequences

  const BUFFER_SIZE := 2048

  /** What a socket call did: an error or a closed connection, or `n` bytes. */
  datatype Io<T> = Failed | Did(value: T)

  /** The commands as they go out, each followed by a line end. */
  function WithLineEnds(commands: seq<string>): string {
    if commands == [] then "" else WithLineEnds(commands[..|commands| - 1]) + (commands[|commands| - 1] + "\r\n")
  }

  lemma OneMoreCommand(commands: seq<string>, command: string)
    ensures WithLineEnds(commands + [command]) == WithLineEnds(commands) + (command + "\r\n")
  {
    assert (commands + [command])[..|commands|] == commands;
  }

  /** The text ends in a line end. */
  predicate EndsLine(s: string) {
    |s| >= 2 && s[|s| - 2] == '\r' && s[|s| - 1] == '\n'
  }

  lemma QueueEndsLine(sent: string, queue: string)
    requires |queue| >= 2 && EndsLine(sent + queue)
    ensures EndsLine(queue)
  {
  }

  lemma LineEndIsFound(queue: string)
    requires EndsLine(queue)
    ensures FirstCrlf(queue) > 0
  {
    assert CrlfAt(queue, |queue| - 2);
  }

  /** The queue is the end of the accepted text, so two queued bytes include a line end. */
  lemma QueueHasLineEnd(sent: string, queue: string, accepted: string)
    requires sent + queue == accepted && (accepted == "" || EndsLine(accepted))
    ensures FirstCrlf(queue) > 0 <==> |queue| >= 2
  {
    hide EndsLine;
    if |queue| >= 2 {
      QueueEndsLine(sent, queue);
      LineEndIsFound(queue);
    }
  }

  lemma UsedIs(buf: array<char>, n: nat)
    requires n <= buf.Length
    ensures Used(buf, n) == buf[..n]
    ensures forall k: nat :: k <= n ==> Used(buf, n)[..k] == buf[..k]
  {
  }

  lemma FirstCrlfBound(s: string)
    ensures FirstCrlf(s) <= |s|
  {
  }

  lemma OneMoreLine(delivered: seq<string>, s: string)
    requires FirstCrlf(s) != 0
    ensures var r := FirstCrlf(s);
            delivered + Lines(s).lines == (delivered + [s[..r]]) + Lines(Behind(s, r)).lines
            && Lines(s).rest == Lines(Behind(s, r)).rest
  {
    hide FirstCrlf;
    FirstCrlfBound(s);
    Assoc(delivered, [s[..FirstCrlf(s)]], Lines(s[FirstCrlf(s)..]).lines);
  }

  lemma NothingLeft(s: string)
    requires FirstCrlf(s) == 0
    ensures Lines(s) == Cut([], s)
  {
  }

  lemma EndsWithCrlf(s: string)
    ensures EndsLine(s + "\r\n")
  {
  }

  lemma MoveOver(sent: string, queue: string, n: nat)
    requires n <= |queue|
    ensures sent + queue == (sent + queue[..n]) + Behind(queue, n)
  {
    Split(queue, n);
    Assoc(sent, queue[..n], queue[n..]);
  }

  lemma LastByte(sent: string, queue: string, accepted: string)
    requires sent + queue == accepted && |queue| == 1 && (accepted == "" || EndsLine(accepted))
    ensures queue == "\n"
  {
    assert accepted[|accepted| - 1] == queue[0];
  }

  class Session {
    const incomingBuf: array<char>
    const outgoingBuf: array<char>

    var connected: bool
    var incomingOffset: nat
    var outgoingOffset: nat

    /** The lines handed to the parser, and the bytes the socket has taken. */
    var delivered: seq<string>
    var sent: string

    ghost var received: string
    ghost var accepted: string

    /** The commands that were accepted. */
    ghost var commands: seq<string>

    ghost function Incoming(): string
      reads this, incomingBuf
    {
      Used(incomingBuf, incomingOffset)
    }

    ghost function Outgoing(): string
      reads this, outgoingBuf
    {
      Used(outgoingBuf, outgoingOffset)
    }

    ghost predicate Valid()
      reads this, incomingBuf, outgoingBuf
    {
      incomingBuf.Length == BUFFER_SIZE && outgoingBuf.Length == BUFFER_SIZE && incomingBuf != outgoingBuf
      && incomingOffset < BUFFER_SIZE && outgoingOffset < BUFFER_SIZE
      && Lines(received) == Cut(delivered, Incoming())
      && sent + Outgoing() == accepted
      && accepted == WithLineEnds(commands)
      && (accepted == "" || EndsLine(accepted))
    }

    constructor ()
      ensures Valid() && connected && received == "" && accepted == "" && delivered == [] && sent == ""
      ensures commands == [] && outgoingOffset == 0
      ensures fresh(incomingBuf) && fresh(outgoingBuf)
    {
      incomingBuf := new char[BUFFER_SIZE](_ => '\0');
      outgoingBuf := new char[BUFFER_SIZE](_ => '\0');
      connected, incomingOffset, outgoingOffset, delivered, sent := true, 0, 0, [], "";
      received, accepted, commands := "", "", [];
    }

    /** Whether `irc_add_select_descriptors` asks to be woken for reading. */
    method WantsRead() returns (b: bool)
      requires Valid()
      ensures b <==> |Incoming()| < 2047
    {
      b := incomingOffset < BUFFER_SIZE - 1;
    }

    /** Whether it asks to be woken for writing: with at least two bytes queued, and only then. The line feed
        of a command whose other bytes have gone out waits for the next command. */
    method WantsWrite() returns (b: bool)
      requires Valid()
      ensures b <==> |Outgoing()| >= 2
    {
      var r := FindCrlf(outgoingBuf, outgoingOffset);
      b := r > 0;
      QueueHasLineEnd(sent, Outgoing(), accepted);
    }

    /** The loop of the read part. */
    method DeliverLines()
      requires incomingBuf.Length == BUFFER_SIZE && incomingBuf != outgoingBuf && incomingOffset < BUFFER_SIZE
      modifies `incomingOffset, `delivered, incomingBuf
      ensures incomingOffset < BUFFER_SIZE
      ensures delivered == old(delivered) + Lines(old(Incoming())).lines
      ensures Incoming() == Lines(old(Incoming())).rest
    {
      hide Lines, FirstCrlf, Used;
      ghost var before, text := delivered, Incoming();
      Empty(delivered + Lines(text).lines);
      var offset := FindCrlf(incomingBuf, incomingOffset);
      UsedIs(incomingBuf, incomingOffset);
      while offset > 0
        invariant incomingOffset < BUFFER_SIZE && offset == FirstCrlf(Incoming())
        invariant before + Lines(text).lines == delivered + Lines(Incoming()).lines
        invariant Lines(text).rest == Lines(Incoming()).rest
        decreases incomingOffset
      {
        FirstCrlfBound(Incoming());
        OneMoreLine(delivered, Incoming());
        UsedIs(incomingBuf, incomingOffset);
        delivered := delivered + [incomingBuf[..offset]];
        DropFront(incomingBuf, incomingOffset, offset);
        incomingOffset := incomingOffset - offset;
        offset := FindCrlf(incomingBuf, incomingOffset);
        UsedIs(incomingBuf, incomingOffset);
      }
      NothingLeft(Incoming());
      Empty(delivered);
    }

    /** The read part of `irc_process_select_descriptors`: append what the socket gave, hand over every whole
        line and move the rest to the front. The socket gives at most the room that is left. */
    method Read(io: Io<string>) returns (ret: int)
      requires Valid() && (io.Did? ==> 0 < |io.value| <= BUFFER_SIZE - 1 - incomingOffset)
      modifies `connected, `incomingOffset, `delivered, `received, incomingBuf
      ensures Valid()
      ensures io.Failed? ==> ret == 1 && !connected && received == old(received)
      ensures io.Did? ==> ret == 0 && connected == old(connected) && received == old(received) + io.value
    {
      hide Lines, FirstCrlf, EndsLine, Used;
      if io.Failed? {
        connected := false;
        return 1;
      }
      LinesAppend(received, io.value);
      AppendTo(incomingBuf, incomingOffset, io.value);
      incomingOffset := incomingOffset + |io.value|;
      received := received + io.value;
      DeliverLines();
      return 0;
    }

    /** Append a command and its line end to the queue. */
    method Enqueue(buf: string)
      requires Valid() && outgoingOffset + |buf| + 2 < BUFFER_SIZE
      modifies `outgoingOffset, `accepted, `commands, outgoingBuf
      ensures Valid() && outgoingOffset == old(outgoingOffset) + |buf| + 2
      ensures accepted == old(accepted) + (buf + "\r\n") && commands == old(commands) + [buf]
    {
      hide Lines, FirstCrlf, Used, EndsLine, WithLineEnds;
      Assoc(sent, Outgoing(), buf + "\r\n");
      Assoc(Outgoing(), buf, "\r\n");
      EndsWithCrlf(accepted + buf);
      Assoc(accepted, buf, "\r\n");
      OneMoreCommand(commands, buf);
      AppendTo(outgoingBuf, outgoingOffset, buf);
      outgoingOffset := outgoingOffset + |buf|;
      AppendTo(outgoingBuf, outgoingOffset, "\r\n");
      outgoingOffset := outgoingOffset + 2;
      accepted := accepted + (buf + "\r\n");
      commands := commands + [buf];
    }

    /** `irc_send_raw` for the text that the format produces. It is formatted into a buffer of 1024, so of a longer
        text the first 1023 characters are left. */
    method SendRaw(formatted: string) returns (ret: int)
      requires Valid()
      modifies `outgoingOffset, `accepted, `commands, outgoingBuf
      ensures Valid()
      ensures ret == 0 || ret == 1
      ensures |formatted| <= 1023 ==> (ret == 0 <==> connected && old(outgoingOffset) + |formatted| + 2 < 2048)
      ensures |formatted| > 1023 ==> (ret == 0 <==> connected && old(outgoingOffset) + 1023 + 2 < 2048)
      ensures ret == 0 && |formatted| <= 1023 ==>
                accepted == old(accepted) + (formatted + "\r\n") && commands == old(commands) + [formatted]
                && outgoingOffset == old(outgoingOffset) + |formatted| + 2
      ensures ret == 0 && |formatted| > 1023 ==>
                accepted == old(accepted) + (formatted[..1023] + "\r\n")
                && commands == old(commands) + [formatted[..1023]]
                && outgoingOffset == old(outgoingOffset) + 1025
      ensures ret != 0 ==>
                accepted == old(accepted) && commands == old(commands) && outgoingOffset == old(outgoingOffset)
    {
      hide Lines, FirstCrlf, Used, EndsLine, WithLineEnds, Valid;
      if !connected {
        return 1;
      }
      var buf := if |formatted| <= 1023 then formatted else formatted[..1023];
      if |buf| + 2 >= BUFFER_SIZE - outgoingOffset {
        return 1;
      }
      Enqueue(buf);
      return 0;
    }

    /** After any calls, what has been sent and what is queued are the accepted commands, each with its line end; and
        while no write is asked for, all of that has been sent, but perhaps the line feed of the last. */
    lemma CommandsOnTheWire()
      requires Valid()
      ensures sent + Outgoing() == WithLineEnds(commands)
      ensures |Outgoing()| < 2 ==> sent == WithLineEnds(commands) || sent + "\n" == WithLineEnds(commands)
    {
      hide Lines, FirstCrlf, WithLineEnds, Used, EndsLine;
      Empty(sent);
      if |Outgoing()| == 1 {
        LastByte(sent, Outgoing(), accepted);
      }
    }

    /** The write part of `irc_process_select_descriptors`. */
    method Write(io: Io<nat>) returns (ret: int)
      requires Valid() && (io.Did? ==> 0 < io.value <= outgoingOffset)
      modifies `connected, `outgoingOffset, `sent, outgoingBuf
      ensures Valid()
      ensures io.Failed? ==> ret == 1 && !connected && sent == old(sent)
      ensures io.Did? ==> ret == 0 && connected == old(connected) && sent == old(sent + outgoingBuf[..io.value])
    {
      hide Lines, FirstCrlf, EndsLine, Used, Behind;
      if io.Failed? {
        connected := false;
        return 1;
      }
      UsedIs(outgoingBuf, outgoingOffset);
      MoveOver(sent, Outgoing(), io.value);
      sent := sent + outgoingBuf[..io.value];
      DropFront(outgoingBuf, outgoingOffset, io.value);
      outgoingOffset := outgoingOffset - io.value;
      return 0;
    }
  }

  /** The line feed of the last command waits when the socket has taken everything else: one command, and a
      write that takes all but one byte. */
  method LastLineFeedExample() returns (session: Session, wants: bool)
    ensures session.Valid() && session.accepted == "A\r\n" && session.sent == "A\r"
    ensures session.Outgoing() == "\n" && !wants
  {
    hide Lines, FirstCrlf, EndsLine, Used;
    session := new Session();
    UsedIs(session.outgoingBuf, session.outgoingOffset);
    Empty(session.Outgoing());
    var ret := session.SendRaw("A");
    assert "A" + "\r\n" == "A\r\n" && "" + "A\r\n" == "A\r\n";
    UsedIs(session.outgoingBuf, session.outgoingOffset);
    Empty(session.Outgoing());
    assert session.Outgoing() == "A\r\n";
    ret := session.Write(Did(2));
    assert "" + "A\r\n"[..2] == "A\r";
    assert session.sent == "A\r";
    assert session.Outgoing() == ("A\r" + session.Outgoing())[2..];
    wants := session.WantsWrite();
  }
}
