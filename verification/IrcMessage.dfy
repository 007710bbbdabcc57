/** Printing a message by the grammar of section 2.3.1 of RFC 1459, and what the parser makes of it. */
module IrcMessage {
  import opened IrcParser
  import opened Options
  import opened Sequences

  datatype Prefix = Prefix(nick: string, user: Option<string>, host: Option<string>)

  datatype Message =
    Message(prefix: Option<Prefix>, command: string, middles: seq<string>, trailing: Option<string>)

  /** No character of `s` is among `bad`. */
  predicate Without(s: string, bad: string) {
    forall i :: 0 <= i < |s| ==> s[i] !in bad
  }

  predicate StartsWithColon(s: string) {
    s != "" && s[0] == ':'
  }

  predicate IsMiddle(s: string) {
    Without(s, "\r\n ") && !StartsWithColon(s)
  }

  /** The grammar's restrictions on the characters of each field. Empty fields are allowed here. */
  predicate WellFormed(m: Message) {
    (m.prefix.Some? ==>
       Without(m.prefix.value.nick, "\r\n @!")
       && (m.prefix.value.user.Some? ==> Without(m.prefix.value.user.value, "\r\n @"))
       && (m.prefix.value.host.Some? ==> Without(m.prefix.value.host.value, "\r\n ")))
    && Without(m.command, "\r\n ") && (m.prefix.None? ==> !StartsWithColon(m.command))
    && (forall i :: 0 <= i < |m.middles| ==> IsMiddle(m.middles[i]))
    && (m.trailing.Some? ==> Without(m.trailing.value, "\r\n"))
  }

  // ----- printing -----

  /** A separator and a field, when the field is there. */
  function Part(separator: string, field: Option<string>): string {
    if field.Some? then separator + field.value else ""
  }

  function PrintPrefix(p: Prefix): string {
    ":" + p.nick + Part("!", p.user) + Part("@", p.host) + " "
  }

  function PrintMiddles(middles: seq<string>): string {
    if middles == [] then "" else " " + middles[0] + PrintMiddles(middles[1..])
  }

  function Body(m: Message): string {
    m.command + PrintMiddles(m.middles) + Part(" :", m.trailing)
  }

  /** The message without its line end; RFC 1459 allows 510 characters, the parser 512. */
  function Line(m: Message): string {
    (if m.prefix.Some? then PrintPrefix(m.prefix.value) else "") + Body(m)
  }

  function Print(m: Message): string {
    Line(m) + "\r\n"
  }

  // ----- the calls expected -----

  function Parameters(m: Message): seq<string> {
    m.middles + if m.trailing.Some? then [m.trailing.value] else []
  }

  function Reported(kind: Kind, field: Option<string>): seq<Event> {
    if field.Some? then [Event(kind, field.value)] else []
  }

  function PrefixEvents(p: Prefix): seq<Event> {
    [Event(OnNick, p.nick)] + Reported(OnName, p.user) + Reported(OnHost, p.host)
  }

  /** Fields in order: each is reported when the next one starts, so the last is still pending. */
  function FieldEvents(kind: Kind, pending: string, fields: seq<string>): seq<Event>
    decreases |fields|
  {
    if fields == [] then [] else [Event(kind, pending)] + FieldEvents(OnParam, fields[0], fields[1..])
  }

  function LastOf(pending: string, fields: seq<string>): string {
    if fields == [] then pending else fields[|fields| - 1]
  }

  /** All calls for a message. The last field is reported as a parameter when the line ends: without
      parameters, that is the command. */
  function Calls(m: Message): seq<Event> {
    var last := LastOf(m.command, Parameters(m));
    (if m.prefix.Some? then PrefixEvents(m.prefix.value) else [])
    + FieldEvents(OnCommand, m.command, Parameters(m))
    + [Event(OnParam, last), Event(OnEnd, last)]
  }

  /** Callbacks that accept everything, as those of irc_line_parser.c do. */
  ghost predicate Accepting(refuses: Refusal) {
    forall e :: !refuses(e)
  }

  // ----- running the parser over the parts -----

  /** The parser takes all of `s` from `p`, makes the calls `events` and is then in state `q`. */
  ghost predicate Takes(p: State, s: string, q: State, events: seq<Event>, refuses: Refusal) {
    Valid(p) && Valid(q) && Exec(p, s, refuses) == Run(q, events, Finished)
  }

  lemma Then(p: State, a: string, q: State, e1: seq<Event>, b: string, r: State, e2: seq<Event>, refuses: Refusal)
    requires Takes(p, a, q, e1, refuses) && Takes(q, b, r, e2, refuses)
    ensures Takes(p, a + b, r, e1 + e2, refuses)
  {
    hide Exec;
    ExecSplit(p, a, b, refuses);
  }

  /** `c` means nothing in the phase of `p`. */
  predicate Ordinary(p: State, c: char) {
    c != '\r' && c != '\n'
    && match p.phase
       case Nick => c != '@' && c != ' ' && c != '!'
       case Name => c != '@' && c != ' '
       case Host => c != ' '
       case Command => c != ' '
       case Params => c != ' ' && (c == ':' ==> p.last < |p.raw|)
       case Trailing => true
       case _ => false
  }

  lemma TakesOrdinary(p: State, c: char, refuses: Refusal)
    requires Valid(p) && |p.raw| < RAW_BUFFER_SIZE && Ordinary(p, c)
    ensures ByteStep(p, c, refuses) == Continue(p.(raw := p.raw + [c]), [])
  {
  }

  /** The word `w` has no character that ends a field of the phase of `p`. */
  ghost predicate Plain(p: State, w: string) {
    match p.phase
    case Nick => Without(w, "\r\n @!")
    case Name => Without(w, "\r\n @")
    case Host => Without(w, "\r\n ")
    case Command => Without(w, "\r\n ")
    case Params => Without(w, "\r\n ") && (StartsWithColon(w) ==> p.last < |p.raw|)
    case Trailing => Without(w, "\r\n")
    case _ => false
  }

  /** A plain word only fills the buffer. */
  lemma {:induction false} TakesWord(p: State, w: string, refuses: Refusal)
    requires Valid(p) && |p.raw| + |w| <= RAW_BUFFER_SIZE && Plain(p, w)
    ensures Takes(p, w, p.(raw := p.raw + w), [], refuses)
    decreases |w|
  {
    hide ByteStep;
    if w == "" {
      Empty(p.raw);
    } else {
      var q := p.(raw := p.raw + [w[0]]);
      assert Ordinary(p, w[0]);
      TakesOrdinary(p, w[0], refuses);
      assert Plain(q, w[1..]) by {
        assert forall i :: 0 <= i < |w[1..]| ==> w[1..][i] == w[i + 1];
      }
      TakesWord(q, w[1..], refuses);
      assert q.raw + w[1..] == p.raw + w;
    }
  }

  /** One character that ends a field. */
  lemma TakesByte(p: State, c: char, q: State, events: seq<Event>, refuses: Refusal)
    requires Valid(p) && Valid(q) && ByteStep(p, c, refuses) == Continue(q, events)
    ensures Takes(p, [c], q, events, refuses)
  {
    hide ByteStep;
    var s := [c];
    assert s[1..] == "" && Exec(q, "", refuses) == Run(q, [], Finished);
    Empty(events);
  }

  /** The state with `s` in the buffer and the current field starting at its end. */
  function At(s: string, phase: Phase): State {
    State(s, |s|, phase, NoError)
  }

  /** A field and the character that ends it, from the start of the field. */
  lemma TakesField(s: string, phase: Phase, w: string, c: char, next: Phase, refuses: Refusal)
    requires |s| + |w| < RAW_BUFFER_SIZE && Accepting(refuses)
    requires Plain(At(s, phase), w)
    requires (phase == Nick && c == '!' && next == Name) || (phase == Nick && c == '@' && next == Host)
             || (phase == Nick && c == ' ' && next == Command) || (phase == Name && c == '@' && next == Host)
             || (phase == Name && c == ' ' && next == Command) || (phase == Host && c == ' ' && next == Command)
             || (phase == Command && c == ' ' && next == Params) || (phase == Params && c == ' ' && next == Params)
    ensures Takes(At(s, phase), w + [c], At(s + w + [c], next), [Event(CallbackOf(phase), w)], refuses)
  {
    hide Exec;
    var p := At(s, phase);
    var q := p.(raw := s + w);
    TakesWord(p, w, refuses);
    assert q.raw[q.last..] == w;
    TakesByte(q, c, At(s + w + [c], next), [Event(CallbackOf(phase), w)], refuses);
    Then(p, w, q, [], [c], At(s + w + [c], next), [Event(CallbackOf(phase), w)], refuses);
    Empty([Event(CallbackOf(phase), w)]);
  }

  /** The end of a line with the field `w` pending. */
  lemma TakesLineEnd(p: State, w: string, refuses: Refusal)
    requires Valid(p) && p.raw[p.last..] == w && Accepting(refuses)
    ensures Takes(p, "\r\n", INITIAL, [Event(OnParam, w), Event(OnEnd, w)], refuses)
  {
    hide ByteStep, Exec;
    var q := p.(phase := End);
    ControlStep(p, refuses);
    ControlStep(q, refuses);
    TakesByte(p, '\r', q, [], refuses);
    TakesByte(q, '\n', INITIAL, [Event(OnParam, w), Event(OnEnd, w)], refuses);
    Then(p, ['\r'], q, [], ['\n'], INITIAL, [Event(OnParam, w), Event(OnEnd, w)], refuses);
    Empty([Event(OnParam, w), Event(OnEnd, w)]);
    assert ['\r'] + ['\n'] == "\r\n";
  }

  /** The last field of a line. */
  lemma TakesLastField(s: string, phase: Phase, w: string, refuses: Refusal)
    requires |s| + |w| <= RAW_BUFFER_SIZE && Accepting(refuses) && Plain(At(s, phase), w)
    ensures Takes(At(s, phase), w + "\r\n", INITIAL, [Event(OnParam, w), Event(OnEnd, w)], refuses)
  {
    hide Exec, ByteStep;
    var p := At(s, phase);
    var q := p.(raw := s + w);
    TakesWord(p, w, refuses);
    assert q.raw[q.last..] == w;
    TakesLineEnd(q, w, refuses);
    Then(p, w, q, [], "\r\n", INITIAL, [Event(OnParam, w), Event(OnEnd, w)], refuses);
    Empty([Event(OnParam, w), Event(OnEnd, w)]);
  }

  /** The text behind the separator in front of the field `w`. */
  function Fields(w: string, middles: seq<string>, trailing: Option<string>): string {
    w + PrintMiddles(middles) + Part(" :", trailing)
  }

  function FieldCalls(kind: Kind, w: string, middles: seq<string>, trailing: Option<string>): seq<Event> {
    var fields := middles + if trailing.Some? then [trailing.value] else [];
    FieldEvents(kind, w, fields) + [Event(OnParam, LastOf(w, fields)), Event(OnEnd, LastOf(w, fields))]
  }

  lemma TakesColon(s: string, refuses: Refusal)
    requires |s| < RAW_BUFFER_SIZE
    ensures Takes(At(s, Params), ":", At(s + ":", Trailing), [], refuses)
  {
    hide Exec;
    TakesByte(At(s, Params), ':', At(s + ":", Trailing), [], refuses);
    assert [':'] == ":";
  }

  /** A field and the trailing parameter behind it. */
  lemma TakesTrailing(s: string, phase: Phase, w: string, t: string, refuses: Refusal)
    requires phase == Command || phase == Params
    requires |s| + |Fields(w, [], Some(t))| <= RAW_BUFFER_SIZE && Accepting(refuses)
    requires Plain(At(s, phase), w) && Without(t, "\r\n")
    ensures Takes(At(s, phase), Fields(w, [], Some(t)) + "\r\n", INITIAL,
                  [Event(CallbackOf(phase), w)] + [Event(OnParam, t), Event(OnEnd, t)], refuses)
    ensures FieldCalls(CallbackOf(phase), w, [], Some(t))
         == [Event(CallbackOf(phase), w)] + [Event(OnParam, t), Event(OnEnd, t)]
  {
    hide Exec, ByteStep, Takes;
    var kind := CallbackOf(phase);
    var next, colon := At(s + w + " ", Params), At(s + w + " " + ":", Trailing);
    assert Fields(w, [], Some(t)) == w + " :" + t;
    assert |s| + |w| + 2 + |t| <= RAW_BUFFER_SIZE;
    TakesField(s, phase, w, ' ', Params, refuses);
    TakesColon(s + w + " ", refuses);
    TakesLastField(s + w + " " + ":", Trailing, t, refuses);
    var end := [Event(OnParam, t), Event(OnEnd, t)];
    Then(next, ":", colon, [], t + "\r\n", INITIAL, end, refuses);
    Empty(end);
    Then(At(s, phase), w + " ", next, [Event(kind, w)], ":" + (t + "\r\n"), INITIAL, end, refuses);
    assert w + " " + (":" + (t + "\r\n")) == w + " :" + t + "\r\n";
    assert [] + [t] == [t];
    assert FieldEvents(kind, w, [t]) == [Event(kind, w)];
  }

  lemma NoMiddles(kind: Kind, w: string, trailing: Option<string>)
    ensures trailing.None? ==> Fields(w, [], trailing) == w
    ensures trailing.None? ==> FieldCalls(kind, w, [], trailing) == [Event(OnParam, w), Event(OnEnd, w)]
  {
  }

  lemma Regroup(a: string, b: string, c: string, d: string, e: string)
    ensures a + (b + c + d) + e == a + b + (c + d + e)
  {
  }

  lemma OneMoreCall(kind: Kind, w: string, middles: seq<string>, end: seq<string>)
    requires middles != []
    ensures FieldEvents(kind, w, middles + end) == [Event(kind, w)] + FieldEvents(OnParam, middles[0], middles[1..] + end)
    ensures LastOf(w, middles + end) == LastOf(middles[0], middles[1..] + end)
  {
    var fields := middles + end;
    assert fields[0] == middles[0] && fields[1..] == middles[1..] + end;
  }

  lemma OneMoreMiddle(kind: Kind, w: string, middles: seq<string>, trailing: Option<string>)
    requires middles != []
    ensures Fields(w, middles, trailing) == w + " " + Fields(middles[0], middles[1..], trailing)
    ensures FieldCalls(kind, w, middles, trailing)
         == [Event(kind, w)] + FieldCalls(OnParam, middles[0], middles[1..], trailing)
  {
    hide FieldEvents, Part;
    Regroup(w, " ", middles[0], PrintMiddles(middles[1..]), Part(" :", trailing));
    OneMoreCall(kind, w, middles, if trailing.Some? then [trailing.value] else []);
  }

  /** A command or a parameter, and everything behind it. */
  lemma {:induction false} TakesFields(s: string, phase: Phase, w: string, middles: seq<string>,
                                       trailing: Option<string>, refuses: Refusal)
    requires phase == Command || phase == Params
    requires |s| + |Fields(w, middles, trailing)| <= RAW_BUFFER_SIZE && Accepting(refuses)
    requires Plain(At(s, phase), w)
    requires forall i :: 0 <= i < |middles| ==> IsMiddle(middles[i])
    requires trailing.Some? ==> Without(trailing.value, "\r\n")
    ensures Takes(At(s, phase), Fields(w, middles, trailing) + "\r\n", INITIAL,
                  FieldCalls(CallbackOf(phase), w, middles, trailing), refuses)
    decreases |middles|
  {
    hide Exec, ByteStep, Takes, Fields, FieldCalls, PrintMiddles, Without;
    if middles == [] {
      NoMiddles(CallbackOf(phase), w, trailing);
      if trailing.None? {
        TakesLastField(s, phase, w, refuses);
      } else {
        TakesTrailing(s, phase, w, trailing.value, refuses);
      }
    } else {
      var m, rest := middles[0], middles[1..];
      var next, tail := At(s + w + " ", Params), Fields(m, rest, trailing);
      var calls := FieldCalls(OnParam, m, rest, trailing);
      OneMoreMiddle(CallbackOf(phase), w, middles, trailing);
      assert IsMiddle(m);
      TakesField(s, phase, w, ' ', Params, refuses);
      TakesFields(s + w + " ", Params, m, rest, trailing, refuses);
      Then(At(s, phase), w + " ", next, [Event(CallbackOf(phase), w)], tail + "\r\n", INITIAL, calls, refuses);
      Assoc(w + " ", tail, "\r\n");
    }
  }

  /** The prefix up to a field behind the nick, which starts in phase `phase` with `s` in the buffer: the field,
      its separator and what comes behind it. */
  lemma TakesOneMore(s: string, phase: Phase, w: string, c: char, next: Phase, events: seq<Event>, refuses: Refusal)
    requires |s| + |w| < RAW_BUFFER_SIZE && Accepting(refuses)
    requires Plain(At(s, phase), w)
    requires (phase == Nick && c == '!' && next == Name) || (phase == Nick && c == '@' && next == Host)
             || (phase == Nick && c == ' ' && next == Command) || (phase == Name && c == '@' && next == Host)
             || (phase == Name && c == ' ' && next == Command) || (phase == Host && c == ' ' && next == Command)
    requires Takes(INITIAL, s, At(s, phase), events, refuses)
    ensures Takes(INITIAL, s + w + [c], At(s + w + [c], next), events + [Event(CallbackOf(phase), w)], refuses)
  {
    hide Exec, ByteStep, Takes, Plain;
    TakesField(s, phase, w, c, next, refuses);
    Then(INITIAL, s, At(s, phase), events, w + [c], At(s + w + [c], next), [Event(CallbackOf(phase), w)], refuses);
    Assoc(s, w, [c]);
  }

  lemma TakesFirstColon(refuses: Refusal)
    ensures Takes(INITIAL, ":", At(":", Nick), [], refuses)
  {
    hide Exec;
    assert [':'] == ":";
    TakesByte(INITIAL, ':', At(":", Nick), [], refuses);
  }

  lemma PrefixFits(p: Prefix)
    ensures |PrintPrefix(p)| == 2 + |p.nick| + (if p.user.Some? then 1 + |p.user.value| else 0)
                                + (if p.host.Some? then 1 + |p.host.value| else 0)
  {
  }

  /** User and host. */
  lemma TakesUser(p: Prefix, s: string, events: seq<Event>, refuses: Refusal)
    requires p.user.Some? && WellFormed(Message(Some(p), "", [], None)) && Accepting(refuses)
    requires |s| + |p.user.value| + (if p.host.Some? then 1 + |p.host.value| else 0) < RAW_BUFFER_SIZE
    requires Takes(INITIAL, s, At(s, Name), events, refuses)
    ensures var all := if p.host.Some? then s + p.user.value + ['@'] + p.host.value + [' ']
                       else s + p.user.value + [' '];
            var calls := events + [Event(OnName, p.user.value)];
            Takes(INITIAL, all, At(all, Command),
                  if p.host.Some? then calls + [Event(OnHost, p.host.value)] else calls, refuses)
  {
    hide Exec, ByteStep, Takes;
    if p.host.Some? {
      TakesOneMore(s, Name, p.user.value, '@', Host, events, refuses);
      TakesOneMore(s + p.user.value + ['@'], Host, p.host.value, ' ', Command,
                   events + [Event(OnName, p.user.value)], refuses);
    } else {
      TakesOneMore(s, Name, p.user.value, ' ', Command, events, refuses);
    }
  }

  /** The printed prefix and its calls, field by field. */
  lemma PrefixInPieces(p: Prefix)
    ensures var nick := [] + [Event(OnNick, p.nick)];
            PrefixEvents(p)
            == if p.user.None? && p.host.None? then nick
               else if p.user.None? then nick + [Event(OnHost, p.host.value)]
               else if p.host.None? then nick + [Event(OnName, p.user.value)]
               else nick + [Event(OnName, p.user.value)] + [Event(OnHost, p.host.value)]
    ensures PrintPrefix(p)
            == if p.user.None? && p.host.None? then ":" + p.nick + [' ']
               else if p.user.None? then ":" + p.nick + ['@'] + p.host.value + [' ']
               else if p.host.None? then ":" + p.nick + ['!'] + p.user.value + [' ']
               else ":" + p.nick + ['!'] + p.user.value + ['@'] + p.host.value + [' ']
  {
    Empty([Event(OnNick, p.nick)]);
    Empty([Event(OnNick, p.nick)] + Reported(OnName, p.user));
    var n := ":" + p.nick;
    if p.user.Some? && p.host.Some? {
      Assoc(n, "!", p.user.value);
      Assoc(n + "!" + p.user.value, "@", p.host.value);
    } else if p.user.Some? {
      Assoc(n, "!", p.user.value);
      Empty(n + "!" + p.user.value);
    } else {
      Empty(n);
      if p.host.Some? {
        Assoc(n, "@", p.host.value);
      }
    }
  }

  /** The prefix, from the start of a line. */
  lemma TakesPrefix(p: Prefix, refuses: Refusal)
    requires |PrintPrefix(p)| <= RAW_BUFFER_SIZE && Accepting(refuses)
    requires WellFormed(Message(Some(p), "", [], None))
    ensures Takes(INITIAL, PrintPrefix(p), At(PrintPrefix(p), Command), PrefixEvents(p), refuses)
  {
    hide Exec, ByteStep, Takes;
    TakesFirstColon(refuses);
    PrefixFits(p);
    var afterNick := if p.user.Some? then '!' else if p.host.Some? then '@' else ' ';
    var s := ":" + p.nick + [afterNick];
    var events := [] + [Event(OnNick, p.nick)];
    TakesOneMore(":", Nick, p.nick, afterNick,
                 if p.user.Some? then Name else if p.host.Some? then Host else Command, [], refuses);
    if p.user.Some? {
      TakesUser(p, s, events, refuses);
    } else if p.host.Some? {
      TakesOneMore(s, Host, p.host.value, ' ', Command, events, refuses);
    }
    PrefixInPieces(p);
  }

  /** A line that does not start with a colon is read from the command on. */
  lemma StartsWithCommand(s: string, q: State, events: seq<Event>, refuses: Refusal)
    requires s != "" && s[0] != ':' && s[0] != '\n'
    requires Takes(At("", Command), s, q, events, refuses)
    ensures Takes(INITIAL, s, q, events, refuses)
  {
    assert ByteStep(INITIAL, s[0], refuses) == ByteStep(At("", Command), s[0], refuses);
    hide ByteStep;
  }

  lemma FirstOfBody(m: Message)
    requires WellFormed(m) && m.prefix.None?
    ensures var fields := Body(m) + "\r\n"; fields[0] != ':' && fields[0] != '\n'
  {
    if m.command != "" {
      assert (Body(m) + "\r\n")[0] == m.command[0];
    } else if m.middles != [] {
      assert Body(m)[0] == ' ';
    } else if m.trailing.Some? {
      assert Body(m)[0] == ' ';
    }
  }

  /** Executing a printed message makes exactly the calls for its fields, in order, and leaves the parser as
      it was created. */
  lemma PrintedMessageIsParsed(m: Message, refuses: Refusal)
    requires WellFormed(m) && |Line(m)| <= RAW_BUFFER_SIZE && Accepting(refuses)
    ensures Exec(INITIAL, Print(m), refuses) == Run(INITIAL, Calls(m), Finished)
  {
    hide Exec, ByteStep;
    var s := if m.prefix.Some? then PrintPrefix(m.prefix.value) else "";
    var fields := Body(m) + "\r\n";
    var calls := FieldCalls(OnCommand, m.command, m.middles, m.trailing);
    assert Body(m) == Fields(m.command, m.middles, m.trailing);
    TakesFields(s, Command, m.command, m.middles, m.trailing, refuses);
    if m.prefix.Some? {
      TakesPrefix(m.prefix.value, refuses);
      Then(INITIAL, s, At(s, Command), PrefixEvents(m.prefix.value), fields, INITIAL, calls, refuses);
      assert Print(m) == s + fields;
      Assoc(PrefixEvents(m.prefix.value), FieldEvents(OnCommand, m.command, Parameters(m)),
            [Event(OnParam, LastOf(m.command, Parameters(m))), Event(OnEnd, LastOf(m.command, Parameters(m)))]);
    } else {
      FirstOfBody(m);
      StartsWithCommand(fields, INITIAL, calls, refuses);
      assert Print(m) == fields;
      Empty(FieldEvents(OnCommand, m.command, Parameters(m)));
    }
  }

  lemma PrefixReportsNoCommand(p: Prefix)
    ensures forall e :: e in PrefixEvents(p) ==> e.kind != OnCommand
  {
  }

  lemma LoneCalls(m: Message)
    requires Parameters(m) == []
    ensures Calls(m) == (if m.prefix.Some? then PrefixEvents(m.prefix.value) else [])
                        + [Event(OnParam, m.command), Event(OnEnd, m.command)]
    ensures forall e :: e in Calls(m) ==> e.kind != OnCommand
  {
    hide Parameters, PrefixEvents;
    Empty(if m.prefix.Some? then PrefixEvents(m.prefix.value) else []);
    if m.prefix.Some? {
      PrefixReportsNoCommand(m.prefix.value);
    }
  }

  lemma CallsReportCommand(m: Message)
    requires Parameters(m) != []
    ensures Event(OnCommand, m.command) in Calls(m)
  {
    hide Parameters, PrefixEvents;
    assert FieldEvents(OnCommand, m.command, Parameters(m))[0] == Event(OnCommand, m.command);
  }

  /** Executing a message reports a command exactly when the message has a parameter; a lone command comes out
      as a parameter instead. */
  lemma CommandNeedsAParameter(m: Message, refuses: Refusal)
    requires WellFormed(m) && |Line(m)| <= RAW_BUFFER_SIZE && Accepting(refuses)
    ensures var events := Exec(INITIAL, Print(m), refuses).events;
            ((exists e :: e in events && e.kind == OnCommand) <==> Parameters(m) != [])
            && (Parameters(m) == [] ==>
                  events == (if m.prefix.Some? then PrefixEvents(m.prefix.value) else [])
                            + [Event(OnParam, m.command), Event(OnEnd, m.command)])
  {
    hide Exec, Print, Line, WellFormed, Parameters, Calls;
    PrintedMessageIsParsed(m, refuses);
    if Parameters(m) == [] {
      LoneCalls(m);
    } else {
      CallsReportCommand(m);
    }
  }

  lemma LoneCommandExample(refuses: Refusal)
    requires Accepting(refuses)
    ensures Exec(INITIAL, "QUIT\r\n", refuses).events == [Event(OnParam, "QUIT"), Event(OnEnd, "QUIT")]
  {
    hide Exec;
    var m := Message(None, "QUIT", [], None);
    assert Print(m) == "QUIT\r\n";
    CommandNeedsAParameter(m, refuses);
  }

  const FULL: Message :=
    Message(Some(Prefix("bot", Some("x"), Some("a.net"))), "NOTICE", ["#c", "you"], Some("Hi: a"))

  lemma FullMessageFits()
    ensures WellFormed(FULL)
  {
  }

  lemma FullMessageMiddles()
    ensures PrintMiddles(FULL.middles) == " #c you"
  {
    assert ["#c", "you"][1..] == ["you"] && ["you"][1..] == [];
    assert PrintMiddles(["you"]) == " you";
  }

  lemma FullMessageBody()
    ensures Body(FULL) == "NOTICE #c you :Hi: a"
  {
    hide PrintMiddles;
    FullMessageMiddles();
  }

  lemma FullMessagePrefix()
    ensures PrintPrefix(FULL.prefix.value) == ":bot!x@a.net "
  {
  }

  lemma FullMessageLine()
    ensures Line(FULL) == ":bot!x@a.net NOTICE #c you :Hi: a"
  {
    hide PrintPrefix, Body;
    FullMessageBody();
    FullMessagePrefix();
  }

  lemma FullMessageCalls()
    ensures Calls(FULL)
            == [Event(OnNick, "bot"), Event(OnName, "x"), Event(OnHost, "a.net"), Event(OnCommand, "NOTICE"),
                Event(OnParam, "#c"), Event(OnParam, "you"), Event(OnParam, "Hi: a"), Event(OnEnd, "Hi: a")]
  {
    var fields := ["#c", "you", "Hi: a"];
    assert fields[1..] == ["you", "Hi: a"] && fields[1..][1..] == ["Hi: a"];
    assert FieldEvents(OnParam, "you", ["Hi: a"]) == [Event(OnParam, "you")];
    assert FieldEvents(OnParam, "#c", ["you", "Hi: a"]) == [Event(OnParam, "#c"), Event(OnParam, "you")];
  }

  /** A message with all its parts. */
  lemma FullMessageExample(refuses: Refusal)
    requires Accepting(refuses)
    ensures Exec(INITIAL, ":bot!x@a.net NOTICE #c you :Hi: a\r\n", refuses)
            == Run(INITIAL, [Event(OnNick, "bot"), Event(OnName, "x"), Event(OnHost, "a.net"),
                             Event(OnCommand, "NOTICE"), Event(OnParam, "#c"), Event(OnParam, "you"),
                             Event(OnParam, "Hi: a"), Event(OnEnd, "Hi: a")], Finished)
  {
    hide Exec, Line, WellFormed, Calls;
    FullMessageFits();
    FullMessageLine();
    FullMessageCalls();
    assert ":bot!x@a.net NOTICE #c you :Hi: a" + "\r\n" == ":bot!x@a.net NOTICE #c you :Hi: a\r\n";
    PrintedMessageIsParsed(FULL, refuses);
  }

  // ----- callbacks that refuse -----

  /** The separators behind which a refused field stops the parser. */
  predicate StopsWhenRefused(phase: Phase, c: char) {
    (phase == Nick && c == '!') || (phase == Name && c == '@')
    || ((phase == Host || phase == Command || phase == Params) && c == ' ')
  }

  lemma RefusedByte(s: string, phase: Phase, w: string, c: char, refuses: Refusal)
    requires |s| + |w| < RAW_BUFFER_SIZE && refuses(Event(CallbackOf(phase), w)) && StopsWhenRefused(phase, c)
    ensures ByteStep(At(s, phase).(raw := s + w), c, refuses)
            == Continue(State(s + w + [c], |s| + |w| + 1, Error, UserError), [Event(CallbackOf(phase), w)])
  {
    assert (s + w)[|s|..] == w;
  }

  lemma StuckStops(p: State, more: string, refuses: Refusal)
    requires Valid(p) && p.phase == Error && |p.raw| < RAW_BUFFER_SIZE
    requires more != "" && more[0] != '\r' && more[0] != '\n'
    ensures Exec(p, more, refuses) == Run(p.(raw := p.raw + [more[0]]), [Event(OnError, more)], Aborted(0))
  {
  }

  /** After an error the parser stays in this phase until it is reset. */
  predicate Stuck(p: State) {
    Valid(p) && p.phase == Error
  }

  /** A field that its callback refuses is the last one: the next character is reported as an error, with the text from
      there on, and nothing more is called. */
  lemma RefusedFieldStops(s: string, phase: Phase, w: string, c: char, more: string, refuses: Refusal)
    requires |s| + |w| + 1 < RAW_BUFFER_SIZE && Plain(At(s, phase), w)
    requires refuses(Event(CallbackOf(phase), w)) && StopsWhenRefused(phase, c)
    requires more != "" && more[0] != '\r' && more[0] != '\n'
    ensures var r := Exec(At(s, phase), w + [c] + more, refuses);
            r.events == [Event(CallbackOf(phase), w), Event(OnError, more)] && r.status == Aborted(|w| + 1)
            && Stuck(r.state) && r.state.error == UserError
  {
    hide Exec, ByteStep;
    var p := At(s, phase);
    var q := State(s + w + [c], |s| + |w| + 1, Error, UserError);
    var e := Event(CallbackOf(phase), w);
    TakesWord(p, w, refuses);
    RefusedByte(s, phase, w, c, refuses);
    TakesByte(p.(raw := s + w), c, q, [e], refuses);
    Then(p, w, p.(raw := s + w), [], [c], q, [e], refuses);
    Empty([e]);
    ExecSplit(p, w + [c], more, refuses);
    StuckStops(q, more, refuses);
  }

  /** Behind the other three separators, the field after a refused one is read as usual; the refusal is kept in the
      error code until the line ends. */
  lemma RefusedFieldGoesOn(s: string, phase: Phase, w: string, c: char, next: Phase, refuses: Refusal)
    requires |s| + |w| < RAW_BUFFER_SIZE && Plain(At(s, phase), w) && refuses(Event(CallbackOf(phase), w))
    requires (phase == Nick && c == '@' && next == Host) || (phase == Nick && c == ' ' && next == Command)
             || (phase == Name && c == ' ' && next == Command)
    ensures Takes(At(s, phase), w + [c], At(s + w + [c], next).(error := UserError), [Event(CallbackOf(phase), w)],
                  refuses)
  {
    hide Exec;
    var p := At(s, phase);
    var e := Event(CallbackOf(phase), w);
    TakesWord(p, w, refuses);
    assert (s + w)[|s|..] == w;
    TakesByte(p.(raw := s + w), c, At(s + w + [c], next).(error := UserError), [e], refuses);
    Then(p, w, p.(raw := s + w), [], [c], At(s + w + [c], next).(error := UserError), [e], refuses);
    Empty([e]);
  }

  // ----- long lines -----

  /** The phases in which a line is being read. */
  predicate Reading(p: State) {
    p.phase != End && p.phase != Error && p.error == NoError
  }

  lemma ReadingGoesOn(p: State, c: char, refuses: Refusal)
    requires Valid(p) && |p.raw| <= RAW_BUFFER_SIZE && Reading(p) && c != '\r' && c != '\n' && Accepting(refuses)
    ensures var step := ByteStep(p, c, refuses);
            if |p.raw| == RAW_BUFFER_SIZE then step.Abort? && Stuck(step.next) && step.next.error == TooLong
                                                && |step.next.raw| == RAW_BUFFER_SIZE + 1
            else step.Continue? && Reading(step.next) && step.next.raw == p.raw + [c] && Valid(step.next)
  {
  }

  lemma {:induction false} BufferFills(p: State, s: string, refuses: Refusal)
    requires Valid(p) && |p.raw| <= RAW_BUFFER_SIZE && Reading(p) && Without(s, "\r\n") && Accepting(refuses)
    ensures var r := Exec(p, s, refuses);
            if |p.raw| + |s| <= RAW_BUFFER_SIZE then r.status == Finished && r.state.error == NoError
            else r.status == Aborted(RAW_BUFFER_SIZE - |p.raw|) && Stuck(r.state) && r.state.error == TooLong
                 && |r.state.raw| == RAW_BUFFER_SIZE + 1
                 && r.events != [] && r.events[|r.events| - 1].kind == OnError
    decreases |s|
  {
    hide ByteStep;
    if s != "" {
      assert s[0] !in "\r\n" && Without(s[1..], "\r\n");
      ReadingGoesOn(p, s[0], refuses);
      if |p.raw| < RAW_BUFFER_SIZE {
        BufferFills(ByteStep(p, s[0], refuses).next, s[1..], refuses);
      }
    }
  }

  /** A line is refused as too long exactly when it has more than 512 characters in front of its end, and then
      in front of the first one that does not fit. */
  lemma LongLinesAreRefused(line: string, refuses: Refusal)
    requires Without(line, "\r\n") && Accepting(refuses)
    ensures var r := Exec(INITIAL, line, refuses);
            if |line| <= 512 then r.status == Finished && r.state.error == NoError
            else r.status == Aborted(512) && Stuck(r.state) && r.state.error == TooLong && |r.state.raw| == 513
                 && r.events != [] && r.events[|r.events| - 1].kind == OnError
  {
    hide Exec;
    BufferFills(INITIAL, line, refuses);
  }

  // ----- after an error -----

  /** A parser that has reported an error refuses the next line at its first byte and keeps that byte; when its
      buffer is full, it writes behind it. */
  lemma LineWhenStuck(p: State, line: string, refuses: Refusal)
    requires Stuck(p) && line != "" && line[0] != '\r' && line[0] != '\n'
    ensures Exec(p, line, refuses)
         == if |p.raw| > RAW_BUFFER_SIZE then Run(p, [], Overrun(0))
            else Run(p.(raw := p.raw + [line[0]], error := if |p.raw| == RAW_BUFFER_SIZE then TooLong else p.error),
                     [Event(OnError, line)], Aborted(0))
  {
  }

  /** Only a line that starts with a carriage return can end the error. */
  lemma OnlyReturnsRecover(p: State, line: string, refuses: Refusal)
    requires Stuck(p) && (line == "" || line[0] != '\r')
    ensures Stuck(Exec(p, line, refuses).state)
  {
    if line != "" && line[0] != '\n' {
      LineWhenStuck(p, line, refuses);
    }
  }

  /** An empty line does end it, with a call for what is in the buffer. */
  lemma EmptyLineRecovers(p: State, refuses: Refusal)
    requires Stuck(p)
    ensures var field := p.raw[p.last..];
            Exec(p, "\r\n", refuses) == Run(INITIAL, [Event(OnParam, field), Event(OnEnd, field)], Finished)
  {
    hide Exec, ByteStep;
    var q, field := p.(phase := End), p.raw[p.last..];
    ControlStep(p, refuses);
    ControlStep(q, refuses);
    TakesByte(p, '\r', q, [], refuses);
    TakesByte(q, '\n', INITIAL, [Event(OnParam, field), Event(OnEnd, field)], refuses);
    Then(p, ['\r'], q, [], ['\n'], INITIAL, [Event(OnParam, field), Event(OnEnd, field)], refuses);
    Empty([Event(OnParam, field), Event(OnEnd, field)]);
    assert ['\r'] + ['\n'] == "\r\n";
  }
}
