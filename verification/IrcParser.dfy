/** The incremental IRC message parser (libircclient-src/irc_parser.c).

    The parser is fed arbitrary pieces of text and calls back for each field it completes. `Exec` is the
    parser as a function of its state and the remaining text; the class runs the loop of the code, with its
    fixed buffer and its re-dispatch of the first byte, and is proved to do what `Exec` says.
  */
module IrcParser {
  import opened Sequences

  const RAW_BUFFER_SIZE := 512

  datatype Phase = Init | Nick | Name | Host | Command | Params | Trailing | End | Error

  datatype ErrorCode = NoError | UndefinedState | TooLong | UserError

  datatype Kind = OnNick | OnName | OnHost | OnCommand | OnParam | OnEnd | OnError

  /** One call of a callback, with the text it is given. */
  datatype Event = Event(kind: Kind, text: string)

  /** Which calls a user's callbacks answer with a non-zero result. */
  type Refusal = Event -> bool

  /** The parser's state: `raw` is the used part of the buffer, so the code's `len` is its length. The buffer has
      one byte more than a message may have. */
  datatype State = State(raw: string, last: nat, phase: Phase, error: ErrorCode)

  const INITIAL: State := State("", 0, Init, NoError)

  predicate Valid(p: State) {
    p.last <= |p.raw| <= RAW_BUFFER_SIZE + 1
  }

  /** The callback for the field that ends in phase `phase`. */
  function CallbackOf(phase: Phase): Kind
  {
    match phase
    case Init => OnNick
    case Nick => OnNick
    case Name => OnName
    case Host => OnHost
    case Command => OnCommand
    case Params => OnParam
    case Trailing => OnParam
    case End => OnParam
    case Error => OnError
  }

  function NextPhase(phase: Phase): Phase
  {
    match phase
    case Init => Nick
    case Nick => Name
    case Name => Host
    case Host => Command
    case Command => Params
    case Params => Trailing
    case Trailing => End
    case End => Init
    case Error => Error
  }

  // ----- one byte -----

  /** `Overflow` is a write behind the buffer, which the code does not check. */
  datatype Step =
    | Continue(next: State, events: seq<Event>)
    | Abort(next: State)
    | Reject(next: State)
    | Overflow

  /** The field between `last` and the byte just appended. */
  function Field(p: State): Event
    requires p.last <= |p.raw|
  {
    Event(CallbackOf(p.phase), p.raw[p.last..])
  }

  /** Finish the current field with `c`: call back, then go on to `phase`, even after a refusal. */
  function FinishInto(p: State, c: char, phase: Phase, refuses: Refusal): Step
    requires p.last <= |p.raw|
  {
    var e := Field(p);
    Continue(State(p.raw + [c], |p.raw| + 1, phase, if refuses(e) then UserError else p.error), [e])
  }

  /** Finish the current field with `c` and go on to the next phase, unless the call was refused. */
  function FinishAndProgress(p: State, c: char, refuses: Refusal): Step
    requires p.last <= |p.raw|
  {
    FinishInto(p, c, if refuses(Field(p)) then Error else NextPhase(p.phase), refuses)
  }

  /** An ordinary byte while the buffer has room and the phase is not `Init`. */
  function FieldByte(p: State, c: char, refuses: Refusal): Step
    requires p.last <= |p.raw|
  {
    var more := p.(raw := p.raw + [c]);
    match p.phase
    case Nick =>
      if c == '@' then FinishInto(p, c, Host, refuses)
      else if c == ' ' then FinishInto(p, c, Command, refuses)
      else if c == '!' then FinishAndProgress(p, c, refuses)
      else Continue(more, [])
    case Name =>
      if c == ' ' then FinishInto(p, c, Command, refuses)
      else if c == '@' then FinishAndProgress(p, c, refuses)
      else Continue(more, [])
    case Host => if c == ' ' then FinishAndProgress(p, c, refuses) else Continue(more, [])
    case Command => if c == ' ' then FinishAndProgress(p, c, refuses) else Continue(more, [])
    case Params =>
      if c == ' ' then FinishInto(p, c, if refuses(Field(p)) then Error else Params, refuses)
      else if c == ':' && |p.raw| == p.last then Continue(more.(last := |p.raw| + 1, phase := Trailing), [])
      else Continue(more, [])
    case Trailing => Continue(more, [])
    case Error => Abort(more)
    case _ => Abort(more.(phase := Error, error := UndefinedState))
  }

  /** What one byte does. */
  function ByteStep(p: State, c: char, refuses: Refusal): Step
    requires Valid(p)
  {
    if c == '\r' then Continue(p.(phase := End), [])
    else if c == '\n' then
      if p.phase == End
      then Continue(INITIAL, [Event(OnParam, p.raw[p.last..]), Event(OnEnd, p.raw[p.last..])])
      else Reject(p)
    else if |p.raw| > RAW_BUFFER_SIZE then Overflow
    else if |p.raw| == RAW_BUFFER_SIZE then Abort(p.(raw := p.raw + [c], phase := Error, error := TooLong))
    else if p.phase == Init then
      if c == ':' then Continue(State(p.raw + [c], 1, Nick, p.error), [])
      else FieldByte(p.(phase := Command), c, refuses)
    else FieldByte(p, c, refuses)
  }

  lemma ByteStepValid(p: State, c: char, refuses: Refusal)
    requires Valid(p)
    ensures var step := ByteStep(p, c, refuses); !step.Overflow? ==> Valid(step.next)
  {
  }

  // ----- a piece of text -----

  /** How a call of `irc_parser_execute` ended: all bytes taken, stopped in front of byte `at` after
      reporting an error, returned -1, or wrote byte `at` behind its buffer, which ends the model. */
  datatype Status = Finished | Aborted(at: nat) | Rejected | Overrun(at: nat)

  datatype Run = Run(state: State, events: seq<Event>, status: Status)

  function Later(s: Status, n: nat): Status
  {
    if s.Aborted? then Aborted(s.at + n) else if s.Overrun? then Overrun(s.at + n) else s
  }

  function Exec(p: State, data: string, refuses: Refusal): (r: Run)
    requires Valid(p)
    ensures Valid(r.state)
    ensures r.status.Aborted? || r.status.Overrun? ==> r.status.at < |data|
    decreases |data|
  {
    if data == "" then Run(p, [], Finished)
    else
      ByteStepValid(p, data[0], refuses);
      match ByteStep(p, data[0], refuses)
      case Continue(next, events) =>
        var r := Exec(next, data[1..], refuses);
        Run(r.state, events + r.events, Later(r.status, 1))
      case Abort(next) => Run(next, [Event(OnError, data)], Aborted(0))
      case Reject(next) => Run(next, [], Rejected)
      case Overflow => Run(p, [], Overrun(0))
  }

  /** The report of an error carries the text from the offending byte on. */
  function ExtendReport(events: seq<Event>, s: Status, more: string): seq<Event>
  {
    if s.Aborted? && events != [] then
      var e := events[|events| - 1];
      events[..|events| - 1] + [e.(text := e.text + more)]
    else events
  }

  lemma ReportExtends(events: seq<Event>, more: seq<Event>, s: Status, text: string)
    requires s.Aborted? && more != []
    ensures ExtendReport(events + more, Later(s, 1), text) == events + ExtendReport(more, s, text)
  {
    var all := events + more;
    assert all[|all| - 1] == more[|more| - 1];
    assert all[..|all| - 1] == events + more[..|more| - 1];
  }

  /** Cutting the text makes no difference: a piece that is taken whole can be followed by the next one,
      and a piece that stops the parser stops it in the same place when more text is behind it. */
  lemma {:induction false} ExecSplit(p: State, a: string, b: string, refuses: Refusal)
    requires Valid(p)
    ensures var ra := Exec(p, a, refuses);
            if ra.status.Finished? then
              var rb := Exec(ra.state, b, refuses);
              Exec(p, a + b, refuses) == Run(rb.state, ra.events + rb.events, Later(rb.status, |a|))
            else
              (ra.status.Aborted? ==> ra.events != [])
              && Exec(p, a + b, refuses) == Run(ra.state, ExtendReport(ra.events, ra.status, b), ra.status)
    decreases |a|
  {
    hide ByteStep, CallbackOf;
    if a == "" {
      Empty(b);
      Empty(Exec(p, b, refuses).events);
    } else {
      ByteStepValid(p, a[0], refuses);
      assert (a + b)[0] == a[0] && (a + b)[1..] == a[1..] + b;
      var step := ByteStep(p, a[0], refuses);
      if step.Continue? {
        ExecSplit(step.next, a[1..], b, refuses);
        var ra := Exec(step.next, a[1..], refuses);
        if ra.status.Finished? {
          Assoc(step.events, ra.events, Exec(ra.state, b, refuses).events);
        } else if ra.status.Aborted? {
          ReportExtends(step.events, ra.events, ra.status, b);
        }
      }
    }
  }

  // ----- one byte further -----

  /** After `i` bytes of `data`, with the parser in state `p` and `fired` called, the rest of the run is the
      run from `p`. */
  ghost predicate Resumes(p0: State, data: string, i: nat, p: State, fired: seq<Event>, refuses: Refusal)
  {
    Valid(p0) && Valid(p) && i <= |data|
    && var rest := Exec(p, data[i..], refuses);
       Exec(p0, data, refuses) == Run(rest.state, fired + rest.events, Later(rest.status, i))
  }

  lemma ResumesAtStart(p: State, data: string, refuses: Refusal)
    requires Valid(p)
    ensures Resumes(p, data, 0, p, [], refuses)
  {
    hide ByteStep;
    assert data[0..] == data;
    Empty(Exec(p, data, refuses).events);
  }

  /** At the end of the text nothing more happens. */
  lemma ResumesAtEnd(p0: State, data: string, p: State, fired: seq<Event>, refuses: Refusal)
    requires Resumes(p0, data, |data|, p, fired, refuses)
    ensures Exec(p0, data, refuses) == Run(p, fired, Finished)
  {
    hide ByteStep;
    assert data[|data|..] == "";
    Empty(fired);
  }

  lemma Resume(p0: State, data: string, i: nat, p: State, fired: seq<Event>, refuses: Refusal)
    requires Resumes(p0, data, i, p, fired, refuses) && i < |data|
    ensures match ByteStep(p, data[i], refuses)
            case Continue(next, events) => Resumes(p0, data, i + 1, next, fired + events, refuses)
            case Abort(next) => Exec(p0, data, refuses) == Run(next, fired + [Event(OnError, data[i..])], Aborted(i))
            case Reject(next) => Exec(p0, data, refuses) == Run(next, fired, Rejected)
            case Overflow => Exec(p0, data, refuses) == Run(p, fired, Overrun(i))
  {
    hide ByteStep;
    ByteStepValid(p, data[i], refuses);
    assert data[i..][0] == data[i] && data[i..][1..] == data[i + 1..];
    var step := ByteStep(p, data[i], refuses);
    if step.Continue? {
      Assoc(fired, step.events, Exec(step.next, data[i + 1..], refuses).events);
    } else {
      Empty(fired);
    }
  }

  /** What `ByteStep` says, branch by branch as the code takes them. */
  lemma ControlStep(p: State, refuses: Refusal)
    requires Valid(p)
    ensures ByteStep(p, '\r', refuses) == Continue(p.(phase := End), [])
    ensures ByteStep(p, '\n', refuses)
         == if p.phase == End
            then Continue(INITIAL, [Event(OnParam, p.raw[p.last..]), Event(OnEnd, p.raw[p.last..])])
            else Reject(p)
  {
    hide FieldByte;
  }

  lemma TextStep(p: State, c: char, refuses: Refusal)
    requires Valid(p) && c != '\r' && c != '\n'
    ensures ByteStep(p, c, refuses)
         == if |p.raw| > RAW_BUFFER_SIZE then Overflow
            else if |p.raw| == RAW_BUFFER_SIZE then Abort(p.(raw := p.raw + [c], phase := Error, error := TooLong))
            else if p.phase == Init then
              if c == ':' then Continue(State(p.raw + [c], 1, Nick, p.error), [])
              else ByteStep(p.(phase := Command), c, refuses)
            else if p.phase == Error then Abort(p.(raw := p.raw + [c]))
            else if p.phase == End then Abort(p.(raw := p.raw + [c], phase := Error, error := UndefinedState))
            else FieldByte(p, c, refuses)
  {
  }

  lemma OverflowWhen(p: State, c: char, refuses: Refusal)
    requires Valid(p)
    ensures ByteStep(p, c, refuses).Overflow? <==> c != '\r' && c != '\n' && |p.raw| > RAW_BUFFER_SIZE
  {
  }

  lemma Redispatch(p0: State, data: string, i: nat, p: State, fired: seq<Event>, refuses: Refusal)
    requires Resumes(p0, data, i, p, fired, refuses) && i < |data|
    requires ByteStep(p, data[i], refuses) == ByteStep(p.(phase := Command), data[i], refuses)
    requires !ByteStep(p, data[i], refuses).Overflow?
    ensures Resumes(p0, data, i, p.(phase := Command), fired, refuses)
  {
    hide ByteStep;
    assert data[i..][0] == data[i];
  }

  // ----- the parser object -----

  /** How the loop goes on behind an ordinary byte: with the next one, with the same one again, or not. */
  datatype Turn = Taken | Again | Stopped

  lemma LastField(raw: seq<char>, last: nat, len: nat)
    requires last < len && len - 1 <= |raw|
    ensures raw[..len - 1][last..] == raw[last..len - 1]
  {
  }

  class Parser {
    const refuses: Refusal
    const raw: array<char>

    var len: nat
    var last: nat
    var state: Phase
    var error: ErrorCode
    /** The callbacks made so far. */
    var calls: seq<Event>

    ghost predicate Ready()
      reads this
    {
      raw.Length == RAW_BUFFER_SIZE + 1 && last <= len <= raw.Length
    }

    ghost function Now(): State
      reads this, raw
    {
      State(if len <= raw.Length then raw[..len] else "", last, state, error)
    }

    /** `irc_parser_init`. */
    constructor (refuses: Refusal)
      ensures Ready() && Now() == INITIAL && calls == [] && fresh(raw) && this.refuses == refuses
    {
      this.refuses := refuses;
      raw := new char[RAW_BUFFER_SIZE + 1](_ => '\0');
      len, last, state, error, calls := 0, 0, Init, NoError, [];
    }

    /** `irc_parser_reset`. */
    method Reset()
      requires raw.Length == RAW_BUFFER_SIZE + 1
      modifies `len, `last, `state, `error, raw
      ensures Ready() && Now() == INITIAL
    {
      len, last, state, error := 0, 0, Init, NoError;
      forall i | 0 <= i < RAW_BUFFER_SIZE {
        raw[i] := '\0';
      }
    }

    /** `_irc_parser_force_call` for the callback of kind `k`. */
    method ForceCall(k: Kind)
      requires raw.Length == RAW_BUFFER_SIZE + 1 && last < len && len - 1 <= raw.Length
      modifies `calls, `state, `error
      ensures var e := Event(k, raw[last..len - 1]);
              calls == old(calls) + [e]
              && state == (if refuses(e) then Error else old(state))
              && error == (if refuses(e) then UserError else old(error))
    {
      var e := Event(k, raw[last..len - 1]);
      calls := calls + [e];
      if refuses(e) {
        state := Error;
        error := UserError;
      }
    }

    /** `irc_parser_switch_to_state_if_char_received`, with the character received. */
    method CallAndSwitch(phase: Phase)
      requires raw.Length == RAW_BUFFER_SIZE + 1 && last < len <= raw.Length
      modifies `calls, `state, `error, `last
      ensures var e := Event(CallbackOf(old(state)), raw[old(last)..len - 1]);
              calls == old(calls) + [e] && state == phase && last == len
              && error == (if refuses(e) then UserError else old(error))
    {
      ForceCall(CallbackOf(state));
      state := phase;
      last := len;
    }

    /** `_irc_parser_call_and_progress`. */
    method CallAndProgress()
      requires raw.Length == RAW_BUFFER_SIZE + 1 && last < len <= raw.Length
      modifies `calls, `state, `error, `last
      ensures var e := Event(CallbackOf(old(state)), raw[old(last)..len - 1]);
              calls == old(calls) + [e] && last == len
              && state == (if refuses(e) then Error else NextPhase(old(state)))
              && error == (if refuses(e) then UserError else old(error))
    {
      ForceCall(CallbackOf(state));
      state := NextPhase(state);
      last := len;
    }

    /** `IRC_PARSER_APPEND_RAW`. */
    method AppendRaw(c: char)
      requires Ready() && len < raw.Length
      modifies `len, `state, `error, raw
      ensures Ready() && len == old(len) + 1 && raw[len - 1] == c
      ensures raw[..len] == old(raw[..len]) + [c] && raw[..len - 1] == old(raw[..len])
      ensures state == (if len > RAW_BUFFER_SIZE then Error else old(state))
      ensures error == (if len > RAW_BUFFER_SIZE then TooLong else old(error))
    {
      raw[len] := c;
      len := len + 1;
      if len > RAW_BUFFER_SIZE {
        state := Error;
        error := TooLong;
      }
    }

    /** The phase switch of `irc_parser_execute` for the byte `c` just appended, in the phases that take
        it without an error or a re-dispatch. */
    method Dispatch(c: char)
      requires Ready() && last < len && raw[len - 1] == c
      requires state != Init && state != End && state != Error
      modifies `calls, `state, `error, `last
      ensures var p := old(State(raw[..len - 1], last, state, error));
              var step := FieldByte(p, c, refuses);
              step.Continue? && Ready() && Now() == step.next && calls == old(calls) + step.events
    {
      assert raw[..len] == raw[..len - 1] + [c];
      assert raw[..len - 1][last..] == raw[last..len - 1];
      match state
      case Nick =>
        if c == '@' {
          CallAndSwitch(Host);
        }
        if c == ' ' {
          CallAndSwitch(Command);
        }
        if c == '!' {
          CallAndProgress();
        }
      case Name =>
        if c == ' ' {
          CallAndSwitch(Command);
        }
        if c == '@' {
          CallAndProgress();
        }
      case Host =>
        if c == ' ' {
          CallAndProgress();
        }
      case Command =>
        if c == ' ' {
          CallAndProgress();
        }
      case Params =>
        if c == ' ' {
          ForceCall(CallbackOf(state));
          last := len;
        } else if c == ':' && len == last + 1 {
          state := NextPhase(state);
          last := len;
        }
      case Trailing =>
    }

    /** The default branch of `irc_parser_execute`, for the byte `c` in front of `rest`. */
    method TakeText(c: char, rest: string) returns (turn: Turn)
      requires Ready() && len < raw.Length && c != '\r' && c != '\n'
      modifies `len, `last, `state, `error, `calls, raw
      ensures Ready()
      ensures var p := old(Now());
              var step := ByteStep(p, c, refuses);
              match turn
              case Taken => step.Continue? && Now() == step.next && calls == old(calls) + step.events
              case Again =>
                p.phase == Init && Now() == p.(phase := Command) && calls == old(calls)
                && step == ByteStep(Now(), c, refuses)
              case Stopped =>
                step.Abort? && Now() == step.next && calls == old(calls) + [Event(OnError, rest)]
    {
      hide ByteStep, FieldByte, CallbackOf;
      TextStep(Now(), c, refuses);
      Empty(calls);
      AppendRaw(c);
      if state == Init {
        if c == ':' {
          last := 1;
          state := Nick;
        } else {
          len := len - 1;
          state := Command;
          return Again;
        }
      } else if state == Error || state == End {
        if state == End {
          error := UndefinedState;
        }
        state := Error;
        calls := calls + [Event(OnError, rest)];
        return Stopped;
      } else {
        Dispatch(c);
      }
      return Taken;
    }

    /** The line feed behind a carriage return: the last field and the end are called back, and the parser
        is reset. */
    method EndMessage()
      requires Ready() && state == End
      modifies `len, `last, `state, `error, `calls, raw
      ensures Ready() && Now() == INITIAL
      ensures var field := old(raw[..len][last..]);
              calls == old(calls) + [Event(OnParam, field), Event(OnEnd, field)]
    {
      len := len + 1;
      LastField(raw[..], last, len);
      ForceCall(CallbackOf(state));
      ForceCall(OnEnd);
      Reset();
    }

    /** `irc_parser_execute`; -1 is the size_t with all bits set. `defined` is false when the code would write behind
        its buffer; the model stops in front of that write. */
    method Execute(data: string) returns (n: int, defined: bool)
      requires Ready()
      modifies `len, `last, `state, `error, `calls, raw
      ensures var r := Exec(old(Now()), data, refuses);
              Now() == r.state && calls == old(calls) + r.events
              && (r.status.Finished? ==> n == |data|) && (r.status.Aborted? || r.status.Overrun? ==> n == r.status.at)
              && (r.status.Rejected? ==> n == -1) && (defined <==> !r.status.Overrun?)
      ensures Ready()
    {
      hide ByteStep, FieldByte, CallbackOf, Exec, Resumes;
      ghost var p0, before := Now(), calls;
      ghost var fired: seq<Event> := [];
      ResumesAtStart(p0, data, refuses);
      Empty(before);
      var i := 0;
      while i < |data|
        invariant 0 <= i <= |data| && Ready() && calls == before + fired
        invariant Resumes(p0, data, i, Now(), fired, refuses)
        decreases |data| - i, if state == Init then 1 else 0
      {
        ghost var p := Now();
        var c := data[i];
        Resume(p0, data, i, p, fired, refuses);
        ControlStep(p, refuses);
        OverflowWhen(p, c, refuses);
        if c == '\r' {
          state := End;
          Empty(fired);
        } else if c == '\n' {
          if state != End {
            return -1, true;
          }
          Assoc(before, fired, [Event(OnParam, p.raw[p.last..]), Event(OnEnd, p.raw[p.last..])]);
          EndMessage();
          fired := fired + [Event(OnParam, p.raw[p.last..]), Event(OnEnd, p.raw[p.last..])];
        } else {
          if len == raw.Length {
            return i, false;
          }
          var turn := TakeText(c, data[i..]);
          if turn == Again {
            Redispatch(p0, data, i, p, fired, refuses);
            continue;
          }
          Assoc(before, fired, [Event(OnError, data[i..])]);
          if turn == Stopped {
            return i, true;
          }
          Assoc(before, fired, ByteStep(p, c, refuses).events);
          fired := fired + ByteStep(p, c, refuses).events;
        }
        i := i + 1;
      }
      ResumesAtEnd(p0, data, Now(), fired, refuses);
      return i, true;
    }
  }
}
