/** What a run of downloads guarantees: the file, the acknowledgements, the end of a transfer, the end of the
    program, and the life of a session. */
module DccTheorems {
  import opened DccInvariants
  import opened DccProtocol
  import opened LittleEndian
  import opened Options
  import opened Sequences

  /** After any run from the start, the two counters of every session are equal, and the file is what was there
      followed by the bytes received. While the program runs, the counters are at the position where the bot
      started plus those bytes. */
  lemma CountersAgree(cfg: Config, es: seq<Event>, s: Session)
    requires AllLegal(es) && s in Run(cfg, EMPTY, es).sessions
    ensures var w := Run(cfg, EMPTY, es);
            s.ctx < |w.downloads|
            && var d := w.downloads[s.ctx];
               s.offset == d.rcvd && d.file == d.before + Payload(d.log)
               && (!w.halted ==> d.rcvd == (d.start + |Payload(d.log)|) % 0x1_0000_0000_0000_0000)
  {
    hide Run, Orderly;
    EmptyInv(cfg);
    RunInv(cfg, EMPTY, es);
    RunLevel(cfg, EMPTY, es);
  }

  // ----- resuming -----

  /** The bot's reply names the position that it was sent: the length of the file so far. */
  predicate Echoes(w: World, e: Event) {
    e.AcceptReply? ==>
      var i := FindPort(w.sessions, e.port);
      HasDownload(w, i) && w.sessions[i].phase == WaitingForResumeAck ==> e.size == |DownloadAt(w, i).before|
  }

  predicate EchoingRun(cfg: Config, w: World, es: seq<Event>)
    decreases |es|
  {
    es == [] || (Legal(es[0]) && Echoes(w, es[0]) && EchoingRun(cfg, Step(cfg, w, es[0]), es[1..]))
  }

  predicate AtTheEnd(d: Download) {
    d.start == |d.before|
  }

  ghost predicate EchoInv(w: World) {
    w.halted
    || ((forall s :: s in w.sessions && s.phase != WaitingForResumeAck ==>
           s.ctx < |w.downloads| && AtTheEnd(w.downloads[s.ctx]))
        && (forall d :: d in w.downloads && d.log != [] ==> AtTheEnd(d)))
  }

  /** What a turn or a reply does to the place where a download starts. */
  predicate KeepsStart(s: Session, d: Download, o: Outcome) {
    o.session.id == s.id && o.session.ctx == s.ctx
    && ((s.phase == WaitingForResumeAck && o.session.phase == WaitingForResumeAck && o.download == d)
        || (s.phase != WaitingForResumeAck && o.session.phase != WaitingForResumeAck
            && o.download.before == d.before && o.download.start == d.start)
        || (s.phase == WaitingForResumeAck && AtTheEnd(o.download)))
  }

  lemma ApplyEcho(cfg: Config, w: World, i: nat, o: Outcome)
    requires Inv(cfg, w) && EchoInv(w) && !w.halted && HasDownload(w, i)
    requires KeepsStart(SessionAt(w, i), DownloadAt(w, i), o)
    ensures EchoInv(Apply(cfg, w, i, o))
  {
    hide Sound, Decreasing, FileSound, Closed;
    var k, w' := w.sessions[i].ctx, Apply(cfg, w, i, o);
    DecreasingIds(w.sessions, w.lastId, |w.downloads|);
    assert w.sessions[i] in w.sessions && w.downloads[k] in w.downloads;
    forall s | s in w'.sessions && s.phase != WaitingForResumeAck
      ensures s.ctx < |w'.downloads| && AtTheEnd(w'.downloads[s.ctx])
    {
      var j :| 0 <= j < |w'.sessions| && w'.sessions[j] == s;
      if j != i {
        assert s == w.sessions[j] && s in w.sessions;
      }
    }
  }

  lemma OfferEcho(cfg: Config, w: World, port: nat, size: nat, existing: Option<seq<byte>>, connects: bool)
    requires Inv(cfg, w) && EchoInv(w) && !w.halted
    ensures EchoInv(Offered(w, port, size, existing, connects))
  {
    hide Sound, Decreasing, FileSound, Closed;
    var w' := Offered(w, port, size, existing, connects);
    forall s | s in w.sessions ensures s.ctx < |w.downloads| && w'.downloads[s.ctx] == w.downloads[s.ctx] {
    }
  }

  lemma ReplyEcho(cfg: Config, w: World, e: Event)
    requires Inv(cfg, w) && EchoInv(w) && !w.halted && e.AcceptReply? && Echoes(w, e)
    ensures EchoInv(Replied(cfg, w, e.port, e.size, e.connects))
  {
    hide Decreasing, FileSound, Closed, EchoInv, Apply;
    var i := FindPort(w.sessions, e.port);
    if HasDownload(w, i) && w.sessions[i].phase == WaitingForResumeAck {
      assert w.sessions[i] in w.sessions;
      ApplyEcho(cfg, w, i, Resumed(SessionAt(w, i), DownloadAt(w, i), e.size, e.connects));
    }
  }

  lemma TurnEcho(cfg: Config, w: World, i: nat, io: Io)
    requires Inv(cfg, w) && EchoInv(w)
    ensures EchoInv(TurnAt(cfg, w, i, io))
  {
    hide Sound, Decreasing, FileSound, Closed, EchoInv, Apply;
    if !w.halted && HasDownload(w, i) {
      ApplyEcho(cfg, w, i, TurnOf(cfg, SessionAt(w, i), DownloadAt(w, i), io));
    }
  }

  lemma CleanupEcho(w: World)
    requires EchoInv(w) && !w.halted
    ensures EchoInv(w.(sessions := Live(w.sessions)))
  {
    hide Live;
    LiveIsFilter(w.sessions, 0, 0);
  }

  lemma StepEcho(cfg: Config, w: World, e: Event)
    requires Inv(cfg, w) && EchoInv(w) && Echoes(w, e)
    ensures EchoInv(Step(cfg, w, e))
  {
    hide Sound, Decreasing, FileSound, Closed, Apply, EchoInv, Offered;
    if !w.halted {
      match e
      case Offer(port, size, existing, connects) => OfferEcho(cfg, w, port, size, existing, connects);
      case AcceptReply(port, size, connects) => ReplyEcho(cfg, w, e);
      case Turn(id, io) => TurnEcho(cfg, w, FindId(w.sessions, id), io);
      case Cleanup => CleanupEcho(w);
    }
  }

  lemma {:induction false} RunEcho(cfg: Config, w: World, es: seq<Event>)
    requires Inv(cfg, w) && EchoInv(w) && EchoingRun(cfg, w, es)
    ensures EchoInv(Run(cfg, w, es)) && Inv(cfg, Run(cfg, w, es))
    decreases |es|
  {
    hide Inv, EchoInv, Step, Legal, Echoes;
    if es != [] {
      StepInv(cfg, w, es[0]);
      StepEcho(cfg, w, es[0]);
      RunEcho(cfg, Step(cfg, w, es[0]), es[1..]);
    }
  }

  lemma SameShift(a: nat, b: nat, n: nat)
    ensures Mod64(a + n) == Mod64(b + n) <==> Mod64(a) == Mod64(b)
  {
  }

  /** The length of the file is the program's counter exactly when the bot started where the file ended. */
  lemma LengthIsCounter(cfg: Config, d: Download)
    requires FileSound(cfg, d)
    ensures Mod64(|d.file|) == d.rcvd <==> Mod64(|d.before|) == Mod64(d.start)
  {
    var n := |Payload(d.log)|;
    SameShift(|d.before|, d.start, n);
  }

  lemma ClosedIsComplete(cfg: Config, d: Download)
    requires FileSound(cfg, d)
    ensures !d.open ==> d.rcvd == d.size
  {
  }

  /** When every bot resumes where it was asked to, every file that has received something is as long as the
      counter says, and a finished one is as long as announced. */
  lemma EchoedFilesAreWhole(cfg: Config, es: seq<Event>)
    requires EchoingRun(cfg, EMPTY, es) && !Run(cfg, EMPTY, es).halted
    ensures forall d :: d in Run(cfg, EMPTY, es).downloads && d.log != [] ==>
              Mod64(|d.file|) == d.rcvd && (!d.open ==> Mod64(|d.file|) == d.size)
  {
    hide Run, EchoingRun, FileSound, Sound, Closed, Decreasing;
    EmptyInv(cfg);
    RunEcho(cfg, EMPTY, es);
    forall d | d in Run(cfg, EMPTY, es).downloads && d.log != []
      ensures Mod64(|d.file|) == d.rcvd && (!d.open ==> Mod64(|d.file|) == d.size)
    {
      LengthIsCounter(cfg, d);
      ClosedIsComplete(cfg, d);
    }
  }

  lemma RunFirst(cfg: Config, w: World, es: seq<Event>)
    requires es != []
    ensures Run(cfg, w, es) == Run(cfg, Step(cfg, w, es[0]), es[1..])
    ensures |es| == 1 ==> Run(cfg, w, es) == Step(cfg, w, es[0])
  {
    hide Step;
  }

  lemma FourSteps(cfg: Config, w: World, es: seq<Event>)
    requires |es| == 4
    ensures Run(cfg, w, es) == Step(cfg, Step(cfg, Step(cfg, Step(cfg, w, es[0]), es[1]), es[2]), es[3])
  {
    hide Step;
    var w1 := Step(cfg, w, es[0]);
    var w2 := Step(cfg, w1, es[1]);
    var w3 := Step(cfg, w2, es[2]);
    RunFirst(cfg, w, es);
    RunFirst(cfg, w1, es[1..]);
    RunFirst(cfg, w2, es[1..][1..]);
    RunFirst(cfg, w3, es[1..][1..][1..]);
  }

  /** A bot that starts elsewhere breaks this: four bytes are there, the bot starts at two and sends four of
      the six announced; the download is complete and the file has eight bytes. */
  lemma NoEchoExample(cfg: Config, a: byte)
    ensures var es := [Offer(1, 6, Some([a, a, a, a]), true), AcceptReply(1, 2, true), Turn(1, Writable(0)),
                       Turn(1, Received([a, a, a, a]))];
            var w := Run(cfg, EMPTY, es);
            AllLegal(es) && !w.halted && |w.downloads| == 1 && !w.downloads[0].open
            && w.downloads[0].size == 6 && |w.downloads[0].file| == 8
  {
    var four := [a, a, a, a];
    var d0 := Download(6, 0, four, true, four, 0, []);
    var s0 := Session(1, 1, WaitingForResumeAck, 6, 0, OnResume, 0);
    var w1 := World([s0], 2, [d0], 0, 0, false);
    assert Step(cfg, EMPTY, Offer(1, 6, Some(four), true)) == w1;
    var w2 := w1.(sessions := [s0.(offset := 2, callback := OnReceive, phase := Connecting)],
                  downloads := [d0.(rcvd := 2, start := 2)]);
    assert Step(cfg, w1, AcceptReply(1, 2, true)) == w2;
    var s3 := s0.(offset := 2, callback := OnReceive, phase := Connected);
    var w3 := w2.(sessions := [s3]);
    assert Step(cfg, w2, Turn(1, Writable(0))) == w3;
    var w4 := Step(cfg, w3, Turn(1, Received(four)));
    assert w4.downloads == [Deliver(w3.downloads[0], four)];
    var es := [Offer(1, 6, Some(four), true), AcceptReply(1, 2, true), Turn(1, Writable(0)), Turn(1, Received(four))];
    FourSteps(cfg, EMPTY, es);
  }

  // ----- acknowledging -----

  /** With acknowledgements on, the log of every download is orderly, after any run. */
  lemma LogsAreOrderly(cfg: Config, es: seq<Event>)
    requires AllLegal(es) && cfg.confirm && !Run(cfg, EMPTY, es).halted
    ensures forall d :: d in Run(cfg, EMPTY, es).downloads ==> Orderly(d.log, d.start, d.size)
  {
    hide Run, Orderly, Sound;
    EmptyInv(cfg);
    RunInv(cfg, EMPTY, es);
  }

  lemma LastMayFollow(before: seq<Action>, a: Action, start: nat, size: nat)
    requires MayFollow(before, a, start, size)
    ensures a.Acked? ==> before != [] && Last(before).Got?
    ensures !a.Acked? ==> before == [] || Last(before).Acked?
  {
  }

  /** Pieces of data are at the even places, acknowledgements at the odd ones, and only the end can be something
      else. */
  ghost predicate Alternating(log: seq<Action>) {
    (forall i :: 0 <= i < |log| ==> (log[i].Acked? <==> i % 2 == 1))
    && (forall i :: 0 <= i < |log| - 1 ==> (log[i].Got? <==> i % 2 == 0))
  }

  lemma AlternatingSnoc(before: seq<Action>, a: Action)
    requires Alternating(before)
    requires a.Acked? ==> before != [] && Last(before).Got?
    requires !a.Acked? ==> before == [] || Last(before).Acked?
    ensures Alternating(before + [a])
  {
    var log := before + [a];
    assert forall i :: 0 <= i < |before| ==> log[i] == before[i];
  }

  lemma OrderlyParts(log: seq<Action>, start: nat, size: nat)
    requires Orderly(log, start, size) && log != []
    ensures var before := log[..|log| - 1];
            Orderly(before, start, size) && MayFollow(before, Last(log), start, size) && log == before + [Last(log)]
  {
    hide MayFollow;
  }

  lemma NothingAlternates()
    ensures Alternating([])
  {
  }

  lemma {:induction false} OrderlyAlternates(log: seq<Action>, start: nat, size: nat)
    requires Orderly(log, start, size)
    ensures Alternating(log)
    decreases |log|
  {
    hide Orderly, MayFollow, Alternating;
    if log == [] {
      NothingAlternates();
    } else {
      var before := log[..|log| - 1];
      OrderlyParts(log, start, size);
      OrderlyAlternates(before, start, size);
      LastMayFollow(before, Last(log), start, size);
      AlternatingSnoc(before, Last(log));
    }
  }

  /** In an orderly log, reading and acknowledging strictly alternate. */
  lemma Alternates(log: seq<Action>, start: nat, size: nat)
    requires Orderly(log, start, size)
    ensures forall i :: 0 <= i < |log| ==> (log[i].Acked? <==> i % 2 == 1)
    ensures forall i :: 0 <= i < |log| - 1 ==> (log[i].Got? <==> i % 2 == 0)
  {
    hide Orderly;
    OrderlyAlternates(log, start, size);
  }

  /** Every acknowledgement carries the position reached so far: its bytes are the front of four that stand
      for the position modulo 2^32, most significant first. */
  lemma {:induction false} AcknowledgesPosition(log: seq<Action>, start: nat, size: nat, i: nat)
    requires Orderly(log, start, size) && i < |log| && log[i].Acked?
    ensures log[i].bytes != [] && log[i].bytes <= BigEndian32(Position(log[..i], start))
    decreases |log|
  {
    hide Position;
    if i < |log| - 1 {
      AcknowledgesPosition(log[..|log| - 1], start, size, i);
      assert log[..|log| - 1][..i] == log[..i];
    }
  }

  lemma BigEndianValue(n: nat)
    ensures var b := BigEndian32(n); DecodeLe([b[3], b[2], b[1], b[0]]) == n % 0x1_0000_0000
  {
    var e, b := EncodeLe(n, 4), BigEndian32(n);
    assert [b[3], b[2], b[1], b[0]] == e;
    DecodeEncode(n, 4);
    assert Power256(4) == 256 * (256 * (256 * (256 * 1)));
  }

  lemma AckKeepsPosition(log: seq<Action>, a: Action, start: nat)
    requires a.Acked?
    ensures Position(log + [a], start) == Position(log, start)
  {
    Snoc(log, a);
    Empty(Payload(log));
  }

  /** A transfer is closed as done only right after the announced size has been acknowledged, and nothing
      follows. */
  lemma DoneAfterAcknowledgingSize(log: seq<Action>, start: nat, size: nat, i: nat)
    requires Orderly(log, start, size) && i < |log| && log[i].Done?
    ensures i == |log| - 1 && i >= 2 && log[i - 1].Acked? && log[i - 2].Got?
    ensures Position(log[..i], start) == size && Position(log[..i - 1], start) == size
    ensures log[i - 1].bytes <= BigEndian32(size)
  {
    hide Payload;
    Alternates(log, start, size);
    assert i == |log| - 1;
    AcknowledgesPosition(log, start, size, i - 1);
    AckKeepsPosition(log[..i - 1], log[i - 1], start);
    assert log[..i] == log[..i - 1] + [log[i - 1]];
  }

  // ----- completing -----

  lemma TurnIsFinal(cfg: Config, w: World, i: nat, io: Io, k: nat)
    requires k < |w.downloads| && !w.downloads[k].open
    ensures var w' := TurnAt(cfg, w, i, io);
            |w'.downloads| == |w.downloads| && !w'.downloads[k].open && w'.downloads[k].file == w.downloads[k].file
  {
    hide BigEndian32;
  }

  /** Nothing more is written to a finished download, and it stays finished. */
  lemma FinishedIsFinal(cfg: Config, w: World, e: Event, k: nat)
    requires k < |w.downloads| && !w.downloads[k].open
    ensures k < |Step(cfg, w, e).downloads| && !Step(cfg, w, e).downloads[k].open
    ensures Step(cfg, w, e).downloads[k].file == w.downloads[k].file
  {
    hide FindId, FindPort, Live, BigEndian32;
    if e.Turn? {
      TurnIsFinal(cfg, w, FindId(w.sessions, e.id), e.io, k);
    }
  }

  /** After any run, the counter of finished downloads is the number of closed ones, and so at most the number
      of started ones; each counts once. */
  lemma FinishedIsBounded(cfg: Config, es: seq<Event>)
    requires AllLegal(es) && !Run(cfg, EMPTY, es).halted
    ensures var w := Run(cfg, EMPTY, es); w.finished == Closed(w.downloads) <= |w.downloads|
  {
    hide Run;
    EmptyInv(cfg);
    RunInv(cfg, EMPTY, es);
    ClosedBound(Run(cfg, EMPTY, es).downloads);
  }

  lemma OfferCounts(w: World, port: nat, size: nat, existing: Option<seq<byte>>, connects: bool)
    ensures var w' := Offered(w, port, size, existing, connects); w'.quits == w.quits && w'.finished == w.finished
  {
  }

  lemma QuitCount(cfg: Config, w: World, e: Event)
    ensures var w' := Step(cfg, w, e);
            w'.quits > w.quits <==> !cfg.verify && w'.finished > w.finished && w'.finished == |w'.downloads|
  {
    hide FindId, FindPort, Live, TurnOf, Resumed, Offered;
    if e.Offer? {
      OfferCounts(w, e.port, e.size, e.existing, e.connects);
    }
  }

  lemma QuitStep(cfg: Config, w: World, e: Event)
    requires Inv(cfg, w) && Legal(e) && !Step(cfg, w, e).halted
    ensures var w' := Step(cfg, w, e);
            w'.quits > w.quits <==>
            !cfg.verify && w'.finished > w.finished
            && forall d :: d in w'.downloads ==> !d.open && d.rcvd == d.size
  {
    hide Decreasing, Sound, Closed, FileSound, Step;
    var w' := Step(cfg, w, e);
    StepInv(cfg, w, e);
    ClosedBound(w'.downloads);
    QuitCount(cfg, w, e);
    forall d | d in w'.downloads ensures !d.open ==> d.rcvd == d.size {
      ClosedIsComplete(cfg, d);
    }
  }

  /** In any reachable state, a step makes the program quit exactly when checksums are not verified, the step
      finishes a download, and then every download that was started is complete. */
  lemma QuitsWhenAllAreComplete(cfg: Config, es: seq<Event>, e: Event)
    requires AllLegal(es) && Legal(e) && !Step(cfg, Run(cfg, EMPTY, es), e).halted
    ensures var w, w' := Run(cfg, EMPTY, es), Step(cfg, Run(cfg, EMPTY, es), e);
            w'.quits > w.quits <==>
            !cfg.verify && w'.finished > w.finished
            && forall d :: d in w'.downloads ==> !d.open && d.rcvd == d.size
  {
    hide Run, Inv;
    EmptyInv(cfg);
    RunInv(cfg, EMPTY, es);
    QuitStep(cfg, Run(cfg, EMPTY, es), e);
  }

  /** Exactly when a turn of a reachable session stops the program: data arrives after the download is
      complete. With acknowledgements on, that never happens. */
  lemma TurnHalts(cfg: Config, s: Session, d: Download, io: Io)
    requires Sound(cfg, s, d)
    ensures TurnOf(cfg, s, d, io).halted <==>
            !cfg.confirm && s.phase == Connected && !d.open && io.Received? && io.data != []
  {
    hide Orderly, Payload;
  }

  lemma ThreeSteps(cfg: Config, w: World, es: seq<Event>)
    requires |es| == 3
    ensures Run(cfg, w, es) == Step(cfg, Step(cfg, Step(cfg, w, es[0]), es[1]), es[2])
  {
    hide Step;
    var w1 := Step(cfg, w, es[0]);
    RunFirst(cfg, w, es);
    RunFirst(cfg, w1, es[1..]);
    RunFirst(cfg, Step(cfg, w1, es[1]), es[1..][1..]);
  }

  /** Without acknowledgements: a file of one byte is announced and the bot sends two pieces. The download is
      complete after the first, and the second stops the program. */
  lemma ExtraDataExample(cfg: Config, a: byte)
    requires !cfg.confirm
    ensures var es := [Offer(1, 1, None, true), Turn(1, Writable(0)), Turn(1, Received([a])), Turn(1, Received([a]))];
            AllLegal(es) && Run(cfg, EMPTY, es).halted && !Run(cfg, EMPTY, es[..3]).halted
  {
    var d0 := Download(1, 0, [], true, [], 0, []);
    var s0 := Session(1, 1, Connecting, 1, 0, OnReceive, 0);
    var w1 := World([s0], 2, [d0], 0, 0, false);
    assert Step(cfg, EMPTY, Offer(1, 1, None, true)) == w1;
    var w2 := w1.(sessions := [s0.(phase := Connected)]);
    assert Step(cfg, w1, Turn(1, Writable(0))) == w2;
    var w3 := Step(cfg, w2, Turn(1, Received([a])));
    assert w3.sessions == [s0.(phase := Connected, offset := 1)] && !w3.halted;
    assert w3.downloads == [Deliver(d0, [a])] && !Deliver(d0, [a]).open;
    var es := [Offer(1, 1, None, true), Turn(1, Writable(0)), Turn(1, Received([a])), Turn(1, Received([a]))];
    FourSteps(cfg, EMPTY, es);
    ThreeSteps(cfg, EMPTY, es[..3]);
  }

  // ----- the life of a session -----

  /** No session with this id is on its way, and none can be made. */
  ghost predicate Over(w: World, id: nat) {
    id < w.lastId && forall s :: s in w.sessions && s.id == id ==> s.phase == Removed
  }

  lemma OfferOver(w: World, port: nat, size: nat, existing: Option<seq<byte>>, connects: bool, id: nat)
    requires Over(w, id)
    ensures Over(Offered(w, port, size, existing, connects), id)
  {
    var w' := Offered(w, port, size, existing, connects);
    assert w'.sessions[0].id == w.lastId && w'.sessions[1..] == w.sessions;
    forall s | s in w'.sessions && s.id == id ensures s.phase == Removed {
      assert s in w'.sessions[1..];
    }
  }

  lemma ResumedKeepsId(s: Session, d: Download, size: nat, connects: bool)
    ensures Resumed(s, d, size, connects).session.id == s.id
  {
  }

  lemma ApplyOver(cfg: Config, w: World, i: nat, o: Outcome, id: nat)
    requires Over(w, id) && HasDownload(w, i) && o.session.id == w.sessions[i].id
    requires w.sessions[i].phase == Removed ==> o.session.phase == Removed
    ensures Over(Apply(cfg, w, i, o), id)
  {
    var w' := Apply(cfg, w, i, o);
    assert w.sessions[i] in w.sessions;
    forall s | s in w'.sessions && s.id == id ensures s.phase == Removed {
      var j :| 0 <= j < |w'.sessions| && w'.sessions[j] == s;
      if j != i {
        assert s == w.sessions[j];
      }
    }
  }

  lemma RemovedStays(cfg: Config, s: Session, d: Download, io: Io)
    ensures s.phase == Removed ==> TurnOf(cfg, s, d, io) == Outcome(s, d, false)
  {
  }

  /** Being removed is for good, through every step. */
  lemma StepOver(cfg: Config, w: World, e: Event, id: nat)
    requires Over(w, id)
    ensures Over(Step(cfg, w, e), id)
  {
    hide FindId, FindPort, TurnOf, Resumed, Live, Requested;
    if !w.halted {
      match e
      case Offer(port, size, existing, connects) => OfferOver(w, port, size, existing, connects, id);
      case AcceptReply(port, size, connects) =>
        var i := FindPort(w.sessions, port);
        if HasDownload(w, i) && w.sessions[i].phase == WaitingForResumeAck {
          var o := Resumed(SessionAt(w, i), DownloadAt(w, i), size, connects);
          ResumedKeepsId(SessionAt(w, i), DownloadAt(w, i), size, connects);
          ApplyOver(cfg, w, i, o, id);
        }
      case Turn(t, io) =>
        var i := FindId(w.sessions, t);
        if HasDownload(w, i) {
          var o := TurnOf(cfg, SessionAt(w, i), DownloadAt(w, i), io);
          TurnKeeps(cfg, SessionAt(w, i), DownloadAt(w, i), io);
          RemovedStays(cfg, SessionAt(w, i), DownloadAt(w, i), io);
          ApplyOver(cfg, w, i, o, id);
        }
      case Cleanup => LiveIsFilter(w.sessions, 0, 0);
    }
  }

  /** A removed session never comes back, over any run: neither it nor its id. */
  lemma {:induction false} RemovedIsAbsorbing(cfg: Config, w: World, es: seq<Event>, id: nat)
    requires Over(w, id)
    ensures Over(Run(cfg, w, es), id)
    decreases |es|
  {
    hide Over, Step;
    if es != [] {
      StepOver(cfg, w, es[0], id);
      RemovedIsAbsorbing(cfg, Step(cfg, w, es[0]), es[1..], id);
    }
  }

  /** In every reachable state an id finds its own session: ids strictly decrease along the list. */
  lemma IdsAreUnique(cfg: Config, es: seq<Event>, i: nat)
    requires AllLegal(es)
    requires var w := Run(cfg, EMPTY, es); !w.halted && i < |w.sessions|
    ensures var w := Run(cfg, EMPTY, es);
            FindId(w.sessions, w.sessions[i].id) == i && w.sessions[i].id < w.lastId
            && forall j :: i < j < |w.sessions| ==> w.sessions[j].id < w.sessions[i].id
  {
    hide Run, FindId, Sound, FileSound, Decreasing, Closed;
    EmptyInv(cfg);
    RunInv(cfg, EMPTY, es);
    var w := Run(cfg, EMPTY, es);
    DecreasingIds(w.sessions, w.lastId, |w.downloads|);
  }
}
