/** What a failing socket does to a transfer, and what it leaves alone. */
module DccFailures {
  import opened DccInvariants
  import opened DccLiveness
  import opened DccProtocol
  import opened Options
  import opened Sequences
  import DccTheorems

  // ----- a transfer that breaks -----

  /** The connection attempt fails, or an open connection fails or is closed. */
  predicate Breaks(s: Session, io: Io) {
    (s.phase == Connecting && io.Failed?) || (s.phase == Connected && (io.Failed? || io == Received([])))
  }

  /** The session is removed, and nothing else of it or its download changes. */
  lemma BreakRemoves(cfg: Config, s: Session, d: Download, io: Io)
    requires Breaks(s, io)
    ensures TurnOf(cfg, s, d, io) == Outcome(s.(phase := Removed), d.(log := d.log + [Broken]), false)
  {
  }

  /** The cleanup drops the session at `i`, once it is marked. */
  lemma {:induction false} LiveWithout(ss: seq<Session>, i: nat, s: Session)
    requires i < |ss| && s.phase == Removed
    ensures Live(ss[i := s]) == Live(ss[..i] + ss[i + 1..])
  {
    if i == 0 {
      assert ss[0 := s][1..] == ss[1..];
      Empty(ss[1..]);
    } else {
      LiveWithout(ss[1..], i - 1, s);
      assert ss[i := s][1..] == ss[1..][i - 1 := s];
      assert (ss[..i] + ss[i + 1..])[1..] == ss[1..][..i - 1] + ss[1..][i..];
    }
  }

  lemma BreakInWorld(cfg: Config, w: World, id: nat, io: Io)
    requires Found(w, id) && Breaks(SessionOf(w, id), io)
    ensures var i, s, d := FindId(w.sessions, id), SessionOf(w, id), DownloadOf(w, id);
            Step(cfg, w, Turn(id, io))
            == w.(sessions := w.sessions[i := s.(phase := Removed)],
                  downloads := w.downloads[s.ctx := d.(log := d.log + [Broken])])
  {
    hide TurnOf, FindId;
    BreakRemoves(cfg, SessionOf(w, id), DownloadOf(w, id), io);
  }

  lemma OtherIs(ss: seq<Session>, i: nat, s: Session)
    requires i < |ss| && forall j :: 0 <= j < |ss| && j != i ==> ss[j].id != ss[i].id
    ensures s in ss[..i] + ss[i + 1..] <==> s in ss && s.id != ss[i].id
  {
    var others := ss[..i] + ss[i + 1..];
    if s in others {
      var j :| 0 <= j < |others| && others[j] == s;
      assert s == if j < i then ss[j] else ss[j + 1];
    }
    if s in ss && s.id != ss[i].id {
      var j :| 0 <= j < |ss| && ss[j] == s;
      assert s == if j < i then others[j] else others[j - 1];
    }
  }

  lemma LiveSessions(ss: seq<Session>, i: nat, id: nat, ctx: nat)
    requires Decreasing(ss, id, ctx) && i < |ss|
    ensures forall s :: s in Live(ss[..i] + ss[i + 1..]) <==> s in ss && s.id != ss[i].id && s.phase != Removed
  {
    hide Live, Decreasing;
    DecreasingIds(ss, id, ctx);
    var others := ss[..i] + ss[i + 1..];
    LiveIsFilter(others, id, ctx);
    forall s ensures s in others <==> s in ss && s.id != ss[i].id {
      OtherIs(ss, i, s);
    }
  }

  lemma NothingToRun(cfg: Config, w: World)
    ensures Run(cfg, w, []) == w
  {
  }

  /** In every reachable state, when a transfer breaks, the cleanup leaves no session with its id and all others
      that are not removed, in their order. All files stay as they are, and so do the counters. */
  lemma BrokenTransferGoes(cfg: Config, es: seq<Event>, id: nat, io: Io)
    requires AllLegal(es)
    requires var w := Run(cfg, EMPTY, es); Found(w, id) && Breaks(SessionOf(w, id), io)
    ensures var w := Run(cfg, EMPTY, es);
            var i, ctx, d := FindId(w.sessions, id), SessionOf(w, id).ctx, DownloadOf(w, id);
            var w' := Run(cfg, w, [Turn(id, io), Cleanup]);
            !w'.halted && w'.sessions == Live(w.sessions[..i] + w.sessions[i + 1..])
            && (forall s :: s in w'.sessions <==> s in w.sessions && s.id != id && s.phase != Removed)
            && w'.downloads == w.downloads[ctx := d.(log := d.log + [Broken])]
            && w'.finished == w.finished && w'.quits == w.quits && w'.lastId == w.lastId
  {
    hide Run, FindId, Live, Sound, FileSound, Decreasing, Closed;
    var w := Run(cfg, EMPTY, es);
    EmptyInv(cfg);
    RunInv(cfg, EMPTY, es);
    var i := FindId(w.sessions, id);
    BreakInWorld(cfg, w, id, io);
    LiveWithout(w.sessions, i, SessionOf(w, id).(phase := Removed));
    LiveSessions(w.sessions, i, w.lastId, |w.downloads|);
    assert [Turn(id, io), Cleanup] + [] == [Turn(id, io), Cleanup];
    RunTwo(cfg, w, Turn(id, io), Cleanup, []);
    NothingToRun(cfg, Step(cfg, Step(cfg, w, Turn(id, io)), Cleanup));
  }

  // ----- a socket that is not ready -----

  /** The socket is not ready, or an acknowledgement does not get out. */
  predicate Stalls(s: Session, io: Io) {
    io.NotReady? || (s.phase == ConfirmSize && (io.Failed? || io == Writable(0)))
  }

  lemma StallInWorld(cfg: Config, w: World, id: nat, io: Io)
    requires Found(w, id) && Stalls(SessionOf(w, id), io)
    ensures Step(cfg, w, Turn(id, io)) == w
  {
    hide FindId;
    var i, ctx := FindId(w.sessions, id), SessionOf(w, id).ctx;
    assert TurnOf(cfg, SessionOf(w, id), DownloadOf(w, id), io) == Outcome(SessionOf(w, id), DownloadOf(w, id), false);
    assert w.sessions[i := w.sessions[i]] == w.sessions && w.downloads[ctx := w.downloads[ctx]] == w.downloads;
  }

  function Turns(id: nat, ios: seq<Io>): seq<Event> {
    if ios == [] then [] else [Turn(id, ios[0])] + Turns(id, ios[1..])
  }

  /** Nothing is lost while a socket stalls, however often: in particular, an acknowledgement that fails is tried
      again, and the transfer goes on from where it was. */
  lemma {:induction false} StallsChangeNothing(cfg: Config, w: World, id: nat, ios: seq<Io>, more: seq<Event>)
    requires Found(w, id) && forall io :: io in ios ==> Stalls(SessionOf(w, id), io)
    ensures Run(cfg, w, Turns(id, ios) + more) == Run(cfg, w, more)
    decreases |ios|
  {
    hide Run, Step, Found, Stalls;
    if ios == [] {
      Empty(more);
    } else {
      Assoc([Turn(id, ios[0])], Turns(id, ios[1..]), more);
      RunFirst(cfg, w, Turn(id, ios[0]), Turns(id, ios[1..]) + more);
      StallInWorld(cfg, w, id, ios[0]);
      StallsChangeNothing(cfg, w, id, ios[1..], more);
    }
  }

  // ----- when the program stops -----

  /** The events that stop the program in a world. */
  predicate Stops(cfg: Config, w: World, e: Event) {
    match e
    case Offer(_, size, existing, connects) =>
      (existing.Some? && |existing.value| == size) || ((existing == None || existing == Some([])) && !connects)
    case AcceptReply(port, _, connects) =>
      !connects && exists i :: 0 <= i < |w.sessions| && w.sessions[i].port == port
                               && w.sessions[i].phase == WaitingForResumeAck
                               && forall j :: 0 <= j < i ==> w.sessions[j].port != port
    case Turn(id, io) =>
      !cfg.confirm && io.Received? && io.data != []
      && exists s :: s in w.sessions && s.id == id && s.phase == Connected
                     && s.ctx < |w.downloads| && !w.downloads[s.ctx].open
    case Cleanup => false
  }

  lemma OfferStops(cfg: Config, w: World, e: Event)
    requires !w.halted && e.Offer?
    ensures Step(cfg, w, e).halted <==> Stops(cfg, w, e)
  {
  }

  lemma ReplyStops(cfg: Config, w: World, e: Event)
    requires Inv(cfg, w) && !w.halted && e.AcceptReply?
    ensures Step(cfg, w, e).halted <==> Stops(cfg, w, e)
  {
    hide FileSound, Decreasing, Closed;
    var i := FindPort(w.sessions, e.port);
    if i < |w.sessions| {
      assert w.sessions[i] in w.sessions;
    }
  }

  lemma TurnStops(cfg: Config, w: World, e: Event)
    requires Inv(cfg, w) && !w.halted && e.Turn?
    ensures Step(cfg, w, e).halted <==> Stops(cfg, w, e)
  {
    hide FileSound, Decreasing, Closed, Sound, TurnOf, FindId;
    DecreasingIds(w.sessions, w.lastId, |w.downloads|);
    var i := FindId(w.sessions, e.id);
    if i < |w.sessions| {
      assert w.sessions[i] in w.sessions;
      DccTheorems.TurnHalts(cfg, w.sessions[i], w.downloads[w.sessions[i].ctx], e.io);
    }
  }

  lemma CleanupStops(cfg: Config, w: World)
    requires !w.halted
    ensures !Step(cfg, w, Cleanup).halted && !Stops(cfg, w, Cleanup)
  {
  }

  /** Exactly when a step of a reachable world stops the program. */
  lemma StopsExactlyWhen(cfg: Config, es: seq<Event>, e: Event)
    requires AllLegal(es) && !Run(cfg, EMPTY, es).halted
    ensures Step(cfg, Run(cfg, EMPTY, es), e).halted <==> Stops(cfg, Run(cfg, EMPTY, es), e)
  {
    hide Run, Inv, Step, Stops;
    EmptyInv(cfg);
    RunInv(cfg, EMPTY, es);
    var w := Run(cfg, EMPTY, es);
    match e
    case Offer(_, _, _, _) => OfferStops(cfg, w, e);
    case AcceptReply(_, _, _) => ReplyStops(cfg, w, e);
    case Turn(_, _) => TurnStops(cfg, w, e);
    case Cleanup => CleanupStops(cfg, w);
  }

  /** A reply changes nothing unless the first session with its port waits for one. */
  lemma UnexpectedReply(cfg: Config, w: World, port: nat, size: nat, connects: bool)
    requires forall i :: 0 <= i < |w.sessions| && w.sessions[i].port == port
                         && (forall j :: 0 <= j < i ==> w.sessions[j].port != port)
                         ==> w.sessions[i].phase != WaitingForResumeAck
    ensures Step(cfg, w, AcceptReply(port, size, connects)) == w
  {
    var i := FindPort(w.sessions, port);
    assert i < |w.sessions| ==> w.sessions[i].phase != WaitingForResumeAck;
  }
}
