/** What holds in every state of every run of concurrent downloads. */
module DccInvariants {
  import opened DccProtocol
  import opened LittleEndian
  import opened Options
  import opened Sequences

  // ----- what the socket saw -----

  /** The bytes received. */
  function Payload(log: seq<Action>): seq<byte>
    decreases |log|
  {
    if log == [] then []
    else
      var last := log[|log| - 1];
      Payload(log[..|log| - 1]) + if last.Got? then last.data else []
  }

  /** The position in the bot's file after `log`, when it started to send at `start`. */
  function Position(log: seq<Action>, start: nat): nat {
    Mod64(start + |Payload(log)|)
  }

  function Last(log: seq<Action>): Action
    requires log != []
  {
    log[|log| - 1]
  }

  /** The discipline of a transfer with acknowledgements: what may follow `before`. */
  predicate MayFollow(before: seq<Action>, a: Action, start: nat, size: nat) {
    match a
    case Got(data) => data != [] && (before == [] || (Last(before).Acked? && Position(before, start) != size))
    case Acked(bytes) =>
      before != [] && Last(before).Got?
      && bytes != [] && bytes <= BigEndian32(Position(before, start))
    case Done => before != [] && Last(before).Acked? && Position(before, start) == size
    case Broken => before == [] || (Last(before).Acked? && Position(before, start) != size)
  }

  predicate Orderly(log: seq<Action>, start: nat, size: nat)
    decreases |log|
  {
    log == []
    || (Orderly(log[..|log| - 1], start, size) && MayFollow(log[..|log| - 1], Last(log), start, size))
  }

  lemma Snoc<T>(s: seq<T>, x: T)
    ensures (s + [x])[..|s + [x]| - 1] == s && (s + [x])[|s + [x]| - 1] == x && s + [x] != []
  {
  }

  /** One more action. */
  lemma OrderlySnoc(log: seq<Action>, a: Action, start: nat, size: nat)
    ensures Orderly(log + [a], start, size) <==> Orderly(log, start, size) && MayFollow(log, a, start, size)
    ensures Payload(log + [a]) == Payload(log) + if a.Got? then a.data else []
    ensures log + [a] != [] && Last(log + [a]) == a
  {
    hide MayFollow;
    Snoc(log, a);
  }

  // ----- one session and its download -----

  /** The file is what was there before and what was received; the program's counter is at the position of the
      transfer; a closed download is complete, and a transfer that ended as done is closed. */
  predicate FileSound(cfg: Config, d: Download) {
    d.size < TWO64 && d.file == d.before + Payload(d.log) && d.rcvd == Position(d.log, d.start)
    && (!d.open ==> d.rcvd == d.size)
    && (cfg.confirm ==> Orderly(d.log, d.start, d.size))
    && (d.log != [] && Last(d.log).Done? ==> !d.open)
  }

  /** The library's counter agrees, and the phase fits what has happened. */
  predicate PhaseSound(cfg: Config, s: Session, d: Download) {
    s.offset == d.rcvd
    && if s.phase == WaitingForResumeAck then s.callback == OnResume && d.log == [] && d.open
       else
         s.phase != Init && s.callback == OnReceive
         && match s.phase
            case Connecting => d.log == [] && d.open
            case Connected =>
              (d.log != [] ==> !Last(d.log).Done?)
              && (cfg.confirm ==> d.open && (d.log == [] || (Last(d.log).Acked? && d.rcvd != d.size)))
            case ConfirmSize => cfg.confirm && d.log != [] && Last(d.log).Got? && (d.open <==> d.rcvd != d.size)
            case _ => true
  }

  predicate Sound(cfg: Config, s: Session, d: Download) {
    s.size == d.size && FileSound(cfg, d) && PhaseSound(cfg, s, d)
  }

  lemma BreakSound(cfg: Config, s: Session, d: Download)
    requires Sound(cfg, s, d) && (s.phase == Connecting || s.phase == Connected)
    ensures Sound(cfg, s.(phase := Removed), d.(log := d.log + [Broken]))
  {
    hide Orderly, Payload;
    OrderlySnoc(d.log, Broken, d.start, d.size);
    Empty(Payload(d.log));
  }

  lemma AddMod64(start: nat, a: nat, b: nat)
    ensures Mod64(Mod64(start + a) + b) == Mod64(start + (a + b))
  {
  }

  lemma RecvSound(cfg: Config, s: Session, d: Download, data: seq<byte>)
    requires Sound(cfg, s, d) && s.phase == Connected
    ensures var o := Recv(cfg, s, d, data); o.halted || Sound(cfg, o.session, o.download)
  {
    hide Orderly, Payload;
    if data == [] {
      BreakSound(cfg, s, d);
    } else if d.open {
      OrderlySnoc(d.log, Got(data), d.start, d.size);
      Assoc(d.before, Payload(d.log), data);
      AddMod64(d.start, |Payload(d.log)|, |data|);
    }
  }

  lemma AcknowledgeSound(cfg: Config, s: Session, d: Download, sent: nat)
    requires Sound(cfg, s, d) && s.phase == ConfirmSize
    ensures var o := Acknowledge(s, d, sent); o.halted || Sound(cfg, o.session, o.download)
  {
    hide Orderly, Payload;
    if sent > 0 {
      var bytes := First(BigEndian32(s.offset), sent);
      assert bytes != [] && bytes <= BigEndian32(s.offset);
      OrderlySnoc(d.log, Acked(bytes), d.start, d.size);
      OrderlySnoc(d.log + [Acked(bytes)], Done, d.start, d.size);
      Empty(Payload(d.log));
    }
  }

  /** A turn keeps session and download sound, unless the program stops. */
  lemma TurnSound(cfg: Config, s: Session, d: Download, io: Io)
    requires Sound(cfg, s, d)
    ensures var o := TurnOf(cfg, s, d, io); o.halted || Sound(cfg, o.session, o.download)
  {
    hide Orderly, Payload;
    match (s.phase, io)
    case (Connecting, Failed) => BreakSound(cfg, s, d);
    case (Connected, Received(data)) => RecvSound(cfg, s, d, data);
    case (Connected, Failed) => RecvSound(cfg, s, d, []);
    case (ConfirmSize, Writable(sent)) => AcknowledgeSound(cfg, s, d, sent);
    case _ =>
  }

  lemma ResumedSound(cfg: Config, s: Session, d: Download, size: nat, connects: bool)
    requires Sound(cfg, s, d) && s.phase == WaitingForResumeAck && size < TWO64
    ensures var o := Resumed(s, d, size, connects); o.halted || Sound(cfg, o.session, o.download)
  {
  }

  // ----- the world -----

  /** Ids and contexts strictly decrease along the list. */
  predicate Decreasing(ss: seq<Session>, id: nat, ctx: nat)
    decreases |ss|
  {
    ss == [] || (ss[0].id < id && ss[0].ctx < ctx && Decreasing(ss[1..], ss[0].id, ss[0].ctx))
  }

  ghost predicate Inv(cfg: Config, w: World) {
    w.halted
    || (Decreasing(w.sessions, w.lastId, |w.downloads|)
        && (forall s :: s in w.sessions ==> s.ctx < |w.downloads| && Sound(cfg, s, w.downloads[s.ctx]))
        && (forall d :: d in w.downloads ==> FileSound(cfg, d))
        && w.finished == Closed(w.downloads))
  }

  lemma {:induction false} DecreasingIds(ss: seq<Session>, id: nat, ctx: nat)
    requires Decreasing(ss, id, ctx)
    ensures forall i :: 0 <= i < |ss| ==> ss[i].id < id && ss[i].ctx < ctx
    ensures forall i, j :: 0 <= i < j < |ss| ==> ss[i].id > ss[j].id && ss[i].ctx > ss[j].ctx
  {
    if ss != [] {
      DecreasingIds(ss[1..], ss[0].id, ss[0].ctx);
      forall i | 1 <= i < |ss| ensures ss[i] == ss[1..][i - 1] {
      }
    }
  }

  lemma {:induction false} DecreasingUpdate(ss: seq<Session>, id: nat, ctx: nat, i: nat, s: Session)
    requires Decreasing(ss, id, ctx) && i < |ss| && s.id == ss[i].id && s.ctx == ss[i].ctx
    ensures Decreasing(ss[i := s], id, ctx)
  {
    if i == 0 {
      assert ss[0 := s][1..] == ss[1..];
    } else {
      DecreasingUpdate(ss[1..], ss[0].id, ss[0].ctx, i - 1, s);
      assert ss[i := s][1..] == ss[1..][i - 1 := s];
    }
  }

  lemma DecreasingWeaken(ss: seq<Session>, id: nat, ctx: nat, id1: nat, ctx1: nat)
    requires Decreasing(ss, id, ctx) && id <= id1 && ctx <= ctx1
    ensures Decreasing(ss, id1, ctx1)
  {
  }

  /** The cleanup keeps exactly the sessions that are not removed, in their order. */
  lemma {:induction false} LiveIsFilter(ss: seq<Session>, id: nat, ctx: nat)
    ensures forall s :: s in Live(ss) <==> s in ss && s.phase != Removed
    ensures Decreasing(ss, id, ctx) ==> Decreasing(Live(ss), id, ctx)
  {
    if ss != [] {
      LiveIsFilter(ss[1..], ss[0].id, ss[0].ctx);
      if ss[0].phase == Removed && Decreasing(ss, id, ctx) {
        DecreasingWeaken(Live(ss[1..]), ss[0].id, ss[0].ctx, id, ctx);
      }
    }
  }

  lemma {:induction false} ClosedUpdate(ds: seq<Download>, k: nat, d: Download)
    requires k < |ds| && (ds[k].open || !d.open)
    ensures Closed(ds[k := d]) == Closed(ds) + if ds[k].open && !d.open then 1 else 0
    decreases |ds|
  {
    var n := |ds| - 1;
    if k < n {
      ClosedUpdate(ds[..n], k, d);
      assert ds[k := d][..n] == ds[..n][k := d];
    } else {
      assert ds[k := d][..n] == ds[..n];
    }
  }

  lemma {:induction false} ClosedBound(ds: seq<Download>)
    ensures Closed(ds) <= |ds|
    ensures Closed(ds) == |ds| <==> forall k :: 0 <= k < |ds| ==> !ds[k].open
    decreases |ds|
  {
    if ds != [] {
      var n := |ds| - 1;
      ClosedBound(ds[..n]);
      assert forall k :: 0 <= k < n ==> ds[..n][k] == ds[k];
    }
  }

  /** Nothing reopens a download or changes whose session it is. */
  lemma TurnKeeps(cfg: Config, s: Session, d: Download, io: Io)
    ensures var o := TurnOf(cfg, s, d, io);
            o.session.id == s.id && o.session.ctx == s.ctx && (o.download.open ==> d.open)
  {
  }

  lemma SoundFile(cfg: Config, s: Session, d: Download)
    requires Sound(cfg, s, d)
    ensures FileSound(cfg, d)
  {
  }

  lemma ApplyInv(cfg: Config, w: World, i: nat, o: Outcome)
    requires Inv(cfg, w) && !w.halted && HasDownload(w, i)
    requires o.session.id == w.sessions[i].id && o.session.ctx == w.sessions[i].ctx
    requires o.download.open ==> DownloadAt(w, i).open
    requires o.halted || Sound(cfg, o.session, o.download)
    ensures Inv(cfg, Apply(cfg, w, i, o))
  {
    hide Sound, Decreasing, Closed, FileSound;
    if !o.halted {
      var k := w.sessions[i].ctx;
      DecreasingIds(w.sessions, w.lastId, |w.downloads|);
      DecreasingUpdate(w.sessions, w.lastId, |w.downloads|, i, o.session);
      ClosedUpdate(w.downloads, k, o.download);
      SoundFile(cfg, o.session, o.download);
      var w' := Apply(cfg, w, i, o);
      forall s | s in w'.sessions ensures s.ctx < |w'.downloads| && Sound(cfg, s, w'.downloads[s.ctx]) {
        var j :| 0 <= j < |w'.sessions| && w'.sessions[j] == s;
        if j != i {
          assert s == w.sessions[j] && s in w.sessions;
        }
      }
    }
  }

  lemma TurnInv(cfg: Config, w: World, i: nat, io: Io)
    requires Inv(cfg, w)
    ensures Inv(cfg, TurnAt(cfg, w, i, io))
  {
    hide Sound, Decreasing, Closed, FileSound, TurnOf, Apply;
    if !w.halted && HasDownload(w, i) {
      assert w.sessions[i] in w.sessions;
      TurnSound(cfg, SessionAt(w, i), DownloadAt(w, i), io);
      TurnKeeps(cfg, SessionAt(w, i), DownloadAt(w, i), io);
      ApplyInv(cfg, w, i, TurnOf(cfg, SessionAt(w, i), DownloadAt(w, i), io));
    }
  }

  lemma RepliedInv(cfg: Config, w: World, port: nat, size: nat, connects: bool)
    requires Inv(cfg, w) && !w.halted && size < TWO64
    ensures Inv(cfg, Replied(cfg, w, port, size, connects))
  {
    hide Sound, Decreasing, Closed, FileSound, Apply;
    var i := FindPort(w.sessions, port);
    if HasDownload(w, i) && w.sessions[i].phase == WaitingForResumeAck {
      assert w.sessions[i] in w.sessions;
      ResumedSound(cfg, SessionAt(w, i), DownloadAt(w, i), size, connects);
      ApplyInv(cfg, w, i, Resumed(SessionAt(w, i), DownloadAt(w, i), size, connects));
    }
  }

  lemma NewDownloadSound(cfg: Config, s: Session, size: nat, content: seq<byte>, connects: bool)
    requires s.phase == Init && s.offset == 0 && size < TWO64 && (content != [] || connects)
    ensures var d := Download(size, 0, content, true, content, 0, []);
            FileSound(cfg, d) && Sound(cfg, Requested(s, size, content, connects), d)
  {
    Empty(content);
  }

  lemma ClosedSnoc(ds: seq<Download>, d: Download)
    ensures Closed(ds + [d]) == Closed(ds) + if d.open then 0 else 1
  {
    Snoc(ds, d);
  }

  lemma OfferedInv(cfg: Config, w: World, port: nat, size: nat, existing: Option<seq<byte>>, connects: bool)
    requires Inv(cfg, w) && !w.halted && size < TWO64
    ensures Inv(cfg, Offered(w, port, size, existing, connects))
  {
    hide Sound, Closed, FileSound;
    var w' := Offered(w, port, size, existing, connects);
    if !w'.halted {
      var content := if existing.Some? then existing.value else [];
      var s := Session(w.lastId, port, Init, 0, 0, NoCallback, |w.downloads|);
      NewDownloadSound(cfg, s, size, content, connects);
      ClosedSnoc(w.downloads, Download(size, 0, content, true, content, 0, []));
      assert w'.sessions[1..] == w.sessions;
      forall t | t in w.sessions ensures t.ctx < |w'.downloads| && Sound(cfg, t, w'.downloads[t.ctx]) {
        assert w'.downloads[t.ctx] == w.downloads[t.ctx];
      }
    }
  }

  /** Every step keeps the invariant. */
  lemma StepInv(cfg: Config, w: World, e: Event)
    requires Inv(cfg, w) && Legal(e)
    ensures Inv(cfg, Step(cfg, w, e))
  {
    hide Sound, Decreasing, Closed, FileSound, TurnAt, Offered, Replied;
    if !w.halted {
      match e
      case Offer(port, size, existing, connects) => OfferedInv(cfg, w, port, size, existing, connects);
      case AcceptReply(port, size, connects) => RepliedInv(cfg, w, port, size, connects);
      case Turn(id, io) => TurnInv(cfg, w, FindId(w.sessions, id), io);
      case Cleanup => LiveIsFilter(w.sessions, w.lastId, |w.downloads|);
    }
  }

  /** The invariant holds after every run. */
  lemma {:induction false} RunInv(cfg: Config, w: World, es: seq<Event>)
    requires Inv(cfg, w) && AllLegal(es)
    ensures Inv(cfg, Run(cfg, w, es))
    decreases |es|
  {
    hide Inv, Step, Legal;
    if es != [] {
      StepInv(cfg, w, es[0]);
      RunInv(cfg, Step(cfg, w, es[0]), es[1..]);
    }
  }

  lemma EmptyInv(cfg: Config)
    ensures Inv(cfg, EMPTY)
  {
  }

  // ----- what holds when the program exits, too -----

  predicate PairLevel(s: Session, d: Download) {
    s.offset == d.rcvd && d.file == d.before + Payload(d.log)
  }

  /** The counters of every session are equal and its file is what was received. */
  ghost predicate Level(w: World) {
    Decreasing(w.sessions, w.lastId, |w.downloads|)
    && forall s :: s in w.sessions ==> s.ctx < |w.downloads| && PairLevel(s, w.downloads[s.ctx])
  }

  lemma SoundLevel(cfg: Config, s: Session, d: Download)
    requires Sound(cfg, s, d)
    ensures PairLevel(s, d)
  {
  }

  lemma TurnLevel(cfg: Config, s: Session, d: Download, io: Io)
    requires Sound(cfg, s, d)
    ensures var o := TurnOf(cfg, s, d, io); PairLevel(o.session, o.download)
  {
    hide Orderly, Payload;
    var o := TurnOf(cfg, s, d, io);
    TurnSound(cfg, s, d, io);
    if !o.halted {
      SoundLevel(cfg, o.session, o.download);
    }
  }

  lemma ApplyLevel(cfg: Config, w: World, i: nat, o: Outcome)
    requires Level(w) && HasDownload(w, i) && PairLevel(o.session, o.download)
    requires o.session.id == w.sessions[i].id && o.session.ctx == w.sessions[i].ctx
    ensures Level(Apply(cfg, w, i, o))
  {
    hide PairLevel, Decreasing;
    DecreasingIds(w.sessions, w.lastId, |w.downloads|);
    DecreasingUpdate(w.sessions, w.lastId, |w.downloads|, i, o.session);
    var w' := Apply(cfg, w, i, o);
    forall s | s in w'.sessions ensures s.ctx < |w'.downloads| && PairLevel(s, w'.downloads[s.ctx]) {
      var j :| 0 <= j < |w'.sessions| && w'.sessions[j] == s;
      if j != i {
        assert s == w.sessions[j] && s in w.sessions;
      }
    }
  }

  lemma NewLevel(s: Session, size: nat, content: seq<byte>)
    requires s.offset == 0
    ensures PairLevel(s, Download(size, 0, content, true, content, 0, []))
  {
    Empty(content);
  }

  lemma OfferedLevel(w: World, port: nat, size: nat, existing: Option<seq<byte>>, connects: bool)
    requires Level(w)
    ensures Level(Offered(w, port, size, existing, connects))
  {
    hide PairLevel;
    var w' := Offered(w, port, size, existing, connects);
    var content := if existing.Some? then existing.value else [];
    var d := Download(size, 0, content, true, content, 0, []);
    assert w'.sessions[1..] == w.sessions;
    assert PairLevel(w'.sessions[0], d) by { NewLevel(w'.sessions[0], size, content); }
    forall s | s in w.sessions ensures s.ctx < |w'.downloads| && PairLevel(s, w'.downloads[s.ctx]) {
      assert w'.downloads[s.ctx] == w.downloads[s.ctx];
    }
  }

  lemma ResumedLevel(cfg: Config, s: Session, d: Download, size: nat, connects: bool)
    requires Sound(cfg, s, d) && s.phase == WaitingForResumeAck
    ensures var o := Resumed(s, d, size, connects);
            PairLevel(o.session, o.download) && o.session.id == s.id && o.session.ctx == s.ctx
  {
    hide Orderly, Payload;
  }

  lemma CleanupLevel(w: World)
    requires Level(w)
    ensures Level(w.(sessions := Live(w.sessions)))
  {
    hide PairLevel, Live, Decreasing;
    LiveIsFilter(w.sessions, w.lastId, |w.downloads|);
  }

  lemma StepLevel(cfg: Config, w: World, e: Event)
    requires Inv(cfg, w) && Level(w)
    ensures Level(Step(cfg, w, e))
  {
    hide Sound, Decreasing, Closed, FileSound, PairLevel, Level, TurnOf, Apply, Offered, Live;
    if !w.halted {
      match e
      case Offer(port, size, existing, connects) => OfferedLevel(w, port, size, existing, connects);
      case AcceptReply(port, size, connects) =>
        var i := FindPort(w.sessions, port);
        if HasDownload(w, i) && w.sessions[i].phase == WaitingForResumeAck {
          assert w.sessions[i] in w.sessions;
          ResumedLevel(cfg, SessionAt(w, i), DownloadAt(w, i), size, connects);
          ApplyLevel(cfg, w, i, Resumed(SessionAt(w, i), DownloadAt(w, i), size, connects));
        }
      case Turn(id, io) =>
        var i := FindId(w.sessions, id);
        if HasDownload(w, i) {
          assert w.sessions[i] in w.sessions;
          TurnLevel(cfg, SessionAt(w, i), DownloadAt(w, i), io);
          TurnKeeps(cfg, SessionAt(w, i), DownloadAt(w, i), io);
          ApplyLevel(cfg, w, i, TurnOf(cfg, SessionAt(w, i), DownloadAt(w, i), io));
        }
      case Cleanup => CleanupLevel(w);
    }
  }

  lemma {:induction false} RunLevel(cfg: Config, w: World, es: seq<Event>)
    requires Inv(cfg, w) && Level(w) && AllLegal(es)
    ensures Level(Run(cfg, w, es))
    decreases |es|
  {
    hide Inv, Level, Step, Legal;
    if es != [] {
      StepInv(cfg, w, es[0]);
      StepLevel(cfg, w, es[0]);
      RunLevel(cfg, Step(cfg, w, es[0]), es[1..]);
    }
  }
}
