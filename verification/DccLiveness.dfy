/** A transfer that the bot carries through completes. */
module DccLiveness {
  import opened DccInvariants
  import opened DccProtocol
  import opened LittleEndian
  import opened Options
  import opened Sequences

  /** The bytes of all pieces, in order. */
  function Joined(pieces: seq<seq<byte>>): seq<byte> {
    if pieces == [] then [] else pieces[0] + Joined(pieces[1..])
  }

  /** No piece is empty. */
  predicate Pieces(pieces: seq<seq<byte>>) {
    forall i :: 0 <= i < |pieces| ==> pieces[i] != []
  }

  /** Each piece is read and then, when offsets are confirmed, acknowledged; `sents` are the bytes that the socket
      takes of the acknowledgements. */
  function Rounds(cfg: Config, id: nat, pieces: seq<seq<byte>>, sents: seq<nat>): seq<Event>
    requires |pieces| == |sents|
  {
    if pieces == [] then []
    else if cfg.confirm then
      [Turn(id, Received(pieces[0])), Turn(id, Writable(sents[0]))] + Rounds(cfg, id, pieces[1..], sents[1..])
    else [Turn(id, Received(pieces[0]))] + Rounds(cfg, id, pieces[1..], sents[1..])
  }

  predicate AllSent(sents: seq<nat>) {
    forall i :: 0 <= i < |sents| ==> sents[i] > 0
  }

  // ----- one session -----

  /** A session on its way and its download, at the same position and with the file open. */
  predicate OnTheWay(s: Session, d: Download) {
    s.phase == Connected && s.callback == OnReceive && d.open && s.offset == d.rcvd
    && s.size == d.size < 0x1_0000_0000_0000_0000
  }

  predicate SameSession(s: Session, t: Session) {
    s.id == t.id && s.ctx == t.ctx
  }

  /** What one piece makes of a session and its download when offsets are not confirmed: the session goes on
      reading, also behind the last piece. */
  lemma Piece(cfg: Config, s: Session, d: Download, data: seq<byte>)
    requires !cfg.confirm && OnTheWay(s, d) && data != [] && d.rcvd + |data| <= d.size
    ensures var o := TurnOf(cfg, s, d, Received(data));
            !o.halted && o.session == s.(offset := s.offset + |data|) && o.session.phase == Connected
            && o.download.open == (d.rcvd + |data| < d.size)
            && o.download.size == d.size && o.download.rcvd == d.rcvd + |data|
            && o.download.file == d.file + data && o.download.before == d.before
  {
  }

  /** What one round makes of a session and its download. */
  lemma Round(cfg: Config, s: Session, d: Download, data: seq<byte>, sent: nat)
    requires cfg.confirm && OnTheWay(s, d) && data != [] && sent > 0 && d.rcvd + |data| <= d.size
    ensures var o1 := TurnOf(cfg, s, d, Received(data));
            var o2 := TurnOf(cfg, o1.session, o1.download, Writable(sent));
            !o1.halted && !o2.halted && SameSession(s, o1.session) && SameSession(s, o2.session)
            && o1.download.open == o2.download.open == (d.rcvd + |data| < d.size)
            && o2.download.size == d.size && o2.download.rcvd == d.rcvd + |data|
            && o2.download.file == d.file + data && o2.download.before == d.before
            && (if d.rcvd + |data| == d.size then o2.session.phase == Removed
                else OnTheWay(o2.session, o2.download))
  {
    hide BigEndian32;
  }

  // ----- in the world -----

  /** The session with this id is in the list, together with its download, and the program runs. */
  predicate Found(w: World, id: nat) {
    !w.halted && HasDownload(w, FindId(w.sessions, id))
  }

  function SessionOf(w: World, id: nat): Session
    requires Found(w, id)
  {
    SessionAt(w, FindId(w.sessions, id))
  }

  function DownloadOf(w: World, id: nat): Download
    requires Found(w, id)
  {
    DownloadAt(w, FindId(w.sessions, id))
  }

  /** Only the session with this id and its download differ. */
  ghost predicate OthersSame(w: World, w': World, id: nat) {
    |w'.sessions| == |w.sessions| && |w'.downloads| == |w.downloads| && w'.lastId == w.lastId
    && Found(w, id) && Found(w', id)
    && FindId(w'.sessions, id) == FindId(w.sessions, id) && SameSession(SessionOf(w, id), SessionOf(w', id))
    && (forall j :: 0 <= j < |w.sessions| && j != FindId(w.sessions, id) ==> w'.sessions[j] == w.sessions[j])
    && (forall k :: 0 <= k < |w.downloads| && k != SessionOf(w, id).ctx ==> w'.downloads[k] == w.downloads[k])
  }

  lemma FindIdAfter(ss: seq<Session>, id: nat, s: Session)
    requires FindId(ss, id) < |ss| && s.id == id
    ensures FindId(ss[FindId(ss, id) := s], id) == FindId(ss, id)
  {
    var i := FindId(ss, id);
    var ts := ss[i := s];
    assert ts[i].id == id;
  }

  /** A turn of the session by its id. */
  lemma TurnInWorld(cfg: Config, w: World, id: nat, io: Io)
    requires Found(w, id)
    requires var o := TurnOf(cfg, SessionOf(w, id), DownloadOf(w, id), io);
             !o.halted && SameSession(SessionOf(w, id), o.session)
    ensures var o := TurnOf(cfg, SessionOf(w, id), DownloadOf(w, id), io);
            var w' := Step(cfg, w, Turn(id, io));
            OthersSame(w, w', id) && SessionOf(w', id) == o.session && DownloadOf(w', id) == o.download
            && w'.finished == w.finished + if DownloadOf(w, id).open && !o.download.open then 1 else 0
  {
    hide TurnOf, FindId;
    FindIdAfter(w.sessions, id, TurnOf(cfg, SessionOf(w, id), DownloadOf(w, id), io).session);
  }

  lemma OthersSameAgain(w: World, v: World, u: World, id: nat)
    requires OthersSame(w, v, id) && OthersSame(v, u, id)
    ensures OthersSame(w, u, id)
  {
    hide FindId;
  }

  /** The world after one round. */
  function AfterRound(cfg: Config, w: World, id: nat, data: seq<byte>, sent: nat): World {
    var v := Step(cfg, w, Turn(id, Received(data)));
    if cfg.confirm then Step(cfg, v, Turn(id, Writable(sent))) else v
  }

  /** One round in the world. */
  lemma RoundInWorld(cfg: Config, w: World, id: nat, data: seq<byte>, sent: nat)
    requires data != [] && (cfg.confirm ==> sent > 0)
    requires Found(w, id) && OnTheWay(SessionOf(w, id), DownloadOf(w, id))
    requires DownloadOf(w, id).rcvd + |data| <= DownloadOf(w, id).size
    ensures var w' := AfterRound(cfg, w, id, data, sent);
            var d := DownloadOf(w, id);
            OthersSame(w, w', id)
            && var d' := DownloadOf(w', id);
               d'.file == d.file + data && d'.size == d.size && d'.rcvd == d.rcvd + |data|
               && (if d'.rcvd == d.size then
                     SessionOf(w', id).phase == (if cfg.confirm then Removed else Connected)
                     && !d'.open && w'.finished == w.finished + 1
                   else OnTheWay(SessionOf(w', id), d') && w'.finished == w.finished)
  {
    hide TurnOf, Step, FindId;
    if cfg.confirm {
      Round(cfg, SessionOf(w, id), DownloadOf(w, id), data, sent);
      TurnInWorld(cfg, w, id, Received(data));
      var v := Step(cfg, w, Turn(id, Received(data)));
      TurnInWorld(cfg, v, id, Writable(sent));
      OthersSameAgain(w, v, Step(cfg, v, Turn(id, Writable(sent))), id);
    } else {
      Piece(cfg, SessionOf(w, id), DownloadOf(w, id), data);
      TurnInWorld(cfg, w, id, Received(data));
    }
  }

  lemma RunFirst(cfg: Config, w: World, a: Event, es: seq<Event>)
    ensures Run(cfg, w, [a] + es) == Run(cfg, Step(cfg, w, a), es)
  {
    hide Step;
    assert ([a] + es)[1..] == es;
  }

  lemma RunTwo(cfg: Config, w: World, a: Event, b: Event, es: seq<Event>)
    ensures Run(cfg, w, [a, b] + es) == Run(cfg, Step(cfg, Step(cfg, w, a), b), es)
  {
    hide Step;
    assert ([a, b] + es)[1..] == [b] + es && ([b] + es)[1..] == es;
  }

  lemma JoinedFirst(pieces: seq<seq<byte>>)
    requires pieces != []
    ensures Joined(pieces) == pieces[0] + Joined(pieces[1..])
    ensures |Joined(pieces)| == |pieces[0]| + |Joined(pieces[1..])|
  {
  }

  lemma FirstRound(cfg: Config, w: World, id: nat, pieces: seq<seq<byte>>, sents: seq<nat>)
    requires |pieces| == |sents| && pieces != []
    ensures Run(cfg, w, Rounds(cfg, id, pieces, sents))
         == Run(cfg, AfterRound(cfg, w, id, pieces[0], sents[0]), Rounds(cfg, id, pieces[1..], sents[1..]))
  {
    hide Step, Run;
    var rest := Rounds(cfg, id, pieces[1..], sents[1..]);
    RunTwo(cfg, w, Turn(id, Received(pieces[0])), Turn(id, Writable(sents[0])), rest);
    RunFirst(cfg, w, Turn(id, Received(pieces[0])), rest);
  }

  lemma OthersFound(w: World, v: World, id: nat)
    requires OthersSame(w, v, id)
    ensures Found(w, id) && Found(v, id)
  {
  }

  lemma NothingLeft(cfg: Config, w: World, id: nat, pieces: seq<seq<byte>>, sents: seq<nat>)
    requires |pieces| == |sents| == 0
    ensures Joined(pieces) == [] && Run(cfg, w, Rounds(cfg, id, pieces, sents)) == w
  {
  }

  lemma SomethingLeft(pieces: seq<seq<byte>>)
    requires pieces != [] && Pieces(pieces)
    ensures |Joined(pieces)| > 0
  {
  }

  /** A bot that sends the missing bytes, in whatever pieces, and when offsets are confirmed takes each
      acknowledgement, or a part of it: the transfer ends, the download is finished, and the file has got exactly
      these bytes. */
  lemma {:induction false} TransferCompletes(cfg: Config, w: World, id: nat, pieces: seq<seq<byte>>, sents: seq<nat>)
    requires Found(w, id) && OnTheWay(SessionOf(w, id), DownloadOf(w, id))
    requires pieces != [] && Pieces(pieces) && |sents| == |pieces| && (cfg.confirm ==> AllSent(sents))
    requires DownloadOf(w, id).rcvd + |Joined(pieces)| == DownloadOf(w, id).size
    ensures var w' := Run(cfg, w, Rounds(cfg, id, pieces, sents));
            OthersSame(w, w', id) && !DownloadOf(w', id).open
            && SessionOf(w', id).phase == (if cfg.confirm then Removed else Connected)
            && DownloadOf(w', id).file == DownloadOf(w, id).file + Joined(pieces)
            && DownloadOf(w', id).rcvd == DownloadOf(w, id).size
            && w'.finished == w.finished + 1
    decreases |pieces|
  {
    hide Step, FindId, Run, Rounds, Joined, OnTheWay, OthersSame, AfterRound;
    var data, more, sent := pieces[0], pieces[1..], sents[0];
    var v := AfterRound(cfg, w, id, data, sent);
    JoinedFirst(pieces);
    FirstRound(cfg, w, id, pieces, sents);
    RoundInWorld(cfg, w, id, data, sent);
    OthersFound(w, v, id);
    if more == [] {
      NothingLeft(cfg, v, id, more, sents[1..]);
      Empty(data);
    } else {
      SomethingLeft(more);
      TransferCompletes(cfg, v, id, more, sents[1..]);
      OthersSameAgain(w, v, Run(cfg, w, Rounds(cfg, id, pieces, sents)), id);
      Assoc(DownloadOf(w, id).file, data, Joined(more));
    }
  }

  // ----- from the offer on -----

  /** The events of a download of `size` bytes onto `existing`: the offer, the bot's reply when the file is to be
      resumed, the connection, and the rounds. */
  function Opening(w: World, port: nat, size: nat, existing: Option<seq<byte>>): seq<Event> {
    [Offer(port, size, existing, true)]
    + (if existing.Some? && existing.value != [] then [AcceptReply(port, |existing.value|, true)] else [])
    + [Turn(w.lastId, Writable(1))]
  }

  lemma RunOne(cfg: Config, w: World, e: Event)
    ensures Run(cfg, w, [e]) == Step(cfg, w, e)
  {
    hide Step;
    assert [e][1..] == [];
  }

  /** After the opening, the new session is on its way at the end of the file. */
  lemma OpeningLeads(cfg: Config, w: World, port: nat, size: nat, existing: Option<seq<byte>>)
    requires !w.halted && size < 0x1_0000_0000_0000_0000
    requires var content := if existing.Some? then existing.value else []; |content| < size
    ensures var content := if existing.Some? then existing.value else [];
            var w' := Run(cfg, w, Opening(w, port, size, existing));
            Found(w', w.lastId) && OnTheWay(SessionOf(w', w.lastId), DownloadOf(w', w.lastId))
            && DownloadOf(w', w.lastId).file == content && DownloadOf(w', w.lastId).rcvd == |content|
            && DownloadOf(w', w.lastId).size == size && w'.finished == w.finished
            && |w'.downloads| == |w.downloads| + 1 && SessionOf(w', w.lastId).ctx == |w.downloads|
            && FindId(w'.sessions, w.lastId) == 0
            && w'.sessions[1..] == w.sessions && w'.downloads[..|w.downloads|] == w.downloads
  {
    var content := if existing.Some? then existing.value else [];
    var id := w.lastId;
    var offer, turn := Offer(port, size, existing, true), Turn(id, Writable(1));
    var w1 := Step(cfg, w, offer);
    assert w1.sessions[0].id == id && w1.sessions[0].port == port && w1.sessions[0].ctx == |w.downloads|;
    assert Found(w1, id) && FindId(w1.sessions, id) == 0 && FindPort(w1.sessions, port) == 0;
    if content == [] {
      TurnInWorld(cfg, w1, id, Writable(1));
      assert Opening(w, port, size, existing) == [offer, turn] + [];
      RunTwo(cfg, w, offer, turn, []);
    } else {
      var reply := AcceptReply(port, |content|, true);
      var w2 := Step(cfg, w1, reply);
      assert w2 == Apply(cfg, w1, 0, Resumed(SessionAt(w1, 0), DownloadAt(w1, 0), |content|, true));
      assert Found(w2, id) && FindId(w2.sessions, id) == 0;
      TurnInWorld(cfg, w2, id, Writable(1));
      assert Opening(w, port, size, existing) == [offer, reply] + [turn];
      RunTwo(cfg, w, offer, reply, [turn]);
      RunOne(cfg, w2, turn);
    }
  }

  lemma {:induction false} RunAppend(cfg: Config, w: World, a: seq<Event>, b: seq<Event>)
    ensures Run(cfg, w, a + b) == Run(cfg, Run(cfg, w, a), b)
    decreases |a|
  {
    hide Step;
    if a == [] {
      Empty(b);
    } else {
      assert (a + b)[0] == a[0] && (a + b)[1..] == a[1..] + b;
      RunAppend(cfg, Step(cfg, w, a[0]), a[1..], b);
    }
  }

  /** What is beside a new session and its download. */
  lemma OthersBehind(w: World, v: World, u: World, id: nat)
    requires v.sessions != [] && v.sessions[1..] == w.sessions && |v.downloads| == |w.downloads| + 1
    requires v.downloads[..|w.downloads|] == w.downloads
    requires OthersSame(v, u, id) && FindId(v.sessions, id) == 0 && SessionOf(v, id).ctx == |w.downloads|
    ensures u.sessions != [] && |u.downloads| == |w.downloads| + 1
    ensures u.sessions[1..] == w.sessions && u.downloads[..|w.downloads|] == w.downloads
  {
    hide FindId;
  }

  /** A download completes from its offer on, beside whatever else is under way: from an empty or a missing file,
      or resumed at its end. The file is what was there and the pieces, and has the announced length. */
  lemma DownloadCompletes(cfg: Config, w: World, port: nat, size: nat, existing: Option<seq<byte>>,
                          pieces: seq<seq<byte>>, sents: seq<nat>)
    requires !w.halted && size < 0x1_0000_0000_0000_0000
    requires pieces != [] && Pieces(pieces) && |sents| == |pieces| && (cfg.confirm ==> AllSent(sents))
    requires var content := if existing.Some? then existing.value else []; |content| + |Joined(pieces)| == size
    ensures var content := if existing.Some? then existing.value else [];
            var w' := Run(cfg, w, Opening(w, port, size, existing) + Rounds(cfg, w.lastId, pieces, sents));
            Found(w', w.lastId) && !DownloadOf(w', w.lastId).open
            && SessionOf(w', w.lastId).phase == (if cfg.confirm then Removed else Connected)
            && DownloadOf(w', w.lastId).file == content + Joined(pieces) && |DownloadOf(w', w.lastId).file| == size
            && w'.finished == w.finished + 1 && |w'.downloads| == |w.downloads| + 1
            && w'.sessions[1..] == w.sessions && w'.downloads[..|w.downloads|] == w.downloads
  {
    hide Run, Opening, Rounds, Joined, FindId, OnTheWay;
    var content := if existing.Some? then existing.value else [];
    SomethingLeft(pieces);
    OpeningLeads(cfg, w, port, size, existing);
    var v := Run(cfg, w, Opening(w, port, size, existing));
    TransferCompletes(cfg, v, w.lastId, pieces, sents);
    OthersFound(v, Run(cfg, v, Rounds(cfg, w.lastId, pieces, sents)), w.lastId);
    OthersBehind(w, v, Run(cfg, v, Rounds(cfg, w.lastId, pieces, sents)), w.lastId);
    RunAppend(cfg, w, Opening(w, port, size, existing), Rounds(cfg, w.lastId, pieces, sents));
  }
}
