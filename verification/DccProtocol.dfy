/** The life of DCC downloads (libircclient-src/dcc.c) with the callbacks that xdccget.c installs.

    A session is the library's record of one transfer, a download is the program's: each keeps its own byte
    counter. The world is both lists and the program's counters; what the sockets, the bots and the file
    system do is input to its steps.
  */
module DccProtocol {
  import opened LittleEndian
  import opened Options

  const TWO64: nat := 0x1_0000_0000_0000_0000

  function Mod64(n: nat): nat {
    n % TWO64
  }

  datatype Phase = Init | WaitingForResumeAck | Connecting | Connected | ConfirmSize | Removed

  /** The callback installed in a session. */
  datatype Callback = NoCallback | OnResume | OnReceive

  /** `ctx` is the index of the download the callback is given. */
  datatype Session =
    Session(id: nat, port: nat, phase: Phase, size: nat, offset: nat, callback: Callback, ctx: nat)

  /** What happened on the socket of a download. */
  datatype Action = Got(data: seq<byte>) | Acked(bytes: seq<byte>) | Done | Broken

  /** `before` is the file as it was opened, `start` the position the bot agreed to, `log` what happened on the
      socket since; the program keeps the other fields. */
  datatype Download =
    Download(size: nat, rcvd: nat, file: seq<byte>, open: bool, before: seq<byte>, start: nat, log: seq<Action>)

  datatype World =
    World(sessions: seq<Session>, lastId: nat, downloads: seq<Download>, finished: nat, quits: nat, halted: bool)

  const EMPTY := World([], 1, [], 0, 0, false)

  /** The flags: acknowledge offsets, verify checksums. */
  datatype Config = Config(confirm: bool, verify: bool)

  /** What `poll` and the socket call of one descriptor say. An error and a closed connection are treated
      alike; receiving or sending nothing means closed. */
  datatype Io = NotReady | Failed | Received(data: seq<byte>) | Writable(sent: nat)

  // ----- one session -----

  datatype Outcome = Outcome(session: Session, download: Download, halted: bool)

  /** The low 32 bits of the offset in network byte order. */
  function BigEndian32(n: nat): (r: seq<byte>)
    ensures |r| == 4
  {
    var e := EncodeLe(n, 4);
    [e[3], e[2], e[1], e[0]]
  }

  function First<T>(s: seq<T>, n: nat): seq<T> {
    if n <= |s| then s[..n] else s
  }

  /** `callback_dcc_recv_file` with data: count, write, and close when the announced size is there. A download
      that is closed has no file to write to. */
  function Deliver(d: Download, data: seq<byte>): Download {
    var d1 := d.(rcvd := Mod64(d.rcvd + |data|), file := d.file + data, log := d.log + [Got(data)]);
    if d1.rcvd == d1.size then d1.(open := false) else d1
  }

  /** `recv_dcc_file` on a plain socket. */
  function Recv(cfg: Config, s: Session, d: Download, data: seq<byte>): Outcome {
    if data == [] then Outcome(s.(phase := Removed), d.(log := d.log + [Broken]), false)
    else
      var s1 := s.(offset := Mod64(s.offset + |data|));
      if s.callback != OnReceive then Outcome(s1, d, true)
      else if !d.open then Outcome(s1, d.(rcvd := Mod64(d.rcvd + |data|)), true)
      else Outcome(s1.(phase := if cfg.confirm then ConfirmSize else Connected), Deliver(d, data), false)
  }

  /** `send_current_file_offset_to_sender` on a plain socket. */
  function Acknowledge(s: Session, d: Download, sent: nat): Outcome {
    if sent == 0 then Outcome(s, d, false)
    else
      var log := d.log + [Acked(First(BigEndian32(s.offset), sent))];
      if s.size == s.offset then Outcome(s.(phase := Removed), d.(log := log + [Done]), false)
      else Outcome(s.(phase := Connected), d.(log := log), false)
  }

  /** What `libirc_dcc_process_descriptors` does for one session. */
  function TurnOf(cfg: Config, s: Session, d: Download, io: Io): Outcome {
    match (s.phase, io)
    case (Connecting, Writable(_)) => Outcome(s.(phase := Connected), d, false)
    case (Connecting, Failed) => Outcome(s.(phase := Removed), d.(log := d.log + [Broken]), false)
    case (Connected, Received(data)) => Recv(cfg, s, d, data)
    case (Connected, Failed) => Recv(cfg, s, d, [])
    case (ConfirmSize, Writable(sent)) => Acknowledge(s, d, sent)
    case _ => Outcome(s, d, false)
  }

  /** The bot's answer to a resume request: go on at `size`, in the callback installed by the request. */
  function Resumed(s: Session, d: Download, size: nat, connects: bool): Outcome {
    if s.callback == OnResume then
      Outcome(s.(offset := size, callback := OnReceive, phase := if connects then Connecting else Removed),
              d.(rcvd := size, start := size), !connects)
    else Outcome(s.(offset := size, phase := Init), d, false)
  }

  // ----- the world -----

  datatype Event =
    | Offer(port: nat, size: nat, existing: Option<seq<byte>>, connects: bool)
    | AcceptReply(port: nat, size: nat, connects: bool)
    | Turn(id: nat, io: Io)
    | Cleanup

  /** The position of the session with an id, or the length of the list. */
  function FindId(ss: seq<Session>, id: nat): (i: nat)
    ensures i <= |ss|
    ensures i < |ss| ==> ss[i].id == id
    ensures forall j :: 0 <= j < i ==> ss[j].id != id
  {
    if ss == [] || ss[0].id == id then 0 else 1 + FindId(ss[1..], id)
  }

  /** The position of the first session with a port, or the length of the list. */
  function FindPort(ss: seq<Session>, port: nat): (i: nat)
    ensures i <= |ss|
    ensures i < |ss| ==> ss[i].port == port
    ensures forall j :: 0 <= j < i ==> ss[j].port != port
  {
    if ss == [] || ss[0].port == port then 0 else 1 + FindPort(ss[1..], port)
  }

  /** The list without the sessions that are marked as removed. */
  function Live(ss: seq<Session>): seq<Session> {
    if ss == [] then []
    else if ss[0].phase == Removed then Live(ss[1..])
    else [ss[0]] + Live(ss[1..])
  }

  function Closed(ds: seq<Download>): nat {
    if ds == [] then 0 else Closed(ds[..|ds| - 1]) + if ds[|ds| - 1].open then 0 else 1
  }

  predicate HasDownload(w: World, i: nat) {
    i < |w.sessions| && w.sessions[i].ctx < |w.downloads|
  }

  function SessionAt(w: World, i: nat): Session
    requires HasDownload(w, i)
  {
    w.sessions[i]
  }

  function DownloadAt(w: World, i: nat): Download
    requires HasDownload(w, i)
  {
    w.downloads[w.sessions[i].ctx]
  }

  /** Take over the outcome for session `i`. A download that has been closed just now is finished, and the last
      one to finish makes the program quit, unless checksums are to be verified. */
  function Apply(cfg: Config, w: World, i: nat, o: Outcome): World
    requires HasDownload(w, i)
  {
    var completed := DownloadAt(w, i).open && !o.download.open;
    var finished := w.finished + if completed then 1 else 0;
    World(w.sessions[i := o.session], w.lastId, w.downloads[w.sessions[i].ctx := o.download], finished,
          w.quits + if completed && !cfg.verify && finished == |w.downloads| then 1 else 0, o.halted)
  }

  function TurnAt(cfg: Config, w: World, i: nat, io: Io): World {
    if w.halted || !HasDownload(w, i) then w
    else Apply(cfg, w, i, TurnOf(cfg, SessionAt(w, i), DownloadAt(w, i), io))
  }

  /** `libirc_new_dcc_session` and `prepareRecvFileRequest`. */
  function Added(w: World, port: nat, size: nat, content: seq<byte>): World {
    w.(sessions := [Session(w.lastId, port, Init, 0, 0, NoCallback, |w.downloads|)] + w.sessions,
       lastId := w.lastId + 1,
       downloads := w.downloads + [Download(size, 0, content, true, content, 0, [])])
  }

  /** The new session in the phase that the request callback leaves it in. */
  function Requested(s: Session, size: nat, content: seq<byte>, connects: bool): Session {
    if content != [] then s.(phase := WaitingForResumeAck, callback := OnResume, size := size)
    else if connects then s.(phase := Connecting, callback := OnReceive, size := size)
    else s.(phase := Removed, callback := OnReceive)
  }

  /** `accept_dcc_send` with the callback `recvFileRequest`. The program exits for a file that is already there,
      and when it cannot connect. */
  function Offered(w: World, port: nat, size: nat, existing: Option<seq<byte>>, connects: bool): World {
    var content := if existing.Some? then existing.value else [];
    var added := Added(w, port, size, content);
    if existing.Some? && size == |content| then added.(halted := true)
    else
      added.(sessions := [Requested(added.sessions[0], size, content, connects)] + w.sessions,
             halted := content == [] && !connects)
  }

  /** The part of `libirc_dcc_request` for a bot's ACCEPT. */
  function Replied(cfg: Config, w: World, port: nat, size: nat, connects: bool): World {
    var i := FindPort(w.sessions, port);
    if HasDownload(w, i) && w.sessions[i].phase == WaitingForResumeAck
    then Apply(cfg, w, i, Resumed(SessionAt(w, i), DownloadAt(w, i), size, connects))
    else w
  }

  function Step(cfg: Config, w: World, e: Event): World {
    if w.halted then w
    else
      match e
      case Offer(port, size, existing, connects) => Offered(w, port, size, existing, connects)
      case AcceptReply(port, size, connects) => Replied(cfg, w, port, size, connects)
      case Turn(id, io) => TurnAt(cfg, w, FindId(w.sessions, id), io)
      case Cleanup => w.(sessions := Live(w.sessions))
  }

  /** Sizes are 64-bit numbers, and so are the lengths of files. */
  predicate Legal(e: Event) {
    match e
    case Offer(_, size, existing, _) => size < TWO64 && (existing.Some? ==> |existing.value| < TWO64)
    case AcceptReply(_, size, _) => size < TWO64
    case _ => true
  }

  function Run(cfg: Config, w: World, es: seq<Event>): World
    decreases |es|
  {
    if es == [] then w else Run(cfg, Step(cfg, w, es[0]), es[1..])
  }

  predicate AllLegal(es: seq<Event>) {
    forall i :: 0 <= i < |es| ==> Legal(es[i])
  }
}
