/** The session list and the program's counters as dcc.c and xdccget.c keep them: a linked list edited in place
    and records updated field by field. Each operation is proved to be a step of DccProtocol.
  */
module DccClient {
  import opened DccInvariants
  import opened DccProtocol
  import opened LittleEndian
  import opened Options
  import opened Sequences

  /** Ids are 32-bit numbers; the model ends where they would start again. */
  const MAX_ID := 0xFFFF_FFFF

  /** `irc_dcc_session_t`. */
  class Node {
    var next: Node?
    const id: nat
    const port: nat
    var phase: Phase
    var size: nat
    var offset: nat
    var callback: Callback
    var ctx: nat

    ghost function View(): Session
      reads `phase, `size, `offset, `callback, `ctx
    {
      Session(id, port, phase, size, offset, callback, ctx)
    }

    constructor (id: nat, port: nat, ctx: nat, next: Node?)
      ensures View() == Session(id, port, Init, 0, 0, NoCallback, ctx) && this.next == next
    {
      this.id, this.port, this.ctx, this.next := id, port, ctx, next;
      phase, size, offset, callback := Init, 0, 0, NoCallback;
    }
  }

  ghost function At(ns: seq<Node>, i: nat): Node? {
    if i < |ns| then ns[i] else null
  }

  ghost predicate Chained(ns: seq<Node>, head: Node?)
    reads ns`next
  {
    head == At(ns, 0) && forall i :: 0 <= i < |ns| ==> ns[i].next == At(ns, i + 1)
  }

  ghost predicate Distinct(ns: seq<Node>) {
    forall i, j :: 0 <= i < j < |ns| ==> ns[i] != ns[j]
  }

  ghost predicate Shows(ns: seq<Node>, view: seq<Session>)
    reads ns`phase, ns`size, ns`offset, ns`callback, ns`ctx
  {
    |view| == |ns| && forall i :: 0 <= i < |ns| ==> ns[i].View() == view[i]
  }

  lemma FindIdIs(ss: seq<Session>, id: nat, i: nat)
    requires i <= |ss| && (i < |ss| ==> ss[i].id == id) && forall j :: 0 <= j < i ==> ss[j].id != id
    ensures FindId(ss, id) == i
  {
  }

  lemma FindPortIs(ss: seq<Session>, port: nat, i: nat)
    requires i <= |ss| && (i < |ss| ==> ss[i].port == port) && forall j :: 0 <= j < i ==> ss[j].port != port
    ensures FindPort(ss, port) == i
  {
  }

  /** A sequence without the element at `i`. */
  function Without<T>(s: seq<T>, i: nat): (r: seq<T>)
    requires i < |s|
    ensures |r| == |s| - 1
    ensures forall j :: 0 <= j < |r| ==> r[j] == if j < i then s[j] else s[j + 1]
  {
    s[..i] + s[i + 1..]
  }

  /** The chain when the node at `i` is bypassed. */
  lemma ChainWithout(ns: seq<Node>, i: nat, head: Node?)
    requires i < |ns|
    requires forall j :: 0 <= j < |ns| ==> ns[j].next == if j + 1 == i then At(ns, i + 1) else At(ns, j + 1)
    requires head == if i == 0 then At(ns, 1) else At(ns, 0)
    ensures Chained(Without(ns, i), head)
  {
  }

  lemma DistinctWithout(ns: seq<Node>, i: nat)
    requires i < |ns| && Distinct(ns)
    ensures Distinct(Without(ns, i))
  {
  }

  lemma ShowsWithout(ns: seq<Node>, view: seq<Session>, i: nat)
    requires i < |ns| && Shows(ns, view)
    ensures Shows(Without(ns, i), Without(view, i))
  {
  }

  /** A session in which `irc_dcc_accept` has installed the receiving callback. */
  function Accepted(s: Session, ctx: nat, connects: bool): Session {
    s.(callback := OnReceive, ctx := ctx, phase := if connects then Connecting else Removed)
  }

  lemma FindIdSame(ss: seq<Session>, id: nat, i: nat, s: Session)
    requires i == FindId(ss, id) && i < |ss| && s.id == id
    ensures FindId(ss[i := s], id) == i
  {
    FindIdIs(ss[i := s], id, i);
  }

  lemma OfferWorld(w: World, w': World, port: nat, size: nat, existing: Option<seq<byte>>, connects: bool)
    requires !w.halted
    requires w'.lastId == w.lastId + 1 && w'.finished == w.finished && w'.quits == w.quits
    requires var content := if existing.Some? then existing.value else [];
             var s := Session(w.lastId, port, Init, 0, 0, NoCallback, |w.downloads|);
             w'.downloads == w.downloads + [Download(size, 0, content, true, content, 0, [])]
             && |w'.sessions| == |w.sessions| + 1 && w'.sessions[1..] == w.sessions
             && (if existing.Some? && size == |content| then w'.halted && w'.sessions[0] == s
                 else if content != [] then
                   !w'.halted
                   && w'.sessions[0] == s.(callback := OnResume, phase := WaitingForResumeAck, size := size)
                 else w'.halted == !connects
                      && w'.sessions[0] == Accepted(s, |w.downloads|, connects).(size := if connects then size else 0))
    ensures w' == Offered(w, port, size, existing, connects)
  {
    assert w'.sessions == [w'.sessions[0]] + w'.sessions[1..];
  }

  lemma ReplyIgnored(cfg: Config, w: World, port: nat, size: nat, connects: bool)
    requires var i := FindPort(w.sessions, port);
             !w.halted && (i < |w.sessions| ==> w.sessions[i].phase != WaitingForResumeAck)
    ensures Step(cfg, w, AcceptReply(port, size, connects)) == w
  {
  }

  /** A session that waits has its download, and its id finds it. */
  lemma WaitingSession(cfg: Config, w: World, i: nat)
    requires Inv(cfg, w) && !w.halted && i < |w.sessions|
    ensures HasDownload(w, i) && FindId(w.sessions, w.sessions[i].id) == i
    ensures w.sessions[i].phase == WaitingForResumeAck ==> w.sessions[i].callback == OnResume
  {
    hide FindId, Decreasing, FileSound, Closed;
    DecreasingIds(w.sessions, w.lastId, |w.downloads|);
    FindIdIs(w.sessions, w.sessions[i].id, i);
    assert w.sessions[i] in w.sessions;
  }

  lemma UpdateTwice<T>(s: seq<T>, i: nat, a: T, b: T)
    requires i < |s|
    ensures s[i := a][i := b] == s[i := b] && s[i := s[i]] == s
  {
  }

  lemma ReplyWorld(cfg: Config, w: World, w': World, port: nat, size: nat, connects: bool)
    requires var i := FindPort(w.sessions, port);
             !w.halted && HasDownload(w, i) && w.sessions[i].phase == WaitingForResumeAck
             && w.sessions[i].callback == OnResume
             && w'.sessions == w.sessions[i := Accepted(w.sessions[i].(phase := Init, offset := size),
                                                        w.sessions[i].ctx, connects)]
             && w'.downloads == w.downloads[w.sessions[i].ctx := DownloadAt(w, i).(rcvd := size, start := size)]
             && w'.lastId == w.lastId && w'.finished == w.finished && w'.quits == w.quits && w'.halted == !connects
    ensures w' == Step(cfg, w, AcceptReply(port, size, connects))
  {
    hide FindPort;
  }

  lemma SameDownload(cfg: Config, w: World, i: nat, s: Session)
    requires HasDownload(w, i) && !w.halted
    ensures Apply(cfg, w, i, Outcome(s, DownloadAt(w, i), false)) == w.(sessions := w.sessions[i := s])
  {
    UpdateTwice(w.downloads, w.sessions[i].ctx, DownloadAt(w, i), DownloadAt(w, i));
  }

  lemma SameOpen(cfg: Config, w: World, i: nat, s: Session, log: seq<Action>)
    requires HasDownload(w, i) && !w.halted
    ensures Apply(cfg, w, i, Outcome(s, DownloadAt(w, i).(log := log), false))
         == w.(sessions := w.sessions[i := s], downloads := w.downloads[w.sessions[i].ctx := DownloadAt(w, i).(log := log)])
  {
  }

  lemma NothingHappens(cfg: Config, w: World, i: nat)
    requires HasDownload(w, i) && !w.halted
    ensures Apply(cfg, w, i, Outcome(SessionAt(w, i), DownloadAt(w, i), false)) == w
  {
    UpdateTwice(w.sessions, i, w.sessions[i], w.sessions[i]);
    UpdateTwice(w.downloads, w.sessions[i].ctx, DownloadAt(w, i), DownloadAt(w, i));
  }

  lemma TurnLength(cfg: Config, w: World, i: nat, io: Io)
    ensures var w' := TurnAt(cfg, w, i, io);
            |w'.sessions| == |w.sessions| && forall j :: 0 <= j < |w.sessions| ==> w'.sessions[j].id == w.sessions[j].id
  {
    hide BigEndian32, Deliver;
  }

  function Pass(cfg: Config, w: World, ios: nat -> Io, i: nat): World
    decreases |w.sessions| - i
  {
    if i >= |w.sessions| || w.halted then w
    else
      TurnLength(cfg, w, i, ios(w.sessions[i].id));
      Pass(cfg, TurnAt(cfg, w, i, ios(w.sessions[i].id)), ios, i + 1)
  }

  lemma OneTurnOfPass(cfg: Config, w: World, ios: nat -> Io, i: nat)
    requires i < |w.sessions| && !w.halted
    ensures Pass(cfg, w, ios, i) == Pass(cfg, TurnAt(cfg, w, i, ios(w.sessions[i].id)), ios, i + 1)
  {
    hide TurnAt;
  }

  lemma EndOfPass(cfg: Config, w: World, ios: nat -> Io, i: nat)
    requires i >= |w.sessions| || w.halted
    ensures Pass(cfg, w, ios, i) == w
  {
  }

  ghost predicate Within(ns: seq<Node>, all: seq<Node>) {
    forall n :: n in ns ==> n in all
  }

  lemma WithinMeans(ns: seq<Node>, all: seq<Node>)
    requires Within(ns, all)
    ensures forall n :: n in ns ==> n in all
    ensures forall i :: 0 <= i < |ns| ==> ns[i] in all
  {
  }

  lemma WithoutFacts(ns: seq<Node>, i: nat, all: seq<Node>)
    requires i < |ns| && Within(ns, all)
    ensures Within(Without(ns, i), all)
    ensures |Without(ns, i)| == |ns| - 1 && At(Without(ns, i), i) == At(ns, i + 1)
  {
  }

  /** The first `m` sessions of `all` have been looked at, and the `k` of them that live are in front. */
  ghost predicate Cleaning(all: seq<Session>, now: seq<Session>, k: nat, m: nat) {
    m <= |all| && k == |Live(all[..m])| && now == Live(all[..m]) + all[m..]
  }

  lemma NothingCleaned(all: seq<Session>)
    ensures Cleaning(all, all, 0, 0)
  {
    assert all[..0] == [] && all[0..] == all && [] + all == all;
  }

  lemma WithinItself(ns: seq<Node>)
    ensures Within(ns, ns)
  {
  }

  lemma {:induction false} LiveSnoc(ss: seq<Session>, s: Session)
    ensures Live(ss + [s]) == Live(ss) + if s.phase == Removed then [] else [s]
  {
    if ss == [] {
      assert [] + [s] == [s] && [s][1..] == [];
    } else {
      assert (ss + [s])[1..] == ss[1..] + [s];
      LiveSnoc(ss[1..], s);
    }
  }

  lemma MiddleOut<T>(s: seq<T>, m: nat)
    requires m < |s|
    ensures s[..m] + [s[m]] == s[..m + 1] && s[m..] == [s[m]] + s[m + 1..]
  {
  }

  lemma DropMiddle<T>(a: seq<T>, x: T, b: seq<T>)
    ensures Without(a + ([x] + b), |a|) == a + b
  {
  }

  lemma CleanedOne(all: seq<Session>, now: seq<Session>, k: nat, m: nat)
    requires Cleaning(all, now, k, m) && k < |now|
    ensures m < |all| && now[k] == all[m]
    ensures if now[k].phase == Removed then Cleaning(all, Without(now, k), k, m + 1)
            else Cleaning(all, now, k + 1, m + 1)
  {
    hide Live, Without;
    var front := Live(all[..m]);
    LiveSnoc(all[..m], all[m]);
    Split(all, m);
    MiddleOut(all, m);
    if now[k].phase == Removed {
      Empty(front);
      DropMiddle(front, all[m], all[m + 1..]);
    } else {
      Assoc(front, [all[m]], all[m + 1..]);
    }
  }

  lemma AllCleaned(all: seq<Session>, now: seq<Session>, k: nat, m: nat)
    requires Cleaning(all, now, k, m) && k >= |now|
    ensures now == Live(all)
  {
    assert m == |all| && all[..m] == all && all[m..] == [];
  }

  lemma PrependChained(n: Node, ns: seq<Node>, head: Node?)
    requires Chained(ns, head) && n.next == head
    ensures Chained([n] + ns, n)
  {
    var all := [n] + ns;
    forall i | 0 <= i < |all| ensures all[i].next == At(all, i + 1) {
      if i > 0 {
        assert ns[i - 1].next == At(ns, i);
      }
    }
  }

  lemma PrependDistinct(n: Node, ns: seq<Node>)
    requires Distinct(ns) && n !in ns
    ensures Distinct([n] + ns)
  {
  }

  lemma PrependShows(n: Node, ns: seq<Node>, view: seq<Session>)
    requires Shows(ns, view)
    ensures Shows([n] + ns, [n.View()] + view)
  {
  }

  /** A new node in front of a list. */
  lemma PrependNode(n: Node, ns: seq<Node>, view: seq<Session>, head: Node?)
    requires Chained(ns, head) && Distinct(ns) && Shows(ns, view) && n !in ns && n.next == head
    ensures Chained([n] + ns, n) && Distinct([n] + ns) && Shows([n] + ns, [n.View()] + view)
  {
    hide Chained, Distinct, Shows;
    PrependChained(n, ns, head);
    PrependDistinct(n, ns);
    PrependShows(n, ns, view);
  }

  class Client {
    const cfg: Config

    var head: Node?
    var lastId: nat
    var downloads: seq<Download>
    var started: nat
    var finished: nat
    /** How often a QUIT was sent, and whether the program has exited. */
    var quits: nat
    var exited: bool

    /** The nodes of the list, and what is in them. */
    ghost var nodes: seq<Node>
    ghost var view: seq<Session>

    /** The list is linked in the order of `nodes`, and `view` is what the nodes hold. */
    ghost predicate Linked()
      reads `head, `nodes, `view, nodes
    {
      Chained(nodes, head) && Distinct(nodes) && Shows(nodes, view)
    }

    ghost function World(): World
      reads `view, `lastId, `downloads, `finished, `quits, `exited
    {
      DccProtocol.World(view, lastId, downloads, finished, quits, exited)
    }

    ghost predicate Valid()
      reads this, nodes
    {
      Linked() && started == |downloads| && Inv(cfg, World())
    }

    constructor (cfg: Config)
      ensures Valid() && World() == EMPTY && this.cfg == cfg
    {
      this.cfg := cfg;
      head, lastId, downloads, started, finished, quits, exited := null, 1, [], 0, 0, 0, false;
      nodes, view := [], [];
    }

    lemma LinkedLength()
      requires Linked()
      ensures |view| == |nodes|
    {
    }

    // ----- looking up -----

    /** `libirc_find_dcc_session`. */
    method FindSession(id: nat) returns (found: Node?, ghost i: nat)
      requires Linked()
      ensures i == FindId(view, id) && found == At(nodes, FindId(view, id))
      ensures found == null <==> i == |view|
      ensures found != null ==> i < |nodes| && found.View() == view[i]
    {
      var s := head;
      i := 0;
      while s != null
        invariant i <= |nodes| && s == At(nodes, i)
        invariant forall j :: 0 <= j < i ==> view[j].id != id
        decreases |nodes| - i
      {
        if s.id == id {
          FindIdIs(view, id, i);
          return s, i;
        }
        s := s.next;
        i := i + 1;
      }
      FindIdIs(view, id, i);
      return null, i;
    }

    /** `libirc_find_dcc_session_by_port`. */
    method FindSessionByPort(port: nat) returns (found: Node?, ghost i: nat)
      requires Linked()
      ensures i == FindPort(view, port) && found == At(nodes, FindPort(view, port))
      ensures found == null <==> i == |view|
      ensures found != null ==> i < |nodes| && found.View() == view[i]
    {
      var s := head;
      i := 0;
      while s != null
        invariant i <= |nodes| && s == At(nodes, i)
        invariant forall j :: 0 <= j < i ==> view[j].port != port
        decreases |nodes| - i
      {
        if s.port == port {
          FindPortIs(view, port, i);
          return s, i;
        }
        s := s.next;
        i := i + 1;
      }
      FindPortIs(view, port, i);
      return null, i;
    }

    // ----- changing the list -----

    /** `libirc_new_dcc_session`: the newest session is the first of the list. */
    method NewSession(port: nat, ctx: nat) returns (dcc: Node)
      requires Linked() && lastId < MAX_ID
      modifies `head, `lastId, `nodes, `view
      ensures Linked() && fresh(dcc) && nodes == [dcc] + old(nodes)
      ensures dcc.id == old(lastId) && lastId == old(lastId) + 1
      ensures view == [Session(old(lastId), port, Init, 0, 0, NoCallback, ctx)] + old(view)
    {
      hide Chained, Distinct, Shows;
      dcc := new Node(lastId, port, ctx, head);
      lastId := lastId + 1;
      PrependNode(dcc, nodes, view, head);
      head := dcc;
      nodes := [dcc] + nodes;
      view := [dcc.View()] + view;
    }

    // Writing to the fields of a session in the list.

    ghost predicate Holds(dcc: Node, i: nat)
      reads `nodes, `view
    {
      i < |nodes| == |view| && nodes[i] == dcc
    }

    method SetPhase(dcc: Node, ghost i: nat, phase: Phase)
      requires Linked() && Holds(dcc, i)
      modifies `view, dcc`phase
      ensures Linked() && view == old(view)[i := old(view)[i].(phase := phase)] && dcc.View() == view[i]
    {
      hide Chained;
      dcc.phase := phase;
      view := view[i := dcc.View()];
    }

    method SetSize(dcc: Node, ghost i: nat, size: nat)
      requires Linked() && Holds(dcc, i)
      modifies `view, dcc`size
      ensures Linked() && view == old(view)[i := old(view)[i].(size := size)] && dcc.View() == view[i]
    {
      hide Chained;
      dcc.size := size;
      view := view[i := dcc.View()];
    }

    method SetOffset(dcc: Node, ghost i: nat, offset: nat)
      requires Linked() && Holds(dcc, i)
      modifies `view, dcc`offset
      ensures Linked() && view == old(view)[i := old(view)[i].(offset := offset)] && dcc.View() == view[i]
    {
      hide Chained;
      dcc.offset := offset;
      view := view[i := dcc.View()];
    }

    method Install(dcc: Node, ghost i: nat, callback: Callback, ctx: nat)
      requires Linked() && Holds(dcc, i)
      modifies `view, dcc`callback, dcc`ctx
      ensures Linked() && view == old(view)[i := old(view)[i].(callback := callback, ctx := ctx)]
      ensures dcc.View() == view[i]
    {
      hide Chained;
      dcc.callback := callback;
      dcc.ctx := ctx;
      view := view[i := dcc.View()];
    }

    /** `libirc_dcc_destroy_nolock`: only marks the session. */
    method Destroy(id: nat)
      requires Linked()
      modifies `view, nodes`phase
      ensures Linked()
      ensures var i := FindId(old(view), id);
              view == if i < |old(view)| then old(view)[i := old(view)[i].(phase := Removed)] else old(view)
    {
      hide FindId;
      var dcc, i := FindSession(id);
      if dcc == null {
        return;
      }
      SetPhase(dcc, i, Removed);
    }

    /** The session in front of `dcc`, which is at place `i`. */
    method Predecessor(dcc: Node, ghost i: nat) returns (s: Node)
      requires Linked() && 0 < i < |nodes| && nodes[i] == dcc
      ensures s == nodes[i - 1]
    {
      var t := head;
      ghost var k := 0;
      while t != null && t.next != dcc
        invariant k < i && t == At(nodes, k)
        decreases |nodes| - k
      {
        t := t.next;
        k := k + 1;
      }
      return t;
    }

    /** Lead the pointer to `dcc` past it. */
    method Bypass(dcc: Node, ghost i: nat)
      requires Linked() && i < |nodes| && nodes[i] == dcc
      modifies `head, nodes
      ensures head == if i == 0 then At(nodes, 1) else At(nodes, 0)
      ensures forall j :: 0 <= j < |nodes| ==>
                nodes[j].next == if j + 1 == i then At(nodes, i + 1) else At(nodes, j + 1)
      ensures Shows(nodes, view)
    {
      if head != dcc {
        var s := Predecessor(dcc, i);
        s.next := dcc.next;
      } else {
        head := dcc.next;
      }
    }

    /** `libirc_remove_dcc_session`: unlink the session, which is at place `i`. */
    method RemoveSession(dcc: Node, ghost i: nat)
      requires Linked() && i < |nodes| && nodes[i] == dcc
      modifies `head, `nodes, `view, nodes
      ensures Linked()
      ensures nodes == Without(old(nodes), i) && view == Without(old(view), i)
    {
      hide Chained, Distinct, Shows, Without;
      Bypass(dcc, i);
      ChainWithout(nodes, i, head);
      DistinctWithout(nodes, i);
      ShowsWithout(nodes, view, i);
      nodes := Without(nodes, i);
      view := Without(view, i);
    }

    // ----- starting a transfer -----

    /** `irc_dcc_accept` with `callback_dcc_recv_file`. */
    method Accept(id: nat, ctx: nat, connects: bool) returns (ret: int)
      requires Linked()
      modifies `view, nodes`phase, nodes`callback, nodes`ctx
      ensures Linked()
      ensures var i := FindId(old(view), id);
              if i == |old(view)| || old(view)[i].phase != Init then ret == 1 && view == old(view)
              else ret == (if connects then 0 else 1) && view == old(view)[i := Accepted(old(view)[i], ctx, connects)]
    {
      hide FindId, Chained, Distinct, Shows;
      var dcc, i := FindSession(id);
      if dcc == null || dcc.phase != Init {
        return 1;
      }
      LinkedLength();
      Install(dcc, i, OnReceive, ctx);
      FindIdSame(old(view), id, i, view[i]);
      if !connects {
        Destroy(id);
        return 1;
      }
      SetPhase(dcc, i, Connecting);
      return 0;
    }

    /** `irc_dcc_resume` with `callback_dcc_resume_file`. */
    method Resume(id: nat, ctx: nat) returns (ret: int)
      requires Linked()
      modifies `view, nodes`phase, nodes`callback, nodes`ctx
      ensures Linked()
      ensures var i := FindId(old(view), id);
              if i == |old(view)| || old(view)[i].phase != Init then ret == 1 && view == old(view)
              else ret == 0 && view == old(view)[i := old(view)[i].(callback := OnResume, ctx := ctx,
                                                                    phase := WaitingForResumeAck)]
    {
      hide FindId, Chained, Distinct, Shows;
      var dcc, i := FindSession(id);
      if dcc == null || dcc.phase != Init {
        return 1;
      }
      LinkedLength();
      Install(dcc, i, OnResume, ctx);
      SetPhase(dcc, i, WaitingForResumeAck);
      return 0;
    }

    /** `recvFileRequest` behind the preparation: the program exits when it cannot go on. */
    method RecvFileRequest(id: nat, ctx: nat, size: nat, existing: Option<seq<byte>>, connects: bool)
      requires Linked() && view != [] && view[0].id == id && view[0].phase == Init && view[0].ctx == ctx
      requires !exited
      modifies `view, `exited, nodes`phase, nodes`callback, nodes`ctx
      ensures Linked()
      ensures var content := if existing.Some? then existing.value else [];
              if existing.Some? && size == |content| then exited && view == old(view)
              else if content != [] then
                !exited && view == old(view)[0 := old(view)[0].(callback := OnResume, phase := WaitingForResumeAck)]
              else exited == !connects && view == old(view)[0 := Accepted(old(view)[0], ctx, connects)]
    {
      hide FindId, Chained, Distinct, Shows;
      FindIdIs(view, id, 0);
      var ret;
      if existing.Some? {
        if size == |existing.value| {
          exited := true;
          return;
        }
        if |existing.value| == 0 {
          ret := Accept(id, ctx, connects);
        } else {
          ret := Resume(id, ctx);
        }
      } else {
        ret := Accept(id, ctx, connects);
      }
      if ret != 0 {
        exited := true;
      }
    }

    /** `accept_dcc_send`: a new session and a new download, the request callback, and then the announced size,
        unless the callback made the program exit. */
    method AcceptDccSend(port: nat, size: nat, existing: Option<seq<byte>>, connects: bool)
      requires Valid() && !exited && lastId < MAX_ID && Legal(Offer(port, size, existing, connects))
      modifies this, nodes
      ensures Valid() && World() == Step(cfg, old(World()), Offer(port, size, existing, connects))
    {
      hide Inv, FindId, Chained, Distinct, Shows, Offered;
      ghost var w := World();
      var content := if existing.Some? then existing.value else [];
      var dcc := NewSession(port, started);
      downloads := downloads + [Download(size, 0, content, true, content, 0, [])];
      started := started + 1;
      RecvFileRequest(dcc.id, started - 1, size, existing, connects);
      if !exited {
        LinkedLength();
        SetSize(dcc, 0, size);
      }
      OfferWorld(w, World(), port, size, existing, connects);
      StepInv(cfg, w, Offer(port, size, existing, connects));
    }

    /** `callback_dcc_resume_file`. */
    method ResumeCallback(id: nat, ctx: nat, length: nat, connects: bool)
      requires Linked() && !exited && ctx < |downloads|
      requires FindId(view, id) < |view| && view[FindId(view, id)].phase == Init
      modifies `view, `downloads, `exited, nodes`phase, nodes`callback, nodes`ctx
      ensures Linked() && exited == !connects
      ensures downloads == old(downloads)[ctx := old(downloads)[ctx].(rcvd := length, start := length)]
      ensures var i := FindId(old(view), id); view == old(view)[i := Accepted(old(view)[i], ctx, connects)]
    {
      hide FindId, Chained, Distinct, Shows;
      downloads := downloads[ctx := downloads[ctx].(rcvd := length, start := length)];
      var ret := Accept(id, ctx, connects);
      if ret != 0 {
        exited := true;
      }
    }

    /** The part of `libirc_dcc_request` for an ACCEPT. */
    method DccAccept(port: nat, size: nat, connects: bool)
      requires Valid() && !exited && Legal(AcceptReply(port, size, connects))
      modifies this, nodes
      ensures Valid() && World() == Step(cfg, old(World()), AcceptReply(port, size, connects))
    {
      hide Inv, FindId, FindPort, Chained, Distinct, Shows, Apply;
      ghost var w := World();
      var dcc, i := FindSessionByPort(port);
      if dcc == null || dcc.phase != WaitingForResumeAck {
        ReplyIgnored(cfg, w, port, size, connects);
        return;
      }
      LinkedLength();
      WaitingSession(cfg, w, i);
      SetPhase(dcc, i, Init);
      UpdateTwice(w.sessions, i, view[i], view[i].(offset := size));
      SetOffset(dcc, i, size);
      FindIdSame(w.sessions, dcc.id, i, view[i]);
      if dcc.callback == OnResume {
        ResumeCallback(dcc.id, dcc.ctx, size, connects);
      }
      ReplyWorld(cfg, w, World(), port, size, connects);
      StepInv(cfg, w, AcceptReply(port, size, connects));
    }

    // ----- transferring -----

    /** `callback_dcc_recv_file` with data. */
    method ReceiveCallback(ctx: nat, data: seq<byte>)
      requires ctx < |downloads| == started && !exited
      modifies `downloads, `finished, `quits, `exited
      ensures var d := old(downloads)[ctx];
              if !d.open then
                exited && downloads == old(downloads)[ctx := d.(rcvd := Mod64(d.rcvd + |data|))]
                && finished == old(finished) && quits == old(quits)
              else
                !exited && downloads == old(downloads)[ctx := Deliver(d, data)]
                && finished == old(finished) + (if Deliver(d, data).open then 0 else 1)
                && quits == old(quits) + if finished > old(finished) && !cfg.verify && finished == |downloads|
                                         then 1 else 0
    {
      var d := downloads[ctx];
      d := d.(rcvd := Mod64(d.rcvd + |data|));
      if !d.open {
        downloads := downloads[ctx := d];
        exited := true;
        return;
      }
      d := d.(file := d.file + data, log := d.log + [Got(data)]);
      if d.rcvd == d.size {
        d := d.(open := false);
        finished := finished + 1;
        if !cfg.verify {
          if finished == started {
            quits := quits + 1;
          }
        }
      }
      downloads := downloads[ctx := d];
    }

    lemma NodeIs(dcc: Node, i: nat)
      requires Linked() && Holds(dcc, i)
      ensures dcc.View() == view[i] && dcc in nodes
    {
    }

    /** Keep the record of what the socket did. */
    method Note(ctx: nat, a: Action)
      requires ctx < |downloads|
      modifies `downloads
      ensures downloads == old(downloads)[ctx := old(downloads)[ctx].(log := old(downloads)[ctx].log + [a])]
    {
      downloads := downloads[ctx := downloads[ctx].(log := downloads[ctx].log + [a])];
    }

    /** `recv_dcc_file` on a plain socket; no data stands for an error or a closed connection. */
    method RecvFile(dcc: Node, ghost i: nat, data: seq<byte>)
      requires Valid() && !exited && Holds(dcc, i) && view[i].phase == Connected
      modifies this, nodes
      ensures Linked() && started == |downloads| && nodes == old(nodes)
      ensures HasDownload(old(World()), i)
           && World() == Apply(cfg, old(World()), i,
                               Recv(cfg, old(view)[i], DownloadAt(old(World()), i), data))
    {
      hide Inv, FindId, Chained, Distinct, Shows;
      ghost var w := World();
      WaitingSession(cfg, w, i);
      NodeIs(dcc, i);
      if |data| > 0 {
        SetOffset(dcc, i, Mod64(dcc.offset + |data|));
        if dcc.callback != OnReceive {
          exited := true;
          return;
        }
        ReceiveCallback(dcc.ctx, data);
        if exited {
          return;
        }
        if cfg.confirm {
          SetPhase(dcc, i, ConfirmSize);
        } else {
          SetPhase(dcc, i, Connected);
        }
      } else {
        Note(dcc.ctx, Broken);
        Destroy(dcc.id);
      }
    }

    /** `send_current_file_offset_to_sender` on a plain socket that takes `sent` bytes; none stands for an error
        or a closed connection, which the code only reports. */
    method SendOffset(dcc: Node, ghost i: nat, sent: nat)
      requires Valid() && !exited && Holds(dcc, i)
      modifies this, nodes
      ensures Linked() && started == |downloads| && nodes == old(nodes)
      ensures HasDownload(old(World()), i)
           && World() == Apply(cfg, old(World()), i,
                               Acknowledge(old(view)[i], DownloadAt(old(World()), i), sent))
    {
      hide Inv, FindId, Chained, Distinct, Shows;
      ghost var w := World();
      WaitingSession(cfg, w, i);
      NodeIs(dcc, i);
      var confirmSize := BigEndian32(dcc.offset);
      if sent > 0 {
        Note(dcc.ctx, Acked(First(confirmSize, sent)));
        if dcc.size == dcc.offset {
          Note(dcc.ctx, Done);
          Destroy(dcc.id);
        } else {
          SetPhase(dcc, i, Connected);
        }
      }
    }

    /** The part of `libirc_dcc_process_descriptors` for one session. */
    method ProcessSession(dcc: Node, ghost i: nat, io: Io)
      requires Valid() && !exited && Holds(dcc, i)
      modifies this, nodes
      ensures Valid() && nodes == old(nodes) && World() == TurnAt(cfg, old(World()), i, io)
    {
      hide Inv, FindId, Chained, Distinct, Shows, Apply, Recv, Acknowledge;
      ghost var w := World();
      WaitingSession(cfg, w, i);
      NodeIs(dcc, i);
      TurnInv(cfg, w, i, io);
      match dcc.phase {
        case Connecting =>
          if io.Writable? {
            SetPhase(dcc, i, Connected);
            SameDownload(cfg, w, i, view[i]);
          } else if io.Failed? {
            Note(dcc.ctx, Broken);
            Destroy(dcc.id);
            SameOpen(cfg, w, i, view[i], DownloadAt(w, i).log + [Broken]);
          } else {
            NothingHappens(cfg, w, i);
          }
        case Connected =>
          if io.Received? {
            RecvFile(dcc, i, io.data);
          } else if io.Failed? {
            RecvFile(dcc, i, []);
          } else {
            NothingHappens(cfg, w, i);
          }
        case ConfirmSize =>
          if io.Writable? {
            SendOffset(dcc, i, io.sent);
          } else {
            NothingHappens(cfg, w, i);
          }
        case _ =>
          NothingHappens(cfg, w, i);
      }
    }

    lemma HeadIs()
      requires Linked()
      ensures head == At(nodes, 0)
    {
    }

    lemma NextIs(dcc: Node, i: nat)
      requires Linked() && Holds(dcc, i)
      ensures dcc.next == At(nodes, i + 1)
    {
    }

    /** `libirc_dcc_process_descriptors`: every session of the list in turn. `ios` is what its descriptor says
        when its turn comes. */
    method ProcessDescriptors(ios: nat -> Io)
      requires Valid() && !exited
      modifies this, nodes
      ensures Valid() && World() == Pass(cfg, old(World()), ios, 0)
    {
      hide Inv, Chained, Distinct, Shows, TurnAt;
      ghost var w := World();
      ghost var all := nodes;
      var dcc := head;
      ghost var i := 0;
      HeadIs();
      while dcc != null && !exited
        invariant Valid() && nodes == all && i <= |nodes| && dcc == At(nodes, i)
        invariant Pass(cfg, w, ios, 0) == Pass(cfg, World(), ios, i)
        decreases |nodes| - i
      {
        LinkedLength();
        NodeIs(dcc, i);
        OneTurnOfPass(cfg, World(), ios, i);
        ProcessSession(dcc, i, ios(dcc.id));
        LinkedLength();
        NextIs(dcc, i);
        dcc := dcc.next;
        i := i + 1;
      }
      LinkedLength();
      EndOfPass(cfg, World(), ios, i);
    }

    /** One turn of the loop of `UnlinkRemoved`; `next` is read before the session is unlinked. */
    method CleanSession(dcc: Node, ghost k: nat, ghost all: seq<Node>) returns (next: Node?, ghost k': nat)
      requires Linked() && Holds(dcc, k) && Within(nodes, all)
      modifies `head, `nodes, `view, all
      ensures Linked() && Within(nodes, all) && next == At(nodes, k')
      ensures if old(view)[k].phase == Removed
              then k' == k && |nodes| == |old(nodes)| - 1 && view == Without(old(view), k)
              else k' == k + 1 && nodes == old(nodes) && view == old(view)
    {
      hide Chained, Distinct, Shows, Within, Without;
      NodeIs(dcc, k);
      NextIs(dcc, k);
      next := dcc.next;
      k' := k + 1;
      if dcc.phase == Removed {
        WithinMeans(nodes, all);
        WithoutFacts(nodes, k, all);
        RemoveSession(dcc, k);
        k' := k;
      }
    }

    /** The first loop of `libirc_dcc_add_descriptors`: unlink the sessions that are marked as removed. */
    method UnlinkRemoved()
      requires Linked()
      modifies `head, `nodes, `view, nodes
      ensures Linked() && view == Live(old(view))
    {
      hide Linked, Live, Within, Cleaning;
      ghost var before, all := view, nodes;
      var dcc := head;
      ghost var k: nat, m: nat := 0, 0;
      HeadIs();
      NothingCleaned(view);
      WithinItself(nodes);
      while dcc != null
        invariant Linked() && Within(nodes, all)
        invariant dcc == At(nodes, k) && Cleaning(before, view, k, m)
        decreases |nodes| - k
      {
        LinkedLength();
        CleanedOne(before, view, k, m);
        dcc, k := CleanSession(dcc, k, all);
        m := m + 1;
      }
      LinkedLength();
      AllCleaned(before, view, k, m);
    }

    /** What `libirc_dcc_add_descriptors` does to the list. */
    method CleanUp()
      requires Valid() && !exited
      modifies this, nodes
      ensures Valid() && World() == Step(cfg, old(World()), Cleanup)
    {
      hide Inv, Linked, Live;
      ghost var w := World();
      UnlinkRemoved();
      StepInv(cfg, w, Cleanup);
    }
  }

  // ----- one pass over the list -----

  /** The events of a pass: each session has its turn, by id. */
  function TurnsFrom(ss: seq<Session>, ios: nat -> Io, i: nat): seq<Event>
    decreases |ss| - i
  {
    if i >= |ss| then [] else [Turn(ss[i].id, ios(ss[i].id))] + TurnsFrom(ss, ios, i + 1)
  }

  lemma {:induction false} HaltedRun(cfg: Config, w: World, es: seq<Event>)
    requires w.halted
    ensures Run(cfg, w, es) == w
    decreases |es|
  {
    if es != [] {
      HaltedRun(cfg, w, es[1..]);
    }
  }

  lemma {:induction false} SameTurns(ss: seq<Session>, ts: seq<Session>, ios: nat -> Io, i: nat)
    requires |ss| == |ts| && forall j :: 0 <= j < |ss| ==> ss[j].id == ts[j].id
    ensures TurnsFrom(ss, ios, i) == TurnsFrom(ts, ios, i)
    decreases |ss| - i
  {
    if i < |ss| {
      SameTurns(ss, ts, ios, i + 1);
    }
  }

  /** A pass over a reachable list is a run: each session has its turn once, in the order of the list. */
  lemma {:induction false} PassIsRun(cfg: Config, w: World, ios: nat -> Io, i: nat)
    requires Inv(cfg, w)
    ensures Pass(cfg, w, ios, i) == Run(cfg, w, TurnsFrom(w.sessions, ios, i))
    decreases |w.sessions| - i
  {
    hide Inv, TurnAt;
    if w.halted {
      HaltedRun(cfg, w, TurnsFrom(w.sessions, ios, i));
    } else if i < |w.sessions| {
      var io := ios(w.sessions[i].id);
      var w' := TurnAt(cfg, w, i, io);
      WaitingSession(cfg, w, i);
      TurnLength(cfg, w, i, io);
      TurnInv(cfg, w, i, io);
      SameTurns(w.sessions, w'.sessions, ios, i + 1);
      PassIsRun(cfg, w', ios, i + 1);
      var es := TurnsFrom(w.sessions, ios, i);
      assert es[1..] == TurnsFrom(w.sessions, ios, i + 1);
    }
  }
}
