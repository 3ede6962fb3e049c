/**
 The game over its connections: the server, its clients, and for each of them the two ends of a
 byte link.  Seen without the bytes it is the system of module `GameSystem`, whose channels are
 logs: what a link delivers, decoded, is what the log holds next.
 */
module NetworkedGame {
  import opened Basics
  import opened Bytes
  import opened Handshake
  import opened Protocol
  import opened Sequences
  import opened ServerSpec
  import opened ServerSafety
  import opened ClientSpec
  import opened GameServers
  import opened ConnectionSpec
  import opened Wire
  import ConnectionSafety
  import G = GameSystem
  import Worlds = ClientWorlds
  import Links
  import ServerRuns

  datatype Net = Net(
    server: Server,
    incoming: seq<Owned>,      // m_qMessagesIn of the server
    clients: seq<Client>,
    got: seq<nat>,             // how many of the messages delivered to client c it has handled
    links: seq<Links.Link>)

  const QUIET := Net(EMPTY, [], [], [], [])

  datatype Step =
    | AcceptClient(challenge: Uint64)
    | LinkStep(c: nat, side: Links.Side, step: ConnectionSpec.Step)
    | ServerHandsOver(c: nat)                    // a handler that Send posted runs
    | ClientHandsOver(c: nat)
    | ClientReceives(c: nat, start: Carried)
    | ClientTicks(c: nat, bodies: map<Uint32, Carried>)
    | ServerHandles(order: seq<Uint32>)
    | ServerReallocates

  ghost predicate WellFormed(y: Net) {
    && y.server.WellFormed()
    && |y.clients| == |y.got| == |y.links| == |y.server.open|
    && (forall i :: 0 <= i < |y.incoming| ==> y.incoming[i].remote < |y.server.open|)
  }

  /** What the server queues when its end of link `c` goes from `l` to `m`. */
  function Queued(c: nat, l: Conn, m: Conn): seq<Owned> {
    if |m.delivered| > |l.delivered| && DecodeClient(m.delivered[|m.delivered| - 1]).Some? then
      [Owned(c, DecodeClient(m.delivered[|m.delivered| - 1]).value)]
    else []
  }

  /** What it learns of the socket and of a successful validation. */
  function Noticed(s: Server, c: nat, l: Conn, m: Conn): Server
    requires c < |s.open| && c < |s.posted|
  {
    var t := if m.open then s else Close(s, c);
    if m.validated && !l.validated then t.Post(c, Accepted) else t
  }

  ghost predicate Next(y: Net, step: Step, z: Net)
    requires WellFormed(y)
  {
    var s := y.server;
    match step
    case AcceptClient(challenge) =>
      z == y.(server := Accept(s), clients := y.clients + [NEW_CLIENT], got := y.got + [0],
              links := y.links + [Links.Link(NewServerEnd(challenge), NewClientEnd(), [], [])])
    case LinkStep(c, side, step) =>
      && c < |s.open| && c < |z.links| && !step.Post?
      && Links.Next(y.links[c], side, step, z.links[c])
      && z == y.(links := y.links[c := z.links[c]],
                 server := Noticed(s, c, y.links[c].server, z.links[c].server),
                 incoming := y.incoming + Queued(c, y.links[c].server, z.links[c].server))
    case ServerHandsOver(c) =>
      && c < |s.open| && c < |z.links|
      && (var n := |y.links[c].server.posted|;
          n < |s.posted[c]| && Links.Next(y.links[c], Links.AtServer, Post(EncodeServer(s.posted[c][n])), z.links[c]))
      && z == y.(links := y.links[c := z.links[c]])
    case ClientHandsOver(c) =>
      && c < |s.open| && c < |z.links|
      && (var sent, n := y.clients[c].sent, |y.links[c].client.posted|;
          n < |sent| && Links.Next(y.links[c], Links.AtClient, Post(EncodeClient(sent[n])), z.links[c]))
      && z == y.(links := y.links[c := z.links[c]])
    case ClientReceives(c, start) =>
      && c < |s.open| && y.got[c] < |y.links[c].client.delivered|
      && z == y.(got := y.got[c := y.got[c] + 1], clients := y.clients[c := Handled(y, c, start)])
    case ClientTicks(c, bodies) =>
      c < |s.open| && z == y.(clients := y.clients[c := Tick(y.clients[c], bodies, y.links[c].client.open)])
    case ServerHandles(order) =>
      && y.incoming != []
      && var m := y.incoming[0];
         && Enumerates(order, LoopRoster(s, m.remote, m.msg).Keys)
         && z == y.(server := OnMessage(s, m.remote, m.msg, order), incoming := y.incoming[1..])
    case ServerReallocates => y.incoming != [] && ServerRuns.PushedWhileIterated(s)
  }

  /** The client after it has looked at the next message delivered to it. */
  function Handled(y: Net, c: nat, start: Carried): Client
    requires c < |y.clients| == |y.got| == |y.links| && y.got[c] < |y.links[c].client.delivered|
  {
    var msg := DecodeServer(y.links[c].client.delivered[y.got[c]]);
    if msg.Some? then Receive(y.clients[c], msg.value, start, y.links[c].client.open) else y.clients[c]
  }

  ghost predicate IsRun(run: seq<Net>, steps: seq<Step>) {
    && |run| == |steps| + 1
    && run[0] == QUIET
    && (forall i :: 0 <= i < |run| ==> WellFormed(run[i]))
    && (forall i :: 0 <= i < |steps| ==> Next(run[i], steps[i], run[i + 1]))
  }

  ghost predicate Defined(steps: seq<Step>, i: nat) {
    forall j :: 0 <= j < i && j < |steps| ==> !steps[j].ServerReallocates?
  }

  // ---- The links and the logs ----

  /** The messages handed over to link `l` are the first ones of the logs, encoded. */
  ghost predicate LinkFits(l: Links.Link, posted: seq<ServerMsg>, sent: seq<ClientMsg>) {
    && |l.server.posted| <= |posted| && l.server.posted == EncodeServerAll(posted[..|l.server.posted|])
    && |l.client.posted| <= |sent| && l.client.posted == EncodeClientAll(sent[..|l.client.posted|])
    && (Accepted in posted <==> l.server.validated)
  }

  /** A client that has handled nothing yet waits and has sent nothing. */
  ghost predicate Fresh(c: Client, got: nat) {
    got == 0 ==> c.sent == [] && c.waiting
  }

  /** What is known of one connection and its client. */
  ghost predicate EndsOk(l: Links.Link, open: bool, posted: seq<ServerMsg>, client: Client, got: nat) {
    && Links.LinkOk(l) && l.server.open == open && LinkFits(l, posted, client.sent)
    && got <= |l.client.delivered| && Fresh(client, got)
  }

  ghost predicate ConnOk(y: Net, c: nat)
    requires WellFormed(y) && c < |y.links|
  {
    EndsOk(y.links[c], y.server.open[c], y.server.posted[c], y.clients[c], y.got[c])
  }

  ghost predicate NetOk(y: Net) {
    WellFormed(y) && forall c: nat :: c < |y.links| ==> ConnOk(y, c)
  }

  /** The system without the bytes. */
  function Abstract(y: Net): G.System {
    G.System(y.server, y.incoming, y.clients, y.got,
             seq(|y.links|, c requires 0 <= c < |y.links| => |y.links[c].server.delivered|))
  }

  /** A step of the connections shows in the system without the bytes as one step or none. */
  ghost predicate Refines(y: Net, z: Net)
    requires WellFormed(y)
  {
    Abstract(z) == Abstract(y) || exists a: G.Step :: AbstractStep(y, a, z)
  }

  ghost predicate AbstractStep(y: Net, a: G.Step, z: Net)
    requires WellFormed(y)
  {
    !a.ServerReallocates? && G.Next(Abstract(y), a, Abstract(z))
  }

  // ---- Steps of one end ----

  /** What a step of one end, other than taking over a message, can change for the game: one thing at most. */
  lemma EndEffects(c: Conn, step: ConnectionSpec.Step, d: Conn)
    requires ConnectionSpec.Next(c, step, d) && !step.Post?
    ensures d.posted == c.posted && (d.open ==> c.open) && (c.validated ==> d.validated)
    ensures d.delivered == c.delivered ||
      (|d.delivered| == |c.delivered| + 1 && d.delivered[..|c.delivered|] == c.delivered)
    ensures d.delivered != c.delivered ==> d.open == c.open && d.validated == c.validated
    ensures d.validated != c.validated ==> d.open == c.open && d.delivered == c.delivered
  {
    hide ToBytes, FromBytes, Fits, Scramble;
  }

  lemma PostEffects(c: Conn, msg: Framing.Msg, d: Conn)
    requires ConnectionSpec.Next(c, Post(msg), d)
    ensures d.posted == c.posted + [msg] && d.delivered == c.delivered
    ensures d.open == c.open && d.validated == c.validated
  {
  }

  lemma EncodeNext(posted: seq<ServerMsg>, sent: seq<ClientMsg>, n: nat)
    ensures n < |posted| ==>
      EncodeServerAll(posted[..n + 1]) == EncodeServerAll(posted[..n]) + [EncodeServer(posted[n])]
    ensures n < |sent| ==>
      EncodeClientAll(sent[..n + 1]) == EncodeClientAll(sent[..n]) + [EncodeClient(sent[n])]
  {
    hide EncodeServer, EncodeClient;
  }

  /** The logs only grow, and by anything but an acceptance they grow without harm. */
  lemma LinkStillFits(l: Links.Link, posted: seq<ServerMsg>, sent: seq<ClientMsg>,
                      posted': seq<ServerMsg>, sent': seq<ClientMsg>)
    requires LinkFits(l, posted, sent) && posted <= posted' && sent <= sent'
    requires Accepted in posted' ==> Accepted in posted || l.server.validated
    ensures LinkFits(l, posted', sent')
  {
    var m, n := |l.server.posted|, |l.client.posted|;
    assert posted'[..m] == posted[..m] && sent'[..n] == sent[..n];
  }

  lemma NewLinkOk(challenge: Uint64)
    ensures var l := Links.Link(NewServerEnd(challenge), NewClientEnd(), [], []);
      Links.LinkOk(l) && LinkFits(l, [], []) && l.server.open
  {
    ConnectionSafety.StartOk(challenge);
    hide ConnectionSafety.ConnOk, ToBytes, Scramble;
    assert EncodeServerAll([]) == [] && EncodeClientAll([]) == [];
  }

  // ---- Each step ----

  lemma OkWellFormed(y: Net)
    requires NetOk(y)
    ensures WellFormed(y)
  {
  }

  lemma ConnOf(y: Net, c: nat)
    requires NetOk(y) && WellFormed(y) && c < |y.links|
    ensures ConnOk(y, c)
  {
  }

  lemma NewEndsOk(challenge: Uint64)
    ensures EndsOk(Links.Link(NewServerEnd(challenge), NewClientEnd(), [], []), true, [], NEW_CLIENT, 0)
  {
    hide Links.LinkOk;
    NewLinkOk(challenge);
  }

  lemma AcceptRefines(y: Net, challenge: Uint64, z: Net)
    requires NetOk(y) && Next(y, AcceptClient(challenge), z) && WellFormed(z)
    ensures NetOk(z) && Refines(y, z)
  {
    hide EndsOk, ToBytes, Scramble;
    NewEndsOk(challenge);
    forall c: nat | c < |z.links| ensures ConnOk(z, c) {
      if c < |y.links| {
        ConnOf(y, c);
      }
    }
    assert Abstract(z).taken == Abstract(y).taken + [0];
    assert AbstractStep(y, G.AcceptClient, z);
  }

  /** A step that touches connection `c` alone leaves the others alone. */
  lemma OthersOk(y: Net, c: nat, z: Net)
    requires NetOk(y) && WellFormed(z) && |z.links| == |y.links| && c < |y.links| && ConnOk(z, c)
    requires z.links == y.links[c := z.links[c]]
    requires z.clients == y.clients[c := z.clients[c]] && z.got == y.got[c := z.got[c]]
    requires |z.server.open| == |y.server.open| && z.server.open == y.server.open[c := z.server.open[c]]
    requires |z.server.posted| == |y.server.posted| && z.server.posted == y.server.posted[c := z.server.posted[c]]
    ensures NetOk(z)
  {
    hide EndsOk;
    forall b: nat | b < |z.links| ensures ConnOk(z, b) {
      ConnOf(y, b);
    }
  }

  lemma TakenSame(y: Net, z: Net)
    requires |z.links| == |y.links|
    requires forall c :: 0 <= c < |y.links| ==> |z.links[c].server.delivered| == |y.links[c].server.delivered|
    ensures Abstract(z).taken == Abstract(y).taken
  {
  }

  lemma ClientEndSteps(l: Links.Link, step: ConnectionSpec.Step, m: Links.Link, open: bool, posted: seq<ServerMsg>,
                       client: Client, got: nat)
    requires EndsOk(l, open, posted, client, got) && Links.Next(l, Links.AtClient, step, m) && !step.Post?
    ensures EndsOk(m, open, posted, client, got) && m.server == l.server
  {
    hide Links.LinkOk, ConnectionSpec.Next;
    Links.LinkNextKeeps(l, Links.AtClient, step, m);
    EndEffects(l.client, step, m.client);
  }

  lemma ClientStepRefines(y: Net, c: nat, step: ConnectionSpec.Step, z: Net)
    requires NetOk(y) && Next(y, LinkStep(c, Links.AtClient, step), z) && WellFormed(z)
    ensures NetOk(z) && Abstract(z) == Abstract(y)
  {
    hide EndsOk, Links.Next, NetOk, Links.LinkOk;
    OkWellFormed(y);
    ConnOf(y, c);
    OpenAsSeen(y, c);
    ClientEndSteps(y.links[c], step, z.links[c], y.server.open[c], y.server.posted[c], y.clients[c], y.got[c]);
    assert z.server == y.server;
    OthersOk(y, c, z);
    TakenSame(y, z);
  }

  lemma OpenAsSeen(y: Net, c: nat)
    requires WellFormed(y) && c < |y.links| && ConnOk(y, c)
    ensures y.links[c].server.open == y.server.open[c] && Links.LinkOk(y.links[c])
  {
    hide Links.LinkOk, LinkFits;
  }

  /** The message that the server's end delivers next is the next one the client sent. */
  lemma QueuedIsNext(c: nat, l: Links.Link, m: Links.Link, posted: seq<ServerMsg>, sent: seq<ClientMsg>)
    requires Links.LinkOk(m) && LinkFits(m, posted, sent)
    requires |m.server.delivered| == |l.server.delivered| + 1
    ensures |l.server.delivered| < |sent|
    ensures Queued(c, l.server, m.server) == [Owned(c, sent[|l.server.delivered|])]
  {
    hide Links.LinkOk, DecodeClient, EncodeClientAll, EncodeServerAll;
    var log, j := sent[..|m.client.posted|], |l.server.delivered|;
    ServerDecodes(m, log, j);
  }

  /** What a step of the server's end may change for the game: one thing at most. */
  ghost predicate ServerStepped(l: Links.Link, m: Links.Link) {
    && Links.LinkOk(m) && m.client == l.client && m.server.posted == l.server.posted
    && (m.server.open ==> l.server.open) && (l.server.validated ==> m.server.validated)
    && (m.server.delivered == l.server.delivered || |m.server.delivered| == |l.server.delivered| + 1)
    && (m.server.delivered != l.server.delivered ==>
          m.server.open == l.server.open && m.server.validated == l.server.validated)
    && (m.server.validated != l.server.validated ==>
          m.server.open == l.server.open && m.server.delivered == l.server.delivered)
  }

  lemma ServerEndSteps(l: Links.Link, step: ConnectionSpec.Step, m: Links.Link)
    requires Links.LinkOk(l) && Links.Next(l, Links.AtServer, step, m) && !step.Post?
    ensures ServerStepped(l, m)
  {
    hide Links.LinkOk, ConnectionSpec.Next;
    Links.LinkNextKeeps(l, Links.AtServer, step, m);
    EndEffects(l.server, step, m.server);
  }

  lemma ServerEndFits(l: Links.Link, m: Links.Link, open: bool, posted: seq<ServerMsg>, client: Client, got: nat)
    requires EndsOk(l, open, posted, client, got) && ServerStepped(l, m)
    ensures var posted' := if m.server.validated && !l.server.validated then posted + [Accepted] else posted;
      EndsOk(m, m.server.open, posted', client, got)
  {
    hide Links.LinkOk, EncodeServerAll, EncodeClientAll;
    var posted' := if m.server.validated && !l.server.validated then posted + [Accepted] else posted;
    assert posted'[..|l.server.posted|] == posted[..|l.server.posted|];
  }

  lemma ServerStepRefines(y: Net, c: nat, step: ConnectionSpec.Step, z: Net)
    requires NetOk(y) && Next(y, LinkStep(c, Links.AtServer, step), z) && WellFormed(z)
    ensures NetOk(z) && Refines(y, z)
  {
    hide Links.Next, NetOk, LinkFits, Links.LinkOk, Queued, EndsOk, Fresh;
    OkWellFormed(y);
    ConnOf(y, c);
    OpenAsSeen(y, c);
    var l, m := y.links[c], z.links[c];
    ServerEndSteps(l, step, m);
    ServerEndFits(l, m, y.server.open[c], y.server.posted[c], y.clients[c], y.got[c]);
    OthersOk(y, c, z);
    ServerStepShows(y, c, z);
  }

  lemma ServerStepShows(y: Net, c: nat, z: Net)
    requires WellFormed(y) && WellFormed(z) && c < |y.links| == |z.links| && ConnOk(y, c) && ConnOk(z, c)
    requires ServerStepped(y.links[c], z.links[c])
    requires z == y.(links := y.links[c := z.links[c]],
                     server := Noticed(y.server, c, y.links[c].server, z.links[c].server),
                     incoming := y.incoming + Queued(c, y.links[c].server, z.links[c].server))
    ensures Refines(y, z)
  {
    hide Links.LinkOk, LinkFits, EndsOk, AbstractStep, DecodeClient, Abstract;
    OpenAsSeen(y, c);
    if |z.links[c].server.delivered| > |y.links[c].server.delivered| {
      DeliveryShows(y, c, z);
    } else {
      QuietStepShows(y, c, z);
    }
  }

  /** A step that delivers nothing validates, closes or does nothing that is seen. */
  lemma QuietStepShows(y: Net, c: nat, z: Net)
    requires WellFormed(y) && WellFormed(z) && c < |y.links| == |z.links| && ConnOk(y, c)
    requires |z.links[c].server.delivered| == |y.links[c].server.delivered|
    requires z.links[c].server.open ==> y.links[c].server.open
    requires z.links[c].server.validated != y.links[c].server.validated ==>
      z.links[c].server.open == y.links[c].server.open && z.links[c].server.validated
    requires z == y.(links := y.links[c := z.links[c]],
                     server := Noticed(y.server, c, y.links[c].server, z.links[c].server))
    ensures Refines(y, z)
  {
    hide Links.LinkOk, LinkFits, EndsOk, Abstract;
    OpenAsSeen(y, c);
    TakenSame(y, z);
    SameButServer(y, z);
    if z.links[c].server.validated && !y.links[c].server.validated {
      NotYetAccepted(y, c);
      assert z.server == y.server.Post(c, Accepted);
      assert AbstractStep(y, G.ValidateClient(c), z);
    } else if z.links[c].server.open {
      assert z.server == y.server;
    } else {
      assert AbstractStep(y, G.CloseSocket(c), z);
    }
  }

  lemma SameButServer(y: Net, z: Net)
    requires z.incoming == y.incoming && z.clients == y.clients && z.got == y.got
    requires Abstract(z).taken == Abstract(y).taken
    ensures Abstract(z) == Abstract(y).(server := z.server)
    ensures Abstract(y).server == y.server
  {
  }

  lemma DeliveryShows(y: Net, c: nat, z: Net)
    requires WellFormed(y) && WellFormed(z) && c < |y.links| == |z.links| && ConnOk(y, c) && ConnOk(z, c)
    requires z.links == y.links[c := z.links[c]] && z.clients == y.clients && z.got == y.got
    requires |z.links[c].server.delivered| == |y.links[c].server.delivered| + 1
    requires z.server == y.server && z.incoming == y.incoming + Queued(c, y.links[c].server, z.links[c].server)
    ensures AbstractStep(y, G.ServerQueues(c), z)
  {
    hide Links.LinkOk, LinkFits, Queued;
    QueuedIsNext(c, y.links[c], z.links[c], z.server.posted[c], z.clients[c].sent);
    assert Abstract(z).taken == Abstract(y).taken[c := Abstract(y).taken[c] + 1];
  }

  lemma NotYetAccepted(y: Net, c: nat)
    requires WellFormed(y) && c < |y.links| && ConnOk(y, c) && !y.links[c].server.validated
    ensures Accepted !in y.server.posted[c]
  {
    hide Links.LinkOk, EncodeServerAll, EncodeClientAll;
  }

  lemma ServerTakesOver(l: Links.Link, m: Links.Link, open: bool, posted: seq<ServerMsg>, client: Client, got: nat)
    requires EndsOk(l, open, posted, client, got) && |l.server.posted| < |posted|
    requires Links.Next(l, Links.AtServer, Post(EncodeServer(posted[|l.server.posted|])), m)
    ensures EndsOk(m, open, posted, client, got) && m.server.delivered == l.server.delivered
  {
    hide Links.LinkOk, ConnectionSpec.Next, EncodeServer, EncodeServerAll, EncodeClientAll;
    var msg := EncodeServer(posted[|l.server.posted|]);
    Links.LinkNextKeeps(l, Links.AtServer, Post(msg), m);
    PostEffects(l.server, msg, m.server);
    EncodeNext(posted, client.sent, |l.server.posted|);
  }

  lemma ServerHandsOverRefines(y: Net, c: nat, z: Net)
    requires NetOk(y) && Next(y, ServerHandsOver(c), z) && WellFormed(z)
    ensures NetOk(z) && Abstract(z) == Abstract(y)
  {
    hide Links.Next, NetOk, EndsOk, EncodeServer;
    OkWellFormed(y);
    ConnOf(y, c);
    ServerTakesOver(y.links[c], z.links[c], y.server.open[c], y.server.posted[c], y.clients[c], y.got[c]);
    OthersOk(y, c, z);
    TakenSame(y, z);
  }

  lemma ClientTakesOver(l: Links.Link, m: Links.Link, open: bool, posted: seq<ServerMsg>, client: Client, got: nat)
    requires EndsOk(l, open, posted, client, got) && |l.client.posted| < |client.sent|
    requires Links.Next(l, Links.AtClient, Post(EncodeClient(client.sent[|l.client.posted|])), m)
    ensures EndsOk(m, open, posted, client, got) && m.server.delivered == l.server.delivered
  {
    hide Links.LinkOk, ConnectionSpec.Next, EncodeClient, EncodeServerAll, EncodeClientAll;
    var msg := EncodeClient(client.sent[|l.client.posted|]);
    Links.LinkNextKeeps(l, Links.AtClient, Post(msg), m);
    PostEffects(l.client, msg, m.client);
    EncodeNext(posted, client.sent, |l.client.posted|);
  }

  lemma ClientHandsOverRefines(y: Net, c: nat, z: Net)
    requires NetOk(y) && Next(y, ClientHandsOver(c), z) && WellFormed(z)
    ensures NetOk(z) && Abstract(z) == Abstract(y)
  {
    hide Links.Next, NetOk, EndsOk, EncodeClient;
    OkWellFormed(y);
    ConnOf(y, c);
    ClientTakesOver(y.links[c], z.links[c], y.server.open[c], y.server.posted[c], y.clients[c], y.got[c]);
    OthersOk(y, c, z);
    TakenSame(y, z);
  }

  lemma SentGrows(c: Client, msg: ServerMsg, start: Carried, bodies: map<Uint32, Carried>, connected: bool)
    ensures c.sent <= Receive(c, msg, start, connected).sent
    ensures c.sent <= Tick(c, bodies, connected).sent
    ensures c.waiting ==> Tick(c, bodies, connected) == c
  {
  }

  lemma EndsStillOk(l: Links.Link, open: bool, posted: seq<ServerMsg>, client: Client, got: nat,
                    posted': seq<ServerMsg>, client': Client, got': nat)
    requires EndsOk(l, open, posted, client, got) && posted <= posted' && client.sent <= client'.sent
    requires Accepted in posted' ==> Accepted in posted
    requires got' <= |l.client.delivered| && Fresh(client', got')
    ensures EndsOk(l, open, posted', client', got')
  {
    hide Links.LinkOk, LinkFits;
    LinkStillFits(l, posted, client.sent, posted', client'.sent);
  }

  /** What a client handles next is what its log holds next. */
  lemma HandledIsNext(y: Net, c: nat, start: Carried)
    requires WellFormed(y) && c < |y.links| && ConnOk(y, c) && y.got[c] < |y.links[c].client.delivered|
    ensures y.got[c] < |y.server.posted[c]|
    ensures Handled(y, c, start) == Receive(y.clients[c], y.server.posted[c][y.got[c]], start, y.links[c].client.open)
  {
    hide Links.LinkOk, DecodeServer, EncodeServerAll, Receive;
    var l := y.links[c];
    ClientDecodes(l, y.server.posted[c][..|l.server.posted|], y.got[c]);
  }

  lemma ReceivesRefines(y: Net, c: nat, start: Carried, z: Net)
    requires NetOk(y) && Next(y, ClientReceives(c, start), z) && WellFormed(z)
    ensures NetOk(z) && Refines(y, z)
  {
    hide Handled, Receive, EndsOk, NetOk;
    OkWellFormed(y);
    ConnOf(y, c);
    HandledIsNext(y, c, start);
    var l := y.links[c];
    SentGrows(y.clients[c], y.server.posted[c][y.got[c]], start, map[], l.client.open);
    EndsStillOk(l, y.server.open[c], y.server.posted[c], y.clients[c], y.got[c],
                z.server.posted[c], z.clients[c], z.got[c]);
    OthersOk(y, c, z);
    TakenSame(y, z);
    assert AbstractStep(y, G.ClientReceives(c, start, l.client.open), z);
  }

  lemma TicksRefines(y: Net, c: nat, bodies: map<Uint32, Carried>, z: Net)
    requires NetOk(y) && Next(y, ClientTicks(c, bodies), z) && WellFormed(z)
    ensures NetOk(z) && Refines(y, z)
  {
    hide Tick, NetOk, Links.LinkOk, LinkFits;
    OkWellFormed(y);
    ConnOf(y, c);
    var l := y.links[c];
    SentGrows(y.clients[c], Accepted, DEFAULT_CARRIED, bodies, l.client.open);
    assert Fresh(z.clients[c], z.got[c]) && z.got[c] <= |l.client.delivered|;
    hide EndsOk, Fresh;
    EndsStillOk(l, y.server.open[c], y.server.posted[c], y.clients[c], y.got[c],
                z.server.posted[c], z.clients[c], z.got[c]);
    OthersOk(y, c, z);
    TakenSame(y, z);
    assert AbstractStep(y, G.ClientTicks(c, bodies, l.client.open), z);
  }

  /** Handling a message posts to every log, but never an acceptance. */
  lemma HandlingPosts(s: Server, m: Owned, order: seq<Uint32>, b: nat)
    requires Invariant(s) && m.remote < |s.open| && b < |s.open|
    requires Enumerates(order, LoopRoster(s, m.remote, m.msg).Keys)
    ensures var t := OnMessage(s, m.remote, m.msg, order);
      && |t.posted| == |s.posted| && s.posted[b] <= t.posted[b]
      && (Accepted in t.posted[b] ==> Accepted in s.posted[b])
  {
    OnMessagePosts(s, m.remote, m.msg, order, b);
    hide OnMessage, Invariant, LoopRoster;
    if s.open[b] {
      var added := Removals(s.garbage) + Reply(s, m.remote, m.msg, order, b);
      assert Accepted !in added;
    }
  }

  lemma EndsGotOk(l: Links.Link, open: bool, posted: seq<ServerMsg>, client: Client, got: nat)
    requires EndsOk(l, open, posted, client, got)
    ensures got <= |l.client.delivered| && Fresh(client, got)
  {
  }

  lemma HandlesRefines(y: Net, order: seq<Uint32>, z: Net)
    requires NetOk(y) && Invariant(y.server) && Next(y, ServerHandles(order), z) && WellFormed(z)
    ensures NetOk(z) && Refines(y, z)
  {
    hide EndsOk, Invariant, OnMessage, LoopRoster, Fresh;
    var m := y.incoming[0];
    forall c: nat | c < |z.links| ensures ConnOk(z, c) {
      ConnOf(y, c);
      HandlingPosts(y.server, m, order, c);
      EndsGotOk(y.links[c], y.server.open[c], y.server.posted[c], y.clients[c], y.got[c]);
      EndsStillOk(y.links[c], y.server.open[c], y.server.posted[c], y.clients[c], y.got[c],
                  z.server.posted[c], z.clients[c], z.got[c]);
    }
    TakenSame(y, z);
    assert AbstractStep(y, G.ServerHandles(order), z);
  }

  /** Every step refines the system without the bytes. */
  lemma NextRefines(y: Net, step: Step, z: Net)
    requires NetOk(y) && Invariant(y.server) && Next(y, step, z) && WellFormed(z) && !step.ServerReallocates?
    ensures NetOk(z) && Refines(y, z)
  {
    match step
    case AcceptClient(challenge) => AcceptRefines(y, challenge, z);
    case LinkStep(c, side, s) =>
      if side == Links.AtServer {
        ServerStepRefines(y, c, s, z);
      } else {
        ClientStepRefines(y, c, s, z);
      }
    case ServerHandsOver(c) => ServerHandsOverRefines(y, c, z);
    case ClientHandsOver(c) => ClientHandsOverRefines(y, c, z);
    case ClientReceives(c, start) => ReceivesRefines(y, c, start, z);
    case ClientTicks(c, bodies) => TicksRefines(y, c, bodies, z);
    case ServerHandles(order) => HandlesRefines(y, order, z);
  }

  // ---- Runs ----

  /** Some run of the system without the bytes leads to `y`. */
  ghost predicate Reached(y: G.System) {
    exists run, steps :: G.IsRun(run, steps) && G.Defined(steps, |steps|) && run[|steps|] == y
  }

  lemma ReachedNext(y: G.System, a: G.Step, z: G.System)
    requires Reached(y) && G.WellFormed(y) && G.WellFormed(z) && G.Next(y, a, z) && !a.ServerReallocates?
    ensures Reached(z)
  {
    hide G.Next, G.WellFormed;
    var run, steps :| G.IsRun(run, steps) && G.Defined(steps, |steps|) && run[|steps|] == y;
    var run', steps' := run + [z], steps + [a];
    forall i | 0 <= i < |steps'| ensures G.Next(run'[i], steps'[i], run'[i + 1]) {
      assert i < |steps| ==> G.Next(run[i], steps[i], run[i + 1]);
    }
    assert G.IsRun(run', steps') && G.Defined(steps', |steps'|) && run'[|steps'|] == z;
  }

  lemma ReachedRefines(y: Net, z: Net)
    requires WellFormed(y) && WellFormed(z) && Refines(y, z) && Reached(Abstract(y))
    ensures Reached(Abstract(z))
  {
    hide Reached, G.Next;
    if Abstract(z) != Abstract(y) {
      var a: G.Step :| AbstractStep(y, a, z);
      ReachedNext(Abstract(y), a, Abstract(z));
    }
  }

  lemma QuietReached()
    ensures NetOk(QUIET) && Reached(Abstract(QUIET))
  {
    assert Abstract(QUIET) == G.START;
    assert G.IsRun([G.START], []) && G.Defined([], 0) && [G.START][0] == G.START;
  }

  lemma NextGrows(y: Net, step: Step, z: Net)
    requires WellFormed(y) && Next(y, step, z) && !step.ServerReallocates?
    ensures |y.server.open| <= |z.server.open|
  {
    hide ConnectionSpec.Next, Links.Next;
  }

  lemma ReachedOk(y: Net)
    requires WellFormed(y) && Reached(Abstract(y)) && FIRST_ID + |y.server.open| <= TWO_32
    ensures G.SystemOk(Abstract(y)) && Invariant(y.server)
  {
    var run, steps :| G.IsRun(run, steps) && G.Defined(steps, |steps|) && run[|steps|] == Abstract(y);
    hide G.Next, Invariant;
    G.RunKeeps(run, steps, |steps|);
  }

  lemma RunStep(run: seq<Net>, steps: seq<Step>, i: nat)
    requires IsRun(run, steps) && i < |steps|
    ensures WellFormed(run[i]) && WellFormed(run[i + 1]) && Next(run[i], steps[i], run[i + 1])
  {
    hide WellFormed, Next;
  }

  lemma StartsQuiet(run: seq<Net>, steps: seq<Step>)
    requires IsRun(run, steps)
    ensures |run| == |steps| + 1 && run[0] == QUIET
  {
  }

  /**
   Every state of every run over real connections is, without the bytes, one that the system of
   logs can reach.
   */
  lemma {:induction false} RunRefines(run: seq<Net>, steps: seq<Step>, i: nat)
    requires IsRun(run, steps) && i < |run| && Defined(steps, i)
    requires FIRST_ID + |run[i].server.open| <= TWO_32
    ensures NetOk(run[i]) && Reached(Abstract(run[i]))
  {
    hide NetOk, Reached, Invariant, Refines, Abstract, G.SystemOk, Next, IsRun, WellFormed;
    StartsQuiet(run, steps);
    if i == 0 {
      QuietReached();
    } else {
      var y, step, z := run[i - 1], steps[i - 1], run[i];
      RunStep(run, steps, i - 1);
      NextGrows(y, step, z);
      RunRefines(run, steps, i - 1);
      ReachedOk(y);
      NextRefines(y, step, z);
      ReachedRefines(y, z);
    }
  }

  /** So over real connections every client is safe, in every state of every run. */
  lemma ClientsAreSafe(run: seq<Net>, steps: seq<Step>, i: nat, c: nat)
    requires IsRun(run, steps) && i < |run| && c < |run[i].clients| && Defined(steps, i)
    requires FIRST_ID + |run[i].server.open| <= TWO_32
    ensures G.Safe(run[i].clients[c], run[i].server.ids[c])
    ensures RemovePlayer(run[i].server.ids[c]) !in run[i].server.posted[c]
  {
    hide NetOk, Reached, G.SystemOk, Invariant;
    RunRefines(run, steps, i);
    ReachedOk(run[i]);
    G.OkIsSafe(Abstract(run[i]), c);
  }

  /** A client is sent its acceptance exactly when its connection has been validated. */
  lemma AcceptedExactly(run: seq<Net>, steps: seq<Step>, i: nat, c: nat)
    requires IsRun(run, steps) && i < |run| && c < |run[i].clients| && Defined(steps, i)
    requires FIRST_ID + |run[i].server.open| <= TWO_32
    ensures Accepted in run[i].server.posted[c] <==> run[i].links[c].server.validated
    ensures run[i].server.open[c] == run[i].links[c].server.open
  {
    hide Reached, Links.LinkOk, IsRun, NetOk;
    RunRefines(run, steps, i);
    OkWellFormed(run[i]);
    ConnOf(run[i], c);
  }

  /** Over real connections too a client knows exactly what the messages tell that it has handled. */
  lemma ClientsSee(run: seq<Net>, steps: seq<Step>, i: nat, c: nat)
    requires IsRun(run, steps) && i < |run| && c < |run[i].clients| && Defined(steps, i)
    requires FIRST_ID + |run[i].server.open| <= TWO_32
    ensures run[i].got[c] <= |run[i].server.posted[c]|
    ensures Worlds.Sees(run[i].clients[c], run[i].server.posted[c][..run[i].got[c]], run[i].server.ids[c])
  {
    hide NetOk, Reached, Worlds.Sees;
    RunRefines(run, steps, i);
    ReachedSees(Abstract(run[i]), c);
  }

  lemma ReachedSees(y: G.System, c: nat)
    requires Reached(y) && G.WellFormed(y) && c < |y.clients| && FIRST_ID + |y.server.open| <= TWO_32
    ensures y.got[c] <= |y.server.posted[c]|
    ensures Worlds.Sees(y.clients[c], y.server.posted[c][..y.got[c]], y.server.ids[c])
  {
    hide G.Next, Worlds.Sees;
    var run, steps :| G.IsRun(run, steps) && G.Defined(steps, |steps|) && run[|steps|] == y;
    Worlds.ClientsSee(run, steps, |steps|, c);
  }

  /** A client's end can take over a message whenever the client has sent one: its handshake is written by then. */
  lemma HandOverPossible(run: seq<Net>, steps: seq<Step>, i: nat, c: nat)
    requires IsRun(run, steps) && i < |run| && c < |run[i].clients| && Defined(steps, i)
    requires FIRST_ID + |run[i].server.open| <= TWO_32
    requires run[i].clients[c].sent != []
    ensures run[i].links[c].client.handshakeWrite == Sent
  {
    hide Reached, Links.LinkOk, IsRun, NetOk, LinkFits;
    RunRefines(run, steps, i);
    OkWellFormed(run[i]);
    ConnOf(run[i], c);
    assert run[i].got[c] > 0;
    WrittenByThen(run[i].links[c]);
  }

  lemma WrittenByThen(l: Links.Link)
    requires Links.LinkOk(l) && l.client.delivered != []
    ensures l.client.handshakeWrite == Sent
  {
    hide ConnectionSafety.WriterOk, ToBytes, Scramble;
  }
}
