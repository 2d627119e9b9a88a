/** The rendezvous as a whole: one server, any number of peers, and a network that may lose,
    duplicate, delay and reorder datagrams. Every step is a turn of a program's own loop. */
module Protocol {
  import opened Bytes
  import opened Text
  import opened Xtea
  import opened Endpoints
  import opened Records
  import opened Hearing
  import opened Tables
  import opened Wires
  import opened Introductions
  import S = Servers
  import P = Peers

  /** What does not change: the server's address and its table of keys, and per peer the key compiled
      into it, its one address and the packet it registers with. */
  datatype Fleet = Fleet(server: Addr, keys: seq<Key>, addrs: seq<Addr>, caps: seq<Record>, mids: seq<MidRow>)

  /** The history of the run. The network may deliver any packet of it at any time, any number of
      times, or never. */
  datatype Event = Sent(src: Addr, send: Send) | Round(pers: seq<Ipp>)

  datatype Sys = Sys(server: S.Server, peers: seq<P.Peer>, log: seq<Event>)

  /** One turn of one program; `delivery` is the position in the history of the packet it receives. */
  datatype Step =
    | PeerStep(who: nat, delivery: Option<nat>, now: int, clock: int, text: Option<seq<u8>>)
    | ServerStep(delivery: Option<nat>, now: int, up: bool, gone: set<int>)

  predicate Member(c: Fleet, i: nat) {
    i < |c.addrs| == |c.caps| == |c.keys|
  }

  predicate Role(c: Fleet, i: nat)
    requires Member(c, i)
  {
    Typ(c.caps[i])
  }

  function RoleNumber(b: bool): int {
    if b then 1 else 0
  }

  function RegisterRecord(c: Fleet, i: nat): Record
    requires Member(c, i)
  {
    WithVerb(c.caps[i], SRV_REGISTER)
  }

  function RegisterSend(c: Fleet, i: nat): Send
    requires Member(c, i)
  {
    Sealed(c.server, c.keys[i], RegisterRecord(c, i))
  }

  /** The row of `mid` at which `authorize` stops for a peer's registration, or |mids|. */
  function AuthRow(c: Fleet, i: nat): (r: nat)
    requires Member(c, i)
    ensures r <= |c.mids|
  {
    FirstAuth(c.mids, IppA(c.addrs[i]), Seal(c.keys[i], RegisterRecord(c, i)))
  }

  /** Peer i can register: some row of `mid` authenticates it. */
  predicate CanRegister(c: Fleet, i: nat) {
    Member(c, i) && AuthRow(c, i) < |c.mids|
  }

  /** The row at which `authorize` stops for a registration holds the key of its sender. It can only
      fail when a row that comes first deciphers a foreign registration to a record that names that very
      row. OneMid, FirstMid and OwnMidFirst say when it holds whatever the cipher does. */
  ghost predicate RightRow(c: Fleet) {
    forall i: nat :: CanRegister(c, i) ==> ToKeys(c.mids[AuthRow(c, i)].mid) == c.keys[i]
  }

  /** A peer with the server's port number is taken for the server by the others, and must have their
      key: they would read its answers as the server's commands. */
  ghost predicate Unmasked(c: Fleet) {
    forall i: nat, j: nat :: Member(c, i) && Member(c, j) && c.addrs[j].port == c.server.port ==> c.keys[i] == c.keys[j]
  }

  /** Peers have one address each, none of them the server's; every socket has a port. */
  ghost predicate WellFormed(c: Fleet) {
    && |c.addrs| == |c.caps| == |c.keys|
    && c.server.port != 0
    && (forall i :: 0 <= i < |c.addrs| ==> c.addrs[i].port != 0 && c.addrs[i] != c.server)
    && (forall i, j :: 0 <= i < j < |c.addrs| ==> c.addrs[i] != c.addrs[j])
    && Unmasked(c)
    && RightRow(c)
  }

  /** The row is for everyone, holds the key of peer i and is named by its packet. */
  ghost predicate OwnRow(c: Fleet, i: nat, m: MidRow) {
    Member(c, i) && Eligible(m, IppA(c.addrs[i])) && ToKeys(m.mid) == c.keys[i] && MeiotIs(RegisterRecord(c, i), m.mid)
  }

  lemma OneMid(c: Fleet, key: Key)
    requires forall j :: 0 <= j < |c.mids| ==> ToKeys(c.mids[j].mid) == key
    requires forall i: nat :: Member(c, i) ==> c.keys[i] == key
    ensures RightRow(c)
  {
    hide ToKeys, AuthRow;
  }

  /** Each peer's own row comes before every other row that it might be tried against: its packet is
      read at that row. Other rows may follow. */
  lemma OwnMidFirst(c: Fleet, own: seq<nat>)
    requires forall i: nat :: Member(c, i) ==>
               i < |own| && own[i] < |c.mids| && OwnRow(c, i, c.mids[own[i]])
               && forall j :: 0 <= j < own[i] ==> !Eligible(c.mids[j], IppA(c.addrs[i])) || ToKeys(c.mids[j].mid) == c.keys[i]
    ensures RightRow(c) && forall i: nat :: Member(c, i) ==> CanRegister(c, i)
  {
    hide ToKeys, MeiotIs, Seal, Open, RegisterRecord;
    forall i: nat | Member(c, i)
      ensures CanRegister(c, i) && ToKeys(c.mids[AuthRow(c, i)].mid) == c.keys[i]
    {
      var request := Seal(c.keys[i], RegisterRecord(c, i));
      AuthComplete(c.mids, IppA(c.addrs[i]), RegisterRecord(c, i), own[i]);
      FirstAuthFirst(c.mids, IppA(c.addrs[i]), request);
      assert Authenticates(c.mids[AuthRow(c, i)], IppA(c.addrs[i]), request);
    }
  }

  /** The table as the program fills it: the first row is for everyone and is the one that all peers
      are built with; what the other rows hold does not matter. */
  lemma FirstMid(c: Fleet)
    requires |c.mids| > 0
    requires forall i: nat :: Member(c, i) ==> OwnRow(c, i, c.mids[0])
    ensures RightRow(c) && forall i: nat :: Member(c, i) ==> CanRegister(c, i)
  {
    hide AuthRow, ToKeys, MeiotIs, RegisterRecord;
    OwnMidFirst(c, seq(|c.addrs|, _ => 0));
  }

  /** What the server's packet carries behind its verb after the registration of peer k came in: the
      peer's own bytes when it is authorised, and the bytes of its ciphertext when it is not. */
  function TailAfter(c: Fleet, k: nat): Tail
    requires Member(c, k)
  {
    if CanRegister(c, k) then TailOf(c.caps[k]) else TailOf(Seal(c.keys[k], RegisterRecord(c, k)))
  }

  ghost predicate TailOk(c: Fleet, t: Tail) {
    exists k :: Member(c, k) && t == TailAfter(c, k)
  }

  function ServerEndpoint(c: Fleet): Endpoint {
    Endpoint(c.server.ip, c.server.port, FULL_MASK)
  }

  function InitPeer(c: Fleet, i: nat): P.Peer
    requires Member(c, i)
  {
    P.Peer(c.keys[i], ServerEndpoint(c), c.caps[i], SRV_UNREGISTERED, [], 0, 0, 0)
  }

  function Size(c: Fleet): nat {
    if |c.addrs| == |c.caps| == |c.keys| then |c.addrs| else 0
  }

  function Init(c: Fleet): Sys {
    Sys(S.Start(c.mids), seq(Size(c), i requires 0 <= i < Size(c) => InitPeer(c, i)), [])
  }

  predicate Deliverable(s: Sys, delivery: Option<nat>, to: Addr) {
    delivery.Some? ==> delivery.value < |s.log| && s.log[delivery.value].Sent? && s.log[delivery.value].send.to == to
  }

  function InboundAt(s: Sys, delivery: Option<nat>, to: Addr): Option<Inbound>
    requires Deliverable(s, delivery, to)
  {
    if delivery.None? then None else
      Some(Inbound(s.log[delivery.value].src, Payload(s.log[delivery.value].send)))
  }

  predicate Enabled(c: Fleet, s: Sys, step: Step) {
    match step
    case PeerStep(who, delivery, now, clock, text) =>
      who < |c.addrs| && who < |s.peers| && Deliverable(s, delivery, c.addrs[who]) && (text.Some? ==> |text.value| < SIZE)
    case ServerStep(delivery, now, up, gone) =>
      Deliverable(s, delivery, c.server)
  }

  function SentAll(src: Addr, ss: seq<Send>): (r: seq<Event>)
    ensures |r| == |ss|
    ensures forall k :: 0 <= k < |ss| ==> r[k] == Sent(src, ss[k])
  {
    seq(|ss|, k requires 0 <= k < |ss| => Sent(src, ss[k]))
  }

  function PeerInput(c: Fleet, s: Sys, step: Step): P.Input
    requires step.PeerStep? && Enabled(c, s, step)
  {
    P.Input(InboundAt(s, step.delivery, c.addrs[step.who]), step.now, step.clock, step.text)
  }

  function ServerInput(c: Fleet, s: Sys, step: Step): S.Input
    requires step.ServerStep? && Enabled(c, s, step)
  {
    S.Input(InboundAt(s, step.delivery, c.server), step.now, step.up, step.gone)
  }

  function PeerNext(c: Fleet, s: Sys, step: Step): Sys
    requires step.PeerStep? && Enabled(c, s, step)
  {
    var r := P.Turn(s.peers[step.who], PeerInput(c, s, step));
    Sys(s.server, s.peers[step.who := r.peer], s.log + SentAll(c.addrs[step.who], r.sends))
  }

  function RoundEvents(o: S.Outcome): seq<Event> {
    if o.round.Some? then [Round(o.round.value)] else []
  }

  function ServerNext(h: S.Hash, c: Fleet, s: Sys, step: Step): Sys
    requires step.ServerStep? && Enabled(c, s, step)
  {
    var o := S.Iterate(h, s.server, ServerInput(c, s, step));
    Sys(o.server, s.peers, s.log + SentAll(c.server, o.replies) + RoundEvents(o) + SentAll(c.server, o.roundSends))
  }

  function Next(h: S.Hash, c: Fleet, s: Sys, step: Step): Sys {
    if !Enabled(c, s, step) then s
    else if step.PeerStep? then PeerNext(c, s, step)
    else ServerNext(h, c, s, step)
  }

  function Exec(h: S.Hash, c: Fleet, steps: seq<Step>): Sys {
    if steps == [] then Init(c) else Next(h, c, Exec(h, c, steps[..|steps| - 1]), steps[|steps| - 1])
  }

  // ---------- why each event of the history is there

  /** The entry is peer i: its address, its role, its own key. */
  ghost predicate IsPeer(c: Fleet, i: nat, q: Ipp) {
    Member(c, i) && IppAddr(q) == c.addrs[i] && q.t == RoleNumber(Role(c, i)) && q.keys == c.keys[i]
  }

  /** Peer i sends from this address. */
  ghost predicate At(c: Fleet, i: nat, a: Addr) {
    Member(c, i) && c.addrs[i] == a
  }

  ghost predicate PeerAddr(c: Fleet, a: Addr) {
    exists i: nat :: At(c, i, a)
  }

  ghost predicate RegisterSent(c: Fleet, past: seq<Event>, i: nat) {
    Member(c, i) && Sent(c.addrs[i], RegisterSend(c, i)) in past
  }

  /** An entry of the table is a peer that sent a REGISTER before. */
  ghost predicate EntryOk(c: Fleet, past: seq<Event>, q: Ipp) {
    exists i :: IsPeer(c, i, q) && RegisterSent(c, past, i)
  }

  /** An introduction follows a round over a table that held both rows, in opposite roles. */
  ghost predicate IntroOk(c: Fleet, past: seq<Event>, to: Addr, rec: Record) {
    exists pers, x, y :: IntroducedIn(pers, x, y, to, rec) && Round(pers) in past
  }

  ghost predicate IntroducedIn(pers: seq<Ipp>, x: nat, y: nat, to: Addr, rec: Record) {
    x < |pers| && y < |pers| && Opposite(pers, x, y) && to == IppAddr(pers[x]) && Introduces(rec, pers[y])
  }

  /** Under the key of the peer it is addressed to. */
  ghost predicate ToPeer(c: Fleet, i: nat, send: Send) {
    send.Sealed? && At(c, i, send.to) && send.key == c.keys[i]
  }

  ghost predicate ServerSendOk(c: Fleet, past: seq<Event>, send: Send) {
    && send.Sealed? && (exists i :: ToPeer(c, i, send))
    && (|| Verb(send.rec) == SRV_REGISTERRED || Verb(send.rec) == SRV_PING
        || (Verb(send.rec) == SRV_SET_PEER && IntroOk(c, past, send.to, send.rec) && TailOk(c, TailOf(send.rec))))
  }

  ghost predicate IsRegister(c: Fleet, src: Addr, send: Send) {
    exists i: nat :: At(c, i, src) && send == RegisterSend(c, i)
  }

  /** A PING repeats an introduction that the server sent to its sender. */
  ghost predicate PingOf(c: Fleet, past: seq<Event>, src: Addr, send: Send, i: nat, rec: Record) {
    At(c, i, src) && Sent(c.server, Sealed(src, c.keys[i], rec)) in past && Verb(rec) == SRV_SET_PEER
        && send == P.Ping(rec)
  }

  ghost predicate PingOk(c: Fleet, past: seq<Event>, src: Addr, send: Send) {
    exists i: nat, rec: Record :: PingOf(c, past, src, send, i, rec)
  }

  /** A PONG repeats, under the key of its sender, what that peer read as a PING in a record from the
      peer it answers. That peer does not look like the server. */
  ghost predicate PongOf(c: Fleet, past: seq<Event>, src: Addr, send: Send, i: nat, key: Key, rec: Record) {
    && At(c, i, src) && Sent(send.to, Sealed(src, key, rec)) in past
    && Verb(Heard(c.keys[i], key, rec)) == PER_PING
    && send == Sealed(send.to, c.keys[i], WithVerb(Heard(c.keys[i], key, rec), PER_PONG))
    && PeerAddr(c, send.to) && send.to.port != c.server.port
  }

  ghost predicate PongOk(c: Fleet, past: seq<Event>, src: Addr, send: Send) {
    exists i: nat, key: Key, rec: Record :: PongOf(c, past, src, send, i, key, rec)
  }

  ghost predicate DataOk(c: Fleet, send: Send) {
    send.Plain? && |send.data| < SIZE && PeerAddr(c, send.to)
  }

  ghost predicate PeerSendOk(c: Fleet, past: seq<Event>, src: Addr, send: Send) {
    IsRegister(c, src, send) || PingOk(c, past, src, send) || PongOk(c, past, src, send) || DataOk(c, send)
  }

  ghost predicate Ok(c: Fleet, past: seq<Event>, e: Event) {
    match e
    case Round(pers) => forall x :: 0 <= x < |pers| ==> EntryOk(c, past, pers[x])
    case Sent(src, send) =>
      if src == c.server then ServerSendOk(c, past, send)
      else PeerAddr(c, src) && PeerSendOk(c, past, src, send)
  }

  /** Every event is justified by what came before it. */
  ghost predicate LogOk(c: Fleet, log: seq<Event>) {
    forall n :: 0 <= n < |log| ==> Ok(c, log[..n], log[n])
  }

  // ---------- the invariant

  /** The history holds this PONG of peer j to peer i. */
  ghost predicate PongIn(c: Fleet, log: seq<Event>, j: nat, i: nat, rec: Record) {
    Member(c, i) && Member(c, j) && Sent(c.addrs[j], Sealed(c.addrs[i], c.keys[j], rec)) in log && Verb(rec) == PER_PONG
  }

  /** And peer i reads this verb in it. */
  ghost predicate PongRead(c: Fleet, log: seq<Event>, j: nat, i: nat, rec: Record, verb: u8) {
    PongIn(c, log, j, i, rec) && Verb(Heard(c.keys[i], c.keys[j], rec)) == verb
  }

  /** An endpoint of peer i's set answered it with a PONG that it read as one. */
  ghost predicate LinkOk(c: Fleet, log: seq<Event>, i: nat, e: Endpoint) {
    exists j: nat, rec: Record :: PongRead(c, log, j, i, rec, PER_PONG) && P.AddrOfEndpoint(e) == c.addrs[j]
  }

  /** A PONG was read as data, which only a foreign key can make of it. */
  ghost predicate DataRead(c: Fleet, log: seq<Event>, i: nat) {
    exists j: nat, rec: Record :: PongRead(c, log, j, i, rec, PER_DATA)
  }

  ghost predicate PeerOk(c: Fleet, log: seq<Event>, i: nat, p: P.Peer)
    requires Member(c, i)
  {
    && p.key == c.keys[i] && p.server == ServerEndpoint(c) && p.cap[1..] == c.caps[i][1..]
    && P.TwoStates(p) && PortSorted(p.pers)
    && (p.status == PER_LINKED ==> p.pers != [] || DataRead(c, log, i))
    && (p.pers != [] ==> p.status == PER_LINKED)
    && forall e :: e in p.pers ==> e.port != c.server.port && LinkOk(c, log, i, e)
  }

  /** The K under which peer i registers. */
  ghost function KOf(h: S.Hash, c: Fleet, i: nat): int
    requires Member(c, i)
  {
    S.EntryOf(h, RegisterRecord(c, i), c.addrs[i], c.keys[i]).k
  }

  /** A row of the table is a peer that sent a REGISTER before, under that peer's K. */
  ghost predicate RowOk(h: S.Hash, c: Fleet, log: seq<Event>, r: Row) {
    exists i :: IsPeer(c, i, RowIpp(r)) && RegisterSent(c, log, i) && r.k == KOf(h, c, i)
  }

  ghost predicate RowsOk(h: S.Hash, c: Fleet, log: seq<Event>, rows: seq<Row>) {
    forall r :: r in rows ==> RowOk(h, c, log, r)
  }

  /** The rows are in order, and when there are any, the packet carries what some registration left. */
  ghost predicate ServerOk(h: S.Hash, c: Fleet, log: seq<Event>, s: S.Server) {
    s.mids == c.mids && RowsOk(h, c, log, s.db.rows) && (s.db.rows != [] ==> TailOk(c, TailOf(s.pl)))
  }

  ghost predicate Inv(h: S.Hash, c: Fleet, s: Sys) {
    && |s.peers| == |c.addrs| == |c.caps| == |c.keys|
    && LogOk(c, s.log)
    && ServerOk(h, c, s.log, s.server)
    && forall i :: 0 <= i < |s.peers| ==> PeerOk(c, s.log, i, s.peers[i])
  }

  // ---------- the history only grows

  lemma OkGrows(c: Fleet, past: seq<Event>, more: seq<Event>, e: Event)
    requires Ok(c, past, e)
    ensures Ok(c, past + more, e)
  {
    hide P.Ping, Introduces, Opposite, WithVerb, IsPeer, RegisterSend, Verb, PingOf, PongOf, IntroOk, TailOk, ToPeer,
         IsRegister, PeerAddr;
    match e
    case Round(pers) =>
      forall x | 0 <= x < |pers|
        ensures EntryOk(c, past + more, pers[x])
      {
        EntryGrows(c, past, more, pers[x]);
      }
    case Sent(src, send) =>
      if src == c.server {
        IntroGrows(c, past, more, send);
      } else if PingOk(c, past, src, send) {
        var i: nat, rec: Record :| PingOf(c, past, src, send, i, rec);
        PingGrows(c, past, more, src, send, i, rec);
      } else if PongOk(c, past, src, send) {
        var i: nat, key: Key, rec: Record :| PongOf(c, past, src, send, i, key, rec);
        PongGrows(c, past, more, src, send, i, key, rec);
      }
  }

  lemma IntroGrows(c: Fleet, past: seq<Event>, more: seq<Event>, send: Send)
    requires send.Sealed?
    ensures IntroOk(c, past, send.to, send.rec) ==> IntroOk(c, past + more, send.to, send.rec)
  {
    hide IntroducedIn;
    assert forall x :: x in past ==> x in past + more;
  }

  lemma PingGrows(c: Fleet, past: seq<Event>, more: seq<Event>, src: Addr, send: Send, i: nat, rec: Record)
    requires PingOf(c, past, src, send, i, rec)
    ensures PingOk(c, past + more, src, send)
  {
    hide P.Ping, Verb;
    assert PingOf(c, past + more, src, send, i, rec);
  }

  lemma PongGrows(c: Fleet, past: seq<Event>, more: seq<Event>, src: Addr, send: Send, i: nat, key: Key, rec: Record)
    requires PongOf(c, past, src, send, i, key, rec)
    ensures PongOk(c, past + more, src, send)
  {
    hide Heard, Verb, WithVerb;
    assert PongOf(c, past + more, src, send, i, key, rec);
  }

  lemma EntryGrows(c: Fleet, past: seq<Event>, more: seq<Event>, q: Ipp)
    requires EntryOk(c, past, q)
    ensures EntryOk(c, past + more, q)
  {
    hide IsPeer;
    var i :| IsPeer(c, i, q) && RegisterSent(c, past, i);
    assert RegisterSent(c, past + more, i);
  }

  lemma LinkGrows(c: Fleet, log: seq<Event>, more: seq<Event>, i: nat, e: Endpoint)
    ensures LinkOk(c, log, i, e) ==> LinkOk(c, log + more, i, e)
    ensures DataRead(c, log, i) ==> DataRead(c, log + more, i)
  {
    hide Verb, Heard;
    if LinkOk(c, log, i, e) {
      var j: nat, rec: Record :| PongRead(c, log, j, i, rec, PER_PONG) && P.AddrOfEndpoint(e) == c.addrs[j];
      assert PongRead(c, log + more, j, i, rec, PER_PONG);
    }
    if DataRead(c, log, i) {
      var j: nat, rec: Record :| PongRead(c, log, j, i, rec, PER_DATA);
      assert PongRead(c, log + more, j, i, rec, PER_DATA);
    }
  }

  /** Events that are justified by the history so far may be appended together. */
  lemma LogGrows(c: Fleet, log: seq<Event>, es: seq<Event>)
    requires LogOk(c, log) && forall k :: 0 <= k < |es| ==> Ok(c, log, es[k])
    ensures LogOk(c, log + es)
  {
    hide Ok;
    forall n | 0 <= n < |log + es|
      ensures Ok(c, (log + es)[..n], (log + es)[n])
    {
      if n < |log| {
        assert (log + es)[..n] == log[..n];
      } else {
        var k := n - |log|;
        assert (log + es)[..n] == log + es[..k];
        OkGrows(c, log, es[..k], es[k]);
      }
    }
  }

  lemma ServerGrows(h: S.Hash, c: Fleet, log: seq<Event>, more: seq<Event>, s: S.Server)
    requires ServerOk(h, c, log, s)
    ensures ServerOk(h, c, log + more, s)
  {
    hide RegisterSent, KOf, IppAddr, RowIpp, TailOk;
    forall r | r in s.db.rows
      ensures RowOk(h, c, log + more, r)
    {
      var i :| IsPeer(c, i, RowIpp(r)) && RegisterSent(c, log, i) && r.k == KOf(h, c, i);
      RegisterGrows(c, log, more, i);
    }
  }

  lemma RegisterGrows(c: Fleet, log: seq<Event>, more: seq<Event>, i: nat)
    requires RegisterSent(c, log, i)
    ensures RegisterSent(c, log + more, i)
  {
  }

  lemma PeerGrows(c: Fleet, log: seq<Event>, more: seq<Event>, i: nat, p: P.Peer)
    requires Member(c, i) && PeerOk(c, log, i, p)
    ensures PeerOk(c, log + more, i, p)
  {
    hide LinkOk, DataRead;
    LinkGrows(c, log, more, i, Received(0, 0));
    forall e | e in p.pers
      ensures LinkOk(c, log + more, i, e)
    {
      LinkGrows(c, log, more, i, e);
    }
  }

  // ---------- a peer's turn

  lemma EventOk(c: Fleet, log: seq<Event>, n: nat)
    requires LogOk(c, log) && n < |log|
    ensures Ok(c, log, log[n])
  {
    hide Ok;
    OkGrows(c, log[..n], log[n..], log[n]);
    assert log[..n] + log[n..] == log;
  }

  /** What was introduced is a peer: its address and its key go together. */
  lemma IntroFacts(c: Fleet, log: seq<Event>, to: Addr, rec: Record) returns (j: nat)
    requires LogOk(c, log) && IntroOk(c, log, to, rec)
    ensures At(c, j, AddrOf(PublicA(rec), PublicP(rec))) && PublicKeys(rec) == c.keys[j]
  {
    hide PublicKeys, PublicA, PublicP, Verb, AddrOf, Role;
    var pers, x, y :| IntroducedIn(pers, x, y, to, rec) && Round(pers) in log;
    var n :| 0 <= n < |log| && log[n] == Round(pers);
    EventOk(c, log, n);
    assert EntryOk(c, log, pers[y]);
    j :| IsPeer(c, j, pers[y]) && RegisterSent(c, log, j);
  }

  /** A PING goes to a peer, under that peer's own key. */
  lemma PingFacts(c: Fleet, log: seq<Event>, src: Addr, send: Send) returns (j: nat)
    requires LogOk(c, log) && PingOk(c, log, src, send)
    ensures ToPeer(c, j, send) && Verb(send.rec) == PER_PING
  {
    hide PublicKeys, PublicA, PublicP, AddrOf, IntroOk, WithVerb, Verb, PeerSendOk, ToPeer, TailOk, P.Ping;
    var i: nat, rec: Record :| PingOf(c, log, src, send, i, rec);
    var n :| 0 <= n < |log| && log[n] == Sent(c.server, Sealed(src, c.keys[i], rec));
    EventOk(c, log, n);
    j := IntroFacts(c, log, src, rec);
    PingGoesTo(c, rec, j);
  }

  lemma PingGoesTo(c: Fleet, rec: Record, j: nat)
    requires At(c, j, AddrOf(PublicA(rec), PublicP(rec))) && PublicKeys(rec) == c.keys[j]
    ensures ToPeer(c, j, P.Ping(rec)) && Verb(P.Ping(rec).rec) == PER_PING
  {
    hide PublicA, PublicP, PublicKeys, AddrOf;
    VerbWritten(rec, PER_PING);
  }

  lemma VerbWritten(rec: Record, v: u8)
    ensures Verb(WithVerb(rec, v)) == v
  {
  }

  /** What peers send: registrations to the server, PINGs and PONGs to peers, and short data. */
  lemma PeerSendFacts(c: Fleet, log: seq<Event>, src: Addr, send: Send)
    requires LogOk(c, log) && PeerSendOk(c, log, src, send)
    ensures send.Plain? ==> |send.data| < SIZE && PeerAddr(c, send.to)
    ensures send.Sealed? && !IsRegister(c, src, send) ==>
              PeerAddr(c, send.to) && (Verb(send.rec) == PER_PING || Verb(send.rec) == PER_PONG)
    ensures send.Sealed? && Verb(send.rec) == PER_PONG ==> PongOk(c, log, src, send)
    ensures send.Sealed? && Verb(send.rec) == PER_PING ==> PingOk(c, log, src, send) && exists j :: ToPeer(c, j, send)
  {
    hide WithVerb, Verb, P.Ping, RegisterRecord, Heard, IntroOk, LogOk;
    if PingOk(c, log, src, send) {
      var j := PingFacts(c, log, src, send);
      assert At(c, j, send.to);
    } else if PongOk(c, log, src, send) {
      var i: nat, key: Key, rec: Record :| PongOf(c, log, src, send, i, key, rec);
      VerbWritten(Heard(c.keys[i], key, rec), PER_PONG);
    } else if IsRegister(c, src, send) {
      var i :| At(c, i, src) && send == RegisterSend(c, i);
      RegisterVerb(c, i);
    }
  }

  /** A PONG is under its sender's own key. */
  lemma PongKey(c: Fleet, log: seq<Event>, src: Addr, send: Send) returns (j: nat)
    requires PongOk(c, log, src, send)
    ensures send.Sealed? && At(c, j, src) && send.key == c.keys[j] && send.to.port != c.server.port
  {
    hide Heard, WithVerb, Verb, PeerAddr;
    var i: nat, key: Key, rec: Record :| PongOf(c, log, src, send, i, key, rec);
    j := i;
  }

  lemma SamePeer(c: Fleet, i: nat, j: nat, a: Addr)
    requires WellFormed(c) && At(c, i, a) && At(c, j, a)
    ensures i == j
  {
    hide RightRow, Unmasked;
  }

  lemma RegisterVerb(c: Fleet, i: nat)
    requires Member(c, i)
    ensures Verb(RegisterRecord(c, i)) == SRV_REGISTER
  {
  }

  /** A sealed record is one record, and is read back. */
  lemma OneRecord(key: Key, rec: Record)
    ensures P.RecordsOf(Seal(key, rec), key, 1) == [rec]
    ensures P.RecordAt(Seal(key, rec), key, 0) == rec
  {
    hide Seal, Open;
    OpenSeal(key, rec);
    assert Seal(key, rec)[SIZE * 0..SIZE * 0 + SIZE] == Seal(key, rec);
  }

  /** How a peer reacts to one sealed record, whatever key it is under. */
  lemma ReactToRecord(p: P.Peer, src: Addr, key: Key, rec: Record, now: int, clock: int)
    ensures var heard := Heard(p.key, key, rec);
            P.React(p, Inbound(src, Seal(key, rec)), now, clock)
            == if P.FromServer(p, src) then P.Reaction(P.SrvState(p, heard, now, clock), P.SrvSends(heard), 0, false)
               else P.PerProcess(p, src, heard, now)
  {
    hide Seal, Open, P.RecordAt, P.RecordsOf, P.SrvState, P.SrvSends, P.PerProcess, P.FromServer;
    var heard := Heard(p.key, key, rec);
    OpenSeal(p.key, Seal(key, rec));
    OneRecord(p.key, heard);
    assert Seal(p.key, heard) == Seal(key, rec);
    SrvAllOne(p, heard, now, clock);
  }

  lemma SrvAllOne(p: P.Peer, rec: Record, now: int, clock: int)
    ensures P.SrvAllState(p, [rec], now, clock) == P.SrvState(p, rec, now, clock)
    ensures P.SrvAllSends([rec]) == P.SrvSends(rec)
  {
    hide P.SrvState, P.SrvSends;
    assert [rec][..0] == [];
    assert P.SrvAllSends([]) == [] && P.SrvAllState(p, [], now, clock) == p;
    assert P.SrvAllSends([rec]) == [] + P.SrvSends(rec);
  }

  ghost predicate SendsOk(c: Fleet, log: seq<Event>, src: Addr, ss: seq<Send>) {
    forall k :: 0 <= k < |ss| ==> Ok(c, log, Sent(src, ss[k]))
  }

  lemma ServerPort(c: Fleet, p: P.Peer, src: Addr)
    requires WellFormed(c) && p.server == ServerEndpoint(c) && src.port != 0
    ensures P.FromServer(p, src) <==> src.port == c.server.port
  {
    hide RightRow, Unmasked, And;
    ReceivedComparesPorts(src.ip, src.port, p.server);
  }

  /** The packet at position n, delivered to peer i, leaves it in order and makes it send only what
      the history justifies. */
  lemma ReactOk(c: Fleet, log: seq<Event>, i: nat, p: P.Peer, n: nat, now: int, clock: int)
    requires WellFormed(c) && LogOk(c, log) && n < |log| && Member(c, i) && PeerOk(c, log, i, p)
    requires log[n].Sent? && log[n].send.to == c.addrs[i]
    ensures var r := P.React(p, Inbound(log[n].src, Payload(log[n].send)), now, clock);
            && !r.died && PeerOk(c, log, i, r.peer) && SendsOk(c, log, c.addrs[i], r.sends)
            && (p.status == PER_LINKED ==> r.peer.status == PER_LINKED)
  {
    hide Seal, Heard, LogOk, RightRow, Unmasked, LinkOk, DataRead, IntroOk, WithVerb, PortSorted, And, Eq,
         RegisterSend, Verb, ToPeer, PongOk, PingOk, P.React, IsRegister;
    var src, send := log[n].src, log[n].send;
    assert At(c, i, send.to);
    EventOk(c, log, n);
    if src == c.server {
      ReactToServer(c, log, i, p, src, send, now, clock);
    } else {
      PeerSendFacts(c, log, src, send);
      if send.Plain? {
        ReactToText(p, src, send.data, now, clock);
        assert SendsOk(c, log, c.addrs[i], []);
      } else {
        assert IsRegister(c, src, send) ==> send.to == c.server by { RegisterTo(c, src, send); }
        ReactToPeer(c, log, i, p, src, send, now, clock);
      }
    }
  }

  lemma ReactToText(p: P.Peer, src: Addr, data: seq<u8>, now: int, clock: int)
    requires |data| < SIZE
    ensures var r := P.React(p, Inbound(src, data), now, clock); !r.died && r.peer == p && r.sends == []
  {
  }

  lemma RegisterTo(c: Fleet, src: Addr, send: Send)
    ensures IsRegister(c, src, send) ==> send.to == c.server
  {
  }

  lemma OwnKey(c: Fleet, i: nat, send: Send)
    requires WellFormed(c) && Member(c, i) && send.Sealed? && send.to == c.addrs[i] && exists x :: ToPeer(c, x, send)
    ensures send.key == c.keys[i] && Heard(c.keys[i], send.key, send.rec) == send.rec
  {
    hide RightRow, Unmasked, Heard, HeardHead;
    var x :| ToPeer(c, x, send);
    SamePeer(c, i, x, send.to);
    SameKeyHears(c.keys[i], send.rec, HeadOf(send.rec));
  }

  lemma ReactToServer(c: Fleet, log: seq<Event>, i: nat, p: P.Peer, src: Addr, send: Send, now: int, clock: int)
    requires WellFormed(c) && LogOk(c, log) && Member(c, i) && PeerOk(c, log, i, p)
    requires src == c.server && send.to == c.addrs[i] && Sent(src, send) in log && ServerSendOk(c, log, send)
    ensures var r := P.React(p, Inbound(src, Payload(send)), now, clock);
            && !r.died && PeerOk(c, log, i, r.peer) && SendsOk(c, log, c.addrs[i], r.sends)
            && (p.status == PER_LINKED ==> r.peer.status == PER_LINKED)
  {
    hide Seal, Heard, LogOk, RightRow, Unmasked, LinkOk, DataRead, IntroOk, TailOk, WithVerb, PortSorted, P.Ping,
         P.FromServer, RegisterSend, P.React, ToPeer;
    OwnKey(c, i, send);
    ServerPort(c, p, src);
    ReactToRecord(p, src, send.key, send.rec, now, clock);
    assert At(c, i, c.addrs[i]);
    if Verb(send.rec) == SRV_SET_PEER {
      assert PingOf(c, log, c.addrs[i], P.Ping(send.rec), i, send.rec);
    }
  }

  /** Peers send each other PINGs, under the key of the receiver, and PONGs, under the key of the
      sender: from the server's port all of them are read as what they are, and change nothing. */
  lemma ReactToPeer(c: Fleet, log: seq<Event>, i: nat, p: P.Peer, src: Addr, send: Send, now: int, clock: int)
    requires WellFormed(c) && LogOk(c, log) && Member(c, i) && PeerOk(c, log, i, p)
    requires PeerAddr(c, src) && send.Sealed? && send.to == c.addrs[i] && Sent(src, send) in log
    requires Verb(send.rec) == PER_PING || Verb(send.rec) == PER_PONG
    requires Verb(send.rec) == PER_PING ==> exists x :: ToPeer(c, x, send)
    requires Verb(send.rec) == PER_PONG ==> PongOk(c, log, src, send)
    ensures var r := P.React(p, Inbound(src, Payload(send)), now, clock);
            && !r.died && PeerOk(c, log, i, r.peer) && SendsOk(c, log, c.addrs[i], r.sends)
            && (p.status == PER_LINKED ==> r.peer.status == PER_LINKED)
  {
    hide Seal, Heard, LogOk, RightRow, IntroOk, WithVerb, PortSorted, P.FromServer, RegisterSend, P.React, Insert,
         Verb, PingOk, PongOk, LinkOk, DataRead, ToPeer, P.PerProcess, Ok;
    ReactToRecord(p, src, send.key, send.rec, now, clock);
    ServerPort(c, p, src);
    if Verb(send.rec) == PER_PING {
      OwnKey(c, i, send);
    } else {
      var j := PongKey(c, log, src, send);
      if P.FromServer(p, src) {
        SameKeyHears(c.keys[i], send.rec, HeadOf(send.rec));
      }
    }
    if P.FromServer(p, src) {
      assert Heard(p.key, send.key, send.rec) == send.rec;
      NoServerVerb(p, send.rec, now, clock);
      assert SendsOk(c, log, c.addrs[i], []);
    } else {
      PerProcessOk(c, log, i, p, src, send, now);
    }
  }

  lemma NoServerVerb(p: P.Peer, rec: Record, now: int, clock: int)
    requires Verb(rec) == PER_PING || Verb(rec) == PER_PONG
    ensures P.SrvState(p, rec, now, clock) == p.(pingtime := now) && P.SrvSends(rec) == []
  {
  }

  lemma PerProcessOk(c: Fleet, log: seq<Event>, i: nat, p: P.Peer, src: Addr, send: Send, now: int)
    requires WellFormed(c) && Member(c, i) && PeerOk(c, log, i, p)
    requires PeerAddr(c, src) && src.port != c.server.port && send.Sealed? && send.to == c.addrs[i]
    requires Sent(src, send) in log
    requires (Verb(send.rec) == PER_PING && Heard(p.key, send.key, send.rec) == send.rec)
             || (Verb(send.rec) == PER_PONG && PongOk(c, log, src, send))
    ensures var r := P.PerProcess(p, src, Heard(p.key, send.key, send.rec), now);
            && PeerOk(c, log, i, r.peer) && SendsOk(c, log, c.addrs[i], r.sends)
            && (p.status == PER_LINKED ==> r.peer.status == PER_LINKED)
  {
    hide Heard, RightRow, Unmasked, WithVerb, PortSorted, RegisterSend, Insert, Verb, PingOk, PongOk, LinkOk,
         DataRead, IsRegister;
    var heard := Heard(p.key, send.key, send.rec);
    assert At(c, i, c.addrs[i]);
    if Verb(heard) == PER_PING {
      assert PongOf(c, log, c.addrs[i], Sealed(src, c.keys[i], WithVerb(heard, PER_PONG)), i, send.key, send.rec);
      PongMeans(c, log, c.addrs[i], Sealed(src, c.keys[i], WithVerb(heard, PER_PONG)), i, send.key, send.rec);
    } else if Verb(heard) == PER_PONG || Verb(heard) == PER_DATA {
      PongFrom(c, log, i, src, send, Verb(heard));
      InsertReceived(p.pers, src.ip, src.port);
    }
  }

  lemma PongMeans(c: Fleet, log: seq<Event>, src: Addr, send: Send, i: nat, key: Key, rec: Record)
    requires PongOf(c, log, src, send, i, key, rec)
    ensures PongOk(c, log, src, send)
  {
  }

  /** A PONG that is read as a PONG links, and one that is read as data counts as data. */
  lemma PongFrom(c: Fleet, log: seq<Event>, i: nat, src: Addr, send: Send, verb: u8)
    requires Member(c, i) && send.Sealed? && send.to == c.addrs[i] && Sent(src, send) in log
    requires Verb(send.rec) == PER_PONG && PongOk(c, log, src, send)
    requires Verb(Heard(c.keys[i], send.key, send.rec)) == verb
    ensures verb == PER_PONG ==> LinkOk(c, log, i, P.Rsin(src))
    ensures verb == PER_DATA ==> DataRead(c, log, i)
  {
    hide Heard, Verb, PongOk;
    var j := PongKey(c, log, src, send);
    assert PongRead(c, log, j, i, send.rec, verb);
  }

  lemma SendsAppend(c: Fleet, log: seq<Event>, src: Addr, a: seq<Send>, b: seq<Send>)
    requires SendsOk(c, log, src, a) && SendsOk(c, log, src, b)
    ensures SendsOk(c, log, src, a + b)
  {
    hide Ok;
  }

  lemma SendsGrow(c: Fleet, log: seq<Event>, src: Addr, ss: seq<Send>)
    requires LogOk(c, log) && SendsOk(c, log, src, ss)
    ensures LogOk(c, log + SentAll(src, ss))
  {
    hide Ok, LogOk;
    LogGrows(c, log, SentAll(src, ss));
  }

  lemma TimerOk(c: Fleet, log: seq<Event>, i: nat, p: P.Peer, now: int)
    requires WellFormed(c) && Member(c, i) && PeerOk(c, log, i, p)
    ensures PeerOk(c, log, i, P.AfterTimer(p, now)) && SendsOk(c, log, c.addrs[i], P.TimerSends(p, now))
  {
    hide LinkOk, DataRead, PortSorted, RightRow, Unmasked, PingOk, PongOk, DataOk;
    P.VerbOnly(p.cap, SRV_REGISTER);
    assert WithVerb(p.cap, SRV_REGISTER) == RegisterRecord(c, i);
    assert At(c, i, c.addrs[i]);
  }

  /** Who answered with a PONG is a peer. */
  lemma LinkAddr(c: Fleet, log: seq<Event>, i: nat, e: Endpoint)
    requires WellFormed(c) && LinkOk(c, log, i, e)
    ensures PeerAddr(c, P.AddrOfEndpoint(e)) && P.AddrOfEndpoint(e) != c.server
  {
    hide Verb, Heard, RightRow, Unmasked;
    var j: nat, rec: Record :| PongRead(c, log, j, i, rec, PER_PONG) && P.AddrOfEndpoint(e) == c.addrs[j];
    assert At(c, j, c.addrs[j]);
  }

  lemma LinesOk(c: Fleet, log: seq<Event>, i: nat, p: P.Peer, text: Option<seq<u8>>)
    requires WellFormed(c) && LogOk(c, log) && Member(c, i) && PeerOk(c, log, i, p)
    requires text.Some? ==> |text.value| < SIZE
    ensures SendsOk(c, log, c.addrs[i], P.LineSends(p, text))
  {
    hide LogOk, LinkOk, DataRead, RightRow, Unmasked, PortSorted, PingOk, PongOk, IsRegister;
    var ss := P.LineSends(p, text);
    assert At(c, i, c.addrs[i]);
    forall k | 0 <= k < |ss|
      ensures Ok(c, log, Sent(c.addrs[i], ss[k]))
    {
      LinkAddr(c, log, i, p.pers[k]);
      assert DataOk(c, ss[k]);
    }
  }

  lemma HereOk(c: Fleet, log: seq<Event>, i: nat, p: P.Peer, now: int)
    requires Member(c, i) && PeerOk(c, log, i, p)
    ensures PeerOk(c, log, i, P.AfterHere(p, now))
  {
    hide LinkOk, DataRead, PortSorted;
  }

  lemma PeerTurnOk(h: S.Hash, c: Fleet, s: Sys, step: Step)
    requires WellFormed(c) && Inv(h, c, s) && step.PeerStep? && Enabled(c, s, step)
    ensures var r := P.Turn(s.peers[step.who], PeerInput(c, s, step));
            && !r.died && PeerOk(c, s.log, step.who, r.peer) && SendsOk(c, s.log, c.addrs[step.who], r.sends)
  {
    hide LogOk, PeerOk, SendsOk, ServerOk, RightRow, P.React, P.AfterTimer, P.TimerSends, P.AfterHere, P.LineSends,
         Payload;
    var i, p, now := step.who, s.peers[step.who], step.now;
    TimerOk(c, s.log, i, p, now);
    var p1 := P.AfterTimer(p, now);
    var r := P.Handled(p1, PeerInput(c, s, step));
    if step.delivery.Some? {
      ReactOk(c, s.log, i, p1, step.delivery.value, now, step.clock);
    } else {
      NoSends(c, s.log, c.addrs[i]);
    }
    HereOk(c, s.log, i, r.peer, now);
    LinesOk(c, s.log, i, P.AfterHere(r.peer, now), step.text);
    SendsAppend(c, s.log, c.addrs[i], P.TimerSends(p, now), r.sends);
    SendsAppend(c, s.log, c.addrs[i], P.TimerSends(p, now) + r.sends, P.LineSends(P.AfterHere(r.peer, now), step.text));
  }

  lemma NoSends(c: Fleet, log: seq<Event>, src: Addr)
    ensures SendsOk(c, log, src, [])
  {
  }

  lemma PeerStepKeeps(h: S.Hash, c: Fleet, s: Sys, step: Step)
    requires WellFormed(c) && Inv(h, c, s) && step.PeerStep? && Enabled(c, s, step)
    ensures Inv(h, c, PeerNext(c, s, step))
  {
    hide LogOk, PeerOk, SendsOk, ServerOk, RightRow, P.Turn, PeerInput;
    PeerTurnOk(h, c, s, step);
    var r := P.Turn(s.peers[step.who], PeerInput(c, s, step));
    var more := SentAll(c.addrs[step.who], r.sends);
    SendsGrow(c, s.log, c.addrs[step.who], r.sends);
    ServerGrows(h, c, s.log, more, s.server);
    forall i | 0 <= i < |s.peers|
      ensures PeerOk(c, s.log + more, i, PeerNext(c, s, step).peers[i])
    {
      PeerGrows(c, s.log, more, i, PeerNext(c, s, step).peers[i]);
    }
  }

  // ---------- the server's iteration

  /** What is addressed to the server is a registration. */
  lemma ToServer(c: Fleet, log: seq<Event>, n: nat)
    requires WellFormed(c) && LogOk(c, log) && n < |log| && log[n].Sent? && log[n].send.to == c.server
    ensures IsRegister(c, log[n].src, log[n].send)
  {
    hide LogOk, RightRow, Unmasked, RegisterSend, IntroOk, TailOk, Verb, PingOk, PongOk, PeerSendOk, IsRegister;
    EventOk(c, log, n);
    assert !PeerAddr(c, c.server);
    if log[n].src != c.server {
      PeerSendFacts(c, log, log[n].src, log[n].send);
    }
  }

  /** The server reads a registration as it was written, under its sender's own key, or not at all. */
  lemma RegistrationRead(c: Fleet, s: S.Server, i: S.Input, k: nat)
    requires RightRow(c) && s.mids == c.mids && Member(c, k)
    requires i.inbound == Some(Inbound(c.addrs[k], Payload(RegisterSend(c, k))))
    ensures S.Authorised(s, i) <==> CanRegister(c, k)
    ensures S.Authorised(s, i) ==> S.AuthKeys(s, i) == c.keys[k] && S.ClearRecord(s, i) == RegisterRecord(c, k)
    ensures S.Request(i) == Seal(c.keys[k], RegisterRecord(c, k)) == i.inbound.value.payload
  {
    hide Seal, Open, ToKeys, RegisterRecord, FirstAuth;
    assert S.Request(i) == Seal(c.keys[k], RegisterRecord(c, k));
    OpenSeal(c.keys[k], RegisterRecord(c, k));
  }

  /** The row of a registration is its peer. */
  lemma NewRowOk(h: S.Hash, c: Fleet, log: seq<Event>, k: nat, id: nat, refs: int, now: int)
    requires Member(c, k) && Sent(c.addrs[k], RegisterSend(c, k)) in log
    ensures RowOk(h, c, log, RowOf(S.EntryOf(h, RegisterRecord(c, k), c.addrs[k], c.keys[k]), id, refs, now))
  {
    hide RegisterSend, IppA, IppP, AddrOf, RowIpp, S.RegistrantOf, CString;
    var e := S.EntryOf(h, RegisterRecord(c, k), c.addrs[k], c.keys[k]);
    RowReadsBack(e, id, refs, now);
    AddrReturns(c.addrs[k]);
    assert Typ(RegisterRecord(c, k)) == Role(c, k);
    assert IsPeer(c, k, RowIpp(RowOf(e, id, refs, now)));
    assert RegisterSent(c, log, k);
  }

  lemma TouchOk(h: S.Hash, c: Fleet, log: seq<Event>, rows: seq<Row>, which: Row -> bool, now: int)
    requires RowsOk(h, c, log, rows)
    ensures RowsOk(h, c, log, Touch(rows, which, now))
  {
    hide KOf, RegisterSent;
    forall r | r in Touch(rows, which, now)
      ensures RowOk(h, c, log, r)
    {
      var j :| 0 <= j < |rows| && Touch(rows, which, now)[j] == r;
      assert rows[j] in rows && RowIpp(r) == RowIpp(rows[j]);
      var i :| IsPeer(c, i, RowIpp(rows[j])) && RegisterSent(c, log, i) && rows[j].k == KOf(h, c, i);
      assert IsPeer(c, i, RowIpp(r));
    }
  }

  lemma UpsertOk(h: S.Hash, c: Fleet, log: seq<Event>, db: Db, k: nat, now: int)
    requires Member(c, k) && Sent(c.addrs[k], RegisterSend(c, k)) in log && RowsOk(h, c, log, db.rows)
    ensures RowsOk(h, c, log, Upsert(db, S.EntryOf(h, RegisterRecord(c, k), c.addrs[k], c.keys[k]), now).rows)
  {
    hide RowOk, RegisterSend, S.EntryOf, Touch;
    var e := S.EntryOf(h, RegisterRecord(c, k), c.addrs[k], c.keys[k]);
    if HasK(db.rows, e.k) {
      TouchOk(h, c, log, db.rows, WithK(e.k), now);
    } else {
      NewRowOk(h, c, log, k, db.nextId, LastRef(db.rows, e.name) + 1, now);
    }
  }

  lemma ReplyOk(c: Fleet, log: seq<Event>, k: nat)
    requires Member(c, k)
    ensures SendsOk(c, log, c.server, [Sealed(c.addrs[k], c.keys[k], S.Registered(RegisterRecord(c, k)))])
  {
    hide RegisterRecord;
    VerbWritten(RegisterRecord(c, k), SRV_REGISTERRED);
    assert ToPeer(c, k, Sealed(c.addrs[k], c.keys[k], S.Registered(RegisterRecord(c, k))));
  }

  lemma TailsAre(c: Fleet, k: nat)
    requires Member(c, k)
    ensures TailOf(RegisterRecord(c, k)) == TailOf(c.caps[k])
    ensures TailOf(S.Registered(RegisterRecord(c, k))) == TailOf(c.caps[k])
  {
  }

  lemma FilledWhole(pl: Record, payload: Record)
    ensures S.Filled(pl, payload) == payload
  {
  }

  /** What a registration of peer k leaves behind the verb of the server's packet, authorised or not. */
  lemma TailLeft(h: S.Hash, c: Fleet, s: S.Server, i: S.Input, k: nat)
    requires RightRow(c) && s.mids == c.mids && Member(c, k)
    requires i.inbound == Some(Inbound(c.addrs[k], Payload(RegisterSend(c, k))))
    ensures TailOf(S.Receive(h, s, i).server.pl) == TailAfter(c, k)
  {
    hide RightRow, S.Authorised, S.AuthKeys, S.ClearRecord, S.Filled, S.Registered, CanRegister, RegisterSend,
         RegisterRecord, Upsert, S.EntryOf, TailOf, Seal;
    RegistrationRead(c, s, i, k);
    RegisterVerb(c, k);
    TailsAre(c, k);
    FilledWhole(s.pl, i.inbound.value.payload);
  }

  /** An authorised registration is stored, unless it is a repetition or the database does not answer. */
  lemma RowsLeft(h: S.Hash, c: Fleet, s: S.Server, i: S.Input, k: nat)
    requires RightRow(c) && s.mids == c.mids && Member(c, k)
    requires i.inbound == Some(Inbound(c.addrs[k], Payload(RegisterSend(c, k))))
    ensures var r := S.Receive(h, s, i);
            && r.server.mids == s.mids
           
            && (|| r.server.db == s.db
                || r.server.db == Upsert(s.db, S.EntryOf(h, RegisterRecord(c, k), c.addrs[k], c.keys[k]), i.now))
            && (r.replies == [] || r.replies == [Sealed(c.addrs[k], c.keys[k], S.Registered(RegisterRecord(c, k)))])
            && r.server.pingpers == s.pingpers
  {
    hide RightRow, S.Authorised, S.AuthKeys, S.ClearRecord, S.Filled, S.Registered, CanRegister, RegisterSend,
         RegisterRecord, Upsert, S.EntryOf, Seal;
    RegistrationRead(c, s, i, k);
    RegisterVerb(c, k);
  }

  lemma ReceiveOk(h: S.Hash, c: Fleet, s: Sys, step: Step)
    requires WellFormed(c) && Inv(h, c, s) && step.ServerStep? && Enabled(c, s, step)
    ensures var r := S.Receive(h, s.server, ServerInput(c, s, step));
            && ServerOk(h, c, s.log, r.server) && SendsOk(c, s.log, c.server, r.replies)
  {
    hide LogOk, PeerOk, SendsOk, RightRow, Unmasked, RowsOk, Payload, S.Receive, RegisterSend, RegisterRecord, Upsert,
         S.Registered, S.EntryOf, TailAfter, TailOf;
    var i := ServerInput(c, s, step);
    NoSends(c, s.log, c.server);
    if step.delivery.Some? {
      var n := step.delivery.value;
      ToServer(c, s.log, n);
      var k :| At(c, k, s.log[n].src) && s.log[n].send == RegisterSend(c, k);
      TailLeft(h, c, s.server, i, k);
      RowsLeft(h, c, s.server, i, k);
      ReplyOk(c, s.log, k);
      UpsertOk(h, c, s.log, s.server.db, k, i.now);
    } else {
      S.QuietReceive(h, s.server, i);
    }
  }

  lemma RowsAre(h: S.Hash, c: Fleet, log: seq<Event>, s: S.Server)
    ensures ServerOk(h, c, log, s) <==>
              (&& s.mids == c.mids && RowsOk(h, c, log, s.db.rows)
               && (s.db.rows != [] ==> TailOk(c, TailOf(s.pl))))
  {
  }

  lemma RoundOk(h: S.Hash, c: Fleet, log: seq<Event>, rows: seq<Row>)
    requires RowsOk(h, c, log, rows)
    ensures Ok(c, log, Round(Pers(rows)))
  {
    hide IsPeer, RegisterSent, KOf;
    forall x | 0 <= x < |Pers(rows)|
      ensures EntryOk(c, log, Pers(rows)[x])
    {
      assert RowOk(h, c, log, rows[x]);
    }
  }

  /** Every packet of a round is justified once the round is in the history. */
  lemma RoundSendsOk(c: Fleet, log: seq<Event>, pers: seq<Ipp>, pl: Record)
    requires Round(pers) in log && Ok(c, log, Round(pers)) && (pers != [] ==> TailOk(c, TailOf(pl)))
    ensures SendsOk(c, log, c.server, RoundSends(pers, pl).sends)
  {
    hide RoundSends, RoundTags, Introduces, Verb, IppAddr, Opposite, TailOk, TailOf, Gap, To;
    RoundFulfils(pers, pl);
    RoundGap(pers, pl);
    var ss, tags := RoundSends(pers, pl).sends, RoundTags(pers);
    forall k | 0 <= k < |ss|
      ensures Ok(c, log, Sent(c.server, ss[k]))
    {
      assert ss[k] in ss && Fulfils(ss[k], pers, tags[k]);
      GapTail(ss[k].rec, pl);
      var x := tags[k].to;
      assert EntryOk(c, log, pers[x]);
      var i :| IsPeer(c, i, pers[x]) && RegisterSent(c, log, i);
      ToEntry(c, i, pers[x], ss[k]);
      if tags[k].Intro? {
        assert ss[k].to == IppAddr(pers[x]) by { S.ToIs(pers[x], ss[k].rec); }
        assert IntroducedIn(pers, x, tags[k].about, ss[k].to, ss[k].rec);
        IntroVerb(ss[k].rec, pers[tags[k].about]);
      }
    }
  }

  lemma GapTail(r: Record, r': Record)
    requires Gap(r) == Gap(r')
    ensures TailOf(r) == TailOf(r')
  {
    assert Gap(r)[..15] == r[1..UNION] && Gap(r')[..15] == r'[1..UNION];
    assert TailOf(r) == r[1..UNION][..7] && TailOf(r') == r'[1..UNION][..7];
  }

  lemma ToEntry(c: Fleet, i: nat, q: Ipp, send: Send)
    requires IsPeer(c, i, q) && send.Sealed? && send == To(q, send.rec)
    ensures ToPeer(c, i, send)
  {
  }

  lemma IntroVerb(rec: Record, q: Ipp)
    ensures Introduces(rec, q) ==> Verb(rec) == SRV_SET_PEER
  {
  }

  lemma DeleteOk(h: S.Hash, c: Fleet, log: seq<Event>, rows: seq<Row>, which: Row -> bool)
    requires RowsOk(h, c, log, rows)
    ensures RowsOk(h, c, log, Delete(rows, which))
  {
    hide RowOk;
    DeleteMembers(rows, which);
  }

  lemma NoneLeft(rows: seq<Row>, which: Row -> bool)
    ensures rows == [] ==> Delete(rows, which) == []
    ensures |Pers(rows)| == |rows|
  {
  }

  lemma ServerStepKeeps(h: S.Hash, c: Fleet, s: Sys, step: Step)
    requires WellFormed(c) && Inv(h, c, s) && step.ServerStep? && Enabled(c, s, step)
    ensures Inv(h, c, ServerNext(h, c, s, step))
  {
    hide LogOk, PeerOk, SendsOk, ServerOk, RowsOk, RightRow, Unmasked, S.Receive, RoundSends, Pers, Delete,
         ServerInput, Ok, Gap, TailOf, TailOk;
    var i := ServerInput(c, s, step);
    var o := S.Iterate(h, s.server, i);
    ReceiveOk(h, c, s, step);
    var r := S.Receive(h, s.server, i);
    var log1 := s.log + SentAll(c.server, r.replies);
    SendsGrow(c, s.log, c.server, r.replies);
    ServerGrows(h, c, s.log, SentAll(c.server, r.replies), r.server);
    var log2 := log1 + RoundEvents(o);
    if o.round.Some? {
      RowsAre(h, c, log1, r.server);
      RoundOk(h, c, log1, r.server.db.rows);
      LogGrows(c, log1, [Round(o.round.value)]);
      OkGrows(c, log1, [Round(o.round.value)], Round(o.round.value));
      RoundSendsOk(c, log2, o.round.value, r.server.pl);
      DeleteOk(h, c, log1, r.server.db.rows, Old(i.now));
      RoundGap(o.round.value, r.server.pl);
      GapTail(o.server.pl, r.server.pl);
      NoneLeft(r.server.db.rows, Old(i.now));
      RowsAre(h, c, log1, o.server);
    } else {
      assert log2 == log1;
      NoSends(c, log2, c.server);
    }
    SendsGrow(c, log2, c.server, o.roundSends);
    var more := RoundEvents(o) + SentAll(c.server, o.roundSends);
    assert ServerNext(h, c, s, step).log == log1 + more == log2 + SentAll(c.server, o.roundSends);
    ServerGrows(h, c, log1, more, o.server);
    var all := SentAll(c.server, r.replies) + more;
    assert ServerNext(h, c, s, step).log == s.log + all;
    forall j | 0 <= j < |s.peers|
      ensures PeerOk(c, s.log + all, j, s.peers[j])
    {
      PeerGrows(c, s.log, all, j, s.peers[j]);
    }
  }

  // ---------- every run

  lemma InitOk(h: S.Hash, c: Fleet)
    requires WellFormed(c)
    ensures Inv(h, c, Init(c))
  {
    hide RightRow, Unmasked;
  }

  lemma StepKeeps(h: S.Hash, c: Fleet, s: Sys, step: Step)
    requires WellFormed(c) && Inv(h, c, s)
    ensures Inv(h, c, Next(h, c, s, step))
  {
    hide Inv, WellFormed, PeerNext, ServerNext;
    if Enabled(c, s, step) {
      if step.PeerStep? {
        PeerStepKeeps(h, c, s, step);
      } else {
        ServerStepKeeps(h, c, s, step);
      }
    }
  }

  lemma {:induction false} Invariant(h: S.Hash, c: Fleet, steps: seq<Step>)
    requires WellFormed(c)
    ensures Inv(h, c, Exec(h, c, steps))
  {
    hide Inv, WellFormed, Next, Init;
    if steps == [] {
      InitOk(h, c);
    } else {
      Invariant(h, c, steps[..|steps| - 1]);
      StepKeeps(h, c, Exec(h, c, steps[..|steps| - 1]), steps[|steps| - 1]);
    }
  }

}
