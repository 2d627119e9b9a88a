/** What the protocol achieves in every reachable state: why a peer is in another's set, where PINGs go
    and under which key, and whose text is heard. */
module Linking {
  import opened Bytes
  import opened Text
  import opened Xtea
  import opened Endpoints
  import opened Records
  import opened Hearing
  import opened Tables
  import opened Wires
  import opened Introductions
  import opened Protocol
  import S = Servers
  import P = Peers

  /** The history of one exchange: peer a was introduced to peer b and pinged it. Positions of the two
      registrations, of the round, of the introduction and of the PING, with the entries of the round
      and the record that travelled. */
  datatype Story = Story(a: nat, b: nat, regA: nat, regB: nat, round: nat, intro: nat, ping: nat,
                         pers: seq<Ipp>, x: nat, y: nat, rec: Record)

  ghost predicate Registered(c: Fleet, log: seq<Event>, st: Story) {
    && st.regA < st.round && st.regB < st.round < st.intro < |log|
    && st.x < |st.pers| && st.y < |st.pers|
    && IsPeer(c, st.a, st.pers[st.x]) && IsPeer(c, st.b, st.pers[st.y]) && Role(c, st.a) != Role(c, st.b)
    && log[st.regA] == Sent(c.addrs[st.a], RegisterSend(c, st.a))
    && log[st.regB] == Sent(c.addrs[st.b], RegisterSend(c, st.b))
    && log[st.round] == Round(st.pers)
  }

  /** Both peers registered; a round found both rows, in opposite roles; the server introduced b to a;
      and a pinged b with that very record, under the keys introduced. */
  ghost predicate Pinged(c: Fleet, log: seq<Event>, st: Story) {
    && Registered(c, log, st) && st.intro < st.ping < |log|
    && log[st.intro] == Sent(c.server, Sealed(c.addrs[st.a], c.keys[st.a], st.rec)) && Introduces(st.rec, st.pers[st.y])
    && log[st.ping] == Sent(c.addrs[st.a], To(st.pers[st.y], WithVerb(st.rec, PER_PING)))
  }

  /** Peer i has the endpoint e in its set because of this: e is peer j, which sent the PONG at `pong`,
      and i reads it as a PONG; it ends an exchange that began with a PING of one of the two. When they
      have the same key, the PING is i's, and the PONG repeats its record. */
  ghost predicate Tells(c: Fleet, log: seq<Event>, i: nat, j: nat, e: Endpoint, st: Story, pong: nat, answer: Record) {
    && Pinged(c, log, st) && st.ping < pong < |log|
    && ((st.a == i && st.b == j) || (st.a == j && st.b == i))
    && Member(c, i) && Member(c, j) && P.AddrOfEndpoint(e) == c.addrs[j]
    && log[pong] == Sent(c.addrs[j], Sealed(c.addrs[i], c.keys[j], answer))
    && Verb(answer) == PER_PONG && Verb(Heard(c.keys[i], c.keys[j], answer)) == PER_PONG
    && (c.keys[i] == c.keys[j] ==> st.a == i && answer == WithVerb(WithVerb(st.rec, PER_PING), PER_PONG))
  }

  lemma LogPrefix(c: Fleet, log: seq<Event>, n: nat)
    requires LogOk(c, log) && n <= |log|
    ensures LogOk(c, log[..n])
  {
    hide Ok;
    forall k | 0 <= k < n
      ensures Ok(c, log[..n][..k], log[..n][k])
    {
      assert log[..n][..k] == log[..k];
    }
  }

  lemma Position(log: seq<Event>, n: nat, e: Event) returns (k: nat)
    requires n <= |log| && e in log[..n]
    ensures k < n && log[k] == e
  {
    k :| 0 <= k < n && log[..n][k] == e;
  }

  lemma UseLog(c: Fleet, log: seq<Event>, n: nat)
    requires LogOk(c, log) && n < |log|
    ensures Ok(c, log[..n], log[n])
  {
  }

  /** What a peer sent to a peer is a PING, under the receiver's key, or a PONG, under its own. */
  lemma PeerSent(c: Fleet, log: seq<Event>, n: nat, a: nat, b: nat, send: Send)
    requires WellFormed(c) && LogOk(c, log) && n < |log| && Member(c, a) && Member(c, b)
    requires log[n] == Sent(c.addrs[a], send) && send.Sealed? && send.to == c.addrs[b]
    ensures Verb(send.rec) == PER_PING || Verb(send.rec) == PER_PONG
    ensures Verb(send.rec) == PER_PING ==> send.key == c.keys[b] && PingOk(c, log[..n], c.addrs[a], send)
    ensures Verb(send.rec) == PER_PONG ==> send.key == c.keys[a] && PongOk(c, log[..n], c.addrs[a], send)
  {
    hide LogOk, RightRow, Unmasked, PingOk, PongOk, PeerSendOk, Verb, Heard, IsRegister, DataOk, ToPeer;
    UseLog(c, log, n);
    LogPrefix(c, log, n);
    PeerSendFacts(c, log[..n], c.addrs[a], send);
    assert IsRegister(c, c.addrs[a], send) ==> send.to == c.server by { RegisterTo(c, c.addrs[a], send); }
    if Verb(send.rec) == PER_PING {
      OwnKey(c, b, send);
    } else {
      var j := PongKey(c, log[..n], c.addrs[a], send);
      SamePeer(c, a, j, c.addrs[a]);
    }
  }

  /** From the PONG of peer j to peer i back to the record of i that j read as a PING. */
  lemma PongBecause(c: Fleet, log: seq<Event>, pong: nat, j: nat, i: nat, answer: Record)
    returns (n: nat, key: Key, rec: Record)
    requires WellFormed(c) && LogOk(c, log) && pong < |log| && Member(c, i) && Member(c, j) && Verb(answer) == PER_PONG
    requires log[pong] == Sent(c.addrs[j], Sealed(c.addrs[i], c.keys[j], answer))
    ensures n < pong && log[n] == Sent(c.addrs[i], Sealed(c.addrs[j], key, rec))
    ensures Verb(Heard(c.keys[j], key, rec)) == PER_PING && answer == WithVerb(Heard(c.keys[j], key, rec), PER_PONG)
    ensures c.addrs[i].port != c.server.port
  {
    hide LogOk, RightRow, Unmasked, WithVerb, PingOk, Heard, Verb;
    PeerSent(c, log, pong, j, i, Sealed(c.addrs[i], c.keys[j], answer));
    var j': nat, key', rec': Record :| PongOf(c, log[..pong], c.addrs[j], Sealed(c.addrs[i], c.keys[j], answer), j', key', rec');
    SamePeer(c, j, j', c.addrs[j]);
    n := Position(log, pong, Sent(c.addrs[i], Sealed(c.addrs[j], key', rec')));
    key, rec := key', rec';
  }

  /** From the PING back to the introduction. */
  lemma PingBecause(c: Fleet, log: seq<Event>, ping: nat, a: nat, send: Send) returns (intro: nat, rec: Record)
    requires WellFormed(c) && LogOk(c, log) && ping < |log| && Member(c, a) && log[ping] == Sent(c.addrs[a], send)
    requires PingOk(c, log[..ping], c.addrs[a], send)
    ensures intro < ping && log[intro] == Sent(c.server, Sealed(c.addrs[a], c.keys[a], rec))
    ensures Verb(rec) == SRV_SET_PEER
    ensures send == P.Ping(rec)
  {
    hide LogOk, RightRow, Unmasked, P.Ping, Verb;
    var a': nat, rec': Record :| PingOf(c, log[..ping], c.addrs[a], send, a', rec');
    SamePeer(c, a, a', c.addrs[a]);
    rec := rec';
    intro := Position(log, ping, Sent(c.server, Sealed(c.addrs[a], c.keys[a], rec)));
  }

  /** From the introduction back to the round and its two entries, and to what the packet carried. */
  lemma IntroBecause(c: Fleet, log: seq<Event>, intro: nat, to: Addr, key: Key, rec: Record)
    returns (round: nat, pers: seq<Ipp>, x: nat, y: nat)
    requires LogOk(c, log) && intro < |log| && log[intro] == Sent(c.server, Sealed(to, key, rec))
    requires Verb(rec) == SRV_SET_PEER
    ensures round < intro && log[round] == Round(pers) && IntroducedIn(pers, x, y, to, rec) && TailOk(c, TailOf(rec))
  {
    hide LogOk, IntroducedIn, Verb, TailOk, TailOf, ToPeer;
    UseLog(c, log, intro);
    pers, x, y :| IntroducedIn(pers, x, y, to, rec) && Round(pers) in log[..intro];
    round := Position(log, intro, Round(pers));
  }

  /** From an entry of the round back to the registration. */
  lemma EntryBecause(c: Fleet, log: seq<Event>, round: nat, pers: seq<Ipp>, x: nat) returns (i: nat, reg: nat)
    requires LogOk(c, log) && round < |log| && log[round] == Round(pers) && x < |pers|
    ensures IsPeer(c, i, pers[x]) && reg < round && log[reg] == Sent(c.addrs[i], RegisterSend(c, i))
  {
    hide LogOk, RegisterSend;
    UseLog(c, log, round);
    assert EntryOk(c, log[..round], pers[x]);
    i :| IsPeer(c, i, pers[x]) && RegisterSent(c, log[..round], i);
    reg := Position(log, round, Sent(c.addrs[i], RegisterSend(c, i)));
  }

  /** An introduction names two peers of opposite roles, who both registered before. */
  lemma IntroStory(c: Fleet, log: seq<Event>, intro: nat, a: nat, rec: Record) returns (st: Story)
    requires WellFormed(c) && LogOk(c, log) && intro < |log| && Member(c, a)
    requires log[intro] == Sent(c.server, Sealed(c.addrs[a], c.keys[a], rec)) && Verb(rec) == SRV_SET_PEER
    ensures Registered(c, log, st) && Introduces(rec, st.pers[st.y]) && st.a == a && st.rec == rec && st.intro == intro
    ensures TailOk(c, TailOf(rec))
  {
    hide LogOk, WellFormed, RegisterSend, Introduces, Verb, TailOk, TailOf, IppAddr;
    var round, pers, x, y := IntroBecause(c, log, intro, c.addrs[a], c.keys[a], rec);
    var a', regA := EntryBecause(c, log, round, pers, x);
    var b, regB := EntryBecause(c, log, round, pers, y);
    assert IppAddr(pers[x]) == c.addrs[a];
    SamePeer(c, a, a', c.addrs[a]);
    st := Story(a, b, regA, regB, round, intro, 0, pers, x, y, rec);
  }

  /** A PING of peer a to peer b has its story. */
  lemma PingStory(c: Fleet, log: seq<Event>, ping: nat, a: nat, b: nat, send: Send) returns (st: Story)
    requires WellFormed(c) && LogOk(c, log) && ping < |log| && Member(c, a) && Member(c, b)
    requires log[ping] == Sent(c.addrs[a], send) && send.Sealed? && send.to == c.addrs[b] && Verb(send.rec) == PER_PING
    ensures Pinged(c, log, st) && st.a == a && st.b == b && st.ping == ping
    ensures send.key == c.keys[b] && send.rec == WithVerb(st.rec, PER_PING) && TailOk(c, TailOf(send.rec))
  {
    hide LogOk, WellFormed, RegisterSend, Introduces, Verb, TailOk, PingOk, PongOk, WithVerb, TailOf, P.Ping, To;
    PeerSent(c, log, ping, a, b, send);
    var intro, rec := PingBecause(c, log, ping, a, send);
    var half := IntroStory(c, log, intro, a, rec);
    PingIsTo(c, rec, half.pers[half.y], half.b);
    SamePeer(c, half.b, b, c.addrs[b]);
    PingTail(rec);
    st := half.(ping := ping);
  }

  lemma PingIsTo(c: Fleet, rec: Record, q: Ipp, j: nat)
    requires Introduces(rec, q) && IsPeer(c, j, q)
    ensures P.Ping(rec) == To(q, WithVerb(rec, PER_PING)) && P.Ping(rec).Sealed? && P.Ping(rec).to == c.addrs[j]
    ensures P.Ping(rec).rec == WithVerb(rec, PER_PING)
  {
  }

  lemma PingTail(rec: Record)
    ensures TailOf(WithVerb(rec, PER_PING)) == TailOf(rec)
  {
  }

  /** A PONG of peer j to peer i ends an exchange that began with a PING of one of them: from PONG to
      PONG back to the PING. With the same key there is nothing to go back over. */
  lemma {:induction false} PongStory(c: Fleet, log: seq<Event>, pong: nat, j: nat, i: nat, answer: Record) returns (st: Story)
    requires WellFormed(c) && LogOk(c, log) && pong < |log| && Member(c, i) && Member(c, j) && Verb(answer) == PER_PONG
    requires log[pong] == Sent(c.addrs[j], Sealed(c.addrs[i], c.keys[j], answer))
    ensures Pinged(c, log, st) && st.ping < pong && ((st.a == i && st.b == j) || (st.a == j && st.b == i))
    ensures c.keys[i] == c.keys[j] ==> st.a == i && answer == WithVerb(WithVerb(st.rec, PER_PING), PER_PONG)
    ensures c.addrs[i].port != c.server.port
    decreases pong
  {
    hide LogOk, WellFormed, PingOk, PongOk, Verb, Heard, HeardHead, WithVerb, TailOk, TailOf, Registered, Introduces,
         To;
    var n, key, rec := PongBecause(c, log, pong, j, i, answer);
    PeerSent(c, log, n, i, j, Sealed(c.addrs[j], key, rec));
    if Verb(rec) == PER_PING {
      st := PingStory(c, log, n, i, j, Sealed(c.addrs[j], key, rec));
      SameKeyHears(c.keys[j], rec, HeadOf(rec));
    } else {
      SameKeyHears(c.keys[i], rec, HeadOf(rec));
      st := PongStory(c, log, n, i, j, rec);
    }
  }

  /** Its first block is an answer of the exchange that the first PING began. */
  lemma {:induction false} PongAnswers(c: Fleet, log: seq<Event>, pong: nat, j: nat, i: nat, answer: Record)
    returns (k: nat, m: nat)
    requires WellFormed(c) && LogOk(c, log) && pong < |log| && Member(c, i) && Member(c, j) && Verb(answer) == PER_PONG
    requires log[pong] == Sent(c.addrs[j], Sealed(c.addrs[i], c.keys[j], answer))
    ensures Member(c, k) && Answer(c.keys[j], c.keys[i], TailAfter(c, k), m) == Some(HeadOf(answer))
    decreases pong
  {
    hide LogOk, WellFormed, PingOk, PongOk, Verb, Heard, HeardHead, WithVerb, TailAfter, TailOf, HeadOf, Pinged, Answer;
    var n, key, rec := PongBecause(c, log, pong, j, i, answer);
    PeerSent(c, log, n, i, j, Sealed(c.addrs[j], key, rec));
    HeardHeadOf(c.keys[j], key, rec);
    if Verb(rec) == PER_PING {
      var st := PingStory(c, log, n, i, j, Sealed(c.addrs[j], key, rec));
      SameKeyHears(c.keys[j], rec, HeadOf(rec));
      k :| Member(c, k) && TailOf(rec) == TailAfter(c, k);
      m := 0;
      FirstAnswer(c.keys[j], c.keys[i], TailAfter(c, k), rec);
    } else {
      var m';
      k, m' := PongAnswers(c, log, n, i, j, rec);
      m := m' + 1;
      NextAnswer(c.keys[j], c.keys[i], TailAfter(c, k), m', HeadOf(rec), Heard(c.keys[j], key, rec));
    }
  }

  lemma FirstAnswer(mine: Key, theirs: Key, tail: Tail, ping: Record)
    requires TailOf(ping) == tail
    ensures Answer(mine, theirs, tail, 0) == Some(HeadOf(WithVerb(ping, PER_PONG)))
  {
    assert HeadOf(WithVerb(ping, PER_PONG)) == PongHead(tail);
  }

  lemma NextAnswer(mine: Key, theirs: Key, tail: Tail, m: nat, prev: Head, heard: Record)
    requires Answer(theirs, mine, tail, m) == Some(prev)
    requires HeadOf(heard) == HeardHead(mine, theirs, prev) && Verb(heard) == PER_PING
    ensures Answer(mine, theirs, tail, m + 1) == Some(HeadOf(WithVerb(heard, PER_PONG)))
  {
    hide HeardHead;
    assert HeadOf(WithVerb(heard, PER_PONG)) == PongHead(HeadOf(heard)[1..]);
  }

  /** Linking soundness. In every reachable state of the server, any number of peers with any keys and a
      network that loses, duplicates and reorders, every endpoint in a peer's set has its story. */
  lemma LinkedBecause(h: S.Hash, c: Fleet, steps: seq<Step>, i: nat, e: Endpoint)
    requires WellFormed(c)
    requires i < |Exec(h, c, steps).peers| && e in Exec(h, c, steps).peers[i].pers
    ensures exists j, st, pong, answer :: Tells(c, Exec(h, c, steps).log, i, j, e, st, pong, answer)
    ensures e.port != c.server.port
  {
    hide WellFormed, Exec, LogOk, ServerOk, Verb, WithVerb, Heard, Pinged, PortSorted, P.TwoStates;
    Invariant(h, c, steps);
    var log := Exec(h, c, steps).log;
    assert LinkOk(c, log, i, e);
    var j: nat, answer: Record :| PongRead(c, log, j, i, answer, PER_PONG) && P.AddrOfEndpoint(e) == c.addrs[j];
    assert log[..|log|] == log;
    var pong := Position(log, |log|, Sent(c.addrs[j], Sealed(c.addrs[i], c.keys[j], answer)));
    var st := PongStory(c, log, pong, j, i, answer);
    assert Tells(c, log, i, j, e, st, pong, answer);
  }

  /** The PING at position n of the history, sent by the peer st.a, has its story, and reaches its target
      intact: it goes to the address and under the keys that peer registered with, whatever the sender's
      own key is. */
  ghost predicate Agreed(c: Fleet, s: Sys, n: nat, st: Story)
    requires n < |s.log| && s.log[n].Sent? && s.log[n].send.Sealed?
  {
    var send := s.log[n].send;
    && Pinged(c, s.log, st) && st.ping == n && st.b < |s.peers|
    && send.to == c.addrs[st.b] && send.key == c.keys[st.b] == s.peers[st.b].key
    && Open(s.peers[st.b].key, Payload(send)) == send.rec
  }

  /** Key and address agreement. Every PING in the history carries an introduction its sender got; it
      is addressed to the introduced peer, enciphered under the keys that peer registered with, and
      that peer deciphers it to exactly the record sent. */
  lemma PingsAgree(h: S.Hash, c: Fleet, steps: seq<Step>, n: nat)
    requires WellFormed(c) && n < |Exec(h, c, steps).log|
    requires var e := Exec(h, c, steps).log[n];
             e.Sent? && e.send.Sealed? && e.src != c.server && Verb(e.send.rec) == PER_PING
    ensures exists st :: Agreed(c, Exec(h, c, steps), n, st)
  {
    hide RightRow, Unmasked, Exec, LogOk, ServerOk, Verb, WithVerb, Pinged, Seal, Open, LinkOk, DataRead, PortSorted,
         PeerSendOk, TailOf, ToPeer, P.TwoStates;
    Invariant(h, c, steps);
    var s := Exec(h, c, steps);
    var e := s.log[n];
    UseLog(c, s.log, n);
    LogPrefix(c, s.log, n);
    PeerSendFacts(c, s.log[..n], e.src, e.send);
    var a: nat :| At(c, a, e.src);
    var b: nat :| ToPeer(c, b, e.send);
    ToPeerAt(c, b, e.send);
    var st := PingStory(c, s.log, n, a, b, e.send);
    OpenSeal(c.keys[b], e.send.rec);
    assert PeerOk(c, s.log, b, s.peers[b]);
    assert Agreed(c, s, n, st);
  }

  lemma ToPeerAt(c: Fleet, b: nat, send: Send)
    requires ToPeer(c, b, send)
    ensures Member(c, b) && send.to == c.addrs[b]
  {
  }

  /** The introduced keys are what makes it so: under its sender's own key the target would read another
      record, unless the two keys turn this one into the same bytes. */
  lemma SenderKeyExactly(target: Key, sender: Key, rec: Record)
    ensures Heard(target, sender, rec) == rec <==> Seal(sender, rec) == Seal(target, rec)
  {
    hide Seal, Open;
    OpenSeal(target, rec);
    OpenSeal(target, Seal(sender, rec));
  }

  /** In no reachable state can a delivery make a peer fail its assertion on the remainder, and every
      peer is in one of two states, linked only with someone in its set, or when a foreign key made data
      of a PONG. */
  lemma PeersLive(h: S.Hash, c: Fleet, steps: seq<Step>, step: Step)
    requires WellFormed(c) && step.PeerStep? && Enabled(c, Exec(h, c, steps), step)
    ensures var s := Exec(h, c, steps);
            var r := P.Turn(s.peers[step.who], PeerInput(c, s, step));
            && !r.died && P.TwoStates(r.peer)
            && (r.peer.status == PER_LINKED ==> r.peer.pers != [] || DataRead(c, s.log, step.who))
  {
    hide RightRow, Unmasked, Exec, LogOk, ServerOk, P.Turn, LinkOk, DataRead, SendsOk, PortSorted, P.TwoStates;
    Invariant(h, c, steps);
    PeerTurnOk(h, c, Exec(h, c, steps), step);
  }

  /** A peer whose key everybody shares never reads data into a PONG. */
  lemma SharedKeyReads(c: Fleet, log: seq<Event>, i: nat)
    requires forall j: nat :: Member(c, j) && Member(c, i) ==> c.keys[j] == c.keys[i]
    ensures !DataRead(c, log, i)
  {
    hide Heard, Verb, HeardHead;
    forall j: nat, rec: Record | PongIn(c, log, j, i, rec)
      ensures Heard(c.keys[i], c.keys[j], rec) == rec
    {
      SameKeyHears(c.keys[i], rec, HeadOf(rec));
    }
  }

  /** No other address of the fleet has this port number. */
  ghost predicate OwnPort(c: Fleet, src: Addr) {
    forall a :: a in c.addrs && a.port == src.port ==> a == src
  }

  /** Text between peers. In every reachable state a text that arrives is handed over at most once, and
      exactly when its sender's port is in the set; a sender with a port of its own is heard exactly
      when it is itself there, and so answered a PING. */
  lemma TextDelivered(h: S.Hash, c: Fleet, steps: seq<Step>, step: Step, n: nat)
    requires WellFormed(c) && step.PeerStep? && Enabled(c, Exec(h, c, steps), step) && step.delivery == Some(n)
    requires var e := Exec(h, c, steps).log[n]; e.send.Plain? && e.send.data != []
    ensures var s := Exec(h, c, steps);
            var src, pers, r := s.log[n].src, s.peers[step.who].pers, P.Turn(s.peers[step.who], PeerInput(c, s, step));
            && r.delivered == (if exists x :: x in pers && x.port == src.port then 1 else 0)
            && (OwnPort(c, src) ==> (r.delivered == 1 <==> P.Rsin(src) in pers))
  {
    hide WellFormed, Exec, LogOk, ServerOk, PeerOk, PeerSendOk, PingOk, PongOk, ToPeer, IsRegister, OwnPort,
         P.LineSends, P.TimerSends, P.AfterHere, Matches;
    Invariant(h, c, steps);
    var s := Exec(h, c, steps);
    var src, p := s.log[n].src, s.peers[step.who];
    UseLog(c, s.log, n);
    LogPrefix(c, s.log, n);
    PeerSendFacts(c, s.log[..n], src, s.log[n].send);
    HeardOnce(c, s.log, step.who, p, src);
  }

  /** How often the endpoints of a peer in order match another peer. */
  lemma HeardOnce(c: Fleet, log: seq<Event>, i: nat, p: P.Peer, src: Addr)
    requires WellFormed(c) && Member(c, i) && PeerOk(c, log, i, p) && PeerAddr(c, src)
    ensures Matches(p.pers, P.Rsin(src)) == if exists x :: x in p.pers && x.port == src.port then 1 else 0
    ensures OwnPort(c, src) ==> (Matches(p.pers, P.Rsin(src)) == 1 <==> P.Rsin(src) in p.pers)
  {
    hide RightRow, Unmasked, LinkOk, DataRead, PortSorted, P.TwoStates, Matches;
    MatchesOnce(p.pers, src.ip, src.port);
    forall x | x in p.pers
      ensures x.mask == 0 && PeerAddr(c, P.AddrOfEndpoint(x))
    {
      LinkAddr(c, log, i, x);
      Masked(p.pers, x);
    }
  }

  lemma Masked(s: seq<Endpoint>, x: Endpoint)
    requires PortSorted(s) && x in s
    ensures x.mask == 0
  {
  }

}
