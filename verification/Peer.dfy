/** a_peer.cpp: a peer, one turn of its main loop at a time. */
module Peers {
  import opened Bytes
  import opened Text
  import opened Xtea
  import opened Cipher
  import opened Endpoints
  import opened Records
  import opened Wires

  const REG_TICK: int := 10
  const IAM_HERE_TO: int := 15
  const SERVER_DOWN_TO: int := 30

  datatype Peer = Peer(key: Key, server: Endpoint, cap: Record, status: u8, pers: seq<Endpoint>,
                       regtime: int, pingtime: int, iah: int)

  /** What the handling of one datagram does: the next state, what is sent, how often the bytes are
      handed to `_data_in`, and whether the program dies of the assertion on the remainder. */
  datatype Reaction = Reaction(peer: Peer, sends: seq<Send>, delivered: nat, died: bool)

  /** What one turn of the loop meets: a datagram or none, the time read at its head, the time read
      while handling the datagram, and a line from the keyboard or none. */
  datatype Input = Input(inbound: Option<Inbound>, now: int, clock: int, text: Option<seq<u8>>)

  /** The sender of a datagram as `Rsin` shows it. */
  function Rsin(a: Addr): Endpoint {
    Received(a.ip, a.port)
  }

  function AddrOfEndpoint(e: Endpoint): Addr {
    Addr(e.addr, e.port)
  }

  /** _peering: the PING goes to the introduced address under the introduced keys. */
  function Ping(rec: Record): Send {
    Sealed(AddrOf(PublicA(rec), PublicP(rec)), PublicKeys(rec), WithVerb(rec, PER_PING))
  }

  /** _srv_process. Its tests against SRV_UNREGISTER never hold of a peer that starts in
      SRV_UNREGISTERED. */
  function SrvState(p: Peer, rec: Record, now: int, clock: int): Peer {
    var status := if (Verb(rec) == SRV_REGISTERRED || Verb(rec) == SRV_PING) && p.status == SRV_UNREGISTER
                  then SRV_REGISTERRED
                  else if Verb(rec) == SRV_UNREGISTERED then SRV_UNREGISTERED
                  else p.status;
    p.(status := status, regtime := if Verb(rec) == SRV_REGISTERRED then clock else p.regtime, pingtime := now)
  }

  function SrvSends(rec: Record): seq<Send> {
    if Verb(rec) == SRV_SET_PEER then [Ping(rec)] else []
  }

  /** The records of a datagram from the server, one after the other. */
  function SrvAllState(p: Peer, recs: seq<Record>, now: int, clock: int): Peer {
    if recs == [] then p else SrvState(SrvAllState(p, recs[..|recs| - 1], now, clock), recs[|recs| - 1], now, clock)
  }

  function SrvAllSends(recs: seq<Record>): seq<Send> {
    if recs == [] then [] else SrvAllSends(recs[..|recs| - 1]) + SrvSends(recs[|recs| - 1])
  }

  /** The i-th record of a buffer, deciphered. */
  function RecordAt(buf: seq<u8>, key: Key, i: nat): Record
    requires SIZE * i + SIZE <= |buf|
  {
    Open(key, buf[SIZE * i..SIZE * i + SIZE])
  }

  function RecordsOf(buf: seq<u8>, key: Key, n: nat): (r: seq<Record>)
    requires SIZE * n <= |buf|
    ensures |r| == n
  {
    seq(n, i requires 0 <= i < n => RecordAt(buf, key, i))
  }

  /** _per_process */
  function PerProcess(p: Peer, src: Addr, rec: Record, now: int): (r: Reaction)
    ensures !r.died
  {
    if Verb(rec) == PER_DATA then
      Reaction(p.(status := PER_LINKED), [], 1, false)
    else if Verb(rec) == PER_PING then
      Reaction(p, [Sealed(src, p.key, WithVerb(rec, PER_PONG))], 0, false)
    else if Verb(rec) == PER_PONG then
      Reaction(p.(pers := Insert(p.pers, Rsin(src)), status := PER_LINKED), [], 0, false)
    else if Verb(rec) == SRV_PING then
      Reaction(p.(pingtime := now), [], 0, false)
    else
      Reaction(p, [], 0, false)
  }

  /** The datagram counts as the server's: its port is the server's port. */
  predicate FromServer(p: Peer, src: Addr) {
    Eq(Rsin(src), p.server)
  }

  /** _rec_udp and _received. A datagram from the server port that is not a whole number of records
      ends in the failed assertion, after its whole records were processed. (What is made of the partial
      one depends on what the buffer held before; see APeer.RecUdp.) */
  function React(p: Peer, d: Inbound, now: int, clock: int): Reaction {
    var n := |d.payload|;
    if n >= SIZE then
      if FromServer(p, d.src) then
        var recs := RecordsOf(d.payload, p.key, n / SIZE);
        Reaction(SrvAllState(p, recs, now, clock), SrvAllSends(recs), 0, n % SIZE != 0)
      else
        PerProcess(p, d.src, RecordAt(d.payload, p.key, 0), now)
    else
      Reaction(p, [], if n > 0 then Matches(p.pers, Rsin(d.src)) else 0, false)
  }

  /** The registration timer. */
  predicate Registers(p: Peer, now: int) {
    p.status == SRV_UNREGISTERED && now - p.regtime > REG_TICK
  }

  function AfterTimer(p: Peer, now: int): Peer {
    if Registers(p, now) then p.(regtime := now, cap := WithVerb(p.cap, SRV_REGISTER)) else p
  }

  function TimerSends(p: Peer, now: int): seq<Send> {
    if Registers(p, now) then [Sealed(AddrOfEndpoint(p.server), p.key, WithVerb(p.cap, SRV_REGISTER))] else []
  }

  /** The I-am-here timer only moves `_pingtime`: the test for a missing server follows the assignment
      that makes it false. */
  function AfterHere(p: Peer, now: int): Peer {
    if now - p.iah > IAM_HERE_TO then p.(iah := now, pingtime := now) else p
  }

  function StatusIfMissing(missing: bool, status: u8): u8 {
    if missing then SRV_UNREGISTERED else status
  }

  /** send_to_pers: the bytes as they are, to every element of the set in order. */
  function TextSends(pers: seq<Endpoint>, data: seq<u8>): (r: seq<Send>)
    ensures |r| == |pers|
    ensures forall i :: 0 <= i < |pers| ==> r[i] == Plain(AddrOfEndpoint(pers[i]), data)
  {
    seq(|pers|, i requires 0 <= i < |pers| => Plain(AddrOfEndpoint(pers[i]), data))
  }

  /** A line from the keyboard is sent only by a linked peer. */
  function LineSends(p: Peer, text: Option<seq<u8>>): seq<Send> {
    if p.status == PER_LINKED && text.Some? then TextSends(p.pers, text.value) else []
  }

  function Handled(p: Peer, i: Input): Reaction {
    if i.inbound.None? then Reaction(p, [], 0, false) else React(p, i.inbound.value, i.now, i.clock)
  }

  /** One turn of the loop of `main`. */
  function Turn(p: Peer, i: Input): Reaction {
    var r := Handled(AfterTimer(p, i.now), i);
    if r.died then Reaction(r.peer, TimerSends(p, i.now) + r.sends, r.delivered, true) else
      var q := AfterHere(r.peer, i.now);
      Reaction(q, TimerSends(p, i.now) + r.sends + LineSends(q, i.text), r.delivered, false)
  }

  // ---------- record splitting

  function Joined(key: Key, recs: seq<Record>): (s: seq<u8>)
    ensures |s| == SIZE * |recs|
  {
    if recs == [] then [] else Joined(key, recs[..|recs| - 1]) + Seal(key, recs[|recs| - 1])
  }

  lemma {:induction false} JoinedAt(key: Key, recs: seq<Record>, i: nat)
    requires i < |recs|
    ensures SIZE * i + SIZE <= |Joined(key, recs)|
    ensures Joined(key, recs)[SIZE * i..SIZE * i + SIZE] == Seal(key, recs[i])
  {
    hide Seal;
    var n := |recs| - 1;
    if i < n {
      JoinedAt(key, recs[..n], i);
      assert Joined(key, recs)[SIZE * i..SIZE * i + SIZE] == Joined(key, recs[..n])[SIZE * i..SIZE * i + SIZE];
    }
  }

  /** A datagram of enciphered records decodes to exactly those records in order, whatever the rest
      of the buffer holds. */
  lemma SplitsIntoRecords(key: Key, recs: seq<Record>, stale: seq<u8>)
    ensures RecordsOf(Joined(key, recs) + stale, key, |recs|) == recs
  {
    hide Seal, Open;
    var buf := Joined(key, recs) + stale;
    forall i | 0 <= i < |recs|
      ensures RecordAt(buf, key, i) == recs[i]
    {
      JoinedAt(key, recs, i);
      assert buf[SIZE * i..SIZE * i + SIZE] == Joined(key, recs)[SIZE * i..SIZE * i + SIZE];
      OpenSeal(key, recs[i]);
    }
  }

  // ---------- what every turn keeps

  /** What a peer never changes: its key, its server, and all of its packet but the verb. */
  ghost predicate SameIdentity(p: Peer, q: Peer) {
    q.key == p.key && q.server == p.server && q.cap[1..] == p.cap[1..]
  }

  predicate TwoStates(p: Peer) {
    p.status == SRV_UNREGISTERED || p.status == PER_LINKED
  }

  lemma {:induction false} SrvAllKeeps(p: Peer, recs: seq<Record>, now: int, clock: int)
    requires TwoStates(p)
    ensures var q := SrvAllState(p, recs, now, clock);
            TwoStates(q) && q.pers == p.pers && q.cap == p.cap && q.key == p.key && q.server == p.server
                && q.iah == p.iah
    ensures SrvAllState(p, recs, now, clock).regtime == p.regtime || SrvAllState(p, recs, now, clock).regtime == clock
    ensures SrvAllState(p, recs, now, clock).status == p.status || SrvAllState(p, recs, now, clock).status == SRV_UNREGISTERED
  {
    if recs != [] {
      SrvAllKeeps(p, recs[..|recs| - 1], now, clock);
    }
  }

  /** The source of every datagram has a port. */
  predicate Ported(i: Input) {
    i.inbound.Some? ==> i.inbound.value.src.port != 0
  }

  /** No full-size datagram deciphers to a data record: unencrypted data is shorter than a record. */
  predicate NoDataRecord(p: Peer, i: Input) {
    (i.inbound.Some? && |i.inbound.value.payload| >= SIZE && !FromServer(p, i.inbound.value.src)) ==>
      Verb(RecordAt(i.inbound.value.payload, p.key, 0)) != PER_DATA
  }

  /** What handling a datagram, or a whole turn, keeps. */
  ghost predicate Keeps(p: Peer, q: Peer) {
    && TwoStates(q) && SameIdentity(p, q) && PortSorted(q.pers)
    && (forall x :: x in p.pers ==> x in q.pers)
    && |p.pers| <= |q.pers|
  }

  lemma ReactKeeps(p: Peer, d: Inbound, now: int, clock: int)
    requires TwoStates(p) && PortSorted(p.pers) && d.src.port != 0
    ensures Keeps(p, React(p, d, now, clock).peer)
  {
    hide WithVerb, Insert, Matches, Open, Eq, Seal;
    if |d.payload| >= SIZE && FromServer(p, d.src) {
      SrvAllKeeps(p, RecordsOf(d.payload, p.key, |d.payload| / SIZE), now, clock);
    }
    InsertReceived(p.pers, d.src.ip, d.src.port);
    InsertGrows(p.pers, Rsin(d.src));
  }

  /** Whatever arrives, a turn leaves the peer in one of two states, keeps its identity and every
      endpoint it has, and keeps the set in port order. */
  lemma TurnKeeps(p: Peer, i: Input)
    requires TwoStates(p) && PortSorted(p.pers) && Ported(i)
    ensures Keeps(p, Turn(p, i).peer)
  {
    hide WithVerb, React, LineSends, Seal, PortSorted;
    VerbOnly(p.cap, SRV_REGISTER);
    if i.inbound.Some? {
      ReactKeeps(AfterTimer(p, i.now), i.inbound.value, i.now, i.clock);
    }
  }

  lemma VerbOnly(r: Record, v: u8)
    ensures WithVerb(r, v)[1..] == r[1..]
  {
  }

  lemma {:induction false} InsertGrows(s: seq<Endpoint>, e: Endpoint)
    ensures |s| <= |Insert(s, e)| <= |s| + 1
  {
    if s != [] {
      InsertGrows(s[1..], e);
    }
  }

  /** A peer that leaves SRV_UNREGISTERED does so on a PONG, unless a data record of full size comes:
      exactly then it counts itself linked with nobody to talk to. */
  lemma LinkedExactly(p: Peer, i: Input)
    requires TwoStates(p) && PortSorted(p.pers) && Ported(i) && p.pers == [] && p.status == SRV_UNREGISTERED
    ensures Turn(p, i).peer.status == PER_LINKED && Turn(p, i).peer.pers == [] <==> !NoDataRecord(p, i)
  {
    hide WithVerb, Insert, Matches, Open, Eq, LineSends, Seal;
    var p1 := AfterTimer(p, i.now);
    if i.inbound.Some? {
      var d := i.inbound.value;
      if |d.payload| >= SIZE && FromServer(p1, d.src) {
        SrvAllKeeps(p1, RecordsOf(d.payload, p1.key, |d.payload| / SIZE), i.now, i.clock);
      }
      InsertReceived(p.pers, d.src.ip, d.src.port);
    }
  }

  lemma LinkedHasPers(p: Peer, i: Input)
    requires TwoStates(p) && PortSorted(p.pers) && Ported(i) && NoDataRecord(p, i)
    requires p.status == PER_LINKED ==> p.pers != []
    ensures Turn(p, i).peer.status == PER_LINKED ==> Turn(p, i).peer.pers != []
  {
    TurnKeeps(p, i);
    if p.pers == [] {
      LinkedExactly(p, i);
    }
  }

  // ---------- what a turn does to status, timer and text, exactly

  ghost predicate SomeVerb(recs: seq<Record>, verb: u8) {
    exists k :: 0 <= k < |recs| && Verb(recs[k]) == verb
  }

  lemma SomeVerbLast(recs: seq<Record>, verb: u8)
    requires recs != []
    ensures SomeVerb(recs, verb) <==> SomeVerb(recs[..|recs| - 1], verb) || Verb(recs[|recs| - 1]) == verb
  {
    hide Verb;
    var n := |recs| - 1;
    if SomeVerb(recs[..n], verb) {
      var k :| 0 <= k < n && Verb(recs[..n][k]) == verb;
      assert Verb(recs[k]) == verb;
    }
    if k :| 0 <= k < |recs| && Verb(recs[k]) == verb {
      assert k < n ==> Verb(recs[..n][k]) == verb;
    }
  }

  /** Of the server's records only two kinds matter to a peer's timer and status: an answer to its
      registration postpones the next one, and a release unlinks it. */
  lemma {:induction false} SrvAllExactly(p: Peer, recs: seq<Record>, now: int, clock: int)
    requires TwoStates(p)
    ensures var q := SrvAllState(p, recs, now, clock);
            && q.status == (if SomeVerb(recs, SRV_UNREGISTERED) then SRV_UNREGISTERED else p.status)
            && q.regtime == (if SomeVerb(recs, SRV_REGISTERRED) then clock else p.regtime)
  {
    hide Verb, SomeVerb;
    if recs == [] {
      NoVerb(SRV_UNREGISTERED);
      NoVerb(SRV_REGISTERRED);
    } else {
      var n := |recs| - 1;
      SrvAllExactly(p, recs[..n], now, clock);
      SomeVerbLast(recs, SRV_UNREGISTERED);
      SomeVerbLast(recs, SRV_REGISTERRED);
    }
  }

  lemma NoVerb(verb: u8)
    ensures !SomeVerb([], verb)
  {
  }

  /** A datagram of a record or more, from a port that is not the server's, or from the server's. */
  predicate FullFromPeer(p: Peer, i: Input) {
    i.inbound.Some? && |i.inbound.value.payload| >= SIZE && i.inbound.value.src.port != p.server.port
  }

  predicate FullFromServer(p: Peer, i: Input) {
    i.inbound.Some? && |i.inbound.value.payload| >= SIZE && i.inbound.value.src.port == p.server.port
  }

  /** The verb that the peer reads in it. */
  function FirstVerb(p: Peer, i: Input): u8
    requires FullFromPeer(p, i)
  {
    Verb(Open(p.key, i.inbound.value.payload[..SIZE]))
  }

  /** The whole records of a datagram from the server. */
  function ServerRecords(p: Peer, i: Input): seq<Record>
    requires FullFromServer(p, i)
  {
    RecordsOf(i.inbound.value.payload, p.key, |i.inbound.value.payload| / SIZE)
  }

  lemma FromServerPort(p: Peer, src: Addr)
    requires src.port != 0 && p.server.port != 0
    ensures FromServer(p, src) <==> src.port == p.server.port
  {
    ReceivedComparesPorts(src.ip, src.port, p.server);
  }

  lemma FirstRecord(payload: seq<u8>, key: Key)
    requires |payload| >= SIZE
    ensures RecordAt(payload, key, 0) == Open(key, payload[..SIZE])
  {
    hide Open;
    assert payload[SIZE * 0..SIZE * 0 + SIZE] == payload[..SIZE];
  }

  /** A peer becomes linked exactly when a full-size datagram, not from the server's port, is read as a
      PONG or as data; and it is released exactly when the server says so. */
  lemma StatusExactly(p: Peer, i: Input)
    requires TwoStates(p) && Ported(i) && p.server.port != 0
    ensures var q := Turn(p, i).peer;
            && (p.status == SRV_UNREGISTERED ==>
                  (q.status == PER_LINKED <==> FullFromPeer(p, i) && (FirstVerb(p, i) == 10 || FirstVerb(p, i) == 58)))
            && (p.status == PER_LINKED ==>
                  (q.status == SRV_UNREGISTERED <==> FullFromServer(p, i) && SomeVerb(ServerRecords(p, i), 5)))
  {
    hide WithVerb, Insert, Matches, Open, Eq, LineSends, Seal, SomeVerb, SrvAllState, SrvAllSends, FromServer, Verb;
    var p1 := AfterTimer(p, i.now);
    if i.inbound.Some? {
      var d := i.inbound.value;
      FromServerPort(p1, d.src);
      if |d.payload| >= SIZE {
        FirstRecord(d.payload, p.key);
        SrvAllExactly(p1, RecordsOf(d.payload, p1.key, |d.payload| / SIZE), i.now, i.clock);
      }
    }
  }

  /** The registration time after a turn: when the server answered, the time of its answer; otherwise now,
      if the timer fired, and what it was, if not. So an answer postpones the next REGISTER, and a peer
      that nobody links keeps registering. */
  lemma RegtimeExactly(p: Peer, i: Input)
    requires TwoStates(p) && Ported(i) && p.server.port != 0
    ensures Turn(p, i).peer.regtime
            == if FullFromServer(p, i) && SomeVerb(ServerRecords(p, i), 2) then i.clock
               else if p.status == SRV_UNREGISTERED && i.now - p.regtime > 10 then i.now
               else p.regtime
  {
    hide WithVerb, Insert, Matches, Open, Eq, LineSends, Seal, SomeVerb, SrvAllState, SrvAllSends, FromServer, Verb;
    var p1 := AfterTimer(p, i.now);
    if i.inbound.Some? {
      var d := i.inbound.value;
      FromServerPort(p1, d.src);
      if |d.payload| >= SIZE {
        SrvAllExactly(p1, RecordsOf(d.payload, p1.key, |d.payload| / SIZE), i.now, i.clock);
      }
    }
  }

  /** How often a turn hands its datagram over as text: a shorter one when its sender's port is in the set,
      and one of full size when it is read as data. */
  lemma DeliveredExactly(p: Peer, i: Input)
    requires TwoStates(p) && Ported(i) && p.server.port != 0 && PortSorted(p.pers)
    ensures Turn(p, i).delivered
            == if FullFromPeer(p, i) then (if FirstVerb(p, i) == 58 then 1 else 0)
               else if i.inbound.Some? && 0 < |i.inbound.value.payload| < SIZE
                       && (exists x :: x in p.pers && x.port == i.inbound.value.src.port) then 1
               else 0
  {
    hide WithVerb, Insert, Matches, Open, Eq, LineSends, Seal, SrvAllState, SrvAllSends, FromServer, Verb;
    var p1 := AfterTimer(p, i.now);
    if i.inbound.Some? {
      var d := i.inbound.value;
      FromServerPort(p1, d.src);
      MatchesOnce(p.pers, d.src.ip, d.src.port);
      if |d.payload| >= SIZE {
        FirstRecord(d.payload, p.key);
      }
    }
  }

  /** What the timer sends: the peer's packet with verb 1 to the server, exactly when it is unregistered and
      more than ten seconds have passed. */
  lemma TimerExactly(p: Peer, now: int)
    ensures if p.status == SRV_UNREGISTERED && now - p.regtime > 10 then
              && |TimerSends(p, now)| == 1 && TimerSends(p, now)[0].Sealed?
              && TimerSends(p, now)[0].to == AddrOfEndpoint(p.server) && TimerSends(p, now)[0].key == p.key
              && TimerSends(p, now)[0].rec[0] == 1 && TimerSends(p, now)[0].rec[1..] == p.cap[1..]
            else TimerSends(p, now) == []
  {
  }

  /** The I-am-here timer, every 15 seconds, moves two times and nothing else: it never finds the server
      missing, and so never empties the set or unlinks the peer. */
  lemma HereExactly(p: Peer, now: int)
    ensures var q := AfterHere(p, now);
            && q.pers == p.pers && q.status == p.status && q.cap == p.cap && q.regtime == p.regtime
            && (if now - p.iah > 15 then q.iah == now == q.pingtime else q.iah == p.iah && q.pingtime == p.pingtime)
  {
  }

  // ---------- what the handling of a datagram sends

  /** Records for peers: PINGs and PONGs, and nothing else. */
  ghost predicate Talks(ss: seq<Send>) {
    forall k :: 0 <= k < |ss| ==> ss[k].Sealed? && (Verb(ss[k].rec) == PER_PING || Verb(ss[k].rec) == PER_PONG)
  }

  lemma {:induction false} SrvAllTalks(recs: seq<Record>)
    ensures Talks(SrvAllSends(recs))
  {
    if recs != [] {
      SrvAllTalks(recs[..|recs| - 1]);
    }
  }

  lemma ReactTalks(p: Peer, d: Inbound, now: int, clock: int)
    ensures Talks(React(p, d, now, clock).sends)
  {
    hide Open, Insert, Matches, Eq, Seal, SrvAllState, RecordsOf;
    if |d.payload| >= SIZE && FromServer(p, d.src) {
      SrvAllTalks(RecordsOf(d.payload, p.key, |d.payload| / SIZE));
    }
  }

  // ---------- runs of one peer

  function PeerRun(p: Peer, inputs: seq<Input>): Peer {
    if inputs == [] then p else Turn(PeerRun(p, inputs[..|inputs| - 1]), inputs[|inputs| - 1]).peer
  }

  /** The clock never goes back. */
  predicate Monotone(inputs: seq<Input>) {
    && (forall k :: 0 <= k < |inputs| ==> inputs[k].now <= inputs[k].clock)
    && (forall k :: 0 < k < |inputs| ==> inputs[k - 1].clock <= inputs[k].now)
  }

  /** In the first n turns, when a REGISTER was sent. */
  function RegisterTimes(p: Peer, inputs: seq<Input>): seq<int> {
    if inputs == [] then [] else
      var n := |inputs| - 1;
      RegisterTimes(p, inputs[..n]) + if Registers(PeerRun(p, inputs[..n]), inputs[n].now) then [inputs[n].now] else []
  }

  /** At the start the program has not registered: `_regtime` is zero. */
  predicate Fresh(p: Peer) {
    p.status == SRV_UNREGISTERED && p.pers == [] && p.regtime == 0
  }

  predicate AllPorted(inputs: seq<Input>) {
    forall k :: 0 <= k < |inputs| ==> Ported(inputs[k])
  }

  lemma {:induction false} RunKeeps(p: Peer, inputs: seq<Input>)
    requires Fresh(p) && AllPorted(inputs)
    ensures var q := PeerRun(p, inputs); TwoStates(q) && SameIdentity(p, q) && PortSorted(q.pers)
  {
    if inputs != [] {
      var n := |inputs| - 1;
      RunKeeps(p, inputs[..n]);
      TurnKeeps(PeerRun(p, inputs[..n]), inputs[n]);
    }
  }

  /** In any run, linked means that there is someone in the set, as long as no full-size datagram
      deciphers to data. */
  lemma {:induction false} RunLinked(p: Peer, inputs: seq<Input>)
    requires Fresh(p) && AllPorted(inputs)
    requires forall k :: 0 <= k < |inputs| ==> NoDataRecord(p, inputs[k])
    ensures PeerRun(p, inputs).status == PER_LINKED ==> PeerRun(p, inputs).pers != []
  {
    if inputs != [] {
      var n := |inputs| - 1;
      RunLinked(p, inputs[..n]);
      RunKeeps(p, inputs[..n]);
      LinkedHasPers(PeerRun(p, inputs[..n]), inputs[n]);
    }
  }

  /** Successive REGISTERs of a run are more than REG_TICK seconds apart, and `_regtime` is never
      before the last of them. */
  lemma {:induction false} RegistersApart(p: Peer, inputs: seq<Input>)
    requires Fresh(p) && AllPorted(inputs) && Monotone(inputs)
    ensures var t := RegisterTimes(p, inputs);
            && Apart(t)
            && (t != [] ==> t[|t| - 1] <= PeerRun(p, inputs).regtime && t[|t| - 1] <= inputs[|inputs| - 1].clock)
  {
    hide Turn, TwoStates, SameIdentity, PortSorted, Apart;
    if inputs == [] {
      ApartNone();
    } else {
      var n := |inputs| - 1;
      RegistersApart(p, inputs[..n]);
      RunKeeps(p, inputs[..n]);
      RegtimeMoves(PeerRun(p, inputs[..n]), inputs[n]);
      assert RegisterTimes(p, inputs[..n]) + [] == RegisterTimes(p, inputs[..n]);
      ApartAppend(RegisterTimes(p, inputs[..n]), inputs[n].now);
    }
  }

  /** Each time of the list is more than REG_TICK seconds after the one before. */
  predicate Apart(t: seq<int>) {
    forall k :: 0 < k < |t| ==> t[k] - t[k - 1] >= REG_TICK + 1
  }

  lemma ApartNone()
    ensures Apart([])
  {
  }

  lemma ApartAppend(t: seq<int>, x: int)
    requires Apart(t)
    ensures t == [] || x - t[|t| - 1] >= REG_TICK + 1 ==> Apart(t + [x])
  {
  }

  lemma RegtimeMoves(p: Peer, i: Input)
    requires TwoStates(p)
    ensures var q := Turn(p, i).peer;
            q.regtime == (if Registers(p, i.now) then i.now else p.regtime) || q.regtime == i.clock
  {
    hide WithVerb, Insert, Matches, Open, Eq, LineSends, Seal;
    var p1 := AfterTimer(p, i.now);
    if i.inbound.Some? {
      var d := i.inbound.value;
      if |d.payload| >= SIZE && FromServer(p1, d.src) {
        SrvAllKeeps(p1, RecordsOf(d.payload, p1.key, |d.payload| / SIZE), i.now, i.clock);
      }
    }
  }

  lemma {:induction false} SpreadOut(t: seq<int>)
    requires t != [] && Apart(t)
    ensures (REG_TICK + 1) * (|t| - 1) <= t[|t| - 1] - t[0]
  {
    if |t| > 1 {
      var n := |t| - 1;
      SpreadOut(t[..n]);
      assert t[..n][n - 1] == t[n - 1];
    }
  }

  /** Hence the time between the first and the last bounds how many there are. */
  lemma RegistersBounded(p: Peer, inputs: seq<Input>)
    requires Fresh(p) && AllPorted(inputs) && Monotone(inputs)
    ensures var t := RegisterTimes(p, inputs);
            t != [] ==> (REG_TICK + 1) * (|t| - 1) <= t[|t| - 1] - t[0]
  {
    RegistersApart(p, inputs);
    if RegisterTimes(p, inputs) != [] {
      SpreadOut(RegisterTimes(p, inputs));
    }
  }

  // ---------- the program

  /** How the record loop of `_received` ends: with remainder zero, in the failed assertion, or by
      reading past the buffer. */
  datatype Ending = Completed | AssertionFailed | ReadPastBuffer

  /** The largest datagram whose last, partial record still lies in the buffer. */
  const LAST_SAFE: nat := 9968

  /** How many records the loop deciphers for a datagram of this length: the partial one too, with what
      the buffer held behind the datagram, unless it would end outside the buffer. */
  function RecordsRead(bytes: nat): (n: nat)
    ensures SIZE * n <= LAST_SAFE
  {
    if bytes <= LAST_SAFE then (bytes + SIZE - 1) / SIZE else LAST_SAFE / SIZE
  }

  class APeer {
    var key: Key
    var s: UdpXdea
    var mecap: Record
    var pers: seq<Endpoint>
    var status: u8
    var regtime: int
    var pingtime: int
    var iah: int
    var srvsin: Endpoint
    var udpbuffer: array<u8>
    var delivered: nat

    ghost predicate Valid()
      reads this, s
    {
      s.Valid() && udpbuffer.Length == MAX_UDP + 1 && udpbuffer != s.buff
    }

    ghost function Contents(): Peer
      reads this
    {
      Peer(key, srvsin, mecap, status, pers, regtime, pingtime, iah)
    }

    constructor (key: Key, server: Endpoint, cap: Record, now: int)
      ensures Valid() && Fresh(Contents()) && fresh(s) && fresh(s.buff) && fresh(udpbuffer)
      ensures Contents() == Peer(key, server, cap, SRV_UNREGISTERED, [], 0, now, 0) && s.outbox == [] && delivered == 0
    {
      this.key, srvsin, mecap := key, server, cap;
      s := new UdpXdea();
      pers, status, regtime, pingtime, iah := [], SRV_UNREGISTERED, 0, now, 0;
      udpbuffer := new u8[MAX_UDP + 1];
      delivered := 0;
    }

    /** _srv_process and _peering */
    method SrvProcess(plin: Record, now: int, clock: int)
      requires Valid()
      modifies this`status, this`regtime, this`pingtime, s`outbox, s.buff
      ensures Valid()
      ensures Contents() == old(SrvState(Contents(), plin, now, clock))
      ensures s.outbox == old(s.outbox) + WireAll(SrvSends(plin))
    {
      hide WithVerb, PublicA, PublicP, PublicKeys, Payload;
      if Verb(plin) == SRV_REGISTERRED {
        if status == SRV_UNREGISTER {
          status := SRV_REGISTERRED;
        }
        regtime := clock;
      } else if Verb(plin) == SRV_SET_PEER {
        s.SendRecord(WithVerb(plin, PER_PING), AddrOf(PublicA(plin), PublicP(plin)), PublicKeys(plin));
      } else if Verb(plin) == SRV_UNREGISTERED {
        status := SRV_UNREGISTERED;
      } else if Verb(plin) == SRV_PING {
        if status == SRV_UNREGISTER {
          status := SRV_REGISTERRED;
        }
      }
      pingtime := now;
    }

    /** The loop of _received for a datagram from the server: it deciphers record after record until
        no bytes are left, and then asserts that none are owed. It completes exactly on a whole number
        of records, and reads past the buffer exactly above LAST_SAFE. Either way the records before
        have been processed. */
    method ReceivedFromServer(bytes: nat, now: int, clock: int) returns (ending: Ending)
      requires Valid() && bytes <= MAX_UDP
      modifies this`status, this`regtime, this`pingtime, s`outbox, s.buff
      ensures Valid() && udpbuffer[..] == old(udpbuffer[..])
      ensures ending.Completed? <==> bytes % SIZE == 0
      ensures ending.ReadPastBuffer? <==> bytes > LAST_SAFE
      ensures var recs := RecordsOf(udpbuffer[..], key, RecordsRead(bytes));
              && Contents() == old(SrvAllState(Contents(), recs, now, clock))
              && s.outbox == old(s.outbox) + WireAll(SrvAllSends(recs))
    {
      hide SrvState, SrvSends, RecordAt, RecordsOf, WireAll;
      WireNone();
      RecordsNone(udpbuffer[..], key);
      ghost var buf := udpbuffer[..];
      var off, left: int := 0, bytes;
      ghost var n := 0;
      while left > 0
        invariant Valid() && udpbuffer[..] == buf && key == old(key)
        invariant off == SIZE * n && left == bytes - off && left + SIZE > 0 && off <= MAX_UDP + 1
        invariant Contents() == old(SrvAllState(Contents(), RecordsOf(buf, key, n), now, clock))
        invariant s.outbox == old(s.outbox) + WireAll(SrvAllSends(RecordsOf(buf, key, n)))
        decreases left
      {
        if off + SIZE > udpbuffer.Length {
          assert n == RecordsRead(bytes);
          return ReadPastBuffer;
        }
        var rec := RecordAt(udpbuffer[..], key, off / SIZE);
        RecordsNext(buf, key, n);
        WireAppend(SrvAllSends(RecordsOf(buf, key, n)), SrvSends(rec));
        SrvProcess(rec, now, clock);
        off, left, n := off + SIZE, left - SIZE, n + 1;
      }
      assert n == RecordsRead(bytes);
      ending := if left == 0 then Completed else AssertionFailed;
    }

    /** _per_process */
    method PerProcessRecord(src: Addr, now: int)
      requires Valid()
      modifies this`status, this`pers, this`pingtime, this`delivered, s`outbox, s.buff
      ensures Valid() && udpbuffer[..] == old(udpbuffer[..])
      ensures var r := old(PerProcess(Contents(), src, RecordAt(udpbuffer[..], key, 0), now));
              Contents() == r.peer && s.outbox == old(s.outbox) + WireAll(r.sends)
                  && delivered == old(delivered) + r.delivered
    {
      hide Open, WithVerb, Insert, Payload;
      WireNone();
      var pin := Open(key, udpbuffer[..SIZE]);
      assert udpbuffer[..][SIZE * 0..SIZE * 0 + SIZE] == udpbuffer[..SIZE];
      if Verb(pin) == PER_DATA {
        delivered := delivered + 1;
        status := PER_LINKED;
      } else if Verb(pin) == PER_PING {
        s.SendRecord(WithVerb(pin, PER_PONG), src, key);
      } else if Verb(pin) == PER_PONG {
        pers := Insert(pers, Rsin(src));
        status := PER_LINKED;
      } else if Verb(pin) == SRV_PING {
        pingtime := now;
      }
    }

    /** _rec_udp and _received, after the datagram was copied into the buffer. When the assertion fails or
        the loop leaves the buffer, all records up to there have been processed, the partial one as the
        buffer completes it. */
    method RecUdp(d: Inbound, now: int, clock: int) returns (died: bool)
      requires Valid() && |d.payload| <= MAX_UDP
      modifies this`status, this`pers, this`regtime, this`pingtime, this`delivered, udpbuffer, s`outbox, s.buff
      ensures Valid() && udpbuffer[..] == d.payload + old(udpbuffer[|d.payload|..])
      ensures var r := old(React(Contents(), d, now, clock));
              && died == r.died
              && (!died ==> Contents() == r.peer && s.outbox == old(s.outbox) + WireAll(r.sends)
                            && delivered == old(delivered) + r.delivered)
      ensures died ==> var recs := RecordsOf(udpbuffer[..], key, RecordsRead(|d.payload|));
                       && Contents() == old(SrvAllState(Contents(), recs, now, clock))
                       && s.outbox == old(s.outbox) + WireAll(SrvAllSends(recs)) && delivered == old(delivered)
                       && recs[..|d.payload| / SIZE] == RecordsOf(d.payload, key, |d.payload| / SIZE)
    {
      hide Open, Insert, PerProcess, SrvAllState, SrvAllSends, Eq, WireAll;
      WireNone();
      died := false;
      var bytes := |d.payload|;
      CopyIn(d.payload, udpbuffer);
      assert udpbuffer[..] == udpbuffer[..bytes] + udpbuffer[bytes..];
      if bytes >= SIZE {
        if Eq(Rsin(d.src), srvsin) {
          SamePrefix(d.payload, udpbuffer[..], key, bytes / SIZE);
          assert bytes / SIZE <= RecordsRead(bytes) && (bytes % SIZE == 0 ==> RecordsRead(bytes) == bytes / SIZE);
          FirstRecords(udpbuffer[..], key, bytes / SIZE, RecordsRead(bytes));
          var ending := ReceivedFromServer(bytes, now, clock);
          died := !ending.Completed?;
        } else {
          assert udpbuffer[..][SIZE * 0..SIZE * 0 + SIZE] == d.payload[SIZE * 0..SIZE * 0 + SIZE];
          PerProcessRecord(d.src, now);
        }
      } else if bytes > 0 {
        for i := 0 to |pers|
          invariant Valid() && Contents() == old(Contents()) && s.outbox == old(s.outbox)
          invariant udpbuffer[..] == d.payload + old(udpbuffer[bytes..])
          invariant delivered == old(delivered) + Matches(pers[..i], Rsin(d.src))
        {
          MatchesAppend(pers[..i], pers[i], Rsin(d.src));
          assert pers[..i + 1] == pers[..i] + [pers[i]];
          if Eq(pers[i], Rsin(d.src)) {
            delivered := delivered + 1;
          }
        }
        assert pers[..|pers|] == pers;
      }
    }

    /** send_to_pers */
    method SendToPers(data: seq<u8>)
      requires Valid() && |data| <= MAX_UDP
      modifies s`outbox, s.buff
      ensures Valid()
      ensures s.outbox == old(s.outbox) + WireAll(TextSends(pers, data))
    {
      hide Payload;
      for i := 0 to |pers|
        invariant Valid()
        invariant s.outbox == old(s.outbox) + WireAll(TextSends(pers[..i], data))
      {
        assert TextSends(pers[..i + 1], data) == TextSends(pers[..i], data) + [Plain(AddrOfEndpoint(pers[i]), data)];
        WireAppend(TextSends(pers[..i], data), [Plain(AddrOfEndpoint(pers[i]), data)]);
        s.SendPlain(data, AddrOfEndpoint(pers[i]));
      }
      assert pers[..|pers|] == pers;
    }

    /** The registration timer of `main`. */
    method RegisterTick(now: int)
      requires Valid()
      modifies this`regtime, this`mecap, s`outbox, s.buff
      ensures Valid()
      ensures Contents() == old(AfterTimer(Contents(), now))
      ensures s.outbox == old(s.outbox) + WireAll(old(TimerSends(Contents(), now)))
    {
      hide WithVerb, Payload;
      WireNone();
      if status == SRV_UNREGISTERED && now - regtime > REG_TICK {
        regtime := now;
        mecap := WithVerb(mecap, SRV_REGISTER);
        s.SendRecord(mecap, AddrOfEndpoint(srvsin), key);
      }
    }

    /** The I-am-here timer of `main`, with its branch that is never taken. */
    method HereTick(now: int)
      modifies this`iah, this`pingtime, this`pers, this`status
      ensures Contents() == old(AfterHere(Contents(), now))
    {
      if now - iah > IAM_HERE_TO {
        iah := now;
        pingtime := now;
        var missing := now - pingtime > SERVER_DOWN_TO;
        pers, status := if missing then [] else pers, StatusIfMissing(missing, status);
      }
    }

    /** The keyboard part of `main`. */
    method Keyboard(text: Option<seq<u8>>)
      requires Valid() && (text.Some? ==> |text.value| <= MAX_UDP)
      modifies s`outbox, s.buff
      ensures Valid()
      ensures s.outbox == old(s.outbox) + WireAll(LineSends(Contents(), text))
    {
      hide WireAll, TextSends;
      WireNone();
      if status == PER_LINKED && text.Some? {
        SendToPers(text.value);
      }
    }

    /** One turn of the loop of `main`. A turn that dies has run its timer and processed the records as
        RecUdp does. */
    method LoopOnce(i: Input) returns (died: bool)
      requires Valid()
      requires i.inbound.Some? ==> |i.inbound.value.payload| <= MAX_UDP
      requires i.text.Some? ==> |i.text.value| <= MAX_UDP
      modifies this`status, this`pers, this`regtime, this`pingtime, this`iah, this`mecap, this`delivered, udpbuffer,
        s`outbox, s.buff
      ensures Valid()
      ensures var r := old(Turn(Contents(), i));
              && died == r.died
              && (!died ==> Contents() == r.peer && s.outbox == old(s.outbox) + WireAll(r.sends)
                            && delivered == old(delivered) + r.delivered)
      ensures died ==> i.inbound.Some? && delivered == old(delivered)
      ensures died ==> var recs := RecordsOf(udpbuffer[..], key, RecordsRead(|i.inbound.value.payload|));
                       && Contents() == old(SrvAllState(AfterTimer(Contents(), i.now), recs, i.now, i.clock))
                       && s.outbox == old(s.outbox) + WireAll(old(TimerSends(Contents(), i.now)) + SrvAllSends(recs))
    {
      hide React, AfterTimer, TimerSends, AfterHere, WireAll, LineSends, SrvAllState, SrvAllSends, RecordsOf,
           RecordsRead;
      WireNone();
      ghost var timer, r := TimerSends(Contents(), i.now), Handled(AfterTimer(Contents(), i.now), i);
      RegisterTick(i.now);
      died := false;
      if i.inbound.Some? {
        died := RecUdp(i.inbound.value, i.now, i.clock);
        if died {
          WireAppend(timer, SrvAllSends(RecordsOf(udpbuffer[..], key, RecordsRead(|i.inbound.value.payload|))));
          return;
        }
      }
      WireAppend(timer, r.sends);
      HereTick(i.now);
      WireAppend(timer + r.sends, LineSends(Contents(), i.text));
      Keyboard(i.text);
    }
  }

  lemma RecordsNone(buf: seq<u8>, key: Key)
    ensures RecordsOf(buf, key, 0) == []
  {
  }

  lemma RecordsNext(buf: seq<u8>, key: Key, n: nat)
    requires SIZE * n + SIZE <= |buf|
    ensures RecordsOf(buf, key, n + 1) == RecordsOf(buf, key, n) + [RecordAt(buf, key, n)]
  {
    hide RecordAt;
  }

  lemma FirstRecords(buf: seq<u8>, key: Key, m: nat, n: nat)
    requires m <= n && SIZE * n <= |buf|
    ensures RecordsOf(buf, key, n)[..m] == RecordsOf(buf, key, m)
  {
    hide RecordAt;
  }

  lemma SamePrefix(payload: seq<u8>, buf: seq<u8>, key: Key, n: nat)
    requires SIZE * n <= |payload| && payload <= buf
    ensures RecordsOf(payload, key, n) == RecordsOf(buf, key, n)
  {
    hide Open;
    forall i | 0 <= i < n
      ensures RecordAt(payload, key, i) == RecordAt(buf, key, i)
    {
      assert payload[SIZE * i..SIZE * i + SIZE] == buf[SIZE * i..SIZE * i + SIZE];
    }
  }

  lemma {:induction false} MatchesAppend(s: seq<Endpoint>, x: Endpoint, e: Endpoint)
    ensures Matches(s + [x], e) == Matches(s, e) + if Eq(x, e) then 1 else 0
  {
    hide Eq;
    if s == [] {
      assert s + [x] == [x] && [x][1..] == [];
    } else {
      assert (s + [x])[1..] == s[1..] + [x];
      MatchesAppend(s[1..], x, e);
    }
  }

}
