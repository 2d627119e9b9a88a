/** u_server.cpp: the relay server, one iteration of its loop at a time. */
module Servers {
  import opened Bytes
  import opened Text
  import opened Xtea
  import opened Cipher
  import opened Fingerprints
  import opened Records
  import opened Tables
  import opened Wires
  import opened Introductions

  const TTLIVE: int := 15

  /** The hash of a fingerprint as the column K holds it. */
  type Hash = string -> int

  datatype Server = Server(mids: seq<MidRow>, db: Db, prev: Record, dirty: bool, pingpers: int, pl: Record)

  /** What one iteration may meet: a datagram or none, the clock, whether the database answers, and
      which rows a removal would hit. */
  datatype Input = Input(inbound: Option<Inbound>, now: int, up: bool, gone: set<int>)

  /** What one iteration does: the next state, the replies, and the introduction round if there is
      one, with the entries it read. */
  datatype Outcome = Outcome(server: Server, replies: seq<Send>, round: Option<seq<Ipp>>, roundSends: seq<Send>)

  /** What the processing of one datagram does. */
  datatype Reaction = Reaction(server: Server, replies: seq<Send>)

  function Chars(s: seq<u8>): (t: string)
    ensures |t| == |s|
  {
    seq(|s|, i requires 0 <= i < |s| => s[i] as char)
  }

  /** Who a REGISTER record from a source speaks for. */
  function RegistrantOf(pl: Record, src: Addr, keys: Key): Registrant {
    Registrant(IppA(src), IppP(src), Chars(CString(pl[ID..])), keys)
  }

  /** What the server stores for it: the address it saw, not one the record claims. */
  function EntryOf(h: Hash, pl: Record, src: Addr, keys: Key): Entry {
    Entry(CString(pl[ID + 2..]), h(Fingerprint(RegistrantOf(pl, src, keys))), IppA(src), IppP(src), Typ(pl), keys)
  }

  function Registered(pl: Record): Record {
    Cleared(WithVerb(pl, SRV_REGISTERRED))
  }

  /** _store_peer */
  function Admit(h: Hash, s: Server, src: Addr, keys: Key, now: int, up: bool): Reaction {
    if s.prev == s.pl then Reaction(s, [])
    else if !up then Reaction(s.(prev := s.pl, dirty := false), [])
    else Reaction(Server(s.mids, Upsert(s.db, EntryOf(h, s.pl, src, keys), now), s.pl, true, s.pingpers, Registered(s.pl)),
          [Sealed(src, keys, Registered(s.pl))])
  }

  /** _process, after authorisation put the clear record into `pl`. */
  function Process(h: Hash, s: Server, src: Addr, keys: Key, i: Input): Reaction {
    if Verb(s.pl) == PER_AIH then
      Reaction(s.(db := Refresh(s.db, IppA(src), IppP(src), i.now)), [])
    else if Verb(s.pl) == SRV_REGISTER then
      Admit(h, s, src, keys, i.now, i.up)
    else if Verb(s.pl) == SRV_UNREGISTER then
      Reaction(Server(s.mids, Remove(s.db, i.gone), s.prev, true, s.pingpers, WithVerb(s.pl, SRV_UNREGISTERED)),
               [Plain(src, WithVerb(s.pl, SRV_UNREGISTERED))])
    else
      Reaction(s, [])
  }

  /** The receive buffer after a datagram: longer ones are cut, shorter ones leave the rest. */
  function Filled(pl: Record, payload: seq<u8>): Record {
    if |payload| >= SIZE then payload[..SIZE] else payload + pl[|payload|..]
  }

  /** The 112 bytes of a request that fills the receive buffer. */
  predicate IsRequest(i: Input) {
    i.inbound.Some? && |i.inbound.value.payload| >= SIZE
  }

  function Request(i: Input): Record
    requires IsRequest(i)
  {
    i.inbound.value.payload[..SIZE]
  }

  /** Some row of `mid` authorises the datagram of the input. */
  predicate Authorised(s: Server, i: Input) {
    IsRequest(i) && FirstAuth(s.mids, IppA(i.inbound.value.src), Request(i)) < |s.mids|
  }

  /** The keys of the row that does. */
  function AuthKeys(s: Server, i: Input): Key
    requires Authorised(s, i)
  {
    ToKeys(s.mids[FirstAuth(s.mids, IppA(i.inbound.value.src), Request(i))].mid)
  }

  /** The clear record of the authorised datagram. */
  function ClearRecord(s: Server, i: Input): Record
    requires Authorised(s, i)
  {
    Open(AuthKeys(s, i), Request(i))
  }

  /** The first half of an iteration: receive, authorise, process. */
  function Receive(h: Hash, s: Server, i: Input): Reaction {
    if i.inbound.None? then Reaction(s, [])
    else if !Authorised(s, i) then Reaction(s.(pl := Filled(s.pl, i.inbound.value.payload)), [])
    else Process(h, s.(pl := ClearRecord(s, i)), i.inbound.value.src, AuthKeys(s, i), i)
  }

  predicate Due(s: Server, now: int) {
    now - s.pingpers > TTLIVE || s.dirty
  }

  /** The second half: a round when the timer or the dirty flag asks for one, then the expiry. */
  function Iterate(h: Hash, s: Server, i: Input): Outcome {
    var r := Receive(h, s, i);
    if Due(r.server, i.now) then Rounded(r, i.now) else Outcome(r.server, r.replies, None, [])
  }

  function Rounded(r: Reaction, now: int): Outcome {
    var pers := Pers(r.server.db.rows);
    var e := RoundSends(pers, r.server.pl);
    Outcome(Server(r.server.mids, Expire(r.server.db, now), ZeroRecord(), false, now, e.pl), r.replies, Some(pers), e.sends)
  }

  /** The state at the head of the loop as long as no store has failed. */
  predicate Quiet(s: Server) {
    s.prev == ZeroRecord() && !s.dirty
  }

  function Start(mids: seq<MidRow>): Server {
    Server(mids, EMPTY, ZeroRecord(), false, 0, ZeroRecord())
  }

  /** The input is an authorised REGISTER. */
  predicate IsRegister(s: Server, i: Input) {
    Authorised(s, i) && Verb(ClearRecord(s, i)) == SRV_REGISTER
  }

  lemma VerbNotZero(r: Record)
    requires Verb(r) != 0
    ensures r != ZeroRecord()
  {
    assert ZeroRecord()[0] == 0;
  }

  /** From a quiet loop head, the next one is quiet unless an authorised REGISTER met a database that
      did not answer, outside the time of a round: exactly then the request is remembered and its
      repetitions are dropped. */
  lemma QuietExactly(h: Hash, s: Server, i: Input)
    requires Quiet(s)
    ensures Quiet(Iterate(h, s, i).server) <==> !(IsRegister(s, i) && !i.up && i.now - s.pingpers <= TTLIVE)
  {
    hide Open, ToKeys, Upsert, Remove, Refresh, RoundSends, Pers, FirstAuth, EntryOf, Registered, Filled, WithVerb;
    if IsRegister(s, i) {
      VerbNotZero(ClearRecord(s, i));
    }
  }

  /** So while stores succeed every loop head is quiet, whatever arrives. */
  lemma {:induction false} AlwaysQuiet(h: Hash, mids: seq<MidRow>, inputs: seq<Input>)
    requires forall k :: 0 <= k < |inputs| ==> inputs[k].up
    ensures Quiet(ServerRun(h, mids, inputs))
  {
    if inputs != [] {
      var n := |inputs| - 1;
      AlwaysQuiet(h, mids, inputs[..n]);
      QuietExactly(h, ServerRun(h, mids, inputs[..n]), inputs[n]);
    }
  }

  function ServerRun(h: Hash, mids: seq<MidRow>, inputs: seq<Input>): Server {
    if inputs == [] then Start(mids)
    else Iterate(h, ServerRun(h, mids, inputs[..|inputs| - 1]), inputs[|inputs| - 1]).server
  }

  /** No authorised REGISTER is dropped as a duplicate: its own iteration stores or refreshes its row,
      which outlives the expiry, answers the sender under the authorising keys, and runs a round over
      a table that holds the row. */
  lemma RegisterServed(h: Hash, s: Server, i: Input)
    requires Quiet(s) && IsRegister(s, i) && i.up
    ensures var src, keys, o := i.inbound.value.src, AuthKeys(s, i), Iterate(h, s, i);
            var e := EntryOf(h, ClearRecord(s, i), src, keys);
            var stored := Upsert(s.db, e, i.now);
            && (exists r :: r in o.server.db.rows && r in stored.rows && r.k == e.k && r.d == i.now)
            && o.replies == [Sealed(src, keys, Registered(ClearRecord(s, i)))]
            && o.round == Some(Pers(stored.rows))
            && o.roundSends == RoundSends(Pers(stored.rows), Registered(ClearRecord(s, i))).sends
            && o.server.db == Expire(stored, i.now)
  {
    hide Open, ToKeys, Upsert, RoundSends, Pers, FirstAuth, EntryOf, Registered, Filled, Expire;
    VerbNotZero(ClearRecord(s, i));
    var src, keys := i.inbound.value.src, AuthKeys(s, i);
    var e := EntryOf(h, ClearRecord(s, i), src, keys);
    var stored := Upsert(s.db, e, i.now);
    StoredRow(s.db, e, i.now);
    var r :| r in stored.rows && r.k == e.k && r.d == i.now;
    ExpireExactly(stored, i.now, r);
    assert Iterate(h, s, i).server.db == Expire(stored, i.now);
  }

  /** An authorised REGISTER is answered, and reaches the table, exactly when it differs from the
      remembered one and the database answers. */
  lemma AnsweredExactly(h: Hash, s: Server, i: Input)
    requires IsRegister(s, i)
    ensures var r := Receive(h, s, i);
            && (r.replies != [] <==> s.prev != ClearRecord(s, i) && i.up)
            && (r.replies == [] ==> r.server.db == s.db)
  {
    hide Open, ToKeys, Upsert, FirstAuth, EntryOf, Registered, Filled;
  }

  /** When the database fails once, the same REGISTER sent again is lost too, although the database
      answers by then, if no round comes between. */
  lemma RepetitionLost(h: Hash, s: Server, i: Input, again: int)
    requires Quiet(s) && IsRegister(s, i) && !i.up
    requires i.now - s.pingpers <= TTLIVE && again - s.pingpers <= TTLIVE
    ensures var o := Iterate(h, Iterate(h, s, i).server, i.(up := true, now := again));
            o.replies == [] && o.server.db == s.db
  {
    hide Open, ToKeys, Upsert, FirstAuth, EntryOf, Registered, Filled, RoundSends, Pers;
    VerbNotZero(ClearRecord(s, i));
    var t, j := Iterate(h, s, i).server, i.(up := true, now := again);
    assert t.prev == ClearRecord(s, i) && t.mids == s.mids && !t.dirty && t.db == s.db;
    assert IsRegister(t, j) && ClearRecord(t, j) == ClearRecord(s, i);
  }

  // ---------- what is answered, byte by byte

  /** The record answers the request: verb 2, the union all zero, and everything around it as it came. */
  ghost predicate Acknowledges(r: Record, request: Record) {
    && r[0] == 2 && r[1..16] == request[1..16] && r[96..] == request[96..]
    && forall k :: 16 <= k < 96 ==> r[k] == 0
  }

  /** The record names no mid and no id. */
  ghost predicate Silent(r: Record) {
    (forall m: Mid :: !MeiotIs(r, m)) && CString(r[ID..]) == []
  }

  lemma ClearedAcknowledges(request: Record)
    ensures Acknowledges(Registered(request), request)
  {
  }

  /** A zero in the bytes that a mid would take, and one where the id starts. */
  lemma ZeroSilences(r: Record)
    requires r[22] == 0 && r[ID] == 0
    ensures Silent(r)
  {
    forall m: Mid
      ensures !MeiotIs(r, m)
    {
      MeiotExactly(r, m);
      assert IsHex(m[6]) && r[16..16 + |m|][6] == 0;
    }
  }

  /** From a quiet loop head an authorised REGISTER gets one reply, under the authorising keys: the request
      with its union cleared. Neither the reply nor the packet that the round starts from names a mid or
      an id. */
  lemma ReplyCleared(h: Hash, s: Server, i: Input)
    requires Quiet(s) && IsRegister(s, i) && i.up
    ensures var o := Iterate(h, s, i);
            && |o.replies| == 1 && o.replies[0].Sealed?
            && o.replies[0].to == i.inbound.value.src && o.replies[0].key == AuthKeys(s, i)
            && Acknowledges(o.replies[0].rec, ClearRecord(s, i)) && Silent(o.replies[0].rec)
            && Receive(h, s, i).server.pl == o.replies[0].rec
  {
    hide Open, ToKeys, Upsert, RoundSends, Pers, FirstAuth, EntryOf, Registered, Filled, Expire, Silent, Acknowledges;
    VerbNotZero(ClearRecord(s, i));
    ClearedAcknowledges(ClearRecord(s, i));
    AcknowledgementSilent(Registered(ClearRecord(s, i)), ClearRecord(s, i));
  }

  lemma AcknowledgementSilent(r: Record, request: Record)
    requires Acknowledges(r, request)
    ensures Silent(r) && r[22] == 0 && r[ID] == 0
  {
    hide Silent;
    ZeroSilences(r);
  }

  /** Nor does any packet of the round that follows. */
  lemma RoundSilent(h: Hash, s: Server, i: Input)
    requires Quiet(s) && IsRegister(s, i) && i.up
    ensures forall send :: send in Iterate(h, s, i).roundSends ==> send.Sealed? && Silent(send.rec)
  {
    hide Open, ToKeys, RoundSends, Pers, FirstAuth, Silent, Acknowledges, Receive, Gap, Quiet, Authorised, ClearRecord;
    var o, r := Iterate(h, s, i), Receive(h, s, i);
    ReplyCleared(h, s, i);
    AcknowledgementSilent(r.server.pl, ClearRecord(s, i));
    if Due(r.server, i.now) {
      var pers := Pers(r.server.db.rows);
      RoundGap(pers, r.server.pl);
      forall send | send in RoundSends(pers, r.server.pl).sends
        ensures send.Sealed? && Silent(send.rec)
      {
        GapZeros(send.rec, r.server.pl);
        ZeroSilences(send.rec);
      }
    }
  }

  lemma GapZeros(r: Record, pl: Record)
    requires Gap(r) == Gap(pl) && pl[22] == 0 && pl[ID] == 0
    ensures r[22] == 0 && r[ID] == 0
  {
    assert Gap(r)[15] == r[22] && Gap(pl)[15] == pl[22];
    assert Gap(r)[21 + ID - 44] == r[ID] && Gap(pl)[21 + ID - 44] == pl[ID];
  }

  // ---------- the other verbs

  /** A datagram that no row authorises changes nothing but the packet: its bytes go to the front. */
  lemma Refused(h: Hash, s: Server, i: Input)
    requires i.inbound.Some? && !Authorised(s, i)
    ensures var r, payload := Receive(h, s, i), i.inbound.value.payload;
            && r.replies == [] && r.server == s.(pl := r.server.pl)
            && forall k :: 0 <= k < SIZE ==> r.server.pl[k] == if k < |payload| then payload[k] else s.pl[k]
  {
  }

  /** An authorised PER_AIH gives the rows of its source a new D, and does nothing else. */
  lemma AliveRefreshes(h: Hash, s: Server, i: Input)
    requires Authorised(s, i) && Verb(ClearRecord(s, i)) == 9
    ensures var r, src := Receive(h, s, i), i.inbound.value.src;
            && r.replies == [] && r.server.prev == s.prev && r.server.dirty == s.dirty && r.server.pl == ClearRecord(s, i)
            && r.server.db.nextId == s.db.nextId && |r.server.db.rows| == |s.db.rows|
            && forall k :: 0 <= k < |s.db.rows| ==>
                 var x := s.db.rows[k];
                 r.server.db.rows[k] == if x.pa == IppA(src) && x.pp == IppP(src) then x.(d := i.now) else x
  {
    hide Open, ToKeys, FirstAuth;
  }

  /** An authorised SRV_UNREGISTER is answered in clear with verb 5 and its own bytes, and asks for a
      round. */
  lemma UnregisterAnswered(h: Hash, s: Server, i: Input)
    requires Authorised(s, i) && Verb(ClearRecord(s, i)) == 4
    ensures var r := Receive(h, s, i);
            && r.server.dirty && r.server.prev == s.prev && r.replies == [Plain(i.inbound.value.src, r.server.pl)]
            && r.server.pl[0] == 5 && r.server.pl[1..] == ClearRecord(s, i)[1..]
            && (forall x :: x in r.server.db.rows <==> x in s.db.rows && x.k !in i.gone)
  {
    hide Open, ToKeys, FirstAuth;
    DeleteMembers(s.db.rows, InSet(i.gone));
  }

  /** Any other verb leaves its record in the packet, and that is all. */
  lemma OtherVerbsIgnored(h: Hash, s: Server, i: Input)
    requires Authorised(s, i) && Verb(ClearRecord(s, i)) !in {1, 4, 9}
    ensures Receive(h, s, i) == Reaction(s.(pl := ClearRecord(s, i)), [])
  {
    hide Open, ToKeys, FirstAuth;
  }

  /** From a quiet loop head a round runs exactly when the last one is more than 15 seconds ago, or a
      registration was stored, or someone unregistered. */
  lemma RoundWhen(h: Hash, s: Server, i: Input)
    requires Quiet(s)
    ensures Iterate(h, s, i).round.Some?
            <==> (|| i.now - s.pingpers > 15
                  || (IsRegister(s, i) && i.up)
                  || (Authorised(s, i) && Verb(ClearRecord(s, i)) == 4))
  {
    hide Open, ToKeys, Upsert, Remove, Refresh, RoundSends, Pers, FirstAuth, EntryOf, Registered, Filled, WithVerb, Expire;
    if IsRegister(s, i) {
      VerbNotZero(ClearRecord(s, i));
    }
  }

  /** A peer started with the id "p:abc" or "c:abc" registers in the group abc, in the role it was started
      in, at the address that the server saw. */
  lemma StartedEntry(h: Hash, m: Mid, id: seq<u8>, provider: bool, src: Addr, keys: Key)
    requires IsId(id) && |id| >= 2
    ensures var e := EntryOf(h, WithVerb(Mecap(m, id, provider), SRV_REGISTER), src, keys);
            e.name == id[2..] && e.typ == provider && AddrOf(e.a, e.p) == src && e.keys == keys
  {
    hide CString, Typ, Mecap;
    MecapReads(m, id, provider, SRV_REGISTER);
    var r := WithVerb(Mecap(m, id, provider), SRV_REGISTER);
    CStringBehind(r[ID..], 2);
    assert r[ID..][2..] == r[ID + 2..];
    AddrReturns(src);
  }

  lemma {:induction false} CStringBehind(s: seq<u8>, n: nat)
    requires n <= |CString(s)|
    ensures n <= |s| && CString(s[n..]) == CString(s)[n..]
  {
    if n != 0 {
      CStringBehind(s[1..], n - 1);
      assert s[1..][n - 1..] == s[n..];
    }
  }

  lemma StoredRow(db: Db, e: Entry, now: int)
    ensures exists r :: r in Upsert(db, e, now).rows && r.k == e.k && r.d == now
  {
    var rows := Upsert(db, e, now).rows;
    if HasK(db.rows, e.k) {
      var r :| r in db.rows && r.k == e.k;
      var j :| 0 <= j < |db.rows| && db.rows[j] == r;
      assert rows[j] in rows;
    } else {
      assert rows[|db.rows|] in rows;
    }
  }

  lemma CharsInjective(s: seq<u8>, t: seq<u8>)
    requires Chars(s) == Chars(t)
    ensures s == t
  {
    forall k | 0 <= k < |s|
      ensures s[k] == t[k]
    {
      assert Chars(s)[k] as int == Chars(t)[k] as int;
    }
  }

  ghost predicate Injective(h: Hash) {
    forall x, y :: h(x) == h(y) ==> x == y
  }

  /** With an injective hash the key K is the registrant: two registrations meet in one row exactly
      when address, port, id and keys are all the same. */
  lemma SameKExactly(h: Hash, pl: Record, src: Addr, keys: Key, pl': Record, src': Addr, keys': Key)
    requires Injective(h)
    ensures EntryOf(h, pl, src, keys).k == EntryOf(h, pl', src', keys').k
       <==> src == src' && keys == keys' && CString(pl[ID..]) == CString(pl'[ID..])
  {
    hide Fingerprint, CString, Swap32, Swap16;
    if EntryOf(h, pl, src, keys).k == EntryOf(h, pl', src', keys').k {
      FingerprintInjective(RegistrantOf(pl, src, keys), RegistrantOf(pl', src', keys'));
      CharsInjective(CString(pl[ID..]), CString(pl'[ID..]));
      AddrReturns(src);
      AddrReturns(src');
    }
  }

  class UServer {
    const hash: Hash
    var sq: Sqlyte
    var s: UdpXdea
    var prev: Record
    var dirty: bool
    var pingpers: int
    var pl: Record

    ghost predicate Valid()
      reads this, s
    {
      s.Valid()
    }

    ghost function Contents(): Server
      reads this, sq
    {
      Server(sq.mids, sq.Contents(), prev, dirty, pingpers, pl)
    }

    constructor (hash: Hash, mids: seq<MidRow>)
      ensures Valid() && fresh(sq) && fresh(s) && fresh(s.buff)
      ensures Contents() == Start(mids) && s.outbox == [] && this.hash == hash
    {
      this.hash := hash;
      sq := new Sqlyte(mids);
      s := new UdpXdea();
      prev, dirty, pingpers, pl := ZeroRecord(), false, 0, ZeroRecord();
    }

    method StorePeer(src: Addr, keys: Key, now: int, up: bool)
      requires Valid()
      modifies this`prev, this`dirty, this`pl, sq, s`outbox, s.buff
      ensures Valid()
      ensures var r := old(Admit(hash, Contents(), src, keys, now, up));
              Contents() == r.server && s.outbox == old(s.outbox) + WireAll(r.replies)
      ensures old(prev != pl) && up ==>
                Acknowledges(pl, old(pl)) && s.outbox == old(s.outbox) + [Datagram(src, Seal(keys, pl))]
    {
      hide EntryOf, Upsert, Registered, Seal, Acknowledges;
      ClearedAcknowledges(pl);
      if prev != pl {
        prev := pl;
        dirty := sq.StorePeer(EntryOf(hash, pl, src, keys), now, up);
        if dirty {
          pl := Registered(pl);
          s.SendRecord(pl, src, keys);
        }
      }
    }

    /** The body of the inner loop of _ping_pers. */
    method IntroducePair(p: Ipp, q: Ipp)
      requires Valid()
      modifies this`pl, s`outbox, s.buff
      ensures Valid()
      ensures pl == PairSends(p, q, old(pl)).pl
      ensures s.outbox == old(s.outbox) + WireAll(PairSends(p, q, old(pl)).sends)
    {
      hide WithVerb, WithPublic, Payload, IppAddr;
      pl := WithVerb(pl, SRV_SET_PEER);
      if p.t != q.t {
        pl := WithPublic(pl, p);
        ghost var first := To(q, pl);
        s.SendIpp(pl, q);
        pl := WithPublic(pl, q);
        s.SendIpp(pl, p);
        WireAppend([first], [To(p, pl)]);
        assert [first] + [To(p, pl)] == PairSends(p, q, old(pl)).sends;
      }
    }

    /** The inner loop of _ping_pers for the entry i. */
    method IntroduceAll(ps: seq<Ipp>, i: nat)
      requires Valid() && i < |ps|
      modifies this`pl, s`outbox, s.buff
      ensures Valid()
      ensures pl == InnerSends(ps, i, |ps|, old(pl)).pl
      ensures s.outbox == old(s.outbox) + WireAll(InnerSends(ps, i, |ps|, old(pl)).sends)
    {
      hide PairSends, WireAll;
      WireNone();
      ghost var hello := pl;
      for j := 0 to |ps|
        invariant Valid()
        invariant pl == InnerSends(ps, i, j, hello).pl
        invariant s.outbox == old(s.outbox) + WireAll(InnerSends(ps, i, j, hello).sends)
      {
        WireAppend(InnerSends(ps, i, j, hello).sends, PairSends(ps[i], ps[j], pl).sends);
        IntroducePair(ps[i], ps[j]);
      }
    }

    /** The body of the outer loop of _ping_pers. */
    method ServeEntry(ps: seq<Ipp>, i: nat)
      requires Valid() && i < |ps|
      modifies this`pl, s`outbox, s.buff
      ensures Valid()
      ensures pl == EntrySends(ps, i, old(pl)).pl
      ensures s.outbox == old(s.outbox) + WireAll(EntrySends(ps, i, old(pl)).sends)
    {
      hide WithVerb, To, InnerSends, WireAll;
      pl := WithVerb(pl, SRV_PING);
      ghost var hello := pl;
      s.SendIpp(pl, ps[i]);
      IntroduceAll(ps, i);
      ToIs(ps[i], hello);
      WireAppend([To(ps[i], hello)], InnerSends(ps, i, |ps|, hello).sends);
    }

    /** _ping_pers: the nested loop over the entries read once from the table. */
    method PingPers() returns (ghost pers: seq<Ipp>)
      requires Valid()
      modifies this`pl, s`outbox, s.buff
      ensures Valid() && pers == Pers(sq.pers)
      ensures pl == RoundSends(pers, old(pl)).pl
      ensures s.outbox == old(s.outbox) + WireAll(RoundSends(pers, old(pl)).sends)
    {
      hide Pers, EntrySends, WireAll;
      WireNone();
      var ps := sq.GetPers();
      pers := ps;
      ghost var pl0 := pl;
      for i := 0 to |ps|
        invariant Valid()
        invariant pl == OuterSends(ps, i, pl0).pl
        invariant s.outbox == old(s.outbox) + WireAll(OuterSends(ps, i, pl0).sends)
      {
        WireAppend(OuterSends(ps, i, pl0).sends, EntrySends(ps, i, pl).sends);
        ServeEntry(ps, i);
      }
    }

    method HandleDatagram(src: Addr, payload: seq<u8>, i: Input)
      requires Valid() && i.inbound == Some(Inbound(src, payload))
      modifies this`prev, this`dirty, this`pl, sq, s`outbox, s.buff
      ensures Valid()
      ensures var r := old(Receive(hash, Contents(), i));
              Contents() == r.server && s.outbox == old(s.outbox) + WireAll(r.replies)
    {
      hide Open, Seal, ToKeys, MeiotIs, FirstAuth, Upsert, Refresh, Delete, EntryOf, Registered, WithVerb, Swap32,
           Swap16;
      WireNone();
      pl := Filled(pl, payload);
      if |payload| >= SIZE {
        var ok, clear, keys := sq.Authorize(pl, IppA(src));
        if ok {
          pl := clear;
          if Verb(pl) == PER_AIH {
            sq.UpdatePeer(IppA(src), IppP(src), i.now);
          } else if Verb(pl) == SRV_REGISTER {
            StorePeer(src, keys, i.now, i.up);
          } else if Verb(pl) == SRV_UNREGISTER {
            pl := WithVerb(pl, SRV_UNREGISTERED);
            s.SendPlain(pl, src);
            dirty := sq.RemovePeer(i.gone);
          }
        }
      }
    }

    /** The periodic part of `main`: a round, the reset of the duplicate test, the expiry. */
    method PingAndExpire(now: int)
      requires Valid()
      modifies this`prev, this`dirty, this`pl, this`pingpers, sq, s`outbox, s.buff
      ensures Valid()
      ensures var o := old(Rounded(Reaction(Contents(), []), now));
              Contents() == o.server && s.outbox == old(s.outbox) + WireAll(o.roundSends)
    {
      hide RoundSends, Expire, Pers, WireAll;
      pingpers := now;
      ghost var pers := PingPers();
      prev := ZeroRecord();
      dirty := sq.DelOldies(now);
      dirty := false;
    }

    /** One iteration of `main`. */
    method LoopOnce(i: Input)
      requires Valid()
      modifies this`prev, this`dirty, this`pl, this`pingpers, sq, s`outbox, s.buff
      ensures Valid()
      ensures var o := old(Iterate(hash, Contents(), i));
              Contents() == o.server && s.outbox == old(s.outbox) + WireAll(o.replies) + WireAll(o.roundSends)
    {
      hide Receive, RoundSends, Expire, Pers, WireAll;
      WireNone();
      if i.inbound.Some? {
        HandleDatagram(i.inbound.value.src, i.inbound.value.payload, i);
      } else {
        QuietReceive(hash, Contents(), i);
      }
      if i.now - pingpers > TTLIVE || dirty {
        PingAndExpire(i.now);
      }
    }
  }

  lemma ToIs(q: Ipp, rec: Record)
    ensures To(q, rec) == Sealed(IppAddr(q), q.keys, rec)
  {
  }

  lemma QuietReceive(h: Hash, s: Server, i: Input)
    requires i.inbound.None?
    ensures Receive(h, s, i) == Reaction(s, [])
  {
  }

}
