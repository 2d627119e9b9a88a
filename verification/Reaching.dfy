/** Exactly when two peers can still be linked: hole punching succeeds from every reachable state, on
    some schedule of the network and with clocks that go forward, unless the ports or the keys stand in
    the way. */
module Reaching {
  import opened Bytes
  import opened Text
  import opened Xtea
  import opened Endpoints
  import opened Records
  import opened Hearing
  import opened Tables
  import opened Wires
  import opened Introductions
  import opened Protocol
  import opened Linking
  import S = Servers
  import P = Peers

  function ExecFrom(h: S.Hash, c: Fleet, s: Sys, more: seq<Step>): Sys {
    if more == [] then s else Next(h, c, ExecFrom(h, c, s, more[..|more| - 1]), more[|more| - 1])
  }

  lemma {:induction false} ExecAppend(h: S.Hash, c: Fleet, steps: seq<Step>, more: seq<Step>)
    ensures Exec(h, c, steps + more) == ExecFrom(h, c, Exec(h, c, steps), more)
  {
    hide Next, Init;
    if more == [] {
      assert steps + more == steps;
    } else {
      var n := |more| - 1;
      assert (steps + more)[..|steps + more| - 1] == steps + more[..n];
      ExecAppend(h, c, steps, more[..n]);
    }
  }

  lemma {:induction false} FromAppend(h: S.Hash, c: Fleet, s: Sys, a: seq<Step>, b: seq<Step>)
    ensures ExecFrom(h, c, s, a + b) == ExecFrom(h, c, ExecFrom(h, c, s, a), b)
  {
    hide Next;
    if b == [] {
      assert a + b == a;
    } else {
      var n := |b| - 1;
      assert (a + b)[..|a + b| - 1] == a + b[..n];
      FromAppend(h, c, s, a, b[..n]);
    }
  }

  // ---------- time

  function StartOf(step: Step): int {
    step.now
  }

  /** The last time that the step reads its clock. */
  function EndOf(step: Step): int {
    if step.PeerStep? then step.clock else step.now
  }

  /** The run could have happened: no clock goes back, within a step or from one to a later one. */
  predicate ClocksRise(steps: seq<Step>) {
    && (forall k :: 0 <= k < |steps| ==> 0 <= StartOf(steps[k]) <= EndOf(steps[k]))
    && (forall a, b :: 0 <= a < b < |steps| ==> EndOf(steps[a]) <= StartOf(steps[b]))
  }

  predicate Within(steps: seq<Step>, lo: int, hi: int) {
    ClocksRise(steps) && lo <= hi && forall k :: 0 <= k < |steps| ==> lo <= StartOf(steps[k]) && EndOf(steps[k]) <= hi
  }

  lemma WithinAppend(a: seq<Step>, b: seq<Step>, lo: int, mid: int, hi: int)
    requires Within(a, lo, mid) && Within(b, mid, hi)
    ensures Within(a + b, lo, hi)
  {
  }

  /** A run and what goes on from its end, put together. */
  lemma Extend(h: S.Hash, c: Fleet, s: Sys, a: seq<Step>, b: seq<Step>, lo: int, mid: int, hi: int)
    requires Within(a, lo, mid) && Within(b, mid, hi)
    ensures Within(a + b, lo, hi) && ExecFrom(h, c, s, a + b) == ExecFrom(h, c, ExecFrom(h, c, s, a), b)
  {
    hide Within, ExecFrom;
    WithinAppend(a, b, lo, mid, hi);
    FromAppend(h, c, s, a, b);
  }

  /** A continuation that the clocks allow: it rises, and starts no earlier than anything before it. */
  predicate Onward(steps: seq<Step>, more: seq<Step>) {
    && ClocksRise(more)
    && forall a, b :: 0 <= a < |steps| && 0 <= b < |more| ==>
         StartOf(steps[a]) <= StartOf(more[b]) && EndOf(steps[a]) <= StartOf(more[b])
  }

  /** After a run whose clocks rise it is the same as that they go on rising. */
  lemma OnwardRises(steps: seq<Step>, more: seq<Step>)
    requires ClocksRise(steps)
    ensures Onward(steps, more) <==> ClocksRise(steps + more)
  {
    var all := steps + more;
    if ClocksRise(all) {
      assert forall k :: 0 <= k < |more| ==> more[k] == all[|steps| + k];
      assert forall k :: 0 <= k < |steps| ==> steps[k] == all[k];
    }
  }

  function Max(x: int, y: int): int {
    if x < y then y else x
  }

  function Latest(steps: seq<Step>): (t: int)
    ensures 0 <= t && forall k :: 0 <= k < |steps| ==> StartOf(steps[k]) <= t && EndOf(steps[k]) <= t
  {
    if steps == [] then 0 else
      var n := |steps| - 1;
      Max(Latest(steps[..n]), Max(StartOf(steps[n]), EndOf(steps[n])))
  }

  lemma OneStep(h: S.Hash, c: Fleet, s: Sys, step: Step, now: int)
    requires 0 <= now == StartOf(step) == EndOf(step)
    ensures Within([step], now, now) && ExecFrom(h, c, s, [step]) == Next(h, c, s, step)
  {
    hide Next;
    assert [step][..0] == [];
    assert ExecFrom(h, c, s, []) == s;
  }

  lemma NoStep(h: S.Hash, c: Fleet, s: Sys, now: int)
    ensures Within([], now, now) && ExecFrom(h, c, s, []) == s
  {
  }

  // ---------- what single steps do

  /** The state is in order, and t comes after s: the history grew, and only peer `who` may have
      changed its set. */
  ghost predicate After(h: S.Hash, c: Fleet, s: Sys, t: Sys, who: int) {
    && Inv(h, c, t) && s.log <= t.log && |s.peers| == |t.peers|
    && forall k :: 0 <= k < |s.peers| && k != who ==> t.peers[k].pers == s.peers[k].pers
  }

  /** The registration timer of the peer does not fire now. */
  predicate Calm(p: P.Peer, now: int) {
    !P.Registers(p, now)
  }

  /** A step between peers: the server is as it was, and whoever was calm still is. */
  ghost predicate Aside(h: S.Hash, c: Fleet, s: Sys, t: Sys, who: int, now: int) {
    && After(h, c, s, t, who) && t.server == s.server
    && forall k :: 0 <= k < |s.peers| && Calm(s.peers[k], now) ==> Calm(t.peers[k], now)
  }

  lemma AfterTrans(h: S.Hash, c: Fleet, s: Sys, t: Sys, u: Sys, who: int)
    requires After(h, c, s, t, -1) && After(h, c, t, u, who)
    ensures After(h, c, s, u, who)
  {
    hide Inv;
  }

  lemma AsideTrans(h: S.Hash, c: Fleet, s: Sys, t: Sys, u: Sys, who: int, now: int)
    requires Aside(h, c, s, t, -1, now) && Aside(h, c, t, u, who, now)
    ensures Aside(h, c, s, u, who, now)
  {
    hide Inv, Calm;
  }

  lemma AfterSelf(h: S.Hash, c: Fleet, s: Sys, now: int)
    requires Inv(h, c, s)
    ensures Aside(h, c, s, s, -1, now)
  {
  }

  lemma InLog(log: seq<Event>, e: Event) returns (n: nat)
    requires e in log
    ensures n < |log| && log[n] == e
  {
    n :| 0 <= n < |log| && log[n] == e;
  }

  lemma Grows(log: seq<Event>, log': seq<Event>, e: Event)
    requires log <= log' && e in log
    ensures e in log'
  {
    var n := InLog(log, e);
    assert log'[n] == e;
  }

  /** Peer i handles the packet at position n. */
  function Deliver(i: nat, n: nat, now: int): Step {
    PeerStep(i, Some(n), now, now, None)
  }

  lemma DeliverRecord(h: S.Hash, c: Fleet, s: Sys, i: nat, n: nat, now: int, src: Addr, key: Key, rec: Record)
    requires WellFormed(c) && Inv(h, c, s) && Member(c, i) && n < |s.log|
    requires s.log[n] == Sent(src, Sealed(c.addrs[i], key, rec))
    requires i < |s.peers| && Calm(s.peers[i], now)
    ensures var p, heard := s.peers[i], Heard(c.keys[i], key, rec);
            var r := if P.FromServer(p, src) then P.Reaction(P.SrvState(p, heard, now, now), P.SrvSends(heard), 0, false)
                     else P.PerProcess(p, src, heard, now);
            var t := Next(h, c, s, Deliver(i, n, now));
            && Inv(h, c, t) && t.log == s.log + SentAll(c.addrs[i], r.sends)
            && t.peers == s.peers[i := P.AfterHere(r.peer, now)] && t.server == s.server
  {
    hide WellFormed, LogOk, ServerOk, P.React, P.FromServer, P.SrvState, P.SrvSends, P.AfterHere, LinkOk, DataRead,
         PortSorted, P.TwoStates, Seal, Heard;
    var p, step := s.peers[i], Deliver(i, n, now);
    assert PeerOk(c, s.log, i, p);
    StepKeeps(h, c, s, step);
    ReactToRecord(p, src, key, rec, now, now);
    var r := P.React(p, Inbound(src, Seal(key, rec)), now, now);
    assert PeerInput(c, s, step).inbound == Some(Inbound(src, Seal(key, rec)));
    assert [] + r.sends + [] == r.sends;
  }

  lemma HereKeeps(p: P.Peer, now: int)
    ensures P.AfterHere(p, now).pers == p.pers
    ensures forall t :: Calm(P.AfterHere(p, now), t) <==> Calm(p, t)
  {
  }

  /** A timer step of peer i: it registers when its timer asks for it, and is calm afterwards. */
  function Tick(i: nat, now: int): Step {
    PeerStep(i, None, now, now, None)
  }

  lemma Ticked(h: S.Hash, c: Fleet, s: Sys, i: nat, now: int)
    requires WellFormed(c) && Inv(h, c, s) && i < |s.peers|
    ensures var t := Next(h, c, s, Tick(i, now));
            && Aside(h, c, s, t, -1, now) && Calm(t.peers[i], now)
            && (forall k :: 0 <= k < |s.peers| && k != i ==> t.peers[k] == s.peers[k])
            && (P.Registers(s.peers[i], now) ==> RegisterSent(c, t.log, i))
  {
    hide RightRow, Unmasked, LogOk, ServerOk, LinkOk, DataRead, PortSorted;
    var p, step := s.peers[i], Tick(i, now);
    assert PeerOk(c, s.log, i, p);
    StepKeeps(h, c, s, step);
    assert WithVerb(p.cap, SRV_REGISTER) == RegisterRecord(c, i);
    if P.Registers(p, now) {
      assert P.Turn(p, PeerInput(c, s, step)).sends[0] == RegisterSend(c, i);
      assert Next(h, c, s, step).log[|s.log|] == Sent(c.addrs[i], RegisterSend(c, i));
    }
  }

  // ---------- both registered

  lemma StoryRegistered(c: Fleet, log: seq<Event>, st: Story)
    requires Pinged(c, log, st)
    ensures RegisterSent(c, log, st.a) && RegisterSent(c, log, st.b)
  {
    hide RegisterSend, Introduces, To, WithVerb, Role, IppAddr;
    assert log[st.regA] in log && log[st.regB] in log;
  }

  /** Who counts itself linked has sent a registration. */
  lemma LinkedRegistered(h: S.Hash, c: Fleet, s: Sys, i: nat)
    requires WellFormed(c) && Inv(h, c, s) && i < |s.peers| && s.peers[i].status == PER_LINKED
    ensures RegisterSent(c, s.log, i)
  {
    hide WellFormed, LogOk, ServerOk, PortSorted, P.TwoStates, Verb, Heard, Pinged, RegisterSent;
    var p := s.peers[i];
    assert PeerOk(c, s.log, i, p);
    var j, rec := SomePong(c, s.log, i, p);
    var n := InLog(s.log, Sent(c.addrs[j], Sealed(c.addrs[i], c.keys[j], rec)));
    var st := PongStory(c, s.log, n, j, i, rec);
    StoryRegistered(c, s.log, st);
  }

  lemma SomePong(c: Fleet, log: seq<Event>, i: nat, p: P.Peer) returns (j: nat, rec: Record)
    requires Member(c, i) && PeerOk(c, log, i, p) && p.status == PER_LINKED
    ensures PongIn(c, log, j, i, rec)
  {
    hide PortSorted, P.TwoStates, Verb, Heard;
    if p.pers != [] {
      assert LinkOk(c, log, i, p.pers[0]);
      var j': nat, rec': Record :| PongRead(c, log, j', i, rec', PER_PONG);
      j, rec := j', rec';
    } else {
      var j': nat, rec': Record :| PongRead(c, log, j', i, rec', PER_DATA);
      j, rec := j', rec';
    }
  }

  /** A registration of peer i gets into the history: a linked peer has sent one, and any other sends
      one when its timer fires. */
  lemma EnsureRegister(h: S.Hash, c: Fleet, s: Sys, i: nat, now: int) returns (more: seq<Step>)
    requires WellFormed(c) && Inv(h, c, s) && i < |s.peers| && 0 <= now
    requires RegisterSent(c, s.log, i) || s.peers[i].regtime + P.REG_TICK < now
    ensures var t := ExecFrom(h, c, s, more);
            && Within(more, now, now) && Aside(h, c, s, t, -1, now) && RegisterSent(c, t.log, i)
            && forall k :: 0 <= k < |s.peers| && k != i ==> t.peers[k] == s.peers[k]
  {
    hide WellFormed, Inv, RegisterSent, Next;
    if RegisterSent(c, s.log, i) {
      more := [];
      NoStep(h, c, s, now);
      AfterSelf(h, c, s, now);
    } else if s.peers[i].status == PER_LINKED {
      LinkedRegistered(h, c, s, i);
      assert false;
    } else {
      NotLinked(h, c, s, i);
      more := [Tick(i, now)];
      Ticked(h, c, s, i, now);
      OneStep(h, c, s, Tick(i, now), now);
    }
  }

  lemma NotLinked(h: S.Hash, c: Fleet, s: Sys, i: nat)
    requires Inv(h, c, s) && i < |s.peers|
    ensures s.peers[i].status == SRV_UNREGISTERED || s.peers[i].status == PER_LINKED
  {
    hide LogOk, ServerOk, LinkOk, DataRead, PortSorted;
    assert PeerOk(c, s.log, i, s.peers[i]);
  }

  /** The server can always be brought to a quiet loop head. */
  lemma Quieten(h: S.Hash, c: Fleet, s: Sys, now: int) returns (more: seq<Step>)
    requires WellFormed(c) && Inv(h, c, s) && 0 <= now && s.server.pingpers + S.TTLIVE < now
    ensures var t := ExecFrom(h, c, s, more);
            Within(more, now, now) && After(h, c, s, t, -1) && t.peers == s.peers && S.Quiet(t.server)
  {
    hide WellFormed, Inv, RoundSends, Pers, Expire;
    var step := ServerStep(None, now, true, {});
    StepKeeps(h, c, s, step);
    OneStep(h, c, s, step, now);
    more := [step];
  }

  /** Some row of the table stands under a key K since `now`. */
  ghost predicate Fresh(rows: seq<Row>, k: int, now: int) {
    exists r :: r in rows && r.k == k && r.d == now
  }

  function RegisterStep(n: nat, now: int): Step {
    ServerStep(Some(n), now, true, {})
  }

  /** What peer k's registration writes. */
  function EntryFor(h: S.Hash, c: Fleet, k: nat): Entry
    requires Member(c, k)
  {
    S.EntryOf(h, RegisterRecord(c, k), c.addrs[k], c.keys[k])
  }

  /** The server takes the registration of peer k from the history: its row is there, and a round over
      the table with that row is in the history. */
  lemma Register(h: S.Hash, c: Fleet, s: Sys, k: nat, n: nat, now: int)
    requires WellFormed(c) && Inv(h, c, s) && CanRegister(c, k) && S.Quiet(s.server)
    requires n < |s.log| && s.log[n] == Sent(c.addrs[k], RegisterSend(c, k))
    ensures var t := Next(h, c, s, RegisterStep(n, now));
            var stored := Upsert(s.server.db, EntryFor(h, c, k), now);
            && After(h, c, s, t, -1) && t.peers == s.peers && S.Quiet(t.server) && t.server.pingpers == now
            && t.server.db == Expire(stored, now) && Fresh(stored.rows, KOf(h, c, k), now)
            && Round(Pers(stored.rows)) in t.log
            && (forall send :: send in RoundSends(Pers(stored.rows), S.Registered(RegisterRecord(c, k))).sends
                               ==> Sent(c.server, send) in t.log)
  {
    hide LogOk, PeerOk, RowOk, RightRow, Unmasked, CanRegister, S.EntryOf, Upsert, Expire, Pers, RoundSends,
         S.Registered, RegisterRecord, Seal, Open, ToKeys, MeiotIs, S.Receive, S.Iterate, S.IsRegister, S.Authorised,
         S.ClearRecord, S.AuthKeys, TailOk;
    var step := RegisterStep(n, now);
    var i := ServerInput(c, s, step);
    StepKeeps(h, c, s, step);
    IsMember(c, k);
    RegistrationRead(c, s.server, i, k);
    IsRegisterNow(c, s.server, i, k);
    S.QuietExactly(h, s.server, i);
    S.RegisterServed(h, s.server, i);
    var o := S.Iterate(h, s.server, i);
    var t := Next(h, c, s, step);
    RoundedNow(h, s.server, i);
    S.StoredRow(s.server.db, EntryFor(h, c, k), now);
    var first := s.log + SentAll(c.server, o.replies);
    assert t.log == first + RoundEvents(o) + SentAll(c.server, o.roundSends);
    assert t.log[|first|] == Round(o.round.value);
    forall send | send in o.roundSends
      ensures Sent(c.server, send) in t.log
    {
      var q :| 0 <= q < |o.roundSends| && o.roundSends[q] == send;
      assert t.log[|first| + 1 + q] == Sent(c.server, send);
    }
  }

  lemma RoundedNow(h: S.Hash, s: S.Server, i: S.Input)
    requires S.Iterate(h, s, i).round.Some?
    ensures S.Iterate(h, s, i).server.pingpers == i.now
  {
    hide S.Receive, Expire, RoundSends, Pers;
  }

  lemma IsMember(c: Fleet, i: nat)
    requires CanRegister(c, i)
    ensures Member(c, i)
  {
  }

  lemma IsRegisterNow(c: Fleet, s: S.Server, i: S.Input, k: nat)
    requires Member(c, k) && S.Authorised(s, i) && S.ClearRecord(s, i) == RegisterRecord(c, k)
    ensures S.IsRegister(s, i)
  {
    RegisterVerb(c, k);
  }

  /** A peer as the program starts it can register, as soon as its mid is an eligible row. */
  lemma StartedCanRegister(c: Fleet, k: nat, m: MidRow, id: seq<u8>, provider: bool)
    requires Member(c, k) && IsId(id) && c.caps[k] == Mecap(m.mid, id, provider)
    requires m in c.mids && Eligible(m, IppA(c.addrs[k])) && ToKeys(m.mid) == c.keys[k]
    ensures CanRegister(c, k) && Role(c, k) == provider && TailOf(c.caps[k]) == ZeroTail()
  {
    hide ToKeys, MeiotIs, Typ, WithVerb, Seal;
    MecapReads(m.mid, id, provider, SRV_REGISTER);
    MecapReads(m.mid, id, provider, Verb(c.caps[k]));
    SameVerb(c.caps[k]);
    var i :| 0 <= i < |c.mids| && c.mids[i] == m;
    AuthComplete(c.mids, IppA(c.addrs[k]), RegisterRecord(c, k), i);
  }

  lemma SameVerb(r: Record)
    ensures WithVerb(r, Verb(r)) == r
  {
  }

  /** Different peers register under different keys K. */
  lemma DifferentK(h: S.Hash, c: Fleet, i: nat, j: nat)
    requires WellFormed(c) && S.Injective(h) && Member(c, i) && Member(c, j)
    ensures KOf(h, c, i) == KOf(h, c, j) <==> i == j
  {
    hide RightRow, Unmasked, S.EntryOf;
    S.SameKExactly(h, RegisterRecord(c, i), c.addrs[i], c.keys[i], RegisterRecord(c, j), c.addrs[j], c.keys[j]);
  }

  /** A fresh row stays when another peer registers at the same time. */
  lemma FreshStays(db: Db, e: Entry, k: int, now: int)
    requires Fresh(db.rows, k, now)
    ensures Fresh(Expire(db, now).rows, k, now)
    ensures e.k != k ==> Fresh(Upsert(db, e, now).rows, k, now)
  {
    var r :| r in db.rows && r.k == k && r.d == now;
    ExpireExactly(db, now, r);
    if e.k != k && HasK(db.rows, e.k) {
      var n :| 0 <= n < |db.rows| && db.rows[n] == r;
      assert Touch(db.rows, WithK(e.k), now)[n] == r;
    }
  }

  lemma HasStays(db: Db, e: Entry, k: int, now: int)
    requires HasK(db.rows, k)
    ensures HasK(Upsert(db, e, now).rows, k)
  {
    var r :| r in db.rows && r.k == k;
    var n :| 0 <= n < |db.rows| && db.rows[n] == r;
    assert Upsert(db, e, now).rows[n].k == k;
  }

  /** The rows of both peers are in the table, as of now. */
  ghost predicate BothIn(h: S.Hash, c: Fleet, s: Sys, i: nat, j: nat, now: int) {
    Member(c, i) && Member(c, j)
    && Fresh(s.server.db.rows, KOf(h, c, i), now) && Fresh(s.server.db.rows, KOf(h, c, j), now)
    && s.server.pingpers == now
  }

  /** Registered one after the other, both are in the table. */
  lemma RowsUp(h: S.Hash, c: Fleet, s: Sys, i: nat, j: nat, now: int) returns (more: seq<Step>)
    requires WellFormed(c) && S.Injective(h) && Inv(h, c, s) && S.Quiet(s.server) && 0 <= now
    requires CanRegister(c, i) && CanRegister(c, j) && i != j
    requires RegisterSent(c, s.log, i) && RegisterSent(c, s.log, j)
    ensures var t := ExecFrom(h, c, s, more);
            Within(more, now, now) && After(h, c, s, t, -1) && t.peers == s.peers && BothIn(h, c, t, i, j, now)
  {
    hide WellFormed, Inv, Next, CanRegister, Fresh, RegisterSend, EntryFor, Upsert, Expire, Pers, RoundSends,
         S.Registered, RegisterRecord, S.Injective, S.Quiet, KOf;
    var e, e' := EntryFor(h, c, i), EntryFor(h, c, j);
    var n := InLog(s.log, Sent(c.addrs[i], RegisterSend(c, i)));
    var step := RegisterStep(n, now);
    Register(h, c, s, i, n, now);
    var s1 := Next(h, c, s, step);
    Grows(s.log, s1.log, Sent(c.addrs[j], RegisterSend(c, j)));
    var n' := InLog(s1.log, Sent(c.addrs[j], RegisterSend(c, j)));
    var step' := RegisterStep(n', now);
    Register(h, c, s1, j, n', now);
    var s2 := Next(h, c, s1, step');
    DifferentK(h, c, i, j);
    EntryK(h, c, j);
    FreshStays(Upsert(s.server.db, e, now), e', KOf(h, c, i), now);
    FreshStays(s1.server.db, e', KOf(h, c, i), now);
    var db2 := Upsert(s1.server.db, e', now);
    FreshStays(db2, e', KOf(h, c, i), now);
    FreshStays(db2, e', KOf(h, c, j), now);
    OneStep(h, c, s, step, now);
    OneStep(h, c, s1, step', now);
    Extend(h, c, s, [step], [step'], now, now, now);
    AfterTrans(h, c, s, s1, s2, -1);
    more := [step] + [step'];
  }

  lemma EntryK(h: S.Hash, c: Fleet, j: nat)
    requires Member(c, j)
    ensures EntryFor(h, c, j).k == KOf(h, c, j)
  {
  }

  // ---------- introduced to each other

  lemma {:induction false} Counted(tags: seq<Tag>, tag: Tag)
    ensures Count(tags, tag) > 0 ==> tag in tags
  {
    if tags != [] {
      Counted(tags[1..], tag);
    }
  }

  /** The record names peer j: its address and its key. */
  ghost predicate NamesPeer(c: Fleet, rec: Record, j: nat) {
    Member(c, j) && Verb(rec) == SRV_SET_PEER && PublicKeys(rec) == c.keys[j]
        && AddrOf(PublicA(rec), PublicP(rec)) == c.addrs[j]
  }

  /** The server introduced j to i in a packet with this tail. */
  ghost predicate Introduced(c: Fleet, log: seq<Event>, i: nat, j: nat, tail: Tail) {
    Member(c, i) && exists rec: Record :: IntroIn(c, log, i, j, rec) && TailOf(rec) == tail
  }

  ghost predicate IntroIn(c: Fleet, log: seq<Event>, i: nat, j: nat, rec: Record)
    requires Member(c, i)
  {
    Sent(c.server, Sealed(c.addrs[i], c.keys[i], rec)) in log && NamesPeer(c, rec, j)
  }

  /** A round over the entries of two peers of opposite roles introduces each to the other, with the
      tail of the packet it started from. */
  lemma RoundIntroduces(c: Fleet, pers: seq<Ipp>, pl: Record, x: nat, y: nat, i: nat, j: nat) returns (rec: Record)
    requires x < |pers| && y < |pers| && IsPeer(c, i, pers[x]) && IsPeer(c, j, pers[y]) && Role(c, i) != Role(c, j)
    ensures Sealed(c.addrs[i], c.keys[i], rec) in RoundSends(pers, pl).sends && NamesPeer(c, rec, j)
    ensures TailOf(rec) == TailOf(pl)
  {
    hide RoundSends, RoundTags, IppAddr, Introduces, Count, Gap, TailOf, NamesPeer;
    IntroducedTwice(pers, x, y);
    Counted(RoundTags(pers), Intro(x, y));
    RoundFulfils(pers, pl);
    RoundGap(pers, pl);
    var tags, ss := RoundTags(pers), RoundSends(pers, pl).sends;
    var k :| 0 <= k < |tags| && tags[k] == Intro(x, y);
    assert ss[k] in ss && Fulfils(ss[k], pers, tags[k]);
    rec := ss[k].rec;
    assert ss[k] == Sealed(c.addrs[i], c.keys[i], rec);
    GapTail(rec, pl);
    IntroNames(c, rec, pers[y], j);
  }

  lemma IntroNames(c: Fleet, rec: Record, q: Ipp, j: nat)
    requires Introduces(rec, q) && IsPeer(c, j, q)
    ensures NamesPeer(c, rec, j)
  {
  }

  /** The row under peer k's K is peer k, at some place of the round. */
  lemma PlaceOf(h: S.Hash, c: Fleet, log: seq<Event>, rows: seq<Row>, k: nat) returns (x: nat)
    requires WellFormed(c) && S.Injective(h) && Member(c, k) && RowsOk(h, c, log, rows) && HasK(rows, KOf(h, c, k))
    ensures x < |Pers(rows)| && IsPeer(c, k, Pers(rows)[x])
  {
    hide RightRow, Unmasked, KOf, RowIpp, IppAddr;
    var r :| r in rows && r.k == KOf(h, c, k);
    var k' :| IsPeer(c, k', RowIpp(r)) && RegisterSent(c, log, k') && r.k == KOf(h, c, k');
    DifferentK(h, c, k, k');
    x :| 0 <= x < |rows| && rows[x] == r;
  }

  /** When the timer of the server is due, a registration of any peer k, authorised or not, makes it
      introduce i and j to each other in packets that carry what k's registration left. */
  lemma RoundWithTail(h: S.Hash, c: Fleet, s: Sys, i: nat, j: nat, k: nat, n: nat, now: int)
    requires WellFormed(c) && S.Injective(h) && Inv(h, c, s) && Member(c, i) && Member(c, j) && Member(c, k)
    requires Role(c, i) != Role(c, j) && HasK(s.server.db.rows, KOf(h, c, i)) && HasK(s.server.db.rows, KOf(h, c, j))
    requires n < |s.log| && s.log[n] == Sent(c.addrs[k], RegisterSend(c, k)) && s.server.pingpers + S.TTLIVE < now
    ensures var t := Next(h, c, s, RegisterStep(n, now));
            && After(h, c, s, t, -1) && t.peers == s.peers
            && Introduced(c, t.log, i, j, TailAfter(c, k)) && Introduced(c, t.log, j, i, TailAfter(c, k))
  {
    hide LogOk, PeerOk, RowOk, RightRow, Unmasked, S.Receive, S.EntryOf, Upsert, Expire, Pers, RoundSends,
         RegisterRecord, KOf, S.Injective, TailOf, TailAfter, RegisterSend, NamesPeer, IsPeer, TailOk, HasK;
    var step := RegisterStep(n, now);
    ToServerAddr(c, k);
    var inp := ServerInput(c, s, step);
    StepKeeps(h, c, s, step);
    ReceiveOk(h, c, s, step);
    TailLeft(h, c, s.server, inp, k);
    RowsLeft(h, c, s.server, inp, k);
    var r := S.Receive(h, s.server, inp);
    HasStays(s.server.db, EntryFor(h, c, k), KOf(h, c, i), now);
    HasStays(s.server.db, EntryFor(h, c, k), KOf(h, c, j), now);
    var rows := r.server.db.rows;
    var x := PlaceOf(h, c, s.log, rows, i);
    var y := PlaceOf(h, c, s.log, rows, j);
    var rec := RoundIntroduces(c, Pers(rows), r.server.pl, x, y, i, j);
    var rec' := RoundIntroduces(c, Pers(rows), r.server.pl, y, x, j, i);
    RoundInLog(h, c, s, step, Sealed(c.addrs[i], c.keys[i], rec));
    RoundInLog(h, c, s, step, Sealed(c.addrs[j], c.keys[j], rec'));
    var t := Next(h, c, s, step);
    assert IntroIn(c, t.log, i, j, rec) && IntroIn(c, t.log, j, i, rec');
  }

  lemma ToServerAddr(c: Fleet, k: nat)
    requires Member(c, k)
    ensures RegisterSend(c, k).to == c.server
  {
  }

  lemma RoundInLog(h: S.Hash, c: Fleet, s: Sys, step: Step, send: Send)
    requires step.ServerStep? && Enabled(c, s, step) && s.server.pingpers + S.TTLIVE < step.now
    requires var r := S.Receive(h, s.server, ServerInput(c, s, step));
             r.server.pingpers == s.server.pingpers && send in RoundSends(Pers(r.server.db.rows), r.server.pl).sends
    ensures Sent(c.server, send) in Next(h, c, s, step).log
  {
    hide S.Receive, RoundSends, Pers, Expire;
    var o := S.Iterate(h, s.server, ServerInput(c, s, step));
    var q :| 0 <= q < |o.roundSends| && o.roundSends[q] == send;
    var first := s.log + SentAll(c.server, o.replies) + RoundEvents(o);
    assert Next(h, c, s, step).log[|first| + q] == Sent(c.server, send);
  }

  // ---------- the exchange

  /** Endpoint of another peer, as this peer receives it, and its port not taken by anyone else. */
  ghost predicate PortFree(c: Fleet, p: P.Peer, j: nat)
    requires Member(c, j)
  {
    forall e :: e in p.pers && e.port == c.addrs[j].port ==> e == P.Rsin(c.addrs[j])
  }

  ghost predicate Linked(c: Fleet, s: Sys, i: nat, j: nat) {
    i < |s.peers| && j < |c.addrs| && P.Rsin(c.addrs[j]) in s.peers[i].pers
  }

  /** The introduction of b to a makes a send its PING, under the key of b. */
  lemma IntroPings(h: S.Hash, c: Fleet, s: Sys, a: nat, b: nat, rec: Record, now: int) returns (step: Step)
    requires WellFormed(c) && Inv(h, c, s) && Member(c, a) && IntroIn(c, s.log, a, b, rec)
    requires a < |s.peers| && Calm(s.peers[a], now)
    ensures var t := Next(h, c, s, step);
            && StartOf(step) == EndOf(step) == now && Aside(h, c, s, t, -1, now)
            && Sent(c.addrs[a], Sealed(c.addrs[b], c.keys[b], WithVerb(rec, PER_PING))) in t.log
  {
    hide RightRow, Unmasked, LogOk, ServerOk, LinkOk, DataRead, PortSorted, PublicKeys, PublicA, PublicP, AddrOf,
         Verb, WithVerb, Next, P.AfterHere, P.FromServer, Heard, HeardHead;
    var n := InLog(s.log, Sent(c.server, Sealed(c.addrs[a], c.keys[a], rec)));
    step := Deliver(a, n, now);
    assert PeerOk(c, s.log, a, s.peers[a]);
    ServerPort(c, s.peers[a], c.server);
    DeliverRecord(h, c, s, a, n, now, c.server, c.keys[a], rec);
    SameKeyHears(c.keys[a], rec, HeadOf(rec));
    var t, q := Next(h, c, s, step), P.SrvState(s.peers[a], rec, now, now);
    HereKeeps(q, now);
    assert P.SrvSends(rec) == [P.Ping(rec)] && P.Ping(rec) == Sealed(c.addrs[b], c.keys[b], WithVerb(rec, PER_PING));
    assert t.log[|s.log|] == Sent(c.addrs[a], P.Ping(rec));
  }

  /** A record of peer b that peer a reads as a PING makes a answer with a PONG, under its own key. */
  lemma PingPongs(h: S.Hash, c: Fleet, s: Sys, a: nat, b: nat, key: Key, rec: Record, now: int) returns (step: Step)
    requires WellFormed(c) && Inv(h, c, s) && Member(c, a) && Member(c, b) && c.addrs[b].port != c.server.port
    requires Sent(c.addrs[b], Sealed(c.addrs[a], key, rec)) in s.log && Verb(Heard(c.keys[a], key, rec)) == PER_PING
    requires a < |s.peers| && Calm(s.peers[a], now)
    ensures var t := Next(h, c, s, step);
            && StartOf(step) == EndOf(step) == now && Aside(h, c, s, t, -1, now)
            && PongIn(c, t.log, a, b, WithVerb(Heard(c.keys[a], key, rec), PER_PONG))
  {
    hide RightRow, Unmasked, LogOk, ServerOk, LinkOk, DataRead, PortSorted, Verb, WithVerb, Next, P.AfterHere,
         P.FromServer, Heard;
    var n := InLog(s.log, Sent(c.addrs[b], Sealed(c.addrs[a], key, rec)));
    step := Deliver(a, n, now);
    assert PeerOk(c, s.log, a, s.peers[a]);
    ServerPort(c, s.peers[a], c.addrs[b]);
    DeliverRecord(h, c, s, a, n, now, c.addrs[b], key, rec);
    var t, pong := Next(h, c, s, step), WithVerb(Heard(c.keys[a], key, rec), PER_PONG);
    HereKeeps(s.peers[a], now);
    VerbWritten(Heard(c.keys[a], key, rec), PER_PONG);
    assert t.log[|s.log|] == Sent(c.addrs[a], Sealed(c.addrs[b], c.keys[a], pong));
  }

  /** A PONG of peer j links it to peer i exactly when i reads it as a PONG: it comes under the key of j
      and is read under the key of i. */
  lemma PongLinks(h: S.Hash, c: Fleet, s: Sys, i: nat, j: nat, rec: Record, now: int) returns (step: Step)
    requires WellFormed(c) && Inv(h, c, s) && PongIn(c, s.log, j, i, rec) && i < |s.peers| && Calm(s.peers[i], now)
    requires c.addrs[j].port != c.server.port && PortFree(c, s.peers[i], j)
    ensures var t := Next(h, c, s, step);
            && StartOf(step) == EndOf(step) == now && After(h, c, s, t, i)
            && (Linked(c, t, i, j) <==> Linked(c, s, i, j) || Verb(Heard(c.keys[i], c.keys[j], rec)) == PER_PONG)
  {
    hide RightRow, Unmasked, LogOk, ServerOk, LinkOk, DataRead, PortSorted, Verb, WithVerb, Next, P.AfterHere,
         P.FromServer, Heard, Insert;
    var n := InLog(s.log, Sent(c.addrs[j], Sealed(c.addrs[i], c.keys[j], rec)));
    step := Deliver(i, n, now);
    assert PeerOk(c, s.log, i, s.peers[i]);
    ServerPort(c, s.peers[i], c.addrs[j]);
    DeliverRecord(h, c, s, i, n, now, c.addrs[j], c.keys[j], rec);
    InsertReceived(s.peers[i].pers, c.addrs[j].ip, c.addrs[j].port);
    HereKeeps(P.PerProcess(s.peers[i], c.addrs[j], Heard(c.keys[i], c.keys[j], rec), now).peer, now);
  }

  /** From the introduction of j to i, three deliveries: i pings, j answers, i reads the answer. They
      link j to i exactly when the answer, which is under j's key, is a PONG under i's. */
  lemma Handshake(h: S.Hash, c: Fleet, s: Sys, i: nat, j: nat, tail: Tail, now: int) returns (more: seq<Step>)
    requires WellFormed(c) && Inv(h, c, s) && i < |s.peers| && j < |s.peers| && Introduced(c, s.log, i, j, tail)
    requires 0 <= now
    requires Calm(s.peers[i], now) && Calm(s.peers[j], now) && PortsAllow(c, s, i, j)
    ensures var t := ExecFrom(h, c, s, more);
            && Within(more, now, now) && After(h, c, s, t, i)
            && (Linked(c, t, i, j) <==> Linked(c, s, i, j) || HeardHead(c.keys[i], c.keys[j], PongHead(tail))[0] == PER_PONG)
  {
    hide WellFormed, Inv, Next, ExecFrom, Within, Calm, Heard, HeardHead, HeadOf, NamesPeer, Answer;
    var a, rec := FirstPong(h, c, s, j, i, tail, now);
    var t := ExecFrom(h, c, s, a);
    assert t.peers[i].pers == s.peers[i].pers;
    var step := PongLinks(h, c, t, i, j, rec, now);
    HeardHeadOf(c.keys[i], c.keys[j], rec);
    OneStep(h, c, t, step, now);
    Extend(h, c, s, a, [step], now, now, now);
    AfterTrans(h, c, s, t, ExecFrom(h, c, t, [step]), i);
    AnswerFirst(c.keys[j], c.keys[i], tail);
    VerbOfHead(Heard(c.keys[i], c.keys[j], rec));
    more := a + [step];
  }

  lemma VerbOfHead(rec: Record)
    ensures HeadOf(rec)[0] == Verb(rec)
  {
  }

  lemma AnswerFirst(mine: Key, theirs: Key, tail: Tail)
    ensures Answer(mine, theirs, tail, 0) == Some(PongHead(tail))
  {
  }

  /** Peer b, introduced to peer a, pings it, and a answers. */
  lemma FirstPong(h: S.Hash, c: Fleet, s: Sys, a: nat, b: nat, tail: Tail, now: int) returns (more: seq<Step>, pong: Record)
    requires WellFormed(c) && Inv(h, c, s) && a < |s.peers| && b < |s.peers| && Introduced(c, s.log, b, a, tail)
    requires 0 <= now
    requires Calm(s.peers[a], now) && Calm(s.peers[b], now) && c.addrs[b].port != c.server.port
    ensures var t := ExecFrom(h, c, s, more);
            && Within(more, now, now) && Aside(h, c, s, t, -1, now)
            && PongIn(c, t.log, a, b, pong) && Answer(c.keys[a], c.keys[b], tail, 0) == Some(HeadOf(pong))
  {
    hide WellFormed, Inv, Next, ExecFrom, Within, Calm, Heard, HeardHead, HeadOf, PublicKeys, PublicA, PublicP,
         AddrOf, WithVerb, Verb, Answer, TailOf;
    var rec: Record :| IntroIn(c, s.log, b, a, rec) && TailOf(rec) == tail;
    var step := IntroPings(h, c, s, b, a, rec, now);
    var t, ping := Next(h, c, s, step), WithVerb(rec, PER_PING);
    SameKeyHears(c.keys[a], ping, HeadOf(ping));
    VerbWritten(rec, PER_PING);
    PingTail(rec);
    var step' := PingPongs(h, c, t, a, b, c.keys[a], ping, now);
    pong := WithVerb(ping, PER_PONG);
    FirstAnswer(c.keys[a], c.keys[b], tail, ping);
    OneStep(h, c, s, step, now);
    OneStep(h, c, t, step', now);
    Extend(h, c, s, [step], [step'], now, now, now);
    AsideTrans(h, c, s, t, Next(h, c, t, step'), -1, now);
    more := [step] + [step'];
  }

  /** Two introduced peers can be made to say every PONG of their exchange. */
  lemma {:induction false} Speak(h: S.Hash, c: Fleet, s: Sys, a: nat, b: nat, tail: Tail, m: nat, now: int)
    returns (more: seq<Step>, pong: Record)
    requires WellFormed(c) && Inv(h, c, s) && a < |s.peers| && b < |s.peers| && 0 <= now
    requires Introduced(c, s.log, a, b, tail) && Introduced(c, s.log, b, a, tail)
    requires Calm(s.peers[a], now) && Calm(s.peers[b], now)
    requires c.addrs[a].port != c.server.port && c.addrs[b].port != c.server.port
    requires Answer(c.keys[a], c.keys[b], tail, m).Some?
    ensures var t := ExecFrom(h, c, s, more);
            && Within(more, now, now) && Aside(h, c, s, t, -1, now)
            && PongIn(c, t.log, a, b, pong) && Answer(c.keys[a], c.keys[b], tail, m) == Some(HeadOf(pong))
    decreases m
  {
    hide WellFormed, Inv, Next, ExecFrom, Within, Calm, Heard, HeardHead, HeadOf, NamesPeer, WithVerb, Verb, TailOf,
         Answer;
    if m == 0 {
      more, pong := FirstPong(h, c, s, a, b, tail, now);
    } else {
      AnswerUnfold(c.keys[a], c.keys[b], tail, m);
      var first, prev := Speak(h, c, s, b, a, tail, m - 1, now);
      var t := ExecFrom(h, c, s, first);
      HeardHeadOf(c.keys[a], c.keys[b], prev);
      var heard := Heard(c.keys[a], c.keys[b], prev);
      VerbOfHead(heard);
      var step := PingPongs(h, c, t, a, b, c.keys[b], prev, now);
      pong := WithVerb(heard, PER_PONG);
      NextAnswer(c.keys[a], c.keys[b], tail, m - 1, HeadOf(prev), heard);
      OneStep(h, c, t, step, now);
      Extend(h, c, s, first, [step], now, now, now);
      AsideTrans(h, c, s, t, Next(h, c, t, step), -1, now);
      more := first + [step];
    }
  }

  lemma AnswerUnfold(mine: Key, theirs: Key, tail: Tail, m: nat)
    requires m != 0 && Answer(mine, theirs, tail, m).Some?
    ensures Answer(theirs, mine, tail, m - 1).Some?
    ensures HeardHead(mine, theirs, Answer(theirs, mine, tail, m - 1).value)[0] == PER_PING
  {
    hide HeardHead;
  }

  // ---------- the exact condition

  /** What the ports can do to a link: one of the two peers has the server's port number, or the port of
      the other is already in i's set under another address. */
  ghost predicate PortsAllow(c: Fleet, s: Sys, i: nat, j: nat) {
    && i < |s.peers| && Member(c, i) && Member(c, j)
    && c.addrs[i].port != c.server.port && c.addrs[j].port != c.server.port
    && PortFree(c, s.peers[i], j)
  }

  /** What the keys can do to it: peer j answers under its own key, and i reads the answer under its own.
      Some PONG of j, in an exchange with what some registration leaves in the server's packet, must come
      out as a PONG. */
  ghost predicate Hears(c: Fleet, i: nat, j: nat) {
    Member(c, i) && Member(c, j)
    && exists k: nat :: Member(c, k) && HearsTail(c.keys[i], c.keys[j], TailAfter(c, k))
  }

  /** In an exchange with this tail, some PONG comes out as one. */
  ghost predicate HearsTail(reader: Key, sender: Key, tail: Tail) {
    exists m: nat :: ReadAsPong(reader, sender, tail, m)
  }

  /** With the same key it does. */
  lemma SameKeyLinks(c: Fleet, i: nat, j: nat)
    requires Member(c, i) && Member(c, j) && c.keys[i] == c.keys[j]
    ensures Hears(c, i, j)
  {
    hide TailAfter;
    SameKeyAnswers(c.keys[i], TailAfter(c, i), 0);
    assert ReadAsPong(c.keys[i], c.keys[j], TailAfter(c, i), 0);
    assert HearsTail(c.keys[i], c.keys[j], TailAfter(c, i));
  }

  /** In a fleet of peers as the program starts them, all of whom can register, it is up to the two keys
      alone: the tails are zero. */
  lemma HearsByKeys(c: Fleet, i: nat, j: nat)
    requires Member(c, i) && Member(c, j)
    requires forall k: nat :: Member(c, k) ==> CanRegister(c, k) && TailOf(c.caps[k]) == ZeroTail()
    ensures Hears(c, i, j) <==> HearsTail(c.keys[i], c.keys[j], ZeroTail())
  {
    hide HearsTail, CanRegister, TailOf;
    assert TailAfter(c, i) == ZeroTail();
  }

  /** All three registered, and the server at a quiet loop head. */
  lemma AllRegister(h: S.Hash, c: Fleet, s: Sys, i: nat, j: nat, k: nat, now: int) returns (more: seq<Step>)
    requires WellFormed(c) && Inv(h, c, s) && i < |s.peers| && j < |s.peers| && k < |s.peers|
    requires 0 <= now && s.server.pingpers + S.TTLIVE < now
    requires s.peers[i].regtime + P.REG_TICK < now && s.peers[j].regtime + P.REG_TICK < now
    requires s.peers[k].regtime + P.REG_TICK < now
    ensures var t := ExecFrom(h, c, s, more);
            && Within(more, now, now) && After(h, c, s, t, -1) && S.Quiet(t.server)
            && RegisterSent(c, t.log, i) && RegisterSent(c, t.log, j) && RegisterSent(c, t.log, k)
  {
    hide WellFormed, Inv, ExecFrom, RegisterSent, S.Quiet, Within, Calm;
    var a := EnsureRegister(h, c, s, i, now);
    var s1 := ExecFrom(h, c, s, a);
    var b := EnsureRegister(h, c, s1, j, now);
    var s2 := ExecFrom(h, c, s1, b);
    RegisterStays(c, s1.log, s2.log, i);
    var d := EnsureRegister(h, c, s2, k, now);
    var s3 := ExecFrom(h, c, s2, d);
    RegisterStays(c, s2.log, s3.log, i);
    RegisterStays(c, s2.log, s3.log, j);
    var f := Quieten(h, c, s3, now);
    var s4 := ExecFrom(h, c, s3, f);
    RegisterStays(c, s3.log, s4.log, i);
    RegisterStays(c, s3.log, s4.log, j);
    RegisterStays(c, s3.log, s4.log, k);
    AfterTrans(h, c, s, s1, s2, -1);
    AfterTrans(h, c, s, s2, s3, -1);
    AfterTrans(h, c, s, s3, s4, -1);
    Extend(h, c, s, a, b, now, now, now);
    Extend(h, c, s, a + b, d, now, now, now);
    Extend(h, c, s, a + b + d, f, now, now, now);
    more := a + b + d + f;
  }

  lemma RegisterStays(c: Fleet, log: seq<Event>, log': seq<Event>, i: nat)
    requires log <= log' && RegisterSent(c, log, i)
    ensures RegisterSent(c, log', i)
  {
    hide RegisterSend;
    Grows(log, log', Sent(c.addrs[i], RegisterSend(c, i)));
  }

  /** A round that introduces i and j to each other with what the registration of k leaves, and both of
      them calm after it. */
  lemma IntroduceBoth(h: S.Hash, c: Fleet, s: Sys, i: nat, j: nat, k: nat, now: int) returns (more: seq<Step>, end: int)
    requires WellFormed(c) && S.Injective(h) && Inv(h, c, s) && Member(c, k) && 0 <= now
    requires CanRegister(c, i) && CanRegister(c, j) && i != j && Role(c, i) != Role(c, j)
    requires i < |s.peers| && j < |s.peers| && S.Quiet(s.server)
    requires RegisterSent(c, s.log, i) && RegisterSent(c, s.log, j) && RegisterSent(c, s.log, k)
    ensures var t := ExecFrom(h, c, s, more);
            && 0 <= end && Within(more, now, end) && After(h, c, s, t, -1) && Calm(t.peers[i], end)
            && Calm(t.peers[j], end)
            && Introduced(c, t.log, i, j, TailAfter(c, k)) && Introduced(c, t.log, j, i, TailAfter(c, k))
  {
    hide WellFormed, Inv, ExecFrom, RegisterSend, S.Quiet, Within, Calm, CanRegister, S.Injective, Next, Introduced,
         TailAfter, KOf, Fresh, HasK;
    end := now + S.TTLIVE + 1;
    var a := RowsUp(h, c, s, i, j, now);
    var s1 := ExecFrom(h, c, s, a);
    FreshHas(s1.server.db.rows, KOf(h, c, i), now);
    FreshHas(s1.server.db.rows, KOf(h, c, j), now);
    Grows(s.log, s1.log, Sent(c.addrs[k], RegisterSend(c, k)));
    var n := InLog(s1.log, Sent(c.addrs[k], RegisterSend(c, k)));
    var b := [RegisterStep(n, end)];
    RoundWithTail(h, c, s1, i, j, k, n, end);
    OneStep(h, c, s1, RegisterStep(n, end), end);
    var s2 := ExecFrom(h, c, s1, b);
    var d := CalmBoth(h, c, s2, i, j, end);
    var s3 := ExecFrom(h, c, s2, d);
    IntroducedStays(c, s2.log, s3.log, i, j, TailAfter(c, k));
    IntroducedStays(c, s2.log, s3.log, j, i, TailAfter(c, k));
    AfterTrans(h, c, s, s1, s2, -1);
    AfterTrans(h, c, s, s2, s3, -1);
    LaterEnd(a, now, end);
    Extend(h, c, s, a, b, now, end, end);
    Extend(h, c, s, a + b, d, now, end, end);
    more := a + b + d;
  }

  lemma LaterEnd(steps: seq<Step>, now: int, end: int)
    requires Within(steps, now, now) && now <= end
    ensures Within(steps, now, end)
  {
  }

  lemma FreshHas(rows: seq<Row>, k: int, now: int)
    requires Fresh(rows, k, now)
    ensures HasK(rows, k)
  {
  }

  lemma IntroducedStays(c: Fleet, log: seq<Event>, log': seq<Event>, i: nat, j: nat, tail: Tail)
    requires log <= log' && Introduced(c, log, i, j, tail)
    ensures Introduced(c, log', i, j, tail)
  {
    hide NamesPeer, TailOf;
    var rec: Record :| IntroIn(c, log, i, j, rec) && TailOf(rec) == tail;
    Grows(log, log', Sent(c.server, Sealed(c.addrs[i], c.keys[i], rec)));
    assert IntroIn(c, log', i, j, rec);
  }

  lemma CalmBoth(h: S.Hash, c: Fleet, s: Sys, i: nat, j: nat, now: int) returns (more: seq<Step>)
    requires WellFormed(c) && Inv(h, c, s) && i < |s.peers| && j < |s.peers| && 0 <= now
    ensures var t := ExecFrom(h, c, s, more);
            Within(more, now, now) && After(h, c, s, t, -1) && Calm(t.peers[i], now) && Calm(t.peers[j], now)
  {
    hide WellFormed, Inv, ExecFrom, Within, Next, Calm;
    Ticked(h, c, s, i, now);
    var s1 := Next(h, c, s, Tick(i, now));
    Ticked(h, c, s1, j, now);
    OneStep(h, c, s, Tick(i, now), now);
    OneStep(h, c, s1, Tick(j, now), now);
    Extend(h, c, s, [Tick(i, now)], [Tick(j, now)], now, now, now);
    AsideTrans(h, c, s, s1, Next(h, c, s1, Tick(j, now)), -1, now);
    more := [Tick(i, now)] + [Tick(j, now)];
  }

  /** A time after everything that matters in a state. */
  function LateEnough(s: Sys, i: nat, j: nat, k: nat, lo: int): (now: int)
    requires i < |s.peers| && j < |s.peers| && k < |s.peers|
    ensures lo <= now && 0 <= now && s.server.pingpers + S.TTLIVE < now
    ensures s.peers[i].regtime + P.REG_TICK < now && s.peers[j].regtime + P.REG_TICK < now
    ensures s.peers[k].regtime + P.REG_TICK < now
  {
    var regtimes := Max(s.peers[i].regtime, Max(s.peers[j].regtime, s.peers[k].regtime));
    Max(Max(lo, 0), Max(s.server.pingpers, regtimes) + S.TTLIVE + P.REG_TICK)
  }

  /** From any state and any time on, if ports and keys allow, some schedule links j to i. */
  lemma CanLink(h: S.Hash, c: Fleet, s: Sys, i: nat, j: nat, lo: int) returns (more: seq<Step>, end: int)
    requires WellFormed(c) && S.Injective(h) && Inv(h, c, s)
    requires CanRegister(c, i) && CanRegister(c, j) && i != j && Role(c, i) != Role(c, j)
    requires PortsAllow(c, s, i, j) && Hears(c, i, j)
    ensures var t := ExecFrom(h, c, s, more);
            Within(more, lo, end) && After(h, c, s, t, i) && Linked(c, t, i, j)
  {
    hide WellFormed, Inv, CanRegister, S.Injective, ExecFrom, RegisterSent, S.Quiet, Within, Calm, Introduced,
         TailAfter, ReadAsPong, Linked, LateEnough;
    var k: nat :| Member(c, k) && HearsTail(c.keys[i], c.keys[j], TailAfter(c, k));
    var m: nat :| ReadAsPong(c.keys[i], c.keys[j], TailAfter(c, k), m);
    InBounds(h, c, s, i, j, k);
    var now := LateEnough(s, i, j, k, lo);
    var a := AllRegister(h, c, s, i, j, k, now);
    var s1 := ExecFrom(h, c, s, a);
    var b, end' := IntroduceBoth(h, c, s1, i, j, k, now);
    var s2 := ExecFrom(h, c, s1, b);
    AfterTrans(h, c, s, s1, s2, -1);
    assert s2.peers[i].pers == s.peers[i].pers;
    var d := Exchange(h, c, s2, i, j, TailAfter(c, k), m, end');
    var s3 := ExecFrom(h, c, s2, d);
    AfterTrans(h, c, s, s2, s3, i);
    EarlierStart(a, lo, now);
    Extend(h, c, s, a, b, lo, now, end');
    Extend(h, c, s, a + b, d, lo, end', end');
    more, end := a + b + d, end';
  }

  lemma EarlierStart(steps: seq<Step>, lo: int, now: int)
    requires Within(steps, now, now) && lo <= now
    ensures Within(steps, lo, now)
  {
  }

  lemma InBounds(h: S.Hash, c: Fleet, s: Sys, i: nat, j: nat, k: nat)
    requires Inv(h, c, s) && Member(c, i) && Member(c, j) && Member(c, k)
    ensures i < |s.peers| && j < |s.peers| && k < |s.peers|
  {
  }

  /** The whole exchange of two introduced peers, up to the PONG of j that i reads as one. */
  lemma Exchange(h: S.Hash, c: Fleet, s: Sys, i: nat, j: nat, tail: Tail, m: nat, now: int) returns (more: seq<Step>)
    requires WellFormed(c) && Inv(h, c, s) && i < |s.peers| && j < |s.peers| && 0 <= now
    requires Introduced(c, s.log, i, j, tail) && Introduced(c, s.log, j, i, tail)
    requires Calm(s.peers[i], now) && Calm(s.peers[j], now) && PortsAllow(c, s, i, j)
    requires ReadAsPong(c.keys[i], c.keys[j], tail, m)
    ensures var t := ExecFrom(h, c, s, more);
            Within(more, now, now) && After(h, c, s, t, i) && Linked(c, t, i, j)
  {
    hide WellFormed, Inv, ExecFrom, Within, Calm, Introduced, Next, HeardHead, Heard, HeadOf, Answer, Verb, Linked;
    var a, pong := Speak(h, c, s, j, i, tail, m, now);
    var t := ExecFrom(h, c, s, a);
    assert t.peers[i].pers == s.peers[i].pers;
    var step := PongLinks(h, c, t, i, j, pong, now);
    HeardHeadOf(c.keys[i], c.keys[j], pong);
    VerbOfHead(Heard(c.keys[i], c.keys[j], pong));
    OneStep(h, c, t, step, now);
    Extend(h, c, s, a, [step], now, now, now);
    AfterTrans(h, c, s, t, Next(h, c, t, step), i);
    more := a + [step];
  }

  /** No peer ever loses an endpoint. */
  lemma {:induction false} PersStay(h: S.Hash, c: Fleet, s: Sys, more: seq<Step>, i: nat, e: Endpoint)
    requires WellFormed(c) && Inv(h, c, s) && i < |s.peers| && e in s.peers[i].pers
    ensures var t := ExecFrom(h, c, s, more);
            Inv(h, c, t) && |t.peers| == |s.peers| && e in t.peers[i].pers
  {
    hide WellFormed, Inv, Next;
    if more != [] {
      var n := |more| - 1;
      PersStay(h, c, s, more[..n], i, e);
      var t := ExecFrom(h, c, s, more[..n]);
      StepKeeps(h, c, t, more[n]);
      StepKeepsPers(h, c, t, more[n], i, e);
    }
  }

  lemma StepKeepsPers(h: S.Hash, c: Fleet, s: Sys, step: Step, i: nat, e: Endpoint)
    requires WellFormed(c) && Inv(h, c, s) && i < |s.peers| && e in s.peers[i].pers
    ensures var t := Next(h, c, s, step); |t.peers| == |s.peers| && e in t.peers[i].pers
  {
    hide RightRow, Unmasked, ServerOk, LinkOk, DataRead, PortSorted, P.Turn, P.TwoStates, S.Iterate, LogOk,
         PeerSendOk, ServerSendOk;
    if Enabled(c, s, step) && step.PeerStep? && step.who == i {
      assert PeerOk(c, s.log, i, s.peers[i]);
      if step.delivery.Some? {
        EventOk(c, s.log, step.delivery.value);
      }
      P.TurnKeeps(s.peers[i], PeerInput(c, s, step));
    }
  }

  /** The run goes on, with clocks that rise from where they are, until j is in i's set. */
  ghost predicate GoesOnTo(h: S.Hash, c: Fleet, steps: seq<Step>, more: seq<Step>, i: nat, j: nat) {
    Onward(steps, more) && Linked(c, Exec(h, c, steps + more), i, j)
  }

  /** Linking, exactly. In every reachable state, for two peers of opposite roles that can register, there
      is a continuation that the clocks allow after which j is in i's set if and only if the ports and
      the keys allow it. */
  lemma LinkableExactly(h: S.Hash, c: Fleet, steps: seq<Step>, i: nat, j: nat)
    requires WellFormed(c) && S.Injective(h)
    requires CanRegister(c, i) && CanRegister(c, j) && i != j && Role(c, i) != Role(c, j)
    ensures (exists more :: GoesOnTo(h, c, steps, more, i, j)) <==> PortsAllow(c, Exec(h, c, steps), i, j) && Hears(c, i, j)
  {
    hide WellFormed, S.Injective, CanRegister, Inv, Exec, ExecFrom, PortsAllow, Linked, Hears, Onward, Latest;
    Invariant(h, c, steps);
    IsMember(c, i);
    IsMember(c, j);
    var s := Exec(h, c, steps);
    if PortsAllow(c, s, i, j) && Hears(c, i, j) {
      var more, end := CanLink(h, c, s, i, j, Latest(steps));
      ExecAppend(h, c, steps, more);
      GoOn(steps, more, end);
      assert GoesOnTo(h, c, steps, more, i, j);
    }
    forall more | GoesOnTo(h, c, steps, more, i, j)
      ensures PortsAllow(c, s, i, j) && Hears(c, i, j)
    {
      LinkedAllowed(h, c, steps, more, i, j);
    }
  }

  lemma GoOn(steps: seq<Step>, more: seq<Step>, end: int)
    requires Within(more, Latest(steps), end)
    ensures Onward(steps, more)
  {
    hide Latest;
  }

  /** Whatever its clocks do, a run that links the two shows that ports and keys allowed it. */
  lemma LinkedAllowed(h: S.Hash, c: Fleet, steps: seq<Step>, more: seq<Step>, i: nat, j: nat)
    requires WellFormed(c) && Member(c, i) && Member(c, j) && Linked(c, Exec(h, c, steps + more), i, j)
    ensures PortsAllow(c, Exec(h, c, steps), i, j) && Hears(c, i, j)
  {
    hide RightRow, Unmasked, LogOk, ServerOk, Exec, ExecFrom, Verb, Heard, HeardHead, Answer, HeadOf, TailAfter,
         DataRead, P.TwoStates;
    Invariant(h, c, steps);
    Invariant(h, c, steps + more);
    var s, t, e := Exec(h, c, steps), Exec(h, c, steps + more), P.Rsin(c.addrs[j]);
    assert PeerOk(c, t.log, i, t.peers[i]);
    assert LinkOk(c, t.log, i, e);
    var j': nat, rec: Record :| PongRead(c, t.log, j', i, rec, PER_PONG) && P.AddrOfEndpoint(e) == c.addrs[j'];
    SamePeer(c, j, j', c.addrs[j]);
    var pong := InLog(t.log, Sent(c.addrs[j], Sealed(c.addrs[i], c.keys[j], rec)));
    var n, key, rec' := PongBecause(c, t.log, pong, j, i, rec);
    var k, m := PongAnswers(c, t.log, pong, j, i, rec);
    HeardHeadOf(c.keys[i], c.keys[j], rec);
    VerbOfHead(Heard(c.keys[i], c.keys[j], rec));
    assert ReadAsPong(c.keys[i], c.keys[j], TailAfter(c, k), m);
    assert HearsTail(c.keys[i], c.keys[j], TailAfter(c, k));
    ExecAppend(h, c, steps, more);
    forall x | x in s.peers[i].pers && x.port == c.addrs[j].port
      ensures x == e
    {
      PersStay(h, c, s, more, i, x);
    }
  }

  ghost predicate Both(c: Fleet, s: Sys, i: nat, j: nat) {
    Linked(c, s, i, j) && Linked(c, s, j, i)
  }

  ghost predicate GoesOnToBoth(h: S.Hash, c: Fleet, steps: seq<Step>, more: seq<Step>, i: nat, j: nat) {
    Onward(steps, more) && Both(c, Exec(h, c, steps + more), i, j)
  }

  /** Both ways. Some continuation that the clocks allow links the two peers to each other if and only if
      ports and keys allow it in both directions. */
  lemma LinkableBothExactly(h: S.Hash, c: Fleet, steps: seq<Step>, i: nat, j: nat)
    requires WellFormed(c) && S.Injective(h)
    requires CanRegister(c, i) && CanRegister(c, j) && i != j && Role(c, i) != Role(c, j)
    ensures (exists more :: GoesOnToBoth(h, c, steps, more, i, j))
            <==> (&& PortsAllow(c, Exec(h, c, steps), i, j) && Hears(c, i, j)
                  && PortsAllow(c, Exec(h, c, steps), j, i) && Hears(c, j, i))
  {
    hide WellFormed, S.Injective, CanRegister, Inv, Exec, ExecFrom, PortsAllow, Linked, Hears, Onward, Latest;
    Invariant(h, c, steps);
    IsMember(c, i);
    IsMember(c, j);
    var s := Exec(h, c, steps);
    if PortsAllow(c, s, i, j) && Hears(c, i, j) && PortsAllow(c, s, j, i) && Hears(c, j, i) {
      var more, end := LinkBoth(h, c, s, i, j, Latest(steps));
      ExecAppend(h, c, steps, more);
      GoOn(steps, more, end);
      assert GoesOnToBoth(h, c, steps, more, i, j);
    }
    forall more | GoesOnToBoth(h, c, steps, more, i, j)
      ensures PortsAllow(c, s, i, j) && Hears(c, i, j) && PortsAllow(c, s, j, i) && Hears(c, j, i)
    {
      LinkedAllowed(h, c, steps, more, i, j);
      LinkedAllowed(h, c, steps, more, j, i);
    }
  }

  lemma LinkBoth(h: S.Hash, c: Fleet, s: Sys, i: nat, j: nat, lo: int) returns (more: seq<Step>, end: int)
    requires WellFormed(c) && S.Injective(h) && Inv(h, c, s)
    requires CanRegister(c, i) && CanRegister(c, j) && i != j && Role(c, i) != Role(c, j)
    requires PortsAllow(c, s, i, j) && Hears(c, i, j) && PortsAllow(c, s, j, i) && Hears(c, j, i)
    ensures Within(more, lo, end) && Both(c, ExecFrom(h, c, s, more), i, j)
  {
    hide WellFormed, S.Injective, CanRegister, Inv, ExecFrom, Hears, Within;
    var a, mid := CanLink(h, c, s, i, j, lo);
    var t := ExecFrom(h, c, s, a);
    var b, last := CanLink(h, c, t, j, i, mid);
    PersStay(h, c, t, b, i, P.Rsin(c.addrs[j]));
    Extend(h, c, s, a, b, lo, mid, last);
    more, end := a + b, last;
  }

  /** What the program is for: a provider and a consumer that have just been started can be linked to
      each other, whoever else is in the fleet, if and only if neither is on the server's port number and
      each of their keys hears the other. */
  lemma StartedPeersLink(h: S.Hash, c: Fleet, i: nat, j: nat)
    requires WellFormed(c) && S.Injective(h)
    requires CanRegister(c, i) && CanRegister(c, j) && i != j && Role(c, i) != Role(c, j)
    ensures (exists steps :: ClocksRise(steps) && Both(c, Exec(h, c, steps), i, j))
            <==> (&& c.addrs[i].port != c.server.port && c.addrs[j].port != c.server.port
                  && Hears(c, i, j) && Hears(c, j, i))
  {
    hide WellFormed, S.Injective, CanRegister, Both, Hears, Next, Inv, ClocksRise, Exec;
    IsMember(c, i);
    IsMember(c, j);
    InitOk(h, c);
    InBounds(h, c, Init(c), i, j, i);
    assert Exec(h, c, []) == Init(c) by { NoRun(h, c); }
    LinkableBothExactly(h, c, [], i, j);
    forall steps
      ensures GoesOnToBoth(h, c, [], steps, i, j) <==> ClocksRise(steps) && Both(c, Exec(h, c, steps), i, j)
    {
      assert [] + steps == steps;
    }
  }

  lemma NoRun(h: S.Hash, c: Fleet)
    ensures Exec(h, c, []) == Init(c)
  {
    hide Next, Init;
  }

  /** With the same key the ports alone decide. */
  lemma SameKeyLinkable(h: S.Hash, c: Fleet, steps: seq<Step>, i: nat, j: nat)
    requires WellFormed(c) && S.Injective(h)
    requires CanRegister(c, i) && CanRegister(c, j) && i != j && Role(c, i) != Role(c, j) && c.keys[i] == c.keys[j]
    ensures (exists more :: GoesOnTo(h, c, steps, more, i, j)) <==> PortsAllow(c, Exec(h, c, steps), i, j)
  {
    hide WellFormed, S.Injective, CanRegister, Exec, PortsAllow, Hears, Onward;
    IsMember(c, i);
    IsMember(c, j);
    SameKeyLinks(c, i, j);
    LinkableExactly(h, c, steps, i, j);
  }

  /** A provider and a consumer built with the mid of the table's first row, whatever the other rows are. */
  function StartedFleet(server: Addr, a: Addr, b: Addr, m: Mid, others: seq<MidRow>, id: seq<u8>, id': seq<u8>): Fleet
    requires IsId(id) && IsId(id')
  {
    Fleet(server, [ToKeys(m), ToKeys(m)], [a, b], [Mecap(m, id, true), Mecap(m, id', false)], [MidRow(m, 0)] + others)
  }

  /** Such a fleet meets every assumption, and its two peers can be linked to each other if and only if
      neither is on the server's port number. */
  lemma StartedFleetLinks(h: S.Hash, server: Addr, a: Addr, b: Addr, m: Mid, others: seq<MidRow>, id: seq<u8>, id': seq<u8>)
    requires S.Injective(h) && IsId(id) && IsId(id')
    requires server.port != 0 && a.port != 0 && b.port != 0 && a != b && a != server && b != server
    ensures var c := StartedFleet(server, a, b, m, others, id, id');
            && WellFormed(c) && CanRegister(c, 0) && CanRegister(c, 1)
            && ((exists steps :: ClocksRise(steps) && Both(c, Exec(h, c, steps), 0, 1))
                <==> a.port != server.port && b.port != server.port)
  {
    hide S.Injective, ToKeys, Mecap, MeiotIs, AuthRow, Exec, ClocksRise, Both, Typ, Hears, WithVerb;
    var c := StartedFleet(server, a, b, m, others, id, id');
    assert c.mids[0] == MidRow(m, 0);
    MecapReads(m, id, true, SRV_REGISTER);
    MecapReads(m, id', false, SRV_REGISTER);
    forall i: nat | Member(c, i)
      ensures OwnRow(c, i, c.mids[0])
    {
    }
    FirstMid(c);
    StartedCanRegister(c, 0, c.mids[0], id, true);
    StartedCanRegister(c, 1, c.mids[0], id', false);
    SameKeyLinks(c, 0, 1);
    SameKeyLinks(c, 1, 0);
    StartedPeersLink(h, c, 0, 1);
  }

}
