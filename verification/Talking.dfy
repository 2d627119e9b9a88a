/** What linked peers do: they stay linked, stop registering, and a line typed at one of them goes to
    everyone in its set and is handed over there. */
module Talking {
  import opened Bytes
  import opened Text
  import opened Xtea
  import opened Endpoints
  import opened Records
  import opened Hearing
  import opened Tables
  import opened Wires
  import opened Protocol
  import opened Linking
  import opened Reaching
  import S = Servers
  import P = Peers

  // ---------- linked

  /** In every reachable state a peer with someone in its set is linked. */
  lemma SetMeansLinked(h: S.Hash, c: Fleet, steps: seq<Step>, i: nat)
    requires WellFormed(c) && i < |Exec(h, c, steps).peers|
    ensures Exec(h, c, steps).peers[i].pers != [] ==> Exec(h, c, steps).peers[i].status == PER_LINKED
  {
    hide WellFormed, Exec, LogOk, ServerOk, LinkOk, DataRead, PortSorted, P.TwoStates;
    Invariant(h, c, steps);
    assert PeerOk(c, Exec(h, c, steps).log, i, Exec(h, c, steps).peers[i]);
  }

  /** What a turn of a peer sends, in order: what its timer sends, records for peers, and its line. */
  lemma TurnSends(h: S.Hash, c: Fleet, s: Sys, step: Step) returns (talk: seq<Send>)
    requires WellFormed(c) && Inv(h, c, s) && step.PeerStep? && Enabled(c, s, step)
    ensures var p := s.peers[step.who];
            var r := P.Turn(p, PeerInput(c, s, step));
            && P.Talks(talk) && r.sends == P.TimerSends(p, step.now) + talk + P.LineSends(r.peer, step.text)
            && (p.status == PER_LINKED ==> r.peer.status == PER_LINKED)
  {
    hide WellFormed, Inv, PeerOk, LogOk, P.React, P.AfterTimer, P.TimerSends, P.AfterHere, P.LineSends, P.Talks,
         Payload, SendsOk;
    var i, p, now := step.who, s.peers[step.who], step.now;
    var p1 := P.AfterTimer(p, now);
    InvParts(h, c, s, i);
    TimerOk(c, s.log, i, p, now);
    HereStatus(p, now);
    PeerTurnOk(h, c, s, step);
    var r := P.Handled(p1, PeerInput(c, s, step));
    if step.delivery.Some? {
      var n := step.delivery.value;
      ReactOk(c, s.log, i, p1, n, now, step.clock);
      P.ReactTalks(p1, Inbound(s.log[n].src, Payload(s.log[n].send)), now, step.clock);
    } else {
      NoTalk();
    }
    HereStatus(r.peer, now);
    talk := r.sends;
  }

  lemma InvParts(h: S.Hash, c: Fleet, s: Sys, i: nat)
    requires Inv(h, c, s) && i < |s.peers|
    ensures Member(c, i) && LogOk(c, s.log) && PeerOk(c, s.log, i, s.peers[i])
  {
    hide LogOk, PeerOk, ServerOk;
  }

  lemma HereStatus(p: P.Peer, now: int)
    ensures P.AfterHere(p, now).status == p.status
    ensures p.status == PER_LINKED ==> P.AfterTimer(p, now) == p
  {
  }

  lemma NoTalk()
    ensures P.Talks([])
  {
  }

  /** No event of the history from position n on is a registration of peer i. */
  ghost predicate NoRegister(c: Fleet, log: seq<Event>, n: nat, i: nat)
    requires Member(c, i)
  {
    forall k :: n <= k < |log| && log[k].Sent? && log[k].src == c.addrs[i] && log[k].send.Sealed? ==>
      Verb(log[k].send.rec) != 1
  }

  /** Once linked, a peer stays linked and sends no further REGISTER, over any continuation. */
  lemma {:induction false} LinkedForGood(h: S.Hash, c: Fleet, s: Sys, more: seq<Step>, i: nat)
    requires WellFormed(c) && Inv(h, c, s) && i < |s.peers| && Member(c, i) && s.peers[i].status == PER_LINKED
    ensures var t := ExecFrom(h, c, s, more);
            && Inv(h, c, t) && |t.peers| == |s.peers| && s.log <= t.log
            && t.peers[i].status == PER_LINKED && NoRegister(c, t.log, |s.log|, i)
  {
    hide WellFormed, Inv, Next, NoRegister;
    if more == [] {
      NoneYet(c, s.log, i);
    } else {
      var n := |more| - 1;
      LinkedForGood(h, c, s, more[..n], i);
      var t := ExecFrom(h, c, s, more[..n]);
      StepKeeps(h, c, t, more[n]);
      LinkedStep(h, c, t, more[n], i);
      NoneMore(c, t.log, Next(h, c, t, more[n]).log, |s.log|, i);
    }
  }

  lemma NoneYet(c: Fleet, log: seq<Event>, i: nat)
    requires Member(c, i)
    ensures NoRegister(c, log, |log|, i)
  {
  }

  lemma NoneMore(c: Fleet, log: seq<Event>, log': seq<Event>, n: nat, i: nat)
    requires Member(c, i) && n <= |log| && log <= log' && NoRegister(c, log, n, i) && NoRegister(c, log', |log|, i)
    ensures NoRegister(c, log', n, i)
  {
    hide Verb;
    forall k | n <= k < |log'| && log'[k].Sent? && log'[k].src == c.addrs[i] && log'[k].send.Sealed?
      ensures Verb(log'[k].send.rec) != 1
    {
      assert k < |log| ==> log'[k] == log[k];
    }
  }

  lemma LinkedStep(h: S.Hash, c: Fleet, s: Sys, step: Step, i: nat)
    requires WellFormed(c) && Inv(h, c, s) && i < |s.peers| && Member(c, i) && s.peers[i].status == PER_LINKED
    ensures var t := Next(h, c, s, step);
            && |t.peers| == |s.peers| && s.log <= t.log && t.peers[i].status == PER_LINKED
            && NoRegister(c, t.log, |s.log|, i)
  {
    hide RightRow, Unmasked, LogOk, ServerOk, PeerOk, P.Turn, P.TimerSends, P.LineSends, S.Iterate, Verb;
    if Enabled(c, s, step) {
      if step.PeerStep? {
        if step.who == i {
          var talk := TurnSends(h, c, s, step);
          var r := P.Turn(s.peers[i], PeerInput(c, s, step));
          LinkedTimer(s.peers[i], step.now);
          LinesPlain(r.peer, step.text);
          forall k | 0 <= k < |r.sends|
            ensures r.sends[k].Sealed? ==> Verb(r.sends[k].rec) != 1
          {
            assert r.sends == talk + P.LineSends(r.peer, step.text);
          }
        }
      }
    }
  }

  lemma LinkedTimer(p: P.Peer, now: int)
    requires p.status == PER_LINKED
    ensures P.TimerSends(p, now) == []
  {
  }

  /** A line is plain, and goes to the endpoints of the set in order, when the peer is linked. */
  lemma LinesPlain(p: P.Peer, text: Option<seq<u8>>)
    ensures var ss := P.LineSends(p, text);
            && |ss| == (if p.status == PER_LINKED && text.Some? then |p.pers| else 0)
            && forall k :: 0 <= k < |ss| ==> ss[k] == Plain(P.AddrOfEndpoint(p.pers[k]), text.value)
  {
  }

  // ---------- lines

  /** The plain datagrams of a piece of the history. */
  function Texts(es: seq<Event>): seq<Event> {
    if es == [] then []
    else (if es[0].Sent? && es[0].send.Plain? then [es[0]] else []) + Texts(es[1..])
  }

  lemma {:induction false} TextsAppend(a: seq<Event>, b: seq<Event>)
    ensures Texts(a + b) == Texts(a) + Texts(b)
  {
    if a == [] {
      assert a + b == b;
    } else {
      assert (a + b)[1..] == a[1..] + b;
      TextsAppend(a[1..], b);
    }
  }

  lemma {:induction false} NoTexts(es: seq<Event>)
    requires forall k :: 0 <= k < |es| ==> es[k].Sent? ==> es[k].send.Sealed?
    ensures Texts(es) == []
  {
    if es != [] {
      NoTexts(es[1..]);
    }
  }

  lemma {:induction false} AllTexts(es: seq<Event>)
    requires forall k :: 0 <= k < |es| ==> es[k].Sent? && es[k].send.Plain?
    ensures Texts(es) == es
  {
    if es != [] {
      AllTexts(es[1..]);
    }
  }

  lemma {:induction false} TextsAreIn(es: seq<Event>, e: Event)
    ensures e in Texts(es) <==> e in es && e.Sent? && e.send.Plain?
  {
    if es != [] {
      TextsAreIn(es[1..], e);
    }
  }

  lemma SentAllAppend(src: Addr, a: seq<Send>, b: seq<Send>)
    ensures SentAll(src, a + b) == SentAll(src, a) + SentAll(src, b)
  {
  }

  lemma TimerSealed(p: P.Peer, now: int)
    ensures forall k :: 0 <= k < |P.TimerSends(p, now)| ==> P.TimerSends(p, now)[k].Sealed?
  {
  }

  /** The plain datagrams of a turn are its lines. */
  lemma TurnTexts(h: S.Hash, c: Fleet, s: Sys, step: Step)
    requires WellFormed(c) && Inv(h, c, s) && step.PeerStep? && Enabled(c, s, step)
    ensures var r := P.Turn(s.peers[step.who], PeerInput(c, s, step));
            Texts(SentAll(c.addrs[step.who], r.sends)) == SentAll(c.addrs[step.who], P.LineSends(r.peer, step.text))
  {
    hide WellFormed, Inv, P.Turn, P.TimerSends, P.LineSends, Texts;
    var p, a := s.peers[step.who], c.addrs[step.who];
    var r := P.Turn(p, PeerInput(c, s, step));
    var talk := TurnSends(h, c, s, step);
    var timer, lines := P.TimerSends(p, step.now), P.LineSends(r.peer, step.text);
    TimerSealed(p, step.now);
    LinesPlain(r.peer, step.text);
    SentAllAppend(a, timer + talk, lines);
    TextsAppend(SentAll(a, timer + talk), SentAll(a, lines));
    NoTexts(SentAll(a, timer + talk));
    AllTexts(SentAll(a, lines));
  }

  /** In every reachable state a turn of a peer with a line of text sends it, in clear, once to each endpoint
      of the set that it has after the turn, in the order of the set, if the peer is then linked; nothing
      else is ever sent in clear, by a peer or by the server. */
  lemma LineSent(h: S.Hash, c: Fleet, steps: seq<Step>, step: Step)
    requires WellFormed(c) && Enabled(c, Exec(h, c, steps), step)
    ensures var s := Exec(h, c, steps);
            var t := Next(h, c, s, step);
            && s.log <= t.log && |t.peers| == |s.peers|
            && (step.ServerStep? ==> Texts(t.log[|s.log|..]) == [])
            && (step.PeerStep? ==>
                  var q, said := t.peers[step.who], Texts(t.log[|s.log|..]);
                  && |said| == (if q.status == PER_LINKED && step.text.Some? then |q.pers| else 0)
                  && forall k :: 0 <= k < |said| ==>
                       said[k] == Sent(c.addrs[step.who], Plain(P.AddrOfEndpoint(q.pers[k]), step.text.value)))
  {
    hide WellFormed, Exec, Inv, P.Turn, P.LineSends, S.Iterate, Texts;
    Invariant(h, c, steps);
    var s := Exec(h, c, steps);
    var t := Next(h, c, s, step);
    if step.PeerStep? {
      var r := P.Turn(s.peers[step.who], PeerInput(c, s, step));
      TurnTexts(h, c, s, step);
      LinesPlain(r.peer, step.text);
      assert t.log[|s.log|..] == SentAll(c.addrs[step.who], r.sends);
    } else {
      StepKeeps(h, c, s, step);
      ServerSealed(h, c, s, step);
      NoTexts(t.log[|s.log|..]);
    }
  }

  lemma ServerSealed(h: S.Hash, c: Fleet, s: Sys, step: Step)
    requires WellFormed(c) && Inv(h, c, s) && step.ServerStep? && Enabled(c, s, step) && Inv(h, c, Next(h, c, s, step))
    ensures var t := Next(h, c, s, step);
            s.log <= t.log && forall k :: |s.log| <= k < |t.log| && t.log[k].Sent? ==> t.log[k].send.Sealed?
  {
    hide RightRow, Unmasked, LogOk, ServerOk, PeerOk, S.Iterate, IntroOk, TailOk, ToPeer, Verb;
    var t := Next(h, c, s, step);
    forall k | |s.log| <= k < |t.log| && t.log[k].Sent?
      ensures t.log[k].send.Sealed?
    {
      UseLog(c, t.log, k);
    }
  }

  /** Whoever was sent a text by a peer is in that peer's set. */
  lemma {:induction false} TextsToLinked(h: S.Hash, c: Fleet, steps: seq<Step>, i: nat, to: Addr, data: seq<u8>)
    requires WellFormed(c) && i < |Exec(h, c, steps).peers| && Member(c, i)
    requires Sent(c.addrs[i], Plain(to, data)) in Exec(h, c, steps).log
    ensures P.Rsin(to) in Exec(h, c, steps).peers[i].pers
  {
    hide WellFormed, Inv, Next, Texts;
    if steps == [] {
      assert false;
    } else {
      var n := |steps| - 1;
      var s, e := Exec(h, c, steps[..n]), Sent(c.addrs[i], Plain(to, data));
      Invariant(h, c, steps[..n]);
      StepSizes(h, c, s, steps[n]);
      if e in s.log {
        TextsToLinked(h, c, steps[..n], i, to, data);
        StepKeepsPers(h, c, s, steps[n], i, P.Rsin(to));
      } else if Enabled(c, s, steps[n]) {
        NewText(h, c, steps[..n], steps[n], i, to, data);
      } else {
        NotEnabled(h, c, s, steps[n]);
      }
    }
  }

  lemma NotEnabled(h: S.Hash, c: Fleet, s: Sys, step: Step)
    requires !Enabled(c, s, step)
    ensures Next(h, c, s, step) == s
  {
  }

  lemma StepSizes(h: S.Hash, c: Fleet, s: Sys, step: Step)
    ensures |Next(h, c, s, step).peers| == |s.peers|
  {
    hide P.Turn, S.Iterate;
  }

  lemma NewText(h: S.Hash, c: Fleet, steps: seq<Step>, step: Step, i: nat, to: Addr, data: seq<u8>)
    requires WellFormed(c) && Member(c, i) && i < |Exec(h, c, steps).peers| && Enabled(c, Exec(h, c, steps), step)
    requires var s, e := Exec(h, c, steps), Sent(c.addrs[i], Plain(to, data));
             e !in s.log && e in Next(h, c, s, step).log
    ensures P.Rsin(to) in Next(h, c, Exec(h, c, steps), step).peers[i].pers
  {
    hide RightRow, Unmasked, Exec, Next, Texts, LogOk, ServerOk, PeerOk;
    var s, e := Exec(h, c, steps), Sent(c.addrs[i], Plain(to, data));
    var t := Next(h, c, s, step);
    LineSent(h, c, steps, step);
    assert t.log == s.log + t.log[|s.log|..];
    TextsAreIn(t.log[|s.log|..], e);
    var said := Texts(t.log[|s.log|..]);
    var k :| 0 <= k < |said| && said[k] == e;
    SamePeer(c, i, step.who, c.addrs[i]);
    Invariant(h, c, steps);
    StepKeeps(h, c, s, step);
    InvParts(h, c, t, i);
    PersMasked(c, t.log, i, t.peers[i], t.peers[i].pers[k]);
  }

  lemma PersMasked(c: Fleet, log: seq<Event>, i: nat, p: P.Peer, x: Endpoint)
    requires Member(c, i) && PeerOk(c, log, i, p) && x in p.pers
    ensures x == P.Rsin(P.AddrOfEndpoint(x))
  {
    hide LinkOk, DataRead, PortSorted, P.TwoStates;
    Masked(p.pers, x);
  }

  // ---------- from one keyboard to the other screen

  /** After `more` peer j, in the turn `last`, is handed this line of peer i once. */
  ghost predicate HandsOver(h: S.Hash, c: Fleet, steps: seq<Step>, more: seq<Step>, last: Step, n: nat, i: nat,
          j: nat, line: seq<u8>)
    requires Member(c, i) && Member(c, j)
  {
    var s := Exec(h, c, steps + more);
    && Onward(steps, more + [last]) && last.PeerStep? && last.who == j && last.delivery == Some(n)
    && Enabled(c, s, last)
    && s.log[n] == Sent(c.addrs[i], Plain(c.addrs[j], line))
    && P.Turn(s.peers[j], PeerInput(c, s, last)).delivered == 1
  }

  lemma OnwardMore(steps: seq<Step>, a: seq<Step>, now: int, x: Step, y: Step)
    requires Within(a, Latest(steps), now) && StartOf(x) == EndOf(x) == StartOf(y) == EndOf(y) == now
    ensures Onward(steps, a + [x] + [y])
  {
    hide Latest;
    assert Within([x], now, now) && Within([y], now, now) by { assert 0 <= Latest(steps) <= now; }
    WithinAppend(a, [x], Latest(steps), now, now);
    WithinAppend(a + [x], [y], Latest(steps), now, now);
  }

  lemma ExecOne(h: S.Hash, c: Fleet, steps: seq<Step>, step: Step)
    ensures Exec(h, c, steps + [step]) == Next(h, c, Exec(h, c, steps), step)
  {
    hide Next, Init;
    assert (steps + [step])[..|steps|] == steps;
  }

  /** Two peers that are in each other's sets can talk: i types the line, and j is handed it. */
  lemma LinkedTalk(h: S.Hash, c: Fleet, steps: seq<Step>, i: nat, j: nat, line: seq<u8>, now: int)
    returns (x: Step, y: Step, n: nat)
    requires WellFormed(c) && Member(c, i) && Member(c, j) && 0 < |line| < SIZE && Both(c, Exec(h, c, steps), i, j)
    ensures StartOf(x) == EndOf(x) == StartOf(y) == EndOf(y) == now
    ensures var s := Exec(h, c, steps + [x]);
            && y.PeerStep? && y.who == j && y.delivery == Some(n) && Enabled(c, s, y)
            && s.log[n] == Sent(c.addrs[i], Plain(c.addrs[j], line))
            && P.Turn(s.peers[j], PeerInput(c, s, y)).delivered == 1
  {
    hide WellFormed, Exec, Next, Inv, P.Turn, Texts;
    var s := Exec(h, c, steps);
    Invariant(h, c, steps);
    InvSizes(h, c, s);
    x := PeerStep(i, None, now, now, Some(line));
    var t := Next(h, c, s, x);
    SetMeansLinked(h, c, steps, i);
    LinkedStep(h, c, s, x, i);
    StepKeeps(h, c, s, x);
    StepKeepsPers(h, c, s, x, i, P.Rsin(c.addrs[j]));
    StepKeepsPers(h, c, s, x, j, P.Rsin(c.addrs[i]));
    LineSent(h, c, steps, x);
    var k :| 0 <= k < |t.peers[i].pers| && t.peers[i].pers[k] == P.Rsin(c.addrs[j]);
    var said := Texts(t.log[|s.log|..]);
    assert said[k] == Sent(c.addrs[i], Plain(c.addrs[j], line));
    TextsAreIn(t.log[|s.log|..], said[k]);
    assert said[k] in t.log;
    n := InLog(t.log, said[k]);
    y := PeerStep(j, Some(n), now, now, None);
    ExecOne(h, c, steps, x);
    TextDelivered(h, c, steps + [x], y, n);
  }

  lemma InvSizes(h: S.Hash, c: Fleet, s: Sys)
    requires Inv(h, c, s)
    ensures |s.peers| == |c.addrs| == |c.caps| == |c.keys|
  {
  }

  /** From one keyboard to the other screen. When ports and keys allow it in both directions, some
      continuation that the clocks allow has peer j handed any line of peer i, once. When no other peer has
      i's port number, that is also the only way. */
  lemma LineHeardExactly(h: S.Hash, c: Fleet, steps: seq<Step>, i: nat, j: nat, line: seq<u8>)
    requires WellFormed(c) && S.Injective(h) && 0 < |line| < SIZE
    requires CanRegister(c, i) && CanRegister(c, j) && i != j && Role(c, i) != Role(c, j)
    ensures var s := Exec(h, c, steps);
            var allowed := PortsAllow(c, s, i, j) && Hears(c, i, j) && PortsAllow(c, s, j, i) && Hears(c, j, i);
            && (allowed ==> exists more, last, n :: HandsOver(h, c, steps, more, last, n, i, j, line))
            && (OwnPort(c, c.addrs[i]) && (exists more, last, n :: HandsOver(h, c, steps, more, last, n, i, j, line)) ==> allowed)
  {
    hide WellFormed, S.Injective, Inv, Exec, ExecFrom, PortsAllow, Linked, Hears, Latest, HandsOver, OwnPort,
         CanRegister;
    IsMember(c, i);
    IsMember(c, j);
    Invariant(h, c, steps);
    var s := Exec(h, c, steps);
    if PortsAllow(c, s, i, j) && Hears(c, i, j) && PortsAllow(c, s, j, i) && Hears(c, j, i) {
      var a, end := LinkBoth(h, c, s, i, j, Latest(steps));
      ExecAppend(h, c, steps, a);
      var x, y, n := LinkedTalk(h, c, steps + a, i, j, line, end);
      OnwardMore(steps, a, end, x, y);
      assert (steps + a) + [x] == steps + (a + [x]);
      HandsOverIs(h, c, steps, a + [x], y, n, i, j, line);
    }
    forall more, last, n | OwnPort(c, c.addrs[i]) && HandsOver(h, c, steps, more, last, n, i, j, line)
      ensures PortsAllow(c, s, i, j) && Hears(c, i, j) && PortsAllow(c, s, j, i) && Hears(c, j, i)
    {
      HandedBecause(h, c, steps, more, last, n, i, j, line);
      LinkedAllowed(h, c, steps, more, i, j);
      LinkedAllowed(h, c, steps, more, j, i);
    }
  }

  lemma HandsOverIs(h: S.Hash, c: Fleet, steps: seq<Step>, more: seq<Step>, last: Step, n: nat, i: nat, j: nat,
          line: seq<u8>)
    requires Member(c, i) && Member(c, j)
    requires var s := Exec(h, c, steps + more);
             && Onward(steps, more + [last]) && last.PeerStep? && last.who == j && last.delivery == Some(n)
             && Enabled(c, s, last)
             && s.log[n] == Sent(c.addrs[i], Plain(c.addrs[j], line))
             && P.Turn(s.peers[j], PeerInput(c, s, last)).delivered == 1
    ensures HandsOver(h, c, steps, more, last, n, i, j, line)
  {
  }

  /** A line that was handed over shows that the two are in each other's sets. */
  lemma HandedBecause(h: S.Hash, c: Fleet, steps: seq<Step>, more: seq<Step>, last: Step, n: nat, i: nat,
          j: nat, line: seq<u8>)
    requires WellFormed(c) && Member(c, i) && Member(c, j) && line != [] && OwnPort(c, c.addrs[i])
    requires HandsOver(h, c, steps, more, last, n, i, j, line)
    ensures Both(c, Exec(h, c, steps + more), i, j)
  {
    hide WellFormed, Exec, Inv, P.Turn, OwnPort, Onward;
    var s := Exec(h, c, steps + more);
    Invariant(h, c, steps + more);
    InvSizes(h, c, s);
    TextsToLinked(h, c, steps + more, i, c.addrs[j], line);
    TextDelivered(h, c, steps + more, last, n);
  }

}
