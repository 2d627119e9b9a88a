/** u_server.cpp: `_ping_pers`, the round in which the server greets every row of the table and
    introduces every provider to every consumer. */
module Introductions {
  import opened Bytes
  import opened Xtea
  import opened Records
  import opened Wires

  /** What a piece of the round sends, and what it leaves in the reused packet. */
  datatype Emission = Emission(sends: seq<Send>, pl: Record)

  predicate Opposite(pers: seq<Ipp>, i: nat, j: nat)
    requires i < |pers| && j < |pers|
  {
    pers[i].t != pers[j].t
  }

  function To(q: Ipp, rec: Record): Send {
    Sealed(IppAddr(q), q.keys, rec)
  }

  /** The body of the inner loop. */
  function PairSends(p: Ipp, q: Ipp, pl: Record): Emission {
    var verb := WithVerb(pl, SRV_SET_PEER);
    if p.t != q.t then
      var aboutP := WithPublic(verb, p);
      var aboutQ := WithPublic(aboutP, q);
      Emission([To(q, aboutP), To(p, aboutQ)], aboutQ)
    else
      Emission([], verb)
  }

  /** The inner loop over the first n entries. */
  function InnerSends(pers: seq<Ipp>, i: nat, n: nat, pl: Record): Emission
    requires i < |pers| && n <= |pers|
  {
    if n == 0 then Emission([], pl) else
      var e := InnerSends(pers, i, n - 1, pl);
      var f := PairSends(pers[i], pers[n - 1], e.pl);
      Emission(e.sends + f.sends, f.pl)
  }

  /** The body of the outer loop: a greeting, then the inner loop. */
  function EntrySends(pers: seq<Ipp>, i: nat, pl: Record): Emission
    requires i < |pers|
  {
    var hello := WithVerb(pl, SRV_PING);
    var f := InnerSends(pers, i, |pers|, hello);
    Emission([To(pers[i], hello)] + f.sends, f.pl)
  }

  /** The outer loop over the first m entries. */
  function OuterSends(pers: seq<Ipp>, m: nat, pl: Record): Emission
    requires m <= |pers|
  {
    if m == 0 then Emission([], pl) else
      var e := OuterSends(pers, m - 1, pl);
      var f := EntrySends(pers, m - 1, e.pl);
      Emission(e.sends + f.sends, f.pl)
  }

  function RoundSends(pers: seq<Ipp>, pl: Record): Emission {
    OuterSends(pers, |pers|, pl)
  }

  // ---------- what each packet of the round is for

  datatype Tag = Hello(to: nat) | Intro(to: nat, about: nat)

  function PairTags(pers: seq<Ipp>, i: nat, j: nat): seq<Tag>
    requires i < |pers| && j < |pers|
  {
    if Opposite(pers, i, j) then [Intro(j, i), Intro(i, j)] else []
  }

  function InnerTags(pers: seq<Ipp>, i: nat, n: nat): seq<Tag>
    requires i < |pers| && n <= |pers|
  {
    if n == 0 then [] else InnerTags(pers, i, n - 1) + PairTags(pers, i, n - 1)
  }

  function EntryTags(pers: seq<Ipp>, i: nat): seq<Tag>
    requires i < |pers|
  {
    [Hello(i)] + InnerTags(pers, i, |pers|)
  }

  function OuterTags(pers: seq<Ipp>, m: nat): seq<Tag>
    requires m <= |pers|
  {
    if m == 0 then [] else OuterTags(pers, m - 1) + EntryTags(pers, m - 1)
  }

  function RoundTags(pers: seq<Ipp>): seq<Tag> {
    OuterTags(pers, |pers|)
  }

  /** The record introduces q: verb SRV_SET_PEER, and q's address, port and keys. */
  predicate Introduces(rec: Record, q: Ipp) {
    && Verb(rec) == SRV_SET_PEER
    && PublicA(rec) == q.a && PublicP(rec) == q.p && PublicKeys(rec) == q.keys
  }

  /** A send fulfils a tag: it goes to the address and under the keys of the row named by `to`. */
  predicate Fulfils(s: Send, pers: seq<Ipp>, tag: Tag) {
    && s.Sealed?
    && match tag
       case Hello(x) => x < |pers| && s == To(pers[x], s.rec) && Verb(s.rec) == SRV_PING
       case Intro(x, y) => x < |pers| && y < |pers| && Opposite(pers, x, y)
                           && s == To(pers[x], s.rec) && Introduces(s.rec, pers[y])
  }

  predicate FulfilAll(ss: seq<Send>, pers: seq<Ipp>, tags: seq<Tag>) {
    |ss| == |tags| && forall k :: 0 <= k < |ss| ==> Fulfils(ss[k], pers, tags[k])
  }

  lemma FulfilAppend(a: seq<Send>, b: seq<Send>, pers: seq<Ipp>, t: seq<Tag>, u: seq<Tag>)
    requires FulfilAll(a, pers, t) && FulfilAll(b, pers, u)
    ensures FulfilAll(a + b, pers, t + u)
  {
    hide Fulfils;
  }

  lemma NoneFulfil(pers: seq<Ipp>)
    ensures FulfilAll([], pers, [])
  {
  }

  lemma PairFulfils(pers: seq<Ipp>, i: nat, j: nat, pl: Record)
    requires i < |pers| && j < |pers|
    ensures FulfilAll(PairSends(pers[i], pers[j], pl).sends, pers, PairTags(pers, i, j))
  {
    hide WithVerb, WithPublic, Verb, PublicA, PublicP, PublicKeys, IppAddr;
    var verb := WithVerb(pl, SRV_SET_PEER);
    var aboutP := WithPublic(verb, pers[i]);
    Written(pl, pers[i], SRV_SET_PEER);
    Written(verb, pers[i], SRV_SET_PEER);
    Written(aboutP, pers[j], SRV_SET_PEER);
  }

  lemma {:induction false} InnerFulfils(pers: seq<Ipp>, i: nat, n: nat, pl: Record)
    requires i < |pers| && n <= |pers|
    ensures FulfilAll(InnerSends(pers, i, n, pl).sends, pers, InnerTags(pers, i, n))
  {
    hide FulfilAll, PairSends, PairTags;
    if n == 0 {
      NoneFulfil(pers);
    } else {
      var e := InnerSends(pers, i, n - 1, pl);
      InnerFulfils(pers, i, n - 1, pl);
      PairFulfils(pers, i, n - 1, e.pl);
      FulfilAppend(e.sends, PairSends(pers[i], pers[n - 1], e.pl).sends, pers, InnerTags(pers, i, n - 1), PairTags(pers, i, n - 1));
    }
  }

  lemma HelloFulfils(pers: seq<Ipp>, i: nat, pl: Record)
    requires i < |pers|
    ensures FulfilAll([To(pers[i], WithVerb(pl, SRV_PING))], pers, [Hello(i)])
  {
    hide WithVerb, Verb, IppAddr;
    Written(pl, pers[i], SRV_PING);
  }

  lemma {:induction false} OuterFulfils(pers: seq<Ipp>, m: nat, pl: Record)
    requires m <= |pers|
    ensures FulfilAll(OuterSends(pers, m, pl).sends, pers, OuterTags(pers, m))
  {
    hide FulfilAll, EntrySends, EntryTags;
    if m == 0 {
      NoneFulfil(pers);
    } else {
      var e := OuterSends(pers, m - 1, pl);
      OuterFulfils(pers, m - 1, pl);
      EntryFulfils(pers, m - 1, e.pl);
      FulfilAppend(e.sends, EntrySends(pers, m - 1, e.pl).sends, pers, OuterTags(pers, m - 1), EntryTags(pers, m - 1));
    }
  }

  lemma EntryFulfils(pers: seq<Ipp>, i: nat, pl: Record)
    requires i < |pers|
    ensures FulfilAll(EntrySends(pers, i, pl).sends, pers, EntryTags(pers, i))
  {
    hide FulfilAll, To, WithVerb, InnerSends, InnerTags;
    var hello := WithVerb(pl, SRV_PING);
    HelloFulfils(pers, i, pl);
    InnerFulfils(pers, i, |pers|, hello);
    FulfilAppend([To(pers[i], hello)], InnerSends(pers, i, |pers|, hello).sends, pers, [Hello(i)], InnerTags(pers, i, |pers|));
  }

  /** The k-th packet of the round fulfils the k-th tag, whatever the reused packet held before. */
  lemma RoundFulfils(pers: seq<Ipp>, pl: Record)
    ensures FulfilAll(RoundSends(pers, pl).sends, pers, RoundTags(pers))
  {
    OuterFulfils(pers, |pers|, pl);
  }

  // ---------- what the reused packet keeps

  /** The bytes that a round never writes: those between the verb and the union, `_t`, and everything
      behind the keys. */
  function Gap(r: Record): seq<u8> {
    r[1..UNION] + r[22..28] + r[44..]
  }

  /** The packet goes through a piece of the round with one and the same gap. */
  ghost predicate GapKept(e: Emission, gap: seq<u8>) {
    Gap(e.pl) == gap && forall s :: s in e.sends ==> s.Sealed? && Gap(s.rec) == gap
  }

  lemma GapWritten(r: Record, q: Ipp, v: u8)
    ensures Gap(WithVerb(r, v)) == Gap(r) && Gap(WithPublic(r, q)) == Gap(r)
  {
    hide WordBytes, HalfBytes, KeyBytes;
    var w, u := WithVerb(r, v), WithPublic(r, q);
    assert w[1..UNION] == r[1..UNION] && w[22..28] == r[22..28] && w[44..] == r[44..];
    assert u[1..UNION] == r[1..UNION] && u[22..28] == r[22..28] && u[44..] == r[44..];
  }

  lemma GapJoined(e: Emission, f: Emission, gap: seq<u8>)
    requires GapKept(e, gap) && GapKept(f, gap)
    ensures GapKept(Emission(e.sends + f.sends, f.pl), gap)
  {
    hide Gap;
  }

  lemma GapPair(p: Ipp, q: Ipp, pl: Record)
    ensures GapKept(PairSends(p, q, pl), Gap(pl))
  {
    hide WithVerb, WithPublic, Gap, IppAddr;
    var verb := WithVerb(pl, SRV_SET_PEER);
    GapWritten(pl, p, SRV_SET_PEER);
    GapWritten(verb, p, SRV_SET_PEER);
    GapWritten(WithPublic(verb, p), q, SRV_SET_PEER);
  }

  lemma {:induction false} GapInner(pers: seq<Ipp>, i: nat, n: nat, pl: Record)
    requires i < |pers| && n <= |pers|
    ensures GapKept(InnerSends(pers, i, n, pl), Gap(pl))
  {
    hide PairSends, Gap;
    if n != 0 {
      var e := InnerSends(pers, i, n - 1, pl);
      GapInner(pers, i, n - 1, pl);
      GapPair(pers[i], pers[n - 1], e.pl);
      GapJoined(e, PairSends(pers[i], pers[n - 1], e.pl), Gap(pl));
    }
  }

  lemma GapEntry(pers: seq<Ipp>, i: nat, pl: Record)
    requires i < |pers|
    ensures GapKept(EntrySends(pers, i, pl), Gap(pl))
  {
    hide InnerSends, Gap, WithVerb, IppAddr;
    var hello := WithVerb(pl, SRV_PING);
    GapWritten(pl, pers[i], SRV_PING);
    GapInner(pers, i, |pers|, hello);
    GapJoined(Emission([To(pers[i], hello)], hello), InnerSends(pers, i, |pers|, hello), Gap(pl));
  }

  lemma {:induction false} GapOuter(pers: seq<Ipp>, m: nat, pl: Record)
    requires m <= |pers|
    ensures GapKept(OuterSends(pers, m, pl), Gap(pl))
  {
    hide EntrySends, Gap;
    if m != 0 {
      var e := OuterSends(pers, m - 1, pl);
      GapOuter(pers, m - 1, pl);
      GapEntry(pers, m - 1, e.pl);
      GapJoined(e, EntrySends(pers, m - 1, e.pl), Gap(pl));
    }
  }

  /** Every packet of the round, and what it leaves, carries these bytes of the packet that the round
      started from: whatever the last datagram left there goes to all rows. */
  lemma RoundGap(pers: seq<Ipp>, pl: Record)
    ensures GapKept(RoundSends(pers, pl), Gap(pl))
  {
    GapOuter(pers, |pers|, pl);
  }

  // ---------- how often

  function One(b: bool): nat {
    if b then 1 else 0
  }

  function Count(tags: seq<Tag>, tag: Tag): nat {
    if tags == [] then 0 else One(tags[0] == tag) + Count(tags[1..], tag)
  }

  lemma {:induction false} CountAppend(a: seq<Tag>, b: seq<Tag>, tag: Tag)
    ensures Count(a + b, tag) == Count(a, tag) + Count(b, tag)
  {
    if a == [] {
      assert a + b == b;
    } else {
      assert (a + b)[1..] == a[1..] + b;
      CountAppend(a[1..], b, tag);
    }
  }

  lemma PairCount(pers: seq<Ipp>, i: nat, j: nat, x: nat, y: nat)
    requires i < |pers| && j < |pers| && x < |pers| && y < |pers|
    ensures Count(PairTags(pers, i, j), Intro(x, y))
         == One(y == i && x == j && Opposite(pers, x, y)) + One(x == i && y == j && Opposite(pers, x, y))
    ensures Count(PairTags(pers, i, j), Hello(x)) == 0
  {
    CountAppend([Intro(j, i)], [Intro(i, j)], Intro(x, y));
    CountAppend([Intro(j, i)], [Intro(i, j)], Hello(x));
    assert [Intro(j, i)] + [Intro(i, j)] == [Intro(j, i), Intro(i, j)];
  }

  lemma {:induction false} InnerCount(pers: seq<Ipp>, i: nat, n: nat, x: nat, y: nat)
    requires i < |pers| && n <= |pers| && x < |pers| && y < |pers|
    ensures Count(InnerTags(pers, i, n), Intro(x, y))
         == One(y == i && x < n && Opposite(pers, x, y)) + One(x == i && y < n && Opposite(pers, x, y))
    ensures Count(InnerTags(pers, i, n), Hello(x)) == 0
  {
    hide PairTags;
    if n != 0 {
      InnerCount(pers, i, n - 1, x, y);
      PairCount(pers, i, n - 1, x, y);
      CountAppend(InnerTags(pers, i, n - 1), PairTags(pers, i, n - 1), Intro(x, y));
      CountAppend(InnerTags(pers, i, n - 1), PairTags(pers, i, n - 1), Hello(x));
    }
  }

  lemma {:induction false} OuterCount(pers: seq<Ipp>, m: nat, x: nat, y: nat)
    requires m <= |pers| && x < |pers| && y < |pers|
    ensures Count(OuterTags(pers, m), Intro(x, y))
         == One(y < m && Opposite(pers, x, y)) + One(x < m && Opposite(pers, x, y))
    ensures Count(OuterTags(pers, m), Hello(x)) == One(x < m)
  {
    hide InnerTags;
    if m != 0 {
      OuterCount(pers, m - 1, x, y);
      InnerCount(pers, m - 1, |pers|, x, y);
      var a, b := OuterTags(pers, m - 1), InnerTags(pers, m - 1, |pers|);
      CountAppend([Hello(m - 1)], b, Intro(x, y));
      CountAppend([Hello(m - 1)], b, Hello(x));
      CountAppend(a, EntryTags(pers, m - 1), Intro(x, y));
      CountAppend(a, EntryTags(pers, m - 1), Hello(x));
    }
  }

  /** Every row is greeted once; of two rows each is introduced to the other exactly twice when
      their roles are opposite, and never when they are the same. */
  lemma IntroducedTwice(pers: seq<Ipp>, x: nat, y: nat)
    requires x < |pers| && y < |pers|
    ensures Count(RoundTags(pers), Intro(x, y)) == if Opposite(pers, x, y) then 2 else 0
    ensures Count(RoundTags(pers), Hello(x)) == 1
  {
    OuterCount(pers, |pers|, x, y);
  }

  /** How many of the first n rows have the role t. */
  function CountRole(pers: seq<Ipp>, n: nat, t: int): nat
    requires n <= |pers|
  {
    if n == 0 then 0 else CountRole(pers, n - 1, t) + One(pers[n - 1].t == t)
  }

  /** Roles are a C++ bool in an INTEGER column. */
  predicate TwoRoles(pers: seq<Ipp>) {
    forall i :: 0 <= i < |pers| ==> pers[i].t == 0 || pers[i].t == 1
  }

  lemma {:induction false} InnerLength(pers: seq<Ipp>, i: nat, n: nat)
    requires i < |pers| && n <= |pers| && TwoRoles(pers)
    ensures |InnerTags(pers, i, n)| == 2 * CountRole(pers, n, 1 - pers[i].t)
  {
    if n != 0 {
      InnerLength(pers, i, n - 1);
    }
  }

  lemma {:induction false} OuterLength(pers: seq<Ipp>, m: nat)
    requires m <= |pers| && TwoRoles(pers)
    ensures CountRole(pers, m, 0) + CountRole(pers, m, 1) == m
    ensures |OuterTags(pers, m)|
         == m + 2 * (CountRole(pers, m, 1) * CountRole(pers, |pers|, 0) + CountRole(pers, m, 0) * CountRole(pers, |pers|, 1))
  {
    hide InnerTags;
    if m != 0 {
      OuterLength(pers, m - 1);
      InnerLength(pers, m - 1, |pers|);
      var c, p := CountRole(pers, |pers|, 0), CountRole(pers, |pers|, 1);
      Distribute(CountRole(pers, m - 1, 1), c);
      Distribute(CountRole(pers, m - 1, 0), p);
      assert |OuterTags(pers, m)| == |OuterTags(pers, m - 1)| + 1 + |InnerTags(pers, m - 1, |pers|)|;
      assert pers[m - 1].t == 0 || pers[m - 1].t == 1;
    }
  }

  lemma Distribute(a: nat, b: nat)
    ensures (a + 1) * b == a * b + b
  {
  }

  /** For P providers and C consumers the round is P + C greetings and 4 * P * C introductions. */
  lemma RoundLength(pers: seq<Ipp>)
    requires TwoRoles(pers)
    ensures var p, c := CountRole(pers, |pers|, 1), CountRole(pers, |pers|, 0);
            |RoundTags(pers)| == p + c + 4 * p * c
  {
    hide CountRole, OuterTags;
    OuterLength(pers, |pers|);
    var p, c := CountRole(pers, |pers|, 1), CountRole(pers, |pers|, 0);
    FourTimes(p, c);
  }

  lemma FourTimes(p: nat, c: nat)
    ensures 2 * (p * c + c * p) == 4 * p * c
  {
    var x := p * c;
    assert c * p == x && 4 * p * c == 4 * x;
  }

}
