/** peers.cpp: the pairing registry. Two registrants that name the same pair meet in one entry: the
    first fills side a, the second side b. */
module Pairing {
  import opened Bytes
  import opened Text
  import opened Xtea
  import opened Records

  const TTLIVE: int := 15
  const LOOPBACK: u32 := 0x7f00_0001

  datatype PerPair = PerPair(a0: Ipp, a1: Ipp, b0: Ipp, b1: Ipp, born: int)

  type Pairs = map<string, PerPair>

  /** The keys that the local `per_pair` of `add` holds before anything is assigned to them. */
  datatype Junk = Junk(b0: Key, b1: Key)

  /** ipp::operator=, which leaves the type of its target alone. */
  function Assign(target: Ipp, source: Ipp): Ipp {
    Ipp(source.a, source.p, target.t, source.keys)
  }

  /** ipp::operator==, which compares the type and not the keys. */
  predicate Same(l: Ipp, r: Ipp) {
    l.a == r.a && l.p == r.p && l.t == r.t
  }

  /** What `_pairs[n] = pa` stores for one ipp of `pa`: the slot that the map made is zero, and keeps
      its type. */
  function Stored(source: Ipp): Ipp {
    Assign(Ipp(0, 0, 0, Key(0, 0, 0, 0)), source)
  }

  function NewPair(p: Ipp, q: Ipp, now: int, junk: Junk): PerPair {
    PerPair(Stored(p), Stored(q), Stored(Ipp(0, 0, 0, junk.b0)), Stored(Ipp(0, 0, 0, junk.b1)), now)
  }

  predicate FilledA(e: PerPair) {
    e.a0.p != 0
  }

  predicate FilledB(e: PerPair) {
    e.b0.p != 0
  }

  predicate Full(e: PerPair) {
    FilledA(e) && FilledB(e)
  }

  /** The comparison of an entry with the two endpoints that come in. */
  predicate Repeats(e: PerPair, p: Ipp, q: Ipp) {
    || Same(e.a0, p) || Same(e.a0, q)
    || ((Same(e.a1, p) || Same(e.a1, q)) && p.a != LOOPBACK && q.a != LOOPBACK)
  }

  function Meet(e: PerPair, p: Ipp, q: Ipp): PerPair {
    if !FilledA(e) then e.(a0 := Assign(e.a0, p), a1 := Assign(e.a1, q))
    else if !FilledB(e) && !Repeats(e, p, q) then e.(b0 := Assign(e.b0, p), b1 := Assign(e.b1, q))
    else e
  }

  function AddTo(pairs: Pairs, n: string, p: Ipp, q: Ipp, now: int, junk: Junk): Pairs {
    if n in pairs then pairs[n := Meet(pairs[n], p, q)] else pairs[n := NewPair(p, q, now, junk)]
  }

  predicate Answers(pairs: Pairs, n: string, p: Ipp, q: Ipp) {
    n in pairs && !(FilledA(pairs[n]) && !FilledB(pairs[n]) && Repeats(pairs[n], p, q))
  }

  predicate Expired(e: PerPair, now: int) {
    now - e.born > TTLIVE
  }

  function Young(pairs: Pairs, now: int): Pairs {
    map n | n in pairs && !Expired(pairs[n], now) :: pairs[n]
  }

  // ---------- runs

  datatype Op =
    | Add(n: string, p: Ipp, q: Ipp, now: int, junk: Junk)
    | Remove(n: string)
    | DelOldies(now: int)

  function Apply(pairs: Pairs, op: Op): Pairs {
    match op
    case Add(n, p, q, now, junk) => AddTo(pairs, n, p, q, now, junk)
    case Remove(n) => pairs - {n}
    case DelOldies(now) => Young(pairs, now)
  }

  function RunFrom(pairs: Pairs, ops: seq<Op>): Pairs {
    if ops == [] then pairs else Apply(RunFrom(pairs, ops[..|ops| - 1]), ops[|ops| - 1])
  }

  function Run(ops: seq<Op>): Pairs {
    RunFrom(map[], ops)
  }

  /** The operation takes away an entry with this name and birth. */
  predicate Takes(op: Op, n: string, born: int) {
    match op
    case Add(_, _, _, _, _) => false
    case Remove(m) => m == n
    case DelOldies(now) => now - born > TTLIVE
  }

  predicate Spared(ops: seq<Op>, from: nat, n: string, born: int) {
    forall k :: from <= k < |ops| ==> !Takes(ops[k], n, born)
  }

  /** In every state: the stored types are zero, and side b is filled only if side a is. */
  ghost predicate PairInv(pairs: Pairs) {
    forall n :: n in pairs ==> PairOk(pairs[n])
  }

  ghost predicate PairOk(e: PerPair) {
    e.a0.t == 0 && e.a1.t == 0 && e.b0.t == 0 && e.b1.t == 0 && (FilledB(e) ==> FilledA(e))
  }

  lemma {:induction false} EveryState(ops: seq<Op>)
    ensures PairInv(Run(ops))
  {
    if ops != [] {
      EveryState(ops[..|ops| - 1]);
    }
  }

  lemma MeetKeeps(e: PerPair, p: Ipp, q: Ipp)
    ensures var e' := Meet(e, p, q); e'.born == e.born && (Full(e) ==> e' == e)
    ensures FilledA(e) ==> Meet(e, p, q).a0 == e.a0 && Meet(e, p, q).a1 == e.a1
  {
  }

  /** An entry is there until it is removed or expires, exactly; its birth never changes, and once both
      sides are filled nothing of it does. */
  lemma {:induction false} StaysUntilTaken(pairs: Pairs, ops: seq<Op>, n: string)
    requires n in pairs
    ensures var t := RunFrom(pairs, ops);
            Spared(ops, 0, n, pairs[n].born)
            ==> n in t && t[n].born == pairs[n].born && (Full(pairs[n]) ==> t[n] == pairs[n])
    ensures !Spared(ops, 0, n, pairs[n].born) ==>
              exists k :: 0 <= k < |ops| && n in RunFrom(pairs, ops[..k]) && n !in RunFrom(pairs, ops[..k + 1])
  {
    hide Meet, NewPair;
    if ops != [] {
      var last := |ops| - 1;
      StaysUntilTaken(pairs, ops[..last], n);
      if Spared(ops[..last], 0, n, pairs[n].born) {
        var s := RunFrom(pairs, ops[..last]);
        if ops[last].Add? && ops[last].n == n {
          MeetKeeps(s[n], ops[last].p, ops[last].q);
        }
        if Takes(ops[last], n, pairs[n].born) {
          assert ops[..last + 1] == ops;
          assert n in RunFrom(pairs, ops[..last]) && n !in RunFrom(pairs, ops[..last + 1]);
        } else {
          assert Spared(ops, 0, n, pairs[n].born);
        }
      } else {
        var k :| 0 <= k < last && n in RunFrom(pairs, ops[..last][..k]) && n !in RunFrom(pairs, ops[..last][..k + 1]);
        assert ops[..last][..k] == ops[..k] && ops[..last][..k + 1] == ops[..k + 1];
      }
    }
  }

  /** Sockets have ports: every registrant comes in with one. */
  predicate Ported(ops: seq<Op>) {
    forall k :: 0 <= k < |ops| && ops[k].Add? ==> ops[k].p.p != 0
  }

  /** Operation i of the run made this entry, and nothing took it since. */
  ghost predicate MadeBy(ops: seq<Op>, i: nat, n: string, e: PerPair) {
    && i < |ops| && ops[i].Add? && ops[i].n == n && n !in Run(ops[..i])
    && e.a0 == Stored(ops[i].p) && e.a1 == Stored(ops[i].q) && e.born == ops[i].now && Spared(ops, i, n, e.born)
  }

  /** Operation j joined it: it brought side b, and did not repeat side a. */
  ghost predicate JoinedBy(ops: seq<Op>, j: nat, n: string, e: PerPair) {
    && j < |ops| && ops[j].Add? && ops[j].n == n
    && e.b0 == Stored(ops[j].p) && e.b1 == Stored(ops[j].q) && !Repeats(e, ops[j].p, ops[j].q)
  }

  ghost predicate Explained(ops: seq<Op>, n: string, e: PerPair) {
    exists i :: MadeBy(ops, i, n, e) && (FilledB(e) ==> exists j :: i < j && JoinedBy(ops, j, n, e))
  }

  /** The comparison looks at side a only. */
  lemma RepeatsA(e: PerPair, e': PerPair, p: Ipp, q: Ipp)
    requires e.a0 == e'.a0 && e.a1 == e'.a1
    ensures Repeats(e, p, q) == Repeats(e', p, q)
  {
  }

  lemma MadeGrows(ops: seq<Op>, op: Op, i: nat, n: string, e: PerPair, e': PerPair)
    requires MadeBy(ops, i, n, e) && e.a0 == e'.a0 && e.a1 == e'.a1 && e.born == e'.born && !Takes(op, n, e.born)
    ensures MadeBy(ops + [op], i, n, e')
  {
    hide Run, Takes;
    assert (ops + [op])[..i] == ops[..i];
  }

  /** One more operation: the explanation of what is left in the entry still stands. */
  lemma ExplainedGrows(ops: seq<Op>, op: Op, n: string, e: PerPair, e': PerPair)
    requires Explained(ops, n, e) && e.a0 == e'.a0 && e.a1 == e'.a1 && e.born == e'.born && !Takes(op, n, e.born)
    requires e' == e || (!FilledB(e) && JoinedBy(ops + [op], |ops|, n, e'))
    ensures Explained(ops + [op], n, e')
  {
    hide Run, Takes, MadeBy, Repeats;
    var i: nat :| MadeBy(ops, i, n, e) && (FilledB(e) ==> exists j :: i < j && JoinedBy(ops, j, n, e));
    assert i < |ops| by { MadeInside(ops, i, n, e); }
    MadeGrows(ops, op, i, n, e, e');
    if e' == e && FilledB(e) {
      var j: nat :| i < j && JoinedBy(ops, j, n, e);
      assert JoinedBy(ops + [op], j, n, e');
    }
  }

  lemma MadeInside(ops: seq<Op>, i: nat, n: string, e: PerPair)
    requires MadeBy(ops, i, n, e)
    ensures i < |ops|
  {
  }

  lemma MadeLast(ops: seq<Op>, op: Op, n: string, e: PerPair)
    requires op.Add? && op.n == n && n !in Run(ops) && e == NewPair(op.p, op.q, op.now, op.junk)
    ensures Explained(ops + [op], n, e)
  {
    hide Run, Repeats;
    assert (ops + [op])[..|ops|] == ops;
    assert MadeBy(ops + [op], |ops|, n, e);
  }

  /** Every entry of every run has side a from the registrant that made it and, if side b is filled,
      side b from a later registrant under the same name that was not a repeat. */
  lemma {:induction false} EveryEntry(ops: seq<Op>, n: string)
    requires Ported(ops) && n in Run(ops)
    ensures FilledA(Run(ops)[n]) && Explained(ops, n, Run(ops)[n])
  {
    hide Repeats, Explained;
    var last := |ops| - 1;
    var before, op := ops[..last], ops[last];
    assert ops == before + [op];
    var s, e' := Run(before), Run(ops)[n];
    EveryState(before);
    if n in s {
      EveryEntry(before, n);
      var e := s[n];
      if e' != e {
        RepeatsA(e, e', op.p, op.q);
      }
      ExplainedGrows(before, op, n, e, e');
    } else {
      MadeLast(before, op, n, e');
    }
  }

  /** `add` answers true exactly when both sides are filled afterwards and the entry is not new, unless
      side a was left without a port, or side b is given none. */
  lemma AnswerExactly(pairs: Pairs, n: string, p: Ipp, q: Ipp, now: int, junk: Junk)
    requires PairInv(pairs)
    ensures var full := n in pairs && Full(AddTo(pairs, n, p, q, now, junk)[n]);
            Answers(pairs, n, p, q) == full
            <==> !(n in pairs && (!FilledA(pairs[n]) || (!FilledB(pairs[n]) && p.p == 0 && !Repeats(pairs[n], p, q))))
  {
    hide Repeats;
    if n in pairs {
      assert PairOk(pairs[n]);
    }
  }

  /** With ports it is exact in every run, and a full pair is what it answers for. */
  lemma PortedAnswer(ops: seq<Op>, n: string, p: Ipp, q: Ipp, now: int, junk: Junk)
    requires Ported(ops) && p.p != 0
    ensures var s, t := Run(ops), Run(ops + [Add(n, p, q, now, junk)]);
            Answers(s, n, p, q) <==> n in s && Full(t[n])
  {
    hide Repeats;
    var more := ops + [Add(n, p, q, now, junk)];
    assert more[..|more| - 1] == ops;
    EveryState(ops);
    AnswerExactly(Run(ops), n, p, q, now, junk);
    if n in Run(ops) {
      EveryEntry(ops, n);
    }
  }

  /** An entry that was left without a port on side a takes the next registrant there, whoever it is, and
      keeps its birth and side b; a rejected repeat changes nothing. */
  lemma RefillExactly(pairs: Pairs, n: string, p: Ipp, q: Ipp, now: int, junk: Junk)
    requires n in pairs
    ensures var e, e' := pairs[n], AddTo(pairs, n, p, q, now, junk)[n];
            && (e.a0.p == 0 ==>
                  && Answers(pairs, n, p, q) && e'.b0 == e.b0 && e'.b1 == e.b1 && e'.born == e.born
                  && e'.a0.a == p.a && e'.a0.p == p.p && e'.a0.keys == p.keys && e'.a0.t == e.a0.t
                  && e'.a1.a == q.a && e'.a1.p == q.p && e'.a1.keys == q.keys && e'.a1.t == e.a1.t)
            && (!Answers(pairs, n, p, q) ==> AddTo(pairs, n, p, q, now, junk) == pairs)
  {
    hide Repeats;
  }

  /** An incoming endpoint meets a slot: same address and port, and role 0, as all slots have. */
  predicate Hits(slot: Ipp, x: Ipp) {
    x.t == 0 && x.a == slot.a && x.p == slot.p
  }

  /** Who may join an entry that has side a alone, in any reachable state: whoever brings neither endpoint
      on the first slot, and neither on the second, where a registrant on 127.0.0.1 may. */
  lemma JoinExactly(pairs: Pairs, n: string, p: Ipp, q: Ipp, now: int, junk: Junk)
    requires PairInv(pairs) && n in pairs && pairs[n].a0.p != 0 && pairs[n].b0.p == 0
    ensures var e, e' := pairs[n], AddTo(pairs, n, p, q, now, junk)[n];
            var local := p.a == 0x7f00_0001 || q.a == 0x7f00_0001;
            && (Answers(pairs, n, p, q)
                <==> !Hits(e.a0, p) && !Hits(e.a0, q) && (local || (!Hits(e.a1, p) && !Hits(e.a1, q))))
            && (Answers(pairs, n, p, q) ==>
                  && e'.a0 == e.a0 && e'.a1 == e.a1 && e'.born == e.born
                  && e'.b0 == Ipp(p.a, p.p, 0, p.keys) && e'.b1 == Ipp(q.a, q.p, 0, q.keys))
  {
    assert PairOk(pairs[n]);
  }

  /** The check for repeats is meant to keep a registrant from being paired with itself. It compares
      types that are never stored, so it does exactly when this holds. */
  predicate RepeatSeen(p: Ipp, q: Ipp) {
    p.t == 0 || (q.t == 0 && ((p.a == q.a && p.p == q.p) || (p.a != LOOPBACK && q.a != LOOPBACK)))
  }

  lemma PairedWithItselfExactly(ops: seq<Op>, n: string, p: Ipp, q: Ipp, now: int, junk: Junk)
    requires n !in Run(ops) && p.p != 0
    ensures var once := ops + [Add(n, p, q, now, junk)];
            Answers(Run(once), n, p, q) <==> !RepeatSeen(p, q)
  {
    var once := ops + [Add(n, p, q, now, junk)];
    assert once[..|once| - 1] == ops;
  }

  /** For instance any registrant of type 1 on both its endpoints. */
  lemma PairedWithItself(p: Ipp, q: Ipp, now: int, junk: Junk)
    requires p.p != 0 && p.t == 1 && q.t == 1
    ensures Full(Run([Add("x", p, q, now, junk), Add("x", p, q, now, junk)])["x"])
  {
    var op := Add("x", p, q, now, junk);
    assert [op][..0] == [] && [op, op][..1] == [op];
    assert Run([op]) == Apply(Run([]), op);
  }

  /** Expiries in time order: the later one alone would have done. */
  lemma YoungTwice(pairs: Pairs, now: int, later: int)
    requires now <= later
    ensures Young(Young(pairs, now), later) == Young(pairs, later)
  {
  }

  class Peers {
    var pairs: Pairs

    constructor ()
      ensures pairs == map[]
    {
      pairs := map[];
    }

    method Remove(n: string)
      modifies this
      ensures pairs == Apply(old(pairs), Op.Remove(n))
    {
      if n in pairs {
        pairs := pairs - {n};
      }
    }

    method Add(n: string, p: Ipp, q: Ipp, now: int, junk: Junk) returns (r: bool)
      modifies this
      ensures pairs == Apply(old(pairs), Op.Add(n, p, q, now, junk))
      ensures r == Answers(old(pairs), n, p, q)
    {
      if n in pairs {
        var rpp := pairs[n];
        if rpp.a0.p == 0 {
          rpp := rpp.(a0 := Assign(rpp.a0, p));
          rpp := rpp.(a1 := Assign(rpp.a1, q));
        } else if rpp.b0.p == 0 {
          if Same(rpp.a0, p) || Same(rpp.a0, q) {
            return false;
          }
          if Same(rpp.a1, p) || Same(rpp.a1, q) {
            if p.a != LOOPBACK && q.a != LOOPBACK {
              return false;
            }
          }
          rpp := rpp.(b0 := Assign(rpp.b0, p));
          rpp := rpp.(b1 := Assign(rpp.b1, q));
        }
        pairs := pairs[n := rpp];
        return true;
      }
      pairs := pairs[n := NewPair(p, q, now, junk)];
      r := false;
    }

    method Find(n: string) returns (r: Option<PerPair>)
      ensures r == if n in pairs then Some(pairs[n]) else None
    {
      r := if n in pairs then Some(pairs[n]) else None;
    }

    /** The loop starts over after every deletion; whatever order the map is walked in, it ends, and
        leaves exactly the young entries. */
    method DelOldies(now: int)
      modifies this
      ensures pairs == Apply(old(pairs), Op.DelOldies(now))
      ensures forall n :: n in pairs <==> n in old(pairs) && now - old(pairs)[n].born <= 15
      ensures forall n :: n in pairs ==> pairs[n] == old(pairs)[n]
    {
      var again := true;
      while again
        invariant Young(pairs, now) == Young(old(pairs), now)
        invariant !again ==> forall n :: n in pairs ==> !Expired(pairs[n], now)
        decreases |pairs|, again
      {
        again := false;
        var rest := pairs.Keys;
        while rest != {}
          invariant rest <= pairs.Keys
          invariant forall n :: n in pairs && n !in rest ==> !Expired(pairs[n], now)
          decreases |rest|
        {
          var n :| n in rest;
          if now - pairs[n].born > TTLIVE {
            YoungWithout(pairs, n, now);
            ghost var was := pairs;
            pairs := pairs - {n};
            Fewer(was, n);
            again := true;
            break;
          }
          rest := rest - {n};
        }
      }
    }
  }

  lemma Fewer(pairs: Pairs, n: string)
    requires n in pairs
    ensures |pairs - {n}| < |pairs|
  {
    assert (pairs - {n}).Keys == pairs.Keys - {n};
  }

  lemma YoungWithout(pairs: Pairs, n: string, now: int)
    requires n in pairs && Expired(pairs[n], now)
    ensures Young(pairs - {n}, now) == Young(pairs, now)
  {
  }

}
