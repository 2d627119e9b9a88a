/** sock.h: the socket address SADDR_46 with its range mask, its comparison operators, and the
    std::set<SADDR_46> that a peer keeps. */
module Endpoints {
  import opened Bytes

  /** Address and port in network order, as memory holds them, and the mask. */
  datatype Endpoint = Endpoint(addr: u32, port: u16, mask: u32)

  const FULL_MASK: u32 := 0xFFFF_FFFF

  /** The 64-bit number the operators build: the masked address shifted left by 32, and the port.
      The program widens the mask to 64 bits with its sign, which changes no bit of a 32-bit
      address. */
  function BigInt(e: Endpoint, m: u32): nat {
    And(e.addr, m) * M32 + e.port
  }

  /** operator == */
  predicate Eq(a: Endpoint, b: Endpoint) {
    var m := And(a.mask, b.mask);
    if a.port == 0 || b.port == 0 then And(a.addr, m) == And(b.addr, m) else BigInt(a, m) == BigInt(b, m)
  }

  /** operator != */
  predicate Ne(a: Endpoint, b: Endpoint) {
    var m := And(a.mask, b.mask);
    if a.port == 0 && b.port == 0 then And(a.addr, m) != And(b.addr, m) else BigInt(a, m) != BigInt(b, m)
  }

  /** operator < */
  predicate Lt(a: Endpoint, b: Endpoint) {
    var m := And(a.mask, b.mask);
    if a.port == 0 || b.port == 0 then And(a.addr, m) < And(b.addr, m) else BigInt(a, m) < BigInt(b, m)
  }

  /** operator > */
  predicate Gt(a: Endpoint, b: Endpoint) {
    var m := And(a.mask, b.mask);
    if a.port == 0 || b.port == 0 then And(a.addr, m) > And(b.addr, m) else BigInt(a, m) > BigInt(b, m)
  }

  /** What std::set takes for sameness. */
  predicate Equivalent(a: Endpoint, b: Endpoint) {
    !Lt(a, b) && !Lt(b, a)
  }

  lemma {:induction false} AndBitsCommutes(a: nat, b: nat, n: nat)
    ensures AndBits(a, b, n) == AndBits(b, a, n)
  {
    if n != 0 {
      AndBitsCommutes(a / 2, b / 2, n - 1);
    }
  }

  lemma {:induction false} AndBitsIdempotent(a: nat, n: nat)
    requires a < Pow2(n)
    ensures AndBits(a, a, n) == a
  {
    if n != 0 {
      AndBitsIdempotent(a / 2, n - 1);
    }
  }

  lemma AndFacts(a: u32, b: u32)
    ensures And(a, b) == And(b, a)
    ensures And(a, a) == a
    ensures And(a, 0) == 0 == And(0, a)
  {
    AndBitsCommutes(a, b, 32);
    Pow2At32();
    AndBitsIdempotent(a, 32);
    AndBitsZero(a, 32);
    AndBitsCommutes(a, 0, 32);
  }

  lemma BigIntOrder(x: nat, p: u16, y: nat, q: u16)
    ensures x * M32 + p < y * M32 + q <==> x < y || (x == y && p < q)
  {
  }

  /** The operators are two-sided: > is the converse of <, and == and the equivalence do not
      depend on the order of their operands. */
  lemma Converse(a: Endpoint, b: Endpoint)
    ensures Gt(a, b) <==> Lt(b, a)
    ensures Eq(a, b) <==> Eq(b, a)
  {
    hide And;
    AndFacts(a.mask, b.mask);
  }

  /** != is the negation of == except when exactly one port is zero and the masked addresses
      agree: then both hold. */
  lemma NeIsNotEq(a: Endpoint, b: Endpoint)
    ensures (Ne(a, b) <==> !Eq(a, b))
       <==> !((a.port == 0) != (b.port == 0) && And(a.addr, And(a.mask, b.mask)) == And(b.addr, And(a.mask, b.mask)))
  {
    hide And;
    var m := And(a.mask, b.mask);
    BigIntOrder(And(a.addr, m), a.port, And(b.addr, m), b.port);
    BigIntOrder(And(b.addr, m), b.port, And(a.addr, m), a.port);
  }

  /** The endpoints compared under one mask. */
  ghost predicate Under(s: set<Endpoint>, mask: u32) {
    forall e :: e in s ==> e.mask == mask
  }

  ghost predicate StrictWeakOrder(s: set<Endpoint>) {
    && (forall a :: a in s ==> !Lt(a, a))
    && (forall a, b, c :: a in s && b in s && c in s && Lt(a, b) && Lt(b, c) ==> Lt(a, c))
    && (forall a, b, c :: a in s && b in s && c in s && Equivalent(a, b) && Equivalent(b, c) ==> Equivalent(a, c))
  }

  /** A wildcard port between two different ports of one address. */
  ghost predicate PortClash(z: Endpoint, x: Endpoint, y: Endpoint) {
    && z.port == 0 && x.port != 0 && y.port != 0 && x.port != y.port
    && And(x.addr, z.mask) == And(z.addr, z.mask) == And(y.addr, z.mask)
  }

  ghost predicate ClashFree(s: set<Endpoint>) {
    forall z, x, y :: z in s && x in s && y in s ==> !PortClash(z, x, y)
  }

  /** < between two endpoints under one mask, spelled out. */
  lemma LtUnder(a: Endpoint, b: Endpoint)
    requires a.mask == b.mask
    ensures Lt(a, b) <==> (|| And(a.addr, a.mask) < And(b.addr, a.mask)
                           || (And(a.addr, a.mask) == And(b.addr, a.mask) && 0 < a.port < b.port))
    ensures Eq(a, b) <==> And(a.addr, a.mask) == And(b.addr, a.mask) && (a.port == b.port || a.port == 0 || b.port == 0)
  {
    hide And;
    AndFacts(a.mask, a.mask);
    var m := a.mask;
    BigIntOrder(And(a.addr, m), a.port, And(b.addr, m), b.port);
    BigIntOrder(And(b.addr, m), b.port, And(a.addr, m), a.port);
  }

  /** std::set's equivalence is the code's ==, for endpoints under one mask. */
  lemma EquivalentIsEq(a: Endpoint, b: Endpoint)
    requires a.mask == b.mask
    ensures Equivalent(a, b) <==> Eq(a, b)
  {
    hide And;
    LtUnder(a, b);
    LtUnder(b, a);
  }

  lemma OrderIfClashFree(s: set<Endpoint>, mask: u32)
    requires Under(s, mask) && ClashFree(s)
    ensures StrictWeakOrder(s)
  {
    hide And, Lt, Eq;
    forall a | a in s
      ensures !Lt(a, a)
    {
      LtUnder(a, a);
    }
    forall a, b, c | a in s && b in s && c in s
      ensures Lt(a, b) && Lt(b, c) ==> Lt(a, c)
      ensures Equivalent(a, b) && Equivalent(b, c) ==> Equivalent(a, c)
    {
      LtUnder(a, b); LtUnder(b, a);
      LtUnder(b, c); LtUnder(c, b);
      LtUnder(a, c); LtUnder(c, a);
      assert !PortClash(b, a, c) && !PortClash(a, b, c) && !PortClash(c, a, b);
    }
  }

  lemma ClashBreaksOrder(z: Endpoint, x: Endpoint, y: Endpoint)
    requires z.mask == x.mask == y.mask && PortClash(z, x, y)
    ensures Equivalent(x, z) && Equivalent(z, y) && !Equivalent(x, y)
  {
    hide And, Lt, Eq;
    LtUnder(x, z); LtUnder(z, x);
    LtUnder(z, y); LtUnder(y, z);
    LtUnder(x, y); LtUnder(y, x);
  }

  /** Exactly when < orders a set of endpoints under one mask: no endpoint with port zero has the
      masked address of two endpoints with different ports. */
  lemma OrderExactly(s: set<Endpoint>, mask: u32)
    requires Under(s, mask)
    ensures StrictWeakOrder(s) <==> ClashFree(s)
  {
    if ClashFree(s) {
      OrderIfClashFree(s, mask);
    } else {
      var z, x, y :| z in s && x in s && y in s && PortClash(z, x, y);
      ClashBreaksOrder(z, x, y);
    }
  }

  /** In particular among endpoints with ports, where the equivalence is equality of masked address
      and port. */
  lemma PortedOrder(s: set<Endpoint>, mask: u32)
    requires Under(s, mask) && forall e :: e in s ==> e.port != 0
    ensures StrictWeakOrder(s)
    ensures forall a, b :: a in s && b in s ==>
              (Equivalent(a, b) <==> And(a.addr, mask) == And(b.addr, mask) && a.port == b.port)
  {
    hide And, Lt, Eq;
    OrderExactly(s, mask);
    forall a, b | a in s && b in s
      ensures Equivalent(a, b) <==> And(a.addr, mask) == And(b.addr, mask) && a.port == b.port
    {
      EquivalentIsEq(a, b);
      LtUnder(a, b);
    }
  }

  /** An endpoint as `udp_sock::receive` leaves it: the whole structure is zeroed first, so the mask
      is zero. */
  function Received(addr: u32, port: u16): Endpoint {
    Endpoint(addr, port, 0)
  }

  /** Compared with anything, a received endpoint is its port alone. */
  lemma ReceivedComparesPorts(addr: u32, port: u16, e: Endpoint)
    requires port != 0 && e.port != 0
    ensures Eq(Received(addr, port), e) <==> port == e.port
    ensures Eq(e, Received(addr, port)) <==> port == e.port
    ensures Lt(Received(addr, port), e) <==> port < e.port
    ensures Lt(e, Received(addr, port)) <==> e.port < port
  {
    hide And;
    AndFacts(e.mask, 0);
    AndFacts(addr, 0);
    AndFacts(e.addr, 0);
  }

  /** A std::set<SADDR_46>, as the sequence in which it iterates; insertion walks up the order and
      does nothing when it meets an equivalent element. */
  function Insert(s: seq<Endpoint>, e: Endpoint): seq<Endpoint> {
    if s == [] || Lt(e, s[0]) then [e] + s
    else if Lt(s[0], e) then [s[0]] + Insert(s[1..], e)
    else s
  }

  /** A set of received endpoints with ports: iterated in the order of the ports, no port twice. */
  predicate PortSorted(s: seq<Endpoint>) {
    && (forall i :: 0 <= i < |s| ==> s[i].port != 0 && s[i].mask == 0)
    && (forall i, j :: 0 <= i < j < |s| ==> s[i].port < s[j].port)
  }

  lemma SortedTail(s: seq<Endpoint>)
    requires PortSorted(s) && s != []
    ensures PortSorted(s[1..]) && s[0].port != 0 && s[0].mask == 0
    ensures forall x :: x in s[1..] ==> s[0].port < x.port
  {
  }

  lemma SortedCons(x: Endpoint, s: seq<Endpoint>)
    requires PortSorted(s) && x.port != 0 && x.mask == 0
    requires forall y :: y in s ==> x.port < y.port
    ensures PortSorted([x] + s)
  {
    forall j | 0 <= j < |s|
      ensures x.port < s[j].port
    {
      assert s[j] in s;
    }
  }

  lemma InCons(x: Endpoint, s: seq<Endpoint>)
    ensures forall y :: y in [x] + s <==> y == x || y in s
  {
  }

  /** Insertion keeps the order and every element, adds nothing else, and takes the new endpoint in
      exactly when its port is new or it is already there: one endpoint a port. */
  lemma {:induction false} InsertReceived(s: seq<Endpoint>, addr: u32, port: u16)
    requires PortSorted(s) && port != 0
    ensures var r, e := Insert(s, Received(addr, port)), Received(addr, port);
            && PortSorted(r) && r != []
            && (forall x :: x in s ==> x in r)
            && (forall x :: x in r ==> x in s || x == e)
            && (e in r <==> forall x :: x in s && x.port == port ==> x == e)
  {
    hide And, Lt, PortSorted;
    var e := Received(addr, port);
    if s == [] {
      SortedCons(e, s);
    } else {
      SortedTail(s);
      ReceivedComparesPorts(addr, port, s[0]);
      assert s == [s[0]] + s[1..];
      InCons(s[0], s[1..]);
      if s[0].port < port {
        InsertReceived(s[1..], addr, port);
        SortedCons(s[0], Insert(s[1..], e));
        InCons(s[0], Insert(s[1..], e));
      } else if port < s[0].port {
        SortedCons(e, s);
        InCons(e, s);
      }
    }
  }

  /** How many elements the code's == matches. */
  function Matches(s: seq<Endpoint>, e: Endpoint): nat {
    if s == [] then 0 else (if Eq(s[0], e) then 1 else 0) + Matches(s[1..], e)
  }

  /** A received endpoint matches at most one element of a peer's set, and one exactly when its port
      is there. */
  lemma {:induction false} MatchesOnce(s: seq<Endpoint>, addr: u32, port: u16)
    requires PortSorted(s) && port != 0
    ensures Matches(s, Received(addr, port)) == if exists x :: x in s && x.port == port then 1 else 0
  {
    hide And, Eq;
    if s != [] {
      ReceivedComparesPorts(addr, port, s[0]);
      MatchesOnce(s[1..], addr, port);
      assert forall x :: x in s <==> x == s[0] || x in s[1..];
    }
  }

}
