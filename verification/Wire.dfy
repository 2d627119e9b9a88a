/** udp_xdea.cpp: the `send` overloads that choose the key, and what reaches the network. */
module Wires {
  import opened Bytes
  import opened Text
  import opened Xtea
  import opened Cipher
  import opened Endpoints
  import opened Records

  const MAX_UDP: nat := 10024

  /** An address and port in network order. */
  datatype Addr = Addr(ip: u32, port: u16)

  datatype Datagram = Datagram(to: Addr, payload: seq<u8>)

  /** A datagram from the socket: its source, as received, and its bytes. */
  datatype Inbound = Inbound(src: Addr, payload: seq<u8>)

  /** What a sender hands to `send`: plain bytes, or a record with the key it goes under. */
  datatype Send =
    | Plain(to: Addr, data: seq<u8>)
    | Sealed(to: Addr, key: Key, rec: Record)

  function Payload(s: Send): seq<u8> {
    match s
    case Plain(_, data) => data
    case Sealed(_, key, rec) => Seal(key, rec)
  }

  function Wire(s: Send): Datagram {
    Datagram(s.to, Payload(s))
  }

  function WireAll(ss: seq<Send>): (r: seq<Datagram>)
    ensures |r| == |ss|
    ensures forall i :: 0 <= i < |ss| ==> r[i] == Wire(ss[i])
  {
    seq(|ss|, i requires 0 <= i < |ss| => Wire(ss[i]))
  }

  lemma WireNone()
    ensures WireAll([]) == []
  {
  }

  lemma WireAppend(a: seq<Send>, b: seq<Send>)
    ensures WireAll(a + b) == WireAll(a) + WireAll(b)
  {
  }

  /** ipp(SADDR_46&): host order. */
  function IppA(a: Addr): u32 {
    Swap32(a.ip)
  }

  function IppP(a: Addr): u16 {
    Swap16(a.port)
  }

  /** The address that the `ipp` overload of send computes. */
  function AddrOf(a: u32, p: u16): Addr {
    Addr(Swap32(a), Swap16(p))
  }

  function IppAddr(q: Ipp): Addr {
    AddrOf(q.a, q.p)
  }

  lemma AddrReturns(a: Addr)
    ensures AddrOf(IppA(a), IppP(a)) == a
  {
    Swap32Involution(a.ip);
    Swap16Involution(a.port);
  }

  class UdpXdea {
    var buff: array<u8>
    var outbox: seq<Datagram>

    ghost predicate Valid()
      reads this
    {
      buff.Length == MAX_UDP
    }

    constructor ()
      ensures Valid() && fresh(buff) && outbox == []
    {
      buff, outbox := new u8[MAX_UDP], [];
    }

    /** send(buff, length, rsin, keys): with keys the bytes go out enciphered, without them as they
        are. */
    method SendKeyed(data: seq<u8>, to: Addr, keys: Option<Key>, junk: seq<u8>)
      requires Valid() && |data| <= MAX_UDP && |junk| == BLOCK_SIZE
      modifies this`outbox, buff
      ensures Valid()
      ensures outbox == old(outbox) + [Datagram(to, if keys.Some? then EdOf(data, XteaMap(keys.value, true), junk) else data)]
    {
      hide EdOf, XteaMap;
      if keys.Some? {
        Ed(data, buff, keys.value, true, junk);
        outbox := outbox + [Datagram(to, buff[..|data|])];
      } else {
        outbox := outbox + [Datagram(to, data)];
      }
    }

    /** A record under a key. */
    method SendRecord(rec: Record, to: Addr, key: Key)
      requires Valid()
      modifies this`outbox, buff
      ensures Valid()
      ensures outbox == old(outbox) + WireAll([Sealed(to, key, rec)])
    {
      hide EdOf, XteaMap, Seal;
      var junk := seq(BLOCK_SIZE, _ => 0);
      EdIsSeal(key, rec, junk);
      SendKeyed(rec, to, Some(key), junk);
    }

    /** send(buff, length, ipa, encrypt = true): the key is the entry's own. */
    method SendIpp(rec: Record, to: Ipp)
      requires Valid()
      modifies this`outbox, buff
      ensures Valid()
      ensures outbox == old(outbox) + WireAll([Sealed(IppAddr(to), to.keys, rec)])
    {
      SendRecord(rec, AddrOf(to.a, to.p), to.keys);
    }

    /** send(buff, length, rsin) without keys. */
    method SendPlain(data: seq<u8>, to: Addr)
      requires Valid() && |data| <= MAX_UDP
      modifies this`outbox, buff
      ensures Valid()
      ensures outbox == old(outbox) + WireAll([Plain(to, data)])
    {
      SendKeyed(data, to, None, seq(BLOCK_SIZE, _ => 0));
    }
  }

}
