/** sock.cpp: Ip2str and sip2ip, the text of an endpoint and its reading. */
module AddressText {
  import opened Bytes
  import opened Text
  import opened Endpoints

  /** "%u.%u.%u.%u" of a host-order address. */
  function Quad(a: u8, b: u8, c: u8, d: u8): string {
    Decimal(a) + "." + Decimal(b) + "." + Decimal(c) + "." + Decimal(d)
  }

  datatype Octets = Octets(a: u8, b: u8, c: u8, d: u8) {
    function Host(): u32 { Word([d, c, b, a]) }
    function Network(): u32 { Word([a, b, c, d]) }
    function Text(): string { Quad(a, b, c, d) }
  }

  /** Ip2str of an endpoint: the host-order octets, the high one first, and the host-order port. */
  function Ip2Str(e: Endpoint): string {
    if e.addr != 0 then
      var dw := WordBytes(Swap32(e.addr));
      Quad(dw[3], dw[2], dw[1], dw[0]) + ":" + Decimal(Swap16(e.port))
    else
      "0.0.0.0"
  }

  /** The constructor SADDR_46(uint32_t, uint16_t), which takes host order. */
  function FromHost(ip: u32, port: u16): Endpoint {
    Endpoint(Swap32(ip), Swap16(port), FULL_MASK)
  }

  /** The four numbers of a scanf "%u.%u.%u.%u", and the rest of the input. */
  function ScanFour(s: string): Option<(nat, nat, nat, nat, string)> {
    match ScanField(s, '.')
    case None => None
    case Some((a, s1)) =>
      match ScanField(s1, '.')
      case None => None
      case Some((b, s2)) =>
        match ScanField(s2, '.')
        case None => None
        case Some((c, s3)) =>
          match ScanNumber(s3)
          case None => None
          case Some((d, rest)) => Some((a, b, c, d, rest))
  }

  /** sip2ip. Its numbers are unsigned runs of digits, each octet reduced to its low byte; the port of
      the result is zero unless the text carries one. */
  function Sip2Ip(s: string): Endpoint {
    if s == [] || !IsDigit(s[0]) then FromHost(0, 0) else
      match ScanFour(s)
      case None => FromHost(0, 0)
      case Some((a, b, c, d, rest)) =>
        var ip := Octets(a % 0x100, b % 0x100, c % 0x100, d % 0x100).Host();
        if rest != [] && rest[0] == ':' && ScanNumber(rest[1..]).Some? then
          FromHost(ip, ToU16(ScanNumber(rest[1..]).value.0))
        else
          FromHost(ip, 0)
  }

  lemma ScanFourOf(a: u8, b: u8, c: u8, d: u8, rest: string)
    requires rest == [] || !IsDigit(rest[0])
    ensures ScanFour(Quad(a, b, c, d) + rest) == Some((a, b, c, d, rest))
  {
    hide ScanField, ScanNumber, Decimal;
    var s3 := Decimal(d) + rest;
    var s2 := Decimal(c) + "." + s3;
    var s1 := Decimal(b) + "." + s2;
    assert Quad(a, b, c, d) + rest == Decimal(a) + "." + s1;
    ScanDecimalField(a, '.', s1);
    ScanDecimalField(b, '.', s2);
    ScanDecimalField(c, '.', s3);
    ScanDecimal(d, rest);
  }

  lemma QuadStartsWithDigit(a: u8, b: u8, c: u8, d: u8, rest: string)
    ensures Quad(a, b, c, d) + rest != [] && IsDigit((Quad(a, b, c, d) + rest)[0])
  {
    assert (Quad(a, b, c, d) + rest)[0] == Decimal(a)[0];
  }

  lemma PrintParsePorted(e: Endpoint)
    requires e.addr != 0
    ensures Sip2Ip(Ip2Str(e)) == Endpoint(e.addr, e.port, FULL_MASK)
  {
    hide ScanFour, ScanNumber, Decimal, Quad, Swap16, Swap32, Word, WordBytes;
    var dw, p := WordBytes(Swap32(e.addr)), Swap16(e.port);
    var tail := ":" + Decimal(p);
    QuadStartsWithDigit(dw[3], dw[2], dw[1], dw[0], tail);
    ScanFourOf(dw[3], dw[2], dw[1], dw[0], tail);
    assert Ip2Str(e) == Quad(dw[3], dw[2], dw[1], dw[0]) + tail;
    assert tail[1..] == Decimal(p) + [];
    ScanDecimal(p, []);
    assert [dw[0], dw[1], dw[2], dw[3]] == dw;
    WordOfBytes(Swap32(e.addr));
    Swap32Involution(e.addr);
    Swap16Involution(e.port);
    assert ToU16(p) == p;
  }

  lemma PrintParseZero()
    ensures Sip2Ip("0.0.0.0") == Endpoint(0, 0, FULL_MASK)
  {
    hide ScanFour;
    ZeroQuad();
    QuadStartsWithDigit(0, 0, 0, 0, []);
    ScanFourOf(0, 0, 0, 0, []);
    assert Quad(0, 0, 0, 0) + [] == "0.0.0.0";
    ZeroAddress();
    Swap16OfZero();
  }

  /** Reading what was printed gives back address and port, except that the zero address is printed
      without its port: there, exactly when the port is zero. */
  lemma PrintParse(e: Endpoint)
    ensures Sip2Ip(Ip2Str(e)) == e.(mask := FULL_MASK) <==> (e.addr != 0 || e.port == 0)
  {
    if e.addr != 0 {
      PrintParsePorted(e);
    } else {
      PrintParseZero();
    }
  }

  lemma Swap16OfZero()
    ensures Swap16(0) == 0
  {
  }

  lemma ZeroQuad()
    ensures Quad(0, 0, 0, 0) == "0.0.0.0"
  {
    assert Decimal(0) == "0";
  }

  lemma ZeroAddress()
    ensures Swap32(Word([0, 0, 0, 0])) == 0
  {
    assert WordBytes(0) == [0, 0, 0, 0];
    WordOfBytes(0);
    assert Reversed([0, 0, 0, 0]) == [0, 0, 0, 0];
  }

}
