/** sock.h: `from_string` on "a.b.c.d/n" and `compare_range_ip`. */
module RangeMasks {
  import opened Bytes
  import opened Text
  import opened Endpoints
  import opened AddressText

  const INADDR_NONE: u32 := 0xFFFF_FFFF

  /** inet_addr of a dotted quad in its printed form; the first octet is the lowest in memory. */
  function InetAddr(s: string): u32 {
    match ScanFour(s)
    case None => INADDR_NONE
    case Some((a, b, c, d, rest)) =>
      if a < 0x100 && b < 0x100 && c < 0x100 && d < 0x100 && s == Octets(a, b, c, d).Text() then
        Octets(a, b, c, d).Network()
      else
        INADDR_NONE
  }

  function Atoi(s: string): nat {
    match ScanNumber(s)
    case None => 0
    case Some((v, _)) => v
  }

  /** ~(2^n - 1) as a uint32_t. */
  function NotLow(n: nat): u32
    requires n <= 31
  {
    Pow2AtMost(n);
    M32 - Pow2(n)
  }

  /** from_string. A range width over 31 overflows the program's int, and has no meaning. */
  function FromString(s: string, port: u16, mask: u32): Option<Endpoint> {
    var (l, p) := Split(s, ':');
    var port' := if p.Some? then ToU16(Atoi(p.value)) else port;
    var (quad, bits) := Split(l, '/');
    if bits.None? then Some(Endpoint(InetAddr(quad), Swap16(port'), mask))
    else if Atoi(bits.value) > 31 then None
    else Some(Endpoint(InetAddr(quad), Swap16(port'), Swap32(NotLow(Atoi(bits.value)))))
  }

  /** compare_range_ip */
  predicate CompareRangeIp(a: Endpoint, b: Endpoint) {
    var m := And(a.mask, b.mask);
    And(a.addr, m) == And(b.addr, m)
  }

  lemma {:induction false} Pow2Monotone(m: nat, n: nat)
    requires m <= n
    ensures Pow2(m) <= Pow2(n)
    decreases n
  {
    if m < n {
      Pow2Monotone(m, n - 1);
    }
  }

  lemma Pow2AtMost(n: nat)
    requires n <= 31
    ensures 1 <= Pow2(n) < M32
  {
    Pow2At32();
    Pow2Monotone(n, 31);
    assert Pow2(32) == 2 * Pow2(31);
  }

  lemma DivModUnique(x: nat, d: nat, q: nat, r: nat)
    requires 0 < d && r < d && x == q * d + r
    ensures x / d == q && x % d == r
  {
    var q', r' := x / d, x % d;
    assert x == q' * d + r';
    if q < q' {
      assert q' * d >= q * d + d by { Scale(q + 1, q', d); }
    } else if q' < q {
      assert q * d >= q' * d + d by { Scale(q' + 1, q, d); }
    }
  }

  lemma Scale(a: nat, b: nat, d: nat)
    requires a <= b
    ensures a * d <= b * d
  {
  }

  /** x with its remainder modulo p cleared. */
  function Clear(x: nat, p: nat): nat
    requires 0 < p
  {
    x - x % p
  }

  lemma ClearHalf(x: nat, p: nat)
    requires 0 < p
    ensures Clear(x, 2 * p) == 2 * Clear(x / 2, p)
  {
    var q, r := x / 2 / p, x / 2 % p;
    assert x / 2 == q * p + r;
    assert x == q * (2 * p) + (2 * r + x % 2);
    DivModUnique(x, 2 * p, q, 2 * r + x % 2);
  }

  lemma ClearOne(x: nat)
    ensures Clear(x, 1) == x
  {
  }

  lemma OnesStep(x: nat, y: nat, n: nat)
    requires n != 0 && AndBits(x / 2, y, n - 1) == x / 2
    ensures AndBits(x, 2 * y + 1, n) == x
  {
    hide AndBits;
    AndStep(x, 2 * y + 1, n);
  }

  lemma ZeroStep(x: nat, y: nat, n: nat)
    requires n != 0
    ensures AndBits(x, 2 * y, n) == 2 * AndBits(x / 2, y, n - 1)
  {
    hide AndBits;
    AndStep(x, 2 * y, n);
  }

  lemma {:induction false} AndOnes(x: nat, n: nat)
    requires x < Pow2(n)
    ensures AndBits(x, Pow2(n) - 1, n) == x
  {
    hide AndBits;
    if n == 0 {
      AndNone(x, 0);
    } else {
      AndOnes(x / 2, n - 1);
      OnesStep(x, Pow2(n - 1) - 1, n);
    }
  }

  /** Conjunction with ~(2^k - 1) clears the k low bits. */
  lemma {:induction false} AndHigh(x: nat, k: nat, n: nat)
    requires k <= n && x < Pow2(n)
    ensures Pow2(k) <= Pow2(n)
    ensures AndBits(x, Pow2(n) - Pow2(k), n) == Clear(x, Pow2(k))
  {
    hide AndBits, Clear;
    Pow2Monotone(k, n);
    if k == 0 {
      AndOnes(x, n);
      ClearOne(x);
    } else {
      Pow2Monotone(k - 1, n - 1);
      AndHigh(x / 2, k - 1, n - 1);
      ZeroStep(x, Pow2(n - 1) - Pow2(k - 1), n);
      ClearHalf(x, Pow2(k - 1));
    }
  }

  lemma AndNotLow(x: u32, n: nat)
    requires n <= 31
    ensures And(x, NotLow(n)) == Clear(x, Pow2(n))
  {
    hide AndBits, Clear;
    Pow2At32();
    AndHigh(x, n, 32);
  }

  lemma NotLowDivides(n: nat, k: nat)
    requires k <= n <= 31
    ensures NotLow(n) % Pow2(k) == 0
  {
    Pow2At32();
    Pow2Add(32 - k, k);
    Pow2Add(n - k, k);
    Pow2Monotone(n - k, 32 - k);
    Multiple(NotLow(n), Pow2(32 - k), Pow2(n - k), Pow2(k));
  }

  lemma Multiple(a: nat, x: nat, y: nat, d: nat)
    requires 0 < d && y <= x && a == x * d - y * d
    ensures a % d == 0
  {
    assert x * d - y * d == (x - y) * d;
    DivModUnique(a, d, x - y, 0);
  }

  /** Of two ranges the wider one counts. */
  lemma NotLowWider(n: nat, k: nat)
    requires k <= n <= 31
    ensures And(NotLow(n), NotLow(k)) == NotLow(n) == And(NotLow(k), NotLow(n))
  {
    hide And;
    AndNotLow(NotLow(n), k);
    NotLowDivides(n, k);
    AndFacts(NotLow(n), NotLow(k));
  }

  lemma Halve(a: nat, p: nat, g: nat)
    ensures (a + 2 * p * g) / 2 == a / 2 + p * g
    ensures (a + 2 * p * g) % 2 == a % 2
  {
    var m := p * g;
    assert 2 * p * g == 2 * m;
  }

  /** Conjunction of two numbers split at bit k. */
  lemma {:induction false} AndSplit(a: nat, b: nat, k: nat, g: nat, h: nat, n: nat)
    requires a < Pow2(k) && b < Pow2(k)
    ensures AndBits(a + Pow2(k) * g, b + Pow2(k) * h, k + n) == AndBits(a, b, k) + Pow2(k) * AndBits(g, h, n)
  {
    hide AndBits;
    if k == 0 {
      AndNone(a, b);
    } else {
      var p := Pow2(k - 1);
      var x, y := a + 2 * p * g, b + 2 * p * h;
      Halve(a, p, g);
      Halve(b, p, h);
      AndSplit(a / 2, b / 2, k - 1, g, h, n);
      AndStep(x, y, k + n);
      AndStep(a, b, k);
      Double(p, AndBits(g, h, n));
    }
  }

  lemma {:induction false} AndBytes(s: seq<u8>, t: seq<u8>)
    requires |s| == |t|
    ensures AndBits(FromBytes(s), FromBytes(t), 8 * |s|) == FromBytes(AndEach(s, t))
  {
    hide AndBits;
    if s == [] {
      AndNone(0, 0);
    } else {
      assert Pow2(8) == 0x100;
      AndSplit(s[0], t[0], 8, FromBytes(s[1..]), FromBytes(t[1..]), 8 * |s[1..]|);
      AndBytes(s[1..], t[1..]);
      assert AndEach(s, t)[1..] == AndEach(s[1..], t[1..]);
    }
  }

  /** Byte-wise conjunction. */
  function AndEach(s: seq<u8>, t: seq<u8>): (r: seq<u8>)
    requires |s| == |t|
    ensures |r| == |s|
  {
    assert Pow2(8) == 0x100;
    seq(|s|, i requires 0 <= i < |s| => AndBits(s[i], t[i], 8))
  }

  /** Bitwise conjunction does not see the byte order. */
  lemma AndSwaps(a: u32, b: u32)
    ensures And(Swap32(a), Swap32(b)) == Swap32(And(a, b))
  {
    var s, t := WordBytes(a), WordBytes(b);
    WordOfBytes(a);
    WordOfBytes(b);
    AndBytes(s, t);
    AndBytes(Reversed(s), Reversed(t));
    assert AndEach(Reversed(s), Reversed(t)) == Reversed(AndEach(s, t));
    BytesOfWord(AndEach(s, t));
  }

  lemma SameQuotient(x: nat, y: nat, d: nat)
    requires 0 < d
    ensures Clear(x, d) == Clear(y, d) <==> x / d == y / d
  {
    assert x - x % d == x / d * d && y - y % d == y / d * d;
    if x / d < y / d {
      Scale(x / d + 1, y / d, d);
    } else if y / d < x / d {
      Scale(y / d + 1, x / d, d);
    }
  }

  lemma SwapInjective(x: u32, y: u32)
    ensures Swap32(x) == Swap32(y) <==> x == y
  {
    Swap32Involution(x);
    Swap32Involution(y);
  }

  /** Two endpoints with range masks compare equal exactly when their host-order addresses agree on
      division by the wider range, both masks and addresses being held byte-swapped. */
  lemma RangesCompare(x: u32, n: nat, y: u32, k: nat, p: u16, q: u16)
    requires k <= n <= 31
    ensures CompareRangeIp(Endpoint(Swap32(x), p, Swap32(NotLow(n))), Endpoint(Swap32(y), q, Swap32(NotLow(k))))
       <==> x / Pow2(n) == y / Pow2(n)
    ensures CompareRangeIp(Endpoint(Swap32(x), p, Swap32(NotLow(k))), Endpoint(Swap32(y), q, Swap32(NotLow(n))))
       <==> x / Pow2(n) == y / Pow2(n)
  {
    hide And, Swap32;
    NotLowWider(n, k);
    AndSwaps(NotLow(n), NotLow(k));
    AndSwaps(NotLow(k), NotLow(n));
    AndSwaps(x, NotLow(n));
    AndSwaps(y, NotLow(n));
    SwapInjective(And(x, NotLow(n)), And(y, NotLow(n)));
    AndNotLow(x, n);
    AndNotLow(y, n);
    SameQuotient(x, y, Pow2(n));
  }

  lemma NetworkIsSwapped(o: Octets)
    ensures o.Network() == Swap32(o.Host())
  {
    BytesOfWord([o.d, o.c, o.b, o.a]);
    assert Reversed([o.d, o.c, o.b, o.a]) == [o.a, o.b, o.c, o.d];
  }

  lemma DigitsAvoid(n: nat, c: char)
    requires !IsDigit(c)
    ensures c !in Decimal(n)
  {
    assert forall i :: 0 <= i < |Decimal(n)| ==> IsDigit(Decimal(n)[i]);
  }

  lemma QuadAvoids(o: Octets, c: char)
    requires !IsDigit(c) && c != '.'
    ensures c !in o.Text()
  {
    DigitsAvoid(o.a, c);
    DigitsAvoid(o.b, c);
    DigitsAvoid(o.c, c);
    DigitsAvoid(o.d, c);
  }

  lemma RangeText(o: Octets, n: nat, port: u16, mask: u32)
    requires n <= 31
    ensures FromString(o.Text() + "/" + Decimal(n), port, mask)
         == Some(Endpoint(Swap32(o.Host()), Swap16(port), Swap32(NotLow(n))))
  {
    hide ScanFour, ScanNumber, Split, Decimal, Quad, Swap16, Swap32, Word, NotLow;
    var s := o.Text() + "/" + Decimal(n);
    QuadAvoids(o, ':');
    QuadAvoids(o, '/');
    DigitsAvoid(n, ':');
    SplitNone(s, ':');
    SplitAt(o.Text(), '/', Decimal(n));
    ScanDecimal(n, []);
    assert Decimal(n) + [] == Decimal(n);
    ScanFourOf(o.a, o.b, o.c, o.d, []);
    assert o.Text() + [] == o.Text();
    NetworkIsSwapped(o);
  }

  /** After from_string on both texts, the comparison holds exactly when the two addresses agree on
      division by 2^n, n being the larger of the two widths. */
  lemma RangeMembership(o: Octets, n: nat, o': Octets, n': nat)
    requires n <= 31 && n' <= 31
    ensures var r := FromString(o.Text() + "/" + Decimal(n), 0, FULL_MASK);
            var r' := FromString(o'.Text() + "/" + Decimal(n'), 0, FULL_MASK);
            var w := Pow2(if n < n' then n' else n);
            && r.Some? && r'.Some?
            && (CompareRangeIp(r.value, r'.value) <==> o.Host() / w == o'.Host() / w)
  {
    hide FromString, CompareRangeIp, NotLow, Swap16, Swap32, Decimal, Quad, Word;
    RangeText(o, n, 0, FULL_MASK);
    RangeText(o', n', 0, FULL_MASK);
    if n < n' {
      RangesCompare(o.Host(), n', o'.Host(), n, Swap16(0), Swap16(0));
    } else {
      RangesCompare(o.Host(), n, o'.Host(), n', Swap16(0), Swap16(0));
    }
  }

  lemma InetAddrOf(o: Octets)
    ensures InetAddr(o.Text()) == Swap32(o.Host())
  {
    hide ScanFour, Quad, Swap32, Word;
    ScanFourOf(o.a, o.b, o.c, o.d, []);
    assert o.Text() + [] == o.Text();
    NetworkIsSwapped(o);
  }

  /** from_string on "a.b.c.d": the address in network order, the port and the mask of the call. So a peer
      reads its server's address, with SRV_PORT and the full mask. */
  lemma PlainText(o: Octets, port: u16, mask: u32)
    ensures FromString(o.Text(), port, mask) == Some(Endpoint(Swap32(o.Host()), Swap16(port), mask))
  {
    hide InetAddr, ScanNumber, Split, Quad, Swap16, Swap32, Word, NotLow;
    QuadAvoids(o, ':');
    QuadAvoids(o, '/');
    SplitNone(o.Text(), ':');
    SplitNone(o.Text(), '/');
    InetAddrOf(o);
  }

  /** And on "a.b.c.d:p": the port of the text instead. */
  lemma PortedText(o: Octets, p: u16, port: u16, mask: u32)
    ensures FromString(o.Text() + ":" + Decimal(p), port, mask) == Some(Endpoint(Swap32(o.Host()), Swap16(p), mask))
  {
    hide InetAddr, ScanNumber, Split, Quad, Swap16, Swap32, Word, NotLow, Decimal;
    QuadAvoids(o, ':');
    QuadAvoids(o, '/');
    SplitAt(o.Text(), ':', Decimal(p));
    SplitNone(o.Text(), '/');
    ScanDecimal(p, []);
    assert Decimal(p) + [] == Decimal(p);
    InetAddrOf(o);
  }

  /** A text that is no dotted quad gives the address that stands for failure. */
  lemma NoQuad(s: string)
    requires forall o: Octets :: s != o.Text()
    ensures InetAddr(s) == 0xFFFF_FFFF
  {
    hide ScanFour, Quad;
  }

}
