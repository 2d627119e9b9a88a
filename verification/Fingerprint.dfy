/** u_server.cpp: the text from which a registrant's key K in the table is hashed. */
module Fingerprints {
  import opened Bytes
  import opened Text
  import opened Xtea

  /** Who registers: host-order address and port, the id string, and the keys. */
  datatype Registrant = Registrant(addr: u32, port: u16, id: string, keys: Key)

  /** "%d %d %s %d %d %d %d", untruncated. The words are printed as signed integers. */
  function Fingerprint(r: Registrant): string {
    SignedDecimal(SignedValue(r.addr)) + " " + (SignedDecimal(r.port) + " " + Tail(r))
  }

  function Tail(r: Registrant): string {
    r.id + " " + Keyword(r.keys.k0) + " " + Keyword(r.keys.k1) + " " + Keyword(r.keys.k2) + " " + Keyword(r.keys.k3)
  }

  function Keyword(w: u32): string {
    SignedDecimal(SignedValue(w))
  }

  lemma NoSpace(n: int)
    ensures ' ' !in SignedDecimal(n)
  {
    var d := Decimal(if n < 0 then -n else n);
    assert forall i :: 0 <= i < |d| ==> IsDigit(d[i]);
  }

  lemma KeywordInjective(x: u32, y: u32)
    requires Keyword(x) == Keyword(y)
    ensures x == y
  {
    SignedDecimalInjective(SignedValue(x), SignedValue(y));
  }

  /** The four keys are cut off from the right, because the id may hold spaces and digits. */
  lemma TailInjective(r: Registrant, r': Registrant)
    requires Tail(r) == Tail(r')
    ensures r.id == r'.id && r.keys == r'.keys
  {
    hide Keyword;
    var k, k' := r.keys, r'.keys;
    forall w
      ensures ' ' !in Keyword(w)
    {
      NoSpaceInKeyword(w);
    }
    CutLast(r.id + " " + Keyword(k.k0) + " " + Keyword(k.k1) + " " + Keyword(k.k2),
            r'.id + " " + Keyword(k'.k0) + " " + Keyword(k'.k1) + " " + Keyword(k'.k2), Keyword(k.k3), Keyword(k'.k3), ' ');
    CutLast(r.id + " " + Keyword(k.k0) + " " + Keyword(k.k1),
            r'.id + " " + Keyword(k'.k0) + " " + Keyword(k'.k1), Keyword(k.k2), Keyword(k'.k2), ' ');
    CutLast(r.id + " " + Keyword(k.k0), r'.id + " " + Keyword(k'.k0), Keyword(k.k1), Keyword(k'.k1), ' ');
    CutLast(r.id, r'.id, Keyword(k.k0), Keyword(k'.k0), ' ');
    KeywordInjective(k.k0, k'.k0);
    KeywordInjective(k.k1, k'.k1);
    KeywordInjective(k.k2, k'.k2);
    KeywordInjective(k.k3, k'.k3);
  }

  lemma NoSpaceInKeyword(w: u32)
    ensures ' ' !in Keyword(w)
  {
    NoSpace(SignedValue(w));
  }

  /** The text determines all seven fields. */
  lemma FingerprintInjective(r: Registrant, r': Registrant)
    requires Fingerprint(r) == Fingerprint(r')
    ensures r == r'
  {
    hide SignedDecimal, SignedValue, Tail;
    var a, a' := SignedDecimal(SignedValue(r.addr)), SignedDecimal(SignedValue(r'.addr));
    var p, p' := SignedDecimal(r.port), SignedDecimal(r'.port);
    NoSpace(SignedValue(r.addr));
    NoSpace(SignedValue(r'.addr));
    NoSpace(r.port);
    NoSpace(r'.port);
    CutFirst(a, a', p + " " + Tail(r), p' + " " + Tail(r'), ' ');
    CutFirst(p, p', Tail(r), Tail(r'), ' ');
    SameWord(r.addr, r'.addr);
    SignedDecimalInjective(r.port, r'.port);
    TailInjective(r, r');
  }

  lemma SameWord(x: u32, y: u32)
    requires SignedDecimal(SignedValue(x)) == SignedDecimal(SignedValue(y))
    ensures x == y
  {
    SignedDecimalInjective(SignedValue(x), SignedValue(y));
  }

  // ---------- the buffer

  /** The program prints the text, and the terminator, into this many bytes. */
  const BUFFER: nat := 64

  /** How many decimal digits a number has. */
  function Digits(n: nat): nat
    requires n < 100_0000_0000
  {
    if n < 10 then 1 else if n < 100 then 2 else if n < 1000 then 3 else if n < 1_0000 then 4 else if n < 10_0000 then 5
    else if n < 100_0000 then 6 else if n < 1000_0000 then 7 else if n < 1_0000_0000 then 8 else if n < 10_0000_0000 then 9
    else 10
  }

  lemma {:induction false} DecimalWidth(n: nat)
    requires n < 100_0000_0000
    ensures |Decimal(n)| == Digits(n)
  {
    if n >= 10 {
      DecimalWidth(n / 10);
    }
  }

  /** A word printed as a signed number: its digits, and a sign from 2^31 on. */
  function WordWidth(w: u32): nat {
    if w < 0x8000_0000 then Digits(w) else 1 + Digits(M32 - w)
  }

  lemma KeywordWidth(w: u32)
    ensures |Keyword(w)| == |SignedDecimal(SignedValue(w))| == WordWidth(w) <= 11
  {
    DecimalWidth(if w < 0x8000_0000 then w else M32 - w);
  }

  /** What the seven fields and the six spaces take. */
  function Width(r: Registrant): nat {
    var k := r.keys;
    WordWidth(r.addr) + Digits(r.port) + |r.id| + WordWidth(k.k0) + WordWidth(k.k1) + WordWidth(k.k2) + WordWidth(k.k3) + 6
  }

  /** The text and its terminator fit the buffer exactly when this width leaves a byte; with an id of at
      most 15 characters it is at most 81. */
  lemma FitsExactly(r: Registrant)
    ensures |Fingerprint(r)| + 1 <= BUFFER <==> Width(r) < BUFFER
    ensures |Fingerprint(r)| == Width(r)
    ensures |r.id| <= 15 ==> Width(r) <= 81
  {
    hide Digits, Keyword, WordWidth, SignedDecimal, SignedValue;
    KeywordWidth(r.addr);
    PortText(r.port);
    PortWidth(r.port);
    KeywordWidth(r.keys.k0);
    KeywordWidth(r.keys.k1);
    KeywordWidth(r.keys.k2);
    KeywordWidth(r.keys.k3);
  }

  lemma PortText(p: u16)
    ensures |SignedDecimal(p)| == Digits(p)
  {
    DecimalWidth(p);
  }

  lemma PortWidth(p: u16)
    ensures Digits(p) <= 5
  {
  }

  /** An address and keys with the high bit set alone, and an id that fills its field, take all 81. */
  lemma DoesNotFit(id: string)
    requires |id| == 15
    ensures var k := 0x8000_0000; |Fingerprint(Registrant(k, 65535, id, Key(k, k, k, k)))| == 81 > BUFFER
  {
    hide Fingerprint;
    var k := 0x8000_0000;
    FitsExactly(Registrant(k, 65535, id, Key(k, k, k, k)));
    assert WordWidth(k) == 11 && Digits(65535) == 5;
  }

}
