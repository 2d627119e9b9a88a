/** per_id.h: the record SrvCap as its bytes in memory, the peer entry ipp, and `_tokeys`. */
module Records {
  import opened Bytes
  import opened Xtea
  import opened Cipher

  /** sizeof(SrvCap): one byte of verb, the union at offset 16 (ipp is aligned to 16) of 80 bytes,
      and the padding, rounded up to 112. */
  const SIZE: nat := 112
  const UNION: nat := 16
  const UNION_END: nat := 96
  const TYP: nat := 74
  const ID: nat := 75

  type Record = s: seq<u8> | |s| == SIZE witness seq(SIZE, _ => 0)

  function ZeroRecord(): Record {
    seq(SIZE, _ => 0)
  }

  const SRV_REGISTER: u8 := 1
  const SRV_REGISTERRED: u8 := 2
  const SRV_SET_PEER: u8 := 3
  const SRV_UNREGISTER: u8 := 4
  const SRV_UNREGISTERED: u8 := 5
  const SRV_PING: u8 := 7
  const PER_PING: u8 := 8
  const PER_AIH: u8 := 9
  const PER_PONG: u8 := 10
  const PER_LINKED: u8 := 11
  const PER_DATA: u8 := 58

  /** ipp: host-order address and port, role, keys. */
  datatype Ipp = Ipp(a: u32, p: u16, t: int, keys: Key)

  function Verb(r: Record): u8 {
    r[0]
  }

  function WithVerb(r: Record, v: u8): Record {
    [v] + r[1..]
  }

  function KeyBytes(k: Key): (s: seq<u8>)
    ensures |s| == 16
  {
    WordBytes(k.k0) + WordBytes(k.k1) + WordBytes(k.k2) + WordBytes(k.k3)
  }

  function KeyOf(s: seq<u8>): Key
    requires |s| == 16
  {
    Key(Word(s[..4]), Word(s[4..8]), Word(s[8..12]), Word(s[12..]))
  }

  /** _u.pp._public._a, ._p and ._keys */
  function PublicA(r: Record): u32 {
    Word(r[16..20])
  }

  function PublicP(r: Record): u16 {
    Half(r[20..22])
  }

  function PublicKeys(r: Record): Key {
    KeyOf(r[28..44])
  }

  /** `_u.pp._public = q`. The assignment of ipp copies address, port and keys, and leaves `_t`
      (bytes 24 to 28) as it was. */
  function WithPublic(r: Record, q: Ipp): Record {
    r[..16] + WordBytes(q.a) + HalfBytes(q.p) + r[22..28] + KeyBytes(q.keys) + r[44..]
  }

  /** `_u.reg.typ` */
  predicate Typ(r: Record) {
    r[TYP] != 0
  }

  /** `clear`: the whole union is zeroed. */
  function Cleared(r: Record): Record {
    r[..UNION] + seq(UNION_END - UNION, _ => 0) + r[UNION_END..]
  }

  /** The C string that starts at an offset of the record, when it ends inside the record. */
  function CString(s: seq<u8>): (t: seq<u8>)
    ensures t <= s && 0 !in t
    ensures |t| < |s| ==> s[|t|] == 0
  {
    if s == [] || s[0] == 0 then [] else [s[0]] + CString(s[1..])
  }

  lemma KeyOfBytes(k: Key)
    ensures KeyOf(KeyBytes(k)) == k
  {
    hide Word, WordBytes;
    var s := KeyBytes(k);
    WordOfBytes(k.k0);
    WordOfBytes(k.k1);
    WordOfBytes(k.k2);
    WordOfBytes(k.k3);
    assert s[..4] == WordBytes(k.k0) && s[4..8] == WordBytes(k.k1);
    assert s[8..12] == WordBytes(k.k2) && s[12..] == WordBytes(k.k3);
  }

  /** What a record carries after the verb and the public entry have been written into it. */
  lemma Written(r: Record, q: Ipp, v: u8)
    ensures Verb(WithVerb(r, v)) == v
    ensures WithVerb(r, v)[1..] == r[1..]
    ensures Verb(WithPublic(r, q)) == Verb(r)
    ensures PublicA(WithPublic(r, q)) == q.a
    ensures PublicP(WithPublic(r, q)) == q.p
    ensures PublicKeys(WithPublic(r, q)) == q.keys
    ensures WithPublic(r, q)[..16] == r[..16] && WithPublic(r, q)[22..28] == r[22..28] && WithPublic(r, q)[44..] == r[44..]
  {
    hide Word, WordBytes, Half, HalfBytes, KeyOf, KeyBytes;
    WordOfBytes(q.a);
    HalfOfBytes(q.p);
    KeyOfBytes(q.keys);
    var w := WithPublic(r, q);
    assert w[16..20] == WordBytes(q.a) && w[20..22] == HalfBytes(q.p) && w[28..44] == KeyBytes(q.keys);
  }

  /** A record as it travels: enciphered under a key, and read back. */
  function Seal(k: Key, r: Record): Record {
    Crypt(r, XteaMap(k, true))
  }

  function Open(k: Key, r: Record): Record {
    Crypt(r, XteaMap(k, false))
  }

  lemma OpenSeal(k: Key, r: Record)
    ensures Open(k, Seal(k, r)) == r
    ensures Seal(k, Open(k, r)) == r
  {
    hide Crypt, XteaMap;
    XteaMapsUndo(k, true);
    XteaMapsUndo(k, false);
    CryptInverse(r, XteaMap(k, true), XteaMap(k, false));
    CryptInverse(r, XteaMap(k, false), XteaMap(k, true));
  }

  lemma EdIsSeal(k: Key, r: Record, junk: seq<u8>)
    requires |junk| == BLOCK_SIZE
    ensures EdOf(r, XteaMap(k, true), junk) == Seal(k, r)
    ensures EdOf(r, XteaMap(k, false), junk) == Open(k, r)
  {
    hide Crypt, XteaMap;
  }

  predicate IsHex(c: u8) {
    48 <= c <= 57 || 65 <= c <= 70 || 97 <= c <= 102
  }

  function HexValue(c: u8): (v: nat)
    requires IsHex(c)
    ensures v < 16
  {
    if c <= 57 then c - 48 else if c <= 70 then c - 55 else c - 87
  }

  predicate AllHex(s: seq<u8>) {
    forall i :: 0 <= i < |s| ==> IsHex(s[i])
  }

  /** A meiot key as the table `mid` holds it: hexadecimal, long enough for four words, and short
      enough for the field `meiot` of a record. */
  predicate IsMid(m: seq<u8>) {
    32 <= |m| <= 57 && AllHex(m)
  }

  type Mid = m: seq<u8> | IsMid(m) witness seq(32, _ => 48)

  /** "%8X" of a hexadecimal text. */
  function ScanHex(s: seq<u8>): (w: nat)
    requires AllHex(s)
    ensures w < Pow2(4 * |s|)
  {
    if s == [] then 0 else
      var n := |s| - 1;
      assert Pow2(4 * |s|) == 16 * Pow2(4 * n) by { Pow2Add(4, 4 * n); assert Pow2(4) == 16; }
      16 * ScanHex(s[..n]) + HexValue(s[n])
  }

  function HexWord(s: seq<u8>): u32
    requires |s| == 8 && AllHex(s)
  {
    Pow2At32();
    ScanHex(s)
  }

  /** _tokeys: "%8X%8X%8X%8X". */
  function ToKeys(m: Mid): Key {
    Key(HexWord(m[..8]), HexWord(m[8..16]), HexWord(m[16..24]), HexWord(m[24..32]))
  }

  function HexDigit(d: nat): (c: u8)
    requires d < 16
    ensures IsHex(c) && HexValue(c) == d
  {
    if d < 10 then 48 + d else 87 + d
  }

  /** "%0nx" */
  function HexText(w: nat, n: nat): (s: seq<u8>)
    ensures |s| == n && AllHex(s)
    decreases n, w
  {
    if n == 0 then [] else HexText(w / 16, n - 1) + [HexDigit(w % 16)]
  }

  lemma {:induction false} ScanHexText(w: nat, n: nat)
    requires w < Pow2(4 * n)
    ensures ScanHex(HexText(w, n)) == w
  {
    if n != 0 {
      var s := HexText(w, n);
      assert s[..n - 1] == HexText(w / 16, n - 1);
      assert Pow2(4 * n) == 16 * Pow2(4 * (n - 1)) by { Pow2Add(4, 4 * (n - 1)); assert Pow2(4) == 16; }
      ScanHexText(w / 16, n - 1);
    }
  }

  function MidText(k: Key, rest: seq<u8>): seq<u8> {
    HexText(k.k0, 8) + HexText(k.k1, 8) + HexText(k.k2, 8) + HexText(k.k3, 8) + rest
  }

  /** Every key is the key of some mid, and only the first 32 characters of a mid make its key. */
  lemma ToKeysOnto(k: Key, rest: seq<u8>)
    requires AllHex(rest) && |rest| <= 25
    ensures IsMid(MidText(k, rest)) && ToKeys(MidText(k, rest)) == k
  {
    hide ScanHex, HexText;
    Pow2At32();
    var m := MidText(k, rest);
    assert m[..8] == HexText(k.k0, 8) && m[8..16] == HexText(k.k1, 8);
    assert m[16..24] == HexText(k.k2, 8) && m[24..32] == HexText(k.k3, 8);
    ScanHexText(k.k0, 8);
    ScanHexText(k.k1, 8);
    ScanHexText(k.k2, 8);
    ScanHexText(k.k3, 8);
  }

  /** `meiot == pl._u.reg.meiot`: the C string in the record is the mid. */
  predicate MeiotIs(r: Record, m: Mid) {
    CString(r[UNION..]) == m
  }

  function Zeros(n: nat): (s: seq<u8>)
    ensures |s| == n
  {
    seq(n, _ => 0)
  }

  /** An id of the command line that fits its field with the terminator. */
  predicate IsId(id: seq<u8>) {
    |id| <= 15 && 0 !in id
  }

  /** The packet a peer starts with: zero, the mid, the role and the id copied into it. */
  function Mecap(m: Mid, id: seq<u8>, provider: bool): Record
    requires IsId(id)
  {
    Zeros(UNION) + m + Zeros(TYP - UNION - |m|) + [if provider then 1 else 0] + id + Zeros(SIZE - ID - |id|)
  }

  lemma {:induction false} CStringOf(t: seq<u8>, rest: seq<u8>)
    requires 0 !in t && (rest == [] || rest[0] == 0)
    ensures CString(t + rest) == t
  {
    if t == [] {
      assert t + rest == rest;
    } else {
      assert (t + rest)[1..] == t[1..] + rest;
      CStringOf(t[1..], rest);
    }
  }

  /** Whatever the verb, the server reads from it the mid, the role and the id. */
  lemma MecapReads(m: Mid, id: seq<u8>, provider: bool, v: u8)
    requires IsId(id)
    ensures var r := WithVerb(Mecap(m, id, provider), v);
            MeiotIs(r, m) && Typ(r) == provider && CString(r[ID..]) == id
  {
    hide CString;
    var r := WithVerb(Mecap(m, id, provider), v);
    var afterMid := Zeros(TYP - UNION - |m|) + [if provider then 1 else 0] + id + Zeros(SIZE - ID - |id|);
    assert 0 !in m;
    assert r[UNION..] == m + afterMid;
    CStringOf(m, afterMid);
    assert r[ID..] == id + Zeros(SIZE - ID - |id|);
    CStringOf(id, Zeros(SIZE - ID - |id|));
  }

  /** A record names a mid exactly when its bytes from the union on are the mid's, and then a zero. */
  lemma MeiotExactly(r: Record, m: Mid)
    ensures MeiotIs(r, m) <==> r[UNION..UNION + |m|] == m && r[UNION + |m|] == 0
  {
    hide CString;
    var s := r[UNION..];
    assert 0 !in m;
    if r[UNION..UNION + |m|] == m && r[UNION + |m|] == 0 {
      assert s == m + s[|m|..] && s[|m|..][0] == 0;
      CStringOf(m, s[|m|..]);
    }
  }

}
