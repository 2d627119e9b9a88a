/** Machine words of the program as integers of bounded width: the wrapping and bitwise operators
    of C, the little-endian layout in memory (x86-64), the byte swap behind htonl and htons, and
    the conversions of stored integers. */
module Bytes {

  const M32: int := 0x1_0000_0000

  type u8 = x: int | 0 <= x < 0x100
  type u16 = x: int | 0 <= x < 0x1_0000
  type u32 = x: int | 0 <= x < 0x1_0000_0000

  /** Addition and subtraction of uint32_t values wrap modulo 2^32. */
  function Add(a: u32, b: u32): u32 {
    if a + b < M32 then a + b else a + b - M32
  }

  function Sub(a: u32, b: u32): u32 {
    if b <= a then a - b else a - b + M32
  }

  function ShiftLeft(v: u32, n: nat): u32
    decreases n, v
  {
    if n == 0 then v else ShiftLeft(Add(v, v), n - 1)
  }

  function ShiftRight(v: u32, n: nat): u32
    decreases n, v
  {
    if n == 0 then v else ShiftRight(v / 2, n - 1)
  }

  function Pow2(n: nat): (p: nat)
    ensures p >= 1
  {
    if n == 0 then 1 else 2 * Pow2(n - 1)
  }

  /** Exclusive or of the n low bits. */
  function XorBits(a: nat, b: nat, n: nat): (r: nat)
    ensures r < Pow2(n)
    decreases n, a, b
  {
    if n == 0 then 0 else (a + b) % 2 + 2 * XorBits(a / 2, b / 2, n - 1)
  }

  /** Conjunction of the n low bits. */
  function AndBits(a: nat, b: nat, n: nat): (r: nat)
    ensures r < Pow2(n)
    decreases n, a, b
  {
    if n == 0 then 0 else (if a % 2 == 1 && b % 2 == 1 then 1 else 0) + 2 * AndBits(a / 2, b / 2, n - 1)
  }

  lemma AndNone(x: nat, y: nat)
    ensures AndBits(x, y, 0) == 0
  {
  }

  lemma AndStep(x: nat, y: nat, n: nat)
    requires n != 0
    ensures AndBits(x, y, n) == (if x % 2 == 1 && y % 2 == 1 then 1 else 0) + 2 * AndBits(x / 2, y / 2, n - 1)
  {
  }

  lemma Double(p: nat, x: nat)
    ensures 2 * p * x == 2 * (p * x)
  {
  }

  lemma {:induction false} Pow2Add(m: nat, n: nat)
    ensures Pow2(m + n) == Pow2(m) * Pow2(n)
  {
    if m != 0 {
      Pow2Add(m - 1, n);
      Double(Pow2(m - 1), Pow2(n));
    }
  }

  lemma Pow2At32()
    ensures Pow2(32) == M32
  {
    assert Pow2(4) == 16;
    Pow2Add(4, 4);
    Pow2Add(8, 8);
    Pow2Add(16, 16);
  }

  function Xor(a: u32, b: u32): u32 {
    Pow2At32();
    XorBits(a, b, 32)
  }

  function And(a: u32, b: u32): u32 {
    Pow2At32();
    AndBits(a, b, 32)
  }

  lemma {:induction false} AndBitsZero(a: nat, n: nat)
    ensures AndBits(a, 0, n) == 0
  {
    if n != 0 {
      AndBitsZero(a / 2, n - 1);
    }
  }

  // ---------- what the operators mean

  /** The bit of weight 2^n. */
  function Bit(x: nat, n: nat): nat {
    x / Pow2(n) % 2
  }

  lemma BitStep(x: nat, n: nat)
    requires n != 0
    ensures Bit(x, n) == Bit(x / 2, n - 1)
  {
    var p := Pow2(n - 1);
    DivDiv(x, p);
  }

  lemma DivDiv(x: nat, p: nat)
    requires p > 0
    ensures x / (2 * p) == x / 2 / p
  {
    var q, r := x / 2 / p, x / 2 % p;
    assert x / 2 == q * p + r;
    assert x == q * (2 * p) + (2 * r + x % 2);
    Quotient(x, 2 * p, q, 2 * r + x % 2);
  }

  lemma Quotient(x: nat, d: nat, q: nat, r: nat)
    requires r < d && x == q * d + r
    ensures x / d == q
  {
    var q' := x / d;
    assert q' * d <= x < q' * d + d;
    if q < q' {
      Larger(q + 1, q', d);
    } else if q' < q {
      Larger(q' + 1, q, d);
    }
  }

  lemma Larger(a: nat, b: nat, d: nat)
    requires a <= b
    ensures a * d <= b * d
  {
  }

  lemma BitZero(x: nat)
    ensures Bit(x, 0) == x % 2
  {
    assert Pow2(0) == 1;
  }

  /** The bits of a number that is put together from its lowest bit and the rest. */
  lemma BitOfSum(low: nat, rest: nat, k: nat)
    requires low < 2
    ensures Bit(low + 2 * rest, k) == if k == 0 then low else Bit(rest, k - 1)
  {
    hide Bit;
    var x := low + 2 * rest;
    assert x % 2 == low && x / 2 == rest;
    if k == 0 {
      BitZero(x);
    } else {
      BitStep(x, k);
    }
  }

  lemma Parities(a: nat, b: nat)
    ensures (a + b) % 2 == 1 <==> a % 2 != b % 2
  {
  }

  lemma {:induction false} BitsOfXor(a: nat, b: nat, n: nat, k: nat)
    requires k < n
    ensures Bit(XorBits(a, b, n), k) == 1 <==> Bit(a, k) != Bit(b, k)
    decreases n
  {
    hide Bit, Pow2;
    Parities(a, b);
    BitOfSum((a + b) % 2, XorBits(a / 2, b / 2, n - 1), k);
    if k == 0 {
      BitZero(a);
      BitZero(b);
    } else {
      BitStep(a, k);
      BitStep(b, k);
      BitsOfXor(a / 2, b / 2, n - 1, k - 1);
    }
  }

  lemma {:induction false} BitsOfAnd(a: nat, b: nat, n: nat, k: nat)
    requires k < n
    ensures Bit(AndBits(a, b, n), k) == 1 <==> Bit(a, k) == 1 && Bit(b, k) == 1
    decreases n
  {
    hide Bit, Pow2;
    BitOfSum(if a % 2 == 1 && b % 2 == 1 then 1 else 0, AndBits(a / 2, b / 2, n - 1), k);
    if k == 0 {
      BitZero(a);
      BitZero(b);
    } else {
      BitStep(a, k);
      BitStep(b, k);
      BitsOfAnd(a / 2, b / 2, n - 1, k - 1);
    }
  }

  /** Bit by bit: an exclusive or has a bit exactly where its operands differ, and a conjunction exactly
      where both have it. */
  lemma BitwiseLaws(a: u32, b: u32, k: nat)
    requires k < 32
    ensures Bit(Xor(a, b), k) == 1 <==> Bit(a, k) != Bit(b, k)
    ensures Bit(And(a, b), k) == 1 <==> Bit(a, k) == 1 && Bit(b, k) == 1
  {
    hide Bit, XorBits, AndBits;
    BitsOfXor(a, b, 32, k);
    BitsOfAnd(a, b, 32, k);
  }

  lemma Remainder(x: nat, q: nat, r: nat)
    requires r < 0x1_0000_0000 && x == q * 0x1_0000_0000 + r
    ensures x % M32 == r
  {
  }

  /** A number doubled modulo 2^32, from the number modulo 2^32. */
  lemma AddTwice(x: nat)
    ensures Add(x % M32, x % M32) == 2 * x % M32
  {
    var q, r := x / 0x1_0000_0000, x % 0x1_0000_0000;
    if 2 * r < 0x1_0000_0000 {
      Remainder(2 * x, 2 * q, 2 * r);
    } else {
      Remainder(2 * x, 2 * q + 1, 2 * r - 0x1_0000_0000);
    }
  }

  /** Shifting a number that is kept modulo 2^32. */
  function Kept(x: nat, n: nat): u32 {
    ShiftLeft(x % M32, n)
  }

  lemma LeftOnce(x: nat, y: nat, n: nat)
    requires y == 2 * x
    ensures Kept(x, n + 1) == Kept(y, n)
  {
    AddTwice(x);
  }

  lemma KeptWord(v: u32, n: nat)
    ensures Kept(v, n) == ShiftLeft(v, n)
  {
    hide ShiftLeft;
  }

  lemma KeptZero(x: nat)
    ensures Kept(x, 0) == x % M32
  {
    hide ShiftLeft, ShiftRight;
    ShiftNone(x % M32);
  }

  lemma RightOnce(v: u32, n: nat)
    ensures ShiftRight(v, n + 1) == ShiftRight(v / 2, n)
  {
  }

  lemma LeftFour(v: u32)
    ensures ShiftLeft(v, 4) == v * 16 % M32
  {
    hide ShiftLeft, Kept;
    KeptWord(v, 4);
    LeftOnce(v, 2 * v, 3);
    LeftOnce(2 * v, 4 * v, 2);
    LeftOnce(4 * v, 8 * v, 1);
    LeftOnce(8 * v, v * 16, 0);
    KeptZero(v * 16);
  }

  lemma ShiftNone(v: u32)
    ensures ShiftLeft(v, 0) == v == ShiftRight(v, 0)
  {
  }

  lemma RightFive(v: u32)
    ensures ShiftRight(v, 5) == v / 32
  {
    hide ShiftRight;
    RightOnce(v, 4);
    RightOnce(v / 2, 3);
    RightOnce(v / 4, 2);
    RightOnce(v / 8, 1);
    RightOnce(v / 16, 0);
    ShiftNone(v / 32);
  }

  lemma RightEleven(v: u32)
    ensures ShiftRight(v, 11) == v / 2048
  {
    hide ShiftRight;
    RightOnce(v, 10);
    RightOnce(v / 2, 9);
    RightOnce(v / 4, 8);
    RightOnce(v / 8, 7);
    RightOnce(v / 16, 6);
    RightOnce(v / 32, 5);
    RightFive(v / 64);
  }

  /** The shifts and masks of the cipher in plain arithmetic. */
  lemma ShiftsArePlain(v: u32)
    ensures ShiftLeft(v, 4) == v * 16 % M32
    ensures ShiftRight(v, 5) == v / 32
    ensures ShiftRight(v, 11) == v / 2048
  {
    hide ShiftLeft, ShiftRight;
    LeftFour(v);
    RightFive(v);
    RightEleven(v);
  }

  lemma AndThree(v: u32)
    ensures And(v, 3) == v % 4
  {
    hide AndBits;
    AndStep(v, 3, 32);
    AndStep(v / 2, 1, 31);
    AndBitsZero(v / 2 / 2, 30);
  }

  /** A word in memory in plain arithmetic. */
  function Little(a: nat, b: nat, c: nat, d: nat): nat {
    a + 0x100 * b + 0x1_0000 * c + 0x100_0000 * d
  }

  lemma WordIsPlain(s: seq<u8>)
    requires |s| == 4
    ensures Word(s) == Little(s[0], s[1], s[2], s[3])
  {
    assert FromBytes(s[1..]) == s[1] + 0x100 * FromBytes(s[1..][1..]);
    assert FromBytes(s[1..][1..]) == s[2] + 0x100 * FromBytes(s[1..][1..][1..]);
    assert FromBytes(s[1..][1..][1..]) == s[3];
  }

  /** The first n bytes of a word in memory, the low one first. */
  function ToBytes(w: nat, n: nat): (s: seq<u8>)
    ensures |s| == n
    decreases n, w
  {
    if n == 0 then [] else [w % 0x100] + ToBytes(w / 0x100, n - 1)
  }

  /** The word that bytes in memory hold. */
  function FromBytes(s: seq<u8>): (w: nat)
    ensures w < Limit(|s|)
  {
    if s == [] then 0 else s[0] + 0x100 * FromBytes(s[1..])
  }

  function Limit(n: nat): nat {
    if n == 0 then 1 else 0x100 * Limit(n - 1)
  }

  lemma {:induction false} FromToBytes(w: nat, n: nat)
    requires w < Limit(n)
    ensures FromBytes(ToBytes(w, n)) == w
  {
    if n != 0 {
      FromToBytes(w / 0x100, n - 1);
      assert ToBytes(w, n)[1..] == ToBytes(w / 0x100, n - 1);
    }
  }

  lemma LowByte(low: nat, high: nat)
    requires low < 0x100
    ensures (low + 0x100 * high) % 0x100 == low && (low + 0x100 * high) / 0x100 == high
  {
  }

  lemma {:induction false} ToFromBytes(s: seq<u8>)
    ensures ToBytes(FromBytes(s), |s|) == s
  {
    if s != [] {
      var high := FromBytes(s[1..]);
      LowByte(s[0], high);
      ToFromBytes(s[1..]);
    }
  }

  function WordBytes(w: u32): (s: seq<u8>)
    ensures |s| == 4
  {
    ToBytes(w, 4)
  }

  function Word(s: seq<u8>): u32
    requires |s| == 4
  {
    assert Limit(4) == M32;
    FromBytes(s)
  }

  lemma WordOfBytes(w: u32)
    ensures Word(WordBytes(w)) == w
  {
    assert Limit(4) == M32;
    FromToBytes(w, 4);
  }

  lemma BytesOfWord(s: seq<u8>)
    requires |s| == 4
    ensures WordBytes(Word(s)) == s
  {
    ToFromBytes(s);
  }

  function HalfBytes(h: u16): (s: seq<u8>)
    ensures |s| == 2
  {
    ToBytes(h, 2)
  }

  function Half(s: seq<u8>): u16
    requires |s| == 2
  {
    assert Limit(2) == 0x1_0000;
    FromBytes(s)
  }

  lemma HalfOfBytes(h: u16)
    ensures Half(HalfBytes(h)) == h
  {
    assert Limit(2) == 0x1_0000;
    FromToBytes(h, 2);
  }

  lemma BytesOfHalf(s: seq<u8>)
    requires |s| == 2
    ensures HalfBytes(Half(s)) == s
  {
    ToFromBytes(s);
  }

  function Reversed(s: seq<u8>): (r: seq<u8>)
    ensures |r| == |s|
    ensures forall i :: 0 <= i < |s| ==> r[i] == s[|s| - 1 - i]
  {
    if s == [] then [] else Reversed(s[1..]) + [s[0]]
  }

  lemma ReversedTwice(s: seq<u8>)
    ensures Reversed(Reversed(s)) == s
  {
  }

  /** htonl and ntohl on a little-endian machine. */
  function Swap32(w: u32): u32 {
    Word(Reversed(WordBytes(w)))
  }

  /** htons and ntohs on a little-endian machine. */
  function Swap16(h: u16): u16 {
    Half(Reversed(HalfBytes(h)))
  }

  lemma Swap32Involution(w: u32)
    ensures Swap32(Swap32(w)) == w
  {
    BytesOfWord(Reversed(WordBytes(w)));
    ReversedTwice(WordBytes(w));
    WordOfBytes(w);
  }

  lemma Swap16Involution(h: u16)
    ensures Swap16(Swap16(h)) == h
  {
    BytesOfHalf(Reversed(HalfBytes(h)));
    ReversedTwice(HalfBytes(h));
    HalfOfBytes(h);
  }

  /** `sqlite3_column_int`: the low 32 bits of the stored 64-bit value, read as a signed int. */
  function ColumnInt(v: int): int {
    var low := v % M32;
    if low < 0x8000_0000 then low else low - M32
  }

  /** The implicit conversions of an int to uint32_t and to uint16_t. */
  function ToU32(v: int): u32 {
    v % M32
  }

  function ToU16(v: int): u16 {
    v % 0x1_0000
  }

  /** `%d` applied to a uint32_t prints this value. */
  function SignedValue(w: u32): int {
    if w < 0x8000_0000 then w else w - M32
  }

  /** It is the signed 32-bit number with the same low word: exactly one is. */
  lemma ColumnIntExactly(v: int)
    ensures -0x8000_0000 <= ColumnInt(v) < 0x8000_0000 && (v - ColumnInt(v)) % 0x1_0000_0000 == 0
  {
    var q, low := v / 0x1_0000_0000, v % 0x1_0000_0000;
    assert v - ColumnInt(v) == 0x1_0000_0000 * (if low < 0x8000_0000 then q else q + 1);
  }

  /** A word written to an INTEGER column comes back unchanged through the signed reader. */
  lemma StoredWordReturns(w: u32)
    ensures ToU32(ColumnInt(w)) == w
  {
  }

  lemma StoredHalfReturns(h: u16)
    ensures ToU16(ColumnInt(h)) == h
  {
  }

}
