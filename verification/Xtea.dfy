/** per_id.h: the XTEA rounds (Needham and Wheeler, "Tea Extensions", 1997). */
module Xtea {
  import opened Bytes

  const ROUNDS: u32 := 32
  const DELTA: u32 := 0x9E3779B9

  datatype Key = Key(k0: u32, k1: u32, k2: u32, k3: u32) {
    function At(i: nat): u32 {
      if i == 0 then k0 else if i == 1 then k1 else if i == 2 then k2 else k3
    }
  }

  datatype Block = Block(v0: u32, v1: u32)

  function Mix(v: u32): u32 {
    Add(Xor(ShiftLeft(v, 4), ShiftRight(v, 5)), v)
  }

  /** The term that changes v0: a function of v1 and the running sum. */
  function LowTerm(k: Key, v: u32, sum: u32): u32 {
    Xor(Mix(v), Add(sum, k.At(And(sum, 3))))
  }

  /** The term that changes v1: a function of v0 and the running sum. */
  function HighTerm(k: Key, v: u32, sum: u32): u32 {
    Xor(Mix(v), Add(sum, k.At(And(ShiftRight(sum, 11), 3))))
  }

  /** The two terms of a cycle. Nothing in the inversion depends on what they compute. */
  datatype Mixers = Mixers(low: (u32, u32) -> u32, high: (u32, u32) -> u32)

  function XteaMixers(k: Key): Mixers {
    Mixers((v, sum) => LowTerm(k, v, sum), (v, sum) => HighTerm(k, v, sum))
  }

  /** One cycle of encipherment entered with the running sum `sum`. */
  function Round(m: Mixers, b: Block, sum: u32): Block {
    var v0 := Add(b.v0, m.low(b.v1, sum));
    Block(v0, Add(b.v1, m.high(v0, Add(sum, DELTA))))
  }

  /** One cycle of decipherment that leaves the running sum `sum`. */
  function Unround(m: Mixers, b: Block, sum: u32): Block {
    var v1 := Sub(b.v1, m.high(b.v0, Add(sum, DELTA)));
    Block(Sub(b.v0, m.low(v1, sum)), v1)
  }

  /** The running sum after n cycles. */
  function Sum(n: nat): u32 {
    if n == 0 then 0 else Add(Sum(n - 1), DELTA)
  }

  function Forward(n: nat, b: Block, m: Mixers): Block {
    if n == 0 then b else Round(m, Forward(n - 1, b, m), Sum(n - 1))
  }

  function Backward(n: nat, b: Block, m: Mixers): Block {
    if n == 0 then b else Backward(n - 1, Unround(m, b, Sum(n - 1)), m)
  }

  function Enciphered(n: nat, b: Block, k: Key): Block {
    Forward(n, b, XteaMixers(k))
  }

  function Deciphered(n: nat, b: Block, k: Key): Block {
    Backward(n, b, XteaMixers(k))
  }

  lemma AddOfProduct(x: nat, d: u32)
    ensures Add(x % M32, d) == (x + d) % M32
  {
  }

  /** The sum that the encipher loop accumulates is the product modulo 2^32 from which the
      decipher loop starts. */
  lemma {:induction false} SumIsProduct(n: nat)
    ensures Sum(n) == DELTA * n % M32
  {
    if n != 0 {
      SumIsProduct(n - 1);
      AddOfProduct(DELTA * (n - 1), DELTA);
    }
  }

  lemma SubAdd(a: u32, b: u32)
    ensures Sub(Add(a, b), b) == a
    ensures Add(Sub(a, b), b) == a
  {
  }

  lemma UnroundRound(m: Mixers, b: Block, sum: u32)
    ensures Unround(m, Round(m, b, sum), sum) == b
    ensures Round(m, Unround(m, b, sum), sum) == b
  {
    var v0 := Add(b.v0, m.low(b.v1, sum));
    SubAdd(b.v0, m.low(b.v1, sum));
    SubAdd(b.v1, m.high(v0, Add(sum, DELTA)));
    SubAdd(b.v1, m.high(b.v0, Add(sum, DELTA)));
    var v1 := Sub(b.v1, m.high(b.v0, Add(sum, DELTA)));
    SubAdd(b.v0, m.low(v1, sum));
  }

  lemma {:induction false} BackwardForward(n: nat, b: Block, m: Mixers)
    ensures Backward(n, Forward(n, b, m), m) == b
  {
    if n != 0 {
      UnroundRound(m, Forward(n - 1, b, m), Sum(n - 1));
      BackwardForward(n - 1, b, m);
    }
  }

  lemma {:induction false} ForwardBackward(n: nat, b: Block, m: Mixers)
    ensures Forward(n, Backward(n, b, m), m) == b
  {
    if n != 0 {
      ForwardBackward(n - 1, Unround(m, b, Sum(n - 1)), m);
      UnroundRound(m, b, Sum(n - 1));
    }
  }

  /** For every key, every block and every round count, each routine undoes the other. */
  lemma XteaInverse(n: nat, b: Block, k: Key)
    ensures Deciphered(n, Enciphered(n, b, k), k) == b
    ensures Enciphered(n, Deciphered(n, b, k), k) == b
  {
    BackwardForward(n, b, XteaMixers(k));
    ForwardBackward(n, b, XteaMixers(k));
  }

  // ---------- the cycles in plain arithmetic

  /** The change that one half of the block makes to the other, with a key word added to a running sum. */
  function Change(v: u32, sum: u32, word: u32): u32 {
    Xor((Xor(v * 16 % M32, v / 32) + v) % M32, (sum + word) % M32)
  }

  /** One cycle of the published cipher: both halves change, the second after the sum has moved on. */
  function Cycle(k: Key, b: Block, sum: u32): Block {
    var v0 := (b.v0 + Change(b.v1, sum, k.At(sum % 4))) % M32;
    var next := (sum + 0x9E3779B9) % M32;
    Block(v0, (b.v1 + Change(v0, next, k.At(next / 2048 % 4))) % M32)
  }

  /** n cycles, with the sums 0, delta, 2 delta and so on modulo 2^32. */
  function Cycles(n: nat, b: Block, k: Key): Block {
    if n == 0 then b else Cycle(k, Cycles(n - 1, b, k), 0x9E3779B9 * (n - 1) % M32)
  }

  lemma AddIsPlain(a: u32, b: u32)
    ensures Add(a, b) == (a + b) % M32
  {
  }

  lemma TermsArePlain(k: Key, v: u32, sum: u32)
    ensures LowTerm(k, v, sum) == Change(v, sum, k.At(sum % 4))
    ensures HighTerm(k, v, sum) == Change(v, sum, k.At(sum / 2048 % 4))
  {
    hide Add, Xor, And, ShiftLeft, ShiftRight;
    ShiftsArePlain(v);
    ShiftsArePlain(sum);
    AddIsPlain(Xor(ShiftLeft(v, 4), ShiftRight(v, 5)), v);
    AndThree(sum);
    AndThree(ShiftRight(sum, 11));
    AddIsPlain(sum, k.At(sum % 4));
    AddIsPlain(sum, k.At(sum / 2048 % 4));
  }

  /** A round of the program is a cycle of the cipher. */
  lemma RoundIsCycle(k: Key, b: Block, sum: u32)
    ensures Round(XteaMixers(k), b, sum) == Cycle(k, b, sum)
  {
    hide Add, Xor, LowTerm, HighTerm, Change;
    var next := Add(sum, DELTA);
    AddIsPlain(sum, DELTA);
    TermsArePlain(k, b.v1, sum);
    AddIsPlain(b.v0, LowTerm(k, b.v1, sum));
    var v0 := Add(b.v0, LowTerm(k, b.v1, sum));
    TermsArePlain(k, v0, next);
    AddIsPlain(b.v1, HighTerm(k, v0, next));
  }

  /** And its n rounds are n cycles. */
  lemma {:induction false} EncipheredIsCycles(n: nat, b: Block, k: Key)
    ensures Enciphered(n, b, k) == Cycles(n, b, k)
  {
    hide Round, Cycle, XteaMixers;
    if n != 0 {
      EncipheredIsCycles(n - 1, b, k);
      SumIsProduct(n - 1);
      RoundIsCycle(k, Cycles(n - 1, b, k), Sum(n - 1));
    }
  }

  lemma BothWays(n: nat, b: Block, k: Key)
    ensures Enciphered(n, b, k) == Cycles(n, b, k) && Cycles(n, Deciphered(n, b, k), k) == b
  {
    hide Enciphered, Deciphered, Cycles;
    EncipheredIsCycles(n, b, k);
    EncipheredIsCycles(n, Deciphered(n, b, k), k);
    XteaInverse(n, b, k);
  }

  lemma {:induction false} XorNothing(a: nat, n: nat)
    requires a < Pow2(n)
    ensures XorBits(a, 0, n) == a
  {
    if n != 0 {
      XorNothing(a / 2, n - 1);
    }
  }

  /** With the zero key, one cycle takes the block (0, 1) to the first half (1 * 16 xor 1 / 32) + 1. */
  lemma FirstHalf()
    ensures Round(XteaMixers(Key(0, 0, 0, 0)), Block(0, 1), 0).v0 == 17
  {
    hide XorBits;
    RoundIsCycle(Key(0, 0, 0, 0), Block(0, 1), 0);
    Pow2At32();
    XorNothing(16, 32);
    XorNothing(17, 32);
  }

  /** `numRounds` cycles of the cipher, in place. */
  method XteaEncipher(numRounds: u32, v: array<u32>, key: Key)
    requires v.Length == 2
    modifies v
    ensures Block(v[0], v[1]) == old(Enciphered(numRounds, Block(v[0], v[1]), key))
    ensures Block(v[0], v[1]) == old(Cycles(numRounds, Block(v[0], v[1]), key))
  {
    hide Add, Sub, Xor, And, ShiftLeft, ShiftRight, Cycles;
    ghost var b, m := Block(v[0], v[1]), XteaMixers(key);
    BothWays(numRounds, b, key);
    var v0, v1, sum: u32 := v[0], v[1], 0;
    for i := 0 to numRounds
      invariant sum == Sum(i)
      invariant Block(v0, v1) == Forward(i, b, m)
    {
      v0 := Add(v0, Xor(Add(Xor(ShiftLeft(v1, 4), ShiftRight(v1, 5)), v1), Add(sum, key.At(And(sum, 3)))));
      sum := Add(sum, DELTA);
      v1 := Add(v1, Xor(Add(Xor(ShiftLeft(v0, 4), ShiftRight(v0, 5)), v0), Add(sum, key.At(And(ShiftRight(sum, 11), 3)))));
    }
    v[0], v[1] := v0, v1;
  }

  /** The block that `numRounds` cycles take to the one given, in place. */
  method XteaDecipher(numRounds: u32, v: array<u32>, key: Key)
    requires v.Length == 2
    modifies v
    ensures Block(v[0], v[1]) == old(Deciphered(numRounds, Block(v[0], v[1]), key))
    ensures Cycles(numRounds, Block(v[0], v[1]), key) == old(Block(v[0], v[1]))
  {
    hide Add, Sub, Xor, And, ShiftLeft, ShiftRight, Cycles;
    ghost var b, m := Block(v[0], v[1]), XteaMixers(key);
    BothWays(numRounds, b, key);
    var v0, v1, sum: u32 := v[0], v[1], DELTA * numRounds % M32;
    SumIsProduct(numRounds);
    for i := 0 to numRounds
      invariant sum == Sum(numRounds - i)
      invariant Backward(numRounds - i, Block(v0, v1), m) == Backward(numRounds, b, m)
    {
      ghost var next := Sum(numRounds - i - 1);
      SubAdd(next, DELTA);
      v1 := Sub(v1, Xor(Add(Xor(ShiftLeft(v0, 4), ShiftRight(v0, 5)), v0), Add(sum, key.At(And(ShiftRight(sum, 11), 3)))));
      sum := Sub(sum, DELTA);
      v0 := Sub(v0, Xor(Add(Xor(ShiftLeft(v1, 4), ShiftRight(v1, 5)), v1), Add(sum, key.At(And(sum, 3)))));
    }
    v[0], v[1] := v0, v1;
  }

}
