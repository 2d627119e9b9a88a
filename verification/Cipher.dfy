/** per_id.cpp: `ed`, the block-wise transform of a byte buffer under XTEA. */
module Cipher {
  import opened Bytes
  import opened Xtea

  const BLOCK_SIZE: nat := 8

  /** What is applied to each block. */
  type BlockMap = Block -> Block

  function XteaMap(k: Key, encrypt: bool): BlockMap {
    if encrypt then b => Enciphered(ROUNDS, b, k) else b => Deciphered(ROUNDS, b, k)
  }

  /** Applying `f` and then `g` gives every block back. */
  ghost predicate Undoes(g: BlockMap, f: BlockMap) {
    forall b :: g(f(b)) == b
  }

  lemma XteaMapsUndo(k: Key, encrypt: bool)
    ensures Undoes(XteaMap(k, !encrypt), XteaMap(k, encrypt))
  {
    hide Enciphered, Deciphered;
    forall b: Block
      ensures XteaMap(k, !encrypt)(XteaMap(k, encrypt)(b)) == b
    {
      XteaInverse(ROUNDS, b, k);
    }
  }

  /** The block that eight bytes of memory hold as two uint32_t, and the bytes of a block. */
  function Load(s: seq<u8>): Block
    requires |s| == BLOCK_SIZE
  {
    Block(Word(s[..4]), Word(s[4..]))
  }

  function Store(b: Block): (s: seq<u8>)
    ensures |s| == BLOCK_SIZE
  {
    WordBytes(b.v0) + WordBytes(b.v1)
  }

  lemma LoadStore(b: Block)
    ensures Load(Store(b)) == b
  {
    WordOfBytes(b.v0);
    WordOfBytes(b.v1);
    assert Store(b)[..4] == WordBytes(b.v0) && Store(b)[4..] == WordBytes(b.v1);
  }

  lemma StoreLoad(s: seq<u8>)
    requires |s| == BLOCK_SIZE
    ensures Store(Load(s)) == s
  {
    BytesOfWord(s[..4]);
    BytesOfWord(s[4..]);
  }

  function CryptBlock(s: seq<u8>, f: BlockMap): (r: seq<u8>)
    requires |s| == BLOCK_SIZE
    ensures |r| == BLOCK_SIZE
  {
    Store(f(Load(s)))
  }

  lemma CryptBlockInverse(s: seq<u8>, f: BlockMap, g: BlockMap)
    requires |s| == BLOCK_SIZE && Undoes(g, f)
    ensures CryptBlock(CryptBlock(s, f), g) == s
  {
    LoadStore(f(Load(s)));
    StoreLoad(s);
  }

  /** The j-th block of a buffer. */
  function Chunk(s: seq<u8>, j: nat): (c: seq<u8>)
    requires BLOCK_SIZE * j + BLOCK_SIZE <= |s|
    ensures |c| == BLOCK_SIZE
  {
    s[BLOCK_SIZE * j..BLOCK_SIZE * j + BLOCK_SIZE]
  }

  predicate Whole(s: seq<u8>) {
    |s| % BLOCK_SIZE == 0
  }

  /** The byte at position i of the transformed buffer. */
  function CryptByte(s: seq<u8>, f: BlockMap, i: nat): u8
    requires Whole(s) && i < |s|
  {
    CryptBlock(Chunk(s, i / BLOCK_SIZE), f)[i % BLOCK_SIZE]
  }

  /** The transform of a buffer of whole blocks. */
  function Crypt(s: seq<u8>, f: BlockMap): (r: seq<u8>)
    requires Whole(s)
    ensures |r| == |s|
  {
    seq(|s|, i requires 0 <= i < |s| => CryptByte(s, f, i))
  }

  /** The buffer completed to whole blocks: the program copies the last bytes over a stack buffer
      that holds `junk`. */
  function Padded(s: seq<u8>, junk: seq<u8>): (r: seq<u8>)
    requires |junk| == BLOCK_SIZE
    ensures Whole(r) && s <= r
    ensures Whole(s) ==> r == s
  {
    if Whole(s) then s else s + junk[|s| % BLOCK_SIZE..]
  }

  /** The whole transform, for a buffer of any length. */
  function EdOf(s: seq<u8>, f: BlockMap, junk: seq<u8>): (r: seq<u8>)
    requires |junk| == BLOCK_SIZE
    ensures |r| == |s|
  {
    Crypt(Padded(s, junk), f)[..|s|]
  }

  /** Each block of the result is the transform of the same block of the input, and so depends on
      no other byte. */
  lemma CryptBlockwise(s: seq<u8>, f: BlockMap, j: nat)
    requires Whole(s) && BLOCK_SIZE * j + BLOCK_SIZE <= |s|
    ensures Chunk(Crypt(s, f), j) == CryptBlock(Chunk(s, j), f)
  {
    hide CryptBlock;
    var c := Crypt(s, f);
    forall i | 0 <= i < BLOCK_SIZE
      ensures Chunk(c, j)[i] == CryptBlock(Chunk(s, j), f)[i]
    {
      var n := BLOCK_SIZE * j + i;
      assert n / BLOCK_SIZE == j && n % BLOCK_SIZE == i;
      assert c[n] == CryptByte(s, f, n);
    }
  }

  /** Undoing every block undoes the buffer. */
  lemma CryptInverse(s: seq<u8>, f: BlockMap, g: BlockMap)
    requires Whole(s) && Undoes(g, f)
    ensures Crypt(Crypt(s, f), g) == s
  {
    hide CryptBlock;
    var c := Crypt(s, f);
    forall i | 0 <= i < |s|
      ensures CryptByte(c, g, i) == s[i]
    {
      var j := i / BLOCK_SIZE;
      CryptBlockwise(s, f, j);
      CryptBlockInverse(Chunk(s, j), f, g);
    }
  }

  /** For any length, and whatever the two stack buffers hold, the whole blocks return. */
  lemma EdRoundTrip(s: seq<u8>, f: BlockMap, g: BlockMap, junk: seq<u8>, junk': seq<u8>, j: nat)
    requires |junk| == |junk'| == BLOCK_SIZE
    requires Undoes(g, f) && BLOCK_SIZE * j + BLOCK_SIZE <= |s|
    ensures Chunk(EdOf(EdOf(s, f, junk), g, junk'), j) == Chunk(s, j)
  {
    hide CryptBlock, Crypt;
    var c := EdOf(s, f, junk);
    var p, q := Padded(s, junk), Padded(c, junk');
    assert Chunk(p, j) == Chunk(s, j);
    CryptBlockwise(p, f, j);
    assert Chunk(q, j) == Chunk(c, j) == Chunk(Crypt(p, f), j);
    CryptBlockwise(q, g, j);
    CryptBlockInverse(Chunk(s, j), f, g);
    assert Chunk(EdOf(c, g, junk'), j) == Chunk(Crypt(q, g), j);
  }

  /** `ed` under a key is a bijection on the buffers of whole blocks: decrypting undoes encrypting
      and encrypting undoes decrypting. */
  lemma EdBijective(s: seq<u8>, k: Key, encrypt: bool, junk: seq<u8>)
    requires |junk| == BLOCK_SIZE && Whole(s)
    ensures EdOf(EdOf(s, XteaMap(k, encrypt), junk), XteaMap(k, !encrypt), junk) == s
  {
    hide XteaMap, Crypt;
    XteaMapsUndo(k, encrypt);
    CryptInverse(s, XteaMap(k, encrypt), XteaMap(k, !encrypt));
    var c := Crypt(s, XteaMap(k, encrypt));
    assert EdOf(s, XteaMap(k, encrypt), junk) == c;
    assert Padded(c, junk) == c;
  }

  /** Eight bytes of memory as the two words they hold, low byte first. */
  function Words(s: seq<u8>): Block
    requires |s| == BLOCK_SIZE
  {
    WordIsPlain(s[..4]);
    WordIsPlain(s[4..]);
    Block(Little(s[0], s[1], s[2], s[3]), Little(s[4], s[5], s[6], s[7]))
  }

  lemma LoadIsWords(s: seq<u8>)
    requires |s| == BLOCK_SIZE
    ensures Load(s) == Words(s)
  {
    hide Word;
    WordIsPlain(s[..4]);
    WordIsPlain(s[4..]);
  }

  /** Each eight bytes of an encrypted buffer are the 32 cycles of the published cipher applied to the two
      words of the same eight bytes of the input; decrypting goes back. */
  lemma EdIsTheCipher(s: seq<u8>, k: Key, junk: seq<u8>, j: nat)
    requires |junk| == BLOCK_SIZE && Whole(s) && BLOCK_SIZE * j + BLOCK_SIZE <= |s|
    ensures Words(Chunk(EdOf(s, XteaMap(k, true), junk), j)) == Cycles(32, Words(Chunk(s, j)), k)
    ensures Cycles(32, Words(Chunk(EdOf(s, XteaMap(k, false), junk), j)), k) == Words(Chunk(s, j))
  {
    hide Words, Load, Store, Enciphered, Deciphered, Cycles, CryptByte;
    var c := Chunk(s, j);
    var b := Load(c);
    CryptBlockwise(s, XteaMap(k, true), j);
    CryptBlockwise(s, XteaMap(k, false), j);
    assert EdOf(s, XteaMap(k, true), junk) == Crypt(s, XteaMap(k, true));
    assert EdOf(s, XteaMap(k, false), junk) == Crypt(s, XteaMap(k, false));
    BothWays(32, b, k);
    LoadStore(Enciphered(32, b, k));
    LoadStore(Deciphered(32, b, k));
    LoadIsWords(c);
    LoadIsWords(Store(Enciphered(32, b, k)));
    LoadIsWords(Store(Deciphered(32, b, k)));
  }

  /** The eight bytes read as two words, transformed, and laid out again. */
  method CryptWords(s: seq<u8>, key: Key, encrypt: bool) returns (r: seq<u8>)
    requires |s| == BLOCK_SIZE
    ensures r == CryptBlock(s, XteaMap(key, encrypt))
  {
    hide Enciphered, Deciphered, Word, WordBytes;
    var v := new u32[2];
    v[0], v[1] := Word(s[..4]), Word(s[4..]);
    if encrypt {
      XteaEncipher(ROUNDS, v, key);
    } else {
      XteaDecipher(ROUNDS, v, key);
    }
    r := Store(Block(v[0], v[1]));
  }

  method CryptAt(out: array<u8>, j: nat, key: Key, encrypt: bool)
    requires BLOCK_SIZE * j + BLOCK_SIZE <= out.Length
    modifies out
    ensures Chunk(out[..], j) == old(CryptBlock(Chunk(out[..], j), XteaMap(key, encrypt)))
    ensures forall i :: 0 <= i < out.Length && !(BLOCK_SIZE * j <= i < BLOCK_SIZE * j + BLOCK_SIZE) ==> out[i] == old(out[i])
  {
    hide CryptBlock;
    var at := BLOCK_SIZE * j;
    var bytes := CryptWords(out[at..at + BLOCK_SIZE], key, encrypt);
    for n := 0 to BLOCK_SIZE
      invariant forall i :: 0 <= i < n ==> out[at + i] == bytes[i]
      invariant forall i :: 0 <= i < out.Length && !(at <= i < at + BLOCK_SIZE) ==> out[i] == old(out[i])
    {
      out[at + n] := bytes[n];
    }
  }

  /** The first n bytes of `t` are the first n bytes of the transform of `p`. */
  ghost predicate Done(t: seq<u8>, p: seq<u8>, f: BlockMap, n: nat)
    requires Whole(p) && n <= |p| && n <= |t|
  {
    forall i :: 0 <= i < n ==> t[i] == CryptByte(p, f, i)
  }

  lemma BlockDone(before: seq<u8>, t: seq<u8>, p: seq<u8>, j: nat, f: BlockMap)
    requires Whole(p) && BLOCK_SIZE * j + BLOCK_SIZE <= |p| && BLOCK_SIZE * j + BLOCK_SIZE <= |t| == |before|
    requires Done(before, p, f, BLOCK_SIZE * j)
    requires t[..BLOCK_SIZE * j] == before[..BLOCK_SIZE * j]
    requires Chunk(t, j) == CryptBlock(Chunk(p, j), f)
    ensures Done(t, p, f, BLOCK_SIZE * j + BLOCK_SIZE)
  {
    hide CryptBlock;
    forall n | 0 <= n < BLOCK_SIZE * j + BLOCK_SIZE
      ensures t[n] == CryptByte(p, f, n)
    {
      if n < BLOCK_SIZE * j {
        assert t[n] == t[..BLOCK_SIZE * j][n] == before[..BLOCK_SIZE * j][n] == before[n];
      } else {
        assert n / BLOCK_SIZE == j && n % BLOCK_SIZE == n - BLOCK_SIZE * j;
        assert t[n] == Chunk(t, j)[n - BLOCK_SIZE * j];
      }
    }
  }

  method CopyIn(input: seq<u8>, out: array<u8>)
    requires |input| <= out.Length
    modifies out
    ensures out[..|input|] == input
    ensures out[|input|..] == old(out[|input|..])
  {
    for i := 0 to |input|
      invariant out[..i] == input[..i]
      invariant out[|input|..] == old(out[|input|..])
    {
      out[i] := input[i];
    }
  }

  /** The loop of `ed` over the whole blocks of the first `len` bytes. */
  method CryptBlocks(out: array<u8>, len: nat, key: Key, encrypt: bool, ghost p: seq<u8>)
    requires len <= out.Length && Whole(p) && out[..len] <= p
    modifies out
    ensures Done(out[..], p, XteaMap(key, encrypt), len / BLOCK_SIZE * BLOCK_SIZE)
    ensures out[len / BLOCK_SIZE * BLOCK_SIZE..] == old(out[len / BLOCK_SIZE * BLOCK_SIZE..])
  {
    hide CryptBlock, CryptByte, XteaMap;
    ghost var was := out[..];
    for j := 0 to len / BLOCK_SIZE
      invariant Done(out[..], p, XteaMap(key, encrypt), BLOCK_SIZE * j)
      invariant forall n :: BLOCK_SIZE * j <= n < out.Length ==> out[n] == was[n]
    {
      assert Chunk(out[..], j) == Chunk(was, j) == Chunk(p, j);
      ghost var before := out[..];
      CryptAt(out, j, key, encrypt);
      BlockDone(before, out[..], p, j, XteaMap(key, encrypt));
    }
  }

  /** The last, partial block: it is transformed in a stack buffer that holds `junk` on entry. */
  method CryptTail(out: array<u8>, len: nat, key: Key, encrypt: bool, junk: seq<u8>)
    requires len <= out.Length && len % BLOCK_SIZE != 0 && |junk| == BLOCK_SIZE
    modifies out
    ensures var w := len / BLOCK_SIZE * BLOCK_SIZE;
            && out[..w] == old(out[..w]) && out[len..] == old(out[len..])
            && out[w..len] == CryptBlock(old(out[w..len]) + junk[len - w..], XteaMap(key, encrypt))[..len - w]
  {
    hide CryptBlock, XteaMap;
    var mod, offset := len % BLOCK_SIZE, len / BLOCK_SIZE * BLOCK_SIZE;
    var data := CryptWords(out[offset..len] + junk[mod..], key, encrypt);
    for n := 0 to mod
      invariant out[..offset] == old(out[..offset]) && out[len..] == old(out[len..])
      invariant out[offset..offset + n] == data[..n]
    {
      out[offset + n] := data[n];
    }
  }

  /** `ed` itself: copy the input to `out`, then transform it there block by block. */
  method Ed(input: seq<u8>, out: array<u8>, key: Key, encrypt: bool, junk: seq<u8>)
    requires |input| <= out.Length
    requires |junk| == BLOCK_SIZE
    modifies out
    ensures out[..|input|] == EdOf(input, XteaMap(key, encrypt), junk)
    ensures out[|input|..] == old(out[|input|..])
  {
    hide CryptBlock, XteaMap;
    var len := |input|;
    ghost var p, w, f := Padded(input, junk), len / BLOCK_SIZE * BLOCK_SIZE, XteaMap(key, encrypt);
    CopyIn(input, out);
    CryptBlocks(out, len, key, encrypt, p);
    assert out[w..len] == out[w..][..len - w] == input[w..];
    if len % BLOCK_SIZE != 0 {
      ghost var whole := out[..w];
      CryptTail(out, len, key, encrypt, junk);
      assert Chunk(p, len / BLOCK_SIZE) == input[w..] + junk[len - w..];
      assert out[..w] == whole;
    }
    forall i | 0 <= i < len
      ensures out[i] == CryptByte(p, f, i)
    {
      if i >= w {
        assert i / BLOCK_SIZE == len / BLOCK_SIZE && i % BLOCK_SIZE == i - w;
        assert out[i] == out[w..len][i - w];
      } else {
        assert out[i] == out[..w][i];
      }
    }
  }

}
