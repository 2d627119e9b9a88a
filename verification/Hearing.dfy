/** What a peer reads when a record comes enciphered under another peer's key, and how PONGs go back
    and forth between two peers. The verb of a record is in its first block, so the first blocks are
    all that matters. */
module Hearing {
  import opened Bytes
  import opened Text
  import opened Xtea
  import opened Cipher
  import opened Records

  /** The first block of a record: its verb and the seven bytes behind it. */
  type Head = s: seq<u8> | |s| == BLOCK_SIZE witness seq(BLOCK_SIZE, _ => 0)
  type Tail = s: seq<u8> | |s| == BLOCK_SIZE - 1 witness seq(BLOCK_SIZE - 1, _ => 0)

  function ZeroTail(): Tail {
    Zeros(BLOCK_SIZE - 1)
  }

  function HeadOf(r: Record): Head {
    r[..BLOCK_SIZE]
  }

  function TailOf(r: Record): Tail {
    r[1..BLOCK_SIZE]
  }

  /** A record sent under one key and read under another. */
  function Heard(reader: Key, sender: Key, rec: Record): Record {
    Open(reader, Seal(sender, rec))
  }

  function HeardHead(reader: Key, sender: Key, head: Head): Head {
    CryptBlock(CryptBlock(head, XteaMap(sender, true)), XteaMap(reader, false))
  }

  /** The first block that is read depends on the first block that was sent, and on nothing else. */
  lemma HeardHeadOf(reader: Key, sender: Key, rec: Record)
    ensures HeadOf(Heard(reader, sender, rec)) == HeardHead(reader, sender, HeadOf(rec))
  {
    hide CryptBlock, XteaMap, Crypt;
    var f, g := XteaMap(sender, true), XteaMap(reader, false);
    CryptBlockwise(rec, f, 0);
    CryptBlockwise(Crypt(rec, f), g, 0);
    assert Chunk(rec, 0) == HeadOf(rec);
    assert Chunk(Crypt(Crypt(rec, f), g), 0) == HeadOf(Crypt(Crypt(rec, f), g));
  }

  /** Under one key everything is read as it was sent. */
  lemma SameKeyHears(k: Key, rec: Record, head: Head)
    ensures Heard(k, k, rec) == rec && HeardHead(k, k, head) == head
  {
    hide CryptBlock, XteaMap, Crypt;
    OpenSeal(k, rec);
    XteaMapsUndo(k, true);
    CryptBlockInverse(head, XteaMap(k, true), XteaMap(k, false));
  }

  function PongHead(tail: Tail): Head {
    [PER_PONG] + tail
  }

  /** A peer answers what it reads as a PING: the first block of its PONG, if it answers. */
  function Reply(read: Head): Option<Head> {
    if read[0] == PER_PING then Some(PongHead(read[1..])) else None
  }

  /** The first block of the n-th PONG of an exchange, sent by the peer with key `mine` to the one with
      key `theirs`: the first answers a PING that carries the tail, and each later one answers a PONG
      of the other peer that is read as a PING. */
  function Answer(mine: Key, theirs: Key, tail: Tail, n: nat): Option<Head>
    decreases n
  {
    if n == 0 then Some(PongHead(tail)) else
      match Answer(theirs, mine, tail, n - 1)
      case None => None
      case Some(prev) => Reply(HeardHead(mine, theirs, prev))
  }

  /** The n-th PONG of the sender is read as a PONG. */
  predicate ReadAsPong(reader: Key, sender: Key, tail: Tail, n: nat) {
    Answer(sender, reader, tail, n).Some?
    && HeardHead(reader, sender, Answer(sender, reader, tail, n).value)[0] == PER_PONG
  }

  /** Under one key the exchange is over after the first PONG, which is read as such. */
  lemma SameKeyAnswers(k: Key, tail: Tail, n: nat)
    ensures ReadAsPong(k, k, tail, n) <==> n == 0
  {
    hide HeardHead;
    SameKeyHears(k, ZeroRecord(), PongHead(tail));
    if n != 0 {
      OverAfterFirst(k, tail, n);
    }
  }

  lemma {:induction false} OverAfterFirst(k: Key, tail: Tail, n: nat)
    requires n != 0
    ensures Answer(k, k, tail, n).None?
  {
    hide HeardHead;
    if n == 1 {
      SameKeyHears(k, ZeroRecord(), PongHead(tail));
      assert Answer(k, k, tail, 0) == Some(PongHead(tail));
    } else {
      OverAfterFirst(k, tail, n - 1);
    }
  }

}
