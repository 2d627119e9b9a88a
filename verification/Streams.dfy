/** sock.cpp, the stream loops: `sendall` and `receiveall` of tcp_sock against a kernel that moves as
    much as it likes per call, or refuses. */
module Streams {
  import opened Bytes

  /** What one call of send or recv returns, and errno after it. */
  datatype Answer = Answer(shot: int, errno: int)

  /** The kernel's answers to all calls on one socket, in order. */
  type Script = nat -> Answer

  const EAGAIN: int := 11

  predicate Moves(a: Answer) {
    a.shot > 0
  }

  predicate WouldBlock(a: Answer) {
    !Moves(a) && a.errno == EAGAIN
  }

  /** The kernel takes or gives no more than is offered. */
  function Shot(a: Answer, offered: nat): (n: nat)
    ensures n <= offered
    ensures n > 0 <==> Moves(a) && offered > 0
  {
    if a.shot <= 0 then 0 else if a.shot <= offered then a.shot else offered
  }

  /** Division by ten as C does it: toward zero. */
  function Tenth(t: int): int {
    if t < 0 then -(-t / 10) else t / 10
  }

  function Patience(tout: int): int {
    Tenth(tout) + 1
  }

  /** The budget of naps is the timeout divided by ten, toward zero, and one. */
  lemma PatienceExactly(tout: int)
    ensures 0 <= tout ==> 10 * (Patience(tout) - 1) <= tout < 10 * Patience(tout)
    ensures tout < 0 ==> 10 * (Patience(tout) - 2) < tout <= 10 * (Patience(tout) - 1)
  {
  }

  datatype Ending = Whole | NoErrno | OutOfPatience | Broken

  /** One run of `sendall`: bytes delivered, calls made, naps taken, how it ended and the last errno. */
  datatype SendRun = SendRun(sent: nat, calls: nat, naps: nat, ending: Ending, syserr: int)

  /** The run from call k on with `length` bytes left and `budget` naps left. */
  function Sending(script: Script, k: nat, length: nat, budget: int, syserr: int): SendRun
    decreases length, Least(budget)
  {
    if length == 0 then SendRun(0, 0, 0, Whole, syserr)
    else
      var a := script(k);
      if Moves(a) then Further(Sending(script, k + 1, length - Shot(a, length), budget, syserr), Shot(a, length), 0)
      else if a.errno == 0 then SendRun(0, 1, 0, NoErrno, 0)
      else if a.errno != EAGAIN then SendRun(0, 1, 0, Broken, a.errno)
      else if budget - 1 < 0 then SendRun(0, 1, 0, OutOfPatience, EAGAIN)
      else Further(Sending(script, k + 1, length, budget - 1, EAGAIN), 0, 1)
  }

  function Least(budget: int): nat {
    if budget < 0 then 0 else budget
  }

  function Further(r: SendRun, sent: nat, naps: nat): SendRun {
    SendRun(r.sent + sent, r.calls + 1, r.naps + naps, r.ending, r.syserr)
  }

  lemma SendStep(script: Script, k: nat, length: nat, budget: int, syserr: int)
    requires length != 0
    ensures var r, a := Sending(script, k, length, budget, syserr), script(k);
            if Moves(a) then
              r == Further(Sending(script, k + 1, length - Shot(a, length), budget, syserr), Shot(a, length), 0)
            else if WouldBlock(a) && budget - 1 >= 0 then
              r == Further(Sending(script, k + 1, length, budget - 1, EAGAIN), 0, 1)
            else
              && r.sent == 0 && r.calls == 1 && r.naps == 0 && r.syserr == a.errno
              && (r.ending == Broken <==> a.errno != 0 && a.errno != EAGAIN)
  {
  }

  lemma SendDone(script: Script, k: nat, budget: int, syserr: int)
    ensures Sending(script, k, 0, budget, syserr) == SendRun(0, 0, 0, Whole, syserr)
  {
  }

  // ---------- what the kernel allows, without the loop

  /** The bytes that n calls from k on would move. */
  function Flow(script: Script, k: nat, n: nat): nat
    decreases n
  {
    if n == 0 then 0 else Most(script(k).shot) + Flow(script, k + 1, n - 1)
  }

  function Most(shot: int): nat {
    if shot < 0 then 0 else shot
  }

  /** How many of them would block. */
  function Blocks(script: Script, k: nat, n: nat): nat
    decreases n
  {
    if n == 0 then 0 else (if WouldBlock(script(k)) then 1 else 0) + Blocks(script, k + 1, n - 1)
  }

  /** None of them fails in another way. */
  predicate Sound(script: Script, k: nat, n: nat)
    decreases n
  {
    n == 0 || ((Moves(script(k)) || WouldBlock(script(k))) && Sound(script, k + 1, n - 1))
  }

  /** n calls from k on are enough to deliver `length` bytes within the budget of naps. */
  predicate Enough(script: Script, k: nat, length: nat, budget: int, n: nat) {
    Flow(script, k, n) >= length && Sound(script, k, n) && Blocks(script, k, n) <= Least(budget)
  }

  /** A run stays within its bounds: at most the budget of naps, and at most one call per byte and per
      nap and one more. */
  lemma {:induction false} SendBounds(script: Script, k: nat, length: nat, budget: int, syserr: int)
    ensures var r := Sending(script, k, length, budget, syserr);
            && r.sent <= length && r.naps <= Least(budget) && r.calls <= r.sent + r.naps + 1
            && (r.sent == length <==> r.ending == Whole)
            && (r.ending == OutOfPatience ==> r.naps == Least(budget))
    decreases length, Least(budget)
  {
    if length != 0 {
      var a := script(k);
      if Moves(a) {
        SendBounds(script, k + 1, length - Shot(a, length), budget, syserr);
      } else if WouldBlock(a) && budget - 1 >= 0 {
        SendBounds(script, k + 1, length, budget - 1, EAGAIN);
      }
    }
  }

  /** sendall delivers everything if and only if some number of calls is enough. */
  lemma WholeExactly(script: Script, k: nat, length: nat, budget: int, syserr: int)
    ensures Sending(script, k, length, budget, syserr).sent == length <==> exists n :: Enough(script, k, length, budget, n)
  {
    if Sending(script, k, length, budget, syserr).sent == length {
      WholeEnough(script, k, length, budget, syserr);
    }
    forall n | Enough(script, k, length, budget, n)
      ensures Sending(script, k, length, budget, syserr).sent == length
    {
      EnoughWhole(script, k, length, budget, syserr, n);
    }
  }

  lemma {:induction false} WholeEnough(script: Script, k: nat, length: nat, budget: int, syserr: int)
    requires Sending(script, k, length, budget, syserr).sent == length
    ensures Enough(script, k, length, budget, Sending(script, k, length, budget, syserr).calls)
    decreases length, Least(budget)
  {
    SendBounds(script, k, length, budget, syserr);
    if length != 0 {
      var a := script(k);
      if Moves(a) {
        WholeEnough(script, k + 1, length - Shot(a, length), budget, syserr);
      } else {
        WholeEnough(script, k + 1, length, budget - 1, EAGAIN);
      }
    }
  }

  lemma {:induction false} EnoughWhole(script: Script, k: nat, length: nat, budget: int, syserr: int, n: nat)
    requires Enough(script, k, length, budget, n)
    ensures Sending(script, k, length, budget, syserr).sent == length
    decreases length, Least(budget)
  {
    if length != 0 {
      var a := script(k);
      if Moves(a) {
        var left := length - Shot(a, length);
        if left != 0 {
          EnoughWhole(script, k + 1, left, budget, syserr, n - 1);
        }
      } else {
        EnoughWhole(script, k + 1, length, budget - 1, EAGAIN, n - 1);
      }
    }
  }

  /** A short delivery is explained by the last call: it moved nothing, and errno was 0, or it failed for
      good, or it was the first to block after all naps were taken. */
  lemma {:induction false} ShortBecause(script: Script, k: nat, length: nat, budget: int, syserr: int)
    requires Sending(script, k, length, budget, syserr).sent < length
    ensures var r := Sending(script, k, length, budget, syserr);
            && r.calls > 0 && !Moves(script(k + r.calls - 1)) && r.syserr == script(k + r.calls - 1).errno
            && r.ending == (if r.syserr == 0 then NoErrno else if r.syserr != EAGAIN then Broken else OutOfPatience)
            && Sound(script, k, r.calls - 1) && Blocks(script, k, r.calls - 1) == r.naps
            && Flow(script, k, r.calls) == r.sent
    decreases length, Least(budget)
  {
    hide Shot;
    var a := script(k);
    if Moves(a) {
      ShortBecause(script, k + 1, length - Shot(a, length), budget, syserr);
      assert Shot(a, length) == a.shot by { ShotWhole(a, length); }
    } else if WouldBlock(a) && budget - 1 >= 0 {
      ShortBecause(script, k + 1, length, budget - 1, EAGAIN);
    }
  }

  lemma ShotWhole(a: Answer, length: nat)
    requires Moves(a) && Shot(a, length) != length
    ensures Shot(a, length) == a.shot
  {
  }

  /** With a larger timeout sendall never delivers less. */
  lemma {:induction false} PatienceHelps(script: Script, k: nat, length: nat, budget: int, more: int, syserr: int)
    requires budget <= more
    ensures Sending(script, k, length, budget, syserr).sent <= Sending(script, k, length, more, syserr).sent
    decreases length, Least(budget)
  {
    hide Sending, Shot;
    if length == 0 {
      SendDone(script, k, budget, syserr);
      SendDone(script, k, more, syserr);
    } else {
      var a := script(k);
      SendStep(script, k, length, budget, syserr);
      SendStep(script, k, length, more, syserr);
      if Moves(a) {
        PatienceHelps(script, k + 1, length - Shot(a, length), budget, more, syserr);
      } else if WouldBlock(a) && budget - 1 >= 0 {
        PatienceHelps(script, k + 1, length, budget - 1, more - 1, EAGAIN);
      }
    }
  }

  /** One run of `receiveall`: bytes stored and calls made, from `length` bytes wanted and `ready`
      bytes in the stream. */
  datatype ReceiveRun = ReceiveRun(got: nat, calls: nat)

  function Receiving(script: Script, k: nat, length: nat, ready: nat): ReceiveRun
    decreases length
  {
    if length == 0 then ReceiveRun(0, 0)
    else
      var shot := Given(script(k), length, ready);
      if shot == 0 then ReceiveRun(0, 1)
      else
        var r := Receiving(script, k + 1, length - shot, ready - shot);
        ReceiveRun(r.got + shot, r.calls + 1)
  }

  function Given(a: Answer, wanted: nat, ready: nat): (n: nat)
    ensures n <= wanted && n <= ready
  {
    Shot(a, if wanted <= ready then wanted else ready)
  }

  /** n calls from k on all give something. */
  predicate Steady(script: Script, k: nat, n: nat)
    decreases n
  {
    n == 0 || (Moves(script(k)) && Steady(script, k + 1, n - 1))
  }

  predicate Supplied(script: Script, k: nat, length: nat, n: nat) {
    Flow(script, k, n) >= length && Steady(script, k, n)
  }

  /** receiveall fills the buffer if and only if the bytes are there and come without a pause: unlike
      sendall it gives up at the first call that would block. */
  lemma FilledExactly(script: Script, k: nat, length: nat, ready: nat)
    ensures Receiving(script, k, length, ready).got == length <==> length <= ready && exists n :: Supplied(script, k, length, n)
  {
    ReceiveBounds(script, k, length, ready);
    if Receiving(script, k, length, ready).got == length {
      FilledSupplied(script, k, length, ready);
    }
    forall n | length <= ready && Supplied(script, k, length, n)
      ensures Receiving(script, k, length, ready).got == length
    {
      SuppliedFilled(script, k, length, ready, n);
    }
  }

  lemma {:induction false} ReceiveBounds(script: Script, k: nat, length: nat, ready: nat)
    ensures var r := Receiving(script, k, length, ready); r.got <= length && r.got <= ready && r.calls <= r.got + 1
    decreases length
  {
    if length != 0 {
      var shot := Given(script(k), length, ready);
      if shot != 0 {
        ReceiveBounds(script, k + 1, length - shot, ready - shot);
      }
    }
  }

  lemma {:induction false} FilledSupplied(script: Script, k: nat, length: nat, ready: nat)
    requires Receiving(script, k, length, ready).got == length
    ensures Supplied(script, k, length, Receiving(script, k, length, ready).calls)
    decreases length
  {
    if length != 0 {
      var shot := Given(script(k), length, ready);
      FilledSupplied(script, k + 1, length - shot, ready - shot);
    }
  }

  lemma {:induction false} SuppliedFilled(script: Script, k: nat, length: nat, ready: nat, n: nat)
    requires length <= ready && Supplied(script, k, length, n)
    ensures Receiving(script, k, length, ready).got == length
    decreases length
  {
    if length != 0 {
      var shot := Given(script(k), length, ready);
      if shot != length {
        SuppliedFilled(script, k + 1, length - shot, ready - shot, n - 1);
      }
    }
  }

  lemma SentSoFar(buff: seq<u8>, sent: nat, shot: nat)
    requires sent + shot <= |buff|
    ensures buff[..sent] + buff[sent..sent + shot] == buff[..sent + shot]
  {
  }

  lemma ReceiveStep(script: Script, k: nat, length: nat, ready: nat)
    requires length != 0
    ensures var shot := Given(script(k), length, ready);
            Receiving(script, k, length, ready)
            == if shot == 0 then ReceiveRun(0, 1) else
                 var r := Receiving(script, k + 1, length - shot, ready - shot);
                 ReceiveRun(r.got + shot, r.calls + 1)
  {
  }

  /** The buffer holds `data` from `at` on, and is otherwise as it was. */
  ghost predicate Stored(buff: seq<u8>, was: seq<u8>, at: nat, data: seq<u8>) {
    && at + |data| <= |buff| == |was|
    && buff[..at] == was[..at] && buff[at..at + |data|] == data && buff[at + |data|..] == was[at + |data|..]
  }

  /** The buffer holds the first `got` bytes of the stream, and is otherwise as it was. */
  ghost predicate Filled(buff: seq<u8>, stream: seq<u8>, was: seq<u8>, got: nat) {
    got <= |buff| == |was| && got <= |stream| && buff[..got] == stream[..got] && buff[got..] == was[got..]
  }

  lemma FilledMeans(buff: seq<u8>, stream: seq<u8>, was: seq<u8>, got: nat)
    requires Filled(buff, stream, was, got)
    ensures got <= |buff| == |was| && got <= |stream| && buff[..got] == stream[..got] && buff[got..] == was[got..]
  {
  }

  lemma ReceiveDone(script: Script, k: nat, ready: nat)
    ensures Receiving(script, k, 0, ready) == ReceiveRun(0, 0)
  {
  }

  lemma NoneFilled(buff: seq<u8>, stream: seq<u8>)
    ensures Filled(buff, stream, buff, 0)
  {
  }

  /** The next bytes of the stream are stored behind the first `got`. */
  lemma FilledFurther(buff: seq<u8>, before: seq<u8>, stream: seq<u8>, was: seq<u8>, got: nat, shot: nat)
    requires Filled(before, stream, was, got) && got + shot <= |stream|
    requires Stored(buff, before, got, stream[got..][..shot])
    ensures Filled(buff, stream, was, got + shot) && stream[got..][shot..] == stream[got + shot..]
  {
    assert buff[..got + shot] == buff[..got] + buff[got..got + shot];
    assert before[got + shot..] == before[got..][shot..];
  }

  method Store(buff: array<u8>, at: nat, data: seq<u8>)
    requires at + |data| <= buff.Length
    modifies buff
    ensures Stored(buff[..], old(buff[..]), at, data)
  {
    for i := 0 to |data|
      invariant buff[..at] == old(buff[..at]) && buff[at..at + i] == data[..i]
      invariant buff[at + |data|..] == old(buff[at + |data|..])
    {
      buff[at + i] := data[i];
    }
  }

  class TcpSock {
    /** The kernel behind the socket: its answers, the calls made so far, the bytes it took for the
        peer and the bytes that wait for us. */
    const script: Script
    var calls: nat
    var outgoing: seq<u8>
    var incoming: seq<u8>
    var naps: nat
    var syserr: int
    var isOpen: bool

    constructor (kernel: Script, waiting: seq<u8>)
      ensures script == kernel && calls == 0 && outgoing == [] && incoming == waiting && naps == 0 && syserr == 0
      ensures isOpen
    {
      script, calls, outgoing, incoming, naps, syserr, isOpen := kernel, 0, [], waiting, 0, 0, true;
    }

    /** send(2) on the bytes offered. */
    method KernelSend(buff: array<u8>, at: nat, length: nat) returns (a: Answer)
      requires at + length <= buff.Length
      modifies this`calls, this`outgoing
      ensures a == script(old(calls)) && calls == old(calls) + 1
      ensures outgoing == old(outgoing) + buff[at..at + Shot(a, length)]
    {
      a := script(calls);
      outgoing := outgoing + buff[at..at + Shot(a, length)];
      calls := calls + 1;
    }

    /** `sendall`. Exactly the first `sent` bytes of the buffer go out, in order and once, and the run
        is the one described by Sending; the socket is closed only by a failure that is not EAGAIN. */
    method SendAll(buff: array<u8>, length: nat, tout: int) returns (sent: nat)
      requires length <= buff.Length
      modifies this
      ensures var r := Sending(script, old(calls), length, Patience(tout), 0);
              && sent == r.sent <= length && outgoing == old(outgoing) + buff[..sent]
              && calls == old(calls) + r.calls && naps == old(naps) + r.naps
              && syserr == r.syserr && isOpen == (old(isOpen) && r.ending != Broken)
      ensures incoming == old(incoming)
      ensures naps - old(naps) <= Least(Patience(tout))
      ensures sent == length <==> exists n :: Enough(script, old(calls), length, Patience(tout), n)
    {
      hide Enough, Patience, Sending, Shot;
      ghost var whole := Sending(script, calls, length, Patience(tout), 0);
      var left: nat, budget := length, Patience(tout);
      sent, syserr := 0, 0;
      SendBounds(script, calls, length, budget, 0);
      WholeExactly(script, calls, length, budget, 0);
      while left > 0
        invariant left + sent == length <= buff.Length
        invariant calls >= old(calls) && naps >= old(naps) && isOpen == old(isOpen) && incoming == old(incoming)
        invariant outgoing == old(outgoing) + buff[..sent]
        invariant var r := Sending(script, calls, left, budget, syserr);
                  whole == SendRun(r.sent + sent, r.calls + (calls - old(calls)), r.naps + (naps - old(naps)), r.ending, r.syserr)
        decreases left, Least(budget)
      {
        SendStep(script, calls, left, budget, syserr);
        SentSoFar(buff[..], sent, Shot(script(calls), left));
        var a := KernelSend(buff, sent, left);
        var shot := Shot(a, left);
        if a.shot <= 0 {
          syserr := a.errno;
          if syserr == 0 { break; }
          if syserr == EAGAIN {
            budget := budget - 1;
            if budget < 0 { break; }
            naps := naps + 1;
            continue;
          }
          isOpen := false;
          break;
        }
        left := left - shot;
        sent := sent + shot;
      }
      SendDone(script, calls, budget, syserr);
    }

    /** `receive`: recv(2), with any failure but EAGAIN reported as the end of the stream. */
    method Receive(buff: array<u8>, at: nat, length: nat) returns (shot: int)
      requires at + length <= buff.Length
      modifies this`calls, this`incoming, this`syserr, buff
      ensures var n := Given(script(old(calls)), length, |old(incoming)|);
              && calls == old(calls) + 1 && incoming == old(incoming)[n..]
              && (if n > 0 then shot == n else shot <= 0)
              && Stored(buff[..], old(buff[..]), at, old(incoming)[..n])
    {
      var a := script(calls);
      var n := Given(a, length, |incoming|);
      calls, syserr := calls + 1, 0;
      if a.shot < 0 {
        syserr := a.errno;
        return if a.errno == EAGAIN then -1 else 0;
      }
      Store(buff, at, incoming[..n]);
      incoming := incoming[n..];
      shot := n;
    }

    /** `receiveall`. The first `got` bytes of the buffer are the first `got` bytes of the stream,
        which keeps the others; the rest of the buffer is as it was. */
    method ReceiveAll(buff: array<u8>, length: nat) returns (got: nat)
      requires length <= buff.Length
      modifies this`calls, this`incoming, this`syserr, buff
      ensures var r := Receiving(script, old(calls), length, |old(incoming)|);
              got == r.got <= length && got <= |old(incoming)| && calls == old(calls) + r.calls
      ensures buff[..got] == old(incoming)[..got] && buff[got..] == old(buff[got..])
      ensures incoming == old(incoming)[got..]
      ensures got == length <==> length <= |old(incoming)| && exists n :: Supplied(script, old(calls), length, n)
    {
      hide Supplied, Receiving, Given, Filled, Stored;
      ghost var stream, was, whole := incoming, buff[..], Receiving(script, calls, length, |incoming|);
      var left: nat := length;
      got, syserr := 0, 0;
      ReceiveBounds(script, calls, length, |incoming|);
      FilledExactly(script, calls, length, |incoming|);
      assert Filled(buff[..], stream, was, 0) by { NoneFilled(was, stream); }
      while left != 0
        invariant left + got == length <= buff.Length && got <= |stream| && calls >= old(calls)
        invariant incoming == stream[got..] && Filled(buff[..], stream, was, got)
        invariant var r := Receiving(script, calls, left, |incoming|);
                  whole == ReceiveRun(r.got + got, r.calls + (calls - old(calls)))
        decreases left
      {
        ReceiveStep(script, calls, left, |incoming|);
        ghost var before := buff[..];
        var shot := Receive(buff, got, left);
        ghost var n: nat := if shot > 0 then shot else 0;
        FilledFurther(buff[..], before, stream, was, got, n);
        if shot <= 0 { break; }
        left := left - shot;
        got := got + shot;
      }
      ReceiveDone(script, calls, |incoming|);
      FilledMeans(buff[..], stream, was, got);
    }
  }

}
