/**
 * The unbounded channel that connects the capture middleware (the sending
 * end) to the test thread (the receiving end). Its state is the sequence of
 * messages sent and not yet received, oldest first, the number of live
 * sending handles, and whether the receiving end has been dropped (after
 * which every send fails).
 */
module Channels {
  import opened Wrappers

  /** Why `try_recv` returns no message. */
  datatype TryRecvError = Empty | Disconnected

  class Channel<T> {
    var items: seq<T>
    var senders: nat
    var receiverDropped: bool

    /** `unbounded()`: a fresh, empty channel with one sender and one receiver. */
    constructor Unbounded()
      ensures items == [] && senders == 1 && !receiverDropped
    {
      items := [];
      senders := 1;
      receiverDropped := false;
    }

    /** `Sender::clone`: one more sending handle. */
    method CloneSender()
      requires senders > 0
      modifies this
      ensures senders == old(senders) + 1
      ensures items == old(items) && receiverDropped == old(receiverDropped)
    {
      senders := senders + 1;
    }

    /** A sending handle goes out of scope. */
    method DropSender()
      requires senders > 0
      modifies this
      ensures senders == old(senders) - 1
      ensures items == old(items) && receiverDropped == old(receiverDropped)
    {
      senders := senders - 1;
    }

    /**
     * `Sender::send`, called through a live sending handle: appends `x` while
     * the receiver is alive; otherwise fails and hands `x` back, leaving the
     * channel as it was.
     */
    method Send(x: T) returns (r: Result<(), T>)
      requires senders > 0
      modifies this
      ensures receiverDropped == old(receiverDropped) && senders == old(senders)
      ensures r.Success? <==> !old(receiverDropped)
      ensures r.Failure? ==> r.error == x
      ensures items == if old(receiverDropped) then old(items) else old(items) + [x]
    {
      if receiverDropped {
        r := Failure(x);
      } else {
        items := items + [x];
        r := Success(());
      }
    }

    /** `Receiver::len`: the number of messages waiting. */
    method Len() returns (n: nat)
      ensures n == |items|
    {
      n := |items|;
    }

    /**
     * `Receiver::try_recv`, called through the live receiving handle: never
     * waits; takes the oldest message if there is one, and otherwise says
     * whether any sender is left.
     */
    method TryRecv() returns (r: Result<T, TryRecvError>)
      requires !receiverDropped
      modifies this
      ensures receiverDropped == old(receiverDropped) && senders == old(senders)
      ensures (r.ToOption(), items) == Receive(old(items))
      ensures r.Failure? ==> r.error == if senders == 0 then Disconnected else Empty
    {
      if items != [] {
        r := Success(items[0]);
        items := items[1..];
      } else if senders == 0 {
        r := Failure(Disconnected);
      } else {
        r := Failure(Empty);
      }
    }

    /** The receiving handle goes away. */
    method DropReceiver()
      modifies this
      ensures receiverDropped && items == old(items) && senders == old(senders)
    {
      receiverDropped := true;
    }
  }

  /** One receive on a queue: the oldest element and the rest, or nothing. */
  function Receive<T>(q: seq<T>): (r: (Option<T>, seq<T>))
    ensures r.0.None? <==> q == []
    ensures q != [] ==> r.0.value == q[0] && r.1 == q[1..]
    ensures q == [] ==> r.1 == []
  {
    if q == [] then (None, []) else (Some(q[0]), q[1..])
  }

  /** An operation on a connected channel: a send or a receive. */
  datatype Op<T> = Push(x: T) | Pop

  /**
   * A run of operations from queue `q`: the queue left behind and the
   * results of the receives, in order.
   */
  function Run<T>(q: seq<T>, ops: seq<Op<T>>): (r: (seq<T>, seq<Option<T>>))
    ensures |r.1| == |ops| - |Sent(ops)|
    ensures |r.0| <= |q| + |Sent(ops)|
    decreases |ops|
  {
    if ops == [] then (q, [])
    else match ops[0]
      case Push(x) => Run(q + [x], ops[1..])
      case Pop =>
        var (o, rest) := Receive(q);
        var (left, results) := Run(rest, ops[1..]);
        (left, [o] + results)
  }

  /** The values a run sent, in order. */
  function Sent<T>(ops: seq<Op<T>>): seq<T>
    decreases |ops|
  {
    if ops == [] then []
    else match ops[0]
      case Push(x) => [x] + Sent(ops[1..])
      case Pop => Sent(ops[1..])
  }

  /** The values that receives delivered, in order, skipping the empty ones. */
  function Delivered<T>(results: seq<Option<T>>): seq<T>
    decreases |results|
  {
    if results == [] then []
    else match results[0]
      case Some(x) => [x] + Delivered(results[1..])
      case None => Delivered(results[1..])
  }

  function Pushes<T>(xs: seq<T>): (ops: seq<Op<T>>)
    ensures |ops| == |xs|
    ensures forall i :: 0 <= i < |xs| ==> ops[i] == Push(xs[i])
  {
    seq(|xs|, i requires 0 <= i < |xs| => Push(xs[i]))
  }

  function Pops<T>(n: nat): (ops: seq<Op<T>>)
    ensures |ops| == n
    ensures forall i :: 0 <= i < n ==> ops[i] == Pop
  {
    seq(n, _ => Pop)
  }

  function Somes<T>(xs: seq<T>): (r: seq<Option<T>>)
    ensures |r| == |xs|
    ensures forall i :: 0 <= i < |xs| ==> r[i] == Some(xs[i])
  {
    seq(|xs|, i requires 0 <= i < |xs| => Some(xs[i]))
  }

  /**
   * Nothing is lost, duplicated or reordered: what was delivered followed by
   * what is still queued is what was queued followed by what was sent.
   */
  lemma {:induction false} RunConserves<T>(q: seq<T>, ops: seq<Op<T>>)
    ensures Delivered(Run(q, ops).1) + Run(q, ops).0 == q + Sent(ops)
    decreases |ops|
  {
    if ops != [] {
      match ops[0]
      case Push(x) =>
        RunConserves(q + [x], ops[1..]);
        assert q + [x] + Sent(ops[1..]) == q + ([x] + Sent(ops[1..]));
      case Pop =>
        var rest := Receive(q).1;
        RunConserves(rest, ops[1..]);
        var results := Run(rest, ops[1..]).1;
        var all := [Receive(q).0] + results;
        assert Run(q, ops) == (Run(rest, ops[1..]).0, all);
        assert all[0] == Receive(q).0 && all[1..] == results;
        if q != [] {
          assert Delivered(all) == [q[0]] + Delivered(results);
          assert q == [q[0]] + rest;
          assert [q[0]] + Delivered(results) + Run(rest, ops[1..]).0
              == [q[0]] + (Delivered(results) + Run(rest, ops[1..]).0);
          assert [q[0]] + (rest + Sent(ops[1..])) == q + Sent(ops[1..]);
        } else {
          assert Delivered(all) == Delivered(results);
        }
    }
  }

  /** A receive reports nothing exactly when the queue it sees is empty. */
  lemma {:induction false} PopsOnEmpty<T>(n: nat)
    ensures Run([], Pops<T>(n)).0 == []
    ensures |Run([], Pops<T>(n)).1| == n
    ensures forall i :: 0 <= i < n ==> Run([], Pops<T>(n)).1[i] == None
    decreases n
  {
    if n > 0 {
      PopsOnEmpty<T>(n - 1);
      var ops := Pops<T>(n);
      assert ops[0] == Pop && ops[1..] == Pops<T>(n - 1);
      assert Run([], ops) == (Run([], ops[1..]).0, [None] + Run([], ops[1..]).1);
    } else {
      assert Pops<T>(n) == [];
    }
  }

  /** Sending appends to the queue and reports nothing. */
  lemma {:induction false} RunPushes<T>(q: seq<T>, xs: seq<T>, tail: seq<Op<T>>)
    ensures Run(q, Pushes(xs) + tail) == Run(q + xs, tail)
    decreases |xs|
  {
    if xs != [] {
      var ops := Pushes(xs) + tail;
      assert ops[0] == Push(xs[0]);
      assert Run(q, ops) == Run(q + [xs[0]], ops[1..]);
      assert ops[1..] == Pushes(xs[1..]) + tail;
      RunPushes(q + [xs[0]], xs[1..], tail);
      assert q + [xs[0]] + xs[1..] == q + xs;
    } else {
      assert Pushes(xs) + tail == tail && q + xs == q;
    }
  }

  /** `n` receives on a queue of at least `n` take its first `n` elements. */
  lemma {:induction false} RunPops<T>(q: seq<T>, n: nat)
    requires n <= |q|
    ensures Run(q, Pops<T>(n)) == (q[n..], Somes(q[..n]))
    decreases n
  {
    if n > 0 {
      assert Pops<T>(n)[1..] == Pops<T>(n - 1);
      RunPops(q[1..], n - 1);
      assert q[1..][n - 1..] == q[n..];
      assert [Some(q[0])] + Somes(q[1..][..n - 1]) == Somes(q[..n]);
    }
  }

  /**
   * FIFO: after sending `xs` to an empty channel, as many receives return
   * exactly `xs`, in sending order, and leave the channel empty.
   */
  lemma FifoOrder<T>(xs: seq<T>)
    ensures Run([], Pushes(xs) + Pops(|xs|)) == ([], Somes(xs))
  {
    RunPushes([], xs, Pops(|xs|));
    assert [] + xs == xs;
    RunPops(xs, |xs|);
    assert xs[..|xs|] == xs && xs[|xs|..] == [];
  }

  /**
   * Length accounting: the queue left behind holds what was queued plus
   * what was sent minus what was delivered.
   */
  lemma LenAccounting<T>(q: seq<T>, ops: seq<Op<T>>)
    ensures |Run(q, ops).0| == |q| + |Sent(ops)| - |Delivered(Run(q, ops).1)|
  {
    RunConserves(q, ops);
  }
}
