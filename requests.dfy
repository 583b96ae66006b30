/**
 * The captured request record, the test thread's receiving end of the
 * capture queue and the middleware's sending end.
 */
module Requests {
  import opened Wrappers
  import opened Text
  import opened Channels

  /**
   * A snapshot of one inbound request (`httpMethod` is the source's `method`
   * field, a reserved word here). `body` is the Rust `String` as its
   * UTF-8 bytes.
   */
  datatype Request = Request(
    body: seq<byte>,
    headers: map<string, string>,
    httpMethod: string,
    path: string,
    query: map<string, string>)

  /** The test thread's view of the capture queue. */
  class RequestReceiver {
    const rx: Channel<Request>

    /** The receiver holds the channel's only receiving handle. */
    ghost predicate Valid()
      reads this, rx
    {
      !rx.receiverDropped
    }

    constructor (rx: Channel<Request>)
      requires !rx.receiverDropped
      ensures this.rx == rx && Valid()
    {
      this.rx := rx;
    }

    /** True exactly when no captured request is waiting. */
    method IsEmpty() returns (b: bool)
      ensures b <==> |rx.items| == 0
    {
      var n := rx.Len();
      b := n == 0;
    }

    /** The number of captured requests not yet taken. */
    method Len() returns (n: nat)
      ensures n == |rx.items|
    {
      n := rx.Len();
    }

    /**
     * Takes the oldest captured request without waiting, or reports `None`
     * when there is none; the rest of the queue keeps its order.
     */
    method Next() returns (r: Option<Request>)
      requires Valid()
      modifies rx
      ensures Valid() && rx.senders == old(rx.senders)
      ensures old(rx.items) == [] ==> r == None && rx.items == []
      ensures old(rx.items) != [] ==> r == Some(old(rx.items)[0]) && rx.items == old(rx.items)[1..]
      ensures |rx.items| == if old(rx.items) == [] then 0 else |old(rx.items)| - 1
    {
      var received := rx.TryRecv();
      r := received.ToOption();
    }
  }

  /** The capture middleware's sending end of the queue. */
  class ShareRequest {
    const tx: Channel<Request>

    /** The middleware holds a live sending handle. */
    ghost predicate Valid()
      reads this, tx
    {
      tx.senders > 0
    }

    constructor New(tx: Channel<Request>)
      requires tx.senders > 0
      ensures this.tx == tx && Valid()
    {
      this.tx := tx;
    }
  }

  /** The request that the unit tests send: every field empty. */
  function EmptyRequest(): (r: Request)
    ensures r.body == [] && r.httpMethod == "" && r.path == ""
    ensures |r.headers| == 0 && |r.query| == 0
  {
    Request([], map[], "", "", map[])
  }

  /**
   * The tests' send helper: takes a sending handle by value, sends an empty
   * request through it and drops it; a failed send (the receiver is gone) is
   * logged and swallowed, never propagated.
   */
  method AddRequest(tx: Channel<Request>)
    requires tx.senders > 0
    modifies tx
    ensures tx.receiverDropped == old(tx.receiverDropped)
    ensures tx.senders == old(tx.senders) - 1
    ensures tx.items == if old(tx.receiverDropped) then old(tx.items) else old(tx.items) + [EmptyRequest()]
  {
    var _ := tx.Send(EmptyRequest());  // a failure is only logged
    tx.DropSender();
  }

  /** A fresh queue is empty; after one send it is not. */
  method IsEmptyScenario() returns (before: bool, after: bool)
    ensures before && !after
  {
    var tx := new Channel<Request>.Unbounded();
    var rr := new RequestReceiver(tx);
    before := rr.IsEmpty();
    AddRequest(tx);
    after := rr.IsEmpty();
  }

  /** A fresh queue has length 0; after one send, length 1. */
  method LenScenario() returns (before: nat, after: nat)
    ensures before == 0 && after == 1
  {
    var tx := new Channel<Request>.Unbounded();
    var rr := new RequestReceiver(tx);
    before := rr.Len();
    AddRequest(tx);
    after := rr.Len();
  }

  /** `next` on a fresh queue gives `None`; after one send it gives `Some`. */
  method NextScenario() returns (before: Option<Request>, after: Option<Request>)
    ensures before.None? && after == Some(EmptyRequest())
  {
    var tx := new Channel<Request>.Unbounded();
    var rr := new RequestReceiver(tx);
    before := rr.Next();
    AddRequest(tx);
    after := rr.Next();
  }

  /**
   * Once the helper has dropped the only sender and the queue is drained,
   * `try_recv` reports `Disconnected`, which `next` turns into `None`.
   */
  method DisconnectedScenario() returns (raw: Result<Request, TryRecvError>, next: Option<Request>)
    ensures raw == Failure(Disconnected) && next == None
  {
    var tx := new Channel<Request>.Unbounded();
    var rr := new RequestReceiver(tx);
    AddRequest(tx);
    var first := rr.Next();
    raw := tx.TryRecv();
    next := rr.Next();
  }

  /** Once the receiving end is gone, a send is lost and nothing fails. */
  method DroppedReceiverScenario() returns (queued: nat)
    ensures queued == 0
  {
    var tx := new Channel<Request>.Unbounded();
    var rr := new RequestReceiver(tx);
    tx.DropReceiver();  // `rr` goes out of scope
    AddRequest(tx);
    queued := tx.Len();
  }
}
