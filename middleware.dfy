/**
 * The capture middleware: turns an inbound request into a `Request`
 * snapshot and sends exactly one snapshot per request onto the capture
 * queue, then lets the request go on to the user's handler.
 */
module Middleware {
  import opened Wrappers
  import opened Text
  import opened Channels
  import opened Requests

  /**
   * What the middleware reads from the framework's request: method and path
   * as text, the header pairs in the header map's iteration order (a name
   * may repeat), the parsed query pairs, and the body as the chunks the
   * payload stream yields.
   */
  datatype Inbound = Inbound(
    httpMethod: string,
    path: string,
    headers: seq<(string, seq<byte>)>,
    query: seq<(string, string)>,
    payload: seq<seq<byte>>)

  /** Why capturing a request panics (`expect` on a failed conversion). */
  datatype CaptureError = HeaderValueNotText | BodyNotUtf8

  /**
   * What `start` gives the framework: `Proceed` is the future that resolves
   * to `Ok(None)` (no response of its own, so the request reaches the user's
   * handler); `Panic` is a failed `expect`.
   */
  datatype Started = Proceed | Panic(cause: CaptureError)

  // ---------------------------------------------------------------------
  // Body accumulation

  /** The chunks joined in order. */
  function Flatten(chunks: seq<seq<byte>>): seq<byte>
    decreases |chunks|
  {
    if chunks == [] then [] else chunks[0] + Flatten(chunks[1..])
  }

  /** Joining is compatible with splitting the chunk list anywhere. */
  lemma {:induction false} FlattenAppend(a: seq<seq<byte>>, b: seq<seq<byte>>)
    ensures Flatten(a + b) == Flatten(a) + Flatten(b)
    decreases |a|
  {
    if a == [] {
      assert a + b == b;
    } else {
      assert (a + b)[0] == a[0] && (a + b)[1..] == a[1..] + b;
      FlattenAppend(a[1..], b);
      assert a[0] + (Flatten(a[1..]) + Flatten(b)) == (a[0] + Flatten(a[1..])) + Flatten(b);
    }
  }

  /** Chunk `k` sits in the body right after the bytes of chunks `0..k`. */
  lemma ChunkInPlace(chunks: seq<seq<byte>>, k: nat)
    requires k < |chunks|
    ensures Flatten(chunks) == Flatten(chunks[..k]) + chunks[k] + Flatten(chunks[k + 1..])
  {
    var tail := chunks[k..];
    assert chunks == chunks[..k] + tail;
    FlattenAppend(chunks[..k], tail);
    assert tail[0] == chunks[k] && tail[1..] == chunks[k + 1..];
    assert Flatten(tail) == chunks[k] + Flatten(chunks[k + 1..]);
  }

  /** The body holds every byte of every chunk and nothing else. */
  lemma {:induction false} FlattenLength(chunks: seq<seq<byte>>)
    ensures |Flatten(chunks)| == TotalLength(chunks)
    decreases |chunks|
  {
    if chunks != [] {
      FlattenLength(chunks[1..]);
    }
  }

  function TotalLength(chunks: seq<seq<byte>>): nat
    decreases |chunks|
  {
    if chunks == [] then 0 else |chunks[0]| + TotalLength(chunks[1..])
  }

  /**
   * The payload fold: starts from an empty buffer and extends it with each
   * chunk in turn.
   */
  method FoldPayload(chunks: seq<seq<byte>>) returns (body: seq<byte>)
    ensures body == Flatten(chunks)
  {
    body := [];
    for i := 0 to |chunks|
      invariant body == Flatten(chunks[..i])
    {
      FlattenAppend(chunks[..i], [chunks[i]]);
      assert chunks[..i + 1] == chunks[..i] + [chunks[i]];
      body := body + chunks[i];
    }
    assert chunks[..|chunks|] == chunks;
  }

  // ---------------------------------------------------------------------
  // Collecting pairs into a map

  /** No later pair has the same key as pair `i`. */
  ghost predicate LastOccurrence<K, V>(pairs: seq<(K, V)>, i: int)
    requires 0 <= i < |pairs|
  {
    forall j :: i < j < |pairs| ==> pairs[j].0 != pairs[i].0
  }

  /**
   * `m` has one entry for each key among `pairs`, and that entry is the
   * value of the key's last pair.
   */
  ghost predicate IsLastWriteMap<K, V>(pairs: seq<(K, V)>, m: map<K, V>) {
    && m.Keys == (set i | 0 <= i < |pairs| :: pairs[i].0)
    && (forall i :: 0 <= i < |pairs| && LastOccurrence(pairs, i) ==>
          pairs[i].0 in m && m[pairs[i].0] == pairs[i].1)
  }

  /** `collect::<HashMap<_, _>>()`: inserts the pairs in order. */
  function Collect<K, V>(pairs: seq<(K, V)>): (m: map<K, V>)
    ensures IsLastWriteMap(pairs, m)
    decreases |pairs|
  {
    if pairs == [] then map[]
    else
      var last := pairs[|pairs| - 1];
      var prev := Collect(pairs[..|pairs| - 1]);
      LastWriteInsert(pairs, prev);
      prev[last.0 := last.1]
  }

  /** Inserting one more pair keeps a last-write map up to date. */
  lemma LastWriteInsert<K, V>(pairs: seq<(K, V)>, m: map<K, V>)
    requires |pairs| > 0 && IsLastWriteMap(pairs[..|pairs| - 1], m)
    ensures IsLastWriteMap(pairs, m[pairs[|pairs| - 1].0 := pairs[|pairs| - 1].1])
  {
    var init := pairs[..|pairs| - 1];
    var last := pairs[|pairs| - 1];
    var m' := m[last.0 := last.1];
    var keys := set i | 0 <= i < |pairs| :: pairs[i].0;
    var oldKeys := set i | 0 <= i < |init| :: init[i].0;
    forall x | x in keys ensures x in oldKeys + {last.0} {
      var i :| 0 <= i < |pairs| && pairs[i].0 == x;
      if i < |init| {
        assert init[i].0 == x;
      }
    }
    forall x | x in oldKeys + {last.0} ensures x in keys {
      if x == last.0 {
        assert pairs[|init|].0 == x;
      } else {
        var i :| 0 <= i < |init| && init[i].0 == x;
        assert pairs[i].0 == x;
      }
    }
    assert m'.Keys == keys;
    forall i | 0 <= i < |pairs| && LastOccurrence(pairs, i)
      ensures pairs[i].0 in m' && m'[pairs[i].0] == pairs[i].1
    {
      if i < |init| {
        assert pairs[i] == init[i];
        assert pairs[|init|].0 != pairs[i].0;
        forall j | i < j < |init| ensures init[j].0 != init[i].0 {
          assert pairs[j] == init[j];
        }
        assert LastOccurrence(init, i);
      }
    }
  }

  /** A last-write map of a pair list is unique. */
  lemma LastWriteMapUnique<K, V>(pairs: seq<(K, V)>, m1: map<K, V>, m2: map<K, V>)
    requires IsLastWriteMap(pairs, m1) && IsLastWriteMap(pairs, m2)
    ensures m1 == m2
  {
    forall k | k in m1 ensures k in m2 && m1[k] == m2[k] {
      var i := LastIndexOf(pairs, k);
    }
  }

  /** The position of the last pair with key `k`. */
  lemma {:induction false} LastIndexOf<K, V>(pairs: seq<(K, V)>, k: K) returns (i: nat)
    requires exists j :: 0 <= j < |pairs| && pairs[j].0 == k
    ensures i < |pairs| && pairs[i].0 == k && LastOccurrence(pairs, i)
    decreases |pairs|
  {
    var n := |pairs| - 1;
    if pairs[n].0 == k {
      i := n;
    } else {
      var init := pairs[..n];
      var j :| 0 <= j < |pairs| && pairs[j].0 == k;
      assert init[j].0 == k;
      i := LastIndexOf(init, k);
      assert forall t :: i < t < n ==> pairs[t] == init[t];
    }
  }

  /** There are never more entries than pairs. */
  lemma {:induction false} CollectSize<K, V>(pairs: seq<(K, V)>)
    ensures |Collect(pairs)| <= |pairs|
    decreases |pairs|
  {
    if pairs != [] {
      var init := pairs[..|pairs| - 1];
      var last := pairs[|pairs| - 1];
      CollectSize(init);
      var m := Collect(init);
      assert m[last.0 := last.1].Keys == m.Keys + {last.0};
    }
  }

  // ---------------------------------------------------------------------
  // Headers and query

  ghost predicate HeadersAreText(hs: seq<(string, seq<byte>)>) {
    forall i :: 0 <= i < |hs| ==> IsHeaderText(hs[i].1)
  }

  /** The header pairs with each value converted to text. */
  function Decoded(hs: seq<(string, seq<byte>)>): (d: seq<(string, string)>)
    requires HeadersAreText(hs)
    ensures |d| == |hs|
    ensures forall i :: 0 <= i < |hs| ==> d[i] == (hs[i].0, HeaderToStr(hs[i].1).value)
  {
    seq(|hs|, i requires 0 <= i < |hs| => (hs[i].0, HeaderToStr(hs[i].1).value))
  }

  /**
   * `extract_headers`: every header name once, with the text of its last
   * value; any value that is not text makes the whole extraction fail.
   */
  function ExtractHeaders(hs: seq<(string, seq<byte>)>): (r: Result<map<string, string>, CaptureError>)
    ensures r.Success? <==> HeadersAreText(hs)
    ensures r.Failure? ==> r.error == HeaderValueNotText
    ensures r.Success? ==> IsLastWriteMap(Decoded(hs), r.value)
  {
    if forall i :: 0 <= i < |hs| ==> HeaderToStr(hs[i].1).Some? then
      Success(Collect(Decoded(hs)))
    else
      Failure(HeaderValueNotText)
  }

  /** `extract_query`: every key once, with its last value unchanged. */
  function ExtractQuery(q: seq<(string, string)>): (m: map<string, string>)
    ensures IsLastWriteMap(q, m)
  {
    Collect(q)
  }

  // ---------------------------------------------------------------------
  // The snapshot and `start`

  /**
   * The snapshot `start` sends for `req`, or the reason it panics instead.
   * Headers are converted before the body is read, so a bad header wins over
   * a bad body.
   */
  function Capture(req: Inbound): (r: Result<Request, CaptureError>)
    ensures r.Success? <==> HeadersAreText(req.headers) && ValidUtf8(Flatten(req.payload))
    ensures !HeadersAreText(req.headers) ==> r == Failure(HeaderValueNotText)
    ensures HeadersAreText(req.headers) && !ValidUtf8(Flatten(req.payload)) ==> r == Failure(BodyNotUtf8)
    ensures r.Success? ==>
      && r.value.httpMethod == req.httpMethod
      && r.value.path == req.path
      && r.value.body == Flatten(req.payload)
      && IsLastWriteMap(Decoded(req.headers), r.value.headers)
      && IsLastWriteMap(req.query, r.value.query)
  {
    match ExtractHeaders(req.headers)
    case Failure(e) => Failure(e)
    case Success(headers) =>
      var body := Flatten(req.payload);
      if ValidUtf8(body) then
        Success(Request(body, headers, req.httpMethod, req.path, ExtractQuery(req.query)))
      else
        Failure(BodyNotUtf8)
  }

  /**
   * `start`: clones the sending handle, converts the headers and query,
   * folds the whole payload into one buffer, and only then sends exactly one
   * snapshot through the clone, which is dropped afterwards. A failed send is
   * ignored. On a panic nothing is sent, and the clone is dropped while
   * unwinding.
   */
  method Start(share: ShareRequest, req: Inbound) returns (started: Started)
    requires share.Valid()
    modifies share.tx
    ensures share.Valid() && share.tx.senders == old(share.tx.senders)
    ensures share.tx.receiverDropped == old(share.tx.receiverDropped)
    ensures started == Proceed <==> Capture(req).Success?
    ensures started.Panic? ==> started.cause == Capture(req).error && share.tx.items == old(share.tx.items)
    ensures started == Proceed ==>
      share.tx.items == if old(share.tx.receiverDropped) then old(share.tx.items)
                        else old(share.tx.items) + [Capture(req).value]
  {
    var tx := share.tx;
    tx.CloneSender();
    var headers := ExtractHeaders(req.headers);
    if headers.Failure? {
      tx.DropSender();
      return Panic(headers.error);
    }
    var query := ExtractQuery(req.query);
    var httpMethod := req.httpMethod;
    var path := req.path;
    var body := FoldPayload(req.payload);
    if !ValidUtf8(body) {
      tx.DropSender();
      return Panic(BodyNotUtf8);
    }
    var _ := tx.Send(Request(body, headers.value, httpMethod, path, query));
    tx.DropSender();
    started := Proceed;
  }
}
