/**
 * The integration tests' observations about captured requests, restated
 * for the model: the network, the client and the server thread are
 * replaced by direct calls to `start` with the request the client sends.
 */
module Scenarios {
  import opened Wrappers
  import opened Text
  import opened Channels
  import opened Requests
  import opened Middleware

  /** The ASCII bytes of a text (for test literals). */
  function Bytes(s: string): (b: seq<byte>)
    requires forall i :: 0 <= i < |s| ==> s[i] as int < 0x80
    ensures |b| == |s| && IsAscii(b)
    ensures forall i :: 0 <= i < |s| ==> b[i] as int == s[i] as int
  {
    seq(|s|, i requires 0 <= i < |s| => s[i] as int as byte)
  }

  /**
   * A POST of a 100-byte ASCII body to "/", whose last `content-length`
   * header is "100", is captured with that body, that header, method "POST"
   * and path "/", however the body was split into chunks.
   */
  lemma ValidateClientRequest(content: seq<byte>, payload: seq<seq<byte>>,
                              headers: seq<(string, seq<byte>)>, i: nat)
    requires |content| == 100 && IsAscii(content)
    requires Flatten(payload) == content
    requires HeadersAreText(headers)
    requires i < |headers| && headers[i] == ("content-length", Bytes("100"))
    requires LastOccurrence(headers, i)
    ensures Capture(Inbound("POST", "/", headers, [], payload)).Success?
    ensures var r := Capture(Inbound("POST", "/", headers, [], payload)).value;
      && r.body == content
      && "content-length" in r.headers && r.headers["content-length"] == "100"
      && r.httpMethod == "POST" && r.path == "/"
  {
    AsciiIsUtf8(content);
    var d := Decoded(headers);
    assert d[i] == ("content-length", HeaderToStr(Bytes("100")).value);
    assert HeaderToStr(Bytes("100")).value == "100";
    assert LastOccurrence(d, i) by {
      forall j | i < j < |d| ensures d[j].0 != d[i].0 {
        assert d[j].0 == headers[j].0;
      }
    }
  }

  /**
   * A GET and then a POST with body "2": the queue holds two snapshots,
   * and the second one taken is the POST with body "2".
   */
  method FetchSecondRequest() returns (count: nat, first: Option<Request>, second: Option<Request>)
    ensures count == 2
    ensures first.Some? && first.value.httpMethod == "GET" && first.value.body == []
    ensures second.Some? && second.value.httpMethod == "POST" && second.value.body == Bytes("2")
  {
    var tx := new Channel<Request>.Unbounded();
    var share := new ShareRequest.New(tx);
    var requests := new RequestReceiver(tx);
    var get := Inbound("GET", "/", [], [], []);
    var post := Inbound("POST", "/", [], [], [Bytes("2")]);
    assert Flatten(post.payload) == Bytes("2");
    AsciiIsUtf8(Bytes("2"));
    var s1 := Start(share, get);
    var s2 := Start(share, post);
    count := requests.Len();
    first := requests.Next();
    second := requests.Next();
  }
}
