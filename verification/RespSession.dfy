/**
 * The parser and the printer together: what a connection gets from a peer that prints its requests
 * (src/Formatter.cc) and sends them over any link.
 */
module RespSession {
  import opened Bytes
  import opened RespProtocol
  import opened RespReader
  import opened RespParser

  /** A parser that waits, with all bytes received, holds no further request. */
  lemma NothingLeft(parser: Parser, authenticated: bool)
    requires parser.Ready() && parser.Starved(authenticated)
    requires parser.reader.link.position == |parser.reader.link.stream|
    ensures Decode(parser.State(), parser.Rest(), authenticated) == []
  {
    var stream := parser.reader.link.stream;
    assert stream[parser.reader.consumed..parser.reader.link.position] == stream[parser.reader.consumed..];
  }

  /** One call; `got` so far, of `all` that the stream held. */
  method ServeMore(parser: Parser, authenticated: bool, ghost got: seq<Request>, ghost all: seq<Request>)
    returns (status: int, ghost failed: bool, ghost more: seq<Request>)
    requires parser.Ready() && all == got + Decode(parser.State(), parser.Rest(), authenticated)
    modifies parser, parser.reader, parser.reader.link, parser.reader.received.Keys
    ensures more <= all && (status < 0 && !failed ==> more == all)
    ensures status == 0 ==> parser.Ready() && parser.Starved(authenticated)
    ensures status == 0 ==> all == more + Decode(parser.State(), parser.Rest(), authenticated)
    ensures status <= 0 && forall r :: r in parser.reader.received && r !in old(parser.reader.received) ==> fresh(r)
  {
    ghost var part;
    status, failed, part := ServeAll(parser, authenticated);
    more := got + part;
  }

  /** Any number of calls, as the link has something to deliver. */
  method ServeCalls(parser: Parser, authenticated: bool, calls: nat, ghost all: seq<Request>)
    returns (status: int, ghost failed: bool, ghost got: seq<Request>)
    requires parser.Ready() && all == Decode(parser.State(), parser.Rest(), authenticated)
    modifies parser, parser.reader, parser.reader.link, parser.reader.received.Keys
    ensures got <= all && (status < 0 && !failed ==> got == all)
    ensures status >= 0 ==> parser.Ready() && all == got + Decode(parser.State(), parser.Rest(), authenticated)
    ensures status >= 0 && calls > 0 ==> parser.Starved(authenticated)
  {
    got, status, failed := [], 0, false;
    var i := 0;
    while i < calls
      invariant parser.Ready() && status == 0
      invariant forall r :: r in parser.reader.received && r !in old(parser.reader.received) ==> fresh(r)
      invariant all == got + Decode(parser.State(), parser.Rest(), authenticated)
      invariant i > 0 ==> parser.Starved(authenticated)
    {
      status, failed, got := ServeMore(parser, authenticated, got, all);
      if status < 0 {
        return;
      }
      i := i + 1;
    }
  }

  /**
   * A new connection whose peer sends printed requests, all of them welcome. However the link delivers
   * the bytes, and however often it stalls, the requests handed out are a prefix of those sent; once all
   * bytes are in, they are all of them.
   */
  method ServePrinted(parser: Parser, authenticated: bool, calls: nat, ghost rs: seq<Request>)
    returns (status: int, ghost failed: bool, ghost got: seq<Request>)
    requires parser.Ready() && parser.State() == INITIAL && parser.Rest() == PrintAll(rs)
    requires forall i :: 0 <= i < |rs| ==> Representable(rs[i]) && Welcome(rs[i], authenticated)
    modifies parser, parser.reader, parser.reader.link, parser.reader.received.Keys
    ensures got <= rs
    ensures status < 0 && !failed ==> got == rs
    ensures status >= 0 && calls > 0 && parser.reader.link.position == |parser.reader.link.stream| ==> got == rs
  {
    DecodePrinted(rs, authenticated);
    AcceptedAll(rs, authenticated);
    status, failed, got := ServeCalls(parser, authenticated, calls, rs);
    if status >= 0 && calls > 0 && parser.reader.link.position == |parser.reader.link.stream| {
      NothingLeft(parser, authenticated);
    }
  }
}
