/**
 * RedisParser (src/RedisParser.cc), which can stop at any byte and go on later: every method is
 * proved to leave unchanged what the stream means, as RespProtocol defines it.
 */
module RespParser {
  import opened Bytes
  import opened RespProtocol
  import opened RespReader

  ghost predicate Opens(key: nat) { true }

  /**
   * The reader is valid, and its counters are in order. How its buffers look does not matter to
   * the parser, so that part is kept behind a quantifier that nothing but Opens instantiates.
   */
  ghost predicate Sealed(r: Reader)
    reads r, r.link, r.received.Keys
  {
    && r.consumed <= r.link.position <= |r.link.stream|
    && forall key: nat {:trigger Opens(key)} :: Opens(key) ==> r.Valid()
  }

  class Parser {
    const reader: Reader
    var requestSize: int
    var elementSize: int
    var currentInteger: Bytes
    var encounteredZeroSize: bool
    /** The elements parsed so far; the source fills the first `current_element` places of the request. */
    var request: seq<Pinned>

    ghost predicate Valid()
      reads this, reader, reader.link, reader.received.Keys
    {
      Sealed(reader) && requestSize >= 0 && HoldsAll(reader.received, request)
    }

    /** A line is being read only while the size of the next element is unknown. */
    ghost predicate Resumable()
      reads this
    {
      elementSize >= -1 && (elementSize != -1 ==> currentInteger == [])
    }

    ghost predicate Ready()
      reads this, reader, reader.link, reader.received.Keys
    {
      Valid() && Live(State()) && (requestSize > 0 ==> Resumable())
    }

    ghost function State(): Partial
      reads this, reader
      requires HoldsAll(reader.received, request)
    {
      if requestSize == 0 then Partial(0, [], -1, currentInteger, encounteredZeroSize)
      else Partial(requestSize, AllContents(reader.received, request), elementSize, currentInteger, encounteredZeroSize)
    }

    /** What the stream still holds for this parser. */
    ghost function Rest(): Bytes
      reads this, reader, reader.link
      requires reader.consumed <= |reader.link.stream|
    {
      reader.link.stream[reader.consumed..]
    }

    constructor (r: Reader)
      requires r.Valid()
      ensures Valid() && reader == r && State() == INITIAL
    {
      reader, requestSize, elementSize, currentInteger, encounteredZeroSize, request := r, 0, 0, [], false, [];
    }

    /** One more byte of a line. */
    method ReadByte(ghost prefix: byte) returns (status: int, ended: bool)
      requires Sealed(reader)
      modifies `currentInteger, reader, reader.link, reader.received.Keys
      ensures Sealed(reader) && Grown(old(reader.received), reader.received)
      ensures forall r :: r in reader.received && r !in old(reader.received) ==> fresh(r)
      ensures status > 0 ==> reader.consumed == old(reader.consumed) + 1
      ensures status > 0 ==>
        ReadInteger(old(currentInteger), prefix, old(Rest())) == Line(ended, currentInteger, prefix, Rest())
      ensures status <= 0 ==> currentInteger == old(currentInteger) && reader.consumed == old(reader.consumed)
      ensures status == 0 ==> reader.consumed == reader.link.position
    {
      ghost var from := reader.consumed;
      assert Opens(0);
      var prev;
      status, prev := reader.Consume(1);
      if status <= 0 {
        return status, false;
      }
      ReadIntegerStep(currentInteger, prefix, reader.link.stream, from);
      ended := prev[0] == LF;
      currentInteger := currentInteger + prev;
    }

    /** The loop of readInteger: append to the line until it ends. */
    method ReadLine(ghost prefix: byte) returns (status: int)
      requires Sealed(reader)
      modifies `currentInteger, reader, reader.link, reader.received.Keys
      ensures Sealed(reader) && Grown(old(reader.received), reader.received)
      ensures forall r :: r in reader.received && r !in old(reader.received) ==> fresh(r)
      ensures status >= 0 ==>
        ReadInteger(old(currentInteger), prefix, old(Rest())) == Line(status > 0, currentInteger, prefix, Rest())
      ensures status == 0 ==> reader.consumed == reader.link.position
    {
      ghost var goal := ReadInteger(currentInteger, prefix, Rest());
      var ended := false;
      while !ended
        invariant Sealed(reader) && Grown(old(reader.received), reader.received)
        invariant forall r :: r in reader.received && r !in old(reader.received) ==> fresh(r)
        invariant goal == Line(ended, currentInteger, prefix, Rest())
        decreases |reader.link.stream| - reader.consumed
      {
        ghost var before := reader.received;
        status, ended := ReadByte(prefix);
        GrownTwice(old(reader.received), before, reader.received);
        if status <= 0 {
          return;
        }
      }
      status := 1;
    }
  
    /** readInteger (src/RedisParser.cc:85-117); `failed` if the link reported an error. */
    method ReadNumber(prefix: byte) returns (status: int, value: int, ghost failed: bool)
      requires Sealed(reader)
      modifies `currentInteger, reader, reader.link, reader.received.Keys
      ensures Sealed(reader) && Grown(old(reader.received), reader.received)
      ensures forall r :: r in reader.received && r !in old(reader.received) ==> fresh(r)
      ensures status > 0 ==>
        currentInteger == [] && ReadInteger(old(currentInteger), prefix, old(Rest())) == IntIs(value, Rest())
      ensures status == 0 ==>
        ReadInteger(old(currentInteger), prefix, old(Rest())) == ReadInteger(currentInteger, prefix, Rest())
      ensures status == 0 ==> reader.consumed == reader.link.position
      ensures status < 0 && !failed ==> status == -1 && ReadInteger(old(currentInteger), prefix, old(Rest())) == IntBad
    {
      value, failed := 0, false;
      status := ReadLine(prefix);
      if status <= 0 {
        failed := status < 0;
        return;
      }
      var line := currentInteger;
      if |line| < 3 || line[0] != prefix || line[|line| - 2] != CR {
        return -1, 0, false;
      }
      match Strtol(line[1..|line| - 2]) {
        case None => status := -1;
        case Some(v) =>
          currentInteger := [];
          value := v;
      }
    }

    /** What the stream holds, seen from the state the parser is in. */
    ghost function Meaning(authenticated: bool): Outcome
      reads this, reader, reader.link, reader.received.Keys
      requires Valid()
    {
      Resume(State(), Rest(), authenticated)
    }

    /** The size of the next element. */
    method ReadSize(ghost authenticated: bool) returns (status: int, n: int, ghost failed: bool)
      requires Valid() && |request| < requestSize && elementSize == -1
      modifies `currentInteger, reader, reader.link, reader.received.Keys
      ensures Valid() && Grown(old(reader.received), reader.received)
      ensures forall r :: r in reader.received && r !in old(reader.received) ==> fresh(r)
      ensures status > 0 ==>
        && 0 <= n <= INT_MAX && currentInteger == []
        && old(Meaning(authenticated)) == Resume(Sized(State(), n), Rest(), authenticated)
      ensures status == 0 ==>
        reader.consumed == reader.link.position && Meaning(authenticated) == old(Meaning(authenticated))
      ensures status < 0 && !failed ==> old(Meaning(authenticated)) == Failure(status)
    {
      ghost var p, s := State(), Rest();
      status, n, failed := ReadNumber(DOLLAR);
      AllStay(old(reader.received), reader.received, request);
      assert State() == p.(line := currentInteger);
      if status > 0 {
        if n < 0 || n > INT_MAX {
          return -3, n, false;
        }
        SizeKnown(p, s, n, Rest(), authenticated);
      } else if status == 0 {
        SizeAwaited(p, s, currentInteger, Rest(), authenticated);
      }
    }

    method LearnSize(ghost authenticated: bool) returns (status: int, ghost failed: bool)
      requires Valid() && |request| < requestSize && elementSize == -1
      modifies `currentInteger, `elementSize, `encounteredZeroSize, reader, reader.link, reader.received.Keys
      ensures Valid() && Grown(old(reader.received), reader.received)
      ensures forall r :: r in reader.received && r !in old(reader.received) ==> fresh(r)
      ensures status >= 0 ==> Meaning(authenticated) == old(Meaning(authenticated))
      ensures status > 0 ==> 0 <= elementSize && currentInteger == []
      ensures status == 0 ==> elementSize == -1 && Starved(authenticated)
      ensures status < 0 && !failed ==> old(Meaning(authenticated)) == Failure(status)
    {
      var n;
      status, n, failed := ReadSize(authenticated);
      if status > 0 {
        SetSize(n);
      }
    }

    method SetSize(n: int)
      requires Valid() && requestSize > 0
      modifies `elementSize, `encounteredZeroSize
      ensures Valid() && elementSize == n && State() == Sized(old(State()), n)
    {
      elementSize := n;
      encounteredZeroSize := encounteredZeroSize || n == 0;
    }

    /** The bytes of the element and two more, all or nothing. */
    method TakeElement() returns (status: int, buf: Pinned)
      requires Sealed(reader) && elementSize >= 0
      modifies reader, reader.link, reader.received.Keys
      ensures Sealed(reader) && Grown(old(reader.received), reader.received)
      ensures forall r :: r in reader.received && r !in old(reader.received) ==> fresh(r)
      ensures status > 0 ==>
        && Holds(reader.received, buf) && old(Rest()) == Contents(reader.received, buf) + Rest()
        && |Contents(reader.received, buf)| == elementSize + 2
      ensures status <= 0 ==> Rest() == old(Rest())
      ensures status == 0 ==> reader.link.position - reader.consumed < elementSize + 2
    {
      assert Opens(0);
      status, buf := reader.ConsumePinned(elementSize + 2);
    }

    /** They must end in CR LF, which are cut off. */
    method StripLineEnd(buf: Pinned) returns (ended: bool, stripped: Pinned)
      requires Sealed(reader) && Holds(reader.received, buf) && |Contents(reader.received, buf)| == elementSize + 2
      requires elementSize >= 0
      ensures var e := Contents(reader.received, buf); ended <==> e[elementSize] == CR && e[elementSize + 1] == LF
      ensures ended ==>
        && Holds(reader.received, stripped)
        && Contents(reader.received, stripped) == Contents(reader.received, buf)[..elementSize]
    {
      assert Opens(0);
      PinnedReads(reader.received, reader.bufferSize, buf);
      SuffixRemoved(reader.received, buf, 2);
      ended := PinnedAt(buf, elementSize) == CR && PinnedAt(buf, elementSize + 1) == LF;
      stripped := if ended then RemoveSuffix(buf, 2) else buf;
    }

    /** readString (src/RedisParser.cc:134-150). */
    method ReadString(ghost authenticated: bool) returns (status: int, buf: Pinned, ghost failed: bool)
      requires Valid() && |request| < requestSize && 0 <= elementSize <= INT_MAX - 2
      requires (authenticated || elementSize < 1048576)
      modifies reader, reader.link, reader.received.Keys
      ensures Valid() && Grown(old(reader.received), reader.received)
      ensures forall r :: r in reader.received && r !in old(reader.received) ==> fresh(r)
      ensures State() == old(State())
      ensures status > 0 ==>
        && Holds(reader.received, buf)
        && old(Meaning(authenticated)) == Resume(Pushed(State(), Contents(reader.received, buf)), Rest(), authenticated)
      ensures status == 0 ==> Starved(authenticated) && Meaning(authenticated) == old(Meaning(authenticated))
      ensures status < 0 && !failed ==> old(Meaning(authenticated)) == Failure(status)
    {
      status, buf := TakeElement();
      AllStay(old(reader.received), reader.received, request);
      failed := status < 0;
      if status > 0 {
        ghost var e := Contents(reader.received, buf);
        assert old(Meaning(authenticated)) == Resume(State(), e + Rest(), authenticated);
        StringRead(State(), e, Rest(), authenticated);
        var ended;
        ended, buf := StripLineEnd(buf);
        if !ended {
          status := -1;
        }
      }
    }

    /** readElement (src/RedisParser.cc:119-132) once the size is known. */
    method ReadSized(authenticated: bool) returns (status: int, buf: Pinned, ghost failed: bool)
      requires Valid() && |request| < requestSize && elementSize >= 0
      modifies reader, reader.link, reader.received.Keys
      ensures Valid() && Grown(old(reader.received), reader.received)
      ensures forall r :: r in reader.received && r !in old(reader.received) ==> fresh(r)
      ensures State() == old(State())
      ensures status > 0 ==>
        && Holds(reader.received, buf)
        && old(Meaning(authenticated)) == Resume(Pushed(State(), Contents(reader.received, buf)), Rest(), authenticated)
      ensures status == 0 ==> Starved(authenticated) && Meaning(authenticated) == old(Meaning(authenticated))
      ensures status < 0 && !failed ==> old(Meaning(authenticated)) == Failure(status)
    {
      if !authenticated && elementSize >= 1048576 {
        return -2, Owned([]), false;
      }
      if elementSize > INT_MAX - 2 {
        return -3, Owned([]), false;
      }
      status, buf, failed := ReadString(authenticated);
    }

    /** With the bytes received so far, the parser can only wait. */
    ghost predicate Starved(authenticated: bool)
      reads this, reader, reader.link, reader.received.Keys
      requires Valid()
    {
      var unread := reader.link.stream[reader.consumed..reader.link.position];
      Resume(State(), unread, authenticated) == Waiting(State(), unread)
    }

    /** readElement (src/RedisParser.cc:119-132), and the place it takes in the request. */
    method ReadElement(authenticated: bool) returns (status: int, ghost failed: bool)
      requires Valid() && |request| < requestSize && Resumable()
      modifies this, reader, reader.link, reader.received.Keys
      ensures Valid() && requestSize == old(requestSize) && (status >= 0 ==> Resumable())
      ensures Grown(old(reader.received), reader.received)
      ensures forall r :: r in reader.received && r !in old(reader.received) ==> fresh(r)
      ensures status >= 0 ==> Meaning(authenticated) == old(Meaning(authenticated))
      ensures status > 0 ==> |request| == old(|request|) + 1 && currentInteger == []
      ensures status == 0 ==> request == old(request) && Starved(authenticated)
      ensures status < 0 && !failed ==> old(Meaning(authenticated)) == Failure(status)
    {
      ghost var before := reader.received;
      if elementSize == -1 {
        status, failed := LearnSize(authenticated);
        if status <= 0 {
          return;
        }
      }
      ghost var between := reader.received;
      var buf;
      status, buf, failed := ReadSized(authenticated);
      GrownTwice(before, between, reader.received);
      if status > 0 {
        Push(buf);
      }
    }

    method Push(buf: Pinned)
      requires Valid() && requestSize > 0 && Holds(reader.received, buf)
      modifies `request, `elementSize
      ensures Valid() && |request| == old(|request|) + 1 && elementSize == -1
      ensures State() == Pushed(old(State()), Contents(reader.received, buf))
    {
      request := request + [buf];
      elementSize := -1;
    }
  
    /** The state once the size of the request is known, which may be 0. */
    ghost function Now(): Partial
      reads this, reader
      requires HoldsAll(reader.received, request)
    {
      Partial(requestSize, AllContents(reader.received, request), elementSize, currentInteger, encounteredZeroSize)
    }

    /** The start of fetch: how many elements the request has. */
    method ReadHeader(authenticated: bool) returns (status: int, ghost failed: bool)
      requires Valid() && requestSize == 0
      modifies this, reader, reader.link, reader.received.Keys
      ensures Valid() && request == [] && Grown(old(reader.received), reader.received)
      ensures forall r :: r in reader.received && r !in old(reader.received) ==> fresh(r)
      ensures status > 0 ==>
        && elementSize == -1 && currentInteger == []
        && old(Meaning(authenticated)) == ReadElements(Now(), Rest(), authenticated)
      ensures status == 0 ==>
        requestSize == 0 && Meaning(authenticated) == old(Meaning(authenticated)) && Starved(authenticated)
      ensures status < 0 && !failed ==> old(Meaning(authenticated)) == Failure(status)
    {
      request := [];
      var n;
      status, n, failed := ReadNumber(STAR);
      if status > 0 {
        if n < 0 || n > INT_MAX {
          return -3, false;
        }
        elementSize := -1;
        if !authenticated && n >= 5 {
          return -2, false;
        }
        requestSize := n;
      }
    }

    /** The loop of fetch. */
    method ReadRequest(authenticated: bool) returns (status: int, ghost failed: bool)
      requires Valid() && |request| <= requestSize && Resumable() && (|request| == requestSize ==> currentInteger == [])
      modifies this, reader, reader.link, reader.received.Keys
      ensures Valid() && requestSize == old(requestSize) && (status >= 0 ==> Resumable())
      ensures Grown(old(reader.received), reader.received)
      ensures forall r :: r in reader.received && r !in old(reader.received) ==> fresh(r)
      ensures status > 0 ==> |request| == requestSize && currentInteger == []
      ensures status >= 0 ==>
        ReadElements(Now(), Rest(), authenticated) == old(ReadElements(Now(), Rest(), authenticated))
      ensures status == 0 ==> |request| < requestSize && Starved(authenticated)
      ensures status < 0 && !failed ==> old(ReadElements(Now(), Rest(), authenticated)) == Failure(status)
    {
      failed := false;
      ghost var goal := ReadElements(Now(), Rest(), authenticated);
      while |request| < requestSize
        invariant Valid() && |request| <= requestSize && Resumable() && requestSize == old(requestSize)
        invariant |request| == requestSize ==> currentInteger == []
        invariant Grown(old(reader.received), reader.received)
        invariant forall r :: r in reader.received && r !in old(reader.received) ==> fresh(r)
        invariant ReadElements(Now(), Rest(), authenticated) == goal
      {
        ghost var before := reader.received;
        status, failed := ReadElement(authenticated);
        GrownTwice(old(reader.received), before, reader.received);
        if status <= 0 {
          return;
        }
      }
      status := 1;
    }

    /**
     * fetch (src/RedisParser.cc:49-83). A request is handed out exactly when the stream holds one here,
     * whatever part of it was parsed by earlier calls; otherwise nothing of the stream is lost.
     */
    method Fetch(authenticated: bool) returns (status: int, ghost failed: bool)
      requires Ready()
      modifies this, reader, reader.link, reader.received.Keys
      ensures Valid() && Grown(old(reader.received), reader.received)
      ensures forall r :: r in reader.received && r !in old(reader.received) ==> fresh(r)
      ensures status > 0 ==>
        old(Meaning(authenticated)) == Got(AllContents(reader.received, request), Rest()) && State() == INITIAL
      ensures status == 0 ==> Meaning(authenticated) == old(Meaning(authenticated)) && Starved(authenticated)
      ensures status >= 0 ==> Ready()
      ensures status < 0 && !failed ==> old(Meaning(authenticated)) == Failure(status)
    {
      if requestSize == 0 {
        status, failed := ReadHeader(authenticated);
        if status <= 0 {
          return;
        }
      }
      ghost var between := reader.received;
      status, failed := ReadRequest(authenticated);
      GrownTwice(old(reader.received), between, reader.received);
      if status > 0 {
        status := Finish(authenticated);
      }
    }

    method Finish(ghost authenticated: bool) returns (status: int)
      requires Valid() && |request| == requestSize && currentInteger == []
      modifies `requestSize
      ensures Valid()
      ensures status > 0 ==>
        old(ReadElements(Now(), Rest(), authenticated))
        == Got(AllContents(reader.received, request), Rest()) && State() == INITIAL
      ensures status <= 0 ==> status == -2 && old(ReadElements(Now(), Rest(), authenticated)) == Failure(status)
    {
      requestSize := 0;
      status := if encounteredZeroSize then -2 else 1;
    }
  }

  lemma GotMore(all: seq<Request>, got: seq<Request>, x: Request, rest: seq<Request>)
    requires all == got + ([x] + rest)
    ensures all == (got + [x]) + rest
  {
  }

  /**
   * The loop of processRequests (src/Connection.cc:272-301): fetch until the link is slow. The requests
   * that come out, call after call, are those that the stream holds, whenever and wherever it stalls.
   */
  method ServeAll(parser: Parser, authenticated: bool)
    returns (status: int, ghost failed: bool, ghost got: seq<Request>)
    requires parser.Ready()
    modifies parser, parser.reader, parser.reader.link, parser.reader.received.Keys
    ensures status <= 0 && (status == 0 ==> parser.Ready())
    ensures status == 0 ==>
      old(Decode(parser.State(), parser.Rest(), authenticated))
      == got + Decode(parser.State(), parser.Rest(), authenticated)
    ensures status < 0 && !failed ==> old(Decode(parser.State(), parser.Rest(), authenticated)) == got
    ensures status == 0 ==> parser.Starved(authenticated)
    ensures got <= old(Decode(parser.State(), parser.Rest(), authenticated))
    ensures forall r :: r in parser.reader.received && r !in old(parser.reader.received) ==> fresh(r)
  {
    got := [];
    ghost var all := Decode(parser.State(), parser.Rest(), authenticated);
    while true
      invariant parser.Ready()
      invariant forall r :: r in parser.reader.received && r !in old(parser.reader.received) ==> fresh(r)
      invariant all == got + Decode(parser.State(), parser.Rest(), authenticated)
      decreases |parser.Rest()|
    {
      ghost var p, s := parser.State(), parser.Rest();
      ResumeShortens(p, s, authenticated);
      status, failed := parser.Fetch(authenticated);
      if status <= 0 {
        return;
      }
      ghost var x := AllContents(parser.reader.received, parser.request);
      assert Decode(p, s, authenticated) == [x] + Decode(parser.State(), parser.Rest(), authenticated);
      GotMore(all, got, x, Decode(parser.State(), parser.Rest(), authenticated));
      got := got + [x];
    }
  }

  ghost function Sized(p: Partial, n: int): Partial
  {
    p.(elementSize := n, zeroSized := p.zeroSized || n == 0)
  }

  ghost function Pushed(p: Partial, e: Bytes): Partial
  {
    p.(elements := p.elements + [e], elementSize := -1)
  }

  lemma StringRead(p: Partial, e: Bytes, rest: Bytes, authenticated: bool)
    requires |p.elements| < p.requestSize && 0 <= p.elementSize <= INT_MAX - 2
    requires (authenticated || p.elementSize < 1048576)
    requires |e| == p.elementSize + 2
    ensures Resume(p, e + rest, authenticated) ==
      if e[p.elementSize] == CR && e[p.elementSize + 1] == LF
      then Resume(Pushed(p, e[..p.elementSize]), rest, authenticated)
      else Broken(-1)
  {
    var n, s := p.elementSize, e + rest;
    assert s[..n] == e[..n] && s[n + 2..] == rest;
  }

  lemma SizeKnown(p: Partial, s: Bytes, n: int, rest: Bytes, authenticated: bool)
    requires |p.elements| < p.requestSize && p.elementSize == -1 && ReadInteger(p.line, DOLLAR, s) == IntIs(n, rest)
    requires 0 <= n <= INT_MAX
    ensures Resume(p, s, authenticated)
      == Resume(p.(elementSize := n, line := [], zeroSized := p.zeroSized || n == 0), rest, authenticated)
  {
  }

  lemma SizeAwaited(p: Partial, s: Bytes, line: Bytes, rest: Bytes, authenticated: bool)
    requires |p.elements| < p.requestSize && p.elementSize == -1
    requires ReadInteger(p.line, DOLLAR, s) == ReadInteger(line, DOLLAR, rest)
    ensures Resume(p, s, authenticated) == Resume(p.(line := line), rest, authenticated)
  {
  }

  /** Statuses as outcomes; -3 stands for the sizes that are outside the model. */
  ghost function Failure(status: int): Outcome
  {
    if status == -3 then Outside else Broken(status)
  }

  /** What becomes of a line that has ended, or not yet. */
  ghost function Line(ended: bool, line: Bytes, prefix: byte, rest: Bytes): Reading
  {
    if ended then FinishLine(line, prefix, rest) else ReadInteger(line, prefix, rest)
  }

  lemma ReadIntegerStep(line: Bytes, prefix: byte, stream: Bytes, from: nat)
    requires from < |stream|
    ensures stream[from..from + 1] == [stream[from]]
    ensures ReadInteger(line, prefix, stream[from..]) ==
      if stream[from] == LF then FinishLine(line + [LF], prefix, stream[from + 1..])
      else ReadInteger(line + [stream[from]], prefix, stream[from + 1..])
  {
    assert stream[from..][1..] == stream[from + 1..];
  }
}
