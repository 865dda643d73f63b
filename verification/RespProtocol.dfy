/**
 * Requests on the wire: arrays of bulk strings of the Redis serialization protocol. What the
 * parser of src/RedisParser.cc reads from a byte stream, as a function that can stop and go on
 * at any byte, and the printer of src/Formatter.cc.
 */
module RespProtocol {
  import opened Bytes

  const CR: byte := 13
  const LF: byte := 10
  const STAR: byte := 42
  const DOLLAR: byte := 36

  type Request = seq<Bytes>

  // ---------------------------------------------------------------- integers

  predicate IsDigit(b: byte) { 48 <= b <= 57 }

  predicate IsSpace(b: byte) { b == 32 || 9 <= b <= 13 }

  /** What a C string function sees: everything before the first zero. */
  function CString(s: Bytes): Bytes
  {
    if s == [] || s[0] == 0 then [] else [s[0]] + CString(s[1..])
  }

  function SkipSpaces(s: Bytes): Bytes
  {
    if s != [] && IsSpace(s[0]) then SkipSpaces(s[1..]) else s
  }

  function DigitRun(s: Bytes): (n: nat)
    ensures n <= |s|
  {
    if s == [] || !IsDigit(s[0]) then 0 else 1 + DigitRun(s[1..])
  }

  function Number(digits: Bytes): int
  {
    if digits == [] then 0 else Number(digits[..|digits| - 1]) * 10 + (digits[|digits| - 1] as int - 48)
  }

  const LONG_MIN: int := -0x8000_0000_0000_0000
  const LONG_MAX: int := 0x7fff_ffff_ffff_ffff
  const INT_MAX: int := 0x7fff_ffff

  /**
   * strtol and the checks after it (src/RedisParser.cc:107-112); without digits only the empty text is
   * accepted, as 0.
   */
  function Strtol(s: Bytes): Option<int>
  {
    var text := CString(s);
    var t := SkipSpaces(text);
    var signed := t != [] && (t[0] == 43 || t[0] == 45);
    var u := if signed then t[1..] else t;
    if DigitRun(u) == 0 then (if text == [] then Some(0) else None)
    else if DigitRun(u) < |u| then None
    else
      var v := if signed && t[0] == 45 then -Number(u) else Number(u);
      if LONG_MIN < v < LONG_MAX then Some(v) else None
  }

  /** A line that ends in LF: the prefix, the number, CR and LF. */
  function ParseLine(line: Bytes, prefix: byte): Option<int>
  {
    if |line| < 3 || line[0] != prefix || line[|line| - 2] != CR then None
    else Strtol(line[1..|line| - 2])
  }

  datatype Reading = IntMore(line: Bytes) | IntBad | IntIs(value: int, rest: Bytes)

  /** readInteger, continued from the part of the line that is already there. */
  function ReadInteger(line: Bytes, prefix: byte, s: Bytes): Reading
    decreases |s|
  {
    if s == [] then IntMore(line)
    else if s[0] != LF then ReadInteger(line + [s[0]], prefix, s[1..])
    else FinishLine(line + [LF], prefix, s[1..])
  }

  function FinishLine(line: Bytes, prefix: byte, rest: Bytes): Reading
  {
    match ParseLine(line, prefix)
    case None => IntBad
    case Some(v) => IntIs(v, rest)
  }

  // ---------------------------------------------------------------- requests

  /** The resumable state: `elementSize` is -1 until the size of the next element is known. */
  datatype Partial = Partial(requestSize: int, elements: seq<Bytes>, elementSize: int, line: Bytes, zeroSized: bool)

  const INITIAL: Partial := Partial(0, [], -1, [], false)

  /** Sizes that are negative or do not fit an int are outside the model. */
  datatype Outcome =
    | Waiting(state: Partial, rest: Bytes)
    | Got(request: Request, rest: Bytes)
    | Broken(status: int)
    | Outside

  /** fetch (src/RedisParser.cc:49-83). */
  function Resume(p: Partial, s: Bytes, authenticated: bool): Outcome
  {
    if p.requestSize != 0 then ReadElements(p, s, authenticated)
    else
      match ReadInteger(p.line, STAR, s)
      case IntMore(line) => Waiting(p.(line := line), [])
      case IntBad => Broken(-1)
      case IntIs(n, rest) =>
        if n < 0 || n > INT_MAX then Outside
        else if !authenticated && n >= 5 then Broken(-2)
        else ReadElements(Partial(n, [], -1, [], p.zeroSized), rest, authenticated)
  }

  function ReadElements(p: Partial, s: Bytes, authenticated: bool): Outcome
    decreases |s|, if p.elementSize == -1 then 1 else 0
  {
    if |p.elements| >= p.requestSize then (if p.zeroSized then Broken(-2) else Got(p.elements, s))
    else if p.elementSize == -1 then
      match ReadInteger(p.line, DOLLAR, s)
      case IntMore(line) => Waiting(p.(line := line), [])
      case IntBad => Broken(-1)
      case IntIs(n, rest) =>
        ReadIntegerShortens(p.line, DOLLAR, s);
        if n < 0 || n > INT_MAX then Outside
        else ReadElements(p.(elementSize := n, line := [], zeroSized := p.zeroSized || n == 0), rest, authenticated)
    else if !authenticated && p.elementSize >= 1048576 then Broken(-2)
    else if p.elementSize < 0 || p.elementSize > INT_MAX - 2 then Outside
    else if |s| < p.elementSize + 2 then Waiting(p, s)
    else if s[p.elementSize] != CR || s[p.elementSize + 1] != LF then Broken(-1)
    else ReadElements(p.(elements := p.elements + [s[..p.elementSize]], elementSize := -1), s[p.elementSize + 2..],
      authenticated)
  }

  lemma {:induction false} ReadIntegerShortens(line: Bytes, prefix: byte, s: Bytes)
    ensures var r := ReadInteger(line, prefix, s); r.IntIs? ==> |r.rest| < |s|
    decreases |s|
  {
    if s != [] && s[0] != LF {
      ReadIntegerShortens(line + [s[0]], prefix, s[1..]);
    }
  }

  // ---------------------------------------------------------------- where the stream is cut does not matter

  /** What is known so far, with more bytes behind it. */
  function Continue(o: Outcome, more: Bytes, authenticated: bool): Outcome
  {
    match o
    case Waiting(p, rest) => Resume(p, rest + more, authenticated)
    case Got(request, rest) => Got(request, rest + more)
    case _ => o
  }

  lemma {:induction false} ReadIntegerSplits(line: Bytes, prefix: byte, a: Bytes, b: Bytes)
    ensures ReadInteger(line, prefix, a + b) ==
      match ReadInteger(line, prefix, a)
      case IntMore(l) => ReadInteger(l, prefix, b)
      case IntBad => IntBad
      case IntIs(v, rest) => IntIs(v, rest + b)
    decreases |a|
  {
    if a == [] {
      assert a + b == b;
    } else {
      assert (a + b)[1..] == a[1..] + b;
      if a[0] != LF {
        ReadIntegerSplits(line + [a[0]], prefix, a[1..], b);
      }
    }
  }

  lemma {:induction false} ReadElementsSplits(p: Partial, a: Bytes, b: Bytes, authenticated: bool)
    requires p.requestSize > 0
    ensures ReadElements(p, a + b, authenticated) == Continue(ReadElements(p, a, authenticated), b, authenticated)
    decreases |a|, if p.elementSize == -1 then 1 else 0
  {
    if |p.elements| >= p.requestSize {
    } else if p.elementSize == -1 {
      ReadIntegerSplits(p.line, DOLLAR, a, b);
      ReadIntegerShortens(p.line, DOLLAR, a);
      match ReadInteger(p.line, DOLLAR, a) {
        case IntMore(line) => assert [] + b == b;
        case IntBad =>
        case IntIs(n, rest) =>
          if 0 <= n <= INT_MAX {
            ReadElementsSplits(p.(elementSize := n, line := [], zeroSized := p.zeroSized || n == 0), rest, b,
              authenticated);
          }
      }
    } else if 0 <= p.elementSize && p.elementSize + 2 <= |a| {
      var n := p.elementSize;
      assert (a + b)[..n] == a[..n] && (a + b)[n + 2..] == a[n + 2..] + b;
      if a[n] == CR && a[n + 1] == LF {
        ReadElementsSplits(p.(elements := p.elements + [a[..n]], elementSize := -1), a[n + 2..], b, authenticated);
      }
    }
  }

  /** Reading a stream in one go or stopping anywhere and going on later gives the same. */
  lemma ResumeSplits(p: Partial, a: Bytes, b: Bytes, authenticated: bool)
    requires p.requestSize >= 0
    ensures Resume(p, a + b, authenticated) == Continue(Resume(p, a, authenticated), b, authenticated)
  {
    if p.requestSize != 0 {
      ReadElementsSplits(p, a, b, authenticated);
    } else {
      ReadIntegerSplits(p.line, STAR, a, b);
      match ReadInteger(p.line, STAR, a) {
        case IntMore(line) => assert [] + b == b;
        case IntBad =>
        case IntIs(n, rest) =>
          if n > 0 {
            ReadElementsSplits(Partial(n, [], -1, [], p.zeroSized), rest, b, authenticated);
          }
      }
    }
  }

  // ---------------------------------------------------------------- whole streams

  /** States in which fetch can be called again. */
  predicate Live(p: Partial)
  {
    p.requestSize == 0 || |p.elements| < p.requestSize
  }

  lemma {:induction false} ReadElementsShortens(p: Partial, s: Bytes, authenticated: bool)
    ensures match ReadElements(p, s, authenticated)
      case Waiting(q, _) => Live(q)
      case Got(_, rest) => |rest| <= |s| && (|p.elements| < p.requestSize ==> |rest| < |s|)
      case _ => true
    decreases |s|, if p.elementSize == -1 then 1 else 0
  {
    if |p.elements| >= p.requestSize {
    } else if p.elementSize == -1 {
      ReadIntegerShortens(p.line, DOLLAR, s);
      match ReadInteger(p.line, DOLLAR, s) {
        case IntIs(n, rest) =>
          if 0 <= n <= INT_MAX {
            ReadElementsShortens(p.(elementSize := n, line := [], zeroSized := p.zeroSized || n == 0), rest,
              authenticated);
          }
        case _ =>
      }
    } else if 0 <= p.elementSize && p.elementSize + 2 <= |s| {
      var n := p.elementSize;
      if s[n] == CR && s[n + 1] == LF {
        ReadElementsShortens(p.(elements := p.elements + [s[..n]], elementSize := -1), s[n + 2..], authenticated);
      }
    }
  }

  lemma ResumeShortens(p: Partial, s: Bytes, authenticated: bool)
    requires Live(p)
    ensures match Resume(p, s, authenticated)
      case Waiting(q, _) => Live(q)
      case Got(_, rest) => |rest| < |s|
      case _ => true
  {
    if p.requestSize != 0 {
      ReadElementsShortens(p, s, authenticated);
    } else {
      ReadIntegerShortens(p.line, STAR, s);
      match ReadInteger(p.line, STAR, s) {
        case IntIs(n, rest) => ReadElementsShortens(Partial(n, [], -1, [], p.zeroSized), rest, authenticated);
        case _ =>
      }
    }
  }

  /** All requests that a stream holds, from a given state on. */
  function Decode(p: Partial, s: Bytes, authenticated: bool): seq<Request>
    requires Live(p)
    decreases |s|
  {
    ResumeShortens(p, s, authenticated);
    match Resume(p, s, authenticated)
    case Got(request, rest) => [request] + Decode(INITIAL, rest, authenticated)
    case _ => []
  }

  /** A connection: what it has parsed, and the bytes that wait. */
  datatype Session = Session(state: Partial, unread: Bytes, got: seq<Request>)

  /** Fetch until there is nothing to fetch. */
  function FetchAll(x: Session, authenticated: bool): (y: Session)
    requires Live(x.state)
    ensures Live(y.state)
    decreases |x.unread|
  {
    ResumeShortens(x.state, x.unread, authenticated);
    match Resume(x.state, x.unread, authenticated)
    case Got(request, rest) => FetchAll(Session(INITIAL, rest, x.got + [request]), authenticated)
    case Waiting(p, rest) => Session(p, rest, x.got)
    case _ => x
  }

  lemma {:induction false} FetchAllDecodes(x: Session, authenticated: bool)
    requires Live(x.state)
    ensures FetchAll(x, authenticated).got == x.got + Decode(x.state, x.unread, authenticated)
    decreases |x.unread|
  {
    ResumeShortens(x.state, x.unread, authenticated);
    match Resume(x.state, x.unread, authenticated) {
      case Got(request, rest) => FetchAllDecodes(Session(INITIAL, rest, x.got + [request]), authenticated);
      case _ =>
    }
  }

  lemma {:induction false} FetchAllLosesNothing(x: Session, more: Bytes, authenticated: bool)
    requires Live(x.state)
    ensures var y := FetchAll(x, authenticated);
      x.got + Decode(x.state, x.unread + more, authenticated) == y.got + Decode(y.state, y.unread + more, authenticated)
    decreases |x.unread|
  {
    ResumeShortens(x.state, x.unread, authenticated);
    ResumeSplits(x.state, x.unread, more, authenticated);
    match Resume(x.state, x.unread, authenticated) {
      case Got(request, rest) =>
        FetchAllLosesNothing(Session(INITIAL, rest, x.got + [request]), more, authenticated);
      case _ =>
    }
  }

  function FeedAll(x: Session, chunks: seq<Bytes>, authenticated: bool): (y: Session)
    requires Live(x.state)
    ensures Live(y.state)
    decreases |chunks|
  {
    if chunks == [] then x
    else
      FeedAll(FetchAll(x.(unread := x.unread + chunks[0]), authenticated), chunks[1..], authenticated)
  }

  function Joined(chunks: seq<Bytes>): Bytes
  {
    if chunks == [] then [] else chunks[0] + Joined(chunks[1..])
  }

  /** However the stream is cut into pieces, the requests fetched after all of them are those of the whole stream. */
  lemma {:induction false} AnyChunking(x: Session, chunks: seq<Bytes>, authenticated: bool)
    requires Live(x.state) && Decode(x.state, x.unread, authenticated) == []
    ensures FeedAll(x, chunks, authenticated).got == x.got + Decode(x.state, x.unread + Joined(chunks), authenticated)
    decreases |chunks|
  {
    if chunks == [] {
      assert x.unread + [] == x.unread;
    } else {
      var z := x.(unread := x.unread + chunks[0]);
      var y := FetchAll(z, authenticated);
      FetchAllLosesNothing(z, Joined(chunks[1..]), authenticated);
      FetchedAll(z, authenticated);
      AnyChunking(y, chunks[1..], authenticated);
      assert z.unread + Joined(chunks[1..]) == x.unread + Joined(chunks);
    }
  }

  lemma FetchedAll(x: Session, authenticated: bool)
    requires Live(x.state)
    ensures var y := FetchAll(x, authenticated); Decode(y.state, y.unread, authenticated) == []
  {
    var y := FetchAll(x, authenticated);
    FetchAllDecodes(x, authenticated);
    FetchAllLosesNothing(x, [], authenticated);
    assert x.unread + [] == x.unread && y.unread + [] == y.unread;
  }

  // ---------------------------------------------------------------- printing

  function Decimal(n: nat): Bytes
  {
    if n < 10 then [(48 + n) as byte] else Decimal(n / 10) + [(48 + n % 10) as byte]
  }

  /** An element of vector (src/Formatter.cc:97-105). */
  function PrintElement(e: Bytes): Bytes
  {
    [DOLLAR] + Decimal(|e|) + [CR, LF] + e + [CR, LF]
  }

  function PrintElements(es: seq<Bytes>): Bytes
  {
    if es == [] then [] else PrintElement(es[0]) + PrintElements(es[1..])
  }

  /** simpleRedisRequest (src/Formatter.cc:134-142). */
  function PrintRequest(r: Request): Bytes
  {
    [STAR] + Decimal(|r|) + [CR, LF] + PrintElements(r)
  }

  function PrintAll(rs: seq<Request>): Bytes
  {
    if rs == [] then [] else PrintRequest(rs[0]) + PrintAll(rs[1..])
  }

  lemma {:induction false} DecimalDigits(n: nat)
    ensures |Decimal(n)| > 0 && (forall i :: 0 <= i < |Decimal(n)| ==> IsDigit(Decimal(n)[i]))
    ensures Number(Decimal(n)) == n
  {
    if n >= 10 {
      DecimalDigits(n / 10);
      assert Decimal(n)[..|Decimal(n)| - 1] == Decimal(n / 10);
    } else {
      assert Decimal(n)[..0] == [];
    }
  }

  lemma {:induction false} DigitsOnly(s: Bytes)
    requires forall i :: 0 <= i < |s| ==> IsDigit(s[i])
    ensures CString(s) == s && DigitRun(s) == |s|
  {
    if s != [] {
      DigitsOnly(s[1..]);
    }
  }

  lemma StrtolDecimal(n: nat)
    requires n <= INT_MAX
    ensures Strtol(Decimal(n)) == Some(n)
  {
    DecimalDigits(n);
    DigitsOnly(Decimal(n));
  }

  lemma {:induction false} ReadIntegerLine(line: Bytes, prefix: byte, body: Bytes, rest: Bytes)
    requires LF !in body
    ensures ReadInteger(line, prefix, body + [LF] + rest) == ReadInteger(line + body, prefix, [LF] + rest)
    decreases |body|
  {
    if body == [] {
      assert body + [LF] + rest == [LF] + rest && line + body == line;
    } else {
      var s := body + [LF] + rest;
      assert s[1..] == body[1..] + [LF] + rest && s[0] == body[0];
      ReadIntegerLine(line + [body[0]], prefix, body[1..], rest);
      assert line + [body[0]] + body[1..] == line + body;
    }
  }

  lemma Between(prefix: byte, digits: Bytes)
    ensures var line := [prefix] + digits + [CR] + [LF];
      |line| == |digits| + 3 && line[0] == prefix && line[|line| - 2] == CR && line[1..|line| - 2] == digits
  {
  }

  lemma ReadPrintedInteger(prefix: byte, n: nat, rest: Bytes)
    requires n <= INT_MAX && prefix != LF
    ensures ReadInteger([], prefix, [prefix] + Decimal(n) + [CR, LF] + rest) == IntIs(n, rest)
  {
    DecimalDigits(n);
    var body := [prefix] + Decimal(n) + [CR];
    ReadIntegerLine([], prefix, body, rest);
    assert body + [LF] + rest == [prefix] + Decimal(n) + [CR, LF] + rest;
    var line := body + [LF];
    assert [] + body + [LF] == line;
    Between(prefix, Decimal(n));
    assert ([LF] + rest)[1..] == rest;
    StrtolDecimal(n);
  }

  /** Sizes that the parser's ints can hold. */
  predicate Representable(r: Request)
  {
    |r| <= INT_MAX && forall i :: 0 <= i < |r| ==> |r[i]| <= INT_MAX - 2
  }

  predicate ElementWelcome(e: Bytes, authenticated: bool)
  {
    0 < |e| && (authenticated || |e| < 1048576)
  }

  /** No empty elements; and a stranger may send only small requests. */
  predicate Welcome(r: Request, authenticated: bool)
  {
    (authenticated || |r| < 5) && forall i :: 0 <= i < |r| ==> ElementWelcome(r[i], authenticated)
  }

  lemma ReadPrintedElement(p: Partial, e: Bytes, tail: Bytes, authenticated: bool)
    requires |p.elements| < p.requestSize && p.elementSize == -1 && p.line == [] && |e| <= INT_MAX - 2
    ensures ReadElements(p, PrintElement(e) + tail, authenticated)
      == if !authenticated && |e| >= 1048576 then Broken(-2)
         else ReadElements(p.(elements := p.elements + [e], zeroSized := p.zeroSized || |e| == 0), tail, authenticated)
  {
    var t := e + [CR, LF] + tail;
    assert PrintElement(e) + tail == [DOLLAR] + Decimal(|e|) + [CR, LF] + t;
    ReadPrintedInteger(DOLLAR, |e|, t);
    assert t[..|e|] == e && t[|e|] == CR && t[|e| + 1] == LF && t[|e| + 2..] == tail;
  }

  lemma {:induction false} ReadPrintedElements(r: Request, k: nat, zero: bool, rest: Bytes, authenticated: bool)
    requires Representable(r) && k <= |r|
    ensures ReadElements(Partial(|r|, r[..k], -1, [], zero), PrintElements(r[k..]) + rest, authenticated)
      == if !zero && (forall i :: k <= i < |r| ==> ElementWelcome(r[i], authenticated)) then Got(r, rest)
        else Broken(-2)
    decreases |r| - k
  {
    if k == |r| {
      assert PrintElements(r[k..]) + rest == rest && r[..k] == r;
    } else {
      var tail := PrintElements(r[k + 1..]) + rest;
      assert r[k..][1..] == r[k + 1..];
      assert PrintElements(r[k..]) + rest == PrintElement(r[k]) + tail;
      ReadPrintedElement(Partial(|r|, r[..k], -1, [], zero), r[k], tail, authenticated);
      assert r[..k] + [r[k]] == r[..k + 1];
      ReadPrintedElements(r, k + 1, zero || |r[k]| == 0, rest, authenticated);
    }
  }

  /** A printed request is read back exactly if it is welcome; otherwise the connection is shut down. */
  lemma ReadPrintedRequest(r: Request, rest: Bytes, authenticated: bool)
    requires Representable(r)
    ensures Resume(INITIAL, PrintRequest(r) + rest, authenticated)
      == if Welcome(r, authenticated) then Got(r, rest) else Broken(-2)
  {
    assert PrintRequest(r) + rest == [STAR] + Decimal(|r|) + [CR, LF] + (PrintElements(r) + rest);
    ReadPrintedInteger(STAR, |r|, PrintElements(r) + rest);
    ReadPrintedElements(r, 0, false, rest, authenticated);
    assert r[..0] == [] && r[0..] == r;
  }

  /** The requests before the first one that is not welcome. */
  function Accepted(rs: seq<Request>, authenticated: bool): seq<Request>
  {
    if rs == [] || !Welcome(rs[0], authenticated) then [] else [rs[0]] + Accepted(rs[1..], authenticated)
  }

  /** Parsing undoes printing, for any number of requests in a row. */
  lemma {:induction false} DecodePrinted(rs: seq<Request>, authenticated: bool)
    requires forall i :: 0 <= i < |rs| ==> Representable(rs[i])
    ensures Decode(INITIAL, PrintAll(rs), authenticated) == Accepted(rs, authenticated)
  {
    if rs != [] {
      ReadPrintedRequest(rs[0], PrintAll(rs[1..]), authenticated);
      DecodePrinted(rs[1..], authenticated);
    }
  }

  lemma {:induction false} AcceptedAll(rs: seq<Request>, authenticated: bool)
    ensures Accepted(rs, authenticated) <= rs
    ensures Accepted(rs, authenticated) == rs <==> forall i :: 0 <= i < |rs| ==> Welcome(rs[i], authenticated)
  {
    if rs != [] {
      AcceptedAll(rs[1..], authenticated);
      assert rs == [rs[0]] + rs[1..];
      assert forall i :: 1 <= i < |rs| ==> rs[i] == rs[1..][i - 1];
    }
  }

  /**
   * Requests printed one after the other and delivered in any pieces arrive as they were, if and only if all
   * are welcome.
   */
  lemma PrintedRoundTrip(rs: seq<Request>, chunks: seq<Bytes>, authenticated: bool)
    requires (forall i :: 0 <= i < |rs| ==> Representable(rs[i])) && Joined(chunks) == PrintAll(rs)
    ensures var got := FeedAll(Session(INITIAL, [], []), chunks, authenticated).got;
      got <= rs && (got == rs <==> forall i :: 0 <= i < |rs| ==> Welcome(rs[i], authenticated))
  {
    AnyChunking(Session(INITIAL, [], []), chunks, authenticated);
    assert [] + Joined(chunks) == PrintAll(rs);
    DecodePrinted(rs, authenticated);
    AcceptedAll(rs, authenticated);
  }

  // ---------------------------------------------------------------- byte for byte

  /** Where the k-th element of a request begins in its printed form. */
  function ElementAt(r: Request, k: nat): nat
    requires k <= |r|
  {
    if k == 0 then |Decimal(|r|)| + 3 else ElementAt(r, k - 1) + |Decimal(|r[k - 1]|)| + |r[k - 1]| + 5
  }

  /** From position `from` on, `s` shows `e`: a dollar, its size, itself. */
  predicate Shows(s: Bytes, from: nat, e: Bytes)
  {
    var n := |Decimal(|e|)|;
    && from + n + |e| + 5 <= |s| && s[from] == 36
    && s[from + 1..from + 1 + n] == Decimal(|e|) && s[from + 1 + n..from + 3 + n] == [13, 10]
    && s[from + 3 + n..from + 3 + n + |e|] == e && s[from + 3 + n + |e|..from + 5 + n + |e|] == [13, 10]
  }

  lemma ElementShows(e: Bytes, rest: Bytes)
    ensures Shows(PrintElement(e) + rest, 0, e)
  {
  }

  lemma ShowsBehind(front: Bytes, s: Bytes, e: Bytes)
    requires Shows(s, 0, e)
    ensures Shows(front + s, |front|, e)
  {
    var n := |Decimal(|e|)|;
    Slice(front, s, 1, 1 + n);
    Slice(front, s, 1 + n, 3 + n);
    Slice(front, s, 3 + n, 3 + n + |e|);
    Slice(front, s, 3 + n + |e|, 5 + n + |e|);
  }

  lemma Slice(front: Bytes, s: Bytes, i: nat, j: nat)
    requires i <= j <= |s|
    ensures (front + s)[|front| + i..|front| + j] == s[i..j]
  {
  }

  /** A printed request, byte for byte: a star and the number of elements, then each element in its place. */
  lemma PrintedBytes(r: Request, k: nat)
    requires k < |r|
    ensures ElementAt(r, 0) <= |PrintRequest(r)| && PrintRequest(r)[..ElementAt(r, 0)] == [42] + Decimal(|r|) + [13, 10]
    ensures Shows(PrintRequest(r), ElementAt(r, k), r[k])
  {
    PrintedTail(r, 0);
    PrintedTail(r, k);
    assert r[k..][1..] == r[k + 1..];
    ShowsAt(PrintRequest(r), ElementAt(r, k), r[k], PrintElements(r[k + 1..]));
  }

  lemma ShowsAt(s: Bytes, at: nat, e: Bytes, rest: Bytes)
    requires at <= |s| && s[at..] == PrintElement(e) + rest
    ensures Shows(s, at, e)
  {
    ElementShows(e, rest);
    ShowsBehind(s[..at], s[at..], e);
    assert s[..at] + s[at..] == s;
  }

  lemma {:induction false} PrintedTail(r: Request, k: nat)
    requires k <= |r|
    ensures ElementAt(r, k) <= |PrintRequest(r)| && PrintRequest(r)[ElementAt(r, k)..] == PrintElements(r[k..])
    ensures PrintRequest(r)[..ElementAt(r, 0)] == [42] + Decimal(|r|) + [13, 10]
  {
    if k == 0 {
      assert r[0..] == r;
    } else {
      PrintedTail(r, k - 1);
      var s, at, e := PrintRequest(r), ElementAt(r, k - 1), r[k - 1];
      assert r[k - 1..][1..] == r[k..];
      assert s[ElementAt(r, k)..] == s[at..][|PrintElement(e)|..];
    }
  }

  /** Numbers are decimal, in ASCII digits, the most significant first. */
  lemma DecimalNumerals(n: nat, d: nat)
    requires d <= 9
    ensures Decimal(d) == [(48 + d) as byte] && (n > 0 ==> Decimal(10 * n + d) == Decimal(n) + [(48 + d) as byte])
    ensures Number(Decimal(n) + [(48 + d) as byte]) == 10 * n + d
  {
    DecimalDigits(n);
    var ds := Decimal(n) + [(48 + d) as byte];
    assert ds[..|ds| - 1] == Decimal(n);
    assert n > 0 ==> (10 * n + d) / 10 == n && (10 * n + d) % 10 == d;
  }

  /** PING, as a client sends it. */
  lemma PrintedPing()
    ensures PrintRequest([[80, 73, 78, 71]]) == [42, 49, 13, 10, 36, 52, 13, 10, 80, 73, 78, 71, 13, 10]
  {
    var r: Request := [[80, 73, 78, 71]];
    assert PrintElements(r[1..]) == [];
    assert Decimal(1) == [49] && Decimal(4) == [52];
    assert PrintElements(r) == PrintElement(r[0]) + [];
  }

  /**
   * The first line of a request, whatever it holds. It has to begin with a star and end with CR LF around
   * something that strtol takes; a stranger may announce at most four elements.
   */
  lemma FirstLine(body: Bytes, rest: Bytes, authenticated: bool)
    requires 10 !in body
    ensures var o := Resume(INITIAL, body + [10] + rest, authenticated);
      if |body| < 2 || body[0] != 42 || body[|body| - 1] != 13 then o == Broken(-1)
      else match Strtol(body[1..|body| - 1])
        case None => o == Broken(-1)
        case Some(n) =>
          if n < 0 || n > 2147483647 then o == Outside
          else if !authenticated && n > 4 then o == Broken(-2)
          else if n == 0 then o == Got([], rest)
          else o == Resume(Partial(n, [], -1, [], false), rest, authenticated)
  {
    LineEnds(STAR, body, rest);
  }

  /**
   * The line in front of an element: a dollar, its size, CR LF. Then come as many bytes, less than a megabyte
   * for a stranger, and CR LF; the size 0 is remembered until the request is complete.
   */
  lemma ElementLine(p: Partial, body: Bytes, rest: Bytes, authenticated: bool)
    requires 10 !in body && |p.elements| < p.requestSize && p.elementSize == -1 && p.line == []
    ensures var o := Resume(p, body + [10] + rest, authenticated);
      if |body| < 2 || body[0] != 36 || body[|body| - 1] != 13 then o == Broken(-1)
      else match Strtol(body[1..|body| - 1])
        case None => o == Broken(-1)
        case Some(n) =>
          if n < 0 || n > 2147483647 then o == Outside
          else if !authenticated && n > 1048575 then o == Broken(-2)
          else if n > 2147483645 then o == Outside
          else if |rest| < n + 2 then
            o == Waiting(p.(elementSize := n, zeroSized := p.zeroSized || n == 0), rest)
          else if rest[n] != 13 || rest[n + 1] != 10 then o == Broken(-1)
          else o == Resume(p.(elements := p.elements + [rest[..n]], zeroSized := p.zeroSized || n == 0), rest[n + 2..],
            authenticated)
  {
    LineEnds(DOLLAR, body, rest);
    if |body| >= 2 && body[0] == 36 && body[|body| - 1] == 13 {
      match Strtol(body[1..|body| - 1])
      case None =>
      case Some(n) =>
        if 0 <= n <= INT_MAX {
          var q := p.(elementSize := n, line := [], zeroSized := p.zeroSized || n == 0);
          assert Resume(p, body + [10] + rest, authenticated) == ReadElements(q, rest, authenticated);
        }
    }
  }

  lemma LineEnds(prefix: byte, body: Bytes, rest: Bytes)
    requires 10 !in body && prefix != 10
    ensures ReadInteger([], prefix, body + [10] + rest) ==
      if |body| < 2 || body[0] != prefix || body[|body| - 1] != 13 then IntBad
      else match Strtol(body[1..|body| - 1]) case None => IntBad case Some(n) => IntIs(n, rest)
  {
    ReadIntegerLine([], prefix, body, rest);
    var line := [] + body + [10];
    assert ([10] + rest)[1..] == rest && line == body + [10];
    if |body| >= 2 {
      assert line[1..|line| - 2] == body[1..|body| - 1];
    }
  }

  /** A request that is complete is handed out, unless one of its elements was empty. */
  lemma LastElement(p: Partial, rest: Bytes, authenticated: bool)
    requires |p.elements| == p.requestSize && p.requestSize > 0
    ensures Resume(p, rest, authenticated) == if p.zeroSized then Broken(-2) else Got(p.elements, rest)
  {
  }

  // ---------------------------------------------------------------- which texts are numbers

  predicate Spaces(s: Bytes) { forall i :: 0 <= i < |s| ==> s[i] == 32 || 9 <= s[i] <= 13 }

  predicate Digits(s: Bytes) { forall i :: 0 <= i < |s| ==> 48 <= s[i] <= 57 }

  /** White space, a sign, digits; then nothing, or a zero byte and anything. */
  predicate Numeral(spaces: Bytes, sign: Bytes, digits: Bytes, junk: Bytes)
  {
    && Spaces(spaces) && (sign == [] || sign == [43] || sign == [45]) && Digits(digits) && digits != []
    && (junk == [] || junk[0] == 0)
  }

  /** Such a text is read as the number it shows, if that lies strictly between the bounds of a long. */
  lemma StrtolReads(spaces: Bytes, sign: Bytes, digits: Bytes, junk: Bytes)
    requires Numeral(spaces, sign, digits, junk)
    ensures var v := if sign == [45] then -Number(digits) else Number(digits);
      Strtol(spaces + sign + digits + junk)
        == if -9223372036854775808 < v < 9223372036854775807 then Some(v) else None
  {
    var text := spaces + sign + digits;
    CStringStops(text, junk);
    SpacesSkipped(spaces, sign + digits);
    Assembled(spaces, sign, digits, sign + digits, spaces + (sign + digits));
    DigitsOnly(digits);
    StrtolParts(text + junk, text, sign, digits);
  }

  lemma StrtolParts(whole: Bytes, text: Bytes, sign: Bytes, digits: Bytes)
    requires CString(whole) == text && SkipSpaces(text) == sign + digits && DigitRun(digits) == |digits| > 0
    requires (sign == [] || sign == [43] || sign == [45]) && IsDigit(digits[0])
    ensures var v := if sign == [45] then -Number(digits) else Number(digits);
      Strtol(whole) == if -9223372036854775808 < v < 9223372036854775807 then Some(v) else None
  {
    var t := sign + digits;
    if sign == [] { assert t == digits; } else { assert t[0] == sign[0] && t[1..] == digits; }
  }

  lemma {:induction false} CStringStops(text: Bytes, junk: Bytes)
    requires 0 !in text && (junk == [] || junk[0] == 0)
    ensures CString(text + junk) == text
  {
    if text == [] {
      assert text + junk == junk;
    } else {
      assert (text + junk)[1..] == text[1..] + junk;
      CStringStops(text[1..], junk);
    }
  }

  lemma {:induction false} SpacesSkipped(spaces: Bytes, rest: Bytes)
    requires Spaces(spaces) && (rest != [] ==> !IsSpace(rest[0]))
    ensures SkipSpaces(spaces + rest) == rest
  {
    if spaces == [] {
      assert spaces + rest == rest;
    } else {
      assert (spaces + rest)[1..] == spaces[1..] + rest;
      SpacesSkipped(spaces[1..], rest);
    }
  }

  /** Nothing else is: a text that is read has that form, or is empty as a C string and read as 0. */
  lemma StrtolOnly(text: Bytes) returns (spaces: Bytes, sign: Bytes, digits: Bytes, junk: Bytes)
    requires Strtol(text).Some?
    ensures text == spaces + sign + digits + junk
    ensures if text == [] || text[0] == 0 then Strtol(text) == Some(0) && junk == text
      else Numeral(spaces, sign, digits, junk)
  {
    var s, t;
    s, junk := CStringSplit(text);
    spaces, t := SpacesSplit(s);
    sign, digits := SignSplit(t);
    DigitsCounted(digits);
    Assembled(spaces, sign, digits, t, s);
    assert s == [] ==> s + junk == junk;
  }

  lemma Assembled(spaces: Bytes, sign: Bytes, digits: Bytes, t: Bytes, s: Bytes)
    requires t == sign + digits && s == spaces + t
    ensures s == spaces + sign + digits
  {
  }

  lemma SignSplit(t: Bytes) returns (sign: Bytes, digits: Bytes)
    ensures t == sign + digits && (sign == [] || sign == [43] || sign == [45])
    ensures var signed := t != [] && (t[0] == 43 || t[0] == 45); digits == if signed then t[1..] else t
  {
    var signed := t != [] && (t[0] == 43 || t[0] == 45);
    sign, digits := if signed then t[..1] else [], if signed then t[1..] else t;
  }

  lemma {:induction false} CStringSplit(text: Bytes) returns (s: Bytes, junk: Bytes)
    ensures s == CString(text) && text == s + junk && (junk == [] || junk[0] == 0)
    ensures s == [] <==> text == [] || text[0] == 0
  {
    s, junk := [], text;
    if text != [] && text[0] != 0 {
      s, junk := CStringSplit(text[1..]);
      s := [text[0]] + s;
    }
  }

  lemma {:induction false} SpacesSplit(s: Bytes) returns (spaces: Bytes, t: Bytes)
    ensures t == SkipSpaces(s) && s == spaces + t && Spaces(spaces)
  {
    spaces, t := [], s;
    if s != [] && IsSpace(s[0]) {
      spaces, t := SpacesSplit(s[1..]);
      spaces := [s[0]] + spaces;
    }
  }

  lemma {:induction false} DigitsCounted(s: Bytes)
    ensures DigitRun(s) == |s| <==> Digits(s)
  {
    if s != [] {
      DigitsCounted(s[1..]);
      assert Digits(s) <==> IsDigit(s[0]) && Digits(s[1..]);
    }
  }
}
