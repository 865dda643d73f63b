/**
 * BufferedReader (src/BufferedReader.cc): reads from a link into a queue of buffers, and hands
 * out views into them where it can. The link decides how many bytes it delivers at a time.
 */
module RespReader {
  import opened Bytes
  import opened RespProtocol

  /** A byte source: `stream` is all that will ever arrive, of which `position` bytes have. */
  class Link {
    const stream: Bytes
    var position: nat

    constructor (s: Bytes)
      ensures stream == s && position == 0
    {
      stream, position := s, 0;
    }

    /** A non-blocking read: any number of bytes up to the space given, or an error. */
    method Recv(buffer: array<byte>, at: nat, space: nat) returns (rlen: int)
      requires at + space <= buffer.Length && position <= |stream|
      modifies this, buffer
      ensures -1 <= rlen <= space && position == old(position) + (if rlen < 0 then 0 else rlen) <= |stream|
      ensures buffer[..at] == old(buffer[..at])
      ensures rlen >= 0 ==> buffer[at..at + rlen] == stream[old(position)..position]
      ensures rlen < 0 ==> buffer[..] == old(buffer[..])
    {
      rlen :| -1 <= rlen <= space && rlen <= |stream| - position;
      forall i | 0 <= i < rlen {
        buffer[at + i] := stream[position + i];
      }
      position := position + if rlen < 0 then 0 else rlen;
    }
  }

  /** A buffer handed out (src/memory/PinnedBuffer.hh): a view into a region of the reader, or bytes of its own. */
  datatype Pinned = View(region: array<byte>, start: nat, size: nat) | Owned(bytes: Bytes)

  function PinnedSize(p: Pinned): nat
  {
    match p
    case View(_, _, size) => size
    case Owned(bytes) => |bytes|
  }

  function PinnedAt(p: Pinned, i: nat): byte
    reads if p.View? then {p.region} else {}
    requires i < PinnedSize(p) && (p.View? ==> p.start + p.size <= p.region.Length)
  {
    match p
    case View(region, start, _) => region[start + i]
    case Owned(bytes) => bytes[i]
  }

  /** remove_suffix (src/memory/PinnedBuffer.hh:166-174). */
  function RemoveSuffix(p: Pinned, n: nat): Pinned
    requires n <= PinnedSize(p)
  {
    match p
    case View(region, start, size) => View(region, start, size - n)
    case Owned(bytes) => Owned(bytes[..|bytes| - n])
  }

  /** What was received into each region so far. */
  type Received = map<array<byte>, Bytes>

  ghost predicate Holds(received: Received, p: Pinned)
  {
    p.View? ==> p.region in received && p.start + p.size <= |received[p.region]|
  }

  ghost function Contents(received: Received, p: Pinned): Bytes
    requires Holds(received, p)
  {
    match p
    case View(region, start, size) => received[region][start..start + size]
    case Owned(bytes) => bytes
  }

  /** Regions are only ever written behind what they hold already. */
  ghost predicate Grown(before: Received, after: Received)
  {
    forall r :: r in before ==> r in after && before[r] <= after[r]
  }

  lemma GrownTwice(a: Received, b: Received, c: Received)
    requires Grown(a, b) && Grown(b, c)
    ensures Grown(a, c)
  {
    forall r | r in a ensures r in c && a[r] <= c[r] {
      assert r in b && a[r] <= b[r] && b[r] <= c[r];
    }
  }

  /** A pinned buffer keeps its contents, whatever is read later. */
  lemma PinnedStays(before: Received, after: Received, p: Pinned)
    requires Grown(before, after) && Holds(before, p)
    ensures Holds(after, p) && Contents(after, p) == Contents(before, p)
  {
  }

  ghost function Chunks(received: Received, buffers: seq<array<byte>>): (c: seq<Bytes>)
    requires forall i :: 0 <= i < |buffers| ==> buffers[i] in received
    ensures |c| == |buffers| && forall i :: 0 <= i < |c| ==> c[i] == received[buffers[i]]
  {
    if buffers == [] then [] else [received[buffers[0]]] + Chunks(received, buffers[1..])
  }

  lemma {:induction false} JoinedLast(a: seq<Bytes>, b: Bytes)
    ensures Joined(a + [b]) == Joined(a) + b
  {
    if a == [] {
      assert a + [b] == [b] && [b][1..] == [];
    } else {
      assert (a + [b])[0] == a[0] && (a + [b])[1..] == a[1..] + [b];
      JoinedLast(a[1..], b);
    }
  }

  lemma {:induction false} JoinedSize(a: seq<Bytes>, size: nat)
    requires a != [] && forall i :: 0 <= i < |a| - 1 ==> |a[i]| == size
    ensures |Joined(a)| == (|a| - 1) * size + |a[|a| - 1]|
  {
    if |a| == 1 {
      assert a[1..] == [];
    } else {
      JoinedSize(a[1..], size);
      var n := |a| - 2;
      assert (n + 1) * size == n * size + size;
    }
  }

  ghost predicate Registered(received: Received, buffers: seq<array<byte>>)
  {
    && (forall i :: 0 <= i < |buffers| ==> buffers[i] in received)
    && (forall i, j :: 0 <= i < j < |buffers| ==> buffers[i] != buffers[j])
  }

  lemma ChunksFill(received: Received, buffers: seq<array<byte>>, more: Bytes)
    requires buffers != [] && Registered(received, buffers)
    ensures var n := |buffers| - 1;
      var front, last := Chunks(received, buffers)[..n], received[buffers[n]];
      && Chunks(received, buffers) == front + [last]
      && Chunks(received[buffers[n] := last + more], buffers) == front + [last + more]
  {
    var n := |buffers| - 1;
    var filled := received[buffers[n] := received[buffers[n]] + more];
    var c, d := Chunks(received, buffers), Chunks(filled, buffers);
    forall i | 0 <= i < n ensures c[i] == d[i] {
      assert c[i] == received[buffers[i]] && d[i] == filled[buffers[i]] && buffers[i] != buffers[n];
    }
    assert c[n] == received[buffers[n]] && d[n] == filled[buffers[n]];
    SameFront(c, d, n, received[buffers[n]], received[buffers[n]] + more);
  }

  lemma SameFront(c: seq<Bytes>, d: seq<Bytes>, n: nat, x: Bytes, y: Bytes)
    requires |c| == |d| == n + 1 && c[n] == x && d[n] == y
    requires forall i :: 0 <= i < n ==> c[i] == d[i]
    ensures c == c[..n] + [x] && d == c[..n] + [y]
  {
  }

  /** Bytes received into the last buffer come at the end. */
  lemma JoinedFill(received: Received, buffers: seq<array<byte>>, more: Bytes)
    requires buffers != [] && Registered(received, buffers)
    ensures var last := buffers[|buffers| - 1];
      Joined(Chunks(received[last := received[last] + more], buffers)) == Joined(Chunks(received, buffers)) + more
  {
    var n := |buffers| - 1;
    ChunksFill(received, buffers, more);
    JoinedMore(Chunks(received, buffers)[..n], received[buffers[n]], more);
  }

  lemma JoinedMore(front: seq<Bytes>, last: Bytes, more: Bytes)
    ensures Joined(front + [last + more]) == Joined(front + [last]) + more
  {
    JoinedLast(front, last + more);
    JoinedLast(front, last);
    Associative(Joined(front), last, more);
  }

  lemma Associative(a: Bytes, b: Bytes, c: Bytes)
    ensures a + (b + c) == a + b + c
  {
  }

  lemma JoinedAdd(received: Received, buffers: seq<array<byte>>, region: array<byte>)
    requires Registered(received, buffers) && region !in received
    ensures Joined(Chunks(received[region := []], buffers + [region])) == Joined(Chunks(received, buffers))
  {
    assert Chunks(received[region := []], buffers + [region]) == Chunks(received, buffers) + [[]];
    JoinedLast(Chunks(received, buffers), []);
  }

  /** The buffers in use: all full but the last, which always has room. */
  ghost predicate Layout(
    received: Received, buffers: seq<array<byte>>, size: nat, positionRead: nat, positionWrite: nat)
  {
    && buffers != [] && Registered(received, buffers)
    && (forall i :: 0 <= i < |buffers| - 1 ==> |received[buffers[i]]| == size)
    && |received[buffers[|buffers| - 1]]| == positionWrite < size
    && positionRead <= |received[buffers[0]]|
  }

  /** What lies behind the read position. */
  ghost predicate Ahead(received: Received, buffers: seq<array<byte>>, positionRead: nat, unread: Bytes)
    requires Registered(received, buffers)
  {
    positionRead <= |Joined(Chunks(received, buffers))| && Joined(Chunks(received, buffers))[positionRead..] == unread
  }

  ghost function Filled(received: Received, buffers: seq<array<byte>>, more: Bytes): Received
    requires buffers != [] && Registered(received, buffers)
  {
    received[buffers[|buffers| - 1] := received[buffers[|buffers| - 1]] + more]
  }

  lemma FilledAhead(received: Received, buffers: seq<array<byte>>, positionRead: nat, unread: Bytes, more: Bytes)
    requires buffers != [] && Registered(received, buffers) && Ahead(received, buffers, positionRead, unread)
    ensures Ahead(Filled(received, buffers, more), buffers, positionRead, unread + more)
  {
    JoinedFill(received, buffers, more);
  }

  lemma FilledLayout(
    received: Received, buffers: seq<array<byte>>, size: nat, positionRead: nat, positionWrite: nat, more: Bytes)
    requires Layout(received, buffers, size, positionRead, positionWrite) && positionWrite + |more| < size
    ensures Layout(Filled(received, buffers, more), buffers, size, positionRead, positionWrite + |more|)
  {
  }

  lemma AddedLayout(
    received: Received, buffers: seq<array<byte>>, size: nat, positionRead: nat, positionWrite: nat, more: Bytes,
    region: array<byte>)
    requires Layout(received, buffers, size, positionRead, positionWrite) && positionWrite + |more| == size
    requires region !in received
    ensures Layout(Filled(received, buffers, more)[region := []], buffers + [region], size, positionRead, 0)
  {
  }

  lemma AddedAhead(received: Received, buffers: seq<array<byte>>, positionRead: nat, unread: Bytes, region: array<byte>)
    requires Registered(received, buffers) && Ahead(received, buffers, positionRead, unread) && region !in received
    ensures Registered(received[region := []], buffers + [region])
    ensures Ahead(received[region := []], buffers + [region], positionRead, unread)
  {
    JoinedAdd(received, buffers, region);
  }

  /** Behind the read position is exactly the part of the stream that was received and not consumed. */
  ghost predicate ReaderFits(
    received: Received, buffers: seq<array<byte>>, size: nat, positionRead: nat, positionWrite: nat, stream: Bytes,
    consumed: nat, position: nat)
  {
    && Layout(received, buffers, size, positionRead, positionWrite)
    && consumed <= position <= |stream|
    && Ahead(received, buffers, positionRead, stream[consumed..position])
  }

  lemma FillKeeps(
    received: Received, buffers: seq<array<byte>>, size: nat, positionRead: nat, positionWrite: nat, stream: Bytes,
    consumed: nat, n: nat, m: nat)
    requires ReaderFits(received, buffers, size, positionRead, positionWrite, stream, consumed, n)
    requires n <= m <= |stream| && positionWrite + (m - n) < size
    ensures ReaderFits(
      Filled(received, buffers, stream[n..m]),
      buffers, size, positionRead, positionWrite + (m - n), stream, consumed, m)
  {
    var more := stream[n..m];
    FilledAhead(received, buffers, positionRead, stream[consumed..n], more);
    assert stream[consumed..n] + more == stream[consumed..m];
    FilledLayout(received, buffers, size, positionRead, positionWrite, more);
  }

  lemma FillAddKeeps(
    received: Received, buffers: seq<array<byte>>, size: nat, positionRead: nat, positionWrite: nat, stream: Bytes,
    consumed: nat, n: nat, m: nat, region: array<byte>)
    requires ReaderFits(received, buffers, size, positionRead, positionWrite, stream, consumed, n)
    requires n <= m <= |stream| && positionWrite + (m - n) == size && region !in received
    ensures ReaderFits(
      Filled(received, buffers, stream[n..m])[region := []],
      buffers + [region], size, positionRead, 0, stream, consumed, m)
  {
    var more := stream[n..m];
    FilledAhead(received, buffers, positionRead, stream[consumed..n], more);
    assert stream[consumed..n] + more == stream[consumed..m];
    AddedAhead(Filled(received, buffers, more), buffers, positionRead, stream[consumed..m], region);
    AddedLayout(received, buffers, size, positionRead, positionWrite, more, region);
  }

  lemma FilledGrows(received: Received, buffers: seq<array<byte>>, more: Bytes)
    requires buffers != [] && Registered(received, buffers)
    ensures Grown(received, Filled(received, buffers, more))
  {
  }

  /** The first bytes of the first buffer are the next bytes of the stream. */
  lemma TakeKeeps(
    received: Received, buffers: seq<array<byte>>, size: nat, positionRead: nat, positionWrite: nat, stream: Bytes,
    consumed: nat, position: nat, n: nat)
    requires ReaderFits(received, buffers, size, positionRead, positionWrite, stream, consumed, position)
    requires positionRead + n <= |received[buffers[0]]|
    ensures ReaderFits(received, buffers, size, positionRead + n, positionWrite, stream, consumed + n, position)
    ensures received[buffers[0]][positionRead..positionRead + n] == stream[consumed..consumed + n]
  {
    var first := received[buffers[0]];
    var all := Joined(Chunks(received, buffers));
    assert first == all[..|first|];
    var ahead := stream[consumed..position];
    assert ahead == all[positionRead..];
    assert all[positionRead + n..] == ahead[n..] == stream[consumed + n..position];
    assert first[positionRead..positionRead + n] == ahead[..n] == stream[consumed..consumed + n];
  }

  lemma PopKeeps(
    received: Received, buffers: seq<array<byte>>, size: nat, positionWrite: nat, stream: Bytes, consumed: nat,
    position: nat)
    requires ReaderFits(received, buffers, size, size, positionWrite, stream, consumed, position)
    ensures |buffers| > 1 && ReaderFits(received, buffers[1..], size, 0, positionWrite, stream, consumed, position)
  {
    assert Joined(Chunks(received, buffers))[size..] == Joined(Chunks(received, buffers[1..]));
  }

  /** How much can be consumed, as canConsume counts it. */
  lemma UnreadSize(
    received: Received, buffers: seq<array<byte>>, size: nat, positionRead: nat, positionWrite: nat, stream: Bytes,
    consumed: nat, position: nat)
    requires ReaderFits(received, buffers, size, positionRead, positionWrite, stream, consumed, position)
    ensures position - consumed == |buffers| * size - positionRead - (size - positionWrite)
  {
    JoinedSize(Chunks(received, buffers), size);
    var n := |buffers| - 1;
    assert (n + 1) * size == n * size + size;
  }

  /** What is asked of the first buffer is there: it is full, or it is the only one. */
  lemma FirstHolds(
    received: Received, buffers: seq<array<byte>>, size: nat, positionRead: nat, positionWrite: nat, stream: Bytes,
    consumed: nat, position: nat, n: nat)
    requires ReaderFits(received, buffers, size, positionRead, positionWrite, stream, consumed, position)
    requires n <= position - consumed && positionRead + n <= size
    ensures positionRead + n <= |received[buffers[0]]|
  {
    if |received[buffers[0]]| < size {
      var chunks := Chunks(received, buffers);
      assert |buffers| == 1 && chunks[1..] == [];
      assert Joined(chunks) == chunks[0] + [];
    }
  }

  lemma MoveKeeps(
    received: Received, buffers: seq<array<byte>>, size: nat, positionRead: nat, positionWrite: nat, stream: Bytes,
    consumed: nat, position: nat, n: nat)
    requires ReaderFits(received, buffers, size, positionRead, positionWrite, stream, consumed, position)
    requires n <= position - consumed && positionRead + n <= size
    ensures positionRead + n <= |received[buffers[0]]|
    ensures ReaderFits(received, buffers, size, positionRead + n, positionWrite, stream, consumed + n, position)
    ensures received[buffers[0]][positionRead..positionRead + n] == stream[consumed..consumed + n]
  {
    FirstHolds(received, buffers, size, positionRead, positionWrite, stream, consumed, position, n);
    TakeKeeps(received, buffers, size, positionRead, positionWrite, stream, consumed, position, n);
  }

  lemma SlicesJoin(stream: Bytes, a: nat, b: nat, c: nat)
    requires a <= b <= c <= |stream|
    ensures stream[a..b] + stream[b..c] == stream[a..c]
  {
  }

  /** All regions ever used hold what was received into them. */
  ghost predicate RegionsHold(received: Received, size: nat)
    reads received.Keys
  {
    forall r :: r in received ==> r.Length == size && |received[r]| <= size && r[..|received[r]|] == received[r]
  }

  /** What a caller sees through a pinned buffer is what was received. */
  lemma PinnedReads(received: Received, size: nat, p: Pinned)
    requires RegionsHold(received, size) && Holds(received, p)
    ensures p.View? ==> p.start + p.size <= p.region.Length
    ensures PinnedSize(p) == |Contents(received, p)|
    ensures forall i :: 0 <= i < PinnedSize(p) ==> PinnedAt(p, i) == Contents(received, p)[i]
  {
    if p.View? {
      var all := p.region[..|received[p.region]|];
      assert all == received[p.region];
      forall i | 0 <= i < p.size ensures PinnedAt(p, i) == Contents(received, p)[i] {
        assert p.region[p.start + i] == all[p.start + i];
      }
    }
  }

  lemma SuffixRemoved(received: Received, p: Pinned, n: nat)
    requires Holds(received, p) && n <= PinnedSize(p)
    ensures Holds(received, RemoveSuffix(p, n))
    ensures Contents(received, RemoveSuffix(p, n)) == Contents(received, p)[..PinnedSize(p) - n]
  {
    if p.View? {
      assert received[p.region][p.start..p.start + p.size][..p.size - n]
        == received[p.region][p.start..p.start + (p.size - n)];
    }
  }

  lemma RegionReads(received: Received, size: nat, region: array<byte>, a: nat, b: nat)
    requires RegionsHold(received, size) && region in received && a <= b <= |received[region]|
    ensures b <= region.Length && region[a..b] == received[region][a..b]
  {
    var all := region[..|received[region]|];
    assert all == received[region];
    assert |all| <= region.Length;
    assert forall i {:trigger all[i]} :: a <= i < b ==> all[i] == region[i];
    assert region[a..b] == all[a..b];
  }

  class Reader {
    const link: Link
    const bufferSize: nat
    var buffers: seq<array<byte>>
    var positionRead: nat
    var positionWrite: nat
    ghost var received: Received
    ghost var consumed: nat

    ghost predicate Fits()
      reads this, link
    {
      ReaderFits(received, buffers, bufferSize, positionRead, positionWrite, link.stream, consumed, link.position)
    }

    ghost predicate Valid()
      reads this, link, received.Keys
    {
      RegionsHold(received, bufferSize) && Fits()
    }

    constructor (l: Link, size: nat)
      requires l.position == 0 && size > 0
      ensures Valid() && link == l && consumed == 0 && fresh(received.Keys)
    {
      link, bufferSize := l, size;
      positionRead, positionWrite, consumed := 0, 0, 0;
      var region := new byte[size];
      buffers, received := [region], map[region := []];
    }

    /** One read into the last buffer. */
    method Fill() returns (rlen: int)
      requires RegionsHold(received, bufferSize) && Layout(received, buffers, bufferSize, positionRead, positionWrite)
      requires link.position <= |link.stream|
      modifies `received, link, received.Keys
      ensures RegionsHold(received, bufferSize) && received.Keys == old(received.Keys)
      ensures -1 <= rlen <= bufferSize - positionWrite
      ensures link.position == old(link.position) + (if rlen < 0 then 0 else rlen) <= |link.stream|
      ensures received == Filled(old(received), buffers, link.stream[old(link.position)..link.position])
    {
      var last := buffers[|buffers| - 1];
      rlen := link.Recv(last, positionWrite, bufferSize - positionWrite);
      received := received[last := received[last] + link.stream[old(link.position)..link.position]];
    }

    /** The link had fewer bytes than there was room for. */
    method Advance(rlen: nat, ghost r: Received, ghost n: nat)
      requires ReaderFits(r, buffers, bufferSize, positionRead, positionWrite, link.stream, consumed, n)
      requires n + rlen == link.position <= |link.stream| && positionWrite + rlen < bufferSize
      requires received == Filled(r, buffers, link.stream[n..link.position]) && RegionsHold(received, bufferSize)
      modifies `positionWrite
      ensures Valid()
    {
      FillKeeps(r, buffers, bufferSize, positionRead, positionWrite, link.stream, consumed, n, link.position);
      positionWrite := positionWrite + rlen;
    }

    /** The last buffer is full: take a new one. */
    method Extend(ghost r: Received, ghost n: nat)
      requires ReaderFits(r, buffers, bufferSize, positionRead, positionWrite, link.stream, consumed, n)
      requires n <= link.position <= |link.stream| && positionWrite + (link.position - n) == bufferSize
      requires received == Filled(r, buffers, link.stream[n..link.position]) && RegionsHold(received, bufferSize)
      modifies `buffers, `received, `positionWrite
      ensures Valid() && Grown(old(received), received)
      ensures forall r :: r in received && r !in old(received) ==> fresh(r)
    {
      var region := new byte[bufferSize];
      FillAddKeeps(r, buffers, bufferSize, positionRead, positionWrite, link.stream, consumed, n, link.position,
        region);
      buffers := buffers + [region];
      received := received[region := []];
      positionWrite := 0;
    }

    /** The body of the loop in readFromLink: `more` says that the link may have further bytes. */
    method Receive() returns (rlen: int, more: bool)
      requires Valid()
      modifies `buffers, `received, `positionWrite, link, received.Keys
      ensures Valid() && Grown(old(received), received)
      ensures forall r :: r in received && r !in old(received) ==> fresh(r)
      ensures link.position == old(link.position) + if rlen < 0 then 0 else rlen
      ensures more ==> rlen > 0
    {
      ghost var r, n := received, link.position;
      rlen := Fill();
      FilledGrows(r, buffers, link.stream[n..link.position]);
      ghost var filled := received;
      more := rlen == bufferSize - positionWrite;
      if more {
        Extend(r, n);
        GrownTwice(r, filled, received);
      } else {
        Advance(if rlen < 0 then 0 else rlen, r, n);
      }
    }
  
    /** readFromLink (src/BufferedReader.cc:43-66): until the link has nothing more, or enough was read. */
    method ReadFromLink(limit: nat) returns (total: int)
      requires Valid()
      modifies `buffers, `received, `positionWrite, link, received.Keys
      ensures Valid() && Grown(old(received), received)
      ensures forall r :: r in received && r !in old(received) ==> fresh(r)
      ensures link.position >= old(link.position)
      ensures total >= 0 ==> link.position == old(link.position) + total
    {
      total := 0;
      while true
        invariant Valid() && Grown(old(received), received)
        invariant forall r :: r in received && r !in old(received) ==> fresh(r)
        invariant total >= 0 && link.position == old(link.position) + total
        decreases |link.stream| - link.position
      {
        ghost var before := received;
        var rlen, more := Receive();
        GrownTwice(old(received), before, received);
        if rlen < 0 {
          return rlen;
        }
        total := total + rlen;
        if !more || total > limit {
          return total;
        }
      }
    }

    /** canConsume (src/BufferedReader.cc:68-84): how much can be consumed if that is enough, else 0, or an error. */
    method CanConsume(len: nat) returns (status: int)
      requires Valid()
      modifies `buffers, `received, `positionWrite, link, received.Keys
      ensures Valid() && Grown(old(received), received)
      ensures forall r :: r in received && r !in old(received) ==> fresh(r)
      ensures status >= 0 ==> status == if link.position - consumed >= len then link.position - consumed else 0
    {
      UnreadSize(received, buffers, bufferSize, positionRead, positionWrite, link.stream, consumed, link.position);
      var available := |buffers| * bufferSize - positionRead - (bufferSize - positionWrite);
      if available >= len {
        return available;
      }
      var rlink := ReadFromLink(len - available);
      if rlink < 0 {
        return rlink;
      }
      available := available + rlink;
      return if available >= len then available else 0;
    }

    /** Move the read position over bytes of the first buffer. */
    method Move(n: nat)
      requires Valid() && n <= link.position - consumed && positionRead + n <= bufferSize
      modifies `positionRead, `consumed
      ensures Valid() && consumed == old(consumed) + n
      ensures positionRead == old(positionRead) + n <= |received[buffers[0]]|
      ensures received[buffers[0]][old(positionRead)..old(positionRead) + n]
        == link.stream[old(consumed)..old(consumed) + n]
    {
      MoveKeeps(received, buffers, bufferSize, positionRead, positionWrite, link.stream, consumed, link.position, n);
      positionRead, consumed := positionRead + n, consumed + n;
    }

    /** One round of consumeInternal: as much as the first buffer has, which is given up when it is used up. */
    method Take(n: nat) returns (bytes: Bytes)
      requires Valid() && n <= link.position - consumed && positionRead + n <= bufferSize
      modifies `positionRead, `buffers, `consumed
      ensures Valid() && consumed == old(consumed) + n
      ensures bytes == link.stream[old(consumed)..consumed]
      ensures positionRead < bufferSize
    {
      Move(n);
      RegionReads(received, bufferSize, buffers[0], positionRead - n, positionRead);
      bytes := buffers[0][positionRead - n..positionRead];
      if positionRead >= bufferSize {
        PopBuffer();
      }
    }

    method PopBuffer()
      requires Valid() && positionRead == bufferSize
      modifies `positionRead, `buffers
      ensures Valid() && positionRead == 0
    {
      PopKeeps(received, buffers, bufferSize, positionWrite, link.stream, consumed, link.position);
      buffers := buffers[1..];
      positionRead := 0;
    }

    /** consumeInternal (src/BufferedReader.cc:86-112). */
    method ConsumeInternal(len: nat) returns (bytes: Bytes)
      requires Valid() && len <= link.position - consumed
      modifies `positionRead, `buffers, `consumed
      ensures Valid() && consumed == old(consumed) + len && bytes == link.stream[old(consumed)..consumed]
    {
      bytes := [];
      var remaining := len;
      while remaining > 0
        invariant Valid() && 0 <= remaining <= len && consumed == old(consumed) + (len - remaining)
        invariant consumed + remaining <= link.position && bytes == link.stream[old(consumed)..consumed]
        decreases remaining, positionRead
      {
        var available := bufferSize - positionRead;
        if available >= remaining {
          available := remaining;
        }
        remaining := remaining - available;
        ghost var was := consumed;
        var part := Take(available);
        SlicesJoin(link.stream, old(consumed), was, consumed);
        bytes := bytes + part;
      }
    }

    /** consume into a string (src/BufferedReader.cc:114-119): all or nothing. */
    method Consume(len: nat) returns (status: int, bytes: Bytes)
      requires Valid() && len > 0
      modifies this, link, received.Keys
      ensures Valid() && Grown(old(received), received)
      ensures forall r :: r in received && r !in old(received) ==> fresh(r)
      ensures status > 0 ==> consumed == old(consumed) + len && bytes == link.stream[old(consumed)..consumed]
      ensures status <= 0 ==> consumed == old(consumed)
      ensures status == 0 ==> link.position - consumed < len
    {
      status := CanConsume(len);
      bytes := [];
      if status <= 0 {
        return;
      }
      bytes := ConsumeInternal(len);
      status := len;
    }

    /**
     * consume into a pinned buffer (src/BufferedReader.cc:121-138): a view if the bytes lie in one region,
     * else a copy.
     */
    method ConsumePinned(len: nat) returns (status: int, buf: Pinned)
      requires Valid() && len > 0
      modifies this, link, received.Keys
      ensures Valid() && Grown(old(received), received)
      ensures forall r :: r in received && r !in old(received) ==> fresh(r)
      ensures status > 0 ==>
        && consumed == old(consumed) + len && Holds(received, buf)
        && Contents(received, buf) == link.stream[old(consumed)..consumed]
      ensures status <= 0 ==> consumed == old(consumed)
      ensures status == 0 ==> link.position - consumed < len
    {
      status := CanConsume(len);
      buf := Owned([]);
      if status <= 0 {
        return;
      }
      status := len;
      if bufferSize - positionRead >= len {
        buf := TakeView(len);
      } else {
        var bytes := ConsumeInternal(len);
        buf := Owned(bytes);
      }
    }

    /** The fast path: point into the first buffer, which stays in use even if it is used up. */
    method TakeView(len: nat) returns (buf: Pinned)
      requires Valid() && len <= link.position - consumed && positionRead + len <= bufferSize
      modifies `positionRead, `consumed
      ensures Valid() && consumed == old(consumed) + len
      ensures Holds(received, buf) && Contents(received, buf) == link.stream[old(consumed)..consumed]
    {
      buf := View(buffers[0], positionRead, len);
      Move(len);
    }
  }

  ghost predicate HoldsAll(received: Received, ps: seq<Pinned>)
  {
    forall i :: 0 <= i < |ps| ==> Holds(received, ps[i])
  }

  ghost function AllContents(received: Received, ps: seq<Pinned>): (c: Request)
    requires HoldsAll(received, ps)
    ensures |c| == |ps| && forall i :: 0 <= i < |ps| ==> c[i] == Contents(received, ps[i])
  {
    if ps == [] then [] else AllContents(received, ps[..|ps| - 1]) + [Contents(received, ps[|ps| - 1])]
  }

  /** Elements that were parsed earlier keep their contents while later ones are read. */
  lemma AllStay(before: Received, after: Received, ps: seq<Pinned>)
    requires Grown(before, after) && HoldsAll(before, ps)
    ensures HoldsAll(after, ps) && AllContents(after, ps) == AllContents(before, ps)
  {
    forall i | 0 <= i < |ps| ensures Holds(after, ps[i]) && Contents(after, ps[i]) == Contents(before, ps[i]) {
      PinnedStays(before, after, ps[i]);
    }
  }
}
