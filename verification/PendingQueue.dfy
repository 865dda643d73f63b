/**
 * The queue of one connection (PendingQueue, src/Connection.cc): requests that arrive behind
 * a write wait until the journal has committed it, so that responses leave in request order.
 * The queue as a value, its operations, and what they keep; the class is in WriteTracker.
 */
module PendingQueue {
  import opened Bytes

  /** A transaction, as far as queues care. */
  datatype Tx = Tx(body: Bytes, writes: bool)

  /** An element of the queue: a response that is ready, or a request; writes carry their journal index. */
  datatype Ask = Ready(response: Bytes) | Request(tx: Tx, index: int)

  /** A response, tagged by how it came about: `at` journal entries had been applied when it was executed. */
  datatype Response = Verbatim(bytes: Bytes) | Executed(tx: Tx, at: int) | Refused(tx: Tx, reason: Bytes)

  /** `sent` is what the connection has received, `asked` all that ever entered the queue. */
  datatype Queue = Queue(attached: bool, pending: seq<Ask>, lastIndex: int, sent: seq<Response>, asked: seq<Ask>)

  const FRESH: Queue := Queue(true, [], -1, [], [])

  predicate IsWrite(a: Ask)
  {
    a.Request? && a.index > 0
  }

  function Reply(a: Ask, at: int): Response
  {
    match a
    case Ready(bytes) => Verbatim(bytes)
    case Request(tx, _) => Executed(tx, at)
  }

  function Refusal(a: Ask, reason: Bytes): Response
  {
    match a
    case Ready(bytes) => Verbatim(bytes)
    case Request(tx, _) => Refused(tx, reason)
  }

  // ---------------------------------------------------------------- operations

  function Detach(q: Queue): Queue
  {
    q.(attached := false)
  }

  /** appendResponse (src/Connection.cc:101-116). */
  function AppendReady(q: Queue, bytes: Bytes): Queue
    requires q.attached
  {
    if q.pending == [] then q.(sent := q.sent + [Verbatim(bytes)], asked := q.asked + [Ready(bytes)])
    else q.(pending := q.pending + [Ready(bytes)], asked := q.asked + [Ready(bytes)])
  }

  /** addPendingTransaction (src/Connection.cc:118-144); `at` is what the state machine has applied. */
  function AddRequest(q: Queue, tx: Tx, index: int, at: int): Queue
    requires q.attached
  {
    var asked := q.asked + [Request(tx, index)];
    if q.pending == [] && index < 0 then q.(sent := q.sent + [Executed(tx, at)], asked := asked)
    else
      var last := if index > 0 then index else q.lastIndex;
      q.(pending := q.pending + [Request(tx, index)], lastIndex := last, asked := asked)
  }

  /** Take the first element off, answering it if anyone listens. */
  function Pop(q: Queue, r: Response): Queue
    requires q.pending != []
  {
    q.(pending := q.pending[1..], sent := if q.attached then q.sent + [r] else q.sent)
  }

  /** Answer everything in front of the first write. */
  function Drain(q: Queue, at: int): Queue
    decreases |q.pending|
  {
    if q.pending == [] || IsWrite(q.pending[0]) then q else Drain(Pop(q, Reply(q.pending[0], at)), at)
  }

  /** dispatchPending when the write in front is the one that was committed. */
  function Dispatched(q: Queue, index: int): Queue
    requires q.pending != []
  {
    Drain(Pop(q, Reply(q.pending[0], index)), index)
  }

  /** flushPending (src/Connection.cc:31-47): refuse every request, hand out what is ready. */
  function Flushed(q: Queue, reason: Bytes): Queue
    decreases |q.pending|
  {
    if q.pending == [] then q.(lastIndex := -1) else Flushed(Pop(q, Refusal(q.pending[0], reason)), reason)
  }

  /** The journal index the queue waits for, or -1. */
  function Blocking(q: Queue): int
  {
    if q.pending != [] && IsWrite(q.pending[0]) then q.pending[0].index else -1
  }

  // ---------------------------------------------------------------- what a queue looks like

  /** Writes wait for entries that are in the journal but not applied, in journal order. */
  ghost predicate WritesOrdered(pending: seq<Ask>, applied: int, logged: int)
  {
    && (forall i {:trigger IsWrite(pending[i])} :: 0 <= i < |pending| && IsWrite(pending[i]) ==>
      applied < pending[i].index <= logged)
    && (forall i, j {:trigger IsWrite(pending[i]), IsWrite(pending[j])} ::
          0 <= i < j < |pending| && IsWrite(pending[i]) && IsWrite(pending[j]) ==> pending[i].index < pending[j].index)
  }

  /** The last index recorded belongs to a write that is still pending or to an entry that is applied. */
  ghost predicate LastIndexRight(q: Queue, applied: int, logged: int)
  {
    && q.lastIndex <= logged
    && (q.lastIndex <= applied
      || exists i {:trigger IsWrite(q.pending[i])} ::
           0 <= i < |q.pending| && IsWrite(q.pending[i]) && q.pending[i].index == q.lastIndex)
  }

  /** The response answers the element: ready ones verbatim, requests executed or refused. */
  predicate Answers(r: Response, a: Ask)
  {
    match a
    case Ready(bytes) => r == Verbatim(bytes)
    case Request(tx, index) =>
      (r.Executed? && r.tx == tx && (index > 0 ==> r.at == index)) || (r.Refused? && r.tx == tx)
  }

  /** What was sent answers what was asked, one for one and in order; what is pending is the rest. */
  ghost predicate InOrder(q: Queue)
  {
    && |q.sent| + |q.pending| <= |q.asked|
    && (q.attached ==> |q.sent| + |q.pending| == |q.asked|)
    && q.pending == q.asked[|q.asked| - |q.pending|..]
    && (forall i {:trigger Answers(q.sent[i], q.asked[i])} :: 0 <= i < |q.sent| ==> Answers(q.sent[i], q.asked[i]))
  }

  /** A session never reads an older state after a newer one, nor one from the future. */
  ghost predicate Monotone(q: Queue, applied: int)
  {
    && (forall i {:trigger q.sent[i].at} :: 0 <= i < |q.sent| && q.sent[i].Executed? ==> q.sent[i].at <= applied)
    && (forall i, j {:trigger q.sent[i].at, q.sent[j].at} ::
          0 <= i < j < |q.sent| && q.sent[i].Executed? && q.sent[j].Executed? ==> q.sent[i].at <= q.sent[j].at)
  }

  ghost predicate Running(q: Queue, applied: int, logged: int)
  {
    WritesOrdered(q.pending, applied, logged) && LastIndexRight(q, applied, logged) && InOrder(q)
      && Monotone(q, applied)
  }

  /** Between operations, a queue that is not empty waits for a write. */
  ghost predicate Sound(q: Queue, applied: int, logged: int)
  {
    Running(q, applied, logged) && (q.pending != [] ==> IsWrite(q.pending[0]))
  }

  ghost predicate Kinds(q: Queue)
  {
    forall i :: 0 <= i < |q.asked| && q.asked[i].Request? ==> (q.asked[i].tx.writes <==> q.asked[i].index > 0)
  }

  ghost predicate Fits(q: Queue, applied: int, logged: int)
  {
    Sound(q, applied, logged) && Kinds(q)
  }

  // ---------------------------------------------------------------- operations keep it so

  lemma AppendReadySound(q: Queue, bytes: Bytes, applied: int, logged: int)
    requires q.attached && Sound(q, applied, logged)
    ensures Sound(AppendReady(q, bytes), applied, logged)
  {
    KeepLastIndex(q, AppendReady(q, bytes), applied, logged);
  }

  lemma AddReadSound(q: Queue, tx: Tx, applied: int, logged: int)
    requires q.attached && Sound(q, applied, logged)
    ensures Sound(AddRequest(q, tx, -1, applied), applied, logged)
  {
    KeepLastIndex(q, AddRequest(q, tx, -1, applied), applied, logged);
  }

  lemma KeepLastIndex(q: Queue, r: Queue, applied: int, logged: int)
    requires LastIndexRight(q, applied, logged) && r.lastIndex == q.lastIndex && q.pending <= r.pending
    ensures LastIndexRight(r, applied, logged)
  {
    if q.lastIndex > applied {
      var i :| 0 <= i < |q.pending| && IsWrite(q.pending[i]) && q.pending[i].index == q.lastIndex;
      assert r.pending[i] == q.pending[i];
    }
  }

  lemma PushOrdered(pending: seq<Ask>, tx: Tx, applied: int, logged: int)
    requires WritesOrdered(pending, applied, logged) && 0 <= applied <= logged
    ensures WritesOrdered(pending + [Request(tx, logged + 1)], applied, logged + 1)
  {
    var longer := pending + [Request(tx, logged + 1)];
    forall i | 0 <= i < |pending| && IsWrite(longer[i]) ensures applied < longer[i].index <= logged {
      assert IsWrite(pending[i]);
    }
    forall i, j | 0 <= i < j < |pending| && IsWrite(longer[i]) && IsWrite(longer[j])
      ensures longer[i].index < longer[j].index
    {
      assert IsWrite(pending[i]) && IsWrite(pending[j]);
    }
  }

  lemma PushInOrder(q: Queue, r: Queue, a: Ask)
    requires InOrder(q) && r.sent == q.sent && r.attached == q.attached
    requires r.pending == q.pending + [a] && r.asked == q.asked + [a]
    ensures InOrder(r)
  {
    forall i | 0 <= i < |r.sent| ensures Answers(r.sent[i], r.asked[i]) {
      assert Answers(q.sent[i], q.asked[i]);
    }
  }

  /** A write goes to the end of the journal, so it passes the check against the last index. */
  lemma AddWriteSound(q: Queue, tx: Tx, applied: int, logged: int)
    requires q.attached && Sound(q, applied, logged) && 0 <= applied <= logged
    ensures q.lastIndex < logged + 1
    ensures Sound(AddRequest(q, tx, logged + 1, applied), applied, logged + 1)
  {
    var r := AddRequest(q, tx, logged + 1, applied);
    PushOrdered(q.pending, tx, applied, logged);
    PushInOrder(q, r, Request(tx, logged + 1));
    assert LastIndexRight(r, applied, logged + 1) by {
      assert IsWrite(r.pending[|q.pending|]) && r.pending[|q.pending|].index == r.lastIndex;
    }
    assert Monotone(r, applied);
  }

  lemma PopOrdered(pending: seq<Ask>, a: int, b: int, logged: int)
    requires pending != [] && WritesOrdered(pending, a, logged)
    requires if IsWrite(pending[0]) then pending[0].index == b else b == a
    ensures WritesOrdered(pending[1..], b, logged)
  {
  }

  lemma PopLastIndex(q: Queue, r: Response, a: int, b: int, logged: int)
    requires q.pending != [] && LastIndexRight(q, a, logged) && a <= b
    requires if IsWrite(q.pending[0]) then q.pending[0].index == b else b == a
    ensures LastIndexRight(Pop(q, r), b, logged)
  {
    if q.lastIndex > b {
      var i :| 0 <= i < |q.pending| && IsWrite(q.pending[i]) && q.pending[i].index == q.lastIndex;
      assert Pop(q, r).pending[i - 1] == q.pending[i];
    }
  }

  lemma PopInOrder(q: Queue, r: Response)
    requires q.pending != [] && InOrder(q) && Answers(r, q.pending[0])
    ensures InOrder(Pop(q, r))
  {
    var p := Pop(q, r);
    assert p.pending == q.asked[|q.asked| - |p.pending|..];
    if q.attached {
      assert q.asked[|q.sent|] == q.pending[0];
    }
  }

  lemma PopMonotone(q: Queue, r: Response, a: int, b: int)
    requires q.pending != [] && Monotone(q, a) && a <= b && (r.Executed? ==> r.at == b)
    ensures Monotone(Pop(q, r), b)
  {
  }

  /** Popping the front element, a write just applied or anything that does not wait. */
  lemma PopRunning(q: Queue, r: Response, a: int, b: int, logged: int)
    requires Running(q, a, logged) && q.pending != [] && a <= b
    requires if IsWrite(q.pending[0]) then q.pending[0].index == b else b == a
    requires Answers(r, q.pending[0]) && (r.Executed? ==> r.at == b)
    ensures Running(Pop(q, r), b, logged)
  {
    PopOrdered(q.pending, a, b, logged);
    PopLastIndex(q, r, a, b, logged);
    PopInOrder(q, r);
    PopMonotone(q, r, a, b);
  }

  lemma {:induction false} DrainSound(q: Queue, applied: int, logged: int)
    requires Running(q, applied, logged)
    ensures Sound(Drain(q, applied), applied, logged)
    decreases |q.pending|
  {
    if q.pending != [] && !IsWrite(q.pending[0]) {
      var r := Reply(q.pending[0], applied);
      PopRunning(q, r, applied, applied, logged);
      DrainSound(Pop(q, r), applied, logged);
    }
  }

  /** Applying the entry that a queue waits for leaves the queue sound, waiting for its next write or empty. */
  lemma DispatchedSound(q: Queue, applied: int, logged: int)
    requires 0 <= applied && Sound(q, applied, logged) && Blocking(q) == applied + 1
    ensures Sound(Dispatched(q, applied + 1), applied + 1, logged)
    ensures Blocking(Dispatched(q, applied + 1)) == -1 || Blocking(Dispatched(q, applied + 1)) > applied + 1
  {
    var r := Reply(q.pending[0], applied + 1);
    PopRunning(q, r, applied, applied + 1, logged);
    DrainSound(Pop(q, r), applied + 1, logged);
  }

  lemma {:induction false} FlushedSound(q: Queue, reason: Bytes, applied: int, logged: int)
    requires InOrder(q) && Monotone(q, applied) && 0 <= applied <= logged
    ensures Sound(Flushed(q, reason), applied, logged)
    ensures Flushed(q, reason).pending == []
    decreases |q.pending|
  {
    if q.pending != [] {
      var r := Refusal(q.pending[0], reason);
      PopInOrder(q, r);
      PopMonotone(q, r, applied, applied);
      FlushedSound(Pop(q, r), reason, applied, logged);
    }
  }

  /**
   * Entries applied elsewhere, and entries added to the journal, do not disturb a queue that does not wait
   * for them.
   */
  lemma OthersSound(q: Queue, applied: int, logged: int, applied1: int, logged1: int)
    requires Sound(q, applied, logged) && applied <= applied1 && logged <= logged1
    requires forall i :: 0 <= i < |q.pending| && IsWrite(q.pending[i]) ==> applied1 < q.pending[i].index
    ensures Sound(q, applied1, logged1)
  {
  }

  /** An idle queue stays sound even if entries beyond the applied ones are removed from the journal. */
  lemma IdleSound(q: Queue, applied: int, logged: int, logged1: int)
    requires Sound(q, applied, logged) && q.pending == [] && applied <= logged1
    ensures Sound(q, applied, logged1)
  {
  }

  /** Read your writes: what is executed after a write of the same connection sees that write. */
  lemma ReadYourWrites(q: Queue, applied: int, logged: int, i: nat, j: nat)
    requires Sound(q, applied, logged) && i < j < |q.sent|
    requires IsWrite(q.asked[i]) && q.sent[i].Executed? && q.sent[j].Executed?
    ensures q.asked[i].index <= q.sent[j].at
  {
    assert Answers(q.sent[i], q.asked[i]);
  }

  // ---------------------------------------------------------------- which writes wait where

  ghost predicate Waits(q: Queue, index: int, tx: Tx)
  {
    exists i :: 0 <= i < |q.pending| && q.pending[i] == Request(tx, index)
  }

  /** Dispatching takes the front write away and no other; refused and drained elements are never writes. */
  lemma {:induction false} DrainKeepsWrites(q: Queue, at: int, index: int, tx: Tx)
    requires index > 0
    ensures Waits(Drain(q, at), index, tx) <==> Waits(q, index, tx)
    decreases |q.pending|
  {
    if q.pending != [] && !IsWrite(q.pending[0]) {
      var p := Pop(q, Reply(q.pending[0], at));
      DrainKeepsWrites(p, at, index, tx);
      PopWaits(q, Reply(q.pending[0], at), index, tx);
    }
  }

  lemma PopWaits(q: Queue, r: Response, index: int, tx: Tx)
    requires q.pending != []
    ensures Waits(q, index, tx) <==> q.pending[0] == Request(tx, index) || Waits(Pop(q, r), index, tx)
  {
    var p := Pop(q, r);
    if Waits(q, index, tx) && q.pending[0] != Request(tx, index) {
      var i :| 0 <= i < |q.pending| && q.pending[i] == Request(tx, index);
      assert p.pending[i - 1] == Request(tx, index);
    }
    if Waits(p, index, tx) {
      var i :| 0 <= i < |p.pending| && p.pending[i] == Request(tx, index);
      assert q.pending[i + 1] == Request(tx, index);
    }
  }

  lemma DispatchedWaits(q: Queue, applied: int, logged: int, index: int, tx: Tx)
    requires 0 <= applied && Sound(q, applied, logged) && Blocking(q) == applied + 1 && index > 0
    ensures Waits(Dispatched(q, applied + 1), index, tx) <==> Waits(q, index, tx) && index != applied + 1
  {
    var r := Reply(q.pending[0], applied + 1);
    PopWaits(q, r, index, tx);
    assert index == applied + 1 && Waits(Pop(q, r), index, tx) ==>
      exists i :: 0 <= i < |q.pending[1..]| && IsWrite(q.pending[1..][i]) && q.pending[1..][i].index == index;
    DrainKeepsWrites(Pop(q, r), applied + 1, index, tx);
    PopOrdered(q.pending, applied, applied + 1, logged);
  }

  // ---------------------------------------------------------------- what the responses say

  /** From `q` to `r`, requests were answered by execution at one point of the history, and only so. */
  ghost predicate ExecutedAt(q: Queue, r: Queue, at: int)
  {
    && r.asked == q.asked && r.attached == q.attached && q.sent <= r.sent && |r.sent| <= |r.asked|
    && forall i {:trigger r.sent[i]} :: |q.sent| <= i < |r.sent| ==>
      r.sent[i] == if r.asked[i].Ready? then Verbatim(r.asked[i].response) else Executed(r.asked[i].tx, at)
  }

  /** From `q` to `r`, requests were refused for this reason, and only so. */
  ghost predicate RefusedFor(q: Queue, r: Queue, reason: Bytes)
  {
    && r.asked == q.asked && r.attached == q.attached && q.sent <= r.sent && |r.sent| <= |r.asked|
    && forall i {:trigger r.sent[i]} :: |q.sent| <= i < |r.sent| ==>
      r.sent[i] == if r.asked[i].Ready? then Verbatim(r.asked[i].response) else Refused(r.asked[i].tx, reason)
  }

  /** What was taken off the queue is the front of it, and if anyone listens each has its response. */
  ghost predicate TookFront(q: Queue, r: Queue, n: nat)
  {
    && n <= |q.pending| && r.pending == q.pending[n..]
    && |r.sent| == |q.sent| + if q.attached then n else 0
  }

  lemma PopTakesFront(q: Queue, r: Queue, x: Response, n: nat)
    requires q.pending != [] && TookFront(Pop(q, x), r, n)
    ensures TookFront(q, r, n + 1)
  {
    assert q.pending[1..][n..] == q.pending[n + 1..];
  }

  lemma PopExecutes(q: Queue, r: Queue, x: Response, at: int)
    requires InOrder(q) && q.pending != [] && ExecutedAt(Pop(q, x), r, at)
    requires x == if q.pending[0].Ready? then Verbatim(q.pending[0].response) else Executed(q.pending[0].tx, at)
    ensures ExecutedAt(q, r, at)
  {
    assert q.attached ==> q.asked[|q.sent|] == q.pending[0] && r.sent[|q.sent|] == x;
  }

  lemma PopRefuses(q: Queue, r: Queue, x: Response, reason: Bytes)
    requires InOrder(q) && q.pending != [] && RefusedFor(Pop(q, x), r, reason)
    requires x == if q.pending[0].Ready? then Verbatim(q.pending[0].response) else Refused(q.pending[0].tx, reason)
    ensures RefusedFor(q, r, reason)
  {
    assert q.attached ==> q.asked[|q.sent|] == q.pending[0] && r.sent[|q.sent|] == x;
  }

  /** The elements before number `n` are not writes, and there the queue ends or a write comes. */
  predicate UpToWrite(pending: seq<Ask>, n: nat)
  {
    && n <= |pending| && (forall i {:trigger pending[i]} :: 0 <= i < n ==> !IsWrite(pending[i]))
    && (n == |pending| || IsWrite(pending[n]))
  }

  lemma OneMoreRead(pending: seq<Ask>, n: nat)
    requires pending != [] && !IsWrite(pending[0]) && UpToWrite(pending[1..], n)
    ensures UpToWrite(pending, n + 1)
  {
    forall i | 0 <= i < n + 1 ensures !IsWrite(pending[i]) {
      if i > 0 { assert pending[i] == pending[1..][i - 1]; }
    }
    assert n < |pending[1..]| ==> pending[n + 1] == pending[1..][n];
  }

  /**
   * Draining executes every read in front of the first write, each once, in order, on the state of the
   * moment, and hands out the ready responses among them as they are; it goes no further.
   */
  lemma {:induction false} DrainExecutes(q: Queue, at: int) returns (n: nat)
    requires InOrder(q)
    ensures InOrder(Drain(q, at)) && ExecutedAt(q, Drain(q, at), at) && TookFront(q, Drain(q, at), n)
    ensures UpToWrite(q.pending, n)
    decreases |q.pending|, 1
  {
    n := 0;
    if q.pending != [] && !IsWrite(q.pending[0]) {
      n := DrainMore(q, at);
    }
  }

  lemma {:induction false} DrainMore(q: Queue, at: int) returns (n: nat)
    requires InOrder(q) && q.pending != [] && !IsWrite(q.pending[0])
    ensures InOrder(Drain(q, at)) && ExecutedAt(q, Drain(q, at), at) && TookFront(q, Drain(q, at), n)
    ensures UpToWrite(q.pending, n)
    decreases |q.pending|, 0
  {
    var x := Reply(q.pending[0], at);
    PopInOrder(q, x);
    n := DrainExecutes(Pop(q, x), at);
    PopTakesFront(q, Drain(q, at), x, n);
    PopExecutes(q, Drain(q, at), x, at);
    OneMoreRead(q.pending, n);
    n := n + 1;
  }

  /**
   * When entry `index` is applied, the write in front and all reads up to the next write are executed, right
   * after that entry, and answered in order.
   */
  lemma DispatchedExecutes(q: Queue, index: int) returns (n: nat)
    requires InOrder(q) && Blocking(q) == index && index > 0
    ensures InOrder(Dispatched(q, index)) && ExecutedAt(q, Dispatched(q, index), index)
    ensures TookFront(q, Dispatched(q, index), n) && 1 <= n && UpToWrite(q.pending[1..], n - 1)
  {
    var x := Reply(q.pending[0], index);
    PopInOrder(q, x);
    n := DrainExecutes(Pop(q, x), index);
    PopTakesFront(q, Dispatched(q, index), x, n);
    PopExecutes(q, Dispatched(q, index), x, index);
    n := n + 1;
  }

  /**
   * The first `n` elements, a write and all up to the next one, have left the queue; if anyone listens, each
   * request among them was answered by its execution, in its turn.
   */
  ghost predicate FrontServed(q: Queue, r: Queue, n: nat, at: int)
  {
    && 1 <= n <= |q.pending| && r.pending == q.pending[n..] && UpToWrite(q.pending[1..], n - 1)
    && |r.sent| == |q.sent| + (if q.attached then n else 0)
    && (q.attached ==> forall i {:trigger q.pending[i]} :: 0 <= i < n && q.pending[i].Request? ==>
      r.sent[|q.sent| + i] == Executed(q.pending[i].tx, at))
  }

  lemma DispatchedServes(q: Queue, index: int) returns (n: nat)
    requires InOrder(q) && Blocking(q) == index && index > 0
    ensures FrontServed(q, Dispatched(q, index), n, index)
  {
    n := DispatchedExecutes(q, index);
    if q.attached { FrontAnswered(q, Dispatched(q, index), n, index); }
  }

  lemma FrontAnswered(q: Queue, r: Queue, n: nat, at: int)
    requires q.attached && InOrder(q) && ExecutedAt(q, r, at) && TookFront(q, r, n)
    ensures forall i {:trigger q.pending[i]} :: 0 <= i < n && q.pending[i].Request? ==>
      r.sent[|q.sent| + i] == Executed(q.pending[i].tx, at)
  {
    forall i | 0 <= i < n && q.pending[i].Request? ensures r.sent[|q.sent| + i] == Executed(q.pending[i].tx, at) {
      assert r.asked[|q.sent| + i] == q.pending[i];
    }
  }

  /** Flushing answers everything: requests by the reason given, ready responses as they are. */
  lemma {:induction false} FlushedRefuses(q: Queue, reason: Bytes)
    requires InOrder(q)
    ensures InOrder(Flushed(q, reason)) && RefusedFor(q, Flushed(q, reason), reason)
    ensures TookFront(q, Flushed(q, reason), |q.pending|) && Flushed(q, reason).lastIndex == -1
    decreases |q.pending|
  {
    if q.pending != [] {
      var x := Refusal(q.pending[0], reason);
      PopInOrder(q, x);
      FlushedRefuses(Pop(q, x), reason);
      PopTakesFront(q, Flushed(q, reason), x, |q.pending| - 1);
      PopRefuses(q, Flushed(q, reason), x, reason);
    }
  }

  /** A read is executed at once if nothing waits, and otherwise goes to the end of the queue. */
  lemma ReadAnswered(q: Queue, tx: Tx, at: int)
    requires q.attached
    ensures var r := AddRequest(q, tx, -1, at);
      && r.asked == q.asked + [Request(tx, -1)] && r.lastIndex == q.lastIndex
      && (q.pending == [] ==> r.sent == q.sent + [Executed(tx, at)] && r.pending == [])
      && (q.pending != [] ==> r.sent == q.sent && r.pending == q.pending + [Request(tx, -1)])
  {
  }

  /** A ready response leaves at once if nothing waits, and otherwise goes to the end of the queue. */
  lemma ReadySent(q: Queue, bytes: Bytes)
    requires q.attached
    ensures var r := AppendReady(q, bytes);
      && r.asked == q.asked + [Ready(bytes)] && r.lastIndex == q.lastIndex
      && (q.pending == [] ==> r.sent == q.sent + [Verbatim(bytes)] && r.pending == [])
      && (q.pending != [] ==> r.sent == q.sent && r.pending == q.pending + [Ready(bytes)])
  {
  }
}
