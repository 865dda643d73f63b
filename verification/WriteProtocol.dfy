/**
 * Many queues, one journal: the protocol between the connections, the journal and the commit
 * applier (src/raft/RaftWriteTracker.cc, src/raft/RaftBlockedWrites.cc) as a state machine on
 * values. One invariant, kept by every step; then what follows for all runs.
 *
 * Entry `index` of the journal is `journal[index - 1]`. Entries and clients' writes are added,
 * entries are replaced and queues are flushed under the `raftCommand` lock; applying and adding
 * are mutually excluded by the tracker's own lock. So each step below is atomic.
 */
module WriteProtocol {
  import opened Bytes
  import opened PendingQueue

  /** `tracker` says which connection waits for which entry; `applied` is what the state machine has executed. */
  datatype System<Conn> = System(
    queues: map<Conn, Queue>,
    tracker: map<int, Conn>,
    journal: seq<Tx>,
    commit: int,
    applied: seq<Tx>)

  datatype Event<Conn> =
    | Connect(c: Conn)
    | Disconnect(c: Conn)
    | Respond(c: Conn, bytes: Bytes)             // answered without the state machine: errors, redirects, messages
    | Read(c: Conn, tx: Tx)
    | Write(c: Conn, tx: Tx)
    | Mark(tx: Tx)                               // leadership markers and membership changes
    | Commit(upTo: int)
    | Apply
    | Flush(reason: Bytes)                       // leadership is lost
    | Replicate(reason: Bytes, keep: int, entries: seq<Tx>)  // another leader sends its entries

  // ---------------------------------------------------------------- the steps

  ghost predicate Enabled<Conn>(s: System<Conn>, e: Event<Conn>)
  {
    match e
    case Connect(c) => c !in s.queues
    case Disconnect(c) => c in s.queues
    case Respond(c, _) => c in s.queues && s.queues[c].attached
    case Read(c, tx) => c in s.queues && s.queues[c].attached && !tx.writes
    case Write(c, tx) => c in s.queues && s.queues[c].attached && tx.writes
    case Mark(tx) => tx.writes
    case Commit(upTo) => s.commit <= upTo <= |s.journal|
    case Apply => |s.applied| < s.commit <= |s.journal|
    case Flush(_) => true
    case Replicate(_, keep, entries) => s.commit <= keep <= |s.journal| && 0 <= keep && forall t :: t in entries ==>
      t.writes
  }

  /** The next entry to apply is waited for by nobody, or by a queue that has it in front. */
  ghost predicate FrontFits<Conn>(s: System<Conn>)
  {
    var index := |s.applied| + 1;
    index in s.tracker ==> s.tracker[index] in s.queues && Blocking(s.queues[s.tracker[index]]) == index
  }

  /** applySingleCommit (src/raft/RaftWriteTracker.cc:46-70): through the queue that waits for the entry, if any. */
  ghost function ApplyNext<Conn>(s: System<Conn>): System<Conn>
    requires |s.applied| < |s.journal| && FrontFits(s)
  {
    var index := |s.applied| + 1;
    if index !in s.tracker then s.(applied := s.applied + [s.journal[index - 1]])
    else
      var c := s.tracker[index];
      var q := Dispatched(s.queues[c], index);
      s.(queues := s.queues[c := q], tracker := Retrack(s.tracker, index, Blocking(q), c),
         applied := s.applied + [s.queues[c].pending[0].tx])
  }

  /** The entry is popped, and the queue goes back under the write it then waits for. */
  ghost function Retrack<Conn>(tracker: map<int, Conn>, index: int, blocking: int, c: Conn): map<int, Conn>
  {
    var rest := map i | i in tracker && i != index :: tracker[i];
    if blocking > 0 then rest[blocking := c] else rest
  }

  ghost predicate Tracked<Conn>(tracker: map<int, Conn>, c: Conn)
  {
    exists i :: i in tracker && tracker[i] == c
  }

  /** flushQueues (src/raft/RaftWriteTracker.cc:92-95). */
  ghost function FlushAll<Conn>(s: System<Conn>, reason: Bytes): System<Conn>
  {
    s.(queues := map c | c in s.queues :: if Tracked(s.tracker, c) then Flushed(s.queues[c], reason) else s.queues[c],
       tracker := map[])
  }

  /** append (src/raft/RaftWriteTracker.cc:97-109): journal, tracker and queue together. */
  ghost function Append<Conn>(s: System<Conn>, c: Conn, tx: Tx): System<Conn>
    requires c in s.queues && s.queues[c].attached
  {
    var index := |s.journal| + 1;
    s.(journal := s.journal + [tx], tracker := s.tracker[index := c],
       queues := s.queues[c := AddRequest(s.queues[c], tx, index, |s.applied|)])
  }

  ghost function Step<Conn>(s: System<Conn>, e: Event<Conn>): System<Conn>
    requires Enabled(s, e) && FrontFits(s)
  {
    match e
    case Connect(c) => s.(queues := s.queues[c := FRESH])
    case Disconnect(c) => s.(queues := s.queues[c := Detach(s.queues[c])])
    case Respond(c, bytes) => s.(queues := s.queues[c := AppendReady(s.queues[c], bytes)])
    case Read(c, tx) => s.(queues := s.queues[c := AddRequest(s.queues[c], tx, -1, |s.applied|)])
    case Write(c, tx) => Append(s, c, tx)
    case Mark(tx) => s.(journal := s.journal + [tx])
    case Commit(upTo) => s.(commit := upTo)
    case Apply => ApplyNext(s)
    case Flush(reason) => FlushAll(s, reason)
    case Replicate(reason, keep, entries) => FlushAll(s, reason).(journal := s.journal[..keep] + entries)
  }

  // ---------------------------------------------------------------- the invariant

  /** The j-th request of the queue was a write at this index, and its execution was acknowledged. */
  ghost predicate Acked(q: Queue, j: int, index: int)
  {
    0 <= j < |q.sent| && j < |q.asked| && IsWrite(q.asked[j]) && q.sent[j].Executed? && q.asked[j].index == index
  }

  ghost predicate HistoryFits<Conn>(s: System<Conn>)
  {
    |s.applied| <= s.commit <= |s.journal| && s.applied == s.journal[..|s.applied|] && forall t :: t in s.journal ==>
      t.writes
  }

  ghost predicate QueuesFit<Conn>(s: System<Conn>)
  {
    forall c :: c in s.queues ==> Fits(s.queues[c], |s.applied|, |s.journal|)
  }

  /** The tracker holds exactly the waiting writes, and each waits for its own transaction. */
  ghost predicate TrackerFits<Conn>(s: System<Conn>)
  {
    && (forall i :: i in s.tracker ==>
      0 < i <= |s.journal| && s.tracker[i] in s.queues && Waits(s.queues[s.tracker[i]], i, s.journal[i - 1]))
    && (forall c, i, tx :: c in s.queues && i > 0 && Waits(s.queues[c], i, tx) ==> i in s.tracker && s.tracker[i] == c)
  }

  /** Acknowledged writes were applied, at the index they were given. */
  ghost predicate AcksFit<Conn>(s: System<Conn>)
  {
    forall c, j, i :: c in s.queues && Acked(s.queues[c], j, i) ==>
      0 < i <= |s.applied| && s.applied[i - 1] == s.queues[c].asked[j].tx
  }

  /** No entry is acknowledged twice, not even to two connections. */
  ghost predicate AcksOnce<Conn>(s: System<Conn>)
  {
    forall c, j, d, k, i :: c in s.queues && d in s.queues && Acked(s.queues[c], j, i) && Acked(s.queues[d], k, i) ==>
      c == d && j == k
  }

  ghost predicate Inv<Conn>(s: System<Conn>)
  {
    HistoryFits(s) && QueuesFit(s) && TrackerFits(s) && AcksFit(s) && AcksOnce(s)
  }

  // ---------------------------------------------------------------- one queue changes

  lemma {:induction false} DrainAcks(q: Queue, at: int, j: int, index: int)
    requires InOrder(q)
    ensures Acked(Drain(q, at), j, index) <==> Acked(q, j, index)
    ensures Drain(q, at).asked == q.asked && Drain(q, at).attached == q.attached
    ensures q.sent <= Drain(q, at).sent
    decreases |q.pending|
  {
    if q.pending != [] && !IsWrite(q.pending[0]) {
      var r := Reply(q.pending[0], at);
      PopInOrder(q, r);
      assert q.attached ==> q.asked[|q.sent|] == q.pending[0];
      DrainAcks(Pop(q, r), at, j, index);
    }
  }

  lemma DispatchedAcks(q: Queue, at: int, j: int, index: int)
    requires InOrder(q) && Blocking(q) == at && at > 0
    ensures Acked(Dispatched(q, at), j, index) <==> Acked(q, j, index) || (q.attached && j == |q.sent| && index == at)
    ensures Dispatched(q, at).asked == q.asked && Dispatched(q, at).attached == q.attached
    ensures q.sent <= Dispatched(q, at).sent
  {
    var r := Reply(q.pending[0], at);
    PopInOrder(q, r);
    assert q.attached ==> q.asked[|q.sent|] == q.pending[0];
    DrainAcks(Pop(q, r), at, j, index);
  }

  lemma {:induction false} FlushedAcks(q: Queue, reason: Bytes, j: int, index: int)
    requires InOrder(q)
    ensures Acked(Flushed(q, reason), j, index) <==> Acked(q, j, index)
    ensures Flushed(q, reason).asked == q.asked && Flushed(q, reason).attached == q.attached
    ensures q.sent <= Flushed(q, reason).sent
    decreases |q.pending|
  {
    if q.pending != [] {
      var r := Refusal(q.pending[0], reason);
      PopInOrder(q, r);
      FlushedAcks(Pop(q, r), reason, j, index);
    }
  }

  ghost predicate SameWaits(q: Queue, r: Queue)
  {
    forall i, tx :: i > 0 ==> (Waits(r, i, tx) <==> Waits(q, i, tx))
  }

  ghost predicate SameAcks(q: Queue, r: Queue)
  {
    q.asked <= r.asked && forall j, i :: Acked(r, j, i) <==> Acked(q, j, i)
  }

  /** The queue gained or lost no waiting write and no acknowledgement. */
  ghost predicate Similar(q: Queue, r: Queue)
  {
    SameWaits(q, r) && SameAcks(q, r)
  }

  lemma AllFit<Conn>(t: System<Conn>, applied: int, logged: int)
    requires |t.applied| == applied && |t.journal| == logged
    requires forall d :: d in t.queues ==> Fits(t.queues[d], applied, logged)
    ensures QueuesFit(t)
  {
  }

  lemma AcksCarryOver<Conn>(s: System<Conn>, t: System<Conn>)
    requires AcksFit(s) && AcksOnce(s) && t.queues.Keys == s.queues.Keys && s.applied <= t.applied
    requires forall c :: c in s.queues ==> SameAcks(s.queues[c], t.queues[c])
    ensures AcksFit(t) && AcksOnce(t)
  {
    assert forall c, j, i :: c in t.queues && Acked(t.queues[c], j, i) ==> Acked(s.queues[c], j, i);
  }

  lemma ReplaceTracker<Conn>(s: System<Conn>, c: Conn, q: Queue)
    requires TrackerFits(s) && c in s.queues && Similar(s.queues[c], q)
    ensures TrackerFits(s.(queues := s.queues[c := q]))
  {
  }

  lemma ReplaceQueues<Conn>(s: System<Conn>, c: Conn, q: Queue)
    requires QueuesFit(s) && c in s.queues && Fits(q, |s.applied|, |s.journal|)
    ensures QueuesFit(s.(queues := s.queues[c := q]))
  {
    AllFit(s.(queues := s.queues[c := q]), |s.applied|, |s.journal|);
  }

  lemma ReplaceAcks<Conn>(s: System<Conn>, c: Conn, q: Queue)
    requires AcksFit(s) && AcksOnce(s) && c in s.queues && SameAcks(s.queues[c], q)
    ensures AcksFit(s.(queues := s.queues[c := q])) && AcksOnce(s.(queues := s.queues[c := q]))
  {
    AcksCarryOver(s, s.(queues := s.queues[c := q]));
  }

  lemma ReplaceKeeps<Conn>(s: System<Conn>, c: Conn, q: Queue)
    requires Inv(s) && c in s.queues && Fits(q, |s.applied|, |s.journal|) && Similar(s.queues[c], q)
    ensures Inv(s.(queues := s.queues[c := q]))
  {
    ReplaceQueues(s, c, q);
    ReplaceTracker(s, c, q);
    ReplaceAcks(s, c, q);
  }

  lemma AppendWaits(q: Queue, r: Queue, a: Ask, i: int, tx: Tx)
    requires r.pending == q.pending + [a]
    ensures Waits(r, i, tx) <==> Waits(q, i, tx) || a == Request(tx, i)
  {
    if Waits(q, i, tx) {
      var k :| 0 <= k < |q.pending| && q.pending[k] == Request(tx, i);
      assert r.pending[k] == Request(tx, i);
    }
    assert r.pending[|q.pending|] == a;
  }

  /** Queueing something that is not a write, or answering it at once. */
  lemma AppendSimilar(q: Queue, r: Queue, a: Ask)
    requires InOrder(q) && !IsWrite(a) && r.asked == q.asked + [a]
    requires if q.pending == r.pending then |r.sent| == |q.sent| + 1 == |r.asked| && q.sent <= r.sent
      else r.pending == q.pending + [a] && r.sent == q.sent
    ensures Similar(q, r)
  {
    forall i, tx | i > 0 ensures Waits(r, i, tx) <==> Waits(q, i, tx) {
      if r.pending == q.pending + [a] {
        AppendWaits(q, r, a, i, tx);
      }
    }
  }

  // ---------------------------------------------------------------- every step keeps the invariant

  lemma FreshTracker<Conn>(s: System<Conn>, c: Conn)
    requires TrackerFits(s) && c !in s.queues
    ensures TrackerFits(s.(queues := s.queues[c := FRESH]))
  {
  }

  lemma FreshQueues<Conn>(s: System<Conn>, c: Conn)
    requires QueuesFit(s) && c !in s.queues
    ensures QueuesFit(s.(queues := s.queues[c := FRESH]))
  {
    assert Fits(FRESH, |s.applied|, |s.journal|);
    AllFit(s.(queues := s.queues[c := FRESH]), |s.applied|, |s.journal|);
  }

  lemma FreshAcks<Conn>(s: System<Conn>, c: Conn)
    requires AcksFit(s) && AcksOnce(s) && c !in s.queues
    ensures AcksFit(s.(queues := s.queues[c := FRESH])) && AcksOnce(s.(queues := s.queues[c := FRESH]))
  {
    var t := s.(queues := s.queues[c := FRESH]);
    assert forall d, j, i :: d in t.queues && Acked(t.queues[d], j, i) ==> d in s.queues && Acked(s.queues[d], j, i);
  }

  lemma ConnectKeeps<Conn>(s: System<Conn>, c: Conn)
    requires Inv(s) && c !in s.queues
    ensures Inv(s.(queues := s.queues[c := FRESH]))
  {
    FreshQueues(s, c);
    FreshTracker(s, c);
    FreshAcks(s, c);
  }

  lemma DisconnectKeeps<Conn>(s: System<Conn>, c: Conn)
    requires Inv(s) && c in s.queues
    ensures Inv(s.(queues := s.queues[c := Detach(s.queues[c])]))
  {
    var q := s.queues[c];
    assert Similar(q, Detach(q));
    KeepLastIndex(q, Detach(q), |s.applied|, |s.journal|);
    ReplaceKeeps(s, c, Detach(q));
  }

  lemma RespondKeeps<Conn>(s: System<Conn>, c: Conn, bytes: Bytes)
    requires Inv(s) && c in s.queues && s.queues[c].attached
    ensures Inv(s.(queues := s.queues[c := AppendReady(s.queues[c], bytes)]))
  {
    var q := s.queues[c];
    AppendReadySound(q, bytes, |s.applied|, |s.journal|);
    AppendSimilar(q, AppendReady(q, bytes), Ready(bytes));
    ReplaceKeeps(s, c, AppendReady(q, bytes));
  }

  lemma ReadKeeps<Conn>(s: System<Conn>, c: Conn, tx: Tx)
    requires Inv(s) && c in s.queues && s.queues[c].attached && !tx.writes
    ensures Inv(s.(queues := s.queues[c := AddRequest(s.queues[c], tx, -1, |s.applied|)]))
  {
    var q := s.queues[c];
    var r := AddRequest(q, tx, -1, |s.applied|);
    AddReadSound(q, tx, |s.applied|, |s.journal|);
    AppendSimilar(q, r, Request(tx, -1));
    ReplaceKeeps(s, c, r);
  }

  /** Entries that are only added at the end of the journal, waited for by nobody. */
  lemma MarkKeeps<Conn>(s: System<Conn>, tx: Tx)
    requires Inv(s) && tx.writes
    ensures Inv(s.(journal := s.journal + [tx]))
  {
    var t := s.(journal := s.journal + [tx]);
    forall c | c in s.queues ensures Sound(s.queues[c], |s.applied|, |t.journal|) {
      OthersSound(s.queues[c], |s.applied|, |s.journal|, |s.applied|, |t.journal|);
    }
    assert t.applied == t.journal[..|t.applied|];
    assert TrackerFits(t);
  }

  lemma AppendOwn(q: Queue, tx: Tx, applied: int, logged: int)
    requires q.attached && tx.writes && 0 <= applied <= logged && Fits(q, applied, logged)
    ensures Fits(AddRequest(q, tx, logged + 1, applied), applied, logged + 1)
  {
    AddWriteSound(q, tx, applied, logged);
  }

  lemma AppendOther(q: Queue, applied: int, logged: int)
    requires Fits(q, applied, logged)
    ensures Fits(q, applied, logged + 1)
  {
    OthersSound(q, applied, logged, applied, logged + 1);
  }

  /** The queue that the write goes through, or another one. */
  lemma AppendQueue(q: Queue, r: Queue, own: bool, tx: Tx, applied: int, logged: int)
    requires Fits(q, applied, logged) && 0 <= applied <= logged && tx.writes
    requires if own then q.attached && r == AddRequest(q, tx, logged + 1, applied) else r == q
    ensures Fits(r, applied, logged + 1)
  {
    if own {
      AppendOwn(q, tx, applied, logged);
    } else {
      AppendOther(q, applied, logged);
    }
  }

  lemma AppendShape<Conn>(s: System<Conn>, c: Conn, tx: Tx, d: Conn)
    requires c in s.queues && s.queues[c].attached && d in Append(s, c, tx).queues
    ensures d in s.queues
    ensures Append(s, c, tx).queues[d] ==
      if d == c then AddRequest(s.queues[c], tx, |s.journal| + 1, |s.applied|) else s.queues[d]
  {
  }

  lemma AppendFit<Conn>(s: System<Conn>, c: Conn, tx: Tx, d: Conn)
    requires QueuesFit(s) && c in s.queues && s.queues[c].attached && tx.writes && |s.applied| <= |s.journal|
    requires d in Append(s, c, tx).queues
    ensures Fits(Append(s, c, tx).queues[d], |s.applied|, |s.journal| + 1)
  {
    AppendShape(s, c, tx, d);
    AppendQueue(s.queues[d], Append(s, c, tx).queues[d], d == c, tx, |s.applied|, |s.journal|);
  }

  lemma AppendQueues<Conn>(s: System<Conn>, c: Conn, tx: Tx)
    requires QueuesFit(s) && c in s.queues && s.queues[c].attached && tx.writes && |s.applied| <= |s.journal|
    ensures QueuesFit(Append(s, c, tx))
  {
    var t := Append(s, c, tx);
    forall d | d in t.queues ensures Fits(t.queues[d], |t.applied|, |t.journal|) {
      AppendFit(s, c, tx, d);
    }
  }

  lemma AppendTracker<Conn>(s: System<Conn>, c: Conn, tx: Tx)
    requires TrackerFits(s) && c in s.queues && s.queues[c].attached
    ensures TrackerFits(Append(s, c, tx))
  {
    var t := Append(s, c, tx);
    forall i, x ensures Waits(t.queues[c], i, x) <==> Waits(s.queues[c], i, x) || (x == tx && i == |s.journal| + 1) {
      AppendWaits(s.queues[c], t.queues[c], Request(tx, |s.journal| + 1), i, x);
    }
  }

  lemma AppendAcks<Conn>(s: System<Conn>, c: Conn, tx: Tx, d: Conn)
    requires c in s.queues && s.queues[c].attached && d in s.queues && InOrder(s.queues[d])
    ensures SameAcks(s.queues[d], Append(s, c, tx).queues[d])
  {
    assert d != c ==> Append(s, c, tx).queues[d] == s.queues[d];
  }

  lemma AppendAllAcks<Conn>(s: System<Conn>, c: Conn, tx: Tx)
    requires QueuesFit(s) && AcksFit(s) && AcksOnce(s) && c in s.queues && s.queues[c].attached
    ensures AcksFit(Append(s, c, tx)) && AcksOnce(Append(s, c, tx))
  {
    forall d | d in s.queues {
      AppendAcks(s, c, tx, d);
    }
    AcksCarryOver(s, Append(s, c, tx));
  }

  lemma AppendKeeps<Conn>(s: System<Conn>, c: Conn, tx: Tx)
    requires Inv(s) && c in s.queues && s.queues[c].attached && tx.writes
    ensures Inv(Append(s, c, tx))
  {
    AppendQueues(s, c, tx);
    AppendTracker(s, c, tx);
    AppendAllAcks(s, c, tx);
    AppendHistory(s, c, tx);
  }

  lemma AppendHistory<Conn>(s: System<Conn>, c: Conn, tx: Tx)
    requires HistoryFits(s) && c in s.queues && s.queues[c].attached && tx.writes
    ensures HistoryFits(Append(s, c, tx))
  {
    var t := Append(s, c, tx);
    assert t.applied == t.journal[..|t.applied|];
  }

  lemma FlushAcks<Conn>(s: System<Conn>, reason: Bytes, c: Conn)
    requires c in s.queues && InOrder(s.queues[c])
    ensures SameAcks(s.queues[c], FlushAll(s, reason).queues[c])
  {
    FlushedAcks(s.queues[c], reason, 0, 0);
    forall j, i ensures Acked(FlushAll(s, reason).queues[c], j, i) <==> Acked(s.queues[c], j, i) {
      FlushedAcks(s.queues[c], reason, j, i);
    }
  }

  lemma FlushQueues<Conn>(s: System<Conn>, reason: Bytes)
    requires HistoryFits(s) && QueuesFit(s) && TrackerFits(s)
    ensures QueuesFit(FlushAll(s, reason))
    ensures forall c :: c in s.queues ==> FlushAll(s, reason).queues[c].pending == []
  {
    forall c | c in s.queues {
      FlushOne(s, reason, c);
    }
    AllFit(FlushAll(s, reason), |s.applied|, |s.journal|);
  }

  lemma FlushAllAcks<Conn>(s: System<Conn>, reason: Bytes)
    requires QueuesFit(s) && AcksFit(s) && AcksOnce(s)
    ensures AcksFit(FlushAll(s, reason)) && AcksOnce(FlushAll(s, reason))
  {
    forall c | c in s.queues {
      FlushAcks(s, reason, c);
    }
    AcksCarryOver(s, FlushAll(s, reason));
  }

  lemma FlushTracker<Conn>(s: System<Conn>, reason: Bytes)
    requires forall c :: c in s.queues ==> FlushAll(s, reason).queues[c].pending == []
    ensures TrackerFits(FlushAll(s, reason))
  {
  }

  lemma FlushKeeps<Conn>(s: System<Conn>, reason: Bytes)
    requires Inv(s)
    ensures Inv(FlushAll(s, reason))
    ensures forall c :: c in s.queues ==> FlushAll(s, reason).queues[c].pending == []
  {
    FlushQueues(s, reason);
    FlushAllAcks(s, reason);
    FlushTracker(s, reason);
  }

  /** A queue that is not in the tracker waits for no write, so it is empty. */
  lemma FlushOne<Conn>(s: System<Conn>, reason: Bytes, c: Conn)
    requires HistoryFits(s) && QueuesFit(s) && TrackerFits(s) && c in s.queues
    ensures var q := FlushAll(s, reason).queues[c];
      Fits(q, |s.applied|, |s.journal|) && q.pending == []
  {
    var q := s.queues[c];
    if Tracked(s.tracker, c) {
      FlushedSound(q, reason, |s.applied|, |s.journal|);
      FlushedAcks(q, reason, 0, 0);
    } else if q.pending != [] {
      assert Waits(q, q.pending[0].index, q.pending[0].tx);
    }
  }

  lemma ReplicateKeeps<Conn>(s: System<Conn>, reason: Bytes, keep: int, entries: seq<Tx>)
    requires Inv(s) && Enabled(s, Replicate(reason, keep, entries))
    ensures Inv(FlushAll(s, reason).(journal := s.journal[..keep] + entries))
  {
    FlushKeeps(s, reason);
    var f := FlushAll(s, reason);
    var t := f.(journal := s.journal[..keep] + entries);
    forall c | c in t.queues ensures Sound(t.queues[c], |t.applied|, |t.journal|) {
      IdleSound(f.queues[c], |s.applied|, |s.journal|, |t.journal|);
    }
    assert t.applied == t.journal[..|t.applied|];
  }

  // ---------------------------------------------------------------- applying an entry

  /** Whoever waits for the next entry has it in front, and waits for the right transaction. */
  lemma FrontFitsNext<Conn>(s: System<Conn>)
    requires QueuesFit(s) && TrackerFits(s)
    ensures FrontFits(s)
    ensures |s.applied| + 1 in s.tracker ==>
      |s.applied| < |s.journal| && s.queues[s.tracker[|s.applied| + 1]].pending[0].tx == s.journal[|s.applied|]
  {
    var index := |s.applied| + 1;
    if index in s.tracker {
      var q := s.queues[s.tracker[index]];
      assert Sound(q, |s.applied|, |s.journal|);
      var k :| 0 <= k < |q.pending| && q.pending[k] == Request(s.journal[index - 1], index);
      assert IsWrite(q.pending[k]) && IsWrite(q.pending[0]);
    }
  }

  lemma ApplyHistory<Conn>(s: System<Conn>)
    requires HistoryFits(s) && QueuesFit(s) && TrackerFits(s) && |s.applied| < s.commit
    requires FrontFits(s)
    ensures HistoryFits(ApplyNext(s)) && |ApplyNext(s).applied| == |s.applied| + 1
  {
    FrontFitsNext(s);
    assert ApplyNext(s).applied == s.journal[..|s.applied| + 1];
  }

  /** A queue that the tracker does not name for this entry has no write at this index. */
  lemma Unaffected<Conn>(s: System<Conn>, d: Conn)
    requires QueuesFit(s) && TrackerFits(s) && d in s.queues
    requires |s.applied| + 1 in s.tracker ==> s.tracker[|s.applied| + 1] != d
    ensures Fits(s.queues[d], |s.applied| + 1, |s.journal|)
  {
    var q := s.queues[d];
    forall i | 0 <= i < |q.pending| && IsWrite(q.pending[i]) ensures |s.applied| + 1 < q.pending[i].index {
      assert Waits(q, q.pending[i].index, q.pending[i].tx);
    }
    OthersSound(q, |s.applied|, |s.journal|, |s.applied| + 1, |s.journal|);
  }

  lemma ApplyQueue<Conn>(s: System<Conn>, d: Conn)
    requires QueuesFit(s) && TrackerFits(s) && FrontFits(s) && |s.applied| < |s.journal| && d in s.queues
    ensures Fits(ApplyNext(s).queues[d], |s.applied| + 1, |s.journal|)
  {
    var index := |s.applied| + 1;
    if index in s.tracker && s.tracker[index] == d {
      DispatchedSound(s.queues[d], |s.applied|, |s.journal|);
      DispatchedAcks(s.queues[d], index, 0, 0);
    } else {
      Unaffected(s, d);
    }
  }

  lemma ApplyQueues<Conn>(s: System<Conn>)
    requires QueuesFit(s) && TrackerFits(s) && FrontFits(s) && |s.applied| < |s.journal|
    ensures QueuesFit(ApplyNext(s))
  {
    forall d | d in s.queues {
      ApplyQueue(s, d);
    }
    AllFit(ApplyNext(s), |s.applied| + 1, |s.journal|);
  }

  lemma ApplyTracker<Conn>(s: System<Conn>)
    requires QueuesFit(s) && TrackerFits(s) && FrontFits(s) && |s.applied| < |s.journal|
    ensures TrackerFits(ApplyNext(s))
  {
    var index := |s.applied| + 1;
    if index in s.tracker {
      var c := s.tracker[index];
      var q := Dispatched(s.queues[c], index);
      forall i, tx | i > 0 ensures Waits(q, i, tx) <==> Waits(s.queues[c], i, tx) && i != index {
        DispatchedWaits(s.queues[c], |s.applied|, |s.journal|, i, tx);
      }
      RetrackForgets(s, c, q, index);
      ForgetTracker(s, ApplyNext(s), q, index);
    }
  }

  /** One entry is waited for no longer. */
  lemma ForgetTracker<Conn>(s: System<Conn>, t: System<Conn>, q: Queue, index: int)
    requires TrackerFits(s) && index in s.tracker
    requires t.queues == s.queues[s.tracker[index] := q] && t.journal == s.journal
    requires t.tracker == map i | i in s.tracker && i != index :: s.tracker[i]
    requires forall i, tx :: i > 0 ==> (Waits(q, i, tx) <==> Waits(s.queues[s.tracker[index]], i, tx) && i != index)
    ensures TrackerFits(t)
  {
    forall d, i, tx | d in t.queues && i > 0 && Waits(t.queues[d], i, tx) ensures i in t.tracker && t.tracker[i] == d {
      assert Waits(s.queues[d], i, tx);
    }
  }

  /** The queue is already tracked under the write it waits for next. */
  lemma RetrackForgets<Conn>(s: System<Conn>, c: Conn, q: Queue, index: int)
    requires TrackerFits(s) && c in s.queues
    requires forall i, tx :: i > 0 ==> (Waits(q, i, tx) <==> Waits(s.queues[c], i, tx) && i != index)
    ensures Retrack(s.tracker, index, Blocking(q), c) == map i | i in s.tracker && i != index :: s.tracker[i]
  {
    if Blocking(q) > 0 {
      assert Waits(q, Blocking(q), q.pending[0].tx);
    }
  }

  /** The only new acknowledgement is that of the entry just applied. */
  lemma ApplyAcked<Conn>(s: System<Conn>, d: Conn, j: int, i: int)
    requires QueuesFit(s) && FrontFits(s) && |s.applied| < |s.journal| && d in s.queues
    ensures Acked(ApplyNext(s).queues[d], j, i) ==>
      || Acked(s.queues[d], j, i)
      || (i == |s.applied| + 1 && i in s.tracker && s.tracker[i] == d && j == |s.queues[d].sent|
        && s.queues[d].attached)
    ensures ApplyNext(s).queues[d].asked == s.queues[d].asked
  {
    var index := |s.applied| + 1;
    if index in s.tracker && s.tracker[index] == d {
      DispatchedAcks(s.queues[d], index, j, i);
    } else {
      assert ApplyNext(s).queues[d] == s.queues[d];
    }
  }

  lemma ApplyAcksFit<Conn>(s: System<Conn>)
    requires QueuesFit(s) && TrackerFits(s) && AcksFit(s) && FrontFits(s) && |s.applied| < |s.journal|
    ensures AcksFit(ApplyNext(s))
  {
    var t := ApplyNext(s);
    forall c, j, i | c in t.queues && Acked(t.queues[c], j, i) ensures 0 < i <= |t.applied|
      && t.applied[i - 1] == t.queues[c].asked[j].tx {
      ApplyAcked(s, c, j, i);
      if !Acked(s.queues[c], j, i) {
        assert s.queues[c].asked[j] == s.queues[c].pending[0] by { assert InOrder(s.queues[c]); }
      }
    }
  }

  lemma ApplyAcksOnce<Conn>(s: System<Conn>)
    requires QueuesFit(s) && AcksFit(s) && AcksOnce(s) && FrontFits(s) && |s.applied| < |s.journal|
    ensures AcksOnce(ApplyNext(s))
  {
    var t := ApplyNext(s);
    forall c, j, d, k, i | c in t.queues && d in t.queues && Acked(t.queues[c], j, i)
      && Acked(t.queues[d], k, i) ensures c == d && j == k {
      ApplyAcked(s, c, j, i);
      ApplyAcked(s, d, k, i);
    }
  }

  lemma ApplyKeeps<Conn>(s: System<Conn>)
    requires Inv(s) && FrontFits(s) && |s.applied| < s.commit
    ensures Inv(ApplyNext(s))
  {
    ApplyHistory(s);
    ApplyQueues(s);
    ApplyTracker(s);
    ApplyAcksFit(s);
    ApplyAcksOnce(s);
  }

  lemma CommitKeeps<Conn>(s: System<Conn>, upTo: int)
    requires Inv(s) && s.commit <= upTo <= |s.journal|
    ensures Inv(s.(commit := upTo))
  {
  }

  lemma StepKeeps<Conn>(s: System<Conn>, e: Event<Conn>)
    requires Inv(s) && FrontFits(s) && Enabled(s, e)
    ensures Inv(Step(s, e)) && FrontFits(Step(s, e))
  {
    match e {
      case Connect(c) => ConnectKeeps(s, c);
      case Disconnect(c) => DisconnectKeeps(s, c);
      case Respond(c, bytes) => RespondKeeps(s, c, bytes);
      case Read(c, tx) => ReadKeeps(s, c, tx);
      case Write(c, tx) => AppendKeeps(s, c, tx);
      case Mark(tx) => MarkKeeps(s, tx);
      case Commit(upTo) => CommitKeeps(s, upTo);
      case Apply => ApplyKeeps(s);
      case Flush(reason) => FlushKeeps(s, reason);
      case Replicate(reason, keep, entries) => ReplicateKeeps(s, reason, keep, entries);
    }
    FrontFitsNext(Step(s, e));
  }

  // ---------------------------------------------------------------- runs

  ghost predicate StepAt<Conn>(states: seq<System<Conn>>, events: seq<Event<Conn>>, k: nat)
    requires k < |events| && |states| == |events| + 1
  {
    && Enabled(states[k], events[k]) && FrontFits(states[k])
    && states[k + 1] == Step(states[k], events[k])
  }

  /** Everything that can happen from an empty system, in any order. */
  ghost predicate IsRun<Conn>(states: seq<System<Conn>>, events: seq<Event<Conn>>)
  {
    && |states| == |events| + 1 && states[0] == System(map[], map[], [], 0, [])
    && forall k {:trigger StepAt(states, events, k)} :: 0 <= k < |events| ==> StepAt(states, events, k)
  }

  /** In every reachable state the invariant holds and the next entry can be applied: no throw fires. */
  lemma {:induction false} RunKeeps<Conn>(states: seq<System<Conn>>, events: seq<Event<Conn>>, k: nat)
    requires IsRun(states, events) && k <= |events|
    ensures Inv(states[k]) && FrontFits(states[k])
  {
    if k == 0 {
      FrontFitsNext(states[0]);
    } else {
      RunKeeps(states, events, k - 1);
      assert StepAt(states, events, k - 1);
      StepKeeps(states[k - 1], events[k - 1]);
    }
  }

  /** What never shrinks: what is committed, what is applied, and what a connection was sent and asked. */
  ghost predicate Grew<Conn>(s: System<Conn>, t: System<Conn>)
  {
    && s.commit <= t.commit && s.applied <= t.applied
    && (0 <= s.commit <= |s.journal| ==> s.journal[..s.commit] <= t.journal)
    && forall c :: c in s.queues ==>
      c in t.queues && s.queues[c].sent <= t.queues[c].sent && s.queues[c].asked <= t.queues[c].asked
  }

  lemma StepGrows<Conn>(s: System<Conn>, e: Event<Conn>)
    requires Inv(s) && FrontFits(s) && Enabled(s, e)
    ensures Grew(s, Step(s, e))
    ensures |Step(s, e).applied| == |s.applied| + if e.Apply? then 1 else 0
  {
    match e {
      case Flush(reason) => FlushGrows(s, reason);
      case Replicate(reason, keep, entries) => ReplicateGrows(s, reason, keep, entries);
      case Apply => ApplyGrows(s);
      case _ => OthersGrow(s, e);
    }
  }

  lemma OthersGrow<Conn>(s: System<Conn>, e: Event<Conn>)
    requires FrontFits(s) && Enabled(s, e) && !e.Flush? && !e.Replicate? && !e.Apply?
    ensures Grew(s, Step(s, e)) && Step(s, e).applied == s.applied
  {
  }

  lemma ReplicateGrows<Conn>(s: System<Conn>, reason: Bytes, keep: int, entries: seq<Tx>)
    requires QueuesFit(s) && Enabled(s, Replicate(reason, keep, entries))
    ensures Grew(s, FlushAll(s, reason).(journal := s.journal[..keep] + entries))
  {
    FlushGrows(s, reason);
  }

  lemma FlushGrows<Conn>(s: System<Conn>, reason: Bytes)
    requires QueuesFit(s)
    ensures Grew(s, FlushAll(s, reason)) && FlushAll(s, reason).applied == s.applied
  {
    forall c | c in s.queues ensures s.queues[c].sent <= FlushAll(s, reason).queues[c].sent
      && s.queues[c].asked <= FlushAll(s, reason).queues[c].asked {
      FlushedAcks(s.queues[c], reason, 0, 0);
    }
  }

  lemma ApplyGrows<Conn>(s: System<Conn>)
    requires QueuesFit(s) && FrontFits(s) && |s.applied| < |s.journal|
    ensures Grew(s, ApplyNext(s)) && |ApplyNext(s).applied| == |s.applied| + 1
  {
    var index := |s.applied| + 1;
    if index in s.tracker {
      DispatchedAcks(s.queues[s.tracker[index]], index, 0, 0);
    }
  }

  lemma {:induction false} RunGrows<Conn>(states: seq<System<Conn>>, events: seq<Event<Conn>>, i: nat, k: nat)
    requires IsRun(states, events) && i <= k <= |events|
    ensures Grew(states[i], states[k])
    decreases k
  {
    RunKeeps(states, events, i);
    if i < k {
      RunGrows(states, events, i, k - 1);
      RunKeeps(states, events, k - 1);
      assert StepAt(states, events, k - 1);
      StepGrows(states[k - 1], events[k - 1]);
      GrewFurther(states[i], states[k - 1], states[k]);
    }
  }

  lemma GrewFurther<Conn>(s: System<Conn>, t: System<Conn>, u: System<Conn>)
    requires Grew(s, t) && Grew(t, u) && 0 <= s.commit <= |s.journal| && t.commit <= |t.journal|
    ensures Grew(s, u)
  {
    assert s.journal[..s.commit] <= t.journal[..t.commit];
  }

  /** An acknowledged write is in the history from then on, in the place its journal index gave it. */
  lemma AcknowledgedForGood<Conn>(
    states: seq<System<Conn>>, events: seq<Event<Conn>>, i: nat, k: nat, c: Conn, j: nat, index: int)
    requires IsRun(states, events) && i <= k <= |events|
    requires c in states[i].queues && Acked(states[i].queues[c], j, index)
    ensures 0 < index <= |states[k].applied| && index <= |states[k].journal|
    ensures states[k].applied[index - 1] == states[k].journal[index - 1] == states[i].queues[c].asked[j].tx
  {
    RunKeeps(states, events, i);
    RunKeeps(states, events, k);
    RunGrows(states, events, i, k);
  }

  /** Once everything in the journal is applied, every attached connection has all its responses. */
  lemma AllAnswered<Conn>(states: seq<System<Conn>>, events: seq<Event<Conn>>, k: nat, c: Conn)
    requires IsRun(states, events) && k <= |events| && c in states[k].queues
    requires |states[k].applied| == |states[k].journal|
    ensures states[k].queues[c].pending == []
    ensures (states[k].queues[c].attached ==> |states[k].queues[c].sent| == |states[k].queues[c].asked|)
  {
    RunKeeps(states, events, k);
    assert Sound(states[k].queues[c], |states[k].applied|, |states[k].journal|);
  }

  /**
   * Each connection gets its responses in the order of its requests, one each, and never from an older state
   * than before.
   */
  lemma ResponsesInOrder<Conn>(states: seq<System<Conn>>, events: seq<Event<Conn>>, k: nat, c: Conn, i: nat, j: nat)
    requires IsRun(states, events) && k <= |events| && c in states[k].queues && i < j < |states[k].queues[c].sent|
    ensures var q := states[k].queues[c];
      && |q.sent| + |q.pending| <= |q.asked| && (q.attached ==> |q.sent| + |q.pending| == |q.asked|)
      && Answers(q.sent[i], q.asked[i]) && Answers(q.sent[j], q.asked[j])
      && (q.sent[i].Executed? && q.sent[j].Executed? ==> q.sent[i].at <= q.sent[j].at)
      && (IsWrite(q.asked[i]) && q.sent[i].Executed? && q.sent[j].Executed? ==> q.asked[i].index <= q.sent[j].at)
  {
    RunKeeps(states, events, k);
    var q := states[k].queues[c];
    assert Sound(q, |states[k].applied|, |states[k].journal|);
    assert Answers(q.sent[i], q.asked[i]) && Answers(q.sent[j], q.asked[j]);
  }

  // ---------------------------------------------------------------- every response has its reason

  /** What `a` is told when event `e`, which leads to `t`, answers it: only lost leadership refuses anything. */
  predicate AnsweredBy<Conn>(e: Event<Conn>, t: System<Conn>, a: Ask, x: Response)
  {
    match a
    case Ready(bytes) => x == Verbatim(bytes)
    case Request(tx, _) =>
      match e
      case Flush(reason) => x == Refused(tx, reason)
      case Replicate(reason, _, _) => x == Refused(tx, reason)
      case _ => x == Executed(tx, |t.applied|)
  }

  /** How much the connection had been sent. */
  function SentSoFar<Conn>(s: System<Conn>, c: Conn): nat
  {
    if c in s.queues then |s.queues[c].sent| else 0
  }

  lemma AppliedAnswers<Conn>(s: System<Conn>, c: Conn, i: nat)
    requires QueuesFit(s) && FrontFits(s) && |s.applied| < |s.journal| && c in s.queues
    requires |s.queues[c].sent| <= i < |ApplyNext(s).queues[c].sent|
    ensures var q := ApplyNext(s).queues[c]; i < |q.asked| && AnsweredBy(Apply, ApplyNext(s), q.asked[i], q.sent[i])
  {
    var index := |s.applied| + 1;
    if index in s.tracker && s.tracker[index] == c {
      assert InOrder(s.queues[c]) by { assert Fits(s.queues[c], |s.applied|, |s.journal|); }
      var n := DispatchedExecutes(s.queues[c], index);
    }
  }

  lemma FlushAnswers<Conn>(s: System<Conn>, reason: Bytes, c: Conn, i: nat)
    requires QueuesFit(s) && c in s.queues
    requires |s.queues[c].sent| <= i < |FlushAll(s, reason).queues[c].sent|
    ensures var q := FlushAll(s, reason).queues[c];
      i < |q.asked| && AnsweredBy(Event<Conn>.Flush(reason), FlushAll(s, reason), q.asked[i], q.sent[i])
  {
    if Tracked(s.tracker, c) {
      assert InOrder(s.queues[c]) by { assert Fits(s.queues[c], |s.applied|, |s.journal|); }
      FlushedRefuses(s.queues[c], reason);
    }
  }

  lemma StepAnswers<Conn>(s: System<Conn>, e: Event<Conn>, c: Conn, i: nat)
    requires Inv(s) && FrontFits(s) && Enabled(s, e) && c in Step(s, e).queues
    requires SentSoFar(s, c) <= i < SentSoFar(Step(s, e), c)
    ensures var q := Step(s, e).queues[c]; i < |q.asked| && AnsweredBy(e, Step(s, e), q.asked[i], q.sent[i])
  {
    if c in s.queues { assert InOrder(s.queues[c]) by { assert Fits(s.queues[c], |s.applied|, |s.journal|); } }
    match e {
      case Apply => AppliedAnswers(s, c, i);
      case Flush(reason) => FlushAnswers(s, reason, c, i);
      case Replicate(reason, _, _) => FlushAnswers(s, reason, c, i);
      case _ =>
    }
  }

  /** Response number `i` to `c` left in step `j`. */
  ghost predicate SentIn<Conn>(states: seq<System<Conn>>, j: nat, c: Conn, i: nat)
    requires j + 1 < |states|
  {
    SentSoFar(states[j], c) <= i < SentSoFar(states[j + 1], c)
  }

  /** The ask and the response are the same later. */
  lemma StillAnswered<Conn>(s: System<Conn>, t: System<Conn>, c: Conn, i: nat)
    requires c in s.queues && Grew(s, t) && i < |s.queues[c].sent| && i < |s.queues[c].asked|
    ensures i < |t.queues[c].sent| && t.queues[c].sent[i] == s.queues[c].sent[i]
    ensures i < |t.queues[c].asked| && t.queues[c].asked[i] == s.queues[c].asked[i]
  {
  }

  lemma GrownIn<Conn>(states: seq<System<Conn>>, events: seq<Event<Conn>>, k: nat)
    requires IsRun(states, events) && k < |events|
    ensures Inv(states[k]) && FrontFits(states[k]) && Enabled(states[k], events[k])
    ensures states[k + 1] == Step(states[k], events[k]) && Grew(states[k], states[k + 1])
  {
    RunKeeps(states, events, k);
    assert StepAt(states, events, k);
    StepGrows(states[k], events[k]);
  }

  lemma GrowsIn<Conn>(states: seq<System<Conn>>, events: seq<Event<Conn>>, k: nat)
    requires IsRun(states, events) && k < |events|
    ensures Grew(states[k], states[k + 1])
  {
    GrownIn(states, events, k);
  }

  lemma AnsweredIn<Conn>(states: seq<System<Conn>>, events: seq<Event<Conn>>, k: nat, c: Conn, i: nat)
    requires IsRun(states, events) && k < |events| && c in states[k + 1].queues && SentIn(states, k, c, i)
    ensures var q := states[k + 1].queues[c];
      i < |q.asked| && AnsweredBy(events[k], states[k + 1], q.asked[i], q.sent[i])
  {
    GrownIn(states, events, k);
    StepAnswers(states[k], events[k], c, i);
  }

  /**
   * Every response of every run has its reason: a ready response is handed out as it was given, a request is
   * refused only when leadership was lost, with the reason of that moment, and every other request is executed,
   * on the state that the entries applied by then had led to.
   */
  lemma {:induction false} ResponseExplained<Conn>(
    states: seq<System<Conn>>, events: seq<Event<Conn>>, k: nat, c: Conn, i: nat) returns (j: nat)
    requires IsRun(states, events) && k <= |events| && c in states[k].queues && i < |states[k].queues[c].sent|
    ensures j < k && SentIn(states, j, c, i)
    ensures var q := states[k].queues[c];
      i < |q.asked| && AnsweredBy(events[j], states[j + 1], q.asked[i], q.sent[i])
  {
    GrowsIn(states, events, k - 1);
    if SentSoFar(states[k - 1], c) <= i {
      j := k - 1;
      AnsweredIn(states, events, j, c, i);
    } else {
      j := ResponseExplained(states, events, k - 1, c, i);
      StillAnswered(states[k - 1], states[k], c, i);
    }
  }

  /** What the event asks of the queue of `c`. */
  function AskedBy<Conn>(s: System<Conn>, e: Event<Conn>, c: Conn): seq<Ask>
  {
    match e
    case Respond(d, bytes) => if d == c then [Ready(bytes)] else []
    case Read(d, tx) => if d == c then [Request(tx, -1)] else []
    case Write(d, tx) => if d == c then [Request(tx, |s.journal| + 1)] else []
    case _ => []
  }

  function AsksOf<Conn>(states: seq<System<Conn>>, events: seq<Event<Conn>>, k: nat, c: Conn): seq<Ask>
    requires k <= |events| < |states|
  {
    if k == 0 then [] else AsksOf(states, events, k - 1, c) + AskedBy(states[k - 1], events[k - 1], c)
  }

  lemma AppliedAsks<Conn>(s: System<Conn>, c: Conn)
    requires QueuesFit(s) && FrontFits(s) && |s.applied| < |s.journal| && c in s.queues
    ensures c in ApplyNext(s).queues && ApplyNext(s).queues[c].asked == s.queues[c].asked
  {
    ApplyAcked(s, c, 0, 0);
  }

  lemma FlushAsks<Conn>(s: System<Conn>, reason: Bytes, c: Conn)
    requires QueuesFit(s) && c in s.queues
    ensures c in FlushAll(s, reason).queues && FlushAll(s, reason).queues[c].asked == s.queues[c].asked
  {
    assert InOrder(s.queues[c]) by { assert Fits(s.queues[c], |s.applied|, |s.journal|); }
    FlushedAcks(s.queues[c], reason, 0, 0);
  }

  lemma OthersAsk<Conn>(s: System<Conn>, e: Event<Conn>, c: Conn)
    requires FrontFits(s) && Enabled(s, e) && !e.Flush? && !e.Replicate? && !e.Apply? && c in s.queues
    ensures c in Step(s, e).queues && Step(s, e).queues[c].asked == s.queues[c].asked + AskedBy(s, e, c)
  {
  }

  lemma StepAsks<Conn>(s: System<Conn>, e: Event<Conn>, c: Conn)
    requires QueuesFit(s) && FrontFits(s) && Enabled(s, e) && c in s.queues
    ensures c in Step(s, e).queues && Step(s, e).queues[c].asked == s.queues[c].asked + AskedBy(s, e, c)
  {
    match e {
      case Apply => AppliedAsks(s, c);
      case Flush(reason) => FlushAsks(s, reason, c);
      case Replicate(reason, _, _) => FlushAsks(s, reason, c);
      case _ => OthersAsk(s, e, c);
    }
  }

  lemma FirstAsks<Conn>(s: System<Conn>, e: Event<Conn>, c: Conn)
    requires Inv(s) && FrontFits(s) && Enabled(s, e) && c !in s.queues
    ensures AskedBy(s, e, c) == []
    ensures c in Step(s, e).queues ==> e == Connect(c) && Step(s, e).queues[c] == Queue(true, [], -1, [], [])
  {
  }

  function AskedSoFar<Conn>(s: System<Conn>, c: Conn): seq<Ask>
  {
    if c in s.queues then s.queues[c].asked else []
  }

  lemma AskedIn<Conn>(states: seq<System<Conn>>, events: seq<Event<Conn>>, k: nat, c: Conn)
    requires IsRun(states, events) && k < |events|
    ensures AskedSoFar(states[k + 1], c) == AskedSoFar(states[k], c) + AskedBy(states[k], events[k], c)
  {
    GrownIn(states, events, k);
    if c in states[k].queues {
      StepAsks(states[k], events[k], c);
    } else {
      FirstAsks(states[k], events[k], c);
    }
  }

  ghost predicate AskedAt<Conn>(states: seq<System<Conn>>, events: seq<Event<Conn>>, k: nat, c: Conn)
    requires k < |events| < |states|
  {
    AskedSoFar(states[k + 1], c) == AskedSoFar(states[k], c) + AskedBy(states[k], events[k], c)
  }

  lemma AskedOnce<Conn>(states: seq<System<Conn>>, events: seq<Event<Conn>>, k: nat, c: Conn)
    requires k < |events| < |states| && AskedAt(states, events, k, c)
    requires AsksOf(states, events, k, c) == AskedSoFar(states[k], c)
    ensures AsksOf(states, events, k + 1, c) == AskedSoFar(states[k + 1], c)
  {
  }

  lemma {:induction false} AsksAddUp<Conn>(states: seq<System<Conn>>, events: seq<Event<Conn>>, k: nat, c: Conn)
    requires k <= |events| < |states| && AskedSoFar(states[0], c) == []
    requires forall i :: 0 <= i < k ==> AskedAt(states, events, i, c)
    ensures AsksOf(states, events, k, c) == AskedSoFar(states[k], c)
  {
    if k > 0 {
      AsksAddUp(states, events, k - 1, c);
      AskedOnce(states, events, k - 1, c);
    }
  }

  /** A queue was asked exactly what its connection was, in the same order; each write at the end of the journal. */
  lemma AskedInOrder<Conn>(states: seq<System<Conn>>, events: seq<Event<Conn>>, k: nat, c: Conn)
    requires IsRun(states, events) && k <= |events|
    ensures AsksOf(states, events, k, c) == AskedSoFar(states[k], c)
  {
    forall i | 0 <= i < k ensures AskedAt(states, events, i, c) {
      AskedIn(states, events, i, c);
    }
    AsksAddUp(states, events, k, c);
  }

  /** A read on a connection that waits for nothing is answered in the same step. */
  lemma ReadAnsweredAtOnce<Conn>(s: System<Conn>, c: Conn, tx: Tx)
    requires Inv(s) && FrontFits(s) && Enabled(s, Read(c, tx)) && s.queues[c].pending == []
    ensures Step(s, Read(c, tx)).queues[c].sent == s.queues[c].sent + [Executed(tx, |s.applied|)]
  {
    ReadAnswered(s.queues[c], tx, |s.applied|);
  }

  /** Applying the entry that `c` waits for answers that write, and every request behind it up to the next write. */
  lemma AppliedAnswersAll<Conn>(s: System<Conn>, c: Conn) returns (n: nat)
    requires Inv(s) && FrontFits(s) && Enabled(s, Apply)
    requires |s.applied| + 1 in s.tracker && s.tracker[|s.applied| + 1] == c
    ensures FrontServed(s.queues[c], Step(s, Apply).queues[c], n, |s.applied| + 1)
  {
    assert Step(s, Apply).queues[c] == Dispatched(s.queues[c], |s.applied| + 1);
    assert InOrder(s.queues[c]) by { assert Fits(s.queues[c], |s.applied|, |s.journal|); }
    n := DispatchedServes(s.queues[c], |s.applied| + 1);
  }

  /** Only a disconnect detaches a queue. */
  lemma StepAttached<Conn>(s: System<Conn>, e: Event<Conn>, c: Conn)
    requires Inv(s) && FrontFits(s) && Enabled(s, e) && c in s.queues
    ensures c in Step(s, e).queues
    ensures Step(s, e).queues[c].attached <==> s.queues[c].attached && e != Disconnect(c)
    ensures !s.queues[c].attached ==> Step(s, e).queues[c].sent == s.queues[c].sent
  {
    assert InOrder(s.queues[c]) by { assert Fits(s.queues[c], |s.applied|, |s.journal|); }
    match e {
      case Apply => AppliedAttached(s, c);
      case Flush(reason) => FlushedRefuses(s.queues[c], reason);
      case Replicate(reason, _, _) => FlushedRefuses(s.queues[c], reason);
      case _ =>
    }
  }

  lemma AppliedAttached<Conn>(s: System<Conn>, c: Conn)
    requires QueuesFit(s) && FrontFits(s) && |s.applied| < |s.journal| && c in s.queues && InOrder(s.queues[c])
    ensures c in ApplyNext(s).queues && ApplyNext(s).queues[c].attached == s.queues[c].attached
    ensures !s.queues[c].attached ==> ApplyNext(s).queues[c].sent == s.queues[c].sent
  {
    var index := |s.applied| + 1;
    if index in s.tracker && s.tracker[index] == c {
      var n := DispatchedExecutes(s.queues[c], index);
    }
  }

  /** A connection that is gone gets nothing more, whatever its writes come to. */
  lemma {:induction false} NothingAfterDisconnect<Conn>(
    states: seq<System<Conn>>, events: seq<Event<Conn>>, i: nat, k: nat, c: Conn)
    requires IsRun(states, events) && i < k <= |events| && events[i] == Disconnect(c)
    ensures c in states[i].queues && c in states[k].queues && !states[k].queues[c].attached
    ensures states[k].queues[c].sent == states[i].queues[c].sent
    decreases k
  {
    GrownIn(states, events, k - 1);
    if i < k - 1 {
      NothingAfterDisconnect(states, events, i, k - 1, c);
    }
    StepAttached(states[k - 1], events[k - 1], c);
  }

  /** The journal changes only at its end, and only beyond what is committed; nothing else moves the commit index. */
  lemma StepJournal<Conn>(s: System<Conn>, e: Event<Conn>)
    requires Inv(s) && FrontFits(s) && Enabled(s, e)
    ensures var t := Step(s, e);
      && t.commit == (if e.Commit? then e.upTo else s.commit)
      && t.journal == match e
         case Write(_, tx) => s.journal + [tx]
         case Mark(tx) => s.journal + [tx]
         case Replicate(_, keep, entries) => s.journal[..keep] + entries
         case _ => s.journal
  {
  }
}
