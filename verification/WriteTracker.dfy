/**
 * The objects behind the protocol: PendingQueue (src/Connection.cc), RaftBlockedWrites and
 * RaftWriteTracker (src/raft/). Each method is proved to do the step of WriteProtocol that
 * it stands for; the throws that report a corrupted queue are asserts that hold.
 */
module WriteTracker {
  import opened Bytes
  import opened PendingQueue
  import opened WriteProtocol

  /** The state machine as the dispatcher sees it: the writes applied so far. */
  class Machine {
    var applied: seq<Tx>

    /** commitTransaction accepts a write only at the next index (src/StateMachine.cc:2065-2084). */
    method Dispatch(tx: Tx, index: int) returns (at: int)
      requires tx.writes ==> index == |applied| + 1
      modifies this
      ensures applied == if tx.writes then old(applied) + [tx] else old(applied)
      ensures at == |applied|
    {
      if tx.writes {
        applied := applied + [tx];
      }
      at := |applied|;
    }
  }

  class Pending {
    var attached: bool
    var pending: seq<Ask>
    var lastIndex: int
    var sent: seq<Response>
    ghost var asked: seq<Ask>

    constructor ()
      ensures Value() == FRESH
    {
      attached, pending, lastIndex, sent, asked := true, [], -1, [], [];
    }

    ghost function Value(): Queue
      reads this
    {
      Queue(attached, pending, lastIndex, sent, asked)
    }

    method DetachConnection()
      modifies this
      ensures Value() == Detach(old(Value()))
    {
      attached := false;
    }

    method Send(r: Response)
      modifies `sent
      ensures sent == if attached then old(sent) + [r] else old(sent)
    {
      if attached {
        sent := sent + [r];
      }
    }

    /** Throws when nobody is attached; all callers hold a connection. */
    method AppendResponse(bytes: Bytes)
      requires attached
      modifies this
      ensures Value() == AppendReady(old(Value()), bytes)
    {
      asked := asked + [Ready(bytes)];
      if pending == [] {
        Send(Verbatim(bytes));
        return;
      }
      pending := pending + [Ready(bytes)];
    }

    method AddPendingTransaction(machine: Machine, tx: Tx, index: int)
      requires attached && index != 0 && (tx.writes <==> index > 0)
      requires index > 0 ==> lastIndex < index
      modifies this, machine
      ensures Value() == AddRequest(old(Value()), tx, index, |machine.applied|)
      ensures machine.applied == old(machine.applied)
    {
      asked := asked + [Request(tx, index)];
      if pending == [] && index < 0 {
        var at := machine.Dispatch(tx, 0);
        Send(Executed(tx, at));
        return;
      }
      if index > 0 {
        assert !(index <= lastIndex);  // "attempted to insert queued request" otherwise
        lastIndex := index;
      }
      pending := pending + [Request(tx, index)];
    }

    /** Execute the request in front, or send the response that is ready. */
    method DispatchFront(machine: Machine, at: int)
      requires pending != [] && |machine.applied| == if IsWrite(pending[0]) then at - 1 else at
      requires IsWrite(pending[0]) ==> pending[0].index == at
      requires pending[0].Request? ==> (pending[0].tx.writes <==> IsWrite(pending[0]))
      modifies this, machine
      ensures Value() == Pop(old(Value()), Reply(old(pending)[0], at))
      ensures machine.applied ==
        if IsWrite(old(pending)[0]) then old(machine.applied) + [old(pending)[0].tx] else old(machine.applied)
    {
      var req := pending[0];
      if req.Ready? {
        Send(Verbatim(req.response));
      } else {
        // even if nobody listens any more: writes must be applied
        var now := machine.Dispatch(req.tx, req.index);
        Send(Executed(req.tx, now));
      }
      pending := pending[1..];
    }

    /** The next blocking index, or -1; the three corruption throws are asserts here. */
    method DispatchPending(machine: Machine, commitIndex: int, ghost logged: int) returns (blocking: int)
      requires commitIndex == |machine.applied| + 1 && Dispatchable(Value(), commitIndex, logged)
      modifies this, machine
      ensures Value() == Dispatched(old(Value()), commitIndex)
      ensures machine.applied == old(machine.applied) + [old(pending)[0].tx]
      ensures blocking == Blocking(Value()) && (blocking == -1 || blocking > commitIndex)
    {
      var found := false;
      ghost var q0 := Value();
      while pending != []
        invariant attached == old(attached) && lastIndex == old(lastIndex) && asked == old(asked)
        invariant machine.applied == if found then old(machine.applied) + [q0.pending[0].tx] else old(machine.applied)
        invariant !found ==> Value() == q0
        invariant found ==> Drain(Value(), commitIndex) == Dispatched(q0, commitIndex)
        invariant found ==> forall i :: 0 <= i < |pending| && IsWrite(pending[i]) ==> commitIndex < pending[i].index
        invariant forall i :: 0 <= i < |pending| && pending[i].Request? ==>
          (pending[i].tx.writes <==> IsWrite(pending[i]))
        decreases |pending|
      {
        var req := pending[0];
        if req.Request? && commitIndex < req.index {
          return req.index;
        }
        if IsWrite(req) {
          assert !found;  // "found entry with positive index twice"
          found := true;
          assert req.index == commitIndex;  // "expected entry with index"
        }
        DispatchFront(machine, commitIndex);
      }
      assert found;  // "entry with index not found"
      blocking := -1;
    }

    method FlushPending(reason: Bytes)
      modifies this
      ensures Value() == Flushed(old(Value()), reason)
    {
      while pending != []
        invariant Flushed(Value(), reason) == Flushed(old(Value()), reason)
        decreases |pending|
      {
        ghost var q := Value();
        var req := pending[0];
        match req {
          case Ready(bytes) => Send(Verbatim(bytes));
          case Request(tx, _) => Send(Refused(tx, reason));
        }
        pending := pending[1..];
        assert Value() == Pop(q, Refusal(req, reason));
      }
      lastIndex := -1;
    }
  }

  class Tracker {
    const machine: Machine
    var journal: seq<Tx>
    var commit: int
    var tracker: map<int, Pending>
    ghost var queues: set<Pending>

    constructor (m: Machine)
      requires m.applied == []
      ensures machine == m && Value() == System(map[], map[], [], 0, [])
    {
      machine, journal, commit, tracker, queues := m, [], 0, map[], {};
    }

    ghost function Value(): System<Pending>
      reads this, machine, queues
    {
      System(map q | q in queues :: q.Value(), tracker, journal, commit, machine.applied)
    }

    ghost predicate Valid()
      reads this, machine, queues
    {
      Inv(Value())
    }

    /** A new connection, with a queue of its own (src/Connection.cc:203-206). */
    method Connect() returns (q: Pending)
      requires Valid()
      modifies this
      ensures Valid() && fresh(q) && queues == old(queues) + {q}
      ensures Value() == old(Value()).(queues := old(Value()).queues[q := FRESH])
    {
      ghost var s := Value();
      q := new Pending();
      assert Value() == s;
      ConnectKeeps(s, q);
      Enter(q);
    }

    ghost method Enter(q: Pending)
      requires q !in queues && q.Value() == FRESH
      modifies `queues
      ensures queues == old(queues) + {q} && Value() == old(Value()).(queues := old(Value()).queues[q := FRESH])
    {
      queues := queues + {q};
    }

    /** popIndex (src/raft/RaftBlockedWrites.cc:28-38). */
    method PopIndex(index: int) returns (q: Pending?)
      modifies `tracker
      ensures q == if index in old(tracker) then old(tracker)[index] else null
      ensures tracker == map i | i in old(tracker) && i != index :: old(tracker)[i]
    {
      if index !in tracker {
        return null;
      }
      q := tracker[index];
      tracker := map i | i in tracker && i != index :: tracker[i];
    }

    /** applySingleCommit (src/raft/RaftWriteTracker.cc:46-70). */
    method ApplySingleCommit(index: int)
      requires index == |machine.applied| + 1 <= |journal| && journal[index - 1].writes
      requires index in tracker ==> tracker[index] in queues && Dispatchable(tracker[index].Value(), index, |journal|)
      modifies `tracker, machine, queues
      ensures FrontFits(old(Value())) && Value() == ApplyNext(old(Value()))
    {
      if index !in tracker {
        assert tracker == map i | i in tracker && i != index :: tracker[i];
      }
      var blocked := PopIndex(index);
      if blocked == null {
        ApplyEntry(index);
      } else {
        ApplyThrough(blocked, index);
      }
    }

    /** Nobody waits for the entry. */
    method ApplyEntry(index: int)
      requires index == |machine.applied| + 1 <= |journal| && journal[index - 1].writes
      modifies machine
      ensures Value() == old(Value()).(applied := old(machine.applied) + [journal[index - 1]])
    {
      var _ := machine.Dispatch(journal[index - 1], index);
    }

    /** The entry is applied by the queue that waits for it. */
    method ApplyThrough(blocked: Pending, index: int)
      requires index == |machine.applied| + 1 <= |journal| && journal[index - 1].writes && index !in tracker
      requires blocked in queues && Dispatchable(blocked.Value(), index, |journal|)
      modifies `tracker, machine, queues
      ensures var s, q := old(Value()), Dispatched(old(blocked.Value()), index);
        && Value().queues == s.queues[blocked := q] && Value().journal == s.journal && Value().commit == s.commit
        && Value().tracker == (if Blocking(q) > 0 then s.tracker[Blocking(q) := blocked] else s.tracker)
        && Value().applied == s.applied + [old(blocked.Value()).pending[0].tx]
    {
      var next := blocked.DispatchPending(machine, index, |journal|);
      if next > 0 {
        assert !(next <= index);  // "blocking index of queue went backwards"
        tracker := tracker[next := blocked];
      }
    }

    /** updatedCommitIndex (src/raft/RaftWriteTracker.cc:72-77): apply all that is committed. */
    method UpdatedCommitIndex()
      requires Valid()
      modifies `tracker, machine, queues
      ensures Valid() && |machine.applied| == commit
      ensures machine.applied == journal[..commit]
      ensures Value() == ApplyAll(old(Value()))
    {
      var index := |machine.applied| + 1;
      while index <= commit
        invariant Valid() && index == |machine.applied| + 1
        invariant ApplyAll(Value()) == ApplyAll(old(Value()))
      {
        ghost var s := Value();
        ApplyReady(s);
        ApplyKeeps(s);
        ApplySingleCommit(index);
        index := index + 1;
      }
    }

    /**
     * append (src/raft/RaftWriteTracker.cc:97-109); the journal may refuse an entry whose term is no longer
     * the current one.
     */
    method Append(index: int, tx: Tx, q: Pending, current: bool) returns (ok: bool)
      requires index == |journal| + 1 && q in queues && q.attached && tx.writes && q.lastIndex < index
      modifies this, machine, q
      ensures queues == old(queues) && ok == current
      ensures Value() == if ok then WriteProtocol.Append(old(Value()), q, tx) else old(Value())
    {
      if !current {
        return false;
      }
      journal := journal + [tx];
      tracker := tracker[index := q];
      q.AddPendingTransaction(machine, tx, index);
      ok := true;
    }

    /**
     * The end of service (src/raft/RaftDispatcher.cc:431-453): a write goes to the end of the journal, or the
     * caller starts over.
     */
    method Service(tx: Tx, q: Pending, current: bool) returns (served: bool)
      requires Valid() && q in queues && q.attached && tx.writes
      modifies this, machine, q
      ensures Valid() && served == current
      ensures Value() == if served then WriteProtocol.Append(old(Value()), q, tx) else old(Value())
    {
      ghost var s := Value();
      AppendKeeps(s, q, tx);
      LastIndexFits(s, q);
      served := Append(|journal| + 1, tx, q, current);
    }

    /** flush (src/raft/RaftBlockedWrites.cc:45-51): a queue is flushed once for each write it waits for. */
    method Flush(reason: Bytes)
      requires forall i :: i in tracker ==> tracker[i] in queues
      modifies `tracker, queues
      ensures Value() == FlushAll(old(Value()), reason)
    {
      var table := tracker;
      FlushEach(table, reason);
      tracker := map[];
    }

    method FlushEach(table: map<int, Pending>, reason: Bytes)
      requires forall i :: i in table ==> table[i] in queues
      modifies queues
      ensures forall q :: q in queues ==>
        q.Value() == if Tracked(table, q) then Flushed(old(q.Value()), reason) else old(q.Value())
    {
      var todo := table.Items;
      ghost var done: set<Pending> := {};
      while todo != {}
        invariant todo <= table.Items
        invariant forall q :: q in done ==> Tracked(table, q)
        invariant forall i :: i in table ==> (i, table[i]) in todo || table[i] in done
        invariant forall q :: q in queues ==>
          q.Value() == if q in done then Flushed(old(q.Value()), reason) else old(q.Value())
        decreases |todo|
      {
        var item :| item in todo;
        var (i, q) := item;
        assert i in table && table[i] == q;
        FlushedTwice(old(q.Value()), reason);
        q.FlushPending(reason);
        done := done + {q};
        todo := todo - {item};
      }
    }

    method ReplaceEntries(reason: Bytes, keep: int, entries: seq<Tx>)
      requires 0 <= keep <= |journal| && forall i :: i in tracker ==> tracker[i] in queues
      modifies this, queues
      ensures Value() == FlushAll(old(Value()), reason).(journal := old(journal)[..keep] + entries)
    {
      Flush(reason);
      journal := journal[..keep] + entries;
    }

    /**
     * appendEntries (src/raft/RaftDispatcher.cc:524-566): every waiting client is redirected, and then, if
     * the entry before the new ones matches, entries are replaced.
     */
    method AppendEntries(reason: Bytes, matching: bool, keep: int, entries: seq<Tx>)
      requires Valid() && (matching ==> commit <= keep <= |journal| && forall t :: t in entries ==> t.writes)
      modifies this, queues
      ensures Valid()
      ensures var flushed := FlushAll(old(Value()), reason);
        Value() == if matching then flushed.(journal := old(journal)[..keep] + entries) else flushed
    {
      FlushKeeps(Value(), reason);
      if matching {
        ReplicateKeeps(Value(), reason, keep, entries);
        ReplaceEntries(reason, keep, entries);
      } else {
        Flush(reason);
      }
    }
  }

  lemma LastIndexFits<Conn>(s: System<Conn>, c: Conn)
    requires Inv(s) && c in s.queues
    ensures s.queues[c].lastIndex <= |s.journal|
  {
    assert Sound(s.queues[c], |s.applied|, |s.journal|);
  }

  lemma {:induction false} FlushedTwice(q: Queue, reason: Bytes)
    ensures Flushed(Flushed(q, reason), reason) == Flushed(q, reason)
    decreases |q.pending|
  {
    if q.pending != [] {
      FlushedTwice(Pop(q, Refusal(q.pending[0], reason)), reason);
    }
  }

  ghost function ApplyAll<Conn>(s: System<Conn>): System<Conn>
    requires Inv(s)
    decreases s.commit - |s.applied|
  {
    if |s.applied| < s.commit then
      FrontFitsNext(s);
      ApplyKeeps(s);
      ApplyAll(ApplyNext(s))
    else s
  }

  lemma ApplyReady<Conn>(s: System<Conn>)
    requires Inv(s) && |s.applied| < s.commit
    ensures FrontFits(s) && s.journal[|s.applied|].writes
    ensures var index := |s.applied| + 1;
      index in s.tracker ==>
        && s.tracker[index] in s.queues
        && Dispatchable(s.queues[s.tracker[index]], index, |s.journal|)
  {
    FrontFitsNext(s);
    assert s.journal[|s.applied|] in s.journal;
  }

  /** What dispatchPending relies on: the committed write is in front, later ones have larger indexes. */
  ghost predicate Dispatchable(q: Queue, index: int, logged: int)
  {
    && Blocking(q) == index && WritesOrdered(q.pending, index - 1, logged)
    && forall i :: 0 <= i < |q.pending| && q.pending[i].Request? ==> (q.pending[i].tx.writes <==> IsWrite(q.pending[i]))
  }
}
