/**
 * The life of a store: commands of one transaction after the other, commits, and restarts of the
 * process, which lose what was not committed. Leases exclude each other, and the stored clock
 * never goes back, over all of it.
 */
module StoreHistories {
  import opened Bytes
  import opened StoreModel
  import opened StoreSpec
  import opened StoreRuns

  datatype Event = Cmd(command: Command) | Committed(index: int) | Restarted

  /** What a new process would find in the database, and what the running one sees. */
  datatype Moment = Moment(stored: State, now: State)

  /** commitTransaction takes only the next index (src/StateMachine.cc:2065-2072). */
  predicate Accepts(s: State, index: int)
  {
    if index <= 0 then s.lastApplied <= 0 else index == s.lastApplied + 1
  }

  ghost predicate Happens(m: Moment, e: Event, n: Moment)
  {
    match e
    case Cmd(c) => Stepped(m.now, c, n.now) && n.stored == m.stored
    case Committed(index) => Accepts(m.now, index) && n.now == CommitSpec(m.now, index) && n.stored == n.now
    case Restarted => n == Moment(m.stored, m.stored)
  }

  ghost predicate HappensAt(ms: seq<Moment>, es: seq<Event>, i: int)
    requires 0 <= i < |es| < |ms|
  {
    Happens(ms[i], es[i], ms[i + 1])
  }

  ghost predicate IsHistory(ms: seq<Moment>, es: seq<Event>)
  {
    |ms| == |es| + 1 && forall i {:trigger HappensAt(ms, es, i)} :: 0 <= i < |es| ==> HappensAt(ms, es, i)
  }

  // ---------------------------------------------------------------- leases

  /** The hold ends: by a command that frees the key, or by a restart before it was committed. */
  ghost predicate Ends(m: Moment, e: Event, n: Moment, k: Key, holder: Bytes)
  {
    match e
    case Cmd(c) => Frees(m.now, c, n.now, k)
    case Committed(_) => false
    case Restarted => !Holds(m.stored, k, holder)
  }

  lemma HoldHappens(m: Moment, e: Event, n: Moment, k: Key, holder: Bytes)
    requires Happens(m, e, n) && Holds(m.now, k, holder) && !Ends(m, e, n, k, holder)
    ensures Holds(n.now, k, holder)
    ensures Holds(m.stored, k, holder) || e.Committed? ==> Holds(n.stored, k, holder)
  {
    if e.Cmd? {
      HoldStep(m.now, e.command, n.now, k, holder);
    }
  }

  /** While nothing ends the hold, the holder keeps it, through any number of transactions. */
  lemma {:induction false} HoldHistory(ms: seq<Moment>, es: seq<Event>, m: nat, n: nat, k: Key, holder: Bytes)
    requires IsHistory(ms, es) && m <= n <= |es| && Holds(ms[m].now, k, holder)
    requires forall i :: m <= i < n ==> !Ends(ms[i], es[i], ms[i + 1], k, holder)
    ensures Holds(ms[n].now, k, holder)
    decreases n - m
  {
    if m < n {
      HoldHistory(ms, es, m, n - 1, k, holder);
      assert HappensAt(ms, es, n - 1);
      HoldHappens(ms[n - 1], es[n - 1], ms[n], k, holder);
    }
  }

  /** Once it is committed, no restart ends it: only a command that frees the key does. */
  lemma {:induction false} CommittedHold(ms: seq<Moment>, es: seq<Event>, m: nat, n: nat, k: Key, holder: Bytes)
    requires IsHistory(ms, es) && m <= n <= |es| && Holds(ms[m].now, k, holder) && Holds(ms[m].stored, k, holder)
    requires forall i :: m <= i < n && es[i].Cmd? ==> !Frees(ms[i].now, es[i].command, ms[i + 1].now, k)
    ensures Holds(ms[n].now, k, holder) && Holds(ms[n].stored, k, holder)
    decreases n - m
  {
    if m < n {
      CommittedHold(ms, es, m, n - 1, k, holder);
      assert HappensAt(ms, es, n - 1);
      HoldHappens(ms[n - 1], es[n - 1], ms[n], k, holder);
    }
  }

  /** Another holder asks for the lease, and is not turned away. */
  predicate TakesOver(s: State, c: Command, k: Key, holder: Bytes)
  {
    c.LeaseAcquire? && c.key == k && c.holder != holder && Admissible(s, c) && !Step(s, c).reply.LeaseHeld?
  }

  /**
   * Mutual exclusion over whole histories, with any commands and any timestamps, in one transaction or
   * many: if another holder's acquire is not turned away, the hold was ended by that very command or
   * before it.
   */
  lemma TakeoverNeedsFreeing(ms: seq<Moment>, es: seq<Event>, m: nat, n: nat, k: Key, holder: Bytes)
    requires IsHistory(ms, es) && m <= n < |es| && Holds(ms[m].now, k, holder)
    requires es[n].Cmd? && TakesOver(ms[n].now, es[n].command, k, holder)
    ensures exists i :: m <= i <= n && Ends(ms[i], es[i], ms[i + 1], k, holder)
  {
    if forall i :: m <= i <= n ==> !Ends(ms[i], es[i], ms[i + 1], k, holder) {
      HoldHistory(ms, es, m, n + 1, k, holder);
      assert HappensAt(ms, es, n);
      var c := es[n].command;
      AcquireOutcome(ms[n].now, k, c.holder, c.now, c.duration, holder);
    }
  }

  /**
   * The same for a hold that was committed: somewhere the key was released, deleted or flushed, or its
   * deadline was reached.
   */
  lemma CommittedTakeover(ms: seq<Moment>, es: seq<Event>, m: nat, n: nat, k: Key, holder: Bytes)
    requires IsHistory(ms, es) && m <= n < |es| && Holds(ms[m].now, k, holder) && Holds(ms[m].stored, k, holder)
    requires es[n].Cmd? && TakesOver(ms[n].now, es[n].command, k, holder)
    ensures exists i :: m <= i <= n && es[i].Cmd? && Frees(ms[i].now, es[i].command, ms[i + 1].now, k)
  {
    if forall i :: m <= i <= n && es[i].Cmd? ==> !Frees(ms[i].now, es[i].command, ms[i + 1].now, k) {
      CommittedHold(ms, es, m, n + 1, k, holder);
      assert HappensAt(ms, es, n);
      var c := es[n].command;
      AcquireOutcome(ms[n].now, k, c.holder, c.now, c.duration, holder);
    }
  }

  // ---------------------------------------------------------------- how long a lease lasts

  /** `k` is under this very lease. */
  predicate Leased(s: State, k: Key, holder: Bytes, from: int, until: int)
  {
    k in s.keys && s.keys[k] == VLease(holder, from, until)
  }

  /** The holder asks again, or anybody releases, deletes or flushes the key. */
  predicate Touches(c: Command, k: Key, holder: Bytes)
  {
    || (c.LeaseAcquire? && c.key == k && c.holder == holder)
    || (c.LeaseRelease? && c.key == k)
    || (c.Del? && k in c.targets)
    || c.FlushAll?
  }

  /** The lease is cut short or renewed: by such a command, or by a restart before it was committed. */
  ghost predicate Cuts(m: Moment, e: Event, k: Key, holder: Bytes, from: int, until: int)
  {
    match e
    case Cmd(c) => Touches(c, k, holder)
    case Committed(_) => false
    case Restarted => !LeasedUntil(m.stored, k, holder, from, until)
  }

  /** `k` is under this very lease unless its deadline has passed. */
  predicate LeasedUntil(s: State, k: Key, holder: Bytes, from: int, until: int)
  {
    s.clock < until ==> Leased(s, k, holder, from, until)
  }

  /** One command: while the clock has not reached the deadline, the lease stays to the letter. */
  lemma LeaseStep(s: State, c: Command, t: State, k: Key, holder: Bytes, from: int, until: int)
    requires Stepped(s, c, t) && !Touches(c, k, holder) && t.clock < until && Leased(s, k, holder, from, until)
    ensures Leased(t, k, holder, from, until)
  {
    if c.Del? {
      DelAllKeeps(s, c.targets, k);
    } else if !IsLeaseOrDeletion(c) {
      StepFrame(s, c, k);
    }
  }

  lemma {:induction false} LeaseHistory(
    ms: seq<Moment>, es: seq<Event>, m: nat, n: nat, k: Key, holder: Bytes, from: int, until: int)
    requires IsHistory(ms, es) && m <= n <= |es| && LeasedUntil(ms[m].now, k, holder, from, until)
    requires forall i :: m <= i < n ==> !Cuts(ms[i], es[i], k, holder, from, until)
    ensures LeasedUntil(ms[n].now, k, holder, from, until)
    decreases n - m
  {
    if m < n && ms[n].now.clock < until {
      LeaseHistory(ms, es, m, n - 1, k, holder, from, until);
      assert HappensAt(ms, es, n - 1);
      if es[n - 1].Cmd? {
        ClockStep(ms[n - 1].now, es[n - 1].command, ms[n].now);
        LeaseStep(ms[n - 1].now, es[n - 1].command, ms[n].now, k, holder, from, until);
      }
    }
  }

  /** Once a lease is committed, no restart cuts it. */
  lemma {:induction false} CommittedLease(
    ms: seq<Moment>, es: seq<Event>, m: nat, n: nat, k: Key, holder: Bytes, from: int, until: int)
    requires IsHistory(ms, es) && m <= n <= |es|
    requires LeasedUntil(ms[m].now, k, holder, from, until) && LeasedUntil(ms[m].stored, k, holder, from, until)
    requires forall i :: m <= i < n && es[i].Cmd? ==> !Touches(es[i].command, k, holder)
    ensures LeasedUntil(ms[n].now, k, holder, from, until) && LeasedUntil(ms[n].stored, k, holder, from, until)
    ensures forall i :: m <= i < n ==> !Cuts(ms[i], es[i], k, holder, from, until)
    decreases n - m
  {
    if m < n {
      CommittedLease(ms, es, m, n - 1, k, holder, from, until);
      LeaseHistory(ms, es, n - 1, n, k, holder, from, until);
      assert HappensAt(ms, es, n - 1);
    }
  }

  /** A store stays well-formed through its whole life. */
  lemma {:induction false} HistoryFits(ms: seq<Moment>, es: seq<Event>, m: nat, n: nat)
    requires IsHistory(ms, es) && m <= n <= |es| && WellFormed(ms[m].now) && WellFormed(ms[m].stored)
    ensures WellFormed(ms[n].now) && WellFormed(ms[n].stored)
    decreases n - m
  {
    if m < n {
      HistoryFits(ms, es, m, n - 1);
      assert HappensAt(ms, es, n - 1);
      if es[n - 1].Cmd? {
        StepFits(ms[n - 1].now, es[n - 1].command);
      }
    }
  }

  /** The command is answered like this. */
  ghost predicate Answered(s: State, c: Command, r: Reply)
  {
    Admissible(s, c) && Step(s, c).reply == r
  }

  predicate Granted(r: Reply)
  {
    r.LeaseAcquired? || r.LeaseRenewed?
  }

  /**
   * Mutual exclusion until `from + duration`. The holder acquires or renews a lease by event `m`, when the
   * time is `from`. As long as nothing cuts the lease, another holder who asks by event `n` is turned away,
   * with the terms of that lease, exactly if the time has not reached `from + duration` by then; if the
   * clock has not, but the asker brings it there, it gets the lease for the duration it asked.
   */
  lemma ExclusiveUntilDeadline(ms: seq<Moment>, es: seq<Event>, m: nat, n: nat, k: Key,
    holder: Bytes, now: int, duration: int, granted: Reply, other: Bytes, later: int, wanted: int, r: Reply)
    requires IsHistory(ms, es) && m < n < |es| && WellFormed(ms[m].now) && WellFormed(ms[m].stored)
    requires es[m] == Cmd(LeaseAcquire(k, holder, now, duration)) && Granted(granted)
    requires Answered(ms[m].now, es[m].command, granted)
    requires es[n] == Cmd(LeaseAcquire(k, other, later, wanted)) && other != holder
    requires Answered(ms[n].now, es[n].command, r)
    requires var from := Later(ms[m].now, now);
      forall i :: m < i < n ==> !Cuts(ms[i], es[i], k, holder, from, from + duration)
    ensures var from := Later(ms[m].now, now);
      && granted.info == LeaseInfo(holder, from, from + duration)
      && (r == LeaseHeld(LeaseInfo(holder, from, from + duration)) <==> Later(ms[n].now, later) < from + duration)
      && (ms[n].now.clock < from + duration <= later ==> r == LeaseAcquired(LeaseInfo(other, later, later + wanted)))
  {
    var from := Later(ms[m].now, now);
    assert HappensAt(ms, es, m) && HappensAt(ms, es, n);
    LeaseTerms(ms[m].now, k, holder, now, duration);
    HistoryFits(ms, es, m, n);
    LeaseHistory(ms, es, m + 1, n, k, holder, from, from + duration);
    LeaseTerms(ms[n].now, k, other, later, wanted);
    if k in ms[n].now.keys { assert WellFormedValue(ms[n].now.keys[k], ms[n].now.clock); }
  }

  /** The same lease, committed by event `j`: after that, restarts do not matter either. */
  lemma CommittedUntilDeadline(ms: seq<Moment>, es: seq<Event>, m: nat, j: nat, n: nat, k: Key,
    holder: Bytes, now: int, duration: int, granted: Reply, other: Bytes, later: int, wanted: int, r: Reply)
    requires IsHistory(ms, es) && m < j < n < |es| && WellFormed(ms[m].now) && WellFormed(ms[m].stored)
    requires es[m] == Cmd(LeaseAcquire(k, holder, now, duration)) && Granted(granted)
    requires Answered(ms[m].now, es[m].command, granted)
    requires es[n] == Cmd(LeaseAcquire(k, other, later, wanted)) && other != holder
    requires Answered(ms[n].now, es[n].command, r)
    requires forall i :: m < i < n && es[i].Cmd? ==> !Touches(es[i].command, k, holder)
    requires es[j].Committed? && forall i :: m < i < j ==> !es[i].Restarted?
    ensures var from := Later(ms[m].now, now);
      && (r == LeaseHeld(LeaseInfo(holder, from, from + duration)) <==> Later(ms[n].now, later) < from + duration)
      && (ms[n].now.clock < from + duration <= later ==> r == LeaseAcquired(LeaseInfo(other, later, later + wanted)))
  {
    var from := Later(ms[m].now, now);
    assert HappensAt(ms, es, m) && HappensAt(ms, es, j);
    LeaseTerms(ms[m].now, k, holder, now, duration);
    LeaseHistory(ms, es, m + 1, j, k, holder, from, from + duration);
    CommittedLease(ms, es, j + 1, n, k, holder, from, from + duration);
    ExclusiveUntilDeadline(ms, es, m, n, k, holder, now, duration, granted, other, later, wanted, r);
  }

  // ---------------------------------------------------------------- the clock and the journal index

  /** Neither the stored clock nor the stored journal index goes back, and the running process is never behind them. */
  lemma {:induction false} ClockHistory(ms: seq<Moment>, es: seq<Event>, m: nat, n: nat)
    requires IsHistory(ms, es) && m <= n <= |es|
    requires ms[m].stored.clock <= ms[m].now.clock && ms[m].stored.lastApplied == ms[m].now.lastApplied
    ensures ms[m].stored.clock <= ms[n].stored.clock <= ms[n].now.clock
    ensures ms[m].stored.lastApplied <= ms[n].stored.lastApplied == ms[n].now.lastApplied
    decreases n - m
  {
    if m < n {
      ClockHistory(ms, es, m, n - 1);
      assert HappensAt(ms, es, n - 1);
      if es[n - 1].Cmd? {
        ClockStep(ms[n - 1].now, es[n - 1].command, ms[n].now);
      }
    }
  }

  /** While the process runs, its own clock does not go back either. */
  lemma {:induction false} ClockRun(ms: seq<Moment>, es: seq<Event>, m: nat, n: nat)
    requires IsHistory(ms, es) && m <= n <= |es|
    requires forall i :: m <= i < n ==> !es[i].Restarted?
    ensures ms[m].now.clock <= ms[n].now.clock
    decreases n - m
  {
    if m < n {
      ClockRun(ms, es, m, n - 1);
      assert HappensAt(ms, es, n - 1);
      if es[n - 1].Cmd? {
        ClockStep(ms[n - 1].now, es[n - 1].command, ms[n].now);
      }
    }
  }

  /** How many entries of the journal were committed between two moments. */
  function Entries(es: seq<Event>, m: nat, n: nat): nat
    requires m <= n <= |es|
    decreases n
  {
    if m == n then 0 else Entries(es, m, n - 1) + if es[n - 1].Committed? && es[n - 1].index > 0 then 1 else 0
  }

  /**
   * The journal is applied without a gap or a repetition, restarts or not: the last applied index grows by one
   * with every entry, and the entry committed next carries exactly the next number.
   */
  lemma {:induction false} NoGapNoRepetition(ms: seq<Moment>, es: seq<Event>, m: nat, n: nat)
    requires IsHistory(ms, es) && m <= n <= |es| && ms[m].stored.lastApplied == ms[m].now.lastApplied
    ensures ms[n].stored.lastApplied == ms[n].now.lastApplied == ms[m].stored.lastApplied + Entries(es, m, n)
    ensures n < |es| && es[n].Committed? && es[n].index > 0 ==>
      es[n].index == ms[m].stored.lastApplied + Entries(es, m, n) + 1
    decreases n
  {
    if m < n {
      NoGapNoRepetition(ms, es, m, n - 1);
      assert HappensAt(ms, es, n - 1);
      if es[n - 1].Cmd? {
        ClockStep(ms[n - 1].now, es[n - 1].command, ms[n].now);
      }
    }
    if n < |es| { assert HappensAt(ms, es, n); }
  }
}
