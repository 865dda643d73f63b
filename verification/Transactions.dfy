/**
 * A transaction from the journal (src/Dispatcher.cc:120-146): all its commands on one staging
 * area, then one commit. What the object does is a run, and its life a history, as the theorems
 * about runs and histories have them.
 */
module Transactions {
  import opened Bytes
  import opened StoreModel
  import opened StoreSpec
  import opened StoreRuns
  import opened StoreOperations
  import opened StoreHistories
  import opened Names
  import opened Collisions
  import opened StateMachine

  /** Each command is admissible, and its records are apart, in the state that the ones before it leave. */
  ghost predicate AllAdmissible(s: State, cs: seq<Command>)
    decreases |cs|
  {
    cs == [] || (Admissible(s, cs[0]) && NamesApart(s, cs[0]) && AllAdmissible(Step(s, cs[0]).state, cs[1..]))
  }

  /**
   * Unless a command throws, the store that the transaction leaves is what the run of its commands leads
   * to; if one throws, those before it were run, and the database is as before.
   */
  method Execute(store: Store, cs: seq<Command>, index: int)
    returns (replies: seq<Reply>, ok: bool, threw: bool, ghost ss: seq<State>)
    requires store.Valid() && AllAdmissible(store.state, cs)
    modifies store
    ensures Ran(old(store.state), cs, |replies|, ss, replies)
    ensures threw <==> |replies| < |cs|
    ensures threw ==> Throws(ss[|replies|], cs[|replies|])
    ensures !ok ==> store.rows == old(store.rows) && store.db == old(store.db)
    ensures !threw ==> store.Valid() && ok == Accepts(old(store.state), index)
    ensures !threw ==> store.state == if ok then CommitSpec(ss[|cs|], index) else ss[|cs|]
  {
    ok := false;
    replies, threw, ss := ExecuteAll(store, cs);
    if !threw {
      ok := store.Commit(index);
    }
  }

  /** The commands one by one, until one throws. */
  method ExecuteAll(store: Store, cs: seq<Command>) returns (replies: seq<Reply>, threw: bool, ghost ss: seq<State>)
    requires store.Valid() && AllAdmissible(store.state, cs)
    modifies store
    ensures Ran(old(store.state), cs, |replies|, ss, replies)
    ensures threw <==> |replies| < |cs|
    ensures threw ==> Throws(ss[|replies|], cs[|replies|])
    ensures store.rows == old(store.rows) && store.db == old(store.db)
    ensures !threw ==> store.Valid() && store.state == ss[|cs|]
    ensures !threw ==> store.state.lastApplied == old(store.state).lastApplied
  {
    replies, threw, ss := [], false, [store.state];
    ghost var s0 := store.state;
    var i := 0;
    while i < |cs|
      invariant 0 <= i <= |cs| && |replies| == i && store.Valid() && AllAdmissible(store.state, cs[i..])
      invariant store.rows == old(store.rows) && store.db == old(store.db)
      invariant Ran(s0, cs, i, ss, replies) && ss[i] == store.state
      invariant store.state.lastApplied == s0.lastApplied
    {
      assert cs[i..][0] == cs[i] && cs[i..][1..] == cs[i + 1..];
      ghost var s := store.state;
      var r;
      r, threw := store.Dispatch(cs[i]);
      if threw { return; }
      ClockStep(s, cs[i], store.state);
      RanMore(s0, cs, i, ss, replies, store.state, r);
      replies, ss := replies + [r], ss + [store.state];
      i := i + 1;
    }
  }

  /** The first `n` commands have been run from `s`, through the states `ss`. */
  ghost predicate Ran(s: State, cs: seq<Command>, n: nat, ss: seq<State>, replies: seq<Reply>)
  {
    && n <= |cs| && IsRun(ss, cs[..n]) && ss[0] == s
    && |replies| == n && forall i :: 0 <= i < n ==> Replied(ss[i], cs[i], replies[i])
  }

  lemma RanMore(s: State, cs: seq<Command>, n: nat, ss: seq<State>, replies: seq<Reply>, t: State, r: Reply)
    requires n < |cs| && Ran(s, cs, n, ss, replies) && Stepped(ss[n], cs[n], t) && Replied(ss[n], cs[n], r)
    ensures Ran(s, cs, n + 1, ss + [t], replies + [r])
  {
    var ts, ds := ss + [t], cs[..n + 1];
    forall i | 0 <= i < |ds| ensures StepAt(ts, ds, i) {
      if i < n { assert StepAt(ss, cs[..n], i); }
    }
  }

  ghost predicate Replied(s: State, c: Command, r: Reply)
  {
    Admissible(s, c) && Step(s, c).reply == r
  }

  // ---------------------------------------------------------------- histories

  /** The database holds what was committed last. */
  ghost predicate Stores(store: Store, stored: State)
    reads store
  {
    && Linked(store.rows, map[], store.db, map[]) && Represents(store.db, map[], stored) && WellFormed(stored)
    && stored.touched == {} && stored.revisions == map[]
  }

  ghost predicate Mirrors(store: Store, m: Moment)
    reads store
  {
    store.Valid() && store.state == m.now && Stores(store, m.stored)
  }

  /** A new store is at the beginning of all histories. */
  method Create() returns (store: Store)
    ensures fresh(store) && Mirrors(store, Moment(NEW_STORE, NEW_STORE))
  {
    store := new Store();
    NewIsLinked();
  }

  /** The command touches a record that shares its name with another: the history ends there. */
  predicate Shares(s: State, e: Event)
  {
    e.Cmd? && !NamesApart(s, e.command)
  }

  ghost predicate Fails(s: State, e: Event)
  {
    match e case Cmd(c) => Throws(s, c) case Committed(index) => !Accepts(s, index) case Restarted => false
  }

  /**
   * The object goes through a history event by event. Whatever happens, the database still holds what was
   * committed, so that a restart can follow.
   */
  method Perform(store: Store, e: Event, ghost m: Moment) returns (threw: bool, ghost n: Moment)
    requires if e.Restarted? then Stores(store, m.stored) else Mirrors(store, m)
    requires e.Cmd? ==> Admissible(m.now, e.command)
    modifies store
    ensures !Shares(m.now, e) ==> (threw <==> Fails(m.now, e))
    ensures if threw || Shares(m.now, e) then Stores(store, m.stored) else Happens(m, e, n) && Mirrors(store, n)
  {
    threw, n := false, m;
    match e
    case Cmd(c) =>
      var r;
      r, threw := store.Dispatch(c);
      n := Moment(m.stored, store.state);
    case Committed(index) =>
      var ok := store.Commit(index);
      threw := !ok;
      n := Moment(store.state, store.state);
    case Restarted =>
      store.Reopen(m.stored);
      n := Moment(m.stored, m.stored);
  }
}
