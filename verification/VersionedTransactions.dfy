/**
 * One transaction on a versioned hash: its version rises by at most one, its revision
 * replays to its contents, and the revision numbers never conflict, unless the key is
 * deleted half-way.
 */
module VersionedTransactions {
  import opened Bytes
  import opened StoreModel
  import opened StoreSpec
  import opened StoreRuns

  function Replay(m: map<Field, Bytes>, updates: seq<Update>): map<Field, Bytes>
  {
    if updates == [] then m
    else
      var u := updates[|updates| - 1];
      var r := Replay(m, updates[..|updates| - 1]);
      if u.value == [] then Without(r, u.field) else r[u.field := u.value]
  }

  lemma {:induction false} ReplayTwice(m: map<Field, Bytes>, us: seq<Update>, vs: seq<Update>)
    ensures Replay(m, us + vs) == Replay(Replay(m, us), vs)
  {
    if vs == [] {
      assert us + vs == us;
    } else {
      assert (us + vs)[..|us + vs| - 1] == us + vs[..|vs| - 1];
      ReplayTwice(m, us, vs[..|vs| - 1]);
    }
  }

  lemma {:induction false} ReplayDeletions(m: map<Field, Bytes>, fs: seq<Field>)
    ensures Replay(m, Deletions(fs)) == RemoveAll(m, fs)
  {
    if fs != [] {
      assert Deletions(fs)[..|fs| - 1] == Deletions(fs[..|fs| - 1]);
      ReplayDeletions(m, fs[..|fs| - 1]);
    }
  }

  /** The command leaves the versioned hash at `k` alone or updates it; it never deletes it or writes an empty value. */
  predicate KeepsVersioned(c: Command, k: Key)
  {
    !(c.Del? && k in c.targets) && !c.FlushAll? && (c.Vhset? ==> c.value != [])
  }

  /** What the first versioned command on `k` among the first `n` adds to the version, once there is one. */
  ghost function FirstBump(ss: seq<State>, cs: seq<Command>, k: Key, n: nat): Option<int>
    requires n <= |cs| < |ss|
    decreases n
  {
    if n == 0 then None
    else
      var b := FirstBump(ss, cs, k, n - 1);
      if b.Some? then b else Bump(ss[n - 1], cs[n - 1], k)
  }

  ghost function Bump(s: State, c: Command, k: Key): Option<int>
  {
    if !Versions(s, c, k) then None
    else if c.Vhset? then Some(1)
    else Some(if RemoveAll(EntriesOf(s, k), c.fields) != EntriesOf(s, k) then 1 else 0)
  }

  /** Where the transaction that began in `s0` stands in `s`, as far as `k` is concerned. */
  ghost predicate Progress(s0: State, s: State, k: Key, bump: Option<int>)
  {
    match bump
    case None =>
      && k !in s.touched && k !in s.revisions
      && EntriesOf(s, k) == EntriesOf(s0, k) && VersionOf(s, k) == VersionOf(s0, k)
    case Some(b) =>
      && k in s.touched && k in s.revisions && k in s.keys && s.keys[k].VVersionedHash?
      && VersionOf(s, k) == VersionOf(s0, k) + b
      && s.revisions[k].number == VersionOf(s, k)
      && EntriesOf(s, k) == Replay(EntriesOf(s0, k), s.revisions[k].updates)
  }

  lemma OtherStep(s: State, c: Command, t: State, k: Key)
    requires Stepped(s, c, t) && KeepsVersioned(c, k) && !Versions(s, c, k)
    ensures SameVersioned(s, t, k)
  {
    if IsLeaseOrDeletion(c) {
      LeaseOrDeletionStep(s, c, t, k);
    } else {
      StepFrame(s, c, k);
    }
  }

  lemma LeaseOrDeletionStep(s: State, c: Command, t: State, k: Key)
    requires Stepped(s, c, t) && IsLeaseOrDeletion(c) && KeepsVersioned(c, k)
    ensures SameVersioned(s, t, k)
  {
    if c.Del? {
      DelAllKeeps(s, c.targets, k);
    } else if c.LeaseAcquire? {
      LeaseCommandsFrame(s, k, c.key, c.holder, c.now, c.duration);
    } else {
      LeaseCommandsFrame(s, k, c.key, [], c.now, 0);
    }
  }

  lemma {:induction false} RemoveAllSize(m: map<Field, Bytes>, fs: seq<Field>)
    ensures |RemoveAll(m, fs)| <= |m|
    ensures |RemoveAll(m, fs)| == |m| <==> RemoveAll(m, fs) == m
  {
    if fs != [] { RemoveAllSize(m, fs[..|fs| - 1]); }
  }

  lemma SetStep(s0: State, s: State, k: Key, f: Field, x: Bytes, bump: Option<int>)
    requires !Wrong(s, k, TVersionedHash) && x != [] && Progress(s0, s, k, bump)
    ensures Progress(s0, VhsetSpec(s, k, f, x).state, k, if bump.Some? then bump else Some(1))
  {
    var us := [Update(f, x)];
    ReplayTwice(EntriesOf(s0, k), RevisionOf(s, k).updates, us);
    assert us[..0] == [] && Replay(EntriesOf(s, k), us[..0]) == EntriesOf(s, k);
  }

  lemma DeleteStep(s0: State, s: State, k: Key, fs: seq<Field>, bump: Option<int>)
    requires !Wrong(s, k, TVersionedHash) && Progress(s0, s, k, bump)
    ensures Progress(s0, VhdelSpec(s, k, fs).state, k,
                     if bump.Some? then bump
                       else Some(if RemoveAll(EntriesOf(s, k), fs) != EntriesOf(s, k) then 1 else 0))
  {
    ReplayTwice(EntriesOf(s0, k), RevisionOf(s, k).updates, Deletions(fs));
    ReplayDeletions(EntriesOf(s, k), fs);
    RemoveAllSize(EntriesOf(s, k), fs);
  }

  lemma ProgressStep(s0: State, s: State, c: Command, t: State, k: Key, bump: Option<int>)
    requires Stepped(s, c, t) && KeepsVersioned(c, k) && Progress(s0, s, k, bump)
    ensures Progress(s0, t, k, if bump.Some? then bump else Bump(s, c, k))
  {
    if !Versions(s, c, k) {
      OtherStep(s, c, t, k);
    } else if c.Vhset? {
      SetStep(s0, s, k, c.field, c.value, bump);
    } else {
      DeleteStep(s0, s, k, c.fields, bump);
    }
  }

  lemma ProgressAt(ss: seq<State>, cs: seq<Command>, i: nat, k: Key, bump: Option<int>)
    requires IsRun(ss, cs) && i < |cs| && KeepsVersioned(cs[i], k) && Progress(ss[0], ss[i], k, bump)
    ensures Progress(ss[0], ss[i + 1], k, if bump.Some? then bump else Bump(ss[i], cs[i], k))
  {
    assert StepAt(ss, cs, i);
    ProgressStep(ss[0], ss[i], cs[i], ss[i + 1], k, bump);
  }

  /** The state of the transaction after every prefix of the run. */
  lemma {:induction false} TransactionProgress(ss: seq<State>, cs: seq<Command>, k: Key, n: nat)
    requires IsRun(ss, cs) && n <= |cs|
    requires k !in ss[0].touched && k !in ss[0].revisions
    requires forall i :: 0 <= i < n ==> KeepsVersioned(cs[i], k)
    ensures Progress(ss[0], ss[n], k, FirstBump(ss, cs, k, n))
    decreases n
  {
    if n > 0 {
      TransactionProgress(ss, cs, k, n - 1);
      ProgressAt(ss, cs, n - 1, k, FirstBump(ss, cs, k, n - 1));
    }
  }

  /**
   * One transaction that does not delete the key raises its version by one exactly if its first
   * versioned command there is a vhset or a vhdel that removes something, and by zero otherwise;
   * replaying the recorded updates on the old contents gives the new contents.
   */
  lemma OneVersionPerTransaction(ss: seq<State>, cs: seq<Command>, k: Key)
    requires IsRun(ss, cs) && ss[0].touched == {} && ss[0].revisions == map[]
    requires forall i :: 0 <= i < |cs| ==> KeepsVersioned(cs[i], k)
    ensures var s, t := ss[0], ss[|cs|];
            && VersionOf(t, k) == VersionOf(s, k) + (if FirstBump(ss, cs, k, |cs|) == Some(1) then 1 else 0)
            && EntriesOf(t, k) == Replay(EntriesOf(s, k), RevisionOf(t, k).updates)
            && (k in t.revisions <==> FirstBump(ss, cs, k, |cs|).Some?)
            && (k in t.revisions ==> t.revisions[k].number == VersionOf(t, k))
  {
    TransactionProgress(ss, cs, k, |cs|);
    BumpIsZeroOrOne(ss, cs, k, |cs|);
  }

  lemma {:induction false} BumpIsZeroOrOne(ss: seq<State>, cs: seq<Command>, k: Key, n: nat)
    requires n <= |cs| < |ss|
    ensures FirstBump(ss, cs, k, n) in {None, Some(0), Some(1)}
  {
    if n > 0 { BumpIsZeroOrOne(ss, cs, k, n - 1); }
  }

  // ---------------------------------------------------------------- revision numbers

  /**
   * A recorded revision carries the version of its hash, as long as the hash stays in the batch; once
   * it was deleted, there is no hash until the transaction writes one again.
   */
  ghost predicate RevisionFits(s: State, k: Key)
  {
    k in s.revisions ==>
      if k in s.touched then s.revisions[k].number in {0, VersionOf(s, k)}
      else !(k in s.keys && s.keys[k].VVersionedHash?)
  }

  /** The transaction has recorded a revision and then deleted the hash. */
  predicate Orphaned(s: State, k: Key)
  {
    k in s.revisions && k !in s.touched
  }

  /**
   * Exactly when the assert in setRevisionNumber holds: a new hash starts at 1 with VHSET, and stays at 0
   * with VHDEL.
   */
  lemma RevisionAssert(s: State, k: Key, fs: seq<Field>)
    requires RevisionFits(s, k)
    ensures Numbered(RevisionOf(s, k), VhsetVersion(s, k)) <==> !Orphaned(s, k) || s.revisions[k].number in {0, 1}
    ensures Numbered(RevisionOf(s, k), VhdelVersion(s, k, fs)) <==> !Orphaned(s, k) || s.revisions[k].number == 0
  {
    RemoveAllSize(EntriesOf(s, k), fs);
  }

  lemma RevisionStaysFit(s: State, c: Command, t: State, k: Key)
    requires Stepped(s, c, t) && RevisionFits(s, k)
    ensures RevisionFits(t, k)
  {
    if c.Del? {
      DelAllKeeps(s, c.targets, k);
    } else if !c.FlushAll? && !Versions(s, c, k) {
      if IsLeaseOrDeletion(c) {
        LeaseOrDeletionStep(s, c, t, k);
      } else {
        StepFrame(s, c, k);
      }
    }
  }

  /** The same after any commands of the transaction, DEL and FLUSHALL included. */
  lemma {:induction false} RevisionAssertInRun(ss: seq<State>, cs: seq<Command>, n: nat, k: Key, fs: seq<Field>)
    requires IsRun(ss, cs) && n <= |cs| && ss[0].revisions == map[]
    ensures RevisionFits(ss[n], k)
    ensures Numbered(RevisionOf(ss[n], k), VhsetVersion(ss[n], k))
      <==> !Orphaned(ss[n], k) || ss[n].revisions[k].number in {0, 1}
    ensures Numbered(RevisionOf(ss[n], k), VhdelVersion(ss[n], k, fs))
      <==> !Orphaned(ss[n], k) || ss[n].revisions[k].number == 0
  {
    if n > 0 {
      RevisionAssertInRun(ss, cs, n - 1, k, fs);
      assert StepAt(ss, cs, n - 1);
      RevisionStaysFit(ss[n - 1], cs[n - 1], ss[n], k);
    }
    RevisionAssert(ss[n], k, fs);
  }

  /** What deletes a hash while a revision of it is recorded. */
  predicate Deletes(c: Command, k: Key)
  {
    c.FlushAll? || (c.Del? && k in c.targets)
  }

  /** Over a transaction that deletes no hash whose revision is recorded, the assert never fires. */
  lemma {:induction false} NoConflictInRun(ss: seq<State>, cs: seq<Command>, n: nat, k: Key, fs: seq<Field>)
    requires IsRun(ss, cs) && n <= |cs| && ss[0].revisions == map[]
    requires forall i :: 0 <= i < n && Deletes(cs[i], k) ==> k !in ss[i].revisions
    ensures !Orphaned(ss[n], k)
    ensures Numbered(RevisionOf(ss[n], k), VhsetVersion(ss[n], k))
    ensures Numbered(RevisionOf(ss[n], k), VhdelVersion(ss[n], k, fs))
  {
    if n > 0 {
      NoConflictInRun(ss, cs, n - 1, k, fs);
      assert StepAt(ss, cs, n - 1);
      var s, c, t := ss[n - 1], cs[n - 1], ss[n];
      if c.Del? {
        DelAllKeeps(s, c.targets, k);
      } else if !c.FlushAll? && !Versions(s, c, k) {
        if IsLeaseOrDeletion(c) {
          LeaseOrDeletionStep(s, c, t, k);
        } else {
          StepFrame(s, c, k);
        }
      }
    }
    RevisionAssertInRun(ss, cs, n, k, fs);
  }

  /**
   * Deleting a hash whose revision is recorded, by DEL or FLUSHALL, leaves room for a VHSET exactly if
   * the recorded number is 0 or 1, and for a VHDEL exactly if it is 0.
   */
  lemma DeletedThenVersioned(s: State, k: Key, c: Command, fs: seq<Field>)
    requires RevisionFits(s, k) && k in s.revisions && Deletes(c, k)
    ensures Admissible(s, c)
    ensures var t := Step(s, c).state;
      && (Numbered(RevisionOf(t, k), VhsetVersion(t, k)) <==> s.revisions[k].number in {0, 1})
      && (Numbered(RevisionOf(t, k), VhdelVersion(t, k, fs)) <==> s.revisions[k].number == 0)
  {
    var t := Step(s, c).state;
    if c.Del? {
      DelAllKeeps(s, c.targets, k);
    }
    RevisionAssert(t, k, fs);
  }

  /** A transaction that trips the assert: VHSET, DEL, VHSET on a hash at version 1. */
  lemma SetAfterDeletion(k: Key, f: Field, x: Bytes)
    ensures
      var s := State(map[k := VVersionedHash(map[f := x], 1)], 0, 0, {}, map[]);
      !Admissible(DelSpec(VhsetSpec(s, k, f, x).state, [k]).state, Vhset(k, f, x))
  {
    var s := VhsetSpec(State(map[k := VVersionedHash(map[f := x], 1)], 0, 0, {}, map[]), k, f, x).state;
    DelAllKeeps(s, [k], k);
    assert k in [k];
    DeletedThenVersioned(s, k, Del([k]), [f]);
  }

  /** Two more, on a new hash: VHSET, then DEL or FLUSHALL, then VHDEL. */
  lemma DeleteAfterDeletion(k: Key, f: Field, x: Bytes)
    ensures
      var s := VhsetSpec(State(map[], 0, 0, {}, map[]), k, f, x).state;
      && !Admissible(DelSpec(s, [k]).state, Vhdel(k, [f]))
      && !Admissible(FlushAllSpec(s).state, Vhdel(k, [f]))
  {
    var s := VhsetSpec(State(map[], 0, 0, {}, map[]), k, f, x).state;
    DelAllKeeps(s, [k], k);
    assert k in [k];
    DeletedThenVersioned(s, k, Del([k]), [f]);
    DeletedThenVersioned(s, k, FlushAll, [f]);
  }
}
