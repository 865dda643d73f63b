/**
 * Runs of commands on the abstract store, which the state machine refines command by command
 * (StateMachine.Store.Dispatch): what a command leaves alone, and what it does to leases.
 */
module StoreRuns {
  import opened Bytes
  import opened StoreModel
  import opened StoreSpec
  import opened StoreOperations

  // ---------------------------------------------------------------- runs

  ghost predicate Stepped(s: State, c: Command, t: State)
  {
    Admissible(s, c) && Step(s, c).state == t
  }

  /** A run: the states before, between and after the commands. */
  ghost predicate IsRun(ss: seq<State>, cs: seq<Command>)
  {
    |ss| == |cs| + 1 && forall i {:trigger StepAt(ss, cs, i)} :: 0 <= i < |cs| ==> StepAt(ss, cs, i)
  }

  ghost predicate StepAt(ss: seq<State>, cs: seq<Command>, i: int)
    requires 0 <= i < |cs| < |ss|
  {
    Stepped(ss[i], cs[i], ss[i + 1])
  }

  // ---------------------------------------------------------------- frames

  /** Between `s` and `t` nothing happened to a lease, nor to a versioned hash and its transaction, at `k`. */
  ghost predicate Undisturbed(s: State, t: State, k: Key)
  {
    SameLease(s, t, k) && SameVersioned(s, t, k)
  }

  ghost predicate SameLease(s: State, t: State, k: Key)
  {
    k in s.keys && s.keys[k].VLease? ==> k in t.keys && t.keys[k] == s.keys[k]
  }

  ghost predicate SameVersioned(s: State, t: State, k: Key)
  {
    && (k in t.touched <==> k in s.touched)
    && RevisionOf(t, k) == RevisionOf(s, k) && (k in t.revisions <==> k in s.revisions)
    && (k in t.keys && t.keys[k].VVersionedHash? <==> k in s.keys && s.keys[k].VVersionedHash?)
    && (k in s.keys && s.keys[k].VVersionedHash? ==> t.keys[k] == s.keys[k])
  }

  /** Commands check the type of each key they write, so they leave values of other types as they are. */
  lemma WithFrame(s: State, k: Key, j: Key, v: Value)
    requires !v.VLease? && !v.VVersionedHash? && !Wrong(s, j, TypeOf(v))
    ensures Undisturbed(s, With(s, j, v), k)
  {
  }

  lemma Transitive(s: State, t: State, u: State, k: Key)
    requires Undisturbed(s, t, k) && Undisturbed(t, u, k)
    ensures Undisturbed(s, u, k)
  {
  }

  lemma HashCommandsFrame(s: State, k: Key, j: Key, f: Field, fs: seq<Field>, x: Bytes, kvs: seq<Update>)
    ensures Undisturbed(s, HsetSpec(s, j, f, x).state, k)
    ensures Undisturbed(s, HsetnxSpec(s, j, f, x).state, k)
    ensures Undisturbed(s, HmsetSpec(s, j, kvs).state, k)
    ensures Undisturbed(s, HdelSpec(s, j, fs).state, k)
    ensures Undisturbed(s, HcloneSpec(s, x, j).state, k)
  {
    if !Wrong(s, j, THash) {
      WithFrame(s, k, j, VHash(HashOf(s, j)[f := x]));
      WithFrame(s, k, j, VHash(PutAll(HashOf(s, j), kvs)));
      WithFrame(s, k, j, VHash(RemoveAll(HashOf(s, j), fs)));
      WithFrame(s, k, j, VHash(HashOf(s, x)));
    }
  }

  lemma StringAndSetCommandsFrame(s: State, k: Key, j: Key, x: Bytes, fs: seq<Field>)
    ensures Undisturbed(s, SetSpec(s, j, x).state, k)
    ensures Undisturbed(s, SaddSpec(s, j, fs).state, k)
    ensures Undisturbed(s, SremSpec(s, j, fs).state, k)
  {
    if !Wrong(s, j, TString) { WithFrame(s, k, j, VString(x)); }
    if !Wrong(s, j, TSet) {
      WithFrame(s, k, j, VSet(AddAll(SetOf(s, j), fs)));
      WithFrame(s, k, j, VSet(DropAll(SetOf(s, j), fs)));
    }
  }

  lemma SmoveFrame(s: State, k: Key, i: Key, j: Key, f: Field)
    ensures Undisturbed(s, SmoveSpec(s, i, j, f).state, k)
  {
    if !Wrong(s, i, TSet) && !Wrong(s, j, TSet) && f in SetOf(s, i) {
      var s1 := With(s, i, VSet(SetOf(s, i) - {f}));
      WithFrame(s, k, i, VSet(SetOf(s, i) - {f}));
      WithFrame(s1, k, j, VSet(SetOf(s1, j) + {f}));
      Transitive(s, s1, SmoveSpec(s, i, j, f).state, k);
    }
  }

  lemma LocalityCommandsFrame(s: State, k: Key, j: Key, f: Field, h: Hint, x: Bytes, fs: seq<Field>, ps: seq<Placement>)
    ensures Undisturbed(s, LhsetSpec(s, j, f, h, x).state, k)
    ensures Undisturbed(s, LhmsetSpec(s, j, ps).state, k)
    ensures Undisturbed(s, LhdelSpec(s, j, fs).state, k)
  {
    if !Wrong(s, j, TLocalityHash) {
      WithFrame(s, k, j, VLocalityHash(LocatedOf(s, j)[f := Located(h, x)]));
      WithFrame(s, k, j, VLocalityHash(PlaceAll(LocatedOf(s, j), ps)));
      WithFrame(s, k, j, VLocalityHash(RemoveAll(LocatedOf(s, j), fs)));
    }
  }

  lemma MigrationCommandsFrame(s: State, k: Key, i: Key, j: Key, f: Field, h: Hint, x: Bytes)
    ensures Undisturbed(s, LhlocdelSpec(s, j, f, h).state, k)
    ensures Undisturbed(s, LhsetAndDelFallbackSpec(s, j, f, h, x, i).state, k)
    ensures Undisturbed(s, LhdelWithFallbackSpec(s, j, f, i).state, k)
  {
    LocalityCommandsFrame(s, k, j, f, h, x, [f], []);
    var s1, s2 := LhsetSpec(s, j, f, h, x).state, LhdelSpec(s, j, [f]).state;
    HashCommandsFrame(s1, k, i, f, [f], x, []);
    HashCommandsFrame(s2, k, i, f, [f], x, []);
    Transitive(s, s1, HdelSpec(s1, i, [f]).state, k);
    Transitive(s, s2, HdelSpec(s2, i, [f]).state, k);
  }

  lemma ConvertFrame(s: State, k: Key, i: Key, j: Key, f: Field, g: Field, h: Hint)
    ensures Undisturbed(s, ConvertHashFieldSpec(s, i, f, j, g, h).state, k)
  {
    var r := HgetSpec(s, i, f);
    if !LhgetSpec(s, j, g).Bulk? && r.Bulk? {
      var s1 := LhsetSpec(s, j, g, h, r.value).state;
      LocalityCommandsFrame(s, k, j, g, h, r.value, [f], []);
      HashCommandsFrame(s1, k, i, f, [f], r.value, []);
      Transitive(s, s1, HdelSpec(s1, i, [f]).state, k);
    }
  }

  lemma DequeCommandsFrame(s: State, k: Key, d: Direction, j: Key, xs: seq<Bytes>, n: nat)
    ensures Undisturbed(s, DequePushSpec(s, d, j, xs).state, k)
    ensures Undisturbed(s, DequePopSpec(s, d, j).state, k)
    ensures Undisturbed(s, DequeTrimFrontSpec(s, j, n).state, k)
  {
    if !Wrong(s, j, TDeque) {
      var items, start := ItemsOf(s, j), StartFor(s, j, d);
      WithFrame(s, k, j, PushAll(d, VDeque(items, start), xs));
      if items != [] {
        WithFrame(s, k, j, VDeque(items[1..], start + 1));
        WithFrame(s, k, j, VDeque(items[..|items| - 1], start));
        if n < |items| { WithFrame(s, k, j, VDeque(items[|items| - n..], StartFor(s, j, Left) + |items| - n)); }
      }
    }
  }

  lemma VersionedCommandsFrame(s: State, k: Key, j: Key, f: Field, fs: seq<Field>, x: Bytes)
    ensures SameLease(s, VhsetSpec(s, j, f, x).state, k)
    ensures SameLease(s, VhdelSpec(s, j, fs).state, k)
    ensures j != k || Wrong(s, k, TVersionedHash) ==> SameVersioned(s, VhsetSpec(s, j, f, x).state, k)
    ensures j != k || Wrong(s, k, TVersionedHash) ==> SameVersioned(s, VhdelSpec(s, j, fs).state, k)
  {
  }

  lemma AdvanceFrame(s: State, k: Key, now: int)
    ensures SameVersioned(s, Advance(s, now), k)
  {
  }

  lemma LeaseCommandsFrame(s: State, k: Key, j: Key, holder: Bytes, now: int, d: int)
    ensures SameVersioned(s, LeaseAcquireSpec(s, j, holder, now, d).state, k)
    ensures SameVersioned(s, LeaseGetSpec(s, j, now).state, k)
    ensures SameVersioned(s, LeaseReleaseSpec(s, j, now).state, k)
  {
    AdvanceFrame(s, k, now);
  }

  predicate IsLeaseOrDeletion(c: Command)
  {
    c.LeaseAcquire? || c.LeaseGet? || c.LeaseRelease? || c.Del? || c.FlushAll?
  }

  /** The versioned commands that get past their type check at `k`. */
  predicate Versions(s: State, c: Command, k: Key)
  {
    (c.Vhset? || c.Vhdel?) && c.key == k && !Wrong(s, k, TVersionedHash)
  }

  lemma StepFrame(s: State, c: Command, k: Key)
    requires Admissible(s, c) && !IsLeaseOrDeletion(c)
    ensures SameLease(s, Step(s, c).state, k)
    ensures !Versions(s, c, k) ==> SameVersioned(s, Step(s, c).state, k)
  {
    match c
    case Set(j, x) => StringAndSetCommandsFrame(s, k, j, x, []);
    case Hset(j, f, x) => HashCommandsFrame(s, k, j, f, [], x, []);
    case Hmset(j, kvs) => HashCommandsFrame(s, k, j, [], [], [], kvs);
    case Hsetnx(j, f, x) => HashCommandsFrame(s, k, j, f, [], x, []);
    case Hdel(j, fs) => HashCommandsFrame(s, k, j, [], fs, [], []);
    case Hclone(i, j) => HashCommandsFrame(s, k, j, [], [], i, []);
    case Sadd(j, fs) => StringAndSetCommandsFrame(s, k, j, [], fs);
    case Srem(j, fs) => StringAndSetCommandsFrame(s, k, j, [], fs);
    case Smove(i, j, f) => SmoveFrame(s, k, i, j, f);
    case Lhset(j, f, h, x) => LocalityCommandsFrame(s, k, j, f, h, x, [], []);
    case Lhmset(j, ps) => LocalityCommandsFrame(s, k, j, [], [], [], [], ps);
    case Lhdel(j, fs) => LocalityCommandsFrame(s, k, j, [], [], [], fs, []);
    case Lhlocdel(j, f, h) => MigrationCommandsFrame(s, k, j, j, f, h, []);
    case LhsetAndDelFallback(j, f, h, x, i) => MigrationCommandsFrame(s, k, i, j, f, h, x);
    case LhdelWithFallback(j, f, i) => MigrationCommandsFrame(s, k, i, j, f, [], []);
    case ConvertHashField(i, f, j, g, h) => ConvertFrame(s, k, i, j, f, g, h);
    case DequePush(d, j, xs) => DequeCommandsFrame(s, k, d, j, xs, 0);
    case DequePop(d, j) => DequeCommandsFrame(s, k, d, j, [], 0);
    case DequeTrimFront(j, n) => DequeCommandsFrame(s, k, Left, j, [], n);
    case Vhset(j, f, x) => VersionedCommandsFrame(s, k, j, f, [], x);
    case Vhdel(j, fs) => VersionedCommandsFrame(s, k, j, [], fs, []);
  }

  lemma {:induction false} DelAllKeeps(s: State, ks: seq<Key>, k: Key)
    ensures DelAll(s, ks).clock == s.clock && DelAll(s, ks).revisions == s.revisions
    ensures DelAll(s, ks).lastApplied == s.lastApplied
    ensures k in DelAll(s, ks).touched <==> k in s.touched && k !in ks
    ensures k in DelAll(s, ks).keys <==> k in s.keys && k !in ks
    ensures k in DelAll(s, ks).keys ==> DelAll(s, ks).keys[k] == s.keys[k]
  {
    if ks != [] {
      DelAllKeeps(s, ks[..|ks| - 1], k);
      assert ks == ks[..|ks| - 1] + [ks[|ks| - 1]];
    }
  }

  // ---------------------------------------------------------------- well-formed stores

  lemma WithFits(s: State, k: Key, v: Value)
    requires WellFormed(s) && (Empty(v) || WellFormedValue(v, s.clock))
    ensures WellFormed(With(s, k, v))
  {
  }

  lemma HashCommandsFit(s: State, k: Key, f: Field, fs: seq<Field>, x: Bytes, kvs: seq<Update>)
    requires WellFormed(s)
    ensures WellFormed(HsetSpec(s, k, f, x).state) && WellFormed(HsetnxSpec(s, k, f, x).state)
    ensures WellFormed(HmsetSpec(s, k, kvs).state) && WellFormed(HdelSpec(s, k, fs).state)
    ensures WellFormed(HcloneSpec(s, x, k).state)
  {
    WithFits(s, k, VHash(HashOf(s, k)[f := x]));
    WithFits(s, k, VHash(PutAll(HashOf(s, k), kvs)));
    WithFits(s, k, VHash(RemoveAll(HashOf(s, k), fs)));
    WithFits(s, k, VHash(HashOf(s, x)));
  }

  lemma SetCommandsFit(s: State, k: Key, fs: seq<Field>)
    requires WellFormed(s)
    ensures WellFormed(SaddSpec(s, k, fs).state) && WellFormed(SremSpec(s, k, fs).state)
  {
    WithFits(s, k, VSet(AddAll(SetOf(s, k), fs)));
    WithFits(s, k, VSet(DropAll(SetOf(s, k), fs)));
  }

  lemma SmoveFits(s: State, j: Key, k: Key, f: Field)
    requires WellFormed(s)
    ensures WellFormed(SmoveSpec(s, j, k, f).state)
  {
    WithFits(s, j, VSet(SetOf(s, j) - {f}));
    var s1 := With(s, j, VSet(SetOf(s, j) - {f}));
    WithFits(s1, k, VSet(SetOf(s1, k) + {f}));
  }

  lemma LocalityCommandsFit(s: State, k: Key, f: Field, h: Hint, x: Bytes, fs: seq<Field>, ps: seq<Placement>)
    requires WellFormed(s)
    ensures WellFormed(LhsetSpec(s, k, f, h, x).state) && WellFormed(LhmsetSpec(s, k, ps).state)
    ensures WellFormed(LhdelSpec(s, k, fs).state) && WellFormed(LhlocdelSpec(s, k, f, h).state)
  {
    WithFits(s, k, VLocalityHash(LocatedOf(s, k)[f := Located(h, x)]));
    WithFits(s, k, VLocalityHash(PlaceAll(LocatedOf(s, k), ps)));
    WithFits(s, k, VLocalityHash(RemoveAll(LocatedOf(s, k), fs)));
    WithFits(s, k, VLocalityHash(RemoveAll(LocatedOf(s, k), [f])));
  }

  lemma MigrationCommandsFit(s: State, k: Key, f: Field, h: Hint, x: Bytes, j: Key, g: Field)
    requires WellFormed(s)
    ensures WellFormed(LhsetAndDelFallbackSpec(s, k, f, h, x, j).state)
    ensures WellFormed(LhdelWithFallbackSpec(s, k, f, j).state)
    ensures WellFormed(ConvertHashFieldSpec(s, j, f, k, g, h).state)
  {
    LocalityCommandsFit(s, k, f, h, x, [f], []);
    HashCommandsFit(LhsetSpec(s, k, f, h, x).state, j, f, [f], x, []);
    HashCommandsFit(LhdelSpec(s, k, [f]).state, j, f, [f], x, []);
    var r := HgetSpec(s, j, f);
    if r.Bulk? {
      LocalityCommandsFit(s, k, g, h, r.value, [], []);
      HashCommandsFit(LhsetSpec(s, k, g, h, r.value).state, j, f, [f], [], []);
    }
  }

  lemma PushFits(s: State, d: Direction, k: Key, xs: seq<Bytes>)
    requires WellFormed(s) && Admissible(s, DequePush(d, k, xs))
    ensures WellFormed(DequePushSpec(s, d, k, xs).state)
  {
    if k in s.keys { assert WellFormedValue(s.keys[k], s.clock); }
    if !Wrong(s, k, TDeque) {
      var v := VDeque(ItemsOf(s, k), StartFor(s, k, d));
      PushAllIsConcatenation(d, v, xs);
      ReversedSize(xs);
      WithFits(s, k, PushAll(d, v, xs));
    }
  }

  lemma {:induction false} ReversedSize(xs: seq<Bytes>)
    ensures |Reversed(xs)| == |xs|
  {
    if xs != [] { ReversedSize(xs[..|xs| - 1]); }
  }

  lemma PopFits(s: State, d: Direction, k: Key, n: nat)
    requires WellFormed(s)
    ensures WellFormed(DequePopSpec(s, d, k).state) && WellFormed(DequeTrimFrontSpec(s, k, n).state)
  {
    if k in s.keys && s.keys[k].VDeque? {
      assert WellFormedValue(s.keys[k], s.clock);
      var items, start := s.keys[k].items, s.keys[k].start;
      WithFits(s, k, VDeque(items[1..], start + 1));
      WithFits(s, k, VDeque(items[..|items| - 1], start));
      if n < |items| { WithFits(s, k, VDeque(items[|items| - n..], start + |items| - n)); }
      if n == 0 { WithFits(s, k, VDeque([], start + |items|)); }
    }
  }

  lemma VersionedCommandsFit(s: State, k: Key, f: Field, x: Bytes, fs: seq<Field>)
    requires WellFormed(s)
    ensures WellFormed(VhsetSpec(s, k, f, x).state) && WellFormed(VhdelSpec(s, k, fs).state)
  {
    if k in s.keys { assert WellFormedValue(s.keys[k], s.clock); }
  }

  lemma AdvanceFits(s: State, now: int)
    requires WellFormed(s)
    ensures WellFormed(Advance(s, now))
  {
    forall k | k in Advance(s, now).keys ensures WellFormedValue(Advance(s, now).keys[k], Advance(s, now).clock) {
      assert WellFormedValue(s.keys[k], s.clock);
    }
  }

  lemma LeaseCommandsFit(s: State, c: Command)
    requires WellFormed(s) && Admissible(s, c) && (c.LeaseAcquire? || c.LeaseGet? || c.LeaseRelease?)
    ensures WellFormed(Step(s, c).state)
  {
    AdvanceFits(s, c.now);
    var a := Advance(s, c.now);
    if c.LeaseAcquire? {
      WithFits(a, c.key, VLease(c.holder, a.clock, a.clock + c.duration));
    }
  }

  lemma {:induction false} DelAllFits(s: State, ks: seq<Key>)
    requires WellFormed(s)
    ensures WellFormed(DelAll(s, ks))
  {
    if ks != [] { DelAllFits(s, ks[..|ks| - 1]); }
  }

  predicate IsLocality(c: Command)
  {
    || c.Lhset? || c.Lhmset? || c.Lhdel? || c.Lhlocdel?
    || c.LhsetAndDelFallback? || c.LhdelWithFallback? || c.ConvertHashField?
  }

  lemma LocalityStepFits(s: State, c: Command)
    requires WellFormed(s) && Admissible(s, c) && IsLocality(c)
    ensures WellFormed(Step(s, c).state)
  {
    match c
    case Lhset(k, f, h, x) => LocalityCommandsFit(s, k, f, h, x, [], []);
    case Lhmset(k, ps) => LocalityCommandsFit(s, k, [], [], [], [], ps);
    case Lhdel(k, fs) => LocalityCommandsFit(s, k, [], [], [], fs, []);
    case Lhlocdel(k, f, h) => LocalityCommandsFit(s, k, f, h, [], [], []);
    case LhsetAndDelFallback(k, f, h, x, j) => MigrationCommandsFit(s, k, f, h, x, j, f);
    case LhdelWithFallback(k, f, j) => MigrationCommandsFit(s, k, f, [], [], j, f);
    case ConvertHashField(j, f, k, g, h) => MigrationCommandsFit(s, k, f, h, [], j, g);
  }

  /** No command makes an empty collection, an expired lease or an index out of range. */
  lemma StepFits(s: State, c: Command)
    requires WellFormed(s) && Admissible(s, c)
    ensures WellFormed(Step(s, c).state)
  {
    if IsLocality(c) {
      LocalityStepFits(s, c);
    } else if c.LeaseAcquire? || c.LeaseGet? || c.LeaseRelease? {
      LeaseCommandsFit(s, c);
    } else {
      OtherStepFits(s, c);
    }
  }

  lemma OtherStepFits(s: State, c: Command)
    requires WellFormed(s) && Admissible(s, c) && !IsLocality(c)
    requires !c.LeaseAcquire? && !c.LeaseGet? && !c.LeaseRelease?
    ensures WellFormed(Step(s, c).state)
  {
    match c
    case Set(k, x) => WithFits(s, k, VString(x));
    case Hset(k, f, x) => HashCommandsFit(s, k, f, [], x, []);
    case Hmset(k, kvs) => HashCommandsFit(s, k, [], [], [], kvs);
    case Hsetnx(k, f, x) => HashCommandsFit(s, k, f, [], x, []);
    case Hdel(k, fs) => HashCommandsFit(s, k, [], fs, [], []);
    case Hclone(j, k) => HashCommandsFit(s, k, [], [], j, []);
    case Sadd(k, fs) => SetCommandsFit(s, k, fs);
    case Srem(k, fs) => SetCommandsFit(s, k, fs);
    case Smove(j, k, f) => SmoveFits(s, j, k, f);
    case DequePush(d, k, xs) => PushFits(s, d, k, xs);
    case DequePop(d, k) => PopFits(s, d, k, 0);
    case DequeTrimFront(k, n) => PopFits(s, Left, k, n);
    case Vhset(k, f, x) => VersionedCommandsFit(s, k, f, x, []);
    case Vhdel(k, fs) => VersionedCommandsFit(s, k, [], [], fs);
    case Del(ks) => DelAllFits(s, ks);
    case FlushAll =>
  }

  // ---------------------------------------------------------------- leases

  predicate Holds(s: State, k: Key, holder: Bytes)
  {
    k in s.keys && s.keys[k].VLease? && s.keys[k].holder == holder
  }

  /** The command, which led from `s` to `t`, ended the hold on `k`: a release, a deletion, a flush, or the deadline. */
  ghost predicate Frees(s: State, c: Command, t: State, k: Key)
  {
    || (c.LeaseRelease? && c.key == k)
    || (c.Del? && k in c.targets)
    || c.FlushAll?
    || (k in s.keys && s.keys[k].VLease? && s.keys[k].until <= t.clock)
  }

  /** The clock never goes back, whatever timestamp the command brings; the last applied index stays. */
  lemma ClockStep(s: State, c: Command, t: State)
    requires Stepped(s, c, t)
    ensures s.clock <= t.clock && s.lastApplied == t.lastApplied
  {
    if c.Del? {
      DelAllKeeps(s, c.targets, []);
    } else if c.LeaseAcquire? || c.LeaseGet? || c.LeaseRelease? {
      LeaseClockStep(s, c, t);
    } else if c.LhsetAndDelFallback? || c.LhdelWithFallback? || c.ConvertHashField? {
      MigrationClockStep(s, c, t);
    } else {
      PlainClockStep(s, c, t);
    }
  }

  lemma LeaseClockStep(s: State, c: Command, t: State)
    requires Stepped(s, c, t) && (c.LeaseAcquire? || c.LeaseGet? || c.LeaseRelease?)
    ensures s.clock <= t.clock && s.lastApplied == t.lastApplied
  {
  }

  lemma MigrationClockStep(s: State, c: Command, t: State)
    requires Stepped(s, c, t) && (c.LhsetAndDelFallback? || c.LhdelWithFallback? || c.ConvertHashField?)
    ensures s.clock == t.clock && s.lastApplied == t.lastApplied
  {
  }

  lemma PlainClockStep(s: State, c: Command, t: State)
    requires Stepped(s, c, t) && !(c.LeaseAcquire? || c.LeaseGet? || c.LeaseRelease? || c.Del?)
    requires !(c.LhsetAndDelFallback? || c.LhdelWithFallback? || c.ConvertHashField?)
    ensures s.clock == t.clock && s.lastApplied == t.lastApplied
  {
  }

  /** No command of another kind, and no other holder, can take or change a live lease. */
  lemma HoldStep(s: State, c: Command, t: State, k: Key, holder: Bytes)
    requires Stepped(s, c, t) && Holds(s, k, holder) && !Frees(s, c, t, k)
    ensures Holds(t, k, holder)
  {
    if c.Del? {
      DelAllKeeps(s, c.targets, k);
    } else if !IsLeaseOrDeletion(c) {
      StepFrame(s, c, k);
    }
  }

  lemma AcquireOutcome(s: State, k: Key, other: Bytes, now: int, duration: int, holder: Bytes)
    requires other != holder && Holds(LeaseAcquireSpec(s, k, other, now, duration).state, k, holder)
    ensures LeaseAcquireSpec(s, k, other, now, duration).reply.LeaseHeld?
  {
  }

  /** Exactly when a competitor is turned away: while the clock it brings stays before the deadline. */
  lemma CompetitorRefused(s: State, k: Key, holder: Bytes, other: Bytes, now: int, duration: int)
    requires WellFormed(s) && Holds(s, k, holder) && other != holder
    requires Admissible(s, LeaseAcquire(k, other, now, duration))
    ensures Step(s, LeaseAcquire(k, other, now, duration)).reply == LeaseHeld(InfoOf(s.keys[k])) <==>
      now < s.keys[k].until
    ensures Step(s, LeaseAcquire(k, other, now, duration)).reply.LeaseAcquired? <==> s.keys[k].until <= now
  {
    assert WellFormedValue(s.keys[k], s.clock);
  }

  /** What a command brings as time: the larger of its timestamp and the clock. */
  function Later(s: State, now: int): int
  {
    if s.clock < now then now else s.clock
  }

  /** At time `c`, somebody else's lease on `k` still runs. */
  predicate HeldByOther(s: State, k: Key, holder: Bytes, c: int)
  {
    k in s.keys && s.keys[k].VLease? && s.keys[k].holder != holder && c < s.keys[k].until
  }

  /**
   * The terms of a lease. It is granted, or renewed, exactly if the key is of no other type and under nobody
   * else's lease; it then runs from the time of the command for as long as was asked, and the reply says so.
   * Otherwise the key stays as it was, and a refusal names the lease in the way.
   */
  lemma LeaseTerms(s: State, k: Key, holder: Bytes, now: int, duration: int)
    requires WellFormed(s) && Admissible(s, LeaseAcquire(k, holder, now, duration))
    ensures var o, c := Step(s, LeaseAcquire(k, holder, now, duration)), Later(s, now);
      if k in s.keys && !s.keys[k].VLease? then o.reply == WrongType && o.state.keys[k] == s.keys[k]
      else if HeldByOther(s, k, holder, c) then
        o.reply == LeaseHeld(LeaseInfo(s.keys[k].holder, s.keys[k].from, s.keys[k].until)) && SameLease(s, o.state, k)
      else
        && k in o.state.keys && o.state.keys[k] == VLease(holder, c, c + duration)
        && o.reply == if k in s.keys && c < s.keys[k].until then LeaseRenewed(LeaseInfo(holder, c, c + duration))
          else LeaseAcquired(LeaseInfo(holder, c, c + duration))
    ensures Step(s, LeaseAcquire(k, holder, now, duration)).state.clock == Later(s, now)
  {
    if k in s.keys { assert WellFormedValue(s.keys[k], s.clock); }
  }

  lemma LeaseElsewhere(s: State, k: Key, holder: Bytes, now: int, duration: int)
    requires WellFormed(s) && Admissible(s, LeaseAcquire(k, holder, now, duration))
    ensures OnlyExpired(s, Step(s, LeaseAcquire(k, holder, now, duration)).state, k, Later(s, now))
  {
    if s.clock >= now { NoneExpired(s, k); }
  }

  /** From `s` to `t` all keys but `k` kept their values, but leases with a deadline up to `c`, which are gone. */
  ghost predicate OnlyExpired(s: State, t: State, k: Key, c: int)
  {
    && t.lastApplied == s.lastApplied && t.touched == s.touched && t.revisions == s.revisions
    && (forall j :: j != k ==> (j in t.keys <==> j in s.keys && !(s.keys[j].VLease? && s.keys[j].until <= c)))
    && (forall j :: j != k && j in t.keys ==> t.keys[j] == s.keys[j])
  }

  lemma NoneExpired(s: State, k: Key)
    requires WellFormed(s)
    ensures OnlyExpired(s, s, k, s.clock)
  {
    forall j | j in s.keys && s.keys[j].VLease? ensures s.clock < s.keys[j].until {
      assert WellFormedValue(s.keys[j], s.clock);
    }
  }

  /** LEASE_GET shows a lease exactly while it runs, as it was granted. */
  lemma LeaseShownTerms(s: State, k: Key, now: int)
    requires WellFormed(s) && 0 <= now
    ensures var o, c := Step(s, LeaseGet(k, now)), Later(s, now);
      && o.state.clock == c
      && o.reply == (if k !in s.keys || (s.keys[k].VLease? && s.keys[k].until <= c) then NotFound
         else if !s.keys[k].VLease? then WrongType
         else LeaseShown(LeaseInfo(s.keys[k].holder, s.keys[k].from, s.keys[k].until)))
    ensures OnlyExpired(s, Step(s, LeaseGet(k, now)).state, k, Later(s, now))
    ensures k in Step(s, LeaseGet(k, now)).state.keys <==>
      k in s.keys && !(s.keys[k].VLease? && s.keys[k].until <= Later(s, now))
  {
    if k in s.keys { assert WellFormedValue(s.keys[k], s.clock); }
    if s.clock >= now { NoneExpired(s, k); }
  }

  /** A release removes a lease that still runs, whoever holds it, and nothing else but what the clock lets expire. */
  lemma LeaseReleased(s: State, k: Key, now: int)
    requires WellFormed(s) && 0 <= now
    ensures var o, c := Step(s, LeaseRelease(k, now)), Later(s, now);
      && o.state.clock == c
      && (if k in s.keys && !s.keys[k].VLease? then
           o.reply == WrongType && k in o.state.keys && o.state.keys[k] == s.keys[k]
         else k !in o.state.keys && o.reply == if k in s.keys && c < s.keys[k].until then Ok else NotFound)
    ensures OnlyExpired(s, Step(s, LeaseRelease(k, now)).state, k, Later(s, now))
  {
    if k in s.keys { assert WellFormedValue(s.keys[k], s.clock); }
    if s.clock >= now { NoneExpired(s, k); }
  }

  /** Cache, stored events and live leases describe the same pairs, all of them in the future. */
  lemma CacheEventsLeases(db: Database, batch: Batch, cache: set<(int, Key)>, s: State, d: int, k: Key)
    requires Consistent(db, batch, cache, s)
    ensures (d, k) in cache <==> Lookup(db, batch, At(k, ExpirationEvent(d))).Some?
    ensures (d, k) in cache <==> k in s.keys && s.keys[k].VLease? && s.keys[k].until == d
    ensures (d, k) in cache ==> Lookup(db, batch, Clock) == Some(Number(s.clock)) && s.clock < d
  {
    assert Lookup(db, batch, At(k, ExpirationEvent(d))) == Encode(s, At(k, ExpirationEvent(d)));
    assert Lookup(db, batch, Clock) == Encode(s, Clock);
    if (d, k) in cache { assert WellFormedValue(s.keys[k], s.clock); }
  }
}
