/**
 * The loop of hclone (src/StateMachine.cc:1491-1506): an iterator under the prefix of the source, over
 * database and batch, while the loop writes to the batch. If source and target are twins, it can come
 * upon its own copies, and then it may never end.
 */
module Cloning {
  import opened Bytes
  import opened ByteOrder
  import opened StoreModel
  import opened StoreSpec
  import opened StoreOperations
  import opened KeyLocators
  import opened Names
  import opened Sweeps
  import opened Collisions

  function SourcePrefix(source: Key): Bytes
  {
    PrefixBytes(Entries(THash, source))
  }

  function NamesUnder(rows: Rows, pending: Pending, source: Key): set<Bytes>
  {
    SweptNames(rows, pending, SourcePrefix(source))
  }

  lemma NameOfField(k: Key, f: Field)
    ensures LocatorBytes(EntryOf(k, THash, f)) == SourcePrefix(k) + f
  {
    assert Escaped(k, f) == Escaped(k, []) + f;
  }

  // ---------------------------------------------------------------- from name to name

  /** The copy of what is stored under name `n` lies ahead of it, under the prefix of the source. */
  ghost predicate ChasedName(rows: Rows, pending: Pending, source: Key, target: Key, n: Bytes)
  {
    n in NamesUnder(rows, pending, source) &&
    var copy := LocatorBytes(EntryOf(target, THash, n[|SourcePrefix(source)|..]));
    SourcePrefix(source) <= copy && Before(n, copy)
  }

  /**
   * The names in `done` have been visited, in order; the iterator stands on the first of the others, or
   * behind them all; and there, nothing has changed.
   */
  ghost predicate Ahead(
    rows: Rows, pending0: Pending, pending: Pending, source: Key, done: set<Bytes>, iter: Option<Bytes>)
  {
    var names, inside := NamesUnder(rows, pending0, source), iter.Some? && SourcePrefix(source) <= iter.value;
    && done <= names
    && (forall n :: n in names && n !in done ==> inside && !Before(n, iter.value))
    && (inside ==> iter.value in names && iter.value !in done)
    && (forall d :: inside && d in done ==> Before(d, iter.value))
    && (forall n :: inside && SourcePrefix(source) <= n && !Before(n, iter.value) ==>
      ReadName(rows, pending, n) == ReadName(rows, pending0, n))
  }

  lemma UnderPrefix(source: Key, n: Bytes)
    requires SourcePrefix(source) <= n
    ensures !Hidden(n)
  {
    assert n[0] == SourcePrefix(source)[0] == 98;
  }

  lemma {:induction false} NothingBeforePrefix(p: Bytes, n: Bytes)
    requires p <= n
    ensures !Before(n, p)
  {
    if p != [] {
      assert p[1..] <= n[1..];
      NothingBeforePrefix(p[1..], n[1..]);
    }
  }

  lemma {:induction false} FromPrefix(p: Bytes, m: Bytes, n: Bytes)
    requires p <= n && !Before(m, p) && Before(m, n)
    ensures p <= m
  {
    if p != [] {
      assert p[1..] <= n[1..];
      FromPrefix(p[1..], m[1..], n[1..]);
      assert m == [m[0]] + m[1..] && p == [p[0]] + p[1..];
    }
  }

  lemma SeekAhead(rows: Rows, pending: Pending, source: Key, iter: Option<Bytes>)
    requires StandsAt(iter, NotBefore(rows, pending, SourcePrefix(source)))
    ensures Ahead(rows, pending, pending, source, {}, iter)
  {
    var p := SourcePrefix(source);
    forall n | n in NamesUnder(rows, pending, source)
      ensures iter.Some? && p <= iter.value && !Before(n, iter.value)
    {
      NothingBeforePrefix(p, n);
      assert n in NotBefore(rows, pending, p);
      BeforeTotal(n, iter.value);
      if Before(iter.value, n) { FromPrefix(p, iter.value, n); }
    }
    if iter.Some? && p <= iter.value { UnderPrefix(source, iter.value); }
  }

  /** What is left lies behind the record just copied, and the copy is not part of it. */
  lemma RestIsBehind(rows: Rows, pending0: Pending, pending1: Pending, pending: Pending, source: Key,
                     done: set<Bytes>, n0: Bytes, copy: Bytes, next: Option<Bytes>, n: Bytes)
    requires Ahead(rows, pending0, pending1, source, done, Some(n0)) && SourcePrefix(source) <= n0
    requires exists r :: pending == pending1[copy := Put(r)]
    requires !(SourcePrefix(source) <= copy && Before(n0, copy))
    requires StandsAt(next, Behind(rows, pending, n0))
    requires n in NamesUnder(rows, pending0, source) && n !in done && n != n0
    ensures next.Some? && SourcePrefix(source) <= next.value && !Before(n, next.value)
  {
    BeforeTotal(n, n0);
    assert Before(n0, n) && n != copy;
    assert n in Behind(rows, pending, n0);
    BeforeTotal(n, next.value);
    if Before(next.value, n) { PrefixBetween(SourcePrefix(source), n0, next.value, n); }
  }

  lemma NextIsNew(rows: Rows, pending0: Pending, pending1: Pending, pending: Pending, source: Key,
                  done: set<Bytes>, n0: Bytes, copy: Bytes, n: Bytes)
    requires Ahead(rows, pending0, pending1, source, done, Some(n0)) && SourcePrefix(source) <= n0
    requires exists r :: pending == pending1[copy := Put(r)]
    requires !(SourcePrefix(source) <= copy && Before(n0, copy))
    requires Before(n0, n) && SourcePrefix(source) <= n
    ensures ReadName(rows, pending, n) == ReadName(rows, pending0, n) && n !in done && n != n0
    ensures forall d :: d in done + {n0} ==> Before(d, n)
  {
    BeforeIrreflexive(n);
    assert !Before(n, n0) by { if Before(n, n0) { BeforeTransitive(n, n0, n); } }
    forall d | d in done + {n0} ensures Before(d, n) {
      if d != n0 { BeforeTransitive(d, n0, n); }
    }
  }

  lemma NextAhead(rows: Rows, pending0: Pending, pending1: Pending, pending: Pending, source: Key,
                  done: set<Bytes>, n0: Bytes, copy: Bytes, next: Option<Bytes>)
    requires Ahead(rows, pending0, pending1, source, done, Some(n0)) && SourcePrefix(source) <= n0
    requires exists r :: pending == pending1[copy := Put(r)]
    requires !(SourcePrefix(source) <= copy && Before(n0, copy))
    requires StandsAt(next, Behind(rows, pending, n0))
    ensures Ahead(rows, pending0, pending, source, done + {n0}, next)
  {
    var p, names := SourcePrefix(source), NamesUnder(rows, pending0, source);
    forall n | n in names && n !in done + {n0} ensures next.Some? && p <= next.value && !Before(n, next.value) {
      RestIsBehind(rows, pending0, pending1, pending, source, done, n0, copy, next, n);
    }
    if next.Some? && p <= next.value {
      UnderPrefix(source, next.value);
      NextIsNew(rows, pending0, pending1, pending, source, done, n0, copy, next.value);
      forall n | p <= n && !Before(n, next.value) ensures ReadName(rows, pending, n) == ReadName(rows, pending0, n) {
        BeforeTotal(n, next.value);
        if n != next.value { BeforeTransitive(n0, next.value, n); }
        NextIsNew(rows, pending0, pending1, pending, source, done, n0, copy, n);
      }
    }
  }

  lemma OneLess(all: set<Bytes>, done: set<Bytes>, n: Bytes)
    requires n in all && n !in done
    ensures |all - (done + {n})| == |all - done| - 1 && |done + {n}| == |done| + 1
  {
    assert all - (done + {n}) == (all - done) - {n};
  }

  // ---------------------------------------------------------------- from field to field

  /** What is found under the prefix are the fields of `m`. */
  ghost predicate NamesOfFields(rows: Rows, pending: Pending, source: Key, m: map<Field, Bytes>)
  {
    && (forall f {:trigger m[f]} :: f in m ==> SourcePrefix(source) + f in NamesUnder(rows, pending, source))
    && (forall n {:trigger n in NamesUnder(rows, pending, source)} :: n in NamesUnder(rows, pending, source) ==>
      IsFieldName(rows, pending, source, m, n))
  }

  ghost predicate IsFieldName(rows: Rows, pending: Pending, source: Key, m: map<Field, Bytes>, n: Bytes)
  {
    SourcePrefix(source) <= n && var f := n[|SourcePrefix(source)|..];
    f in m && ReadName(rows, pending, n) == Some(Raw(m[f]))
  }

  lemma FieldNames(rows: Rows, pending: Pending, db: Database, batch: Batch, s: State, source: Key)
    requires Linked(rows, pending, db, batch) && Represents(db, batch, s) && WellFormed(s)
    requires source in s.keys && s.keys[source].VHash? && Alone(s, source)
    ensures NamesOfFields(rows, pending, source, s.keys[source].fields)
  {
    var m := s.keys[source].fields;
    forall f | f in m ensures SourcePrefix(source) + f in NamesUnder(rows, pending, source) {
      var l := EntryOf(source, THash, f);
      NameOfField(source, f);
      assert Lookup(db, batch, l) == Encode(s, l) && Shown(rows, pending, db, batch, l);
      UnderPrefix(source, SourcePrefix(source) + f);
    }
    forall n | n in NamesUnder(rows, pending, source) ensures IsFieldName(rows, pending, source, m, n) {
      FieldOfName(rows, pending, db, batch, s, source, n);
    }
  }

  lemma FieldOfName(rows: Rows, pending: Pending, db: Database, batch: Batch, s: State, source: Key, n: Bytes)
    requires Linked(rows, pending, db, batch) && Represents(db, batch, s) && WellFormed(s)
    requires source in s.keys && s.keys[source].VHash? && Alone(s, source)
    requires n in NamesUnder(rows, pending, source)
    ensures IsFieldName(rows, pending, source, s.keys[source].fields, n)
  {
    assert Owned(rows, pending, db, batch, n);
    var l :| Named(db, batch, l, n);
    assert Lookup(db, batch, l) == Encode(s, l) && Shown(rows, pending, db, batch, l);
    EntryPrefix(THash, source, l);
    AloneHasNoStrays(s, source, l);
    NameOfField(source, l.slot.field);
    assert n[|SourcePrefix(source)|..] == l.slot.field;
  }

  /** The fields whose names have been visited are copied. */
  ghost predicate Copied(m: map<Field, Bytes>, source: Key, done: set<Bytes>, copied: map<Field, Bytes>)
  {
    && (forall f {:trigger f in copied} :: f in copied <==> f in m && SourcePrefix(source) + f in done)
    && (forall f {:trigger copied[f]} :: f in copied ==> copied[f] == m[f])
  }

  lemma FieldAt(rows: Rows, pending0: Pending, pending: Pending, source: Key, m: map<Field, Bytes>,
                done: set<Bytes>, n: Bytes)
    requires NamesOfFields(rows, pending0, source, m) && SourcePrefix(source) <= n
    requires Ahead(rows, pending0, pending, source, done, Some(n))
    ensures var f := n[|SourcePrefix(source)|..];
      f in m && ReadName(rows, pending, n) == Some(Raw(m[f])) && n == SourcePrefix(source) + f
  {
    BeforeIrreflexive(n);
    assert IsFieldName(rows, pending0, source, m, n);
  }

  lemma CopiedMore(m: map<Field, Bytes>, source: Key, done: set<Bytes>, copied: map<Field, Bytes>, n: Bytes, f: Field)
    requires Copied(m, source, done, copied) && n == SourcePrefix(source) + f && f in m
    ensures Copied(m, source, done + {n}, copied[f := m[f]])
  {
    forall g ensures g in copied[f := m[f]] <==> g in m && SourcePrefix(source) + g in done + {n} {
      SameTail(SourcePrefix(source), f, g);
    }
  }

  lemma SameTail(p: Bytes, f: Bytes, g: Bytes)
    ensures p + f == p + g <==> f == g
  {
    assert (p + f)[|p|..] == f && (p + g)[|p|..] == g;
  }

  lemma AllCopied(rows: Rows, pending0: Pending, source: Key, m: map<Field, Bytes>, done: set<Bytes>,
                  copied: map<Field, Bytes>)
    requires NamesOfFields(rows, pending0, source, m) && Copied(m, source, done, copied)
    requires NamesUnder(rows, pending0, source) <= done
    ensures copied == m
  {
    forall f ensures f in m <==> f in copied {
      if f in m { assert m[f] == m[f]; }
    }
  }

  // ---------------------------------------------------------------- which copies lie ahead

  /** A copy under the prefix of the source means that the target is its twin, and the source is alone. */
  lemma CopyUnderPrefix(s: State, source: Key, target: Key, f: Field)
    requires Clones(s, source, target) && SourcePrefix(source) <= LocatorBytes(EntryOf(target, THash, f))
    ensures Twins(target, source) || (Twins(source, target) && HashFirst(f))
    ensures Alone(s, source)
  {
    EntryPrefix(THash, source, EntryOf(target, THash, f));
    forall j, g ensures !Disturbs(s, source, j, g) {
      if Disturbs(s, source, j, g) { OneTwin(source, target, j); }
    }
  }

  lemma OneTwin(k: Key, a: Key, b: Key)
    requires (Twins(k, a) || Twins(a, k)) && (Twins(k, b) || Twins(b, k))
    ensures a == b
  {
    assert a == a[..|a| - 1] + [a[|a| - 1]] && b == b[..|b| - 1] + [b[|b| - 1]];
  }

  /** The iterator comes upon a copy. */
  ghost predicate CloneMet(s: State, source: Key, target: Key)
  {
    Clones(s, source, target) && Alone(s, source) && exists f :: f in s.keys[source].fields && Chases(source, target, f)
  }

  lemma ChasedField(
    rows: Rows, pending: Pending, db: Database, batch: Batch, s: State, source: Key, target: Key, n: Bytes)
    requires Linked(rows, pending, db, batch) && Represents(db, batch, s) && WellFormed(s)
    requires Clones(s, source, target) && ChasedName(rows, pending, source, target, n)
    ensures Alone(s, source)
    ensures var f := n[|SourcePrefix(source)|..];
      f in s.keys[source].fields && Chases(source, target, f)
  {
    var f := n[|SourcePrefix(source)|..];
    CopyUnderPrefix(s, source, target, f);
    FieldOfName(rows, pending, db, batch, s, source, n);
    NameOfField(source, f);
    assert n == SourcePrefix(source) + f;
  }

  lemma FieldChased(
    rows: Rows, pending: Pending, db: Database, batch: Batch, s: State, source: Key, target: Key, f: Field)
    requires Linked(rows, pending, db, batch) && Represents(db, batch, s) && WellFormed(s)
    requires Clones(s, source, target) && Alone(s, source)
    requires f in s.keys[source].fields && Chases(source, target, f)
    ensures ChasedName(rows, pending, source, target, SourcePrefix(source) + f)
  {
    FieldNames(rows, pending, db, batch, s, source);
    assert s.keys[source].fields[f] == s.keys[source].fields[f];
    NameOfField(source, f);
    assert (SourcePrefix(source) + f)[|SourcePrefix(source)|..] == f;
  }

  /** The iterator meets a copy if and only if a field of the hash is chased; a hash that is not alone has none. */
  lemma CloneMeets(
    rows: Rows, pending: Pending, db: Database, batch: Batch, s: State, source: Key, target: Key)
    requires Linked(rows, pending, db, batch) && Represents(db, batch, s) && WellFormed(s)
    requires Clones(s, source, target)
    ensures (exists n :: ChasedName(rows, pending, source, target, n)) <==> CloneMet(s, source, target)
  {
    if n :| ChasedName(rows, pending, source, target, n) {
      ChasedField(rows, pending, db, batch, s, source, target, n);
    }
    if f :| Alone(s, source) && f in s.keys[source].fields && Chases(source, target, f) {
      FieldChased(rows, pending, db, batch, s, source, target, f);
    }
  }

  /** What is known when the loop begins. */
  lemma CloneFacts(rows: Rows, pending: Pending, db: Database, batch: Batch, s: State, source: Key, target: Key)
    requires Linked(rows, pending, db, batch) && Represents(db, batch, s) && WellFormed(s)
    requires Clones(s, source, target)
    ensures |NamesUnder(rows, pending, source)| == |s.keys[source].fields| <==> Alone(s, source)
    ensures (exists n :: ChasedName(rows, pending, source, target, n)) <==> CloneMet(s, source, target)
    ensures Alone(s, source) ==> NamesOfFields(rows, pending, source, s.keys[source].fields)
    ensures Running(db, batch, batch, s, target, VHash(map[]))
    ensures WellFormedValue(s.keys[source], s.clock)
  {
    BeginOperation(db, batch, s, target, VHash(map[]));
    SweptByName(rows, pending, db, batch, SourcePrefix(source));
    SweepCounts(db, batch, s, source);
    CloneMeets(rows, pending, db, batch, s, source, target);
    if Alone(s, source) { FieldNames(rows, pending, db, batch, s, source); }
  }

  /** None of the names visited so far is chased by its copy. */
  ghost predicate NoneChased(rows: Rows, pending0: Pending, source: Key, target: Key, done: set<Bytes>)
  {
    forall n :: n in done ==> !ChasedName(rows, pending0, source, target, n)
  }

  lemma NoneMoreChased(rows: Rows, pending0: Pending, source: Key, target: Key, done: set<Bytes>, n: Bytes)
    requires NoneChased(rows, pending0, source, target, done) && !ChasedName(rows, pending0, source, target, n)
    ensures NoneChased(rows, pending0, source, target, done + {n})
  {
  }

  /** The loop ends when all names have been visited. */
  lemma AllVisited(rows: Rows, pending0: Pending, pending: Pending, source: Key, target: Key, done: set<Bytes>,
                   iter: Option<Bytes>)
    requires Ahead(rows, pending0, pending, source, done, iter) && NoneChased(rows, pending0, source, target, done)
    requires !(iter.Some? && SourcePrefix(source) <= iter.value)
    ensures done == NamesUnder(rows, pending0, source)
    ensures !exists n :: ChasedName(rows, pending0, source, target, n)
  {
    forall n ensures !ChasedName(rows, pending0, source, target, n) {
      if n in done { }
    }
  }

  // ---------------------------------------------------------------- a clone that never ends

  /** The field comes before its own name with a hash sign in front. */
  predicate Grows(f: Field)
  {
    Before(f, [HASH] + f)
  }

  /** Exactly which copies the iterator will meet. */
  lemma ChasesIs(source: Key, target: Key, f: Field)
    requires source != target
    ensures Chases(source, target, f) <==>
      (Twins(target, source) && Grows(f)) || (Twins(source, target) && HashFirst(f) && Before(f, f[1..]))
  {
    EntryPrefix(THash, source, EntryOf(target, THash, f));
    if Twins(target, source) {
      ChasesHash(source, target, f);
    } else if Twins(source, target) && HashFirst(f) {
      ChasesBar(source, target, f);
    }
  }

  lemma ChasesHash(source: Key, target: Key, f: Field)
    requires Twins(target, source)
    ensures Chases(source, target, f) <==> Grows(f)
  {
    NameOfField(source, f);
    TwinName(target, source, f);
    BeforePrefix(SourcePrefix(source), f, [HASH] + f);
  }

  lemma ChasesBar(source: Key, target: Key, f: Field)
    requires Twins(source, target) && HashFirst(f)
    ensures Chases(source, target, f) <==> Before(f, f[1..])
  {
    var g := f[1..];
    assert f == [HASH] + g;
    NameOfField(source, f);
    TwinName(source, target, g);
    NameOfField(source, g);
    BeforePrefix(SourcePrefix(source), f, g);
  }

  lemma TwinName(a: Key, b: Key, f: Field)
    requires Twins(a, b)
    ensures LocatorBytes(EntryOf(a, THash, f)) == LocatorBytes(EntryOf(b, THash, [HASH] + f))
      == SourcePrefix(b) + ([HASH] + f)
  {
    EntryCollision(THash, a, f, b, [HASH] + f);
    NameOfField(b, [HASH] + f);
  }

  /** Whatever lies between a field that grows and its copy grows too. */
  lemma {:induction false} BetweenGrows(f: Field, g: Field)
    requires Grows(f) && Before(f, g) && !Before([HASH] + f, g)
    ensures Grows(g)
  {
    if g == [] {
    } else if f == [] {
      assert ([HASH] + f)[1..] == [];
      assert g[0] <= HASH;
    } else {
      assert ([HASH] + f)[1..] == f && ([HASH] + g)[1..] == g;
      if f[0] == HASH && g[0] == HASH {
        assert f == [HASH] + f[1..] && g == [HASH] + g[1..];
        BetweenGrows(f[1..], g[1..]);
      }
    }
  }

  /**
   * HCLONE from a hash whose name ends in a bar to its twin, with an iterator that sees what was written: once
   * it stands on a field that grows, it stands on one after every further round. The loop does not end.
   */
  lemma CloneNeverEnds(
    rows: Rows, pending: Pending, source: Key, target: Key, n: Bytes, r: Record, next: Option<Bytes>)
    requires Twins(target, source) && SourcePrefix(source) <= n && Grows(n[|SourcePrefix(source)|..])
    requires var copy := LocatorBytes(EntryOf(target, THash, n[|SourcePrefix(source)|..]));
      StandsAt(next, Behind(rows, pending[copy := Put(r)], n))
    ensures next.Some? && SourcePrefix(source) <= next.value && Grows(next.value[|SourcePrefix(source)|..])
  {
    var p, f := SourcePrefix(source), n[|SourcePrefix(source)|..];
    var copy := LocatorBytes(EntryOf(target, THash, f));
    assert n == p + f;
    TwinName(target, source, f);
    BeforePrefix(p, f, [HASH] + f);
    assert copy in Behind(rows, pending[copy := Put(r)], n);
    var m := next.value;
    BeforeTotal(m, copy);
    if m == copy {
      BeforePrefix([HASH], f, [HASH] + f);
      assert copy[|p|..] == [HASH] + f;
    } else {
      PrefixBetween(p, n, m, copy);
      var g := m[|p|..];
      assert m == p + g;
      BeforePrefix(p, f, g);
      BeforePrefix(p, [HASH] + f, g);
      BetweenGrows(f, g);
    }
  }

  /** HSET a| ! 1, HCLONE a| a#: the field grows. */
  lemma CloneExample()
    ensures Twins([97, 35], [97, 124]) && Grows([33]) && Chases([97, 124], [97, 35], [33])
  {
    assert Before([33], [HASH] + [33]);
    ChasesIs([97, 124], [97, 35], [33]);
  }
}
