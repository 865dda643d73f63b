/**
 * The rocksdb database and the write batch know records by their names, the byte strings of
 * src/storage/KeyLocators.hh, and two records can share one. This is what ties the records by name
 * to the records by key and slot, and when a read or a write by name is one of the record meant.
 */
module Names {
  import opened Bytes
  import opened StoreModel
  import opened StoreSpec
  import opened StoreOperations
  import opened KeyLocators

  type Rows = map<Bytes, Record>
  type Pending = map<Bytes, Staged>

  /** A read through the staging area (src/storage/StagingArea.hh:98-108). */
  function ReadName(rows: Rows, pending: Pending, n: Bytes): Option<Record>
  {
    if n in pending then Entered(pending[n])
    else if n in rows then Some(rows[n])
    else None
  }

  // ---------------------------------------------------------------- records by name and by locator

  /** No record is there under the name of `l` but another locator. */
  ghost predicate Free(db: Database, batch: Batch, l: Locator)
  {
    Namesake(l).Some? ==> Lookup(db, batch, Namesake(l).value).None?
  }

  /** A record that is there is found under its name, and no other record has that name. */
  ghost predicate Shown(rows: Rows, pending: Pending, db: Database, batch: Batch, l: Locator)
  {
    Lookup(db, batch, l).Some? ==>
      Proper(l) && Free(db, batch, l) && ReadName(rows, pending, LocatorBytes(l)) == Lookup(db, batch, l)
  }

  ghost predicate Named(db: Database, batch: Batch, l: Locator, n: Bytes)
  {
    Lookup(db, batch, l).Some? && LocatorBytes(l) == n
  }

  ghost predicate Owned(rows: Rows, pending: Pending, db: Database, batch: Batch, n: Bytes)
  {
    ReadName(rows, pending, n).Some? ==> exists l :: Named(db, batch, l, n)
  }

  /** Descriptors are marked in the batch under their names as well. */
  ghost predicate SameMark(pending: Pending, batch: Batch, k: Key)
  {
    var l := At(k, Descriptor);
    (l in batch <==> LocatorBytes(l) in pending) && (l in batch ==> pending[LocatorBytes(l)] == batch[l])
  }

  /** The records by name are the records by locator. */
  ghost predicate Linked(rows: Rows, pending: Pending, db: Database, batch: Batch)
  {
    && (forall l {:trigger Shown(rows, pending, db, batch, l)} :: Shown(rows, pending, db, batch, l))
    && (forall n {:trigger Owned(rows, pending, db, batch, n)} :: Owned(rows, pending, db, batch, n))
    && (forall k {:trigger SameMark(pending, batch, k)} :: SameMark(pending, batch, k))
  }

  /** A read by name is a read of the record meant if and only if no other record has that name. */
  lemma ReadByName(rows: Rows, pending: Pending, db: Database, batch: Batch, l: Locator)
    requires Linked(rows, pending, db, batch) && Proper(l)
    ensures ReadName(rows, pending, LocatorBytes(l)) == Lookup(db, batch, l) <==> Free(db, batch, l)
    ensures !Free(db, batch, l) ==>
      Lookup(db, batch, l).None? && ReadName(rows, pending, LocatorBytes(l)) == Lookup(db, batch, Namesake(l).value)
  {
    assert Shown(rows, pending, db, batch, l) && Owned(rows, pending, db, batch, LocatorBytes(l));
    if !Free(db, batch, l) {
      NamesakeBack(l);
      assert Shown(rows, pending, db, batch, Namesake(l).value);
    } else if ReadName(rows, pending, LocatorBytes(l)).Some? {
      var m :| Named(db, batch, m, LocatorBytes(l));
      assert Shown(rows, pending, db, batch, m);
      NamesakeIs(l, m);
    }
  }

  lemma GotByName(rows: Rows, pending: Pending, db: Database, batch: Batch, l: Locator)
    ensures Linked(rows, pending, db, batch) && Proper(l) && Free(db, batch, l) ==>
      ReadName(rows, pending, LocatorBytes(l)) == Lookup(db, batch, l)
  {
    if Linked(rows, pending, db, batch) && Proper(l) {
      ReadByName(rows, pending, db, batch, l);
    }
  }

  /** Writing a record whose name is free keeps the two views together. */
  lemma WriteByName(rows: Rows, pending: Pending, db: Database, batch: Batch, l: Locator, r: Staged)
    requires Linked(rows, pending, db, batch) && Proper(l) && Free(db, batch, l)
    ensures Linked(rows, pending[LocatorBytes(l) := r], db, batch[l := r])
  {
    var pending1, batch1 := pending[LocatorBytes(l) := r], batch[l := r];
    forall x ensures Shown(rows, pending1, db, batch1, x) {
      assert Shown(rows, pending, db, batch, x);
      if x == l {
        OtherIsOther(l);
      } else if Lookup(db, batch, x).Some? {
        OtherName(db, batch, l, x);
      }
    }
    forall n ensures Owned(rows, pending1, db, batch1, n) {
      OwnedAfterWrite(rows, pending, db, batch, l, r, n);
    }
    forall k ensures SameMark(pending1, batch1, k) {
      assert SameMark(pending, batch, k);
      NamesakeIs(At(k, Descriptor), l);
    }
  }

  lemma OtherIsOther(l: Locator)
    ensures Namesake(l).Some? ==> Namesake(l).value != l
  {
    if Namesake(l).Some? {
      NamesakeBack(l);
    }
  }

  lemma OtherName(db: Database, batch: Batch, l: Locator, x: Locator)
    requires Proper(l) && Free(db, batch, l) && Proper(x) && Lookup(db, batch, x).Some? && x != l
    ensures LocatorBytes(x) != LocatorBytes(l) && Namesake(x) != Some(l)
  {
    NamesakeIs(l, x);
    if Namesake(x) == Some(l) {
      NamesakeBack(x);
    }
  }

  lemma OwnedAfterWrite(
    rows: Rows, pending: Pending, db: Database, batch: Batch, l: Locator, r: Staged, n: Bytes)
    requires Owned(rows, pending, db, batch, n)
    ensures Owned(rows, pending[LocatorBytes(l) := r], db, batch[l := r], n)
  {
    if n == LocatorBytes(l) {
      if r.Put? {
        assert Named(db, batch[l := r], l, n);
      }
    } else if ReadName(rows, pending, n).Some? {
      var m :| Named(db, batch, m, n);
      assert Named(db, batch[l := r], m, n);
    }
  }

  // ---------------------------------------------------------------- many records at once

  function BuriedNames(pending: Pending, victims: set<Bytes>): Pending
  {
    map n | n in pending.Keys + victims :: if n in victims then Tombstone else pending[n]
  }

  lemma BuryOneName(pending: Pending, victims: set<Bytes>, n: Bytes)
    ensures BuriedNames(pending, victims)[n := Tombstone] == BuriedNames(pending, victims + {n})
  {
  }

  /** The names and the locators of the same records are buried. */
  lemma BuryByName(
    rows: Rows, pending: Pending, db: Database, batch: Batch, names: set<Bytes>, victims: set<Locator>)
    requires Linked(rows, pending, db, batch)
    requires forall l :: l in victims ==> Lookup(db, batch, l).Some?
    requires forall l :: Lookup(db, batch, l).Some? ==> (l in victims <==> LocatorBytes(l) in names)
    requires forall n :: n in names ==> ReadName(rows, pending, n).Some?
    ensures Linked(rows, BuriedNames(pending, names), db, Buried(batch, victims))
  {
    var pending1, batch1 := BuriedNames(pending, names), Buried(batch, victims);
    forall l ensures Shown(rows, pending1, db, batch1, l) {
      assert Shown(rows, pending, db, batch, l);
    }
    forall n ensures Owned(rows, pending1, db, batch1, n) {
      assert Owned(rows, pending, db, batch, n);
      if ReadName(rows, pending1, n).Some? {
        var l :| Named(db, batch, l, n);
        assert Named(db, batch1, l, n);
      }
    }
    forall k ensures SameMark(pending1, batch1, k) {
      BuriedMark(rows, pending, db, batch, names, victims, k);
    }
  }

  lemma BuriedMark(
    rows: Rows, pending: Pending, db: Database, batch: Batch, names: set<Bytes>, victims: set<Locator>, k: Key)
    requires Linked(rows, pending, db, batch)
    requires forall l :: l in victims ==> Lookup(db, batch, l).Some?
    requires forall l :: Lookup(db, batch, l).Some? ==> (l in victims <==> LocatorBytes(l) in names)
    requires forall n :: n in names ==> ReadName(rows, pending, n).Some?
    ensures SameMark(BuriedNames(pending, names), Buried(batch, victims), k)
  {
    var l := At(k, Descriptor);
    assert SameMark(pending, batch, k);
    ReadByName(rows, pending, db, batch, l);
    assert l in victims <==> LocatorBytes(l) in names;
  }

  function MergedRows(rows: Rows, pending: Pending): Rows
  {
    map n | n in rows.Keys + pending.Keys && ReadName(rows, pending, n).Some? :: ReadName(rows, pending, n).value
  }

  lemma CommitByName(rows: Rows, pending: Pending, db: Database, batch: Batch)
    requires Linked(rows, pending, db, batch)
    ensures Linked(MergedRows(rows, pending), map[], Merged(db, batch), map[])
  {
    var rows1, db1 := MergedRows(rows, pending), Merged(db, batch);
    forall l ensures Shown(rows1, map[], db1, map[], l) {
      assert Shown(rows, pending, db, batch, l);
      assert Lookup(db1, map[], l) == Lookup(db, batch, l);
      if Namesake(l).Some? {
        assert Lookup(db1, map[], Namesake(l).value) == Lookup(db, batch, Namesake(l).value);
      }
    }
    forall n ensures Owned(rows1, map[], db1, map[], n) {
      assert Owned(rows, pending, db, batch, n);
      if ReadName(rows1, map[], n).Some? {
        var l :| Named(db, batch, l, n);
        assert Named(db1, map[], l, n);
      }
    }
  }

  // ---------------------------------------------------------------- in terms of the abstract store

  /** No record of `s` has the name of `l` but is another one. */
  predicate Clear(s: State, l: Locator)
  {
    match Namesake(l)
    case Some(m) => Encode(s, m).None?
    case None => true
  }

  /** No two records of `s` share a name. */
  ghost predicate Apart(s: State)
  {
    forall l :: Encode(s, l).Some? ==> Clear(s, l)
  }

  lemma FreeIsClear(db: Database, batch: Batch, s: State, l: Locator)
    requires Represents(db, batch, s)
    ensures Free(db, batch, l) <==> Clear(s, l)
  {
    if Namesake(l).Some? {
      assert Lookup(db, batch, Namesake(l).value) == Encode(s, Namesake(l).value);
    }
  }

  /** A read by name gives what the store has for `l` if and only if `l` is clear. */
  lemma ReadIsRight(rows: Rows, pending: Pending, db: Database, batch: Batch, s: State, l: Locator)
    requires Linked(rows, pending, db, batch) && Represents(db, batch, s) && Proper(l)
    ensures ReadName(rows, pending, LocatorBytes(l)) == Encode(s, l) <==> Clear(s, l)
  {
    ReadByName(rows, pending, db, batch, l);
    FreeIsClear(db, batch, s, l);
    assert Lookup(db, batch, l) == Encode(s, l);
  }

  lemma LinkedIsApart(rows: Rows, pending: Pending, db: Database, batch: Batch, s: State)
    requires Linked(rows, pending, db, batch) && Represents(db, batch, s)
    ensures Apart(s)
  {
    forall l | Encode(s, l).Some? ensures Clear(s, l) {
      assert Shown(rows, pending, db, batch, l) && Lookup(db, batch, l) == Encode(s, l);
      FreeIsClear(db, batch, s, l);
    }
  }

  /** A record of a hash, a set or a versioned hash is in nobody's way within its own key. */
  lemma NamesakeElsewhere(k: Key, t: KeyType, f: Field)
    ensures var m := Namesake(At(k, Entry(t, f)));
      m.Some? ==> m.value.At? && m.value.key != k && m.value.slot.Entry? && m.value.slot.kind == t
  {
    if Namesake(At(k, Entry(t, f))).Some? {
      var p := Other(k, f).value;
      assert p.0[|k| - 1] != k[|k| - 1];
    }
  }

  /** During an operation on `k`, the records of other keys are those of `s`. */
  lemma FreeEntry(db: Database, batch0: Batch, batch: Batch, s: State, k: Key, v: Value, t: KeyType, f: Field)
    requires Running(db, batch0, batch, s, k, v)
    ensures Free(db, batch, At(k, Entry(t, f))) <==> Clear(s, At(k, Entry(t, f)))
  {
    NamesakeElsewhere(k, t, f);
    var m := Namesake(At(k, Entry(t, f)));
    if m.Some? {
      ReadOtherKey(db, batch0, batch, s, k, v, m.value);
    }
  }

  /** The namesake of a record that is not clear is there all along. */
  lemma NamesakeInOperation(
    db: Database, batch0: Batch, batch: Batch, s: State, k: Key, v: Value, t: KeyType, f: Field)
    requires Running(db, batch0, batch, s, k, v) && !Clear(s, At(k, Entry(t, f)))
    ensures Lookup(db, batch, Namesake(At(k, Entry(t, f))).value).Some?
  {
    NamesakeElsewhere(k, t, f);
    ReadOtherKey(db, batch0, batch, s, k, v, Namesake(At(k, Entry(t, f))).value);
  }

  /** No other field of a locality hash is stored under the name that `f` has under hint `h`. */
  predicate HintClear(m: map<Field, Located>, f: Field, h: Hint)
  {
    match Other(h, f)
    case Some(p) => !(p.1 in m && m[p.1].hint == p.0)
    case None => true
  }

  lemma ClearHint(s: State, k: Key, f: Field, h: Hint)
    ensures Clear(s, At(k, LocalityData(h, f))) <==> HintClear(LocatedOf(s, k), f, h)
  {
  }

  lemma FreeHint(
    db: Database, batch0: Batch, batch: Batch, s: State, k: Key, m: map<Field, Located>, f: Field, h: Hint)
    requires Running(db, batch0, batch, s, k, VLocalityHash(m))
    ensures Free(db, batch, At(k, LocalityData(h, f))) <==> HintClear(m, f, h)
  {
    LocalityRead(db, batch0, batch, s, k, m);
    var p := Other(h, f);
    if p.Some? {
      assert Lookup(db, batch, At(k, LocalityData(p.value.0, p.value.1)))
        == EncodeValue(VLocalityHash(m), LocalityData(p.value.0, p.value.1));
    }
  }
}
