/**
 * SCAN, HSCAN and SSCAN on the records of the store: what following their cursors yields, in terms
 * of keys and fields.
 */
module StoreScan {
  import opened Bytes
  import opened ByteOrder
  import opened StoreModel
  import opened StoreOperations
  import opened KeyLocators
  import opened Names
  import opened Sweeps
  import Glob
  import Scan

  /** The rows that an iterator meets are the records of the store, by name. */
  ghost predicate IsRow(s: State, row: Scan.Record, l: Locator)
  {
    && Encode(s, l).Some? && row.key == LocatorBytes(l)
    && (Encode(s, l).value.Raw? ==> row.value == Encode(s, l).value.bytes)
  }

  /** Row by row, in the strict order of the names (see RowsExist); `ls` says which record each row is. */
  ghost predicate RowsOf(s: State, store: seq<Scan.Record>, ls: seq<Locator>)
  {
    && Scan.Ascending(store) && |ls| == |store|
    && (forall i {:trigger ls[i]} :: 0 <= i < |ls| ==> IsRow(s, store[i], ls[i]))
    && (forall l {:trigger l in ls} :: Encode(s, l).Some? ==> l in ls)
  }

  ghost predicate ByName(ls: seq<Locator>)
  {
    forall i, j :: 0 <= i < j < |ls| ==> Before(LocatorBytes(ls[i]), LocatorBytes(ls[j]))
  }

  ghost predicate FirstOf(l: Locator, L: set<Locator>)
  {
    l in L && forall m :: m in L && m != l ==> Before(LocatorBytes(l), LocatorBytes(m))
  }

  lemma {:induction false} FirstByName(L: set<Locator>) returns (l: Locator)
    requires L != {} && forall l, m :: l in L && m in L && LocatorBytes(l) == LocatorBytes(m) ==> l == m
    ensures FirstOf(l, L)
  {
    l :| l in L;
    if L != {l} {
      var m := FirstByName(L - {l});
      BeforeTotal(LocatorBytes(l), LocatorBytes(m));
      if Before(LocatorBytes(l), LocatorBytes(m)) {
        BeforeFirst(L, l, m);
      } else {
        l := m;
      }
    }
  }

  lemma BeforeFirst(L: set<Locator>, l: Locator, m: Locator)
    requires l in L && FirstOf(m, L - {l}) && Before(LocatorBytes(l), LocatorBytes(m))
    ensures FirstOf(l, L)
  {
    forall x | x in L && x != l ensures Before(LocatorBytes(l), LocatorBytes(x)) {
      if x != m { BeforeTransitive(LocatorBytes(l), LocatorBytes(m), LocatorBytes(x)); }
    }
  }

  lemma {:induction false} Sorted(L: set<Locator>) returns (ls: seq<Locator>)
    requires forall l, m :: l in L && m in L && LocatorBytes(l) == LocatorBytes(m) ==> l == m
    ensures ByName(ls) && forall l :: l in ls <==> l in L
  {
    if L == {} {
      ls := [];
    } else {
      var l := FirstByName(L);
      var rest := Sorted(L - {l});
      PutFirst(l, rest);
      ls := [l] + rest;
    }
  }

  lemma PutFirst(l: Locator, rest: seq<Locator>)
    requires ByName(rest) && forall m :: m in rest ==> Before(LocatorBytes(l), LocatorBytes(m))
    ensures ByName([l] + rest)
  {
    var ls := [l] + rest;
    forall i, j | 0 <= i < j < |ls| ensures Before(LocatorBytes(ls[i]), LocatorBytes(ls[j])) {
      FirstOrBoth(l, rest, i, j);
    }
  }

  lemma FirstOrBoth(l: Locator, rest: seq<Locator>, i: nat, j: nat)
    requires ByName(rest) && forall m :: m in rest ==> Before(LocatorBytes(l), LocatorBytes(m))
    requires i < j <= |rest|
    ensures Before(LocatorBytes(([l] + rest)[i]), LocatorBytes(([l] + rest)[j]))
  {
    if i == 0 {
      assert rest[j - 1] in rest;
    }
  }

  function RowOf(s: State, l: Locator): Scan.Record
    requires Encode(s, l).Some?
  {
    Scan.Record(LocatorBytes(l), if Encode(s, l).value.Raw? then Encode(s, l).value.bytes else [])
  }

  /** The rows in their strict order exist if and only if no two records of the store share a name. */
  lemma RowsExist(db: Database, batch: Batch, s: State)
    requires Represents(db, batch, s) && WellFormed(s)
    ensures (exists store, ls :: RowsOf(s, store, ls)) <==> Apart(s)
  {
    if store, ls :| RowsOf(s, store, ls) {
      forall l | Encode(s, l).Some? ensures Clear(s, l) {
        RowsApart(s, store, ls, l);
      }
    }
    if Apart(s) {
      var live := set l | l in db.Keys + batch.Keys && Lookup(db, batch, l).Some?;
      forall l ensures l in live <==> Encode(s, l).Some? {
        assert Lookup(db, batch, l) == Encode(s, l);
      }
      forall l, m | l in live && m in live && LocatorBytes(l) == LocatorBytes(m) ensures l == m {
        LiveIsProper(s, l);
        LiveIsProper(s, m);
        NamesakeIs(l, m);
        assert Clear(s, l);
      }
      var ls := Sorted(live);
      var store := seq(|ls|, i requires 0 <= i < |ls| => var l: Locator := ls[i]; assert l in live; RowOf(s, l));
      assert RowsOf(s, store, ls);
    }
  }

  lemma RowsApart(s: State, store: seq<Scan.Record>, ls: seq<Locator>, l: Locator)
    requires WellFormed(s) && RowsOf(s, store, ls) && Encode(s, l).Some?
    ensures Clear(s, l)
  {
    if !Clear(s, l) {
      var m := Namesake(l).value;
      LiveIsProper(s, l);
      NamesakeBack(l);
      RowsDiffer(s, store, ls, l, m);
    }
  }

  lemma RowsDiffer(s: State, store: seq<Scan.Record>, ls: seq<Locator>, l: Locator, m: Locator)
    requires RowsOf(s, store, ls) && Encode(s, l).Some? && Encode(s, m).Some? && l != m
    ensures LocatorBytes(l) != LocatorBytes(m)
  {
    assert l in ls && m in ls;
    var i :| 0 <= i < |ls| && ls[i] == l;
    var j :| 0 <= j < |ls| && ls[j] == m;
    assert IsRow(s, store[i], ls[i]) && IsRow(s, store[j], ls[j]);
    BeforeIrreflexive(store[i].key);
    assert Before(store[i].key, store[j].key) || Before(store[j].key, store[i].key);
  }

  // ---------------------------------------------------------------- listings

  ghost predicate Hits(q: Scan.Query, row: Scan.Record)
  {
    Scan.InRange(q, row) && q.keep(Scan.Strip(q, row).key)
  }

  lemma {:induction false} ListingFrom(q: Scan.Query, store: seq<Scan.Record>, r: Scan.Record) returns (i: nat)
    requires r in Scan.Listing(q, store)
    ensures i < |store| && Hits(q, store[i]) && r == Scan.Strip(q, store[i])
  {
    if Hits(q, store[0]) && r == Scan.Strip(q, store[0]) {
      i := 0;
    } else {
      i := ListingFrom(q, store[1..], r);
      i := i + 1;
    }
  }

  lemma {:induction false} ListingTakes(q: Scan.Query, store: seq<Scan.Record>, i: nat)
    requires i < |store| && Hits(q, store[i])
    ensures Scan.Strip(q, store[i]) in Scan.Listing(q, store)
  {
    if i > 0 {
      ListingTakes(q, store[1..], i - 1);
    }
  }

  ghost predicate InOrder(rows: seq<Scan.Record>)
  {
    forall i, j :: 0 <= i < j < |rows| ==> Before(rows[i].key, rows[j].key)
  }

  lemma {:induction false} ListingInOrder(q: Scan.Query, store: seq<Scan.Record>)
    requires Scan.Ascending(store)
    ensures InOrder(Scan.Listing(q, store))
  {
    if store != [] {
      var rest := store[1..];
      ListingInOrder(q, rest);
      if Scan.InRange(q, store[0]) && q.keep(Scan.Strip(q, store[0]).key) {
        forall r | r in Scan.Listing(q, rest) ensures Before(Scan.Strip(q, store[0]).key, r.key) {
          var i := ListingFrom(q, rest, r);
          StripOrder(q, store[0], store[i + 1]);
        }
      }
    }
  }

  lemma StripOrder(q: Scan.Query, a: Scan.Record, b: Scan.Record)
    requires Scan.InRange(q, a) && Scan.InRange(q, b) && Before(a.key, b.key)
    ensures Before(Scan.Strip(q, a).key, Scan.Strip(q, b).key)
  {
    StripKey(q, a);
    StripKey(q, b);
    BeforePrefix(q.base, Scan.Strip(q, a).key, Scan.Strip(q, b).key);
  }

  lemma StripKey(q: Scan.Query, r: Scan.Record)
    requires Scan.InRange(q, r)
    ensures r.key == q.base + Scan.Strip(q, r).key
  {
    assert r.key[..|q.base|] == (q.base + q.stem)[..|q.base|] == q.base;
  }

  // ---------------------------------------------------------------- HSCAN and SSCAN

  /** A hash or a set whose prefix leads to its own fields only; the parser admits no empty fields. */
  ghost predicate Scannable(s: State, k: Key)
  {
    && WellFormed(s) && k in s.keys && (s.keys[k].VHash? || s.keys[k].VSet?)
    && Alone(s, k) && [] !in FieldBytes(s.keys[k])
  }

  function FieldsPrefix(s: State, k: Key): Bytes
    requires k in s.keys
  {
    PrefixBytes(Entries(TypeOf(s.keys[k]), k))
  }

  function FieldLocator(s: State, k: Key, f: Bytes): Locator
    requires k in s.keys
  {
    At(k, Entry(TypeOf(s.keys[k]), f))
  }

  lemma FieldName(s: State, k: Key, f: Bytes)
    requires k in s.keys
    ensures LocatorBytes(FieldLocator(s, k, f)) == FieldsPrefix(s, k) + f
  {
    assert Escaped(k, f) == Escaped(k, []) + f;
  }

  lemma FieldUnderPrefix(s: State, k: Key, l: Locator)
    requires Scannable(s, k) && Encode(s, l).Some? && FieldsPrefix(s, k) <= LocatorBytes(l)
    ensures l.At? && l.slot.Entry? && l.slot.field in FieldBytes(s.keys[k]) && l == FieldLocator(s, k, l.slot.field)
  {
    LiveIsProper(s, l);
    EntryPrefix(TypeOf(s.keys[k]), k, l);
    AloneHasNoStrays(s, k, l);
  }

  lemma FieldLive(s: State, k: Key, f: Bytes)
    requires Scannable(s, k)
    ensures f in FieldBytes(s.keys[k]) <==> Encode(s, FieldLocator(s, k, f)).Some?
    ensures s.keys[k].VHash? && f in s.keys[k].fields ==>
      Encode(s, FieldLocator(s, k, f)) == Some(Raw(s.keys[k].fields[f]))
  {
  }

  /** The row of a field, stripped of the prefix. */
  ghost predicate IsField(s: State, k: Key, r: Scan.Record)
    requires k in s.keys
  {
    r.key in FieldBytes(s.keys[k]) && (s.keys[k].VHash? ==> r.value == s.keys[k].fields[r.key])
  }

  lemma RowIsField(s: State, k: Key, row: Scan.Record, l: Locator)
    requires Scannable(s, k) && IsRow(s, row, l) && Scan.InRange(Scan.FieldQuery(FieldsPrefix(s, k)), row)
    ensures IsField(s, k, Scan.Strip(Scan.FieldQuery(FieldsPrefix(s, k)), row))
  {
    var q := Scan.FieldQuery(FieldsPrefix(s, k));
    assert q.base + q.stem == FieldsPrefix(s, k);
    FieldUnderPrefix(s, k, l);
    FieldName(s, k, l.slot.field);
    FieldLive(s, k, l.slot.field);
    assert Scan.Strip(q, row).key == l.slot.field;
  }

  lemma FieldIsRow(s: State, k: Key, store: seq<Scan.Record>, ls: seq<Locator>, f: Bytes) returns (r: Scan.Record)
    requires Scannable(s, k) && RowsOf(s, store, ls) && f in FieldBytes(s.keys[k])
    ensures r in Scan.Listing(Scan.FieldQuery(FieldsPrefix(s, k)), store) && r.key == f
  {
    FieldLive(s, k, f);
    assert FieldLocator(s, k, f) in ls;
    var i :| 0 <= i < |ls| && ls[i] == FieldLocator(s, k, f);
    FieldName(s, k, f);
    RowHits(FieldsPrefix(s, k), store[i], f);
    ListingTakes(Scan.FieldQuery(FieldsPrefix(s, k)), store, i);
    r := Scan.Strip(Scan.FieldQuery(FieldsPrefix(s, k)), store[i]);
  }

  lemma RowHits(prefix: Bytes, row: Scan.Record, f: Bytes)
    requires row.key == prefix + f
    ensures Hits(Scan.FieldQuery(prefix), row) && Scan.Strip(Scan.FieldQuery(prefix), row).key == f
  {
    assert prefix + [] == prefix;
  }

  lemma NotThePrefix(s: State, k: Key, row: Scan.Record, l: Locator)
    requires Scannable(s, k) && IsRow(s, row, l)
    ensures row.key != FieldsPrefix(s, k)
  {
    if row.key == FieldsPrefix(s, k) {
      FieldUnderPrefix(s, k, l);
      FieldName(s, k, l.slot.field);
    }
  }

  lemma FieldScanProper(s: State, k: Key, store: seq<Scan.Record>, ls: seq<Locator>)
    requires Scannable(s, k) && RowsOf(s, store, ls)
    ensures Scan.Proper(Scan.FieldQuery(FieldsPrefix(s, k)), store)
  {
    var q := Scan.FieldQuery(FieldsPrefix(s, k));
    forall i | 0 <= i < |store| ensures store[i].key != q.base {
      NotThePrefix(s, k, store[i], ls[i]);
    }
  }

  lemma ListedIsField(s: State, k: Key, store: seq<Scan.Record>, ls: seq<Locator>, r: Scan.Record)
    requires Scannable(s, k) && RowsOf(s, store, ls) && r in Scan.Listing(Scan.FieldQuery(FieldsPrefix(s, k)), store)
    ensures IsField(s, k, r)
  {
    var i := ListingFrom(Scan.FieldQuery(FieldsPrefix(s, k)), store, r);
    RowIsField(s, k, store[i], ls[i]);
  }

  /**
   * Following the cursors of HSCAN or SSCAN yields exactly the fields of the key, each with its value,
   * once and in order, for every count.
   */
  lemma FieldScanYields(s: State, k: Key, store: seq<Scan.Record>, ls: seq<Locator>, count: nat)
    requires Scannable(s, k) && RowsOf(s, store, ls) && count > 0
    ensures Scan.Proper(Scan.FieldQuery(FieldsPrefix(s, k)), store)
    ensures var rows := Scan.Follow(Scan.FieldQuery(FieldsPrefix(s, k)), store, [], count);
      && InOrder(rows) && (forall r :: r in rows ==> IsField(s, k, r))
      && (forall f :: f in FieldBytes(s.keys[k]) ==> exists r :: r in rows && r.key == f)
  {
    var q := Scan.FieldQuery(FieldsPrefix(s, k));
    FieldScanProper(s, k, store, ls);
    Scan.PagesCoverAll(q, store, count);
    ListingInOrder(q, store);
    forall r | r in Scan.Listing(q, store) {
      ListedIsField(s, k, store, ls, r);
    }
    forall f | f in FieldBytes(s.keys[k]) ensures exists r :: r in Scan.Listing(q, store) && r.key == f {
      var r := FieldIsRow(s, k, store, ls, f);
    }
  }

  // ---------------------------------------------------------------- SCAN

  /** Only descriptors begin with their type byte. */
  lemma RowIsKey(s: State, row: Scan.Record, l: Locator)
    requires WellFormed(s) && IsRow(s, row, l) && row.key != [] && row.key[0] == Scan.DESCRIPTOR
    ensures l.At? && l.slot.Descriptor? && l.key in s.keys && row.key == [Scan.DESCRIPTOR] + l.key
  {
    LiveIsProper(s, l);
    FirstByteFirst(l);
  }

  lemma KeyIsRow(s: State, store: seq<Scan.Record>, ls: seq<Locator>, pattern: Bytes, k: Key) returns (r: Scan.Record)
    requires RowsOf(s, store, ls) && k in s.keys && Scan.KeysMatching(pattern).keep(k)
    ensures r in Scan.Listing(Scan.KeysMatching(pattern), store) && r.key == k
  {
    assert Encode(s, At(k, Descriptor)).Some? && At(k, Descriptor) in ls;
    var i :| 0 <= i < |ls| && ls[i] == At(k, Descriptor);
    DescriptorHits(pattern, store[i], k);
    ListingTakes(Scan.KeysMatching(pattern), store, i);
    r := Scan.Strip(Scan.KeysMatching(pattern), store[i]);
  }

  lemma DescriptorHits(pattern: Bytes, row: Scan.Record, k: Key)
    requires row.key == [Scan.DESCRIPTOR] + k && Scan.KeysMatching(pattern).keep(k)
    ensures Hits(Scan.KeysMatching(pattern), row) && Scan.Strip(Scan.KeysMatching(pattern), row).key == k
  {
    Scan.DescriptorInRange(Scan.KeysMatching(pattern), row);
    assert row.key[1..] == k;
  }

  lemma HitIsKey(s: State, row: Scan.Record, l: Locator, pattern: Bytes)
    requires WellFormed(s) && IsRow(s, row, l) && Hits(Scan.KeysMatching(pattern), row)
    ensures Scan.Strip(Scan.KeysMatching(pattern), row).key in s.keys
  {
    Scan.DescriptorInRange(Scan.KeysMatching(pattern), row);
    RowIsKey(s, row, l);
    assert row.key[1..] == l.key;
  }

  lemma ListedIsKey(s: State, store: seq<Scan.Record>, ls: seq<Locator>, pattern: Bytes, r: Scan.Record)
    requires WellFormed(s) && RowsOf(s, store, ls) && r in Scan.Listing(Scan.KeysMatching(pattern), store)
    ensures r.key in s.keys && Scan.KeysMatching(pattern).keep(r.key)
  {
    var q := Scan.KeysMatching(pattern);
    var i := ListingFrom(q, store, r);
    HitIsKey(s, store[i], ls[i], pattern);
  }

  lemma ScanProper(s: State, store: seq<Scan.Record>, ls: seq<Locator>, pattern: Bytes)
    requires WellFormed(s) && RowsOf(s, store, ls) && [] !in s.keys
    ensures forall i :: 0 <= i < |store| ==> store[i].key != [Scan.DESCRIPTOR]
    ensures Scan.Proper(Scan.ScanQuery(pattern), store)
  {
    forall i | 0 <= i < |store| ensures store[i].key != [Scan.DESCRIPTOR] {
      if store[i].key == [Scan.DESCRIPTOR] {
        RowIsKey(s, store[i], ls[i]);
      }
    }
  }

  /**
   * Following the cursors of SCAN yields exactly the keys that match, once and in order; the parser admits no
   * empty keys.
   */
  lemma ScanYields(s: State, pattern: Bytes, store: seq<Scan.Record>, ls: seq<Locator>, count: nat)
    requires WellFormed(s) && RowsOf(s, store, ls) && count > 0 && [] !in s.keys
    ensures Scan.Proper(Scan.ScanQuery(pattern), store)
    ensures var rows := Scan.Follow(Scan.ScanQuery(pattern), store, [], count);
      && InOrder(rows)
      && (forall r :: r in rows ==> r.key in s.keys && Scan.KeysMatching(pattern).keep(r.key))
      && (forall k :: k in s.keys && Scan.KeysMatching(pattern).keep(k) ==> exists r :: r in rows && r.key == k)
  {
    var q := Scan.KeysMatching(pattern);
    ScanProper(s, store, ls, pattern);
    Scan.ScanFindsAll(pattern, store, count);
    ListingInOrder(q, store);
    forall r | r in Scan.Listing(q, store) {
      ListedIsKey(s, store, ls, pattern, r);
    }
    forall k | k in s.keys && q.keep(k) ensures exists r :: r in Scan.Listing(q, store) && r.key == k {
      var r := KeyIsRow(s, store, ls, pattern, k);
    }
  }
}
