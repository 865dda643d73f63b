/**
 * What an iterator meets under a prefix of bytes. The records of a hash, a set, a versioned hash
 * or a deque are found by such a prefix, and those of a twin key may begin with it too: DEL and
 * HCLONE then see more records than the descriptor counts.
 */
module Sweeps {
  import opened Bytes
  import opened StoreModel
  import opened StoreSpec
  import opened StoreOperations
  import opened KeyLocators
  import opened Names
  import opened ByteOrder

  /** The bytes that DEL, HCLONE and FLUSHALL seek to (FieldLocator, LocalityFieldLocator, LocalityIndexLocator). */
  function PrefixBytes(p: Prefix): Bytes
  {
    match p
    case Entries(t, k) => [EntryByte(t)] + Escaped(k, [])
    case Items(k) => [100] + Escaped(k, [])
    case Data(k) => [101] + Escaped(k, [100])
    case Indexes(k) => [101] + Escaped(k, [105])
    case Everything => []
  }

  /** Internal and configuration records are skipped. */
  predicate Hidden(b: Bytes)
  {
    b != [] && (b[0] == 95 || b[0] == 126)
  }

  /** Every record whose name begins with the prefix (src/StateMachine.cc:1725-1740). */
  function Swept(db: Database, batch: Batch, prefix: Bytes): set<Locator>
  {
    set l | l in db.Keys + batch.Keys && Lookup(db, batch, l).Some? && prefix <= LocatorBytes(l)
      && !Hidden(LocatorBytes(l))
  }

  /** A record of another key under the prefix. */
  predicate Strays(p: Prefix, l: Locator)
  {
    l.At? &&
    match p
    case Entries(t, k) =>
      l.slot.Entry? && l.slot.kind == t && (Twins(l.key, k) || (Twins(k, l.key) && HashFirst(l.slot.field)))
    case Items(k) => l.slot.Item? && (Twins(l.key, k) || (Twins(k, l.key) && StartsWithHash(l.slot.index)))
    case _ => false
  }

  predicate HashFirst(f: Bytes)
  {
    f != [] && f[0] == HASH
  }

  /** The prefixes that are used: entries of the three types that have them. */
  predicate Used(p: Prefix)
  {
    p.Entries? ==> p.kind in {THash, TSet, TVersionedHash}
  }

  lemma NameHidden(l: Locator)
    requires Proper(l)
    ensures Hidden(LocatorBytes(l)) <==> !l.At?
  {
    FirstByteFirst(l);
  }

  /** Exactly which records begin with the prefix. */
  lemma PrefixMeets(p: Prefix, l: Locator)
    requires Used(p) && Proper(l)
    ensures PrefixBytes(p) <= LocatorBytes(l) && !Hidden(LocatorBytes(l)) <==> Matches(p, l) || Strays(p, l)
  {
    NameHidden(l);
    match p
    case Entries(t, k) => EntryPrefix(t, k, l);
    case Items(k) => ItemPrefix(k, l);
    case Data(k) => LocalityPrefix(k, 100, l);
    case Indexes(k) => LocalityPrefix(k, 105, l);
    case Everything =>
  }

  /** The records of a well-formed store have proper names. */
  lemma LiveIsProper(s: State, l: Locator)
    requires WellFormed(s) && Encode(s, l).Some?
    ensures Proper(l)
  {
    if l.At? {
      assert WellFormedValue(s.keys[l.key], s.clock);
    }
  }

  lemma SweptIs(db: Database, batch: Batch, s: State, p: Prefix, l: Locator)
    requires Represents(db, batch, s) && WellFormed(s) && Used(p)
    ensures l in Swept(db, batch, PrefixBytes(p)) <==> Encode(s, l).Some? && (Matches(p, l) || Strays(p, l))
    ensures l in Found(db, batch, p) <==> Encode(s, l).Some? && Matches(p, l)
  {
    assert Lookup(db, batch, l) == Encode(s, l);
    if Encode(s, l).Some? {
      LiveIsProper(s, l);
      PrefixMeets(p, l);
    }
  }

  // ---------------------------------------------------------------- when a sweep is clean

  /** The fields under which a value keeps its records; those of a deque are its indexes. */
  function FieldBytes(v: Value): set<Bytes>
  {
    match v
    case VHash(m) => m.Keys
    case VSet(m) => m
    case VVersionedHash(m, _) => m.Keys
    case VDeque(items, start) => set i | i in IndexRange(start, |items|) :: BigEndian(i, WIDTH)
    case _ => {}
  }

  /** Key `j`, of the type of `k`, has a field whose record is found under the prefix of `k`. */
  predicate Disturbs(s: State, k: Key, j: Key, f: Bytes)
  {
    && k in s.keys && j in s.keys && TypeOf(s.keys[j]) == TypeOf(s.keys[k]) && f in FieldBytes(s.keys[j])
    && (Twins(j, k) || (Twins(k, j) && HashFirst(f)))
  }

  /** No other key disturbs. */
  ghost predicate Alone(s: State, k: Key)
  {
    forall j, f :: !Disturbs(s, k, j, f)
  }

  /** The types whose records are found by the prefix of the key alone. */
  predicate Sweepable(v: Value)
  {
    v.VHash? || v.VSet? || v.VVersionedHash? || v.VDeque?
  }

  function SweepOf(v: Value, k: Key): Prefix
  {
    if v.VDeque? then Items(k) else Entries(TypeOf(v), k)
  }

  /** The record of a field. */
  lemma RecordOf(s: State, j: Key, f: Bytes) returns (l: Locator)
    requires j in s.keys && f in FieldBytes(s.keys[j])
    ensures Encode(s, l).Some? && l.At? && l.key == j
    ensures if s.keys[j].VDeque? then l.slot.Item? && BigEndian(l.slot.index, WIDTH) == f
            else l.slot == Entry(TypeOf(s.keys[j]), f)
  {
    var v := s.keys[j];
    if v.VDeque? {
      var i :| i in IndexRange(v.start, |v.items|) && BigEndian(i, WIDTH) == f;
      l := At(j, Item(i));
    } else {
      l := At(j, Entry(TypeOf(v), f));
    }
  }

  lemma FieldOf(s: State, l: Locator)
    requires Encode(s, l).Some? && l.At? && (l.slot.Entry? || l.slot.Item?)
    ensures (if l.slot.Item? then BigEndian(l.slot.index, WIDTH) else l.slot.field) in FieldBytes(s.keys[l.key])
    ensures TypeOf(s.keys[l.key]) == if l.slot.Item? then TDeque else l.slot.kind
  {
    var v := s.keys[l.key];
    if l.slot.Item? {
      assert l.slot.index in IndexRange(v.start, |v.items|);
    }
  }

  lemma AloneHasNoStrays(s: State, k: Key, l: Locator)
    requires k in s.keys && Sweepable(s.keys[k]) && Alone(s, k) && Encode(s, l).Some?
    ensures !Strays(SweepOf(s.keys[k], k), l)
  {
    if l.At? && (l.slot.Entry? || l.slot.Item?) {
      FieldOf(s, l);
      var f := if l.slot.Item? then BigEndian(l.slot.index, WIDTH) else l.slot.field;
      assert !Disturbs(s, k, l.key, f);
    }
  }

  lemma DisturberAt(s: State, k: Key, j: Key, f: Bytes) returns (l: Locator)
    requires k in s.keys && Sweepable(s.keys[k]) && Disturbs(s, k, j, f)
    ensures Encode(s, l).Some? && Strays(SweepOf(s.keys[k], k), l)
  {
    l := RecordOf(s, j, f);
    SameShape(s.keys[k], s.keys[j]);
    DisturberStrays(s.keys[k], k, j, f, l);
  }

  lemma SameShape(v: Value, w: Value)
    requires TypeOf(v) == TypeOf(w)
    ensures v.VDeque? <==> w.VDeque?
  {
  }

  lemma StrayExists(s: State, k: Key) returns (l: Locator)
    requires k in s.keys && Sweepable(s.keys[k]) && !Alone(s, k)
    ensures Encode(s, l).Some? && Strays(SweepOf(s.keys[k], k), l)
  {
    var j, f :| Disturbs(s, k, j, f);
    l := DisturberAt(s, k, j, f);
  }

  lemma DisturberStrays(v: Value, k: Key, j: Key, f: Bytes, l: Locator)
    requires Sweepable(v) && (Twins(j, k) || (Twins(k, j) && HashFirst(f)))
    requires l.At? && l.key == j
    requires if v.VDeque? then l.slot.Item? && BigEndian(l.slot.index, WIDTH) == f else l.slot == Entry(TypeOf(v), f)
    ensures Strays(SweepOf(v, k), l)
  {
  }

  /** A sweep finds the records of its key and no other, if and only if the key is alone. */
  lemma SweepIsFound(db: Database, batch: Batch, s: State, k: Key)
    requires Represents(db, batch, s) && WellFormed(s) && k in s.keys && Sweepable(s.keys[k])
    ensures var p := SweepOf(s.keys[k], k);
      && Found(db, batch, p) <= Swept(db, batch, PrefixBytes(p))
      && (Swept(db, batch, PrefixBytes(p)) == Found(db, batch, p) <==> Alone(s, k))
  {
    var p := SweepOf(s.keys[k], k);
    var a, b := Swept(db, batch, PrefixBytes(p)), Found(db, batch, p);
    forall l ensures (l in a <==> Encode(s, l).Some? && (Matches(p, l) || Strays(p, l)))
      && (l in b <==> Encode(s, l).Some? && Matches(p, l)) {
      SweptIs(db, batch, s, p, l);
    }
    if Alone(s, k) {
      forall l | l in a ensures l in b {
        AloneHasNoStrays(s, k, l);
      }
    } else {
      var l := StrayExists(s, k);
      assert l in a && l !in b;
    }
  }

  /** So the count that DEL and HCLONE compare with the descriptor is right if and only if the key is alone. */
  lemma SweepCounts(db: Database, batch: Batch, s: State, k: Key)
    requires Represents(db, batch, s) && WellFormed(s) && k in s.keys && Sweepable(s.keys[k])
    ensures var n := |Swept(db, batch, PrefixBytes(SweepOf(s.keys[k], k)))|;
      n >= DescriptorOf(s.keys[k]).size && (n == DescriptorOf(s.keys[k]).size <==> Alone(s, k))
  {
    SweepIsFound(db, batch, s, k);
    var p := SweepOf(s.keys[k], k);
    if s.keys[k].VDeque? {
      FoundItems(db, batch, s, k);
    } else {
      FoundEntries(db, batch, s, k);
    }
    SubsetSize(Found(db, batch, p), Swept(db, batch, PrefixBytes(p)));
  }

  /** The sweep of a key by the prefix of its type, as DEL looks at it. */
  lemma SweepIsRight(db: Database, batch: Batch, s: State, k: Key)
    requires Represents(db, batch, s) && WellFormed(s) && k in s.keys && Sweepable(s.keys[k])
    ensures var p := SweepOf(s.keys[k], k);
      && (|Swept(db, batch, PrefixBytes(p))| == DescriptorOf(s.keys[k]).size <==> Alone(s, k))
      && (Alone(s, k) ==> Swept(db, batch, PrefixBytes(p)) == Found(db, batch, p))
  {
    SweepIsFound(db, batch, s, k);
    SweepCounts(db, batch, s, k);
  }

  lemma SubsetSize<T>(a: set<T>, b: set<T>)
    requires a <= b
    ensures |a| <= |b| && (|a| == |b| <==> a == b)
  {
    assert b == a + (b - a);
  }

  /** The tables of a locality hash, and the whole store, are always found as they are. */
  lemma OtherSweeps(db: Database, batch: Batch, s: State, p: Prefix)
    requires Represents(db, batch, s) && WellFormed(s) && (p.Data? || p.Indexes? || p.Everything?)
    ensures Swept(db, batch, PrefixBytes(p)) == Found(db, batch, p)
  {
    forall l ensures l in Swept(db, batch, PrefixBytes(p)) <==> l in Found(db, batch, p) {
      SweptIs(db, batch, s, p, l);
    }
  }

  /** FLUSHALL sweeps everything. */
  lemma FlushIsConsistent(db: Database, batch: Batch, cache: set<(int, Key)>, s: State)
    requires Consistent(db, batch, cache, s)
    ensures Consistent(db, Buried(batch, Swept(db, batch, PrefixBytes(Everything))), {}, FlushAllSpec(s).state)
  {
    OtherSweeps(db, batch, s, Everything);
    FlushRepresents(db, batch, s);
  }

  // ---------------------------------------------------------------- sweeps by name

  /** The names of all records that an iterator can stand on. */
  function LiveNames(rows: Rows, pending: Pending): set<Bytes>
  {
    set n | n in rows.Keys + pending.Keys && ReadName(rows, pending, n).Some?
  }

  /** What remove_all_with_prefix meets (src/StateMachine.cc:1725-1740). */
  function SweptNames(rows: Rows, pending: Pending, prefix: Bytes): set<Bytes>
  {
    set n | n in LiveNames(rows, pending) && prefix <= n && !Hidden(n)
  }

  lemma {:induction false} ImageSize(a: set<Locator>, b: set<Bytes>)
    requires forall l, m :: l in a && m in a && LocatorBytes(l) == LocatorBytes(m) ==> l == m
    requires forall l :: l in a ==> LocatorBytes(l) in b
    requires forall n :: n in b ==> exists l :: l in a && LocatorBytes(l) == n
    ensures |a| == |b|
  {
    if a == {} {
      assert b == {};
    } else {
      var l :| l in a;
      forall n | n in b - {LocatorBytes(l)} ensures exists m :: m in a - {l} && LocatorBytes(m) == n {
        var m :| m in a && LocatorBytes(m) == n;
        assert m in a - {l};
      }
      ImageSize(a - {l}, b - {LocatorBytes(l)});
    }
  }

  /** The sweep by name meets the records of the sweep by locator. */
  lemma SweptByName(rows: Rows, pending: Pending, db: Database, batch: Batch, prefix: Bytes)
    requires Linked(rows, pending, db, batch)
    ensures |SweptNames(rows, pending, prefix)| == |Swept(db, batch, prefix)|
    ensures forall l :: Lookup(db, batch, l).Some? ==>
      (l in Swept(db, batch, prefix) <==> LocatorBytes(l) in SweptNames(rows, pending, prefix))
  {
    var names, records := SweptNames(rows, pending, prefix), Swept(db, batch, prefix);
    forall l | Lookup(db, batch, l).Some? ensures l in records <==> LocatorBytes(l) in names {
      assert Shown(rows, pending, db, batch, l);
    }
    forall l, m | l in records && m in records && LocatorBytes(l) == LocatorBytes(m) ensures l == m {
      assert Shown(rows, pending, db, batch, l) && Shown(rows, pending, db, batch, m);
      NamesakeIs(l, m);
    }
    forall n | n in names ensures exists l :: l in records && LocatorBytes(l) == n {
      assert Owned(rows, pending, db, batch, n);
      var l :| Named(db, batch, l, n);
    }
    ImageSize(records, names);
  }

  // ---------------------------------------------------------------- iterators

  ghost predicate IsEarliest(n: Bytes, candidates: set<Bytes>)
  {
    n in candidates && forall m :: m in candidates ==> !Before(m, n)
  }

  method Earliest(candidates: set<Bytes>) returns (n: Bytes)
    requires candidates != {}
    ensures IsEarliest(n, candidates)
  {
    n :| n in candidates;
    BeforeIrreflexive(n);
    var todo := candidates - {n};
    while todo != {}
      invariant n in candidates && todo <= candidates
      invariant forall m :: m in candidates && m !in todo ==> !Before(m, n)
      decreases |todo|
    {
      var m :| m in todo;
      if Before(m, n) {
        StillEarliest(candidates - todo, n, m);
        n := m;
      }
      todo := todo - {m};
    }
  }

  lemma StillEarliest(seen: set<Bytes>, n: Bytes, m: Bytes)
    requires forall x :: x in seen ==> !Before(x, n)
    requires Before(m, n)
    ensures forall x :: x in seen + {m} ==> !Before(x, m)
  {
    BeforeIrreflexive(m);
    forall x | x in seen ensures !Before(x, m) {
      if Before(x, m) {
        BeforeTransitive(x, m, n);
      }
    }
  }

  /** Where Seek and Next lead. */
  function NotBefore(rows: Rows, pending: Pending, name: Bytes): set<Bytes>
  {
    set n | n in LiveNames(rows, pending) && !Before(n, name)
  }

  function Behind(rows: Rows, pending: Pending, name: Bytes): set<Bytes>
  {
    set n | n in LiveNames(rows, pending) && Before(name, n)
  }

  /** The position of an iterator: the first of the names that lie ahead. */
  ghost predicate StandsAt(iter: Option<Bytes>, ahead: set<Bytes>)
  {
    (iter.None? <==> ahead == {}) && (iter.Some? ==> IsEarliest(iter.value, ahead))
  }

  /** The cursor of a scan, absent or an index, as the client holds it. */
  function Marker(cursor: Bytes): Option<int>
  {
    if cursor == [] then None else Some(FromBigEndian(cursor))
  }

  function CursorBytes(marker: Option<int>): Bytes
  {
    if marker.None? then [] else BigEndian(marker.value, WIDTH)
  }

  lemma CursorBack(marker: Option<int>)
    requires marker.Some? ==> 0 <= marker.value < U64_LIMIT
    ensures Marker(CursorBytes(marker)) == marker
    ensures |CursorBytes(marker)| == if marker.None? then 0 else WIDTH
  {
    if marker.Some? {
      BigEndianWidth(marker.value, WIDTH);
      Pow256Width();
      BigEndianBack(marker.value, BigEndian(marker.value, WIDTH));
    }
  }

  // ---------------------------------------------------------------- iterating over a deque

  /** Seek finds a record that is there. */
  lemma SeekFinds(rows: Rows, pending: Pending, name: Bytes, iter: Option<Bytes>)
    requires ReadName(rows, pending, name).Some?
    requires StandsAt(iter, NotBefore(rows, pending, name))
    ensures iter == Some(name)
  {
    BeforeIrreflexive(name);
    assert name in NotBefore(rows, pending, name);
    BeforeTotal(name, iter.value);
  }

  /** The record of an item is found under its name. */
  lemma ItemByName(rows: Rows, pending: Pending, db: Database, batch: Batch, s: State, k: Key, i: int)
    requires Linked(rows, pending, db, batch) && Represents(db, batch, s) && WellFormed(s)
    requires k in s.keys && s.keys[k].VDeque? && s.keys[k].start < i <= s.keys[k].start + |s.keys[k].items|
    ensures Encode(s, At(k, Item(i))).Some?
    ensures ReadName(rows, pending, LocatorBytes(At(k, Item(i))))
      == Some(Raw(s.keys[k].items[i - s.keys[k].start - 1]))
  {
    ReadItem(db, batch, s, k, i);
    assert Lookup(db, batch, At(k, Item(i))) == Encode(s, At(k, Item(i)));
    assert Shown(rows, pending, db, batch, At(k, Item(i)));
  }

  lemma ItemHasPrefix(k: Key, i: int)
    ensures PrefixBytes(Items(k)) <= LocatorBytes(At(k, Item(i)))
  {
    var b := BigEndian(i, WIDTH);
    assert [100] + Escaped(k, b) == [100] + Escaped(k, []) + b;
  }

  lemma UnderDequePrefix(s: State, k: Key, l: Locator)
    requires WellFormed(s) && k in s.keys && s.keys[k].VDeque? && Alone(s, k) && Encode(s, l).Some?
    requires PrefixBytes(Items(k)) <= LocatorBytes(l)
    ensures l.At? && l.key == k && l.slot.Item? && l == At(k, Item(l.slot.index))
  {
    LiveIsProper(s, l);
    ItemPrefix(k, l);
    AloneHasNoStrays(s, k, l);
  }

  /** Item `j` of the deque cannot stand between two neighbours. */
  lemma NoItemBetween(k: Key, i: int, j: int)
    requires Proper(At(k, Item(i))) && Proper(At(k, Item(j))) && Proper(At(k, Item(i + 1)))
    ensures Before(LocatorBytes(At(k, Item(i))), LocatorBytes(At(k, Item(j)))) ==>
            !Before(LocatorBytes(At(k, Item(j))), LocatorBytes(At(k, Item(i + 1))))
  {
    ItemsByIndex(k, i, j);
    ItemsByIndex(k, j, i + 1);
  }

  lemma NothingBetween(s: State, k: Key, i: int, l: Locator, a: Bytes, m: Bytes, b: Bytes)
    requires WellFormed(s) && k in s.keys && s.keys[k].VDeque? && Alone(s, k)
    requires Encode(s, At(k, Item(i))).Some? && Encode(s, At(k, Item(i + 1))).Some? && Encode(s, l).Some?
    requires a == LocatorBytes(At(k, Item(i))) && m == LocatorBytes(l) && b == LocatorBytes(At(k, Item(i + 1)))
    ensures Before(a, m) ==> !Before(m, b)
  {
    if Before(a, m) && Before(m, b) {
      ItemHasPrefix(k, i);
      ItemHasPrefix(k, i + 1);
      PrefixBetween(PrefixBytes(Items(k)), a, m, b);
      UnderDequePrefix(s, k, l);
      LiveIsProper(s, At(k, Item(i)));
      LiveIsProper(s, At(k, Item(i + 1)));
      LiveIsProper(s, l);
      NoItemBetween(k, i, l.slot.index);
    }
  }

  lemma NextIsBehind(rows: Rows, pending: Pending, s: State, k: Key, i: int)
    requires WellFormed(s) && ReadName(rows, pending, LocatorBytes(At(k, Item(i + 1)))).Some?
    requires Encode(s, At(k, Item(i))).Some? && Encode(s, At(k, Item(i + 1))).Some?
    ensures LocatorBytes(At(k, Item(i + 1))) in Behind(rows, pending, LocatorBytes(At(k, Item(i))))
  {
    LiveIsProper(s, At(k, Item(i)));
    LiveIsProper(s, At(k, Item(i + 1)));
    ItemsByIndex(k, i, i + 1);
  }

  /** If the deque is alone, the record behind item i is item i + 1. */
  lemma NextFindsItem(
    rows: Rows, pending: Pending, db: Database, batch: Batch, s: State, k: Key, i: int, iter: Option<Bytes>)
    requires Linked(rows, pending, db, batch) && Represents(db, batch, s) && WellFormed(s)
    requires k in s.keys && s.keys[k].VDeque? && Alone(s, k)
    requires Encode(s, At(k, Item(i))).Some? && Encode(s, At(k, Item(i + 1))).Some?
    requires StandsAt(iter, Behind(rows, pending, LocatorBytes(At(k, Item(i)))))
    ensures iter == Some(LocatorBytes(At(k, Item(i + 1))))
  {
    var a, b := LocatorBytes(At(k, Item(i))), LocatorBytes(At(k, Item(i + 1)));
    assert Lookup(db, batch, At(k, Item(i + 1))) == Encode(s, At(k, Item(i + 1)));
    assert Shown(rows, pending, db, batch, At(k, Item(i + 1)));
    NextIsBehind(rows, pending, s, k, i);
    var m := iter.value;
    assert Owned(rows, pending, db, batch, m);
    var l :| Named(db, batch, l, m);
    assert Lookup(db, batch, l) == Encode(s, l);
    NothingBetween(s, k, i, l, a, m, b);
    BeforeTotal(m, b);
  }

  // ---------------------------------------------------------------- an example

  /** HSET a# x 1, HSET a| y 1, DEL a|: the sweep meets two records, the descriptor counts one. */
  lemma TwinHashes()
    ensures
      var s := HsetSpec(HsetSpec(State(map[], 0, 0, {}, map[]), [97, 35], [120], [49]).state, [97, 124], [121],
        [49]).state;
      && DescriptorOf(s.keys[[97, 124]]).size == 1 && !Alone(s, [97, 124])
      && PrefixBytes(Entries(THash, [97, 124])) <= LocatorBytes(At([97, 35], Entry(THash, [120])))
      && LocatorBytes(At([97, 35], Entry(THash, [120]))) != LocatorBytes(At([97, 124], Entry(THash, [121])))
  {
    var a: Key, b: Key := [97, 35], [97, 124];
    var s := HsetSpec(HsetSpec(State(map[], 0, 0, {}, map[]), a, [120], [49]).state, b, [121], [49]).state;
    assert s.keys[a] == VHash(map[[120] := [49]]) && s.keys[b] == VHash(map[[121] := [49]]);
    assert Disturbs(s, b, a, [120]);
    EntryPrefix(THash, b, At(a, Entry(THash, [120])));
    EntryCollision(THash, a, [120], b, [121]);
  }
}
