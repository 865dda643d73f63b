/**
 * Reasoning about one write operation: open a key, change its records one by one,
 * and finalize its descriptor (StateMachine::WriteOperation, src/StateMachine.cc:989-1211).
 */
module StoreOperations {
  import opened Bytes
  import opened StoreModel
  import opened StoreSpec

  type Database = map<Locator, Record>
  type Batch = map<Locator, Staged>

  // ---------------------------------------------------------------- running operations

  /** Every record of `s` except the descriptor of `k`, which a running operation has not written yet. */
  ghost predicate RepresentsBut(db: Database, batch: Batch, s: State, k: Key)
  {
    forall l {:trigger Lookup(db, batch, l)} :: l != At(k, Descriptor) ==> Lookup(db, batch, l) == Encode(s, l)
  }

  ghost predicate SameDescriptors(batch0: Batch, batch: Batch)
  {
    forall k :: At(k, Descriptor) in batch <==> At(k, Descriptor) in batch0
  }

  /**
   * A write operation on `k` is under way since the batch was `batch0`: every record
   * except the descriptor of `k` already encodes `v` there, and no descriptor was staged.
   */
  ghost predicate Running(db: Database, batch0: Batch, batch: Batch, s: State, k: Key, v: Value)
  {
    && RepresentsBut(db, batch, s.(keys := s.keys[k := v]), k)
    && SameDescriptors(batch0, batch)
    && Lookup(db, batch, At(k, Descriptor)) == Lookup(db, batch0, At(k, Descriptor))
  }

  /** `w` encodes like `v` except for the record `r` in slot `x` (descriptor aside). */
  ghost predicate OneRecord(v: Value, w: Value, x: Slot, r: Option<Record>)
  {
    x != Descriptor &&
    forall y :: y != Descriptor ==> EncodeValue(w, y) == if y == x then r else EncodeValue(v, y)
  }

  ghost predicate Blank(v: Value)
  {
    forall y :: y != Descriptor ==> EncodeValue(v, y) == None
  }

  function Entered(r: Staged): Option<Record>
  {
    match r case Put(x) => Some(x) case Tombstone => None
  }

  lemma BeginOperation(db: Database, batch: Batch, s: State, k: Key, v: Value)
    requires Represents(db, batch, s)
    requires if k in s.keys then s.keys[k] == v else Blank(v)
    ensures Running(db, batch, batch, s, k, v)
  {
    var t := s.(keys := s.keys[k := v]);
    forall l | l != At(k, Descriptor) ensures Lookup(db, batch, l) == Encode(t, l) {
      assert Lookup(db, batch, l) == Encode(s, l);
    }
  }

  lemma WriteRecord(db: Database, batch0: Batch, batch: Batch, s: State, k: Key, v: Value, w: Value, x: Slot, r: Staged)
    requires Running(db, batch0, batch, s, k, v)
    requires OneRecord(v, w, x, Entered(r))
    ensures Running(db, batch0, batch[At(k, x) := r], s, k, w)
  {
    var t, u := s.(keys := s.keys[k := v]), s.(keys := s.keys[k := w]);
    forall l | l != At(k, Descriptor) ensures Lookup(db, batch[At(k, x) := r], l) == Encode(u, l) {
      assert Lookup(db, batch, l) == Encode(t, l);
    }
  }

  /** What finalize leaves in the batch (src/StateMachine.cc:1164-1180). */
  function Finalized(batch: Batch, k: Key, info: KeyDescriptor, newsize: int, force: bool): Batch
  {
    if newsize == 0 && info.keyType != TVersionedHash then batch[At(k, Descriptor) := Tombstone]
    else if info.size != newsize || force then batch[At(k, Descriptor) := Put(Desc(info.(size := newsize)))]
    else batch
  }

  function DescriptorAt(s: State, k: Key, t: KeyType): KeyDescriptor
  {
    if k in s.keys then DescriptorOf(s.keys[k]) else FreshDescriptor(t)
  }

  lemma SealRecords(db: Database, batch: Batch, batch1: Batch, s: State, k: Key, v: Value)
    requires RepresentsBut(db, batch, s.(keys := s.keys[k := v]), k)
    requires batch1 == batch
      || (At(k, Descriptor) in batch1 && batch1 == batch[At(k, Descriptor) := batch1[At(k, Descriptor)]])
    requires Lookup(db, batch1, At(k, Descriptor)) == if Empty(v) then None else Some(Desc(DescriptorOf(v)))
    requires Empty(v) ==> Blank(v)
    ensures Represents(db, batch1, With(s, k, v))
  {
    forall l ensures Lookup(db, batch1, l) == Encode(With(s, k, v), l) {
      if l != At(k, Descriptor) { assert Lookup(db, batch, l) == Encode(s.(keys := s.keys[k := v]), l); }
    }
  }

  /** Finalizing with the size that `v` calls for completes the operation. */
  lemma FinishOperation(
    db: Database, batch0: Batch, batch: Batch, cache: set<(int, Key)>, s: State, k: Key, v: Value,
    info: KeyDescriptor, newsize: int)
    requires Consistent(db, batch0, cache, s)
    requires Running(db, batch0, batch, s, k, v)
    requires !v.VVersionedHash? && !v.VLease? && !Wrong(s, k, TypeOf(v))
    requires newsize == DescriptorOf(v).size && info.keyType == TypeOf(v)
    requires info.size == DescriptorAt(s, k, TypeOf(v)).size
    requires Empty(v) ==> Blank(v)
    requires !Empty(v) ==> info.(size := newsize) == DescriptorOf(v) && WellFormedValue(v, s.clock)
    requires !Empty(v) && newsize == info.size ==> info == DescriptorAt(s, k, TypeOf(v))
    ensures Consistent(db, Finalized(batch, k, info, newsize, false), cache, With(s, k, v))
  {
    var batch1 := Finalized(batch, k, info, newsize, false);
    assert newsize == 0 <==> Empty(v);
    assert Lookup(db, batch0, At(k, Descriptor)) == Encode(s, At(k, Descriptor));
    SealRecords(db, batch, batch1, s, k, v);
  }

  /** A versioned hash keeps its descriptor, and with it the mark of being touched, whatever its size. */
  lemma FinishVersioned(
    db: Database, batch0: Batch, batch: Batch, cache: set<(int, Key)>, s: State, s1: State, k: Key, v: Value,
    info: KeyDescriptor, newsize: int)
    requires Consistent(db, batch0, cache, s)
    requires Running(db, batch0, batch, s, k, v)
    requires v.VVersionedHash? && 0 <= v.version && !Wrong(s, k, TVersionedHash)
    requires info.(size := newsize) == DescriptorOf(v)
    requires s1 == s.(keys := s.keys[k := v], touched := s.touched + {k}, revisions := s1.revisions)
    ensures Consistent(db, Finalized(batch, k, info, newsize, true), cache, s1)
  {
    var batch1 := Finalized(batch, k, info, newsize, true);
    SealRecords(db, batch, batch1, s, k, v);
    forall l ensures Lookup(db, batch1, l) == Encode(s1, l) {
      assert Encode(s1, l) == Encode(With(s, k, v), l);
    }
  }

  // ---------------------------------------------------------------- one record of each collection

  lemma DropRecord(m: map<Field, Bytes>, n: int, f: Field)
    ensures OneRecord(VHash(m), VHash(Without(m, f)), Entry(THash, f), None)
    ensures OneRecord(VVersionedHash(m, n), VVersionedHash(Without(m, f), n), Entry(TVersionedHash, f), None)
  {
  }

  /** A running operation reads its own writes. */
  lemma ReadRecord(db: Database, batch0: Batch, batch: Batch, s: State, k: Key, v: Value, x: Slot)
    requires Running(db, batch0, batch, s, k, v)
    requires x != Descriptor
    ensures Lookup(db, batch, At(k, x)) == EncodeValue(v, x)
  {
  }

  lemma ReadOtherKey(db: Database, batch0: Batch, batch: Batch, s: State, k: Key, v: Value, l: Locator)
    requires Running(db, batch0, batch, s, k, v)
    requires l.At? && l.key != k
    ensures Lookup(db, batch, l) == Encode(s, l)
  {
  }

  lemma HashPut(db: Database, batch0: Batch, batch: Batch, s: State, k: Key, m: map<Field, Bytes>, f: Field, x: Bytes)
    requires Running(db, batch0, batch, s, k, VHash(m))
    ensures Running(db, batch0, batch[At(k, Entry(THash, f)) := Put(Raw(x))], s, k, VHash(m[f := x]))
  {
    WriteRecord(db, batch0, batch, s, k, VHash(m), VHash(m[f := x]), Entry(THash, f), Put(Raw(x)));
  }

  lemma HashDelete(db: Database, batch0: Batch, batch: Batch, s: State, k: Key, m: map<Field, Bytes>, f: Field)
    requires Running(db, batch0, batch, s, k, VHash(m))
    requires f in m
    ensures Running(db, batch0, batch[At(k, Entry(THash, f)) := Tombstone], s, k, VHash(Without(m, f)))
  {
    DropRecord(m, 0, f);
    WriteRecord(db, batch0, batch, s, k, VHash(m), VHash(Without(m, f)), Entry(THash, f), Tombstone);
  }

  lemma SetPut(db: Database, batch0: Batch, batch: Batch, s: State, k: Key, m: set<Field>, f: Field)
    requires Running(db, batch0, batch, s, k, VSet(m))
    ensures Running(db, batch0, batch[At(k, Entry(TSet, f)) := Put(Raw(ONE))], s, k, VSet(m + {f}))
  {
    WriteRecord(db, batch0, batch, s, k, VSet(m), VSet(m + {f}), Entry(TSet, f), Put(Raw(ONE)));
  }

  lemma SetDelete(db: Database, batch0: Batch, batch: Batch, s: State, k: Key, m: set<Field>, f: Field)
    requires Running(db, batch0, batch, s, k, VSet(m))
    requires f in m
    ensures Running(db, batch0, batch[At(k, Entry(TSet, f)) := Tombstone], s, k, VSet(m - {f}))
  {
    WriteRecord(db, batch0, batch, s, k, VSet(m), VSet(m - {f}), Entry(TSet, f), Tombstone);
  }

  lemma VersionedPut(
    db: Database, batch0: Batch, batch: Batch, s: State, k: Key, m: map<Field, Bytes>, n: int, f: Field, x: Bytes)
    requires Running(db, batch0, batch, s, k, VVersionedHash(m, n))
    ensures Running(db, batch0, batch[At(k, Entry(TVersionedHash, f)) := Put(Raw(x))], s, k,
      VVersionedHash(m[f := x], n))
  {
    WriteRecord(db, batch0, batch, s, k, VVersionedHash(m, n), VVersionedHash(m[f := x], n), Entry(TVersionedHash, f),
      Put(Raw(x)));
  }

  lemma VersionedDelete(
    db: Database, batch0: Batch, batch: Batch, s: State, k: Key, m: map<Field, Bytes>, n: int, f: Field)
    requires Running(db, batch0, batch, s, k, VVersionedHash(m, n))
    requires f in m
    ensures Running(db, batch0, batch[At(k, Entry(TVersionedHash, f)) := Tombstone], s, k,
      VVersionedHash(Without(m, f), n))
  {
    DropRecord(m, n, f);
    WriteRecord(db, batch0, batch, s, k, VVersionedHash(m, n), VVersionedHash(Without(m, f), n),
      Entry(TVersionedHash, f), Tombstone);
  }

  /** The version lives in the descriptor only. */
  lemma ChangeVersion(
    db: Database, batch0: Batch, batch: Batch, s: State, k: Key, m: map<Field, Bytes>, n: int, n1: int)
    requires Running(db, batch0, batch, s, k, VVersionedHash(m, n))
    ensures Running(db, batch0, batch, s, k, VVersionedHash(m, n1))
  {
    var t, u := s.(keys := s.keys[k := VVersionedHash(m, n)]), s.(keys := s.keys[k := VVersionedHash(m, n1)]);
    forall l | l != At(k, Descriptor) ensures Lookup(db, batch, l) == Encode(u, l) {
      assert Lookup(db, batch, l) == Encode(t, l);
    }
  }

  lemma DequeAdd(
    db: Database, batch0: Batch, batch: Batch, s: State, k: Key, d: Direction, v: Value, x: Bytes)
    requires v.VDeque? && Running(db, batch0, batch, s, k, v)
    ensures Running(db, batch0, batch[At(k, Item(EdgeOf(d, v))) := Put(Raw(x))], s, k, PushOne(d, v, x))
  {
    WriteRecord(db, batch0, batch, s, k, v, PushOne(d, v, x), Item(EdgeOf(d, v)), Put(Raw(x)));
  }

  lemma DequeDropFront(db: Database, batch0: Batch, batch: Batch, s: State, k: Key, items: seq<Bytes>, start: int)
    requires Running(db, batch0, batch, s, k, VDeque(items, start))
    requires items != []
    ensures Lookup(db, batch, At(k, Item(start + 1))) == Some(Raw(items[0]))
    ensures Running(db, batch0, batch[At(k, Item(start + 1)) := Tombstone], s, k, VDeque(items[1..], start + 1))
  {
    ReadRecord(db, batch0, batch, s, k, VDeque(items, start), Item(start + 1));
    WriteRecord(db, batch0, batch, s, k, VDeque(items, start), VDeque(items[1..], start + 1), Item(start + 1),
      Tombstone);
  }

  lemma DequeDropBack(db: Database, batch0: Batch, batch: Batch, s: State, k: Key, items: seq<Bytes>, start: int)
    requires Running(db, batch0, batch, s, k, VDeque(items, start))
    requires items != []
    ensures Lookup(db, batch, At(k, Item(start + |items|))) == Some(Raw(items[|items| - 1]))
    ensures Running(db, batch0, batch[At(k, Item(start + |items|)) := Tombstone], s, k,
      VDeque(items[..|items| - 1], start))
  {
    ReadRecord(db, batch0, batch, s, k, VDeque(items, start), Item(start + |items|));
    WriteRecord(db, batch0, batch, s, k, VDeque(items, start), VDeque(items[..|items| - 1], start),
      Item(start + |items|), Tombstone);
  }

  lemma ReadItem(db: Database, batch: Batch, s: State, k: Key, i: int)
    requires Represents(db, batch, s) && k in s.keys && s.keys[k].VDeque?
    requires s.keys[k].start < i <= s.keys[k].start + |s.keys[k].items|
    ensures Lookup(db, batch, At(k, Item(i))) == Some(Raw(s.keys[k].items[i - s.keys[k].start - 1]))
  {
    assert Lookup(db, batch, At(k, Item(i))) == Encode(s, At(k, Item(i)));
  }

  // ---------------------------------------------------------------- locality hashes: several records per field

  /** The batch differs from `batch` at data and index records of `k` only. */
  ghost predicate OnlyLocality(batch: Batch, batch1: Batch, k: Key)
  {
    forall l: Locator :: (l.At? && l.key == k && (l.slot.LocalityData? || l.slot.LocalityIndex?)) ||
                ((l in batch1 <==> l in batch) && (l in batch ==> batch1[l] == batch[l]))
  }

  lemma RewriteLocality(
    db: Database, batch0: Batch, batch: Batch, batch1: Batch, s: State, k: Key, m: map<Field, Located>,
      m1: map<Field, Located>)
    requires Running(db, batch0, batch, s, k, VLocalityHash(m))
    requires OnlyLocality(batch, batch1, k)
    requires forall h, f ::
      Lookup(db, batch1, At(k, LocalityData(h, f))) == EncodeValue(VLocalityHash(m1), LocalityData(h, f))
    requires forall f :: Lookup(db, batch1, At(k, LocalityIndex(f))) == EncodeValue(VLocalityHash(m1), LocalityIndex(f))
    ensures Running(db, batch0, batch1, s, k, VLocalityHash(m1))
  {
    var t, u := s.(keys := s.keys[k := VLocalityHash(m)]), s.(keys := s.keys[k := VLocalityHash(m1)]);
    forall l | l != At(k, Descriptor) ensures Lookup(db, batch1, l) == Encode(u, l) {
      assert Lookup(db, batch, l) == Encode(t, l);
    }
  }

  lemma LocalityRead(db: Database, batch0: Batch, batch: Batch, s: State, k: Key, m: map<Field, Located>)
    requires Running(db, batch0, batch, s, k, VLocalityHash(m))
    ensures forall h, f ::
      Lookup(db, batch, At(k, LocalityData(h, f))) == EncodeValue(VLocalityHash(m), LocalityData(h, f))
    ensures forall f :: Lookup(db, batch, At(k, LocalityIndex(f))) == EncodeValue(VLocalityHash(m), LocalityIndex(f))
  {
  }

  lemma LocalityOverwrite(
    db: Database, batch0: Batch, batch: Batch, s: State, k: Key, m: map<Field, Located>, f: Field, h: Hint, x: Bytes)
    requires Running(db, batch0, batch, s, k, VLocalityHash(m))
    requires f in m && m[f].hint == h
    ensures Running(db, batch0, batch[At(k, LocalityData(h, f)) := Put(Raw(x))], s, k,
      VLocalityHash(m[f := Located(h, x)]))
  {
    WriteRecord(db, batch0, batch, s, k, VLocalityHash(m), VLocalityHash(m[f := Located(h, x)]), LocalityData(h, f),
      Put(Raw(x)));
  }

  /** Moving a field to another hint takes three records; in between, no value is encoded. */
  lemma LocalityMove(
    db: Database, batch0: Batch, batch: Batch, s: State, k: Key, m: map<Field, Located>, f: Field, h: Hint, x: Bytes)
    requires Running(db, batch0, batch, s, k, VLocalityHash(m))
    requires f in m && m[f].hint != h
    ensures Running(db, batch0, batch[At(k, LocalityData(m[f].hint, f)) := Tombstone]
                                     [At(k, LocalityData(h, f)) := Put(Raw(x))]
                                     [At(k, LocalityIndex(f)) := Put(Raw(h))],
                    s, k, VLocalityHash(m[f := Located(h, x)]))
  {
    LocalityRead(db, batch0, batch, s, k, m);
    var batch1 := batch[At(k, LocalityData(m[f].hint, f)) := Tombstone]
                       [At(k, LocalityData(h, f)) := Put(Raw(x))][At(k, LocalityIndex(f)) := Put(Raw(h))];
    RewriteLocality(db, batch0, batch, batch1, s, k, m, m[f := Located(h, x)]);
  }

  lemma LocalityCreate(
    db: Database, batch0: Batch, batch: Batch, s: State, k: Key, m: map<Field, Located>, f: Field, h: Hint, x: Bytes)
    requires Running(db, batch0, batch, s, k, VLocalityHash(m))
    requires f !in m
    ensures Running(db, batch0, batch[At(k, LocalityData(h, f)) := Put(Raw(x))][At(k, LocalityIndex(f)) := Put(Raw(h))],
                    s, k, VLocalityHash(m[f := Located(h, x)]))
  {
    LocalityRead(db, batch0, batch, s, k, m);
    var batch1 := batch[At(k, LocalityData(h, f)) := Put(Raw(x))][At(k, LocalityIndex(f)) := Put(Raw(h))];
    RewriteLocality(db, batch0, batch, batch1, s, k, m, m[f := Located(h, x)]);
  }

  lemma LocalityDelete(db: Database, batch0: Batch, batch: Batch, s: State, k: Key, m: map<Field, Located>, f: Field)
    requires Running(db, batch0, batch, s, k, VLocalityHash(m))
    requires f in m
    ensures Running(db, batch0,
      batch[At(k, LocalityIndex(f)) := Tombstone][At(k, LocalityData(m[f].hint, f)) := Tombstone],
                    s, k, VLocalityHash(Without(m, f)))
  {
    LocalityRead(db, batch0, batch, s, k, m);
    var batch1 := batch[At(k, LocalityIndex(f)) := Tombstone][At(k, LocalityData(m[f].hint, f)) := Tombstone];
    RewriteLocality(db, batch0, batch, batch1, s, k, m, Without(m, f));
  }

  // ---------------------------------------------------------------- whole keys

  /** `batch1` agrees with `batch` except at records of `k`. */
  ghost predicate OnlyKey(batch: Batch, batch1: Batch, k: Key)
  {
    forall l: Locator :: (l.At? && l.key == k) ||
                         ((l in batch1 <==> l in batch) && (l in batch ==> batch1[l] == batch[l]))
  }

  /** `s1` is `s` except for the value of `k`, and the batch shows just that. */
  lemma ReplaceKey(db: Database, batch: Batch, batch1: Batch, s: State, s1: State, k: Key)
    requires Represents(db, batch, s)
    requires OnlyKey(batch, batch1, k)
    requires forall x :: Lookup(db, batch1, At(k, x)) == Encode(s1, At(k, x))
    requires s1.clock == s.clock && s1.lastApplied == s.lastApplied
    requires forall j :: j != k ==> (j in s1.keys <==> j in s.keys) && (j in s.keys ==> s1.keys[j] == s.keys[j])
    ensures Represents(db, batch1, s1)
  {
    forall l ensures Lookup(db, batch1, l) == Encode(s1, l) {
      if !(l.At? && l.key == k) { assert Lookup(db, batch, l) == Encode(s, l); }
    }
  }

  // ---------------------------------------------------------------- scans by prefix

  /** The record groups that remove_all_with_prefix is called on. */
  datatype Prefix = Entries(kind: KeyType, of: Key) | Items(of: Key) | Data(of: Key) | Indexes(of: Key) | Everything

  predicate Matches(p: Prefix, l: Locator)
  {
    l.At? &&
    match p
    case Entries(t, k) => l.key == k && l.slot.Entry? && l.slot.kind == t
    case Items(k) => l.key == k && l.slot.Item?
    case Data(k) => l.key == k && l.slot.LocalityData?
    case Indexes(k) => l.key == k && l.slot.LocalityIndex?
    case Everything => true  // internal records are skipped
  }

  /** What an iterator over batch and database finds under a prefix. */
  function Found(db: Database, batch: Batch, p: Prefix): set<Locator>
  {
    set l | l in db.Keys + batch.Keys && Lookup(db, batch, l).Some? && Matches(p, l)
  }

  /** Two finite sets in one-to-one correspondence have the same size. */
  lemma {:induction false} SameSize<A, B>(a: set<A>, b: set<B>, f: A -> B, g: B -> A)
    requires forall x :: x in a ==> f(x) in b && g(f(x)) == x
    requires forall y :: y in b ==> g(y) in a && f(g(y)) == y
    ensures |b| == |a|
  {
    if a == {} {
      assert b == {} by { if y :| y in b { assert g(y) in a; } }
    } else {
      var x :| x in a;
      SameSize(a - {x}, b - {f(x)}, f, g);
    }
  }

  /** The indexes lo+1 .. lo+n. */
  function IndexRange(lo: int, n: nat): (r: set<int>)
    ensures forall i :: i in r <==> lo < i <= lo + n
    ensures |r| == n
  {
    if n == 0 then {} else IndexRange(lo, n - 1) + {lo + n}
  }

  /** The counters agree with the records: what del checks before it trusts a descriptor. */
  lemma FoundEntries(db: Database, batch: Batch, s: State, k: Key)
    requires Represents(db, batch, s) && k in s.keys
    requires s.keys[k].VHash? || s.keys[k].VSet? || s.keys[k].VVersionedHash?
    ensures |Found(db, batch, Entries(TypeOf(s.keys[k]), k))| == DescriptorOf(s.keys[k]).size
  {
    var v := s.keys[k];
    var t := TypeOf(v);
    var fields := if v.VHash? then v.fields.Keys else if v.VSet? then v.members else v.entries.Keys;
    var b := Found(db, batch, Entries(t, k));
    var at := (f: Field) => At(k, Entry(t, f));
    forall f ensures at(f) in b <==> f in fields {
      assert Lookup(db, batch, at(f)) == Encode(s, at(f));
    }
    SameSize(fields, b, at, (l: Locator) => if l.At? && l.slot.Entry? then l.slot.field else []);
  }

  lemma FoundItems(db: Database, batch: Batch, s: State, k: Key)
    requires Represents(db, batch, s) && k in s.keys && s.keys[k].VDeque?
    ensures |Found(db, batch, Items(k))| == |s.keys[k].items|
  {
    var v := s.keys[k];
    var indexes := IndexRange(v.start, |v.items|);
    var b := Found(db, batch, Items(k));
    var at := (i: int) => At(k, Item(i));
    forall i ensures at(i) in b <==> i in indexes {
      assert Lookup(db, batch, at(i)) == Encode(s, at(i));
    }
    SameSize(indexes, b, at, (l: Locator) => if l.At? && l.slot.Item? then l.slot.index else 0);
  }

  lemma FoundIndexes(db: Database, batch: Batch, s: State, k: Key)
    requires Represents(db, batch, s) && k in s.keys && s.keys[k].VLocalityHash?
    ensures |Found(db, batch, Indexes(k))| == |s.keys[k].located|
  {
    var fields := s.keys[k].located.Keys;
    var b := Found(db, batch, Indexes(k));
    var index := (f: Field) => At(k, LocalityIndex(f));
    forall f ensures index(f) in b <==> f in fields {
      assert Lookup(db, batch, index(f)) == Encode(s, index(f));
    }
    SameSize(fields, b, index, (l: Locator) => if l.At? && l.slot.LocalityIndex? then l.slot.field else []);
  }

  lemma FoundData(db: Database, batch: Batch, s: State, k: Key)
    requires Represents(db, batch, s) && k in s.keys && s.keys[k].VLocalityHash?
    ensures |Found(db, batch, Data(k))| == |s.keys[k].located|
  {
    var m := s.keys[k].located;
    var fields, b := m.Keys, Found(db, batch, Data(k));
    var data := (f: Field) => At(k, LocalityData(if f in m then m[f].hint else [], f));
    forall h, f ensures At(k, LocalityData(h, f)) in b <==> f in fields && m[f].hint == h {
      assert Lookup(db, batch, At(k, LocalityData(h, f))) == Encode(s, At(k, LocalityData(h, f)));
    }
    SameSize(fields, b, data, (l: Locator) => if l.At? && l.slot.LocalityData? then l.slot.field else []);
  }

  // ---------------------------------------------------------------- leases

  /** Staging a tombstone for a descriptor that does not exist changes nothing. */
  lemma ReplaceAbsent(db: Database, batch: Batch, batch1: Batch, cache: set<(int, Key)>, s: State, k: Key)
    requires Consistent(db, batch, cache, s) && k !in s.keys
    requires batch1 == batch[At(k, Descriptor) := Tombstone]
    ensures Consistent(db, batch1, cache, s)
  {
    forall x ensures Lookup(db, batch1, At(k, x)) == Encode(s, At(k, x)) {
      assert Lookup(db, batch, At(k, x)) == Encode(s, At(k, x));
    }
    ReplaceKey(db, batch, batch1, s, s, k);
  }

  lemma ReplaceReleased(db: Database, batch: Batch, batch1: Batch, cache: set<(int, Key)>, s: State, k: Key)
    requires Consistent(db, batch, cache, s) && k in s.keys && s.keys[k].VLease?
    requires batch1 == batch[At(k, ExpirationEvent(s.keys[k].until)) := Tombstone][At(k, LeaseHolder) := Tombstone]
                            [At(k, Descriptor) := Tombstone]
    ensures Consistent(db, batch1, cache - {(s.keys[k].until, k)}, s.(keys := Without(s.keys, k)))
  {
    var s1 := s.(keys := Without(s.keys, k));
    forall x ensures Lookup(db, batch1, At(k, x)) == Encode(s1, At(k, x)) {
      assert Lookup(db, batch, At(k, x)) == Encode(s, At(k, x));
    }
    ReplaceKey(db, batch, batch1, s, s1, k);
    forall j | j in s1.keys ensures WellFormedValue(s1.keys[j], s1.clock) {
      assert WellFormedValue(s.keys[j], s.clock);
    }
  }

  /** Once no cached deadline is due, what is left is what advancing the clock keeps. */
  lemma DrainedIsAdvanced(cache: set<(int, Key)>, s0: State, s: State, now: int)
    requires CacheExactly(cache, s) && WellFormed(s0) && (forall x :: x in cache ==> now < x.0)
    requires s == s0.(keys := s.keys) && s0.clock <= now
    requires forall k :: k in s.keys ==> k in s0.keys && s.keys[k] == s0.keys[k]
    requires forall k :: k in s0.keys && k !in s.keys ==> Expired(s0.keys[k], now)
    ensures forall k :: k in s.keys && s.keys[k].VLease? ==> now < s.keys[k].until
    ensures s.(clock := now) == Advance(s0, now)
  {
    forall k | k in s.keys && s.keys[k].VLease? ensures now < s.keys[k].until {
      assert (s.keys[k].until, k) in cache;
    }
    forall k | k in s0.keys && k !in s.keys ensures s0.clock < now {
      assert WellFormedValue(s0.keys[k], s0.clock);
    }
    assert s.keys == Advance(s0, now).keys;
  }

  lemma Tick(db: Database, batch: Batch, cache: set<(int, Key)>, s: State, now: int)
    requires Consistent(db, batch, cache, s) && s.clock <= now
    requires forall k :: k in s.keys && s.keys[k].VLease? ==> now < s.keys[k].until
    ensures Consistent(db, batch[Clock := Put(Number(now))], cache, s.(clock := now))
  {
    var batch1, s1 := batch[Clock := Put(Number(now))], s.(clock := now);
    forall l ensures Lookup(db, batch1, l) == Encode(s1, l) {
      assert Lookup(db, batch, l) == Encode(s, l);
    }
    forall k | k in s1.keys ensures WellFormedValue(s1.keys[k], s1.clock) {
      assert WellFormedValue(s.keys[k], s.clock);
    }
  }

  /** The batch after a lease was granted, given the value it replaces, if any. */
  function GrantedBatch(batch: Batch, s: State, k: Key, v: Value): Batch
    requires v.VLease? && !Wrong(s, k, TLease)
  {
    (if k in s.keys then batch[At(k, ExpirationEvent(s.keys[k].until)) := Tombstone] else batch)
    [At(k, ExpirationEvent(v.until)) := Put(Raw(ONE))][At(k, LeaseHolder) := Put(Raw(v.holder))]
    [At(k, Descriptor) := Put(Desc(DescriptorOf(v)))]
  }

  function GrantedCache(cache: set<(int, Key)>, s: State, k: Key, deadline: int): set<(int, Key)>
    requires !Wrong(s, k, TLease)
  {
    (if k in s.keys then cache - {(s.keys[k].until, k)} else cache) + {(deadline, k)}
  }

  lemma ReplaceGranted(
    db: Database, batch: Batch, batch1: Batch, cache: set<(int, Key)>, cache1: set<(int, Key)>, s: State, k: Key,
      v: Value)
    requires Consistent(db, batch, cache, s) && v.VLease? && !Wrong(s, k, TLease)
    requires WellFormedValue(v, s.clock)
    requires batch1 == GrantedBatch(batch, s, k, v) && cache1 == GrantedCache(cache, s, k, v.until)
    ensures Consistent(db, batch1, cache1, With(s, k, v))
  {
    GrantedRecords(db, batch, batch1, s, k, v);
    GrantedFrame(batch, batch1, cache, cache1, s, k, v);
  }

  lemma GrantedRecords(db: Database, batch: Batch, batch1: Batch, s: State, k: Key, v: Value)
    requires Represents(db, batch, s) && v.VLease? && !Wrong(s, k, TLease)
    requires batch1 == GrantedBatch(batch, s, k, v)
    ensures Represents(db, batch1, With(s, k, v))
  {
    var s1 := With(s, k, v);
    forall x ensures Lookup(db, batch1, At(k, x)) == Encode(s1, At(k, x)) {
      assert Lookup(db, batch, At(k, x)) == Encode(s, At(k, x));
    }
    ReplaceKey(db, batch, batch1, s, s1, k);
  }

  lemma GrantedFrame(
    batch: Batch, batch1: Batch, cache: set<(int, Key)>, cache1: set<(int, Key)>, s: State, k: Key, v: Value)
    requires TouchedExactly(batch, s) && CacheExactly(cache, s) && WellFormed(s)
    requires v.VLease? && !Wrong(s, k, TLease) && WellFormedValue(v, s.clock)
    requires batch1 == GrantedBatch(batch, s, k, v) && cache1 == GrantedCache(cache, s, k, v.until)
    ensures TouchedExactly(batch1, With(s, k, v)) && CacheExactly(cache1, With(s, k, v)) && WellFormed(With(s, k, v))
  {
    var s1 := With(s, k, v);
    forall d, j ensures (d, j) in cache1 <==> j in s1.keys && s1.keys[j].VLease? && s1.keys[j].until == d {
      assert (d, j) in cache <==> j in s.keys && s.keys[j].VLease? && s.keys[j].until == d;
    }
    forall j | j in s1.keys ensures WellFormedValue(s1.keys[j], s1.clock) {
      if j != k { assert WellFormedValue(s.keys[j], s.clock); }
    }
  }

  // ---------------------------------------------------------------- deletion, commit

  /** The batch after tombstones were staged for all of `victims`. */
  function Buried(batch: Batch, victims: set<Locator>): Batch
  {
    map l | l in batch.Keys + victims :: if l in victims then Tombstone else batch[l]
  }

  lemma BurySingle(batch: Batch, l: Locator)
    ensures Buried(batch, {l}) == batch[l := Tombstone]
  {
  }

  lemma BuryTwice(batch: Batch, a: set<Locator>, b: set<Locator>)
    ensures Buried(Buried(batch, a), b) == Buried(batch, a + b)
  {
  }

  /** The records of a key besides its descriptor, as DEL collects them. */
  function RecordsOf(db: Database, batch: Batch, v: Value, k: Key): set<Locator>
  {
    match v
    case VString(_) => {At(k, Text)}
    case VDeque(_, _) => Found(db, batch, Items(k))
    case VLocalityHash(_) => Found(db, batch, Data(k)) + Found(db, batch, Indexes(k))
    case _ => Found(db, batch, Entries(TypeOf(v), k))
  }

  /** Those are all the records there are. */
  lemma RecordsAreAll(db: Database, batch: Batch, s: State, k: Key, x: Slot)
    requires Represents(db, batch, s) && k in s.keys && !s.keys[k].VLease?
    requires x != Descriptor && At(k, x) !in RecordsOf(db, batch, s.keys[k], k)
    ensures Lookup(db, batch, At(k, x)) == None
  {
    assert Lookup(db, batch, At(k, x)) == Encode(s, At(k, x)) == EncodeValue(s.keys[k], x);
  }

  lemma RecordsAreOwn(db: Database, batch: Batch, s: State, k: Key)
    requires k in s.keys && !s.keys[k].VLease?
    ensures forall l :: l in RecordsOf(db, batch, s.keys[k], k) ==> l.At? && l.key == k && l.slot != Descriptor
  {
  }

  lemma ReplaceDeleted(db: Database, batch: Batch, batch1: Batch, cache: set<(int, Key)>, s: State, k: Key)
    requires Consistent(db, batch, cache, s) && k in s.keys && !s.keys[k].VLease?
    requires batch1 == Buried(batch, RecordsOf(db, batch, s.keys[k], k))[At(k, Descriptor) := Tombstone]
    ensures Consistent(db, batch1, cache, DelOne(s, k))
  {
    var s1, victims := DelOne(s, k), RecordsOf(db, batch, s.keys[k], k);
    RecordsAreOwn(db, batch, s, k);
    ReplaceBuried(db, batch, batch1, s, s1, k, victims);
    DeletedFrame(batch, batch1, cache, s, k);
  }

  lemma ReplaceBuried(db: Database, batch: Batch, batch1: Batch, s: State, s1: State, k: Key, victims: set<Locator>)
    requires Represents(db, batch, s) && k in s.keys && !s.keys[k].VLease?
    requires victims == RecordsOf(db, batch, s.keys[k], k)
    requires forall l :: l in victims ==> l.At? && l.key == k && l.slot != Descriptor
    requires batch1 == Buried(batch, victims)[At(k, Descriptor) := Tombstone]
    requires s1 == DelOne(s, k)
    ensures Represents(db, batch1, s1)
  {
    forall x ensures Lookup(db, batch1, At(k, x)) == Encode(s1, At(k, x)) {
      if x != Descriptor && At(k, x) !in victims { RecordsAreAll(db, batch, s, k, x); }
    }
    ReplaceKey(db, batch, batch1, s, s1, k);
  }

  lemma DeletedFrame(batch: Batch, batch1: Batch, cache: set<(int, Key)>, s: State, k: Key)
    requires TouchedExactly(batch, s) && CacheExactly(cache, s) && WellFormed(s)
    requires k in s.keys && !s.keys[k].VLease?
    requires forall j :: j != k ==> (At(j, Descriptor) in batch1 <==> At(j, Descriptor) in batch)
    ensures TouchedExactly(batch1, DelOne(s, k)) && CacheExactly(cache, DelOne(s, k)) && WellFormed(DelOne(s, k))
  {
    var s1 := DelOne(s, k);
    forall j | j in s1.keys ensures WellFormedValue(s1.keys[j], s1.clock) {
      assert WellFormedValue(s.keys[j], s.clock);
    }
    forall j ensures j in s1.touched <==> j in s1.keys && s1.keys[j].VVersionedHash? && At(j, Descriptor) in batch1 {
      assert j in s.touched <==> j in s.keys && s.keys[j].VVersionedHash? && At(j, Descriptor) in batch;
    }
  }

  lemma FlushRepresents(db: Database, batch: Batch, s: State)
    requires Represents(db, batch, s)
    ensures Represents(db, Buried(batch, Found(db, batch, Everything)), FlushAllSpec(s).state)
  {
    var batch1 := Buried(batch, Found(db, batch, Everything));
    forall l ensures Lookup(db, batch1, l) == Encode(FlushAllSpec(s).state, l) {
      assert Lookup(db, batch, l) == Encode(s, l);
    }
  }

  /** The database after the batch was written to it. */
  function Merged(db: Database, batch: Batch): Database
  {
    map l | l in db.Keys + batch.Keys && Lookup(db, batch, l).Some? :: Lookup(db, batch, l).value
  }

  lemma CommitRepresents(db: Database, batch: Batch, batch1: Batch, cache: set<(int, Key)>, s: State, index: int)
    requires Consistent(db, batch, cache, s)
    requires batch1 == if index > 0 then batch[LastApplied := Put(Number(index))] else batch
    ensures Consistent(Merged(db, batch1), map[], cache, CommitSpec(s, index))
  {
    var db1 := Merged(db, batch1);
    forall l ensures Lookup(db1, map[], l) == Encode(CommitSpec(s, index), l) {
      assert Lookup(db, batch, l) == Encode(s, l);
      assert Lookup(db1, map[], l) == Lookup(db, batch1, l);
    }
    forall j | j in s.keys ensures WellFormedValue(CommitSpec(s, index).keys[j], s.clock) {
      assert WellFormedValue(s.keys[j], s.clock);
    }
  }
}
