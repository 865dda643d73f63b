/**
 * What the commands do to records that share a name with others. A command whose records are clear
 * does what the store is meant to do; the others read, overwrite or delete a record of a twin key,
 * or of another field under a twin hint.
 */
module Collisions {
  import opened Bytes
  import opened ByteOrder
  import opened StoreModel
  import opened StoreSpec
  import opened StoreOperations
  import opened KeyLocators
  import opened Names
  import opened Sweeps

  // ---------------------------------------------------------------- hashes

  function EntryOf(k: Key, t: KeyType, f: Field): Locator
  {
    At(k, Entry(t, f))
  }

  predicate FieldsClear(s: State, k: Key, t: KeyType, fs: seq<Field>)
  {
    forall i {:trigger fs[i]} :: 0 <= i < |fs| ==> Clear(s, EntryOf(k, t, fs[i]))
  }

  /** The fields that a command reads or writes in a hash, a set or a versioned hash are clear. */
  predicate EntriesApart(s: State, k: Key, t: KeyType, fs: seq<Field>)
  {
    Wrong(s, k, t) || FieldsClear(s, k, t, fs)
  }

  predicate EntryApart(s: State, k: Key, t: KeyType, f: Field)
  {
    Wrong(s, k, t) || Clear(s, EntryOf(k, t, f))
  }

  /** HGET answers with the value of the namesake, if there is one. */
  function HgetByName(s: State, k: Key, f: Field): Reply
  {
    if Wrong(s, k, THash) || Clear(s, EntryOf(k, THash, f)) then HgetSpec(s, k, f)
    else
      var m := Namesake(EntryOf(k, THash, f)).value;
      Bulk(HashOf(s, m.key)[m.slot.field])
  }

  /** HSET overwrites the namesake, and takes its field for the one it was asked to set. */
  function HsetByName(s: State, k: Key, f: Field, x: Bytes): Outcome
  {
    if Wrong(s, k, THash) || Clear(s, EntryOf(k, THash, f)) then HsetSpec(s, k, f, x)
    else
      var m := Namesake(EntryOf(k, THash, f)).value;
      Outcome(With(s, m.key, VHash(HashOf(s, m.key)[m.slot.field := x])), Count(0))
  }

  function HsetnxByName(s: State, k: Key, f: Field, x: Bytes): Outcome
  {
    if Wrong(s, k, THash) || Clear(s, EntryOf(k, THash, f)) then HsetnxSpec(s, k, f, x) else Outcome(s, Count(0))
  }

  /** SADD takes an element whose name is taken for one that is there. */
  function AddByName(s: State, k: Key, m: set<Field>, f: Field): set<Field>
  {
    if Clear(s, EntryOf(k, TSet, f)) then m + {f} else m
  }

  function AddAllByName(s: State, k: Key, m: set<Field>, fs: seq<Field>): set<Field>
  {
    if fs == [] then m else AddByName(s, k, AddAllByName(s, k, m, fs[..|fs| - 1]), fs[|fs| - 1])
  }

  function SaddByName(s: State, k: Key, fs: seq<Field>): Outcome
  {
    if Wrong(s, k, TSet) then Outcome(s, WrongType)
    else
      var m := AddAllByName(s, k, SetOf(s, k), fs);
      Outcome(With(s, k, VSet(m)), Count(|m| - |SetOf(s, k)|))
  }

  /** SMOVE likewise at its target. */
  function SmoveByName(s: State, source: Key, target: Key, f: Field): Outcome
  {
    if Wrong(s, source, TSet) || Wrong(s, target, TSet) then Outcome(s, WrongType)
    else if f !in SetOf(s, source) then Outcome(s, Count(0))
    else
      var s1 := With(s, source, VSet(SetOf(s, source) - {f}));
      Outcome(With(s1, target, VSet(AddByName(s1, target, SetOf(s1, target), f))), Count(1))
  }

  /** A record is found where the field is looked for. */
  predicate Hits(s: State, k: Key, t: KeyType, f: Field)
  {
    Encode(s, EntryOf(k, t, f)).Some? || !Clear(s, EntryOf(k, t, f))
  }

  /** What a deletion removes, and counts. */
  function HitsOf(s: State, k: Key, t: KeyType, fs: seq<Field>): set<Field>
  {
    set f | f in fs && Hits(s, k, t, f)
  }

  function HitCount(s: State, k: Key, t: KeyType, fs: seq<Field>): nat
  {
    |HitsOf(s, k, t, fs)|
  }

  // ---------------------------------------------------------------- locality hashes

  /** A placement under a name that another field has changes the value of that field. */
  function PlaceByName(m: map<Field, Located>, f: Field, h: Hint, x: Bytes): map<Field, Located>
  {
    if HintClear(m, f, h) then m[f := Located(h, x)]
    else
      var p := Other(h, f).value;
      m[p.1 := Located(p.0, x)]
  }

  function PlaceAllByName(m: map<Field, Located>, ps: seq<Placement>): map<Field, Located>
  {
    if ps == [] then m
    else
      var p := ps[|ps| - 1];
      PlaceByName(PlaceAllByName(m, ps[..|ps| - 1]), p.field, p.hint, p.value)
  }

  function LhsetByName(s: State, k: Key, f: Field, h: Hint, x: Bytes): Outcome
  {
    if Wrong(s, k, TLocalityHash) then Outcome(s, WrongType)
    else
      var m := LocatedOf(s, k);
      Outcome(With(s, k, VLocalityHash(PlaceByName(m, f, h, x))), Count(if f !in m && HintClear(m, f, h) then 1 else 0))
  }

  function LhmsetByName(s: State, k: Key, ps: seq<Placement>): Outcome
  {
    if Wrong(s, k, TLocalityHash) then Outcome(s, WrongType)
    else Outcome(With(s, k, VLocalityHash(PlaceAllByName(LocatedOf(s, k), ps))), Ok)
  }

  /** The fast path of LHGET takes what it finds under the given hint. */
  function LhgetByName(s: State, k: Key, f: Field, h: Hint): Reply
  {
    var m := LocatedOf(s, k);
    if !Wrong(s, k, TLocalityHash) && h != [] && !HintClear(m, f, h) then Bulk(m[Other(h, f).value.1].value)
    else LhgetSpec(s, k, f)
  }

  /** LHLOCDEL deletes the field wherever it is if another one has its name; None stands for its assert. */
  function LhlocdelByName(s: State, k: Key, f: Field, h: Hint): Option<Outcome>
  {
    var m := LocatedOf(s, k);
    if Wrong(s, k, TLocalityHash) || HintClear(m, f, h) then Some(LhlocdelSpec(s, k, f, h))
    else if f in m then Some(LhdelSpec(s, k, [f]))
    else None
  }

  /** Each placement is clear when its turn comes. */
  predicate HintsClear(m: map<Field, Located>, ps: seq<Placement>)
  {
    forall i {:trigger ps[i]} :: 0 <= i < |ps| ==> HintClear(PlaceAll(m, ps[..i]), ps[i].field, ps[i].hint)
  }

  lemma {:induction false} PlaceAllClear(m: map<Field, Located>, ps: seq<Placement>)
    requires HintsClear(m, ps)
    ensures PlaceAllByName(m, ps) == PlaceAll(m, ps)
  {
    if ps != [] {
      var qs := ps[..|ps| - 1];
      forall i | 0 <= i < |qs| ensures HintClear(PlaceAll(m, qs[..i]), qs[i].field, qs[i].hint) {
        assert qs[..i] == ps[..i] && qs[i] == ps[i];
      }
      PlaceAllClear(m, qs);
      assert ps[|ps| - 1] == ps[|ps| - 1];
    }
  }

  // ---------------------------------------------------------------- cloning

  /** The copy of field `f` lies ahead, under the prefix of the source: the iterator will come upon it. */
  predicate Chases(source: Key, target: Key, f: Field)
  {
    && PrefixBytes(Entries(THash, source)) <= LocatorBytes(EntryOf(target, THash, f))
    && Before(LocatorBytes(EntryOf(source, THash, f)), LocatorBytes(EntryOf(target, THash, f)))
  }

  /** HCLONE has something to copy. */
  predicate Clones(s: State, source: Key, target: Key)
  {
    target !in s.keys && source in s.keys && s.keys[source].VHash?
  }

  predicate CloneApart(s: State, source: Key, target: Key)
  {
    Clones(s, source, target) ==> forall f :: f in s.keys[source].fields ==>
      Clear(s, EntryOf(target, THash, f)) && !Chases(source, target, f)
  }

  // ---------------------------------------------------------------- all commands

  /**
   * The records that the command reads or writes have names of their own. The commands that are not listed
   * touch only records whose names nothing else can have, or that are there already.
   */
  predicate NamesApart(s: State, c: Command)
  {
    match c
    case Hset(k, f, _) => EntryApart(s, k, THash, f)
    case Hmset(k, kvs) => Wrong(s, k, THash) || PairsClear(s, k, kvs)
    case Hsetnx(k, f, _) => EntryApart(s, k, THash, f)
    case Hdel(k, fs) => EntriesApart(s, k, THash, fs)
    case Hclone(a, b) => CloneApart(s, a, b)
    case Sadd(k, fs) => EntriesApart(s, k, TSet, fs)
    case Srem(k, fs) => EntriesApart(s, k, TSet, fs)
    case Smove(a, b, f) =>
      Wrong(s, a, TSet) || Wrong(s, b, TSet) || (Clear(s, EntryOf(a, TSet, f)) && TargetClear(s, a, b, f))
    case Lhset(k, f, h, _) => Wrong(s, k, TLocalityHash) || HintClear(LocatedOf(s, k), f, h)
    case Lhmset(k, ps) => Wrong(s, k, TLocalityHash) || HintsClear(LocatedOf(s, k), ps)
    case Lhlocdel(k, f, h) => Wrong(s, k, TLocalityHash) || HintClear(LocatedOf(s, k), f, h)
    case LhsetAndDelFallback(k, f, h, x, fallback) =>
      && (Wrong(s, k, TLocalityHash) || HintClear(LocatedOf(s, k), f, h))
      && EntryApart(LhsetSpec(s, k, f, h, x).state, fallback, THash, f)
    case LhdelWithFallback(k, f, fallback) =>
      LhdelSpec(s, k, [f]).reply == Count(1) || EntryApart(LhdelSpec(s, k, [f]).state, fallback, THash, f)
    case ConvertHashField(a, f, b, g, h) =>
      && (Wrong(s, b, TLocalityHash) || HintClear(LocatedOf(s, b), g, h))
      && (LhgetSpec(s, b, g).Bulk? || EntryApart(s, a, THash, f))
    case Vhset(k, f, _) => EntryApart(s, k, TVersionedHash, f)
    case Vhdel(k, fs) => EntriesApart(s, k, TVersionedHash, fs)
    case _ => true
  }

  /** The commands for which that holds always. */
  predicate Plain(c: Command)
  {
    match c
    case Set(_, _) => true
    case Lhdel(_, _) => true
    case DequePush(_, _, _) => true
    case DequePop(_, _) => true
    case DequeTrimFront(_, _) => true
    case LeaseAcquire(_, _, _, _) => true
    case LeaseGet(_, _) => true
    case LeaseRelease(_, _) => true
    case Del(_) => true
    case FlushAll => true
    case _ => false
  }

  predicate ForLocality(c: Command)
  {
    match c
    case Lhset(_, _, _, _) => true
    case Lhmset(_, _) => true
    case Lhlocdel(_, _, _) => true
    case LhsetAndDelFallback(_, _, _, _, _) => true
    case LhdelWithFallback(_, _, _) => true
    case ConvertHashField(_, _, _, _, _) => true
    case _ => false
  }

  predicate PairsClear(s: State, k: Key, kvs: seq<Update>)
  {
    forall i {:trigger kvs[i]} :: 0 <= i < |kvs| ==> Clear(s, EntryOf(k, THash, kvs[i].field))
  }

  predicate SourceClear(s: State, a: Key, b: Key, f: Field)
  {
    Wrong(s, a, TSet) || Wrong(s, b, TSet) || Clear(s, EntryOf(a, TSet, f))
  }

  /** Only an element that is there is put into the target. */
  predicate TargetClear(s: State, a: Key, b: Key, f: Field)
  {
    f in SetOf(s, a) ==> Clear(s, EntryOf(b, TSet, f))
  }

  // ---------------------------------------------------------------- deleting fields

  predicate HasFields(v: Value)
  {
    v.VHash? || v.VSet? || v.VVersionedHash?
  }

  function DropField(v: Value, f: Field): (w: Value)
    ensures TypeOf(w) == TypeOf(v)
  {
    match v
    case VHash(m) => VHash(Without(m, f))
    case VSet(m) => VSet(m - {f})
    case VVersionedHash(m, n) => VVersionedHash(Without(m, f), n)
    case _ => v
  }

  function DropFields(v: Value, fs: seq<Field>): (w: Value)
    ensures TypeOf(w) == TypeOf(v)
  {
    if fs == [] then v else DropField(DropFields(v, fs[..|fs| - 1]), fs[|fs| - 1])
  }

  lemma DropFieldsMore(v: Value, fs: seq<Field>, f: Field, gs: seq<Field>)
    requires gs == fs + [f]
    ensures DropFields(v, gs) == DropField(DropFields(v, fs), f)
  {
    assert gs[..|gs| - 1] == fs;
  }

  lemma {:induction false} DropFieldsOfHash(m: map<Field, Bytes>, fs: seq<Field>)
    ensures DropFields(VHash(m), fs) == VHash(RemoveAll(m, fs))
    ensures |FieldBytes(VHash(m))| == |m| && |FieldBytes(VHash(RemoveAll(m, fs)))| == |RemoveAll(m, fs)|
  {
    if fs != [] { DropFieldsOfHash(m, fs[..|fs| - 1]); }
  }

  lemma {:induction false} DropFieldsOfSet(m: set<Field>, fs: seq<Field>)
    ensures DropFields(VSet(m), fs) == VSet(DropAll(m, fs))
    ensures FieldBytes(VSet(m)) == m && FieldBytes(VSet(DropAll(m, fs))) == DropAll(m, fs)
  {
    if fs != [] { DropFieldsOfSet(m, fs[..|fs| - 1]); }
  }

  lemma {:induction false} DropFieldsOfVersioned(m: map<Field, Bytes>, n: int, fs: seq<Field>)
    ensures DropFields(VVersionedHash(m, n), fs) == VVersionedHash(RemoveAll(m, fs), n)
  {
    if fs != [] { DropFieldsOfVersioned(m, n, fs[..|fs| - 1]); }
  }

  lemma FieldRecord(v: Value, f: Field)
    requires HasFields(v)
    ensures EncodeValue(v, Entry(TypeOf(v), f)).Some? <==> f in FieldBytes(v)
  {
  }

  lemma DeleteFieldRecord(db: Database, batch0: Batch, batch: Batch, s: State, k: Key, v: Value, f: Field)
    requires HasFields(v) && Running(db, batch0, batch, s, k, v)
    ensures f !in FieldBytes(v) ==> DropField(v, f) == v
    ensures f in FieldBytes(v) ==>
      Running(db, batch0, batch[EntryOf(k, TypeOf(v), f) := Tombstone], s, k, DropField(v, f))
  {
    if f in FieldBytes(v) {
      match v
      case VHash(m) => HashDelete(db, batch0, batch, s, k, m, f);
      case VSet(m) => SetDelete(db, batch0, batch, s, k, m, f);
      case VVersionedHash(m, n) => VersionedDelete(db, batch0, batch, s, k, m, n, f);
    } else if v.VSet? {
      assert v.members - {f} == v.members;
    }
  }

  // ---------------------------------------------------------------- what a deletion finds by name

  /** The fields under whose names something is found. */
  function LiveAmong(rows: Rows, pending: Pending, k: Key, t: KeyType, fs: seq<Field>): set<Field>
  {
    set f | f in fs && ReadName(rows, pending, LocatorBytes(EntryOf(k, t, f))).Some?
  }

  function LiveCount(rows: Rows, pending: Pending, k: Key, t: KeyType, fs: seq<Field>): nat
  {
    |LiveAmong(rows, pending, k, t, fs)|
  }

  /** Of the names that fields of `k` have, those of `fs` were deleted, and no others changed. */
  ghost predicate DeletedFrom(rows: Rows, pending0: Pending, pending: Pending, k: Key, t: KeyType, fs: seq<Field>)
  {
    forall f {:trigger EntryOf(k, t, f)} :: ReadName(rows, pending, LocatorBytes(EntryOf(k, t, f)))
      == if f in fs then None else ReadName(rows, pending0, LocatorBytes(EntryOf(k, t, f)))
  }

  lemma SameKeyNames(k: Key, t: KeyType, f: Field, g: Field)
    requires t in {THash, TSet, TVersionedHash}
    ensures LocatorBytes(EntryOf(k, t, f)) == LocatorBytes(EntryOf(k, t, g)) <==> f == g
  {
    EntryCollision(t, k, f, k, g);
  }

  /** The batch after one more deletion. */
  function Deleted(rows: Rows, pending: Pending, n: Bytes): Pending
  {
    if ReadName(rows, pending, n).Some? then pending[n := Tombstone] else pending
  }

  lemma LiveAmongMore(
    rows: Rows, pending0: Pending, pending: Pending, k: Key, t: KeyType, fs: seq<Field>, f: Field, gs: seq<Field>)
    requires t in {THash, TSet, TVersionedHash} && DeletedFrom(rows, pending0, pending, k, t, fs) && gs == fs + [f]
    ensures LiveCount(rows, pending0, k, t, gs) == LiveCount(rows, pending0, k, t, fs)
      + if ReadName(rows, pending, LocatorBytes(EntryOf(k, t, f))).Some? then 1 else 0
    ensures DeletedFrom(rows, pending0, Deleted(rows, pending, LocatorBytes(EntryOf(k, t, f))), k, t, gs)
  {
    var found := ReadName(rows, pending, LocatorBytes(EntryOf(k, t, f))).Some?;
    assert found <==> f !in fs && ReadName(rows, pending0, LocatorBytes(EntryOf(k, t, f))).Some?;
    LiveAmongSizes(rows, pending0, k, t, fs, f, found);
    DeletedMore(rows, pending0, pending, k, t, fs, f);
  }

  lemma LiveAmongSizes(rows: Rows, pending0: Pending, k: Key, t: KeyType, fs: seq<Field>, f: Field, found: bool)
    requires found <==> f !in fs && ReadName(rows, pending0, LocatorBytes(EntryOf(k, t, f))).Some?
    ensures |LiveAmong(rows, pending0, k, t, fs + [f])|
      == |LiveAmong(rows, pending0, k, t, fs)| + if found then 1 else 0
  {
    var a, b := LiveAmong(rows, pending0, k, t, fs), LiveAmong(rows, pending0, k, t, fs + [f]);
    assert b == if found then a + {f} else a;
  }

  lemma DeletedMore(rows: Rows, pending0: Pending, pending: Pending, k: Key, t: KeyType, fs: seq<Field>, f: Field)
    requires t in {THash, TSet, TVersionedHash} && DeletedFrom(rows, pending0, pending, k, t, fs)
    ensures DeletedFrom(rows, pending0, Deleted(rows, pending, LocatorBytes(EntryOf(k, t, f))), k, t, fs + [f])
  {
    var pending1 := Deleted(rows, pending, LocatorBytes(EntryOf(k, t, f)));
    forall g ensures ReadName(rows, pending1, LocatorBytes(EntryOf(k, t, g)))
      == if g in fs + [f] then None else ReadName(rows, pending0, LocatorBytes(EntryOf(k, t, g)))
    {
      SameKeyNames(k, t, f, g);
    }
  }

  lemma LiveAmongIsHits(
    rows: Rows, pending: Pending, db: Database, batch: Batch, s: State, k: Key, t: KeyType, fs: seq<Field>)
    requires Linked(rows, pending, db, batch) && Represents(db, batch, s) && t in {THash, TSet, TVersionedHash}
    ensures LiveCount(rows, pending, k, t, fs) == HitCount(s, k, t, fs)
  {
    forall f ensures ReadName(rows, pending, LocatorBytes(EntryOf(k, t, f))).Some? <==> Hits(s, k, t, f) {
      var l := EntryOf(k, t, f);
      ReadByName(rows, pending, db, batch, l);
      FreeIsClear(db, batch, s, l);
      assert Lookup(db, batch, l) == Encode(s, l);
    }
    assert LiveAmong(rows, pending, k, t, fs) == HitsOf(s, k, t, fs);
  }

  lemma {:induction false} DroppedFields(v: Value, fs: seq<Field>)
    requires HasFields(v)
    ensures FieldBytes(DropFields(v, fs)) == FieldBytes(v) - Members(fs)
  {
    if fs != [] {
      var front, f := fs[..|fs| - 1], fs[|fs| - 1];
      DroppedFields(v, front);
      DroppedField(DropFields(v, front), f);
      MembersLast(fs);
    }
  }

  lemma DroppedField(v: Value, f: Field)
    requires HasFields(v)
    ensures FieldBytes(DropField(v, f)) == FieldBytes(v) - {f}
  {
  }

  /** If all fields are clear, what is found is what is taken away. */
  lemma HitsWhenClear(s: State, k: Key, v: Value, fs: seq<Field>)
    requires HasFields(v) && FieldsClear(s, k, TypeOf(v), fs)
    requires if k in s.keys then s.keys[k] == v else FieldBytes(v) == {}
    ensures HitCount(s, k, TypeOf(v), fs) == |FieldBytes(v)| - |FieldBytes(DropFields(v, fs))|
  {
    forall f | f in fs ensures Hits(s, k, TypeOf(v), f) <==> f in FieldBytes(v) {
      var i :| 0 <= i < |fs| && fs[i] == f;
    }
    assert HitsOf(s, k, TypeOf(v), fs) == FieldBytes(v) * Members(fs);
    DroppedFields(v, fs);
    DifferenceSize(FieldBytes(v), Members(fs));
  }

  // ---------------------------------------------------------------- setting a field of another key

  lemma UnchangedHash(s: State, k: Key)
    requires WellFormed(s) && !Wrong(s, k, THash)
    ensures With(s, k, VHash(HashOf(s, k))) == s
  {
    if k in s.keys {
      assert WellFormedValue(s.keys[k], s.clock);
      assert s.keys[k := s.keys[k]] == s.keys;
    }
  }

  /** The first write of an operation on a hash. */
  lemma HashPutFirst(db: Database, batch: Batch, s: State, k: Key, f: Field, x: Bytes)
    requires Represents(db, batch, s) && !Wrong(s, k, THash)
    ensures Running(db, batch, batch, s, k, VHash(HashOf(s, k)))
    ensures Running(db, batch, batch[EntryOf(k, THash, f) := Put(Raw(x))], s, k, VHash(HashOf(s, k)[f := x]))
    ensures Lookup(db, batch, EntryOf(k, THash, f)).Some? <==> f in HashOf(s, k)
  {
    var m := HashOf(s, k);
    BeginOperation(db, batch, s, k, VHash(m));
    ReadRecord(db, batch, batch, s, k, VHash(m), Entry(THash, f));
    HashPut(db, batch, batch, s, k, m, f, x);
  }

  /** Overwriting a field that is there takes one record. */
  lemma Overwrite(db: Database, batch: Batch, cache: set<(int, Key)>, s: State, k: Key, f: Field, x: Bytes)
    requires Consistent(db, batch, cache, s) && k in s.keys && s.keys[k].VHash? && f in s.keys[k].fields
    ensures Consistent(db, batch[EntryOf(k, THash, f) := Put(Raw(x))], cache,
      With(s, k, VHash(s.keys[k].fields[f := x])))
  {
    var m, info := s.keys[k].fields, DescriptorOf(s.keys[k]);
    BeginOperation(db, batch, s, k, VHash(m));
    HashPut(db, batch, batch, s, k, m, f, x);
    assert m[f := x].Keys == m.Keys;
    FinishOperation(db, batch, batch[EntryOf(k, THash, f) := Put(Raw(x))], cache, s, k, VHash(m[f := x]), info, |m|);
  }

  /** The namesake of a field is a field of a hash that is there. */
  lemma NamesakeField(s: State, k: Key, f: Field)
    requires !Clear(s, EntryOf(k, THash, f))
    ensures var m := Namesake(EntryOf(k, THash, f)).value;
      && m.At? && m.slot.Entry? && m.key != k && m == EntryOf(m.key, THash, m.slot.field)
      && m.key in s.keys && s.keys[m.key].VHash? && m.slot.field in s.keys[m.key].fields
  {
    NamesakeElsewhere(k, THash, f);
  }

  lemma OverwriteOther(
    rows: Rows, pending: Pending, db: Database, batch: Batch, cache: set<(int, Key)>, s: State, k: Key, f: Field,
    x: Bytes)
    requires Linked(rows, pending, db, batch) && Consistent(db, batch, cache, s)
    requires !Wrong(s, k, THash) && !Clear(s, EntryOf(k, THash, f))
    ensures var m := Namesake(EntryOf(k, THash, f)).value;
      && LocatorBytes(m) == LocatorBytes(EntryOf(k, THash, f)) && Proper(m) && Free(db, batch, m)
      && Consistent(db, batch[m := Put(Raw(x))], cache, HsetByName(s, k, f, x).state)
  {
    var m := Namesake(EntryOf(k, THash, f)).value;
    NamesakeBack(EntryOf(k, THash, f));
    NamesakeField(s, k, f);
    assert Lookup(db, batch, m) == Encode(s, m) && Shown(rows, pending, db, batch, m);
    Overwrite(db, batch, cache, s, m.key, m.slot.field, x);
  }

  /** The key that was meant is as it was. */
  lemma HsetKeeps(s: State, k: Key, f: Field, x: Bytes)
    requires WellFormed(s) && !Wrong(s, k, THash)
    ensures !Clear(s, EntryOf(k, THash, f)) ==>
      var t := HsetByName(s, k, f, x).state;
      && With(t, k, VHash(HashOf(s, k))) == t && !Wrong(t, k, THash) && t.clock == s.clock
      && DescriptorAt(t, k, THash) == DescriptorAt(s, k, THash) && HashOf(t, k) == HashOf(s, k)
  {
    if !Clear(s, EntryOf(k, THash, f)) {
      NamesakeField(s, k, f);
      var t := HsetByName(s, k, f, x).state;
      assert HashOf(t, k) == HashOf(s, k);
      if k in s.keys {
        assert WellFormedValue(s.keys[k], s.clock);
        assert t.keys[k := t.keys[k]] == t.keys;
      }
    }
  }

  /**
   * A write under the name of a field: whose record it is, the store and the value of `k` that it leads to, and
   * the batch as of which only the operation on `k` is under way.
   */
  lemma PreparePut(
    rows: Rows, pending: Pending, db: Database, batch: Batch, cache: set<(int, Key)>, s: State, k: Key, f: Field,
    x: Bytes) returns (owner: Locator, t: State, v: Value, batch0: Batch)
    requires Linked(rows, pending, db, batch) && Consistent(db, batch, cache, s) && !Wrong(s, k, THash)
    ensures var l := EntryOf(k, THash, f);
      && LocatorBytes(owner) == LocatorBytes(l) && Proper(owner) && Free(db, batch, owner)
      && (ReadName(rows, pending, LocatorBytes(l)).Some? <==> !Clear(s, l) || f in HashOf(s, k))
      && (if Clear(s, l) then t == s && v == VHash(HashOf(s, k)[f := x])
          else t == HsetByName(s, k, f, x).state && v == VHash(HashOf(s, k)))
    ensures t == s.(keys := t.keys)
    ensures Consistent(db, batch0, cache, t) && Running(db, batch0, batch[owner := Put(Raw(x))], t, k, v)
  {
    var l := EntryOf(k, THash, f);
    FreeIsClear(db, batch, s, l);
    ReadByName(rows, pending, db, batch, l);
    if Clear(s, l) {
      HashPutFirst(db, batch, s, k, f, x);
      owner, t, v, batch0 := l, s, VHash(HashOf(s, k)[f := x]), batch;
    } else {
      owner, t, v := Namesake(l).value, HsetByName(s, k, f, x).state, VHash(HashOf(s, k));
      batch0 := batch[owner := Put(Raw(x))];
      OverwriteOther(rows, pending, db, batch, cache, s, k, f, x);
      OtherBegins(db, batch0, cache, s, k, f, x);
      NamesakeFound(db, batch, s, l);
    }
  }

  lemma OtherBegins(db: Database, batch0: Batch, cache: set<(int, Key)>, s: State, k: Key, f: Field, x: Bytes)
    requires WellFormed(s) && !Wrong(s, k, THash) && !Clear(s, EntryOf(k, THash, f))
    requires Consistent(db, batch0, cache, HsetByName(s, k, f, x).state)
    ensures HsetByName(s, k, f, x).state == s.(keys := HsetByName(s, k, f, x).state.keys)
    ensures Running(db, batch0, batch0, HsetByName(s, k, f, x).state, k, VHash(HashOf(s, k)))
  {
    HsetKeeps(s, k, f, x);
    BeginOperation(db, batch0, HsetByName(s, k, f, x).state, k, VHash(HashOf(s, k)));
  }

  lemma NamesakeFound(db: Database, batch: Batch, s: State, l: Locator)
    requires Represents(db, batch, s) && !Clear(s, l)
    ensures Lookup(db, batch, Namesake(l).value).Some?
  {
    assert Lookup(db, batch, Namesake(l).value) == Encode(s, Namesake(l).value);
  }

  /** The hash or set at a key, empty if there is none. */
  function CollectionAt(s: State, k: Key, t: KeyType): Value
  {
    if t == THash then VHash(HashOf(s, k)) else VSet(SetOf(s, k))
  }

  /** The descriptor fits a hash or set of which some fields were removed. */
  lemma ShrunkFits(s: State, k: Key, t: KeyType, v: Value, w: Value, info: KeyDescriptor)
    requires WellFormed(s) && t in {THash, TSet} && !Wrong(s, k, t) && info == DescriptorAt(s, k, t)
    requires v == CollectionAt(s, k, t) && HasFields(w) && TypeOf(w) == t
    ensures HasFields(v) && TypeOf(v) == t && info.size == |FieldBytes(v)| && (k !in s.keys ==> Blank(v))
    ensures k in s.keys ==> s.keys[k] == v
    ensures DescriptorOf(w).size == |FieldBytes(w)| && info.keyType == t && (Empty(w) ==> Blank(w))
    ensures !Empty(w) ==> info.(size := |FieldBytes(w)|) == DescriptorOf(w) && WellFormedValue(w, s.clock)
  {
  }

  /** In those terms, HDEL and SREM. */
  lemma HdelIsShrink(s: State, k: Key, fs: seq<Field>)
    requires !Wrong(s, k, THash)
    ensures var v, o := VHash(HashOf(s, k)), HdelSpec(s, k, fs);
      && o.state == With(s, k, DropFields(v, fs))
      && o.reply == Count(|FieldBytes(v)| - |FieldBytes(DropFields(v, fs))|)
  {
    DropFieldsOfHash(HashOf(s, k), fs);
  }

  lemma SremIsShrink(s: State, k: Key, fs: seq<Field>)
    requires !Wrong(s, k, TSet)
    ensures var v, o := VSet(SetOf(s, k)), SremSpec(s, k, fs);
      && o.state == With(s, k, DropFields(v, fs))
      && o.reply == Count(|FieldBytes(v)| - |FieldBytes(DropFields(v, fs))|)
  {
    DropFieldsOfSet(SetOf(s, k), fs);
  }

  /** What CONVERT_HASH_FIELD_TO_LHASH has found out before it changes anything. */
  predicate MovesField(s: State, a: Key, f: Field, b: Key, g: Field, h: Hint, x: Bytes)
  {
    && (Wrong(s, b, TLocalityHash) || HintClear(LocatedOf(s, b), g, h))
    && !LhgetSpec(s, b, g).Bulk? && HgetSpec(s, a, f) == Bulk(x)
  }

  /** Its two reads are right. */
  lemma ConvertReads(s: State, a: Key, f: Field, b: Key, g: Field, h: Hint)
    ensures NamesApart(s, ConvertHashField(a, f, b, g, h)) ==>
      && LhgetByName(s, b, g, h) == LhgetSpec(s, b, g)
      && (!LhgetSpec(s, b, g).Bulk? ==> HgetByName(s, a, f) == HgetSpec(s, a, f))
  {
  }

  /** Writing to a locality hash leaves the fields of a hash as they are, and those that are there are clear. */
  lemma FieldStays(s: State, t: State, a: Key, f: Field, b: Key)
    requires Apart(t) && !Wrong(s, a, THash) && f in HashOf(s, a)
    requires exists m :: t == With(s, b, VLocalityHash(m))
    requires !Wrong(s, b, TLocalityHash)
    ensures HashOf(t, a) == HashOf(s, a) && EntriesApart(t, a, THash, [f])
    ensures HitCount(t, a, THash, [f]) == 1
  {
    assert Encode(t, EntryOf(a, THash, f)).Some?;
    assert Clear(t, EntryOf(a, THash, f));
    assert HitsOf(t, a, THash, [f]) == {f};
  }

  // ---------------------------------------------------------------- small facts of the other commands

  lemma ClearAfterTaking(s: State, a: Key, b: Key, f: Field)
    requires Clear(s, EntryOf(b, TSet, f)) && f in SetOf(s, a)
    ensures Clear(With(s, a, VSet(SetOf(s, a) - {f})), EntryOf(b, TSet, f))
  {
  }

  lemma SmoveIsRight(s: State, a: Key, b: Key, f: Field)
    ensures NamesApart(s, Smove(a, b, f)) ==>
      SourceClear(s, a, b, f) && SmoveByName(s, a, b, f) == SmoveSpec(s, a, b, f)
  {
    if f in SetOf(s, a) && Clear(s, EntryOf(b, TSet, f)) {
      ClearAfterTaking(s, a, b, f);
    }
  }

  lemma {:induction false} AddAllClear(s: State, k: Key, m: set<Field>, fs: seq<Field>)
    requires FieldsClear(s, k, TSet, fs)
    ensures AddAllByName(s, k, m, fs) == AddAll(m, fs)
  {
    if fs != [] {
      var front, last := fs[..|fs| - 1], fs[|fs| - 1];
      assert Clear(s, EntryOf(k, TSet, last));
      forall i | 0 <= i < |front| ensures Clear(s, EntryOf(k, TSet, front[i])) {
        assert front[i] == fs[i];
      }
      AddAllClear(s, k, m, front);
    }
  }

  lemma SaddIsRight(s: State, k: Key, fs: seq<Field>)
    ensures EntriesApart(s, k, TSet, fs) ==> SaddByName(s, k, fs) == SaddSpec(s, k, fs)
  {
    if FieldsClear(s, k, TSet, fs) {
      AddAllClear(s, k, SetOf(s, k), fs);
    }
  }

  lemma PlaceSize(m: map<Field, Located>, f: Field, h: Hint, x: Bytes)
    ensures |PlaceByName(m, f, h, x)| == |m| + if f !in m && HintClear(m, f, h) then 1 else 0
  {
    if !HintClear(m, f, h) {
      assert PlaceByName(m, f, h, x).Keys == m.Keys;
    } else if f in m {
      assert m[f := Located(h, x)].Keys == m.Keys;
    }
  }

  /** What LHGET finds under a name that another field has. */
  lemma ReadOther(db: Database, batch: Batch, s: State, k: Key, f: Field, h: Hint)
    requires Represents(db, batch, s)
    ensures !HintClear(LocatedOf(s, k), f, h) ==>
      Lookup(db, batch, Namesake(At(k, LocalityData(h, f))).value)
      == Some(Raw(LocatedOf(s, k)[Other(h, f).value.1].value))
  {
    if !HintClear(LocatedOf(s, k), f, h) {
      var m := Namesake(At(k, LocalityData(h, f))).value;
      assert Lookup(db, batch, m) == Encode(s, m);
    }
  }

  lemma ReadNamesake(db: Database, batch: Batch, s: State, l: Locator)
    requires Represents(db, batch, s)
    ensures !Clear(s, l) ==> Lookup(db, batch, Namesake(l).value) == Encode(s, Namesake(l).value)
  {
  }

  function LhgetWithFallbackByName(s: State, k: Key, f: Field, h: Hint, fallback: Key): Reply
  {
    var r := LhgetByName(s, k, f, h);
    if r != NotFound then r else HgetByName(s, fallback, f)
  }

  // ---------------------------------------------------------------- when the commands are right

  lemma OwnIsClear(s: State, k: Key, t: KeyType, f: Field)
    requires Apart(s) && !Clear(s, EntryOf(k, t, f))
    ensures Encode(s, EntryOf(k, t, f)).None?
  {
  }

  /** HGET gives the right answer if and only if the field is clear. */
  lemma HgetRight(s: State, k: Key, f: Field)
    requires Apart(s)
    ensures HgetByName(s, k, f) == HgetSpec(s, k, f) <==> EntryApart(s, k, THash, f)
  {
    if !EntryApart(s, k, THash, f) { OwnIsClear(s, k, THash, f); }
  }

  lemma HsetRight(s: State, k: Key, f: Field, x: Bytes)
    requires Apart(s)
    ensures HsetByName(s, k, f, x) == HsetSpec(s, k, f, x) <==> EntryApart(s, k, THash, f)
    ensures HsetnxByName(s, k, f, x) == HsetnxSpec(s, k, f, x) <==> EntryApart(s, k, THash, f)
  {
    if !EntryApart(s, k, THash, f) { OwnIsClear(s, k, THash, f); }
  }

  /** A deletion removes and counts the right fields if and only if all of them are clear. */
  lemma HitsRight(s: State, k: Key, t: KeyType, fs: seq<Field>)
    requires Apart(s) && !Wrong(s, k, t) && t in {THash, TSet}
    ensures var own := FieldBytes(CollectionAt(s, k, t)) * Members(fs);
      && own <= HitsOf(s, k, t, fs)
      && (HitCount(s, k, t, fs) == |own| <==> FieldsClear(s, k, t, fs))
  {
    var own, hits := FieldBytes(CollectionAt(s, k, t)) * Members(fs), HitsOf(s, k, t, fs);
    forall f | f in fs ensures f in own <==> Encode(s, EntryOf(k, t, f)).Some? {
    }
    SubsetSize(own, hits);
    if FieldsClear(s, k, t, fs) {
      forall f | f in hits ensures f in own {
        var i :| 0 <= i < |fs| && fs[i] == f;
      }
    } else {
      var i :| 0 <= i < |fs| && !Clear(s, EntryOf(k, t, fs[i]));
      OwnIsClear(s, k, t, fs[i]);
      assert fs[i] in hits && fs[i] !in own;
    }
  }

  lemma HdelRight(s: State, k: Key, fs: seq<Field>)
    requires Apart(s) && !Wrong(s, k, THash)
    ensures Count(HitCount(s, k, THash, fs)) == HdelSpec(s, k, fs).reply <==> EntriesApart(s, k, THash, fs)
  {
    HitsRight(s, k, THash, fs);
    HdelCount(HashOf(s, k), fs);
  }

  lemma HdelCount(m: map<Field, Bytes>, fs: seq<Field>)
    ensures |m| - |RemoveAll(m, fs)| == |m.Keys * Members(fs)|
  {
    RemoveAllIsDifference(m, fs);
    DifferenceSize(m.Keys, Members(fs));
    assert (m - Members(fs)).Keys == m.Keys - Members(fs);
  }

  lemma {:induction false} AddedByName(s: State, k: Key, m: set<Field>, fs: seq<Field>)
    ensures AddAllByName(s, k, m, fs) == m + (set f | f in fs && Clear(s, EntryOf(k, TSet, f)))
    ensures AddAll(m, fs) == m + Members(fs)
  {
    if fs != [] {
      AddedByName(s, k, m, fs[..|fs| - 1]);
      assert fs == fs[..|fs| - 1] + [fs[|fs| - 1]];
    }
  }

  lemma SaddRight(s: State, k: Key, fs: seq<Field>)
    requires Apart(s)
    ensures SaddByName(s, k, fs) == SaddSpec(s, k, fs) <==> EntriesApart(s, k, TSet, fs)
  {
    if !Wrong(s, k, TSet) {
      var m := SetOf(s, k);
      AddedByName(s, k, m, fs);
      if FieldsClear(s, k, TSet, fs) {
        SaddIsRight(s, k, fs);
      } else {
        var i :| 0 <= i < |fs| && !Clear(s, EntryOf(k, TSet, fs[i]));
        OwnIsClear(s, k, TSet, fs[i]);
        assert fs[i] in AddAll(m, fs) && fs[i] !in AddAllByName(s, k, m, fs);
        SubsetSize(AddAllByName(s, k, m, fs), AddAll(m, fs));
      }
    }
  }

  lemma DifferenceSize(a: set<Field>, b: set<Field>)
    ensures |a - b| == |a| - |a * b|
  {
    assert a == (a - b) + (a * b);
  }

  lemma LhsetRight(s: State, k: Key, f: Field, h: Hint, x: Bytes)
    requires Apart(s)
    ensures LhsetByName(s, k, f, h, x) == LhsetSpec(s, k, f, h, x) <==>
      Wrong(s, k, TLocalityHash) || HintClear(LocatedOf(s, k), f, h)
  {
    var m := LocatedOf(s, k);
    if !Wrong(s, k, TLocalityHash) && !HintClear(m, f, h) {
      OtherHint(s, k, f, h);
      var p := Other(h, f).value;
      var m1, m2 := m[p.1 := Located(p.0, x)], m[f := Located(h, x)];
      assert m2[f].hint == h && (f in m1 ==> m1[f].hint != h);
      assert LocatedOf(With(s, k, VLocalityHash(m1)), k) == m1 && LocatedOf(With(s, k, VLocalityHash(m2)), k) == m2;
    }
  }

  lemma OtherHint(s: State, k: Key, f: Field, h: Hint)
    requires Apart(s) && !HintClear(LocatedOf(s, k), f, h)
    ensures f in LocatedOf(s, k) ==> LocatedOf(s, k)[f].hint != h
    ensures Other(h, f).value.1 != f
  {
    var l := At(k, LocalityData(h, f));
    ClearHint(s, k, f, h);
    NamesakeBack(l);
    assert Encode(s, l).Some? ==> Clear(s, l);
    OtherIs(h, f, Other(h, f).value.0, Other(h, f).value.1);
  }

  /** LHGET is right unless it is given a hint under which another field has the name, with another value. */
  lemma LhgetRight(s: State, k: Key, f: Field, h: Hint)
    ensures LhgetByName(s, k, f, h) == LhgetSpec(s, k, f) <==>
      var m := LocatedOf(s, k);
      || Wrong(s, k, TLocalityHash) || h == [] || HintClear(m, f, h)
      || (f in m && m[f].value == m[Other(h, f).value.1].value)
  {
  }

  lemma LhlocdelRight(s: State, k: Key, f: Field, h: Hint)
    requires Apart(s)
    ensures LhlocdelByName(s, k, f, h) == Some(LhlocdelSpec(s, k, f, h)) <==>
      Wrong(s, k, TLocalityHash) || HintClear(LocatedOf(s, k), f, h)
  {
    if !Wrong(s, k, TLocalityHash) && !HintClear(LocatedOf(s, k), f, h) {
      OtherHint(s, k, f, h);
      RemoveAllOne(LocatedOf(s, k), f);
    }
  }

  // ---------------------------------------------------------------- examples

  /** After HSET a| #x 1, for any keys and fields of that form. */
  function AfterHset(p: Key, f: Field, x: Bytes): State
  {
    HsetSpec(NEW_STORE, p + [BAR], [HASH] + f, x).state
  }

  lemma TwinField(p: Key, f: Field, x: Bytes)
    ensures var s := AfterHset(p, f, x);
      && s.keys == map[p + [BAR] := VHash(map[[HASH] + f := x])]
      && Namesake(EntryOf(p + [HASH], THash, f)) == Some(EntryOf(p + [BAR], THash, [HASH] + f))
      && p + [HASH] != p + [BAR]
  {
    assert (p + [HASH])[..|p|] == p;
    assert (p + [HASH])[|p|] != (p + [BAR])[|p|];
    var m: map<Field, Bytes> := map[];
    assert m[[HASH] + f := x] == map[[HASH] + f := x];
  }

  /** HDEL a# x then finds one field more than there are, and throws; HGET a# x answers for a key that is not there. */
  lemma TwinFieldRead(p: Key, f: Field, x: Bytes)
    ensures var s := AfterHset(p, f, x);
      && HitCount(s, p + [HASH], THash, [f]) == 1 > |HashOf(s, p + [HASH])|
      && HgetByName(s, p + [HASH], f) == Bulk(x) && HgetSpec(s, p + [HASH], f) == NotFound
  {
    TwinField(p, f, x);
    var s := AfterHset(p, f, x);
    assert !Clear(s, EntryOf(p + [HASH], THash, f));
    assert HitsOf(s, p + [HASH], THash, [f]) == {f};
  }

  /** HSET a# x 2 then changes the field of the other key, so that DEL of that key finds what it counts. */
  lemma TwinFieldSet(p: Key, f: Field, x: Bytes, y: Bytes)
    ensures var s := AfterHset(p, f, x);
      && HsetByName(s, p + [HASH], f, y).state == HsetSpec(s, p + [BAR], [HASH] + f, y).state
      && HsetByName(s, p + [HASH], f, y).reply == Count(0)
      && p + [HASH] !in HsetByName(s, p + [HASH], f, y).state.keys
      && Alone(HsetByName(s, p + [HASH], f, y).state, p + [BAR])
  {
    TwinField(p, f, x);
  }

  /** After LHSET k #x a| 1: LHGET k x a# answers for a field that is not there, and LHLOCDEL k x a# asserts. */
  lemma TwinHint(k: Key, p: Hint, f: Field, x: Bytes)
    ensures var s := LhsetSpec(NEW_STORE, k, [HASH] + f, p + [BAR], x).state;
      && LhgetByName(s, k, f, p + [HASH]) == Bulk(x) && LhgetSpec(s, k, f) == NotFound
      && LhlocdelByName(s, k, f, p + [HASH]) == None
  {
    var s := LhsetSpec(NEW_STORE, k, [HASH] + f, p + [BAR], x).state;
    assert (p + [HASH])[..|p|] == p;
    assert [HASH] + f in LocatedOf(s, k) && LocatedOf(s, k)[[HASH] + f] == Located(p + [BAR], x);
    assert f !in LocatedOf(s, k) by { assert |f| != |[HASH] + f|; }
  }
}
