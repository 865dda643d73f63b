/**
 * The flat key-value encoding of the redis types (src/storage/KeyLocators.hh,
 * src/storage/KeyDescriptor.hh) and, beside it, the abstract store that the
 * commands of src/StateMachine.cc are meant to implement: one value per redis key.
 */
module StoreModel {
  import opened Bytes

  type Key = Bytes
  type Field = Bytes
  type Hint = Bytes

  // ---------------------------------------------------------------- records

  datatype KeyType = TString | THash | TSet | TDeque | TLocalityHash | TLease | TVersionedHash

  /** The descriptor record of a redis key. Types that do not use the indexes keep the initial value. */
  datatype KeyDescriptor = KeyDescriptor(keyType: KeyType, size: int, start: int, end: int)

  const INITIAL_INDEX: nat := 0x7FFF_FFFF_FFFF_FFFF
  const U64_LIMIT: nat := 0x1_0000_0000_0000_0000

  /** The records one redis key can own. Deque items are field records whose field is an 8-byte index. */
  datatype Slot =
    | Descriptor
    | Text
    | Entry(kind: KeyType, field: Field)
    | Item(index: int)
    | LocalityData(hint: Hint, field: Field)
    | LocalityIndex(field: Field)
    | LeaseHolder
    | ExpirationEvent(deadline: int)

  /** Where a record lives: a slot of a redis key, or one of the internal records. */
  datatype Locator = At(key: Key, slot: Slot) | Clock | LastApplied

  datatype Record = Raw(bytes: Bytes) | Desc(descriptor: KeyDescriptor) | Number(n: int)

  /** An entry of the write batch: a pending put or a tombstone. */
  datatype Staged = Put(record: Record) | Tombstone

  const ONE: Bytes := [49]

  /** Read-your-writes: the batch hides the database (src/storage/StagingArea.hh:98-108). */
  function Lookup(db: map<Locator, Record>, batch: map<Locator, Staged>, l: Locator): Option<Record>
  {
    if l in batch then
      match batch[l]
      case Put(r) => Some(r)
      case Tombstone => None
    else if l in db then Some(db[l])
    else None
  }

  // ---------------------------------------------------------------- abstract store

  datatype Located = Located(hint: Hint, value: Bytes)

  datatype Value =
    | VString(text: Bytes)
    | VHash(fields: map<Field, Bytes>)
    | VSet(members: set<Field>)
    | VDeque(items: seq<Bytes>, start: int)
    | VLocalityHash(located: map<Field, Located>)
    | VLease(holder: Bytes, from: int, until: int)
    | VVersionedHash(entries: map<Field, Bytes>, version: int)

  datatype Update = Update(field: Field, value: Bytes)

  /** The updates of one versioned hash in one transaction (src/storage/VersionedHashRevisionTracker.hh). */
  datatype Revision = Revision(number: int, updates: seq<Update>)

  /** `touched` holds the versioned hashes whose descriptor sits in the current write batch. */
  datatype State = State(
    keys: map<Key, Value>,
    clock: int,
    lastApplied: int,
    touched: set<Key>,
    revisions: map<Key, Revision>)

  const NEW_STORE: State := State(map[], 0, 0, {}, map[])

  function TypeOf(v: Value): KeyType
  {
    match v
    case VString(_) => TString
    case VHash(_) => THash
    case VSet(_) => TSet
    case VDeque(_, _) => TDeque
    case VLocalityHash(_) => TLocalityHash
    case VLease(_, _, _) => TLease
    case VVersionedHash(_, _) => TVersionedHash
  }

  function FreshDescriptor(t: KeyType): KeyDescriptor
  {
    KeyDescriptor(t, 0, if t == TVersionedHash then 0 else INITIAL_INDEX, INITIAL_INDEX)
  }

  function DescriptorOf(v: Value): KeyDescriptor
  {
    match v
    case VString(t) => FreshDescriptor(TString).(size := |t|)
    case VHash(m) => FreshDescriptor(THash).(size := |m|)
    case VSet(s) => FreshDescriptor(TSet).(size := |s|)
    case VDeque(items, start) => KeyDescriptor(TDeque, |items|, start, start + |items| + 1)
    case VLocalityHash(m) => FreshDescriptor(TLocalityHash).(size := |m|)
    case VLease(holder, from, until) => KeyDescriptor(TLease, |holder|, from, until)
    case VVersionedHash(m, version) => FreshDescriptor(TVersionedHash).(size := |m|, start := version)
  }

  /** The record that a key holding `v` keeps in slot `x`. */
  function EncodeValue(v: Value, x: Slot): Option<Record>
  {
    match x
    case Descriptor => Some(Desc(DescriptorOf(v)))
    case Text => if v.VString? then Some(Raw(v.text)) else None
    case Entry(t, f) =>
      if t != TypeOf(v) then None
      else if v.VHash? && f in v.fields then Some(Raw(v.fields[f]))
      else if v.VVersionedHash? && f in v.entries then Some(Raw(v.entries[f]))
      else if v.VSet? && f in v.members then Some(Raw(ONE))
      else None
    case Item(i) =>
      if v.VDeque? && v.start < i <= v.start + |v.items| then Some(Raw(v.items[i - v.start - 1])) else None
    case LocalityData(h, f) =>
      if v.VLocalityHash? && f in v.located && v.located[f].hint == h then Some(Raw(v.located[f].value)) else None
    case LocalityIndex(f) =>
      if v.VLocalityHash? && f in v.located then Some(Raw(v.located[f].hint)) else None
    case LeaseHolder => if v.VLease? then Some(Raw(v.holder)) else None
    case ExpirationEvent(d) => if v.VLease? && v.until == d then Some(Raw(ONE)) else None
  }

  /** The whole flat store as a function of the abstract one. */
  function Encode(s: State, l: Locator): Option<Record>
  {
    match l
    case Clock => Some(Number(s.clock))
    case LastApplied => Some(Number(s.lastApplied))
    case At(k, x) => if k in s.keys then EncodeValue(s.keys[k], x) else None
  }

  /** The flat store holds exactly the encoding of `s`: no record more, none less. */
  ghost predicate Represents(db: map<Locator, Record>, batch: map<Locator, Staged>, s: State)
  {
    forall l {:trigger Lookup(db, batch, l)} :: Lookup(db, batch, l) == Encode(s, l)
  }

  ghost predicate TouchedExactly(batch: map<Locator, Staged>, s: State)
  {
    forall k {:trigger k in s.touched} :: k in s.touched
      <==> k in s.keys && s.keys[k].VVersionedHash? && At(k, Descriptor) in batch
  }

  /** The expiration cache names the deadline of every live lease and nothing else. */
  ghost predicate CacheExactly(cache: set<(int, Key)>, s: State)
  {
    forall d, k {:trigger (d, k) in cache} :: (d, k) in cache
      <==> k in s.keys && s.keys[k].VLease? && s.keys[k].until == d
  }

  ghost predicate WellFormedValue(v: Value, clock: int)
  {
    match v
    case VString(t) => t != []
    case VHash(m) => m != map[]
    case VSet(s) => s != {}
    case VDeque(items, start) => items != [] && 0 <= start && start + |items| + 1 < U64_LIMIT
    case VLocalityHash(m) => m != map[]
    case VLease(holder, from, until) => holder != [] && 0 <= from <= clock < until < U64_LIMIT
    case VVersionedHash(_, version) => 0 <= version
  }

  ghost predicate WellFormed(s: State)
  {
    && 0 <= s.clock
    && 0 <= s.lastApplied
    && forall k {:trigger WellFormedValue(s.keys[k], s.clock)} :: k in s.keys ==> WellFormedValue(s.keys[k], s.clock)
  }

  /** The invariant that ties the batch, the database and the expiration cache to the abstract store. */
  ghost predicate Consistent(db: map<Locator, Record>, batch: map<Locator, Staged>, cache: set<(int, Key)>, s: State)
  {
    && Represents(db, batch, s)
    && TouchedExactly(batch, s)
    && CacheExactly(cache, s)
    && WellFormed(s)
  }

  // ---------------------------------------------------------------- views of one key

  predicate Wrong(s: State, k: Key, t: KeyType)
  {
    k in s.keys && TypeOf(s.keys[k]) != t
  }

  function HashOf(s: State, k: Key): map<Field, Bytes>
  {
    if k in s.keys && s.keys[k].VHash? then s.keys[k].fields else map[]
  }

  function SetOf(s: State, k: Key): set<Field>
  {
    if k in s.keys && s.keys[k].VSet? then s.keys[k].members else {}
  }

  function LocatedOf(s: State, k: Key): map<Field, Located>
  {
    if k in s.keys && s.keys[k].VLocalityHash? then s.keys[k].located else map[]
  }

  function ItemsOf(s: State, k: Key): seq<Bytes>
  {
    if k in s.keys && s.keys[k].VDeque? then s.keys[k].items else []
  }

  function EntriesOf(s: State, k: Key): map<Field, Bytes>
  {
    if k in s.keys && s.keys[k].VVersionedHash? then s.keys[k].entries else map[]
  }

  function VersionOf(s: State, k: Key): int
  {
    if k in s.keys && s.keys[k].VVersionedHash? then s.keys[k].version else 0
  }

  /** `m` with one key taken out. */
  function Without<V>(m: map<Bytes, V>, f: Bytes): (r: map<Bytes, V>)
    ensures forall g {:trigger g in r} :: g in r <==> g in m && g != f
    ensures forall g {:trigger r[g]} :: g in r ==> r[g] == m[g]
    ensures |r| == |m| - if f in m then 1 else 0
    ensures f !in m ==> r == m
  {
    var r := map g | g in m && g != f :: m[g];
    assert r.Keys == m.Keys - {f};
    r
  }

  predicate Empty(v: Value)
  {
    match v
    case VString(t) => t == []
    case VHash(m) => m == map[]
    case VSet(s) => s == {}
    case VDeque(items, _) => items == []
    case VLocalityHash(m) => m == map[]
    case VLease(_, _, _) => false
    case VVersionedHash(_, _) => false
  }

  /** Store `v` at `k`; a collection that became empty takes its key with it. */
  function With(s: State, k: Key, v: Value): State
  {
    s.(keys := if Empty(v) then Without(s.keys, k) else s.keys[k := v])
  }

  function Members<T>(xs: seq<T>): set<T> { set x | x in xs }

  /** Writes the fields one after the other, as the command loops do: the last value of a repeated field wins. */
  function PutAll(m: map<Field, Bytes>, kvs: seq<Update>): map<Field, Bytes>
  {
    if kvs == [] then m
    else PutAll(m, kvs[..|kvs| - 1])[kvs[|kvs| - 1].field := kvs[|kvs| - 1].value]
  }

  /** Deletes the fields one after the other, as the command loops do. */
  function RemoveAll<V>(m: map<Field, V>, fs: seq<Field>): map<Field, V>
  {
    if fs == [] then m else Without(RemoveAll(m, fs[..|fs| - 1]), fs[|fs| - 1])
  }

  lemma RemoveAllOne<V>(m: map<Field, V>, f: Field)
    ensures RemoveAll(m, [f]) == Without(m, f)
  {
    assert [f][..0] == [] && RemoveAll(m, [f][..0]) == m;
  }

  lemma {:induction false} RemoveAllIsDifference<V>(m: map<Field, V>, fs: seq<Field>)
    ensures RemoveAll(m, fs) == m - Members(fs)
  {
    if fs == [] {
      assert Members(fs) == {};
    } else {
      RemoveAllIsDifference(m, fs[..|fs| - 1]);
      MembersLast(fs);
      WithoutIsDifference(m, Members(fs[..|fs| - 1]), fs[|fs| - 1]);
    }
  }

  lemma MembersLast(fs: seq<Field>)
    requires fs != []
    ensures Members(fs) == Members(fs[..|fs| - 1]) + {fs[|fs| - 1]}
  {
    assert fs == fs[..|fs| - 1] + [fs[|fs| - 1]];
  }

  lemma WithoutIsDifference<V>(m: map<Field, V>, gone: set<Field>, f: Field)
    ensures Without(m - gone, f) == m - (gone + {f})
  {
  }
}
