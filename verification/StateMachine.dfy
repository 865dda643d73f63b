/**
 * The state machine of src/StateMachine.cc in its own form: an object that owns the
 * database, the write batch of the transaction in progress and the expiration cache, and
 * changes them in place. Each command is proved against its specification in StoreSpec.
 * Every assert below is a qdb_assert, a throw or a THROW_ON_ERROR of the source.
 */
module StateMachine {
  import opened Bytes
  import opened StoreModel
  import opened StoreSpec
  import opened StoreOperations
  import opened KeyLocators
  import opened Names
  import opened Sweeps
  import opened Collisions
  import opened Cloning
  import opened ByteOrder

  /** A write operation that passed its type check: the descriptor it found and whether the key existed. */
  datatype Opened = Opened(info: KeyDescriptor, keyExists: bool)

  lemma UnchangedSet(s: State, k: Key)
    requires WellFormed(s) && !Wrong(s, k, TSet)
    ensures With(s, k, VSet(SetOf(s, k))) == s
  {
    if k in s.keys {
      assert WellFormedValue(s.keys[k], s.clock);
      assert s.keys[k := s.keys[k]] == s.keys;
    }
  }

  /** Each key of a DEL is alone when its turn comes. */
  ghost predicate AllAlone(s: State, keys: seq<Key>)
  {
    keys == [] || (AllAlone(s, keys[..|keys| - 1]) && Alone(DelAll(s, keys[..|keys| - 1]), keys[|keys| - 1]))
  }

  lemma DelOneSize(s: State, k: Key)
    ensures |DelOne(s, k).keys| == |s.keys| - if k in s.keys then 1 else 0
  {
  }

  lemma {:induction false} AloneSoFar(s: State, keys: seq<Key>, n: nat)
    requires AllAlone(s, keys) && n <= |keys|
    ensures AllAlone(s, keys[..n])
  {
    if n == |keys| {
      assert keys[..n] == keys;
    } else {
      AloneSoFar(s, keys[..|keys| - 1], n);
      assert keys[..|keys| - 1][..n] == keys[..n];
    }
  }

  /** The commands that sweep the records of a key that is not alone, and LEASE_GET of a key of another type. */
  ghost predicate Throws(s: State, c: Command)
  {
    match c
    case Del(ks) => !AllAlone(s, ks)
    case Hclone(source, target) => Clones(s, source, target) && !Alone(s, source)
    case LeaseGet(k, now) => Wrong(Advance(s, now), k, TLease)
    case _ => false
  }

  /** SET k v, LEASE_GET k. */
  lemma LeaseGetOther(k: Key, v: Bytes, now: int)
    requires v != [] && 0 <= now
    ensures var s := SetSpec(NEW_STORE, k, v).state;
      Admissible(s, Command.LeaseGet(k, now)) && Throws(s, Command.LeaseGet(k, now))
  {
    assert k in Advance(SetSpec(NEW_STORE, k, v).state, now).keys;
  }

  /** Burying one table of a locality hash leaves the other as it was. */
  lemma SweptAfterBurial(db: Database, batch: Batch, s: State, p: Prefix, q: Prefix)
    requires Represents(db, batch, s) && WellFormed(s) && (q.Data? || q.Indexes?)
    requires forall l :: Matches(p, l) ==> !Matches(q, l)
    ensures Swept(db, Buried(batch, Found(db, batch, p)), PrefixBytes(q)) == Found(db, batch, q)
  {
    var batch1 := Buried(batch, Found(db, batch, p));
    OtherSweeps(db, batch, s, q);
    forall l ensures l in Swept(db, batch1, PrefixBytes(q)) <==> l in Found(db, batch, q) {
      assert l in Swept(db, batch, PrefixBytes(q)) <==> l in Found(db, batch, q);
    }
  }

  lemma {:induction false} EarliestExists(cache: set<(int, Key)>)
    requires cache != {}
    ensures exists e :: e in cache && forall x :: x in cache ==> e.0 <= x.0
  {
    var e :| e in cache;
    if cache - {e} != {} {
      EarliestExists(cache - {e});
      var f :| f in cache - {e} && forall x :: x in cache - {e} ==> f.0 <= x.0;
      var g := if e.0 <= f.0 then e else f;
      assert forall x :: x in cache ==> x == e || x in cache - {e};
      assert g in cache && forall x :: x in cache ==> g.0 <= x.0;
    } else {
      assert cache == {e};
      assert e in cache && forall x :: x in cache ==> e.0 <= x.0;
    }
  }

  /** `s` is `s0` after releasing some of the leases that `now` expires. */
  ghost predicate Draining(s0: State, s: State, now: int)
  {
    && s == s0.(keys := s.keys)
    && (forall k :: k in s.keys ==> k in s0.keys && s.keys[k] == s0.keys[k])
    && (forall k :: k in s0.keys && k !in s.keys ==> Expired(s0.keys[k], now))
  }

  lemma DrainMore(s0: State, s: State, now: int, k: Key)
    requires Draining(s0, s, now) && k in s.keys && Expired(s.keys[k], now)
    ensures Draining(s0, s.(keys := Without(s.keys, k)), now)
  {
  }

  /** The name of the expiration event, read back (src/storage/ExpirationEventIterator.hh). */
  function EventName(d: int, k: Key): Bytes
  {
    LocatorBytes(At(k, ExpirationEvent(d)))
  }

  function EventNames(rows: Rows): set<Bytes>
  {
    set n | n in rows && n != [] && n[0] == 64
  }

  function EventOf(n: Bytes): (int, Key)
    requires |n| > WIDTH
  {
    (FromBigEndian(n[1..WIDTH + 1]), n[WIDTH + 1..])
  }

  lemma EventBack(d: int, k: Key)
    requires 0 <= d < U64_LIMIT
    ensures |EventName(d, k)| > WIDTH && EventOf(EventName(d, k)) == (d, k)
  {
    var b := BigEndian(d, WIDTH);
    BigEndianWidth(d, WIDTH);
    Pow256Width();
    BigEndianBack(d, b);
    assert EventName(d, k)[1..WIDTH + 1] == b && EventName(d, k)[WIDTH + 1..] == k;
  }

  /** The events found in the database are those of the live leases. */
  lemma StoredEvent(rows: Rows, db: Database, s: State, n: Bytes)
    requires Linked(rows, map[], db, map[]) && Represents(db, map[], s) && WellFormed(s)
    requires n in EventNames(rows)
    ensures |n| > WIDTH
    ensures var (d, k) := EventOf(n);
      0 <= d < U64_LIMIT && n == EventName(d, k) && k in s.keys && s.keys[k].VLease? && s.keys[k].until == d
  {
    assert ReadName(rows, map[], n).Some? && Owned(rows, map[], db, map[], n);
    var l :| Named(db, map[], l, n);
    assert Lookup(db, map[], l) == Encode(s, l);
    LiveIsProper(s, l);
    FirstByteFirst(l);
    assert n[0] == 64;
    EventBack(l.slot.deadline, l.key);
  }

  lemma LeaseEvent(rows: Rows, db: Database, s: State, k: Key)
    requires Linked(rows, map[], db, map[]) && Represents(db, map[], s) && WellFormed(s)
    requires k in s.keys && s.keys[k].VLease?
    ensures 0 <= s.keys[k].until < U64_LIMIT && EventName(s.keys[k].until, k) in EventNames(rows)
  {
    var l := At(k, ExpirationEvent(s.keys[k].until));
    assert WellFormedValue(s.keys[k], s.clock);
    assert Lookup(db, map[], l) == Encode(s, l) && Shown(rows, map[], db, map[], l);
  }

  /** The event was found, and is not among those still to be loaded. */
  ghost predicate Loaded(events: set<Bytes>, todo: set<Bytes>, d: int, k: Key)
  {
    0 <= d < U64_LIMIT && EventName(d, k) in events && EventName(d, k) !in todo
  }

  lemma OneEvent(rows: Rows, db: Database, s: State, todo: set<Bytes>, n: Bytes, d: int)
    requires Linked(rows, map[], db, map[]) && Represents(db, map[], s) && WellFormed(s)
    requires n in todo && n in EventNames(rows) && |n| > WIDTH
    ensures !Loaded(EventNames(rows), todo, d, EventOf(n).1)
  {
    StoredEvent(rows, db, s, n);
    var k := EventOf(n).1;
    if Loaded(EventNames(rows), todo, d, k) {
      StoredEvent(rows, db, s, EventName(d, k));
      EventBack(d, k);
    }
  }

  lemma LoadedMore(events: set<Bytes>, todo: set<Bytes>, n: Bytes)
    requires n in todo && n in events && |n| > WIDTH && n == EventName(EventOf(n).0, EventOf(n).1)
    requires 0 <= EventOf(n).0 < U64_LIMIT
    ensures forall d, k :: Loaded(events, todo - {n}, d, k) <==> Loaded(events, todo, d, k) || (d, k) == EventOf(n)
  {
    forall d, k ensures Loaded(events, todo - {n}, d, k) <==> Loaded(events, todo, d, k) || (d, k) == EventOf(n) {
      if 0 <= d < U64_LIMIT { EventBack(d, k); }
    }
  }

  lemma AllLoaded(rows: Rows, db: Database, s: State, cache: set<(int, Key)>)
    requires Linked(rows, map[], db, map[]) && Represents(db, map[], s) && WellFormed(s)
    requires forall d, k :: (d, k) in cache <==> Loaded(EventNames(rows), {}, d, k)
    ensures CacheExactly(cache, s)
  {
    forall d, k ensures (d, k) in cache <==> k in s.keys && s.keys[k].VLease? && s.keys[k].until == d {
      if Loaded(EventNames(rows), {}, d, k) {
        StoredEvent(rows, db, s, EventName(d, k));
        EventBack(d, k);
      }
      if k in s.keys && s.keys[k].VLease? { LeaseEvent(rows, db, s, k); }
    }
  }

  /**
   * setListIndex on the side pushed to, and on the other side when the deque is new
   * (src/StateMachine.cc:1248-1252). PushedFits says that start <= end, which serialize() asserts.
   */
  function PushedDescriptor(direction: Direction, info: KeyDescriptor, index: int, n: int): KeyDescriptor
  {
    var moved := if direction == Left then info.(start := index - n) else info.(end := index + n);
    if info.size != 0 then moved
    else if direction == Left then moved.(end := index + 1)
    else moved.(start := index - 1)
  }

  /** That descriptor is the one the pushed deque calls for. */
  lemma PushedFits(s: State, d: Direction, k: Key, xs: seq<Bytes>, info: KeyDescriptor, index: int)
    requires WellFormed(s) && !Wrong(s, k, TDeque) && Admissible(s, Command.DequePush(d, k, xs))
    requires info == DescriptorAt(s, k, TDeque) && index == if d == Left then info.start else info.end
    ensures var w := PushAll(d, VDeque(ItemsOf(s, k), StartFor(s, k, d)), xs);
            var pushed := PushedDescriptor(d, info, index, |xs|);
            && |w.items| == info.size + |xs| && pushed.size == info.size && pushed.keyType == TDeque
            && pushed.start <= pushed.end
            && (w.items != [] ==> pushed.(size := |w.items|) == DescriptorOf(w) && WellFormedValue(w, s.clock))
            && (w.items != [] && xs == [] ==> pushed == info)
  {
    var v := VDeque(ItemsOf(s, k), StartFor(s, k, d));
    PushAllSize(d, v, xs);
    if k in s.keys {
      assert WellFormedValue(s.keys[k], s.clock) && v == s.keys[k];
      PushedMoves(d, v, xs, info, index, s.clock);
    } else {
      PushedAnew(d, v, xs, info, index, s.clock);
    }
  }

  lemma PushedAnew(d: Direction, v: Value, xs: seq<Bytes>, info: KeyDescriptor, index: int, clock: int)
    requires v == VDeque([], if d == Left then INITIAL_INDEX else INITIAL_INDEX - 1) && info == FreshDescriptor(TDeque)
    requires index == INITIAL_INDEX && (if d == Left then |xs| <= index else index + |xs| < U64_LIMIT)
    ensures var w, pushed := PushAll(d, v, xs), PushedDescriptor(d, info, index, |xs|);
      && |w.items| == info.size + |xs| && pushed.size == info.size && pushed.keyType == TDeque
      && pushed.start <= pushed.end
      && (w.items != [] ==> pushed.(size := |w.items|) == DescriptorOf(w) && WellFormedValue(w, clock))
      && (w.items != [] && xs == [] ==> pushed == info)
  {
    PushAllSize(d, v, xs);
  }

  lemma PushedMoves(d: Direction, v: Value, xs: seq<Bytes>, info: KeyDescriptor, index: int, clock: int)
    requires v.VDeque? && WellFormedValue(v, clock) && info == DescriptorOf(v)
    requires index == if d == Left then info.start else info.end
    requires if d == Left then |xs| <= index else index + |xs| < U64_LIMIT
    ensures var w, pushed := PushAll(d, v, xs), PushedDescriptor(d, info, index, |xs|);
      && |w.items| == info.size + |xs| && pushed.size == info.size && pushed.keyType == TDeque
      && pushed.start <= pushed.end && w.items != []
      && pushed.(size := |w.items|) == DescriptorOf(w) && WellFormedValue(w, clock) && (xs == [] ==> pushed == info)
  {
    PushAllSize(d, v, xs);
  }

  lemma {:induction false} PushAllSize(d: Direction, v: Value, xs: seq<Bytes>)
    requires v.VDeque?
    ensures |PushAll(d, v, xs).items| == |v.items| + |xs|
    ensures PushAll(d, v, xs).start == if d == Left then v.start - |xs| else v.start
  {
    if xs != [] { PushAllSize(d, v, xs[..|xs| - 1]); }
  }

  lemma SetSizes(m: set<Field>, f: Field)
    ensures if f in m then m + {f} == m && |m - {f}| == |m| - 1 else m - {f} == m && |m + {f}| == |m| + 1
  {
    if f in m { assert m + {f} == m; } else { assert m - {f} == m; }
  }

  const NEW_ROWS: Rows := map[CLOCK := Number(0), LAST_APPLIED := Number(0)]
  const NEW_DATABASE: Database := map[Clock := Number(0), LastApplied := Number(0)]

  lemma NewIsLinked()
    ensures Linked(NEW_ROWS, map[], NEW_DATABASE, map[])
  {
    InternalCollision(Clock, LastApplied);
    forall n ensures Owned(NEW_ROWS, map[], NEW_DATABASE, map[], n) {
      assert Named(NEW_DATABASE, map[], Clock, CLOCK) && Named(NEW_DATABASE, map[], LastApplied, LAST_APPLIED);
    }
  }

  class Store {
    var rows: Rows
    var pending: Pending
    var cache: set<(int, Key)>
    var lastApplied: int
    var revisions: map<Key, Revision>

    ghost var db: Database
    ghost var batch: Batch
    ghost var state: State

    /** `db` and `batch` are the database and the batch as the locators have them. */
    ghost predicate Sound()
      reads this
    {
      Linked(rows, pending, db, batch)
    }

    ghost predicate Valid()
      reads this
    {
      && Sound()
      && Consistent(db, batch, cache, state)
      && lastApplied == state.lastApplied
      && revisions == state.revisions
    }

    /**
     * A database that was just created (src/StateMachine.cc:167-174, 273-282): the clock and the last applied
     * index are 0.
     */
    constructor ()
      ensures Valid() && state == NEW_STORE && pending == map[] && batch == map[]
      ensures rows == NEW_ROWS && db == NEW_DATABASE && Represents(db, map[], NEW_STORE)
    {
      rows, db := NEW_ROWS, NEW_DATABASE;
      pending, batch, cache, lastApplied, revisions, state := map[], map[], {}, 0, map[], NEW_STORE;
      new;
      NewIsLinked();
    }

    // -------------------------------------------------------------- staging area and write operations

    /** Reads by name; that is a read of `l` if no other record has its name. */
    function Get(l: Locator): (r: Option<Record>)
      reads this
      ensures Sound() && Proper(l) && Free(db, batch, l) ==> r == Lookup(db, batch, l)
    {
      GotByName(rows, pending, db, batch, l);
      ReadName(rows, pending, LocatorBytes(l))
    }

    /** Writes by name; `owner` is the record that has the name already, or `l` itself. */
    method WriteAs(l: Locator, r: Staged, ghost owner: Locator)
      requires LocatorBytes(owner) == LocatorBytes(l)
      modifies `pending, `batch
      ensures batch == old(batch)[owner := r] && pending == old(pending)[LocatorBytes(l) := r]
      ensures old(Sound()) && Proper(owner) && old(Free(db, batch, owner)) ==> Sound()
    {
      if Sound() && Proper(owner) && Free(db, batch, owner) {
        WriteByName(rows, pending, db, batch, owner, r);
      }
      batch := batch[owner := r];
      pending := pending[LocatorBytes(l) := r];
    }

    method Write(l: Locator, r: Staged)
      modifies `pending, `batch
      ensures batch == old(batch)[l := r] && pending == old(pending)[LocatorBytes(l) := r]
      ensures old(Sound()) && Proper(l) && old(Free(db, batch, l)) ==> Sound()
    {
      WriteAs(l, r, l);
    }

    function Open(key: Key, t: KeyType): (op: Option<Opened>)
      requires Valid()
      reads this
      ensures op == if Wrong(state, key, t) then None
                    else Some(Opened(DescriptorAt(state, key, t), key in state.keys))
    {
      var d := Get(At(key, Descriptor));
      assert d == Encode(state, At(key, Descriptor));
      if d.None? then Some(Opened(FreshDescriptor(t), false))
      else if d.value.descriptor.keyType != t then None
      else Some(Opened(d.value.descriptor, true))
    }

    method Finalize(key: Key, info: KeyDescriptor, newsize: int, force: bool)
      requires newsize >= 0
      modifies `pending, `batch
      ensures batch == Finalized(old(batch), key, info, newsize, force)
      ensures old(Sound()) ==> Sound()
    {
      if newsize == 0 && info.keyType != TVersionedHash {
        Write(At(key, Descriptor), Tombstone);
      } else if info.size != newsize || force {
        Write(At(key, Descriptor), Put(Desc(info.(size := newsize))));
      }
    }

    /** Everything but the records of the operation under way is in order. */
    ghost predicate Ready(batch0: Batch)
      reads this
    {
      && Sound() && Consistent(db, batch0, cache, state)
      && lastApplied == state.lastApplied && revisions == state.revisions
    }

    /** Finalize the operation and, if it went as meant, enter the new value into the abstract store. */
    method Close(key: Key, info: KeyDescriptor, newsize: int, ghost ok: bool, ghost batch0: Batch, ghost v: Value)
      requires newsize >= 0
      requires ok ==> Ready(batch0) && Running(db, batch0, batch, state, key, v)
      requires ok ==> !v.VVersionedHash? && !v.VLease? && !Wrong(state, key, TypeOf(v))
      requires ok ==> newsize == DescriptorOf(v).size && info.keyType == TypeOf(v)
      requires ok ==> info.size == DescriptorAt(state, key, TypeOf(v)).size
      requires ok ==> Empty(v) ==> Blank(v)
      requires ok ==> !Empty(v) ==> info.(size := newsize) == DescriptorOf(v) && WellFormedValue(v, state.clock)
      requires ok ==> !Empty(v) && newsize == info.size ==> info == DescriptorAt(state, key, TypeOf(v))
      modifies `pending, `batch, `state
      ensures ok ==> Valid() && state == With(old(state), key, v)
    {
      if ok {
        FinishOperation(db, batch0, batch, cache, state, key, v, info, newsize);
      }
      Finalize(key, info, newsize, false);
      if ok {
        state := With(state, key, v);
      }
    }

    // -------------------------------------------------------------- hashes

    /**
     * fieldExists and writeField. If another record has the name of the field, it is that record which is
     * overwritten, and the operation on `key` has not begun to change anything.
     */
    method PutField(key: Key, field: Field, value: Bytes)
      returns (found: bool, ghost batch0: Batch, ghost v: Value)
      requires Valid() && !Wrong(state, key, THash)
      modifies `pending, `batch, `state
      ensures Ready(batch0) && Running(db, batch0, batch, state, key, v)
      ensures old(Clear(state, EntryOf(key, THash, field))) ==>
        && state == old(state) && v == VHash(HashOf(state, key)[field := value])
        && (found <==> field in HashOf(state, key))
      ensures !old(Clear(state, EntryOf(key, THash, field))) ==>
        state == HsetByName(old(state), key, field, value).state && v == VHash(HashOf(old(state), key)) && found
    {
      var l := EntryOf(key, THash, field);
      ghost var owner, t;
      owner, t, v, batch0 := PreparePut(rows, pending, db, batch, cache, state, key, field, value);
      found := Get(l).Some?;
      WriteAs(l, Put(Raw(value)), owner);
      state := t;
    }

    method Hset(key: Key, field: Field, value: Bytes) returns (r: Reply)
      requires Valid()
      modifies `pending, `batch, `state
      ensures Valid()
      ensures state == HsetByName(old(state), key, field, value).state
      ensures r == HsetByName(old(state), key, field, value).reply
    {
      var op := Open(key, THash);
      if op.None? { return WrongType; }
      ghost var s := state;
      var found;
      ghost var batch0, v;
      found, batch0, v := PutField(key, field, value);
      HsetKeeps(s, key, field, value);
      Close(key, op.value.info, op.value.info.size + if found then 0 else 1, true, batch0, v);
      r := Count(if found then 0 else 1);
    }

    /** The body of the loop of hmset. */
    method PutPair(key: Key, kv: Update, size: int, ghost ok: bool, ghost batch0: Batch, ghost s: State,
                   ghost m: map<Field, Bytes>)
      returns (newsize: int)
      requires ok ==> Sound() && Running(db, batch0, batch, s, key, VHash(m)) && size == |m|
      requires ok ==> Clear(s, EntryOf(key, THash, kv.field))
      modifies `pending, `batch
      ensures size <= newsize
      ensures ok ==> Sound() && Running(db, batch0, batch, s, key, VHash(m[kv.field := kv.value]))
      ensures ok ==> newsize == |m[kv.field := kv.value]|
    {
      var l := EntryOf(key, THash, kv.field);
      if ok {
        FreeEntry(db, batch0, batch, s, key, VHash(m), THash, kv.field);
        ReadRecord(db, batch0, batch, s, key, VHash(m), Entry(THash, kv.field));
        HashPut(db, batch0, batch, s, key, m, kv.field, kv.value);
      }
      newsize := size + if Get(l).Some? then 0 else 1;
      Write(l, Put(Raw(kv.value)));
    }

    /** The loop of hmset: write the fields in order, counting those that were not there. */
    method PutFields(key: Key, kvs: seq<Update>, size: int, ghost ok: bool, ghost batch0: Batch, ghost s: State,
                     ghost m: map<Field, Bytes>)
      returns (newsize: int)
      requires ok ==> Sound() && Running(db, batch0, batch, s, key, VHash(m)) && size == |m|
      requires ok ==> PairsClear(s, key, kvs)
      modifies `pending, `batch
      ensures size <= newsize
      ensures ok ==> Sound() && Running(db, batch0, batch, s, key, VHash(PutAll(m, kvs)))
      ensures ok ==> newsize == |PutAll(m, kvs)|
    {
      newsize := size;
      ghost var n := m;
      for i := 0 to |kvs|
        invariant n == PutAll(m, kvs[..i]) && size <= newsize && (ok ==> newsize == |n|)
        invariant ok ==> Sound() && Running(db, batch0, batch, s, key, VHash(n))
      {
        assert kvs[..i + 1][..i] == kvs[..i];
        newsize := PutPair(key, kvs[i], newsize, ok, batch0, s, n);
        n := n[kvs[i].field := kvs[i].value];
      }
      assert kvs[..|kvs|] == kvs;
    }

    method Hmset(key: Key, kvs: seq<Update>) returns (r: Reply)
      requires Valid()
      modifies `pending, `batch, `state
      ensures NamesApart(old(state), Command.Hmset(key, kvs)) ==> Valid()
      ensures NamesApart(old(state), Command.Hmset(key, kvs)) ==> state == HmsetSpec(old(state), key, kvs).state
      ensures r == HmsetSpec(old(state), key, kvs).reply
    {
      var op := Open(key, THash);
      if op.None? { return WrongType; }
      ghost var s, batch0, ok := state, batch, PairsClear(state, key, kvs);
      ghost var m := HashOf(s, key);
      BeginOperation(db, batch, s, key, VHash(m));
      var newsize := PutFields(key, kvs, op.value.info.size, ok, batch0, s, m);
      Close(key, op.value.info, newsize, ok, batch0, VHash(PutAll(m, kvs)));
      r := Ok;
    }

    method Hsetnx(key: Key, field: Field, value: Bytes) returns (r: Reply)
      requires Valid()
      modifies `pending, `batch, `state
      ensures Valid()
      ensures state == HsetnxByName(old(state), key, field, value).state
      ensures r == HsetnxByName(old(state), key, field, value).reply
    {
      var op := Open(key, THash);
      if op.None? { return WrongType; }
      var l := EntryOf(key, THash, field);
      ghost var s, batch0, m := state, batch, HashOf(state, key);
      FreeIsClear(db, batch, s, l);
      ReadByName(rows, pending, db, batch, l);
      HashPutFirst(db, batch, s, key, field, value);
      var created := Get(l).None?;
      if created {
        Write(l, Put(Raw(value)));
      }
      UnchangedHash(s, key);
      Close(key, op.value.info, op.value.info.size + if created then 1 else 0, true, batch0,
        VHash(if created then m[field := value] else m));
      r := Count(if created then 1 else 0);
    }

    /** deleteField, for all three types that have it. */
    method DeleteField(key: Key, t: KeyType, field: Field, ghost ok: bool, ghost batch0: Batch, ghost s: State,
                       ghost v: Value)
      returns (existed: bool)
      requires ok ==> HasFields(v) && TypeOf(v) == t && Clear(s, EntryOf(key, t, field))
      requires ok ==> Sound() && Running(db, batch0, batch, s, key, v)
      modifies `pending, `batch
      ensures existed == old(Get(EntryOf(key, t, field))).Some?
      ensures pending == Deleted(rows, old(pending), LocatorBytes(EntryOf(key, t, field)))
      ensures ok ==> Sound() && Running(db, batch0, batch, s, key, DropField(v, field))
    {
      var l := EntryOf(key, t, field);
      if ok {
        FreeEntry(db, batch0, batch, s, key, v, t, field);
        ReadRecord(db, batch0, batch, s, key, v, Entry(t, field));
        FieldRecord(v, field);
        DeleteFieldRecord(db, batch0, batch, s, key, v, field);
      }
      existed := Get(l).Some?;
      if existed {
        Write(l, Tombstone);
      }
    }

    /** The body of the loop of hdel, srem and vhdel; `fs` are the fields before this one, `gs` those up to it. */
    method DeleteNext(key: Key, t: KeyType, field: Field, ghost ok: bool, ghost batch0: Batch, ghost s: State,
                      ghost v: Value, ghost pending0: Pending, ghost fs: seq<Field>, ghost gs: seq<Field>)
      returns (existed: bool)
      requires t in {THash, TSet, TVersionedHash} && gs == fs + [field]
      requires ok ==> HasFields(v) && TypeOf(v) == t && Clear(s, EntryOf(key, t, field))
      requires ok ==> Sound() && Running(db, batch0, batch, s, key, v)
      requires DeletedFrom(rows, pending0, pending, key, t, fs)
      modifies `pending, `batch
      ensures DeletedFrom(rows, pending0, pending, key, t, gs)
      ensures LiveCount(rows, pending0, key, t, gs) == LiveCount(rows, pending0, key, t, fs) + if existed then 1 else 0
      ensures ok ==> Sound() && Running(db, batch0, batch, s, key, DropField(v, field))
    {
      LiveAmongMore(rows, pending0, pending, key, t, fs, field, gs);
      existed := DeleteField(key, t, field, ok, batch0, s, v);
    }

    /** The loop of hdel, srem and vhdel: whatever is found under the names of the fields is deleted and counted. */
    method DeleteFields(key: Key, t: KeyType, fields: seq<Field>, ghost ok: bool, ghost batch0: Batch, ghost s: State,
                        ghost v: Value)
      returns (removed: int)
      requires ok ==> HasFields(v) && TypeOf(v) == t && FieldsClear(s, key, t, fields)
      requires ok ==> Sound() && Running(db, batch0, batch, s, key, v)
      requires t in {THash, TSet, TVersionedHash}
      modifies `pending, `batch
      ensures removed == LiveCount(rows, old(pending), key, t, fields)
      ensures ok ==> Sound() && Running(db, batch0, batch, s, key, DropFields(v, fields))
    {
      removed := 0;
      ghost var w, pending0, done := v, pending, [];
      for i := 0 to |fields|
        invariant done == fields[..i] && w == DropFields(v, done)
        invariant ok ==> Sound() && Running(db, batch0, batch, s, key, w)
        invariant DeletedFrom(rows, pending0, pending, key, t, done)
        invariant removed == LiveCount(rows, pending0, key, t, done)
      {
        ghost var upTo := fields[..i + 1];
        assert upTo == done + [fields[i]];
        DropFieldsMore(v, done, fields[i], upTo);
        var existed := DeleteNext(key, t, fields[i], ok, batch0, s, w, pending0, done, upTo);
        removed := removed + if existed then 1 else 0;
        w, done := DropField(w, fields[i]), upTo;
      }
      assert fields[..|fields|] == fields;
    }

    /** The operation of hdel and srem, from the first deletion to finalize, which throws on a negative size. */
    method Shrink(key: Key, t: KeyType, fields: seq<Field>, info: KeyDescriptor, ghost v: Value)
      returns (removed: int, threw: bool)
      requires Valid() && t in {THash, TSet} && !Wrong(state, key, t) && info == DescriptorAt(state, key, t)
      requires v == CollectionAt(state, key, t)
      modifies `pending, `batch, `state
      ensures removed == HitCount(old(state), key, t, fields) && (threw <==> removed > info.size)
      ensures FieldsClear(old(state), key, t, fields) ==>
        && !threw && Valid() && state == With(old(state), key, DropFields(v, fields))
        && removed == |FieldBytes(v)| - |FieldBytes(DropFields(v, fields))|
    {
      ghost var s, batch0, ok := state, batch, FieldsClear(state, key, t, fields);
      ghost var w := DropFields(v, fields);
      BeginOperation(db, batch, s, key, v);
      LiveAmongIsHits(rows, pending, db, batch, s, key, t, fields);
      ShrunkFits(s, key, t, v, w, info);
      if ok { HitsWhenClear(s, key, v, fields); }
      removed := DeleteFields(key, t, fields, ok, batch0, s, v);
      threw := info.size < removed;
      if threw { return; }
      Close(key, info, info.size - removed, ok, batch0, w);
    }

    /** HDEL removes what it finds under the names of the fields, and throws if that is more than the hash has. */
    method Hdel(key: Key, fields: seq<Field>) returns (r: Reply, threw: bool)
      requires Valid()
      modifies `pending, `batch, `state
      ensures threw <==>
        !Wrong(old(state), key, THash) && HitCount(old(state), key, THash, fields) > |HashOf(old(state), key)|
      ensures !threw ==> r == if Wrong(old(state), key, THash) then WrongType
                              else Count(HitCount(old(state), key, THash, fields))
      ensures EntriesApart(old(state), key, THash, fields) ==> !threw && Valid()
      ensures EntriesApart(old(state), key, THash, fields) ==> state == HdelSpec(old(state), key, fields).state
      ensures EntriesApart(old(state), key, THash, fields) ==> r == HdelSpec(old(state), key, fields).reply
    {
      var op := Open(key, THash);
      if op.None? { return WrongType, false; }
      HdelIsShrink(state, key, fields);
      var removed;
      removed, threw := Shrink(key, THash, fields, op.value.info, VHash(HashOf(state, key)));
      r := Count(removed);
    }

    // -------------------------------------------------------------- strings

    method Set(key: Key, value: Bytes) returns (r: Reply)
      requires Valid() && value != []
      modifies `pending, `batch, `state
      ensures Valid()
      ensures state == SetSpec(old(state), key, value).state
      ensures r == SetSpec(old(state), key, value).reply
    {
      var op := Open(key, TString);
      if op.None? { return WrongType; }
      ghost var s, batch0 := state, batch;
      ghost var v := if key in s.keys then s.keys[key] else VHash(map[]);
      BeginOperation(db, batch, s, key, v);
      WriteRecord(db, batch, batch, s, key, v, VString(value), Text, Put(Raw(value)));
      Write(At(key, Text), Put(Raw(value)));
      Close(key, op.value.info, |value|, true, batch0, VString(value));
      r := Ok;
    }

    // -------------------------------------------------------------- sets

    method Sadd(key: Key, fields: seq<Field>) returns (r: Reply)
      requires Valid()
      modifies `pending, `batch, `state
      ensures Valid()
      ensures state == SaddByName(old(state), key, fields).state
      ensures r == SaddByName(old(state), key, fields).reply
    {
      var op := Open(key, TSet);
      if op.None? { return WrongType; }
      ghost var s, batch0 := state, batch;
      ghost var m := SetOf(s, key);
      BeginOperation(db, batch, s, key, VSet(m));
      var added := AddMembers(key, fields, batch0, s, m);
      Close(key, op.value.info, op.value.info.size + added, true, batch0, VSet(AddAllByName(s, key, m, fields)));
      r := Count(added);
    }

    method AddMember(key: Key, field: Field, ghost ok: bool, ghost batch0: Batch, ghost s: State, ghost m: set<Field>)
      returns (added: bool)
      requires ok ==> Sound() && Running(db, batch0, batch, s, key, VSet(m))
      modifies `pending, `batch
      ensures ok ==> Sound() && Running(db, batch0, batch, s, key, VSet(AddByName(s, key, m, field)))
      ensures ok ==> |AddByName(s, key, m, field)| == |m| + if added then 1 else 0
    {
      var l := EntryOf(key, TSet, field);
      if ok {
        FreeEntry(db, batch0, batch, s, key, VSet(m), TSet, field);
        ReadByName(rows, pending, db, batch, l);
        ReadRecord(db, batch0, batch, s, key, VSet(m), Entry(TSet, field));
        SetSizes(m, field);
        SetPut(db, batch0, batch, s, key, m, field);
        if !Clear(s, l) { NamesakeInOperation(db, batch0, batch, s, key, VSet(m), TSet, field); }
      }
      added := Get(l).None?;
      if added {
        Write(l, Put(Raw(ONE)));
      }
    }

    method AddMembers(key: Key, fields: seq<Field>, ghost batch0: Batch, ghost s: State, ghost m: set<Field>)
      returns (added: int)
      requires Sound() && Running(db, batch0, batch, s, key, VSet(m))
      modifies `pending, `batch
      ensures Sound() && Running(db, batch0, batch, s, key, VSet(AddAllByName(s, key, m, fields)))
      ensures added == |AddAllByName(s, key, m, fields)| - |m| && 0 <= added
    {
      added := 0;
      ghost var n := m;
      for i := 0 to |fields|
        invariant n == AddAllByName(s, key, m, fields[..i]) && 0 <= added == |n| - |m|
        invariant Sound() && Running(db, batch0, batch, s, key, VSet(n))
      {
        assert fields[..i + 1][..i] == fields[..i];
        var new_ := AddMember(key, fields[i], true, batch0, s, n);
        added := added + if new_ then 1 else 0;
        n := AddByName(s, key, n, fields[i]);
      }
      assert fields[..|fields|] == fields;
    }

    method Srem(key: Key, fields: seq<Field>) returns (r: Reply, threw: bool)
      requires Valid()
      modifies `pending, `batch, `state
      ensures threw <==>
        !Wrong(old(state), key, TSet) && HitCount(old(state), key, TSet, fields) > |SetOf(old(state), key)|
      ensures !threw ==> r == if Wrong(old(state), key, TSet) then WrongType
                              else Count(HitCount(old(state), key, TSet, fields))
      ensures EntriesApart(old(state), key, TSet, fields) ==> !threw && Valid()
      ensures EntriesApart(old(state), key, TSet, fields) ==> state == SremSpec(old(state), key, fields).state
      ensures EntriesApart(old(state), key, TSet, fields) ==> r == SremSpec(old(state), key, fields).reply
    {
      var op := Open(key, TSet);
      if op.None? { return WrongType, false; }
      SremIsShrink(state, key, fields);
      var removed;
      removed, threw := Shrink(key, TSet, fields, op.value.info, VSet(SetOf(state, key)));
      r := Count(removed);
    }

    /**
     * Two write operations are open at once; the second was opened before the first was finalized. If the
     * element is clear in the source, it is moved, or found in the target under the name of another.
     */
    method Smove(source: Key, target: Key, field: Field) returns (r: Reply, threw: bool)
      requires Valid() && source != target
      modifies `pending, `batch, `state
      ensures SourceClear(old(state), source, target, field) ==> !threw && Valid()
      ensures SourceClear(old(state), source, target, field) ==>
        state == SmoveByName(old(state), source, target, field).state
      ensures SourceClear(old(state), source, target, field) ==>
        r == SmoveByName(old(state), source, target, field).reply
    {
      threw := false;
      var op1 := Open(source, TSet);
      if op1.None? { return WrongType, false; }
      var op2 := Open(target, TSet);
      if op2.None? {
        FinalizeUnchanged(source, op1.value.info, true);
        return WrongType, false;
      }
      r, threw := MoveMember(source, target, field, op1.value.info, op2.value.info);
    }

    /** smove with both operations open. */
    method MoveMember(source: Key, target: Key, field: Field, from: KeyDescriptor, to: KeyDescriptor)
      returns (r: Reply, threw: bool)
      requires Valid() && source != target && !Wrong(state, source, TSet) && !Wrong(state, target, TSet)
      requires from == DescriptorAt(state, source, TSet) && to == DescriptorAt(state, target, TSet)
      modifies `pending, `batch, `state
      ensures Clear(old(state), EntryOf(source, TSet, field)) ==> !threw && Valid()
      ensures Clear(old(state), EntryOf(source, TSet, field)) ==>
        state == SmoveByName(old(state), source, target, field).state
      ensures Clear(old(state), EntryOf(source, TSet, field)) ==>
        r == SmoveByName(old(state), source, target, field).reply
    {
      threw := false;
      var l := EntryOf(source, TSet, field);
      ghost var s, ok := state, Clear(state, l);
      FreeIsClear(db, batch, s, l);
      assert Lookup(db, batch, l) == Encode(s, l);
      if Get(l).Some? {
        if from.size == 0 {  // finalize throws: something was deleted, but not of this set
          Write(l, Tombstone);
          return Ok, true;
        }
        TakeMember(source, field, from, ok);
        PutMember(target, field, to, ok);
        r := Count(1);
      } else {
        FinalizeUnchanged(source, from, ok);
        FinalizeUnchanged(target, to, ok);
        r := Count(0);
      }
    }

    /** Finalizing a set operation that changed nothing changes nothing. */
    method FinalizeUnchanged(key: Key, info: KeyDescriptor, ghost ok: bool)
      requires info.size >= 0
      requires ok ==> Valid() && !Wrong(state, key, TSet) && info == DescriptorAt(state, key, TSet)
      modifies `pending, `batch
      ensures ok ==> Valid()
    {
      if ok {
        BeginOperation(db, batch, state, key, VSet(SetOf(state, key)));
        FinishOperation(db, batch, batch, cache, state, key, VSet(SetOf(state, key)), info, info.size);
        UnchangedSet(state, key);
      }
      Finalize(key, info, info.size, false);
    }

    method TakeMember(key: Key, field: Field, info: KeyDescriptor, ghost ok: bool)
      requires info.size >= 1
      requires ok ==> Valid() && !Wrong(state, key, TSet) && info == DescriptorAt(state, key, TSet)
      requires ok ==> field in SetOf(state, key)
      modifies `pending, `batch, `state
      ensures ok ==> Valid() && state == With(old(state), key, VSet(SetOf(old(state), key) - {field}))
    {
      ghost var s, batch0, m := state, batch, SetOf(state, key);
      if ok {
        BeginOperation(db, batch, s, key, VSet(m));
        SetDelete(db, batch, batch, s, key, m, field);
        assert Lookup(db, batch, EntryOf(key, TSet, field)) == Encode(s, EntryOf(key, TSet, field));
        assert Shown(rows, pending, db, batch, EntryOf(key, TSet, field));
      }
      Write(EntryOf(key, TSet, field), Tombstone);
      Close(key, info, info.size - 1, ok, batch0, VSet(m - {field}));
    }

    method PutMember(key: Key, field: Field, info: KeyDescriptor, ghost ok: bool)
      requires info.size >= 0
      requires ok ==> Valid() && !Wrong(state, key, TSet) && info == DescriptorAt(state, key, TSet)
      modifies `pending, `batch, `state
      ensures ok ==> Valid()
      ensures ok ==> state == With(old(state), key, VSet(AddByName(old(state), key, SetOf(old(state), key), field)))
    {
      ghost var s, batch0, m := state, batch, SetOf(state, key);
      if ok {
        BeginOperation(db, batch, s, key, VSet(m));
      }
      var added := AddMember(key, field, ok, batch0, s, m);
      Close(key, info, info.size + if added then 1 else 0, ok, batch0, VSet(AddByName(s, key, m, field)));
    }

    // -------------------------------------------------------------- locality hashes

    /** lhsetInternal (src/StateMachine.cc:369-401): same hint, other hint, or new field. */
    method Place(
      key: Key, field: Field, hint: Hint, value: Bytes, ghost batch0: Batch, ghost s: State,
        ghost m: map<Field, Located>)
      returns (created: bool)
      requires Sound() && Running(db, batch0, batch, s, key, VLocalityHash(m))
      modifies `pending, `batch
      ensures Sound() && Running(db, batch0, batch, s, key, VLocalityHash(PlaceByName(m, field, hint, value)))
      ensures created <==> field !in m && HintClear(m, field, hint)
    {
      created := false;
      var data := At(key, LocalityData(hint, field));
      LocalityRead(db, batch0, batch, s, key, m);
      FreeHint(db, batch0, batch, s, key, m, field, hint);
      ReadByName(rows, pending, db, batch, data);
      if Get(data).Some? {
        Replace(key, field, hint, value, batch0, s, m);
        return;
      }
      var previous := Get(At(key, LocalityIndex(field)));
      if previous.Some? {
        var old_ := At(key, LocalityData(previous.value.bytes, field));
        assert Shown(rows, pending, db, batch, old_);
        assert Get(old_).Some?;  // the index never points at a missing field record
        LocalityMove(db, batch0, batch, s, key, m, field, hint, value);
        MoveHint(key, field, hint, value, previous.value.bytes);
        return;
      }
      created := true;
      LocalityCreate(db, batch0, batch, s, key, m, field, hint, value);
      Write(data, Put(Raw(value)));
      Write(At(key, LocalityIndex(field)), Put(Raw(hint)));
    }

    /** The fast path: whatever has the name of the field under this hint gets the value. */
    method Replace(
      key: Key, field: Field, hint: Hint, value: Bytes, ghost batch0: Batch, ghost s: State,
        ghost m: map<Field, Located>)
      requires Sound() && Running(db, batch0, batch, s, key, VLocalityHash(m))
      requires Get(At(key, LocalityData(hint, field))).Some?
      modifies `pending, `batch
      ensures Sound() && Running(db, batch0, batch, s, key, VLocalityHash(PlaceByName(m, field, hint, value)))
      ensures field in m || !HintClear(m, field, hint)
    {
      var data := At(key, LocalityData(hint, field));
      LocalityRead(db, batch0, batch, s, key, m);
      FreeHint(db, batch0, batch, s, key, m, field, hint);
      ReadByName(rows, pending, db, batch, data);
      ghost var owner := data;
      if HintClear(m, field, hint) {
        LocalityOverwrite(db, batch0, batch, s, key, m, field, hint, value);
      } else {
        var p := Other(hint, field).value;
        owner := At(key, LocalityData(p.0, p.1));
        NamesakeBack(data);
        LocalityOverwrite(db, batch0, batch, s, key, m, p.1, p.0, value);
        assert Shown(rows, pending, db, batch, owner);
      }
      WriteAs(data, Put(Raw(value)), owner);
    }

    /** Drop the record under the old hint, write the one under the new hint and the index. */
    method MoveHint(key: Key, field: Field, hint: Hint, value: Bytes, previous: Hint)
      requires Sound() && Lookup(db, batch, At(key, LocalityData(previous, field))).Some?
      requires Free(db, batch, At(key, LocalityData(hint, field)))
      modifies `pending, `batch
      ensures Sound()
      ensures batch == old(batch)[At(key, LocalityData(previous, field)) := Tombstone]
        [At(key, LocalityData(hint, field)) := Put(Raw(value))][At(key, LocalityIndex(field)) := Put(Raw(hint))]
    {
      assert Shown(rows, pending, db, batch, At(key, LocalityData(previous, field)));
      Write(At(key, LocalityData(previous, field)), Tombstone);
      Write(At(key, LocalityData(hint, field)), Put(Raw(value)));
      Write(At(key, LocalityIndex(field)), Put(Raw(hint)));
    }

    method Lhset(key: Key, field: Field, hint: Hint, value: Bytes) returns (r: Reply)
      requires Valid() && key != [] && field != [] && hint != []
      modifies `pending, `batch, `state
      ensures Valid()
      ensures state == LhsetByName(old(state), key, field, hint, value).state
      ensures r == LhsetByName(old(state), key, field, hint, value).reply
    {
      var op := Open(key, TLocalityHash);
      if op.None? { return WrongType; }
      ghost var s, batch0 := state, batch;
      ghost var m := LocatedOf(s, key);
      BeginOperation(db, batch, s, key, VLocalityHash(m));
      var created := Place(key, field, hint, value, batch0, s, m);
      PlaceSize(m, field, hint, value);
      var newsize := op.value.info.size + if created then 1 else 0;
      Close(key, op.value.info, newsize, true, batch0, VLocalityHash(PlaceByName(m, field, hint, value)));
      r := Count(if created then 1 else 0);
    }

    method PlaceFields(key: Key, ps: seq<Placement>, ghost batch0: Batch, ghost s: State, ghost m: map<Field, Located>)
      returns (created: int)
      requires Sound() && Running(db, batch0, batch, s, key, VLocalityHash(m))
      modifies `pending, `batch
      ensures Sound() && Running(db, batch0, batch, s, key, VLocalityHash(PlaceAllByName(m, ps)))
      ensures created == |PlaceAllByName(m, ps)| - |m| && created >= 0
    {
      created := 0;
      ghost var n := m;
      for i := 0 to |ps|
        invariant n == PlaceAllByName(m, ps[..i]) && created == |n| - |m| && created >= 0
        invariant Sound() && Running(db, batch0, batch, s, key, VLocalityHash(n))
      {
        assert ps[..i + 1][..i] == ps[..i];
        var new_ := Place(key, ps[i].field, ps[i].hint, ps[i].value, batch0, s, n);
        PlaceSize(n, ps[i].field, ps[i].hint, ps[i].value);
        created := created + if new_ then 1 else 0;
        n := PlaceByName(n, ps[i].field, ps[i].hint, ps[i].value);
      }
      assert ps[..|ps|] == ps;
    }

    method Lhmset(key: Key, ps: seq<Placement>) returns (r: Reply)
      requires Valid() && key != [] && forall p <- ps :: p.field != [] && p.hint != []
      modifies `pending, `batch, `state
      ensures Valid()
      ensures state == LhmsetByName(old(state), key, ps).state
      ensures r == LhmsetByName(old(state), key, ps).reply
    {
      var op := Open(key, TLocalityHash);
      if op.None? { return WrongType; }
      ghost var s, batch0 := state, batch;
      ghost var m := LocatedOf(s, key);
      BeginOperation(db, batch, s, key, VLocalityHash(m));
      var created := PlaceFields(key, ps, batch0, s, m);
      ghost var v := VLocalityHash(PlaceAllByName(m, ps));
      Close(key, op.value.info, op.value.info.size + created, true, batch0, v);
      r := Ok;
    }

    method DropPlaced(key: Key, field: Field, ghost batch0: Batch, ghost s: State, ghost m: map<Field, Located>)
      returns (existed: bool)
      requires Sound() && Running(db, batch0, batch, s, key, VLocalityHash(m))
      modifies `pending, `batch
      ensures Sound() && Running(db, batch0, batch, s, key, VLocalityHash(Without(m, field)))
      ensures existed <==> field in m
    {
      LocalityRead(db, batch0, batch, s, key, m);
      var hint := Get(At(key, LocalityIndex(field)));
      existed := hint.Some?;
      if existed {
        var data := At(key, LocalityData(hint.value.bytes, field));
        assert Shown(rows, pending, db, batch, data);
        assert Get(data).Some?;  // the index never points at a missing field record
        LocalityDelete(db, batch0, batch, s, key, m, field);
        Write(At(key, LocalityIndex(field)), Tombstone);
        Write(data, Tombstone);
      }
    }

    method DropAllPlaced(
      key: Key, fields: seq<Field>, ghost batch0: Batch, ghost s: State, ghost m: map<Field, Located>)
      returns (removed: int)
      requires Sound() && Running(db, batch0, batch, s, key, VLocalityHash(m))
      modifies `pending, `batch
      ensures Sound() && Running(db, batch0, batch, s, key, VLocalityHash(RemoveAll(m, fields)))
      ensures removed == |m| - |RemoveAll(m, fields)|
    {
      removed := 0;
      ghost var n := m;
      for i := 0 to |fields|
        invariant n == RemoveAll(m, fields[..i]) && removed == |m| - |n|
        invariant Sound() && Running(db, batch0, batch, s, key, VLocalityHash(n))
      {
        assert fields[..i + 1][..i] == fields[..i];
        var existed := DropPlaced(key, fields[i], batch0, s, n);
        removed := removed + if existed then 1 else 0;
        n := Without(n, fields[i]);
      }
      assert fields[..|fields|] == fields;
    }

    method Lhdel(key: Key, fields: seq<Field>) returns (r: Reply)
      requires Valid() && key != [] && [] !in fields
      modifies `pending, `batch, `state
      ensures Valid()
      ensures state == LhdelSpec(old(state), key, fields).state
      ensures r == LhdelSpec(old(state), key, fields).reply
    {
      var op := Open(key, TLocalityHash);
      if op.None? { return WrongType; }
      ghost var s, batch0 := state, batch;
      ghost var m := LocatedOf(s, key);
      BeginOperation(db, batch, s, key, VLocalityHash(m));
      var removed := DropAllPlaced(key, fields, batch0, s, m);
      ghost var v := VLocalityHash(RemoveAll(m, fields));
      Close(key, op.value.info, op.value.info.size - removed, true, batch0, v);
      r := Count(removed);
    }

    /** lhlocdel asserts that lhdel removed one field; that fails if what it found was another field. */
    method Lhlocdel(key: Key, field: Field, hint: Hint) returns (r: Reply, threw: bool)
      requires Valid() && key != [] && field != [] && hint != []
      modifies `pending, `batch, `state
      ensures Valid()
      ensures threw <==> LhlocdelByName(old(state), key, field, hint).None?
      ensures !threw ==> state == LhlocdelByName(old(state), key, field, hint).value.state
      ensures !threw ==> r == LhlocdelByName(old(state), key, field, hint).value.reply
    {
      threw := false;
      var op := Open(key, TLocalityHash);
      if op.None? { return WrongType, false; }
      ghost var m := LocatedOf(state, key);
      var data := At(key, LocalityData(hint, field));
      FreeIsClear(db, batch, state, data);
      ClearHint(state, key, field, hint);
      ReadByName(rows, pending, db, batch, data);
      assert Lookup(db, batch, data) == Encode(state, data);
      if Get(data).Some? {
        r := Lhdel(key, [field]);
        assert [field][..0] == [] && RemoveAll(m, [field][..0]) == m;
        threw := r != Count(1);
      } else {
        r := Count(0);
      }
    }

    /** With the right hint, or none, the answer is the value; see LhgetByName for the others. */
    method Lhget(key: Key, field: Field, hint: Hint) returns (r: Reply)
      requires Valid() && key != [] && field != []
      ensures r == LhgetByName(state, key, field, hint)
    {
      var op := Open(key, TLocalityHash);
      if op.None? { return WrongType; }
      if hint != [] {
        var data := At(key, LocalityData(hint, field));
        FreeIsClear(db, batch, state, data);
        ClearHint(state, key, field, hint);
        ReadByName(rows, pending, db, batch, data);
        assert Lookup(db, batch, data) == Encode(state, data);
        ReadOther(db, batch, state, key, field, hint);
        var fast := Get(data);
        if fast.Some? { return Bulk(fast.value.bytes); }
      }
      r := LhgetByIndex(key, field, hint);
    }

    /** The slow path: look up the hint in the index. */
    method LhgetByIndex(key: Key, field: Field, hint: Hint) returns (r: Reply)
      requires Valid() && !Wrong(state, key, TLocalityHash)
      requires hint != [] ==> Encode(state, At(key, LocalityData(hint, field))).None?
      ensures r == LhgetSpec(state, key, field)
    {
      var correct := Get(At(key, LocalityIndex(field)));
      assert correct == Encode(state, At(key, LocalityIndex(field)));
      if correct.None? { return NotFound; }
      assert hint != [] ==> hint != correct.value.bytes;  // only a wrong hint gets here
      var data := At(key, LocalityData(correct.value.bytes, field));
      assert Lookup(db, batch, data) == Encode(state, data);
      assert Shown(rows, pending, db, batch, data);
      r := Bulk(Get(data).value.bytes);
    }

    method Hget(key: Key, field: Field) returns (r: Reply)
      requires Valid()
      ensures r == HgetByName(state, key, field)
    {
      var op := Open(key, THash);
      if op.None? { return WrongType; }
      var l := EntryOf(key, THash, field);
      FreeIsClear(db, batch, state, l);
      ReadByName(rows, pending, db, batch, l);
      assert Lookup(db, batch, l) == Encode(state, l);
      ReadNamesake(db, batch, state, l);
      var x := Get(l);
      r := if x.Some? then Bulk(x.value.bytes) else NotFound;
    }

    /** hlen, lhlen, scard, deque-len and vhlen all read the counter of the descriptor. */
    method Length(key: Key, t: KeyType) returns (r: Reply)
      requires Valid() && t != TString && t != TLease
      ensures r == if Wrong(state, key, t) then WrongType
                   else match t
                     case THash => Count(|HashOf(state, key)|)
                     case TSet => Count(|SetOf(state, key)|)
                     case TDeque => Count(|ItemsOf(state, key)|)
                     case TLocalityHash => Count(|LocatedOf(state, key)|)
                     case _ => Count(|EntriesOf(state, key)|)
    {
      var op := Open(key, t);
      if op.None? { return WrongType; }
      r := Count(op.value.info.size);
    }

    /**
     * hclone copies the fields of one hash into a key that must not exist. Its assert fails if the source is
     * not alone. If the copy of a field lies ahead, its iterator comes upon what it has written itself (`met`),
     * and the model stops there.
     */
    method Hclone(source: Key, target: Key) returns (r: Reply, threw: bool, met: bool)
      requires Valid()
      modifies `pending, `batch, `state
      ensures !met ==> (threw <==> Throws(old(state), Command.Hclone(source, target)))
      ensures met <==> CloneMet(old(state), source, target)
      ensures CloneApart(old(state), source, target) && !threw ==> Valid()
      ensures CloneApart(old(state), source, target) && !threw ==>
        state == HcloneSpec(old(state), source, target).state
      ensures !threw && !met ==> r == HcloneSpec(old(state), source, target).reply
    {
      threw, met := false, false;
      var op := Open(target, THash);
      if op.None? { return WrongType, false, false; }
      if op.value.keyExists { return TargetExists, false, false; }
      var from := Get(At(source, Descriptor));
      assert from == Encode(state, At(source, Descriptor));
      if from.None? { return Ok, false, false; }
      if from.value.descriptor.keyType != THash { return WrongType, false, false; }
      threw, met := CloneFields(source, target, op.value.info, from.value.descriptor.size);
      r := Ok;
    }

    method CloneFields(source: Key, target: Key, info: KeyDescriptor, size: int) returns (threw: bool, met: bool)
      requires Valid() && Clones(state, source, target)
      requires info == DescriptorAt(state, target, THash) && size == DescriptorOf(state.keys[source]).size
      modifies `pending, `batch, `state
      ensures !met ==> (threw <==> !Alone(old(state), source))
      ensures met <==> CloneMet(old(state), source, target)
      ensures CloneApart(old(state), source, target) && !threw && !met ==>
        Valid() && state == With(old(state), target, VHash(HashOf(old(state), source)))
    {
      ghost var s, batch0, m := state, batch, HashOf(state, source);
      ghost var ok := Alone(s, source) && CloneApart(s, source, target);
      CloneFacts(rows, pending, db, batch, s, source, target);
      var newsize;
      newsize, met := CopyUnder(source, target, ok, batch0, s, m);
      threw := !met && newsize != size;  // the assert on the number of fields
      if met || threw { return; }
      Close(target, info, newsize, ok, batch0, VHash(m));
    }

    method CopyField(name: Bytes, target: Key, f: Field, ghost ok: bool, ghost batch0: Batch, ghost s: State,
                     ghost m: map<Field, Bytes>, ghost copied: map<Field, Bytes>)
      requires ReadName(rows, pending, name).Some?
      requires ok ==> Sound() && Running(db, batch0, batch, s, target, VHash(copied))
      requires ok ==> f in m && ReadName(rows, pending, name) == Some(Raw(m[f])) && Clear(s, EntryOf(target, THash, f))
      modifies `pending, `batch
      ensures exists r :: pending == old(pending)[LocatorBytes(EntryOf(target, THash, f)) := Put(r)]
      ensures ok ==> Sound() && Running(db, batch0, batch, s, target, VHash(copied[f := m[f]]))
    {
      var x := ReadName(rows, pending, name).value;
      if ok {
        FreeEntry(db, batch0, batch, s, target, VHash(copied), THash, f);
        HashPut(db, batch0, batch, s, target, copied, f, m[f]);
      }
      Write(EntryOf(target, THash, f), Put(x));
    }

    /** The body of the loop of hclone: copy a field, then Next. */
    method CopyNext(source: Key, target: Key, name: Bytes, ghost ok: bool, ghost batch0: Batch, ghost s: State,
                    ghost m: map<Field, Bytes>, ghost pending0: Pending, ghost done: set<Bytes>,
                    ghost copied: map<Field, Bytes>)
      returns (met: bool, next: Option<Bytes>, ghost copied1: map<Field, Bytes>)
      requires Ahead(rows, pending0, pending, source, done, Some(name)) && SourcePrefix(source) <= name
      requires ok ==> Sound() && Running(db, batch0, batch, s, target, VHash(copied))
      requires ok ==> forall f :: f in m ==> Clear(s, EntryOf(target, THash, f))
      requires ok ==> NamesOfFields(rows, pending0, source, m) && Copied(m, source, done, copied)
      modifies `pending, `batch
      requires NoneChased(rows, pending0, source, target, done)
      ensures met <==> ChasedName(rows, pending0, source, target, name)
      ensures !met ==> Ahead(rows, pending0, pending, source, done + {name}, next)
      ensures !met ==> NoneChased(rows, pending0, source, target, done + {name}) && |done + {name}| == |done| + 1
      ensures |NamesUnder(rows, pending0, source) - (done + {name})| < |NamesUnder(rows, pending0, source) - done|
      ensures ok && !met ==> Sound() && Running(db, batch0, batch, s, target, VHash(copied1))
      ensures ok && !met ==> Copied(m, source, done + {name}, copied1)
    {
      var prefix := PrefixBytes(Entries(THash, source));
      var f := name[|prefix|..];
      next, copied1 := None, copied;
      BeforeIrreflexive(name);
      OneLess(NamesUnder(rows, pending0, source), done, name);
      if ok { FieldAt(rows, pending0, pending, source, m, done, name); }
      ghost var pending1 := pending;
      CopyField(name, target, f, ok, batch0, s, m, copied);
      var copy := LocatorBytes(EntryOf(target, THash, f));
      met := prefix <= copy && Before(name, copy);
      if met { return; }
      NoneMoreChased(rows, pending0, source, target, done, name);
      next := Stand(Behind(rows, pending, name));
      NextAhead(rows, pending0, pending1, pending, source, done, name, copy, next);
      if ok {
        CopiedMore(m, source, done, copied, name, f);
        copied1 := copied[f := m[f]];
      }
    }

    /** The loop of hclone: from name to name under the prefix of the source. */
    method CopyFrom(first: Option<Bytes>, source: Key, target: Key, ghost ok: bool, ghost batch0: Batch,
                    ghost s: State, ghost m: map<Field, Bytes>, ghost pending0: Pending)
      returns (newsize: int, met: bool)
      requires Ahead(rows, pending0, pending, source, {}, first)
      requires ok ==> Sound() && Running(db, batch0, batch, s, target, VHash(map[]))
      requires ok ==> forall f :: f in m ==> Clear(s, EntryOf(target, THash, f))
      requires ok ==> NamesOfFields(rows, pending0, source, m)
      modifies `pending, `batch
      ensures met <==> exists n :: ChasedName(rows, pending0, source, target, n)
      ensures !met ==> newsize == |NamesUnder(rows, pending0, source)|
      ensures ok && !met ==> Sound() && Running(db, batch0, batch, s, target, VHash(m))
    {
      ghost var done, copied := {}, map[];
      newsize, met := 0, false;
      var iter := first;
      while iter.Some? && PrefixBytes(Entries(THash, source)) <= iter.value
        invariant Ahead(rows, pending0, pending, source, done, iter) && newsize == |done|
        invariant NoneChased(rows, pending0, source, target, done)
        invariant ok ==> Sound() && Running(db, batch0, batch, s, target, VHash(copied))
        invariant ok ==> Copied(m, source, done, copied)
        decreases |NamesUnder(rows, pending0, source) - done|
      {
        var next;
        met, next, copied := CopyNext(source, target, iter.value, ok, batch0, s, m, pending0, done, copied);
        if met { return; }
        newsize := newsize + 1;
        done := done + {iter.value};
        iter := next;
      }
      AllVisited(rows, pending0, pending, source, target, done, iter);
      if ok { AllCopied(rows, pending0, source, m, done, copied); }
    }

    method CopyUnder(source: Key, target: Key, ghost ok: bool, ghost batch0: Batch, ghost s: State,
                     ghost m: map<Field, Bytes>)
      returns (newsize: int, met: bool)
      requires ok ==> Sound() && Running(db, batch0, batch, s, target, VHash(map[]))
      requires ok ==> forall f :: f in m ==> Clear(s, EntryOf(target, THash, f))
      requires ok ==> NamesOfFields(rows, pending, source, m)
      modifies `pending, `batch
      ensures met <==> exists n :: ChasedName(rows, old(pending), source, target, n)
      ensures !met ==> newsize == |NamesUnder(rows, old(pending), source)|
      ensures ok && !met ==> Sound() && Running(db, batch0, batch, s, target, VHash(m))
    {
      var first := Stand(NotBefore(rows, pending, PrefixBytes(Entries(THash, source))));
      SeekAhead(rows, pending, source, first);
      newsize, met := CopyFrom(first, source, target, ok, batch0, s, m, pending);
    }

    // -------------------------------------------------------------- migration commands (src/Dispatcher.cc)

    method LhsetAndDelFallback(key: Key, field: Field, hint: Hint, value: Bytes, fallback: Key)
      returns (r: Reply, threw: bool)
      requires Valid() && key != [] && field != [] && hint != []
      modifies `pending, `batch, `state
      ensures NamesApart(old(state), Command.LhsetAndDelFallback(key, field, hint, value, fallback)) ==>
        !threw && Valid()
      ensures NamesApart(old(state), Command.LhsetAndDelFallback(key, field, hint, value, fallback)) ==>
        state == LhsetAndDelFallbackSpec(old(state), key, field, hint, value, fallback).state
      ensures NamesApart(old(state), Command.LhsetAndDelFallback(key, field, hint, value, fallback)) ==>
        r == LhsetAndDelFallbackSpec(old(state), key, field, hint, value, fallback).reply
    {
      r := Lhset(key, field, hint, value);
      var ignored;
      ignored, threw := Hdel(fallback, [field]);
    }

    method LhdelWithFallback(key: Key, field: Field, fallback: Key) returns (r: Reply, threw: bool)
      requires Valid() && key != [] && field != []
      modifies `pending, `batch, `state
      ensures NamesApart(old(state), Command.LhdelWithFallback(key, field, fallback)) ==> !threw && Valid()
      ensures NamesApart(old(state), Command.LhdelWithFallback(key, field, fallback)) ==>
        state == LhdelWithFallbackSpec(old(state), key, field, fallback).state
      ensures NamesApart(old(state), Command.LhdelWithFallback(key, field, fallback)) ==>
        r == LhdelWithFallbackSpec(old(state), key, field, fallback).reply
    {
      threw := false;
      r := Lhdel(key, [field]);
      if r != Count(1) {
        r, threw := Hdel(fallback, [field]);
      }
    }

    method LhgetWithFallback(key: Key, field: Field, hint: Hint, fallback: Key) returns (r: Reply)
      requires Valid() && key != [] && field != []
      ensures r == LhgetWithFallbackByName(state, key, field, hint, fallback)
    {
      r := Lhget(key, field, hint);
      if r == NotFound {
        r := Hget(fallback, field);
      }
    }

    method ConvertHashField(source: Key, field: Field, target: Key, newField: Field, hint: Hint)
      returns (r: Reply, threw: bool)
      requires Valid() && target != [] && newField != [] && hint != []
      modifies `pending, `batch, `state
      ensures NamesApart(old(state), Command.ConvertHashField(source, field, target, newField, hint)) ==>
        !threw && Valid()
      ensures NamesApart(old(state), Command.ConvertHashField(source, field, target, newField, hint)) ==>
        state == ConvertHashFieldSpec(old(state), source, field, target, newField, hint).state
      ensures NamesApart(old(state), Command.ConvertHashField(source, field, target, newField, hint)) ==>
        r == ConvertHashFieldSpec(old(state), source, field, target, newField, hint).reply
    {
      ConvertReads(state, source, field, target, newField, hint);
      var occupied := Lhget(target, newField, hint);
      if occupied.Bulk? { return TargetExists, false; }
      var value := Hget(source, field);
      if !value.Bulk? { return value, false; }
      r, threw := MoveField(source, field, target, newField, hint, value.value);
    }

    /** The field is there and its destination is not: set it there and delete it here. */
    method MoveField(source: Key, field: Field, target: Key, newField: Field, hint: Hint, value: Bytes)
      returns (r: Reply, threw: bool)
      requires Valid() && target != [] && newField != [] && hint != []
      modifies `pending, `batch, `state
      ensures MovesField(old(state), source, field, target, newField, hint, value) ==> !threw && Valid()
      ensures MovesField(old(state), source, field, target, newField, hint, value) ==>
        state == ConvertHashFieldSpec(old(state), source, field, target, newField, hint).state
      ensures MovesField(old(state), source, field, target, newField, hint, value) ==>
        r == ConvertHashFieldSpec(old(state), source, field, target, newField, hint).reply
    {
      threw := false;
      ghost var s := state;
      var created := Lhset(target, newField, hint, value);
      if created == WrongType { return WrongType, false; }
      if created != Count(1) { return Ok, true; }  // "should never happen"
      LinkedIsApart(rows, pending, db, batch, state);
      if MovesField(s, source, field, target, newField, hint, value) {
        FieldStays(s, state, source, field, target);
      }
      RemoveAllOne(HashOf(s, source), field);
      var removed;
      removed, threw := Hdel(source, [field]);
      threw := threw || removed != Count(1);  // "should never happen", and an assert
      r := Ok;
    }

    // -------------------------------------------------------------- deques

    method PushItems(
      direction: Direction, key: Key, xs: seq<Bytes>, index: int, ghost batch0: Batch, ghost s: State, ghost v: Value)
      requires Sound() && v.VDeque? && Running(db, batch0, batch, s, key, v)
      requires index == EdgeOf(direction, v) && 0 <= index < U64_LIMIT
      requires if direction == Left then |xs| <= index else index + |xs| < U64_LIMIT
      modifies `pending, `batch
      ensures Sound() && Running(db, batch0, batch, s, key, PushAll(direction, v, xs))
    {
      ghost var w := v;
      for i := 0 to |xs|
        invariant w.VDeque? && w == PushAll(direction, v, xs[..i])
        invariant EdgeOf(direction, w) == if direction == Left then index - i else index + i
        invariant Sound() && Running(db, batch0, batch, s, key, w)
      {
        assert xs[..i + 1][..i] == xs[..i];
        DequeAdd(db, batch0, batch, s, key, direction, w, xs[i]);
        var slot := if direction == Left then index - i else index + i;
        Write(At(key, Item(slot)), Put(Raw(xs[i])));
        w := PushOne(direction, w, xs[i]);
      }
      assert xs[..|xs|] == xs;
    }

    method DequePush(direction: Direction, key: Key, xs: seq<Bytes>) returns (r: Reply)
      requires Valid()
      requires Admissible(state, Command.DequePush(direction, key, xs))
      modifies `pending, `batch, `state
      ensures Valid()
      ensures state == DequePushSpec(old(state), direction, key, xs).state
      ensures r == DequePushSpec(old(state), direction, key, xs).reply
    {
      var op := Open(key, TDeque);
      if op.None? { return WrongType; }
      r := PushOnto(direction, key, xs, op.value.info);
    }

    /** dequePush with the operation open. */
    method PushOnto(direction: Direction, key: Key, xs: seq<Bytes>, info: KeyDescriptor) returns (r: Reply)
      requires Valid() && !Wrong(state, key, TDeque) && info == DescriptorAt(state, key, TDeque)
      requires Admissible(state, Command.DequePush(direction, key, xs))
      modifies `pending, `batch, `state
      ensures Valid()
      ensures var s := old(state);
        state == With(s, key, PushAll(direction, VDeque(ItemsOf(s, key), StartFor(s, key, direction)), xs))
      ensures r == Count(|ItemsOf(old(state), key)| + |xs|)
    {
      ghost var s, batch0 := state, batch;
      ghost var v := VDeque(ItemsOf(s, key), StartFor(s, key, direction));
      assert key in s.keys ==> WellFormedValue(s.keys[key], s.clock);
      BeginOperation(db, batch, s, key, v);
      var index := if direction == Left then info.start else info.end;
      PushItems(direction, key, xs, index, batch0, s, v);
      var length := info.size + |xs|;
      PushedFits(s, direction, key, xs, info, index);
      Close(key, PushedDescriptor(direction, info, index, |xs|), length, true, batch0, PushAll(direction, v, xs));
      r := Count(length);
    }

    method DequePop(direction: Direction, key: Key) returns (r: Reply)
      requires Valid()
      modifies `pending, `batch, `state
      ensures Valid()
      ensures state == DequePopSpec(old(state), direction, key).state
      ensures r == DequePopSpec(old(state), direction, key).reply
    {
      var op := Open(key, TDeque);
      if op.None? { return WrongType; }
      ghost var s, batch0 := state, batch;
      ghost var items, start := ItemsOf(s, key), StartFor(s, key, direction);
      assert key in s.keys ==> WellFormedValue(s.keys[key], s.clock);
      BeginOperation(db, batch, s, key, VDeque(items, start));
      if op.value.info.size == 0 {
        FinishOperation(db, batch0, batch, cache, s, key, VDeque(items, start), op.value.info, 0);
        Finalize(key, op.value.info, 0, false);
        return NotFound;
      }
      r := PopItem(direction, key, op.value.info);
    }

    method PopItem(direction: Direction, key: Key, found: KeyDescriptor) returns (r: Reply)
      requires Valid() && !Wrong(state, key, TDeque) && ItemsOf(state, key) != []
      requires found == DescriptorAt(state, key, TDeque)
      modifies `pending, `batch, `state
      ensures Valid()
      ensures state == DequePopSpec(old(state), direction, key).state
      ensures r == DequePopSpec(old(state), direction, key).reply
    {
      ghost var s, batch0 := state, batch;
      ghost var items, start := ItemsOf(s, key), StartFor(s, key, direction);
      assert WellFormedValue(s.keys[key], s.clock);
      BeginOperation(db, batch, s, key, VDeque(items, start));
      var victim := if direction == Left then found.start + 1 else found.end - 1;
      var x;
      ghost var v;
      x, v := TakeItem(direction, key, victim, batch0, s, items, start);
      var info := if direction == Left then found.(start := victim) else found.(end := victim);
      Close(key, info, info.size - 1, true, batch0, v);
      r := Bulk(x);
    }

    /** Read the item at one end and delete it. */
    method TakeItem(direction: Direction, key: Key, victim: int, ghost batch0: Batch, ghost s: State,
                    ghost items: seq<Bytes>, ghost start: int)
      returns (x: Bytes, ghost v: Value)
      requires Sound() && Running(db, batch0, batch, s, key, VDeque(items, start))
      requires items != [] && 0 <= victim < U64_LIMIT
      requires victim == if direction == Left then start + 1 else start + |items|
      modifies `pending, `batch
      ensures Sound() && Running(db, batch0, batch, s, key, v)
      ensures v == if direction == Left then VDeque(items[1..], start + 1) else VDeque(items[..|items| - 1], start)
      ensures x == if direction == Left then items[0] else items[|items| - 1]
    {
      DequeDropFront(db, batch0, batch, s, key, items, start);
      DequeDropBack(db, batch0, batch, s, key, items, start);
      v := if direction == Left then VDeque(items[1..], start + 1) else VDeque(items[..|items| - 1], start);
      var item := Get(At(key, Item(victim)));
      assert item.Some?;
      Write(At(key, Item(victim)), Tombstone);
      x := item.value.bytes;
    }

    method TrimItems(key: Key, start: int, n: int, ghost batch0: Batch, ghost s: State, ghost v: Value)
      requires v.VDeque? && v.start == start && 0 <= n <= |v.items|
      requires 0 <= start && start + |v.items| < U64_LIMIT
      requires Sound() && Running(db, batch0, batch, s, key, v)
      modifies `pending, `batch
      ensures Sound() && Running(db, batch0, batch, s, key, TrimAll(v, n))
    {
      ghost var w := v;
      for i := 0 to n
        invariant w == TrimAll(v, i)
        invariant Sound() && Running(db, batch0, batch, s, key, w)
      {
        DropFirst(key, start + i + 1, batch0, s, w);
        w := DropOne(w);
      }
    }

    method DropFirst(key: Key, index: int, ghost batch0: Batch, ghost s: State, ghost v: Value)
      requires v.VDeque? && v.items != [] && index == v.start + 1 && 0 <= index < U64_LIMIT
      requires Sound() && Running(db, batch0, batch, s, key, v)
      modifies `pending, `batch
      ensures Sound() && Running(db, batch0, batch, s, key, DropOne(v))
    {
      ghost var items, start, w := v.items, v.start, DropOne(v);
      assert v == VDeque(items, start) && w == VDeque(items[1..], start + 1);
      DequeDropFront(db, batch0, batch, s, key, items, start);
      var item := Get(At(key, Item(index)));
      assert item.Some?;
      Write(At(key, Item(index)), Tombstone);
      assert Running(db, batch0, batch, s, key, w);
    }

    method DequeTrimFront(key: Key, maxToKeep: int) returns (r: Reply)
      requires Valid() && 0 <= maxToKeep
      modifies `pending, `batch, `state
      ensures Valid()
      ensures state == DequeTrimFrontSpec(old(state), key, maxToKeep).state
      ensures r == DequeTrimFrontSpec(old(state), key, maxToKeep).reply
    {
      var op := Open(key, TDeque);
      if op.None? { return WrongType; }
      var info := op.value.info;
      var toRemove := info.size - maxToKeep;
      if toRemove <= 0 { return Count(0); }
      ghost var s, batch0 := state, batch;
      ghost var v := VDeque(ItemsOf(s, key), StartFor(s, key, Left));
      assert WellFormedValue(s.keys[key], s.clock);
      BeginOperation(db, batch, s, key, v);
      TrimItems(key, info.start, toRemove, batch0, s, v);
      TrimAllIsSuffix(v, toRemove);
      info := info.(start := info.start + toRemove);
      assert info.end - info.start - 1 == maxToKeep;
      Close(key, info, maxToKeep, true, batch0, TrimAll(v, toRemove));
      r := Count(toRemove);
    }

    /**
     * dequeScanBack (src/StateMachine.cc:820-869): one page, read from the back, and where the next one
     * ends. The asserts on the iterator hold if the deque is alone; without them the page is right.
     */
    method DequeScanBack(key: Key, cursor: Bytes, count: int)
      returns (r: Reply, page: seq<Bytes>, next: Bytes, threw: bool)
      requires Valid() && 1 <= count < U64_LIMIT
      ensures r == if Wrong(state, key, TDeque) then WrongType
                   else if ItemsOf(state, key) != [] && |cursor| != 0 && |cursor| != WIDTH then Malformed
                   else Ok
      ensures Alone(state, key) ==> !threw
      ensures r == Ok && !threw ==> page == ScanPage(state, key, Marker(cursor), count).0
      ensures r == Ok && !threw ==> next == CursorBytes(ScanPage(state, key, Marker(cursor), count).1)
    {
      page, next, threw := [], [], false;
      var op := Open(key, TDeque);
      if op.None? { return WrongType, [], [], false; }
      r := Ok;
      if op.value.info.size == 0 { return; }
      if |cursor| != 0 && |cursor| != WIDTH { return Malformed, [], [], false; }
      next, page, threw := ScanFrom(key, op.value.info, Marker(cursor), count);
    }

    method ScanFrom(key: Key, info: KeyDescriptor, cursor: Option<int>, count: int)
      returns (next: Bytes, page: seq<Bytes>, threw: bool)
      requires Valid() && key in state.keys && state.keys[key].VDeque?
      requires info == DescriptorOf(state.keys[key]) && 1 <= count < U64_LIMIT
      ensures Alone(state, key) ==> !threw
      ensures !threw ==> page == ScanPage(state, key, cursor, count).0
      ensures !threw ==> next == CursorBytes(ScanPage(state, key, cursor, count).1)
    {
      var marker := if cursor.None? || cursor.value > info.end then info.end else cursor.value;
      var first := ScanStart(marker, count);
      page, threw := PageFrom(key, info.start, first, marker);
      var left := if first <= info.start + 1 then None else Some(first);
      next := CursorBytes(left);
      assert WellFormedValue(state.keys[key], state.clock);
      ScanPageAt(state, key, cursor, count, info.start, info.end, marker, first);
    }

    method PageFrom(key: Key, start: int, first: int, marker: int) returns (page: seq<Bytes>, threw: bool)
      requires Valid() && key in state.keys && state.keys[key].VDeque?
      requires start == state.keys[key].start && marker <= start + |state.keys[key].items| + 1
      ensures Alone(state, key) ==> !threw
      ensures !threw ==>
        page == ItemsBetween(state.keys[key].items, start, if first <= start + 1 then start + 1 else first, marker)
    {
      page, threw := [], false;
      var from := if first <= start + 1 then start + 1 else first;
      if from < marker {
        page, threw := ReadItems(key, from, marker);
      }
    }

    /** Seek to the first item and step from record to record, each of which must be the next item. */
    method ReadItems(key: Key, first: int, marker: int) returns (page: seq<Bytes>, threw: bool)
      requires Valid() && key in state.keys && state.keys[key].VDeque?
      requires state.keys[key].start < first < marker <= state.keys[key].start + |state.keys[key].items| + 1
      ensures Alone(state, key) ==> !threw
      ensures !threw ==> page == ItemsBetween(state.keys[key].items, state.keys[key].start, first, marker)
    {
      page, threw := [], false;
      ghost var v := state.keys[key];
      var iter := SeekItem(key, first);
      for i := first to marker
        invariant page == ItemsBetween(v.items, v.start, first, i)
        invariant i < marker && Alone(state, key) ==> iter == Some(LocatorBytes(At(key, Item(i))))
      {
        var x;
        x, threw := ItemUnder(key, i, iter);
        if threw { return; }
        ItemsMore(v.items, v.start, first, i);
        page := page + [x];
        iter := NextItem(key, i);
      }
    }

    method SeekItem(key: Key, i: int) returns (iter: Option<Bytes>)
      requires Valid() && key in state.keys && state.keys[key].VDeque?
      requires state.keys[key].start < i <= state.keys[key].start + |state.keys[key].items|
      ensures iter == Some(LocatorBytes(At(key, Item(i))))
    {
      ItemByName(rows, pending, db, batch, state, key, i);
      iter := Stand(NotBefore(rows, pending, LocatorBytes(At(key, Item(i)))));
      SeekFinds(rows, pending, LocatorBytes(At(key, Item(i))), iter);
    }

    method NextItem(key: Key, i: int) returns (iter: Option<Bytes>)
      requires Valid() && key in state.keys && state.keys[key].VDeque?
      requires state.keys[key].start < i <= state.keys[key].start + |state.keys[key].items|
      ensures i < state.keys[key].start + |state.keys[key].items| && Alone(state, key) ==>
        iter == Some(LocatorBytes(At(key, Item(i + 1))))
    {
      iter := Stand(Behind(rows, pending, LocatorBytes(At(key, Item(i)))));
      if i < state.keys[key].start + |state.keys[key].items| && Alone(state, key) {
        ItemByName(rows, pending, db, batch, state, key, i);
        ItemByName(rows, pending, db, batch, state, key, i + 1);
        NextFindsItem(rows, pending, db, batch, state, key, i, iter);
      }
    }

    /** The item is read from the record that the iterator stands on. */
    method ItemUnder(key: Key, i: int, iter: Option<Bytes>) returns (x: Bytes, threw: bool)
      requires Valid() && key in state.keys && state.keys[key].VDeque?
      requires state.keys[key].start < i <= state.keys[key].start + |state.keys[key].items|
      ensures threw <==> iter != Some(LocatorBytes(At(key, Item(i))))
      ensures !threw ==> x == state.keys[key].items[i - state.keys[key].start - 1]
    {
      ItemByName(rows, pending, db, batch, state, key, i);
      if iter.None? || iter.value != LocatorBytes(At(key, Item(i))) {
        return [], true;
      }
      return ReadName(rows, pending, iter.value).value.bytes, false;
    }

    /** Seek or Next: the first of the names that lie ahead. */
    method Stand(ahead: set<Bytes>) returns (iter: Option<Bytes>)
      ensures StandsAt(iter, ahead)
    {
      if ahead == {} { return None; }
      var n := Earliest(ahead);
      iter := Some(n);
    }

    // -------------------------------------------------------------- versioned hashes

    /** Only a pending descriptor in the batch itself counts (src/StateMachine.cc:1057-1062). */
    method DescriptorModifiedAlready(key: Key) returns (b: bool)
      requires Valid() && !Wrong(state, key, TVersionedHash)
      ensures b <==> key in state.touched
    {
      var l := At(key, Descriptor);
      assert Lookup(db, batch, l) == Encode(state, l) && SameMark(pending, batch, key);
      b := LocatorBytes(l) in pending && pending[LocatorBytes(l)].Put?;
    }

    method PutEntry(
      key: Key, field: Field, value: Bytes, size: int, ghost ok: bool,
      ghost batch0: Batch, ghost s: State, ghost m: map<Field, Bytes>, ghost n: int)
      returns (newsize: int)
      requires ok ==> Sound() && Running(db, batch0, batch, s, key, VVersionedHash(m, n)) && size == |m|
      requires ok ==> Clear(s, EntryOf(key, TVersionedHash, field))
      modifies `pending, `batch
      ensures size <= newsize
      ensures ok ==> Sound() && Running(db, batch0, batch, s, key, VVersionedHash(m[field := value], n))
      ensures ok ==> newsize == |m[field := value]|
    {
      var l := EntryOf(key, TVersionedHash, field);
      if ok {
        FreeEntry(db, batch0, batch, s, key, VVersionedHash(m, n), TVersionedHash, field);
        ReadRecord(db, batch0, batch, s, key, VVersionedHash(m, n), Entry(TVersionedHash, field));
        VersionedPut(db, batch0, batch, s, key, m, n, field, value);
      }
      newsize := size + if Get(l).Some? then 0 else 1;
      Write(l, Put(Raw(value)));
    }

    method Vhset(key: Key, field: Field, value: Bytes) returns (r: Reply)
      requires Valid()
      requires Admissible(state, Command.Vhset(key, field, value))
      modifies `pending, `batch, `state, `revisions
      ensures EntryApart(old(state), key, TVersionedHash, field) ==>
        Valid() && state == VhsetSpec(old(state), key, field, value).state
      ensures r == VhsetSpec(old(state), key, field, value).reply
    {
      var op := Open(key, TVersionedHash);
      if op.None? { return WrongType; }
      var already := DescriptorModifiedAlready(key);
      r := PutVersioned(key, field, value, op.value.info, already);
    }

    method PutVersioned(key: Key, field: Field, value: Bytes, info: KeyDescriptor, already: bool) returns (r: Reply)
      requires Valid() && !Wrong(state, key, TVersionedHash) && info == DescriptorAt(state, key, TVersionedHash)
      requires Admissible(state, Command.Vhset(key, field, value)) && (already <==> key in state.touched)
      modifies `pending, `batch, `state, `revisions
      ensures Clear(old(state), EntryOf(key, TVersionedHash, field)) ==>
        Valid() && state == VhsetSpec(old(state), key, field, value).state
      ensures r == VhsetSpec(old(state), key, field, value).reply
    {
      ghost var s, batch0, ok := state, batch, Clear(state, EntryOf(key, TVersionedHash, field));
      ghost var m, n := EntriesOf(s, key), VersionOf(s, key);
      assert key in s.keys ==> WellFormedValue(s.keys[key], s.clock);
      BeginOperation(db, batch, s, key, VVersionedHash(m, n));
      var newsize := PutEntry(key, field, value, info.size, ok, batch0, s, m, n);
      var version := info.start + if already then 0 else 1;
      assert version == VhsetVersion(s, key);
      CloseVersioned(key, info, newsize, version, [Update(field, value)], ok, batch0, m[field := value], n);
      r := Version(version);
    }

    /** The common end of vhset and vhdel: record the revision and write the descriptor in any case. */
    method CloseVersioned(
      key: Key, found: KeyDescriptor, newsize: int, version: int, updates: seq<Update>, ghost ok: bool,
      ghost batch0: Batch, ghost m: map<Field, Bytes>, ghost n: int)
      requires newsize >= 0 && revisions == state.revisions
      requires 0 <= version && Numbered(RevisionOf(state, key), version)
      requires ok ==> Ready(batch0) && Running(db, batch0, batch, state, key, VVersionedHash(m, n))
      requires ok ==> !Wrong(state, key, TVersionedHash) && found == DescriptorAt(state, key, TVersionedHash)
      requires ok ==> newsize == |m|
      modifies `pending, `batch, `state, `revisions
      ensures ok ==> Valid() && state == Revised(old(state), key, m, version, updates)
    {
      ghost var s := state;
      AddRevision(key, version, updates);
      var info := found.(start := version);
      ghost var s1 := Revised(s, key, m, version, updates);
      if ok {
        ChangeVersion(db, batch0, batch, s, key, m, n, version);
        FinishVersioned(db, batch0, batch, cache, s, s1, key, VVersionedHash(m, version), info, newsize);
      }
      Finalize(key, info, newsize, true);
      if ok { state := s1; }
    }

    /** forKey, setRevisionNumber and addUpdate (src/storage/VersionedHashRevisionTracker.cc:33-53). */
    method AddRevision(key: Key, version: int, updates: seq<Update>)
      requires key in revisions ==> Numbered(revisions[key], version)
      modifies `revisions
      ensures revisions == old(revisions)[key := Revision(version,
                (if key in old(revisions) then old(revisions)[key] else Revision(0, [])).updates + updates)]
    {
      var revision := if key in revisions then revisions[key] else Revision(0, []);
      if revision.number != 0 {
        assert revision.number == version;
      } else {
        revision := revision.(number := version);
      }
      revisions := revisions[key := revision.(updates := revision.updates + updates)];
    }

    /** A deletion that removes nothing still stages the descriptor. */
    method Vhdel(key: Key, fields: seq<Field>) returns (r: Reply, threw: bool)
      requires Valid()
      requires Admissible(state, Command.Vhdel(key, fields))
      modifies `pending, `batch, `state, `revisions
      ensures EntriesApart(old(state), key, TVersionedHash, fields) ==> !threw && Valid()
      ensures EntriesApart(old(state), key, TVersionedHash, fields) ==>
        state == VhdelSpec(old(state), key, fields).state
      ensures EntriesApart(old(state), key, TVersionedHash, fields) ==> r == VhdelSpec(old(state), key, fields).reply
    {
      threw := false;
      var op := Open(key, TVersionedHash);
      if op.None? { return WrongType, false; }
      var already := DescriptorModifiedAlready(key);
      r, threw := ShrinkVersioned(key, fields, op.value.info, already);
    }

    method ShrinkVersioned(key: Key, fields: seq<Field>, info: KeyDescriptor, already: bool)
      returns (r: Reply, threw: bool)
      requires Valid() && !Wrong(state, key, TVersionedHash) && info == DescriptorAt(state, key, TVersionedHash)
      requires Admissible(state, Command.Vhdel(key, fields)) && (already <==> key in state.touched)
      modifies `pending, `batch, `state, `revisions
      ensures FieldsClear(old(state), key, TVersionedHash, fields) ==>
        && !threw && Valid() && state == VhdelSpec(old(state), key, fields).state
        && r == VhdelSpec(old(state), key, fields).reply
    {
      ghost var s, batch0, ok := state, batch, FieldsClear(state, key, TVersionedHash, fields);
      ghost var m, n := EntriesOf(s, key), VersionOf(s, key);
      assert key in s.keys ==> WellFormedValue(s.keys[key], s.clock);
      BeginOperation(db, batch, s, key, VVersionedHash(m, n));
      DropFieldsOfVersioned(m, n, fields);
      LiveAmongIsHits(rows, pending, db, batch, s, key, TVersionedHash, fields);
      if ok { HitsWhenClear(s, key, VVersionedHash(m, n), fields); }
      threw := false;
      var removed := DeleteFields(key, TVersionedHash, fields, ok, batch0, s, VVersionedHash(m, n));
      var version := info.start + if removed != 0 && !already then 1 else 0;
      assert ok ==> version == VhdelVersion(s, key, fields);
      if info.size < removed || (key in revisions && !Numbered(revisions[key], version)) {
        return Ok, true;  // finalize throws, or the assert of setRevisionNumber fails
      }
      CloseVersioned(key, info, info.size - removed, version, Deletions(fields), ok, batch0, RemoveAll(m, fields), n);
      r := Version(version);
    }

    // -------------------------------------------------------------- leases and the clock

    /** getFrontDeadline and getFrontLease: an event with the earliest deadline. */
    method Front() returns (e: (int, Key))
      requires cache != {}
      ensures e in cache && forall x :: x in cache ==> e.0 <= x.0
    {
      EarliestExists(cache);
      e :| e in cache && forall x :: x in cache ==> e.0 <= x.0;
    }

    method AdvanceClock(now: int)
      requires Valid() && state.clock <= now
      modifies `pending, `batch, `state, `cache
      ensures Valid()
      ensures state == Advance(old(state), now)
      decreases 2
    {
      ghost var s0 := state;
      ReleaseDue(now);
      DrainedIsAdvanced(cache, s0, state, now);
      Tick(db, batch, cache, state, now);
      Write(Clock, Put(Number(now)));
      state := state.(clock := now);
    }

    /** The loop of advanceClock: release one lease after the other, as long as the earliest deadline is reached. */
    method ReleaseDue(now: int)
      requires Valid()
      modifies `pending, `batch, `state, `cache
      ensures Valid() && Draining(old(state), state, now)
      ensures forall x :: x in cache ==> now < x.0
      decreases 1
    {
      ghost var s0 := state;
      var front: (int, Key) := (0, []);
      if cache != {} { front := Front(); }
      while cache != {} && front.0 <= now
        invariant Valid() && Draining(s0, state, now)
        invariant cache != {} ==> front in cache && forall x :: x in cache ==> front.0 <= x.0
        decreases |state.keys|
      {
        ghost var s := state;
        assert front in cache;
        DrainMore(s0, s, now, front.1);
        var r := LeaseRelease(front.1, 0);
        assert r == Ok;
        if cache != {} { front := Front(); }
      }
    }

    method MaybeAdvanceClock(now: int) returns (clock: int)
      requires Valid()
      modifies `pending, `batch, `state, `cache
      ensures Valid()
      ensures state == Advance(old(state), now)
      ensures clock == state.clock
      decreases 3
    {
      assert Get(Clock) == Encode(state, Clock);
      var current := Get(Clock).value.n;
      if current < now {
        AdvanceClock(now);
        clock := now;
      } else {
        clock := current;
      }
    }

    method LeaseRelease(key: Key, now: int) returns (r: Reply)
      requires Valid() && 0 <= now
      modifies `pending, `batch, `state, `cache
      ensures Valid()
      ensures state == LeaseReleaseSpec(old(state), key, now).state
      ensures r == LeaseReleaseSpec(old(state), key, now).reply
      decreases if now == 0 then 0 else 4
    {
      if now != 0 {
        var _ := MaybeAdvanceClock(now);
      }
      var op := Open(key, TLease);
      if op.None? { return WrongType; }
      if !op.value.keyExists {
        ghost var batch0 := batch;
        Finalize(key, op.value.info, 0, false);
        ReplaceAbsent(db, batch0, batch, cache, state, key);
        return NotFound;
      }
      ReleaseRecords(key, op.value.info);
      r := Ok;
    }

    /** Wipe out event, holder and descriptor of a lease. */
    method ReleaseRecords(key: Key, info: KeyDescriptor)
      requires Valid() && key in state.keys && state.keys[key].VLease? && info == DescriptorOf(state.keys[key])
      modifies `pending, `batch, `state, `cache
      ensures Valid() && state == old(state).(keys := Without(old(state).keys, key))
    {
      ghost var s, batch0, cache0 := state, batch, cache;
      assert Lookup(db, batch0, At(key, LeaseHolder)) == Encode(s, At(key, LeaseHolder));
      DropEvent(key, info.end);
      assert Get(At(key, LeaseHolder)).Some?;
      Write(At(key, LeaseHolder), Tombstone);
      Finalize(key, info, 0, false);
      ReplaceReleased(db, batch0, batch, cache0, s, key);
      state := s.(keys := Without(s.keys, key));
    }

    /** Take the expiration event of a lease out of the cache and the database; it is in both. */
    method DropEvent(key: Key, deadline: int)
      requires Sound() && Consistent(db, batch, cache, state)
      requires key in state.keys && state.keys[key].VLease? && state.keys[key].until == deadline
      modifies `pending, `batch, `cache
      ensures Sound() && cache == old(cache) - {(deadline, key)}
      ensures batch == old(batch)[At(key, ExpirationEvent(deadline)) := Tombstone]
    {
      assert WellFormedValue(state.keys[key], state.clock);
      assert Get(At(key, ExpirationEvent(deadline))) == Encode(state, At(key, ExpirationEvent(deadline)));
      assert Get(At(key, ExpirationEvent(deadline))).Some?;  // THROW_ON_ERROR of exists()
      assert (deadline, key) in cache;  // remove() throws when the lease is not cached
      cache := cache - {(deadline, key)};
      Write(At(key, ExpirationEvent(deadline)), Tombstone);
    }

    /** Put a new expiration event into the cache and the database; it is in neither. */
    method AddEvent(key: Key, deadline: int)
      requires Sound() && 0 <= deadline < U64_LIMIT
      requires forall d :: (d, key) !in cache
      requires Lookup(db, batch, At(key, ExpirationEvent(deadline))).None?
      modifies `pending, `batch, `cache
      ensures Sound() && cache == old(cache) + {(deadline, key)}
      ensures batch == old(batch)[At(key, ExpirationEvent(deadline)) := Put(Raw(ONE))]
    {
      assert Get(At(key, ExpirationEvent(deadline))).None?;  // no event is overwritten
      cache := cache + {(deadline, key)};  // insert() asserts that the lease is not cached
      Write(At(key, ExpirationEvent(deadline)), Put(Raw(ONE)));
    }

    method LeaseAcquire(key: Key, holder: Bytes, now: int, duration: int) returns (r: Reply)
      requires Valid()
      requires Admissible(state, Command.LeaseAcquire(key, holder, now, duration))
      modifies `pending, `batch, `state, `cache
      ensures Valid()
      ensures state == LeaseAcquireSpec(old(state), key, holder, now, duration).state
      ensures r == LeaseAcquireSpec(old(state), key, holder, now, duration).reply
    {
      var clock := MaybeAdvanceClock(now);
      r := AcquireNow(key, holder, clock, duration);
    }

    method Holder(key: Key) returns (holder: Option<Bytes>)
      requires Valid()
      ensures holder ==
        if key in state.keys && state.keys[key].VLease? then Some(state.keys[key].holder) else None
    {
      assert Get(At(key, LeaseHolder)) == Encode(state, At(key, LeaseHolder));
      var x := Get(At(key, LeaseHolder));
      holder := if x.Some? then Some(x.value.bytes) else None;
    }

    /** lease_acquire once the clock has been brought up to date. */
    method AcquireNow(key: Key, holder: Bytes, clock: int, duration: int) returns (r: Reply)
      requires Valid() && clock == state.clock && holder != [] && 1 <= duration && clock + duration < U64_LIMIT
      modifies `pending, `batch, `state, `cache
      ensures Valid()
      ensures state == AcquireSpec(old(state), key, holder, duration).state
      ensures r == AcquireSpec(old(state), key, holder, duration).reply
    {
      var op := Open(key, TLease);
      if op.None? { return WrongType; }
      var current := Holder(key);
      if current.Some? && current.value != holder {
        return LeaseHeld(LeaseInfo(current.value, op.value.info.start, op.value.info.end));
      }
      Grant(key, holder, op.value.info, op.value.keyExists, clock, clock + duration);
      var info := LeaseInfo(holder, clock, clock + duration);
      r := if op.value.keyExists then LeaseRenewed(info) else LeaseAcquired(info);
    }

    /** Wipe the old expiration event of an extended lease, then write event, holder and descriptor. */
    method Grant(key: Key, holder: Bytes, found: KeyDescriptor, extended: bool, clock: int, deadline: int)
      requires Valid() && !Wrong(state, key, TLease) && clock == state.clock
      requires found == DescriptorAt(state, key, TLease) && extended == (key in state.keys)
      requires holder != [] && clock < deadline < U64_LIMIT
      modifies `pending, `batch, `state, `cache
      ensures Valid() && state == With(old(state), key, VLease(holder, clock, deadline))
    {
      ghost var s, v, batch0, cache0 := state, VLease(holder, clock, deadline), batch, cache;
      GrantRecords(key, holder, found, extended, clock, deadline);
      ReplaceGranted(db, batch0, batch, cache0, cache, s, key, v);
      state := With(s, key, v);
    }

    method GrantRecords(key: Key, holder: Bytes, found: KeyDescriptor, extended: bool, clock: int, deadline: int)
      requires Consistent(db, batch, cache, state) && !Wrong(state, key, TLease)
      requires found == DescriptorAt(state, key, TLease) && extended == (key in state.keys)
      requires Sound() && WellFormed(state) && holder != [] && 0 <= clock <= deadline < U64_LIMIT
      modifies `pending, `batch, `cache
      ensures Sound()
      ensures batch == GrantedBatch(old(batch), state, key, VLease(holder, clock, deadline))
      ensures cache == GrantedCache(old(cache), state, key, deadline)
    {
      assert Lookup(db, batch, At(key, ExpirationEvent(deadline)))
        == Encode(state, At(key, ExpirationEvent(deadline)));
      if extended {
        DropEvent(key, found.end);
      }
      assert forall d :: (d, key) in old(cache) <==> extended && d == found.end;
      AddEvent(key, deadline);
      Write(At(key, LeaseHolder), Put(Raw(holder)));
      var info := found.(start := clock, end := deadline);
      assert info.start <= info.end;  // asserted by serialize()
      Finalize(key, info, |holder|, true);
    }

    /** The dispatcher asserts that the status is good unless the key is absent (src/Dispatcher.cc:418-423). */
    method LeaseGet(key: Key, now: int) returns (r: Reply, threw: bool)
      requires Valid() && 0 <= now
      modifies `pending, `batch, `state, `cache
      ensures Valid()
      ensures state == LeaseGetSpec(old(state), key, now).state
      ensures r == LeaseGetSpec(old(state), key, now).reply
      ensures threw <==> Wrong(state, key, TLease)
    {
      threw := false;
      var _ := MaybeAdvanceClock(now);
      assert Get(At(key, Descriptor)) == Encode(state, At(key, Descriptor));
      var d := Get(At(key, Descriptor));
      if d.None? { return NotFound, false; }
      if d.value.descriptor.keyType != TLease { return WrongType, true; }
      assert Get(At(key, LeaseHolder)) == Encode(state, At(key, LeaseHolder));
      r := LeaseShown(LeaseInfo(Get(At(key, LeaseHolder)).value.bytes, d.value.descriptor.start,
        d.value.descriptor.end));
    }

    // -------------------------------------------------------------- deletion

    /** remove_all_with_prefix (src/StateMachine.cc:1725-1740): by the bytes of the names, whoever they belong to. */
    method RemoveAllWithPrefix(prefix: Bytes) returns (removed: int)
      requires Sound()
      modifies `pending, `batch
      ensures Sound()
      ensures removed == |SweptNames(rows, old(pending), prefix)| == |Swept(db, old(batch), prefix)|
      ensures batch == Buried(old(batch), Swept(db, old(batch), prefix))
    {
      SweptByName(rows, pending, db, batch, prefix);
      BuryByName(rows, pending, db, batch, SweptNames(rows, pending, prefix), Swept(db, batch, prefix));
      var names := SweptNames(rows, pending, prefix);
      removed := BuryNames(names);
      batch := Buried(batch, Swept(db, batch, prefix));
    }

    method BuryNames(victims: set<Bytes>) returns (removed: int)
      modifies `pending
      ensures removed == |victims| && pending == BuriedNames(old(pending), victims)
    {
      ghost var pending0 := pending;
      var todo := victims;
      removed := 0;
      while todo != {}
        invariant todo <= victims && removed == |victims| - |todo|
        invariant pending == BuriedNames(pending0, victims - todo)
        decreases |todo|
      {
        var n :| n in todo;
        BuryOneName(pending0, victims - todo, n);
        assert victims - (todo - {n}) == victims - todo + {n};
        pending := pending[n := Tombstone];
        todo := todo - {n};
        removed := removed + 1;
      }
      assert victims - todo == victims;
    }

    /** One key of DEL. It throws if the sweep of its records meets others, and then only; see Alone. */
    method DelKey(key: Key) returns (found: bool, threw: bool)
      requires Valid()
      modifies `pending, `batch, `state, `cache
      ensures threw <==> !Alone(old(state), key)
      ensures !threw ==> Valid() && state == DelOne(old(state), key)
      ensures found <==> key in old(state).keys
    {
      assert Get(At(key, Descriptor)) == Encode(state, At(key, Descriptor));
      var d := Get(At(key, Descriptor));
      if d.None? {
        assert key !in state.touched;
        assert Without(state.keys, key) == state.keys && state.touched - {key} == state.touched;
        return false, false;
      }
      found := true;
      var info := d.value.descriptor;
      if info.keyType == TLease {
        DelLease(key);
        threw := false;
        return;
      }
      ghost var s, batch0 := state, batch;
      ghost var victims;
      threw, victims := DelRecords(key, info);
      if !threw {
        Write(At(key, Descriptor), Tombstone);
        ReplaceDeleted(db, batch0, batch, cache, s, key);
        state := DelOne(s, key);
      }
    }

    method DelLease(key: Key)
      requires Valid() && key in state.keys && state.keys[key].VLease?
      modifies `pending, `batch, `state, `cache
      ensures Valid() && state == DelOne(old(state), key)
    {
      assert key !in state.touched && state.touched - {key} == state.touched;
      var r := LeaseRelease(key, 0);
      assert r == Ok;
      ReplaceAbsent(db, batch, batch[At(key, Descriptor) := Tombstone], cache, state, key);
      Write(At(key, Descriptor), Tombstone);
    }

    /** Wipe out the fields, then the indexes; both counts are right. */
    method DelLocality(key: Key, info: KeyDescriptor)
      requires Sound() && Represents(db, batch, state) && WellFormed(state)
      requires key in state.keys && state.keys[key].VLocalityHash?
      requires info == DescriptorOf(state.keys[key])
      modifies `pending, `batch
      ensures Sound()
      ensures batch == Buried(old(batch), Found(db, old(batch), Data(key)) + Found(db, old(batch), Indexes(key)))
    {
      ghost var batch0 := batch;
      FoundData(db, batch, state, key);
      FoundIndexes(db, batch, state, key);
      OtherSweeps(db, batch, state, Data(key));
      OtherSweeps(db, batch, state, Indexes(key));
      var count := RemoveAllWithPrefix(PrefixBytes(Data(key)));
      assert count == info.size;
      SweptAfterBurial(db, batch0, state, Data(key), Indexes(key));
      count := RemoveAllWithPrefix(PrefixBytes(Indexes(key)));
      assert count == info.size;
      BuryTwice(batch0, Found(db, batch0, Data(key)), Found(db, batch0, Indexes(key)));
    }

    /** remove_all_with_prefix and the check of its count against the descriptor. */
    method DelCounted(key: Key, info: KeyDescriptor) returns (threw: bool)
      requires Sound() && Represents(db, batch, state) && WellFormed(state)
      requires key in state.keys && Sweepable(state.keys[key])
      requires info == DescriptorOf(state.keys[key])
      modifies `pending, `batch
      ensures Sound() && (threw <==> !Alone(state, key))
      ensures !threw ==> batch == Buried(old(batch), Found(db, old(batch), SweepOf(state.keys[key], key)))
    {
      SweepIsRight(db, batch, state, key);
      var p := if info.keyType == TDeque then Items(key) else Entries(info.keyType, key);
      assert p == SweepOf(state.keys[key], key);
      var count := RemoveAllWithPrefix(PrefixBytes(p));
      threw := count != info.size;
    }

    method DelText(key: Key) returns (ghost victims: set<Locator>)
      requires Sound() && Represents(db, batch, state) && key in state.keys && state.keys[key].VString?
      modifies `pending, `batch
      ensures Sound()
      ensures victims == {At(key, Text)} && batch == Buried(old(batch), victims)
    {
      assert Get(At(key, Text)) == Encode(state, At(key, Text));
      assert Get(At(key, Text)).Some?;
      BurySingle(batch, At(key, Text));
      victims := {At(key, Text)};
      Write(At(key, Text), Tombstone);
    }

    method DelRecords(key: Key, info: KeyDescriptor) returns (threw: bool, ghost victims: set<Locator>)
      requires Sound() && Represents(db, batch, state) && WellFormed(state)
      requires key in state.keys && !state.keys[key].VLease? && info == DescriptorOf(state.keys[key])
      modifies `pending, `batch
      ensures Sound()
      ensures threw <==> !Alone(state, key)
      ensures victims == RecordsOf(db, old(batch), state.keys[key], key)
      ensures !threw ==> batch == Buried(old(batch), victims)
    {
      threw := false;
      victims := RecordsOf(db, batch, state.keys[key], key);
      if info.keyType == TString {
        victims := DelText(key);
      } else if info.keyType == TLocalityHash {
        DelLocality(key, info);
      } else {
        threw := DelCounted(key, info);
      }
    }

    method Del(keys: seq<Key>) returns (r: Reply, threw: bool)
      requires Valid()
      modifies `pending, `batch, `state, `cache
      ensures threw <==> !AllAlone(old(state), keys)
      ensures !threw ==> Valid()
      ensures !threw ==> state == DelSpec(old(state), keys).state
      ensures !threw ==> r == DelSpec(old(state), keys).reply
    {
      ghost var s0 := state;
      var removed := 0;
      r, threw := Ok, false;
      for i := 0 to |keys|
        invariant Valid() && state == DelAll(s0, keys[..i]) && AllAlone(s0, keys[..i])
        invariant removed == |s0.keys| - |state.keys|
      {
        var upTo := keys[..i + 1];
        assert upTo[..i] == keys[..i] && upTo[i] == keys[i];
        var found;
        DelOneSize(state, keys[i]);
        found, threw := DelKey(keys[i]);
        if threw {
          if AllAlone(s0, keys) { AloneSoFar(s0, keys, i + 1); }
          return;
        }
        removed := removed + if found then 1 else 0;
      }
      assert keys[..|keys|] == keys;
      r := Count(removed);
    }

    method FlushAll() returns (r: Reply)
      requires Valid()
      modifies `pending, `batch, `state, `cache
      ensures Valid()
      ensures state == FlushAllSpec(old(state)).state
      ensures r == FlushAllSpec(old(state)).reply
    {
      FlushIsConsistent(db, batch, cache, state);
      assert PrefixBytes(Everything) == [];
      var _ := RemoveAllWithPrefix([]);
      cache := {};
      state := FlushAllSpec(state).state;
      r := Ok;
    }

    // -------------------------------------------------------------- commit and restart

    /** commitTransaction (src/StateMachine.cc:2065-2084); false stands for its throws. */
    method Commit(index: int) returns (ok: bool)
      requires Valid()
      modifies `rows, `pending, `db, `batch, `state, `lastApplied, `revisions
      ensures Valid()
      ensures ok <==> if index <= 0 then old(state).lastApplied <= 0 else index == old(state).lastApplied + 1
      ensures ok ==> pending == map[] && batch == map[] && state == CommitSpec(old(state), index)
      ensures !ok ==> state == old(state) && rows == old(rows) && db == old(db)
    {
      if index <= 0 && lastApplied > 0 { return false; }
      if index > 0 && index != lastApplied + 1 { return false; }
      ghost var s, batch0 := state, batch;
      if index > 0 {
        Write(LastApplied, Put(Number(index)));
        lastApplied := index;
      }
      CommitRepresents(db, batch0, batch, cache, s, index);
      CommitByName(rows, pending, db, batch);
      rows, db := MergedRows(rows, pending), Merged(db, batch);
      pending, batch := map[], map[];
      revisions := map[];
      state := CommitSpec(s, index);
      ok := true;
    }

    /** A new process opens the database: no batch, and a cache loaded from the stored events. */
    method Reopen(ghost s: State)
      requires Linked(rows, map[], db, map[])
      requires Represents(db, map[], s) && WellFormed(s) && s.touched == {} && s.revisions == map[]
      modifies this
      ensures Valid() && state == s && rows == old(rows) && db == old(db)
    {
      pending, batch := map[], map[];
      revisions := map[];
      state := s;
      LoadExpirationCache(s);
      assert Lookup(db, map[], LastApplied) == Encode(s, LastApplied);
      lastApplied := Get(LastApplied).value.n;
    }

    method LoadExpirationCache(ghost s: State)
      requires Linked(rows, map[], db, map[]) && Represents(db, map[], s) && WellFormed(s)
      modifies `cache
      ensures CacheExactly(cache, s)
    {
      cache := {};
      var todo := EventNames(rows);
      ghost var events := todo;
      while todo != {}
        invariant todo <= events && forall d, k :: (d, k) in cache <==> Loaded(events, todo, d, k)
        decreases |todo|
      {
        var n :| n in todo;
        StoredEvent(rows, db, s, n);
        var event := EventOf(n);
        assert forall d :: (d, event.1) !in cache by {  // insert() asserts that the lease is not cached
          forall d ensures !Loaded(events, todo, d, event.1) { OneEvent(rows, db, s, todo, n, d); }
        }
        LoadedMore(events, todo, n);
        cache := cache + {event};
        todo := todo - {n};
      }
      AllLoaded(rows, db, s, cache);
    }

    // -------------------------------------------------------------- dispatch

    /**
     * A command whose records have names of their own does what the step function says, and keeps every
     * invariant, unless it throws: that happens exactly if DEL or HCLONE sweeps the records of a key that is
     * not alone, or a lease is asked for at a key of another type.
     */
    method Dispatch(c: Command) returns (r: Reply, threw: bool)
      requires Valid() && Admissible(state, c)
      modifies `pending, `batch, `state, `cache, `revisions
      ensures NamesApart(old(state), c) ==> (threw <==> Throws(old(state), c))
      ensures NamesApart(old(state), c) && !threw ==> Valid()
      ensures NamesApart(old(state), c) && !threw ==> state == Step(old(state), c).state
      ensures NamesApart(old(state), c) && !threw ==> r == Step(old(state), c).reply
    {
      if Plain(c) {
        r, threw := DispatchPlain(c);
      } else if ForLocality(c) {
        r, threw := DispatchLocality(c);
      } else {
        r, threw := DispatchFields(c);
      }
    }

    /** The commands on hashes, sets and versioned hashes. */
    method DispatchFields(c: Command) returns (r: Reply, threw: bool)
      requires Valid() && Admissible(state, c) && !Plain(c) && !ForLocality(c)
      modifies `pending, `batch, `state, `revisions
      ensures NamesApart(old(state), c) ==> (threw <==> Throws(old(state), c))
      ensures NamesApart(old(state), c) && !threw ==> Valid()
      ensures NamesApart(old(state), c) && !threw ==> state == Step(old(state), c).state
      ensures NamesApart(old(state), c) && !threw ==> r == Step(old(state), c).reply
    {
      r, threw := Ok, false;
      match c
      case Hset(k, f, x) => r := this.Hset(k, f, x);
      case Hmset(k, kvs) => r := this.Hmset(k, kvs);
      case Hsetnx(k, f, x) => r := this.Hsetnx(k, f, x);
      case Hdel(k, fs) => r, threw := this.Hdel(k, fs);
      case Hclone(a, b) =>
        var met;
        r, threw, met := this.Hclone(a, b);
      case Sadd(k, fs) =>
        SaddIsRight(state, k, fs);
        r := this.Sadd(k, fs);
      case Srem(k, fs) => r, threw := this.Srem(k, fs);
      case Smove(a, b, f) =>
        SmoveIsRight(state, a, b, f);
        r, threw := this.Smove(a, b, f);
      case Vhset(k, f, x) => r := this.Vhset(k, f, x);
      case Vhdel(k, fs) => r, threw := this.Vhdel(k, fs);
      case _ => assert false;
    }

    /** The commands on locality hashes, except lhdel. */
    method DispatchLocality(c: Command) returns (r: Reply, threw: bool)
      requires Valid() && Admissible(state, c) && ForLocality(c)
      modifies `pending, `batch, `state
      ensures NamesApart(old(state), c) ==> !threw && Valid()
      ensures NamesApart(old(state), c) ==> state == Step(old(state), c).state
      ensures NamesApart(old(state), c) ==> r == Step(old(state), c).reply
    {
      r, threw := Ok, false;
      match c
      case Lhset(k, f, h, x) => r := this.Lhset(k, f, h, x);
      case Lhmset(k, ps) =>
        if HintsClear(LocatedOf(state, k), ps) { PlaceAllClear(LocatedOf(state, k), ps); }
        r := this.Lhmset(k, ps);
      case Lhlocdel(k, f, h) => r, threw := this.Lhlocdel(k, f, h);
      case LhsetAndDelFallback(k, f, h, x, fb) => r, threw := this.LhsetAndDelFallback(k, f, h, x, fb);
      case LhdelWithFallback(k, f, fb) => r, threw := this.LhdelWithFallback(k, f, fb);
      case ConvertHashField(a, f, b, g, h) => r, threw := this.ConvertHashField(a, f, b, g, h);
      case _ => assert false;
    }

    /** The commands that touch no record whose name another one can have, or only records that are there. */
    method DispatchPlain(c: Command) returns (r: Reply, threw: bool)
      requires Valid() && Admissible(state, c) && Plain(c)
      modifies `pending, `batch, `state, `cache
      ensures threw <==> Throws(old(state), c)
      ensures !threw ==> Valid()
      ensures !threw ==> state == Step(old(state), c).state
      ensures !threw ==> r == Step(old(state), c).reply
    {
      r, threw := Ok, false;
      match c
      case Set(k, x) => r := this.Set(k, x);
      case Lhdel(k, fs) => r := this.Lhdel(k, fs);
      case DequePush(d, k, xs) => r := this.DequePush(d, k, xs);
      case DequePop(d, k) => r := this.DequePop(d, k);
      case DequeTrimFront(k, n) => r := this.DequeTrimFront(k, n);
      case LeaseAcquire(k, holder, now, d) => r := this.LeaseAcquire(k, holder, now, d);
      case LeaseGet(k, now) => r, threw := this.LeaseGet(k, now);
      case LeaseRelease(k, now) => r := this.LeaseRelease(k, now);
      case Del(ks) => r, threw := this.Del(ks);
      case FlushAll => r := this.FlushAll();
      case _ => assert false;
    }
  }
}
