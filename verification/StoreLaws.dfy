/**
 * Laws of single commands: what their loops amount to, migration from a hash to a locality
 * hash as operations on one combined map, paging through a deque, and two calls that the
 * store does not survive.
 */
module StoreLaws {
  import opened Bytes
  import opened StoreModel
  import opened StoreSpec
  import opened StoreOperations

  // ---------------------------------------------------------------- loops over arguments

  /** Of several values for one field, the last wins; other fields keep theirs. */
  lemma {:induction false} PutAllLast(m: map<Field, Bytes>, kvs: seq<Update>, f: Field, i: int)
    requires -1 <= i < |kvs| && (0 <= i ==> kvs[i].field == f)
    requires forall j :: i < j < |kvs| ==> kvs[j].field != f
    ensures f in PutAll(m, kvs) <==> 0 <= i || f in m
    ensures f in PutAll(m, kvs) ==> PutAll(m, kvs)[f] == if 0 <= i then kvs[i].value else m[f]
  {
    if kvs != [] && i < |kvs| - 1 {
      PutAllLast(m, kvs[..|kvs| - 1], f, i);
    }
  }

  lemma {:induction false} PlaceAllLast(m: map<Field, Located>, ps: seq<Placement>, f: Field, i: int)
    requires -1 <= i < |ps| && (0 <= i ==> ps[i].field == f)
    requires forall j :: i < j < |ps| ==> ps[j].field != f
    ensures f in PlaceAll(m, ps) <==> 0 <= i || f in m
    ensures f in PlaceAll(m, ps) ==> PlaceAll(m, ps)[f] == if 0 <= i then Located(ps[i].hint, ps[i].value) else m[f]
  {
    if ps != [] && i < |ps| - 1 {
      PlaceAllLast(m, ps[..|ps| - 1], f, i);
    }
  }

  lemma {:induction false} AddAndDropAll(m: set<Field>, fs: seq<Field>)
    ensures AddAll(m, fs) == m + Members(fs)
    ensures DropAll(m, fs) == m - Members(fs)
  {
    if fs != [] {
      AddAndDropAll(m, fs[..|fs| - 1]);
      assert fs == fs[..|fs| - 1] + [fs[|fs| - 1]];
    }
  }

  // ---------------------------------------------------------------- migration as one map

  /** A locality hash and its fallback hash seen as one map; the locality hash is asked first. */
  function Combined(s: State, l: Key, h: Key, f: Field): Option<Bytes>
  {
    if f in LocatedOf(s, l) then Some(LocatedOf(s, l)[f].value)
    else if f in HashOf(s, h) then Some(HashOf(s, h)[f])
    else None
  }

  ghost predicate Apart(s: State, l: Key, h: Key)
  {
    forall f :: f in LocatedOf(s, l) ==> f !in HashOf(s, h)
  }

  predicate Migrating(s: State, l: Key, h: Key)
  {
    l != h && !Wrong(s, l, TLocalityHash) && !Wrong(s, h, THash)
  }

  lemma MigrationGet(s: State, l: Key, f: Field, h: Key)
    requires Migrating(s, l, h)
    ensures LhgetWithFallbackSpec(s, l, f, h) ==
            match Combined(s, l, h, f) case Some(x) => Bulk(x) case None => NotFound
  {
  }

  /** What the two keys hold after the one at `l` was rewritten. */
  lemma Rewrite(s: State, l: Key, h: Key, m: map<Field, Located>)
    requires Migrating(s, l, h)
    ensures var t := With(s, l, VLocalityHash(m));
            Migrating(t, l, h) && LocatedOf(t, l) == m && HashOf(t, h) == HashOf(s, h)
  {
  }

  lemma RewriteFallback(s: State, l: Key, h: Key, m: map<Field, Bytes>)
    requires Migrating(s, l, h)
    ensures var t := With(s, h, VHash(m));
            Migrating(t, l, h) && HashOf(t, h) == m && LocatedOf(t, l) == LocatedOf(s, l)
  {
  }

  /** The two tables that a set leaves: one field placed in the first, another (or the same) gone from the second. */
  lemma SetTables(s: State, l: Key, f: Field, hint: Hint, x: Bytes, h: Key, g: Field) returns (t: State)
    requires Migrating(s, l, h)
    ensures t == HdelSpec(LhsetSpec(s, l, g, hint, x).state, h, [f]).state
    ensures Migrating(t, l, h)
    ensures LocatedOf(t, l) == LocatedOf(s, l)[g := Located(hint, x)]
    ensures HashOf(t, h) == Without(HashOf(s, h), f)
  {
    var m := LocatedOf(s, l)[g := Located(hint, x)];
    var s1 := With(s, l, VLocalityHash(m));
    Rewrite(s, l, h, m);
    RemoveAllOne(HashOf(s1, h), f);
    RewriteFallback(s1, l, h, Without(HashOf(s1, h), f));
    t := HdelSpec(s1, h, [f]).state;
  }

  lemma MigrationSet(s: State, l: Key, f: Field, hint: Hint, x: Bytes, h: Key)
    requires Migrating(s, l, h)
    ensures var t := LhsetAndDelFallbackSpec(s, l, f, hint, x, h).state;
            && Migrating(t, l, h)
            && (forall g :: Combined(t, l, h, g) == if g == f then Some(x) else Combined(s, l, h, g))
            && (Apart(s, l, h) ==> Apart(t, l, h))
  {
    var t := SetTables(s, l, f, hint, x, h, f);
  }

  lemma DeleteTables(s: State, l: Key, f: Field, h: Key) returns (o: Outcome)
    requires Migrating(s, l, h)
    ensures o == LhdelWithFallbackSpec(s, l, f, h)
    ensures Migrating(o.state, l, h)
    ensures o.reply == Count(if f in LocatedOf(s, l) || f in HashOf(s, h) then 1 else 0)
    ensures LocatedOf(o.state, l) == Without(LocatedOf(s, l), f)
    ensures HashOf(o.state, h) == if f in LocatedOf(s, l) then HashOf(s, h) else Without(HashOf(s, h), f)
  {
    var m := Without(LocatedOf(s, l), f);
    RemoveAllOne(LocatedOf(s, l), f);
    Rewrite(s, l, h, m);
    var s1 := With(s, l, VLocalityHash(m));
    RemoveAllOne(HashOf(s1, h), f);
    RewriteFallback(s1, l, h, Without(HashOf(s1, h), f));
    o := LhdelWithFallbackSpec(s, l, f, h);
  }

  /** A deletion takes the field, and no other, out of the combined map, exactly unless both tables hold it. */
  lemma MigrationDelete(s: State, l: Key, f: Field, h: Key)
    requires Migrating(s, l, h)
    ensures var o := LhdelWithFallbackSpec(s, l, f, h);
            && Migrating(o.state, l, h)
            && o.reply == Count(if Combined(s, l, h, f).Some? then 1 else 0)
            && (Combined(o.state, l, h, f) == None <==> !(f in LocatedOf(s, l) && f in HashOf(s, h)))
            && (forall g :: g != f ==> Combined(o.state, l, h, g) == Combined(s, l, h, g))
            && (Apart(s, l, h) ==> Apart(o.state, l, h))
  {
    var o := DeleteTables(s, l, f, h);
  }

  /**
   * Converting a field moves its value to the new name, or does nothing. Under the same name the combined
   * map does not change; the tables stay apart exactly unless the new name is another field of the fallback.
   */
  lemma MigrationConvert(s: State, l: Key, f: Field, g: Field, hint: Hint, h: Key)
    requires Migrating(s, l, h)
    ensures var o := ConvertHashFieldSpec(s, h, f, l, g, hint);
            && (o.reply == Ok <==> f in HashOf(s, h) && g !in LocatedOf(s, l))
            && (o.reply != Ok ==> o.state == s)
            && (o.reply == Ok ==> Migrating(o.state, l, h) && Converted(s, o.state, l, f, g, h))
  {
    if f in HashOf(s, h) && g !in LocatedOf(s, l) {
      var t := SetTables(s, l, f, hint, HashOf(s, h)[f], h, g);
    }
  }

  ghost predicate Converted(s: State, t: State, l: Key, f: Field, g: Field, h: Key)
    requires f in HashOf(s, h)
  {
    && Combined(t, l, h, g) == Some(HashOf(s, h)[f]) && g in LocatedOf(t, l) && f !in HashOf(t, h)
    && (g != f && f !in LocatedOf(s, l) ==> Combined(t, l, h, f) == None)
    && (forall e :: e != f && e != g ==> Combined(t, l, h, e) == Combined(s, l, h, e))
    && (g == f ==> forall e :: Combined(t, l, h, e) == Combined(s, l, h, e))
    && (Apart(s, l, h) ==> (Apart(t, l, h) <==> g == f || g !in HashOf(s, h)))
  }

  // ---------------------------------------------------------------- paging through a deque

  /** Follow the cursors until they run out, putting each page before the ones read already. */
  function CollectPages(s: State, k: Key, cursor: Option<int>, count: int): seq<Bytes>
    requires 1 <= count <= StartFor(s, k, Left) + 2 && (cursor.Some? ==> StartFor(s, k, Left) + 1 < cursor.value)
    decreases ScanEnd(s, k, cursor) - StartFor(s, k, Left)
  {
    var (page, next) := ScanPage(s, k, cursor, count);
    if next.None? then page else CollectPages(s, k, next, count) + page
  }

  /** One page: the items in front of the cursor, from the next cursor on, which lies in the deque. */
  lemma OnePage(s: State, k: Key, cursor: Option<int>, count: int)
    requires 1 <= count <= StartFor(s, k, Left) + 2 && (cursor.Some? ==> StartFor(s, k, Left) + 1 < cursor.value)
    ensures var (page, next) := ScanPage(s, k, cursor, count);
      var items, before, end := ItemsOf(s, k), StartFor(s, k, Left) + 1, ScanEnd(s, k, cursor);
      && before <= end <= before + |items|
      && (next.None? ==> page == items[..end - before])
      && (next.Some? ==>
        && before < next.value < end && ScanEnd(s, k, next) == next.value
        && page == items[next.value - before..end - before])
  {
  }

  lemma {:induction false} PagesUpTo(s: State, k: Key, cursor: Option<int>, count: int)
    requires 1 <= count <= StartFor(s, k, Left) + 2 && (cursor.Some? ==> StartFor(s, k, Left) + 1 < cursor.value)
    ensures CollectPages(s, k, cursor, count) == ItemsOf(s, k)[..ScanEnd(s, k, cursor) - StartFor(s, k, Left) - 1]
    decreases ScanEnd(s, k, cursor) - StartFor(s, k, Left)
  {
    var next, before := ScanPage(s, k, cursor, count).1, StartFor(s, k, Left) + 1;
    OnePage(s, k, cursor, count);
    if next.Some? {
      PagesUpTo(s, k, next, count);
      Joined(ItemsOf(s, k), next.value - before, ScanEnd(s, k, cursor) - before);
    }
  }

  lemma Joined(items: seq<Bytes>, i: nat, j: nat)
    requires i <= j <= |items|
    ensures items[..i] + items[i..j] == items[..j]
  {
  }

  /**
   * From the empty cursor to the empty cursor: every item exactly once, in order, for any page size that
   * never wraps around.
   */
  lemma PagesAreAll(s: State, k: Key, count: int)
    requires 1 <= count <= StartFor(s, k, Left) + 2
    ensures CollectPages(s, k, None, count) == ItemsOf(s, k)
  {
    PagesUpTo(s, k, None, count);
  }

  /** A count beyond the index wraps around: the page is empty, and its cursor leads back to the end of the deque. */
  lemma PageWrapsAround(s: State, k: Key, cursor: Option<int>, count: int)
    requires WellFormed(s) && ItemsOf(s, k) != [] && StartFor(s, k, Left) + 1 < ScanEnd(s, k, cursor)
    requires 1 <= count < U64_LIMIT
    ensures var (page, next) := ScanPage(s, k, cursor, count);
      && (page == [] <==> count > ScanEnd(s, k, cursor))
      && (page == [] ==>
        && next.Some? && StartFor(s, k, Left) + 1 < next.value
        && (cursor == None ==> ScanEnd(s, k, next) == ScanEnd(s, k, None)))
  {
    assert WellFormedValue(s.keys[k], s.clock);
  }

  // ---------------------------------------------------------------- calls the store does not survive

  ghost predicate Representable(db: Database, batch: Batch)
  {
    exists t :: Represents(db, batch, t)
  }

  /** The batch that SET leaves: the text record, then finalize with the size of the value. */
  function SetBatch(batch: Batch, s: State, k: Key, x: Bytes): Batch
  {
    Finalized(batch[At(k, Text) := Put(Raw(x))], k, DescriptorAt(s, k, TString), |x|, false)
  }

  /** SET of an empty value drops the descriptor but keeps the text: no store looks like that. */
  lemma SetNeedsText(db: Database, batch: Batch, cache: set<(int, Key)>, s: State, k: Key, x: Bytes)
    requires Consistent(db, batch, cache, s) && !Wrong(s, k, TString)
    ensures Representable(db, SetBatch(batch, s, k, x)) <==> x != []
  {
    var v := if k in s.keys then s.keys[k] else VHash(map[]);
    if x != [] {
      BeginOperation(db, batch, s, k, v);
      WriteRecord(db, batch, batch, s, k, v, VString(x), Text, Put(Raw(x)));
      FinishOperation(db, batch, batch[At(k, Text) := Put(Raw(x))], cache, s, k, VString(x),
        DescriptorAt(s, k, TString), |x|);
      assert Represents(db, SetBatch(batch, s, k, x), With(s, k, VString(x)));
    } else {
      forall t ensures !Represents(db, SetBatch(batch, s, k, x), t) {
        assert Lookup(db, SetBatch(batch, s, k, x), At(k, Text)) != Encode(t, At(k, Text)) ||
               Lookup(db, SetBatch(batch, s, k, x), At(k, Descriptor)) != Encode(t, At(k, Descriptor));
      }
    }
  }

  /**
   * SMOVE with the same source and target: both sizes are read first, the element is deleted and
   * one less is written, then the element is found missing, put back, and one more is written.
   */
  function SmoveSameBatch(batch: Batch, s: State, k: Key, f: Field): Batch
    requires k in s.keys && s.keys[k].VSet?
  {
    var info := DescriptorOf(s.keys[k]);
    if f !in s.keys[k].members then Finalized(Finalized(batch, k, info, info.size, false), k, info, info.size, false)
    else
      var taken := Finalized(batch[At(k, Entry(TSet, f)) := Tombstone], k, info, info.size - 1, false);
      Finalized(taken[At(k, Entry(TSet, f)) := Put(Raw(ONE))], k, info, info.size + 1, false)
  }

  lemma SameMembers(db: Database, b: Batch, t: State, k: Key, m: set<Field>)
    requires Represents(db, b, t)
    requires forall g :: Lookup(db, b, At(k, Entry(TSet, g))).Some? <==> g in m
    ensures SetOf(t, k) == m
  {
    forall g ensures g in SetOf(t, k) <==> g in m {
      assert Lookup(db, b, At(k, Entry(TSet, g))) == Encode(t, At(k, Entry(TSet, g)));
    }
  }

  lemma WrongCounter(db: Database, b: Batch, k: Key, m: set<Field>, t: State)
    requires Lookup(db, b, At(k, Descriptor)) == Some(Desc(DescriptorOf(VSet(m)).(size := |m| + 1)))
    requires forall g :: Lookup(db, b, At(k, Entry(TSet, g))).Some? <==> g in m
    ensures !Represents(db, b, t)
  {
    if Represents(db, b, t) {
      SameMembers(db, b, t, k, m);
    }
  }

  /** The counter ends one too high exactly if the element is there. */
  lemma SmoveNeedsTwoKeys(db: Database, batch: Batch, cache: set<(int, Key)>, s: State, k: Key, f: Field)
    requires Consistent(db, batch, cache, s) && k in s.keys && s.keys[k].VSet?
    ensures Representable(db, SmoveSameBatch(batch, s, k, f)) <==> f !in s.keys[k].members
  {
    var m, b := s.keys[k].members, SmoveSameBatch(batch, s, k, f);
    assert WellFormedValue(s.keys[k], s.clock);
    if f !in m {
      assert Represents(db, b, s);
    } else {
      forall g ensures Lookup(db, b, At(k, Entry(TSet, g))).Some? <==> g in m {
        assert Lookup(db, batch, At(k, Entry(TSet, g))) == Encode(s, At(k, Entry(TSet, g)));
      }
      forall t ensures !Represents(db, b, t) {
        WrongCounter(db, b, k, m, t);
      }
    }
  }
}
