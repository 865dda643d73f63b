/**
 * What the commands do, as a client sees it: what each one answers, what the reading commands
 * answer after it, and that it changes nothing else. The keys are described by their values
 * alone, without the functions that StoreSpec builds them with.
 */
module CommandLaws {
  import opened Bytes
  import opened StoreModel
  import opened StoreSpec
  import opened StoreRuns
  import opened StoreLaws

  /** From `s` to `t`, nothing happened outside the keys `ks`. */
  ghost predicate OnlyAt(s: State, t: State, ks: set<Key>)
  {
    && t.clock == s.clock && t.lastApplied == s.lastApplied && t.touched == s.touched && t.revisions == s.revisions
    && forall j :: j !in ks ==> SameKey(s, t, j)
  }

  ghost predicate SameKey(s: State, t: State, j: Key)
  {
    (j in t.keys <==> j in s.keys) && (j in s.keys ==> t.keys[j] == s.keys[j])
  }

  lemma WithHash(s: State, k: Key, m: map<Field, Bytes>)
    ensures HashOf(With(s, k, VHash(m)), k) == m && OnlyAt(s, With(s, k, VHash(m)), {k})
    ensures k in With(s, k, VHash(m)).keys <==> m != map[]
    ensures k in With(s, k, VHash(m)).keys ==> With(s, k, VHash(m)).keys[k] == VHash(m)
  {
  }

  lemma WithSet(s: State, k: Key, m: set<Field>)
    ensures SetOf(With(s, k, VSet(m)), k) == m && OnlyAt(s, With(s, k, VSet(m)), {k})
    ensures forall g :: Member(With(s, k, VSet(m)), k, g) <==> g in m
  {
  }

  lemma WithLocated(s: State, k: Key, m: map<Field, Located>)
    ensures LocatedOf(With(s, k, VLocalityHash(m)), k) == m && OnlyAt(s, With(s, k, VLocalityHash(m)), {k})
    ensures k in With(s, k, VLocalityHash(m)).keys <==> m != map[]
    ensures k in With(s, k, VLocalityHash(m)).keys ==> With(s, k, VLocalityHash(m)).keys[k] == VLocalityHash(m)
  {
  }

  // ---------------------------------------------------------------- strings

  lemma SetLaw(s: State, k: Key, x: Bytes)
    requires x != []
    ensures var o := Step(s, Set(k, x));
      if k in s.keys && !s.keys[k].VString? then o == Outcome(s, WrongType)
      else o.reply == Ok && k in o.state.keys && o.state.keys[k] == VString(x) && OnlyAt(s, o.state, {k})
  {
  }

  // ---------------------------------------------------------------- hashes

  predicate NotHash(s: State, k: Key)
  {
    k in s.keys && !s.keys[k].VHash?
  }

  /** HSET: the field has the new value, every other field what it had; 1 says that the field is new. */
  lemma HsetLaw(s: State, k: Key, f: Field, x: Bytes, g: Field)
    ensures var o := Step(s, Hset(k, f, x));
      if NotHash(s, k) then o == Outcome(s, WrongType)
      else
        && o.reply == (if HgetSpec(s, k, f) == NotFound then Count(1) else Count(0))
        && HgetSpec(o.state, k, g) == (if g == f then Bulk(x) else HgetSpec(s, k, g))
        && k in o.state.keys && o.state.keys[k].VHash? && OnlyAt(s, o.state, {k})
  {
    assert f in HashOf(s, k)[f := x];
    WithHash(s, k, HashOf(s, k)[f := x]);
  }

  lemma HsetnxLaw(s: State, k: Key, f: Field, x: Bytes, g: Field)
    ensures var o := Step(s, Hsetnx(k, f, x));
      if NotHash(s, k) then o == Outcome(s, WrongType)
      else if HgetSpec(s, k, f).Bulk? then o == Outcome(s, Count(0))
      else
        && o.reply == Count(1) && HgetSpec(o.state, k, g) == (if g == f then Bulk(x) else HgetSpec(s, k, g))
        && k in o.state.keys && o.state.keys[k].VHash? && OnlyAt(s, o.state, {k})
  {
    assert f in HashOf(s, k)[f := x];
    WithHash(s, k, HashOf(s, k)[f := x]);
  }

  /** HMSET: each field has the last value given for it; `i` is where that stands, or -1. */
  lemma HmsetLaw(s: State, k: Key, kvs: seq<Update>, g: Field, i: int)
    requires -1 <= i < |kvs| && (0 <= i ==> kvs[i].field == g)
    requires forall j :: i < j < |kvs| ==> kvs[j].field != g
    ensures var o := Step(s, Hmset(k, kvs));
      if NotHash(s, k) then o == Outcome(s, WrongType)
      else
        && o.reply == Ok && OnlyAt(s, o.state, {k})
        && HgetSpec(o.state, k, g) == if 0 <= i then Bulk(kvs[i].value) else HgetSpec(s, k, g)
  {
    PutAllLast(HashOf(s, k), kvs, g, i);
    WithHash(s, k, PutAll(HashOf(s, k), kvs));
  }

  /** HDEL: the fields named are gone, the others are not; the answer counts the distinct fields that were there. */
  lemma HdelLaw(s: State, k: Key, fs: seq<Field>, g: Field)
    ensures var o := Step(s, Hdel(k, fs));
      if NotHash(s, k) then o == Outcome(s, WrongType)
      else
        && o.reply == Count(|set f | f in fs && HgetSpec(s, k, f).Bulk?|) && OnlyAt(s, o.state, {k})
        && HgetSpec(o.state, k, g) == if g in fs then NotFound else HgetSpec(s, k, g)
  {
    if !NotHash(s, k) {
      RemovedCount(HashOf(s, k), fs);
      var found := set f | f in fs && HgetSpec(s, k, f).Bulk?;
      assert found == set f | f in fs && f in HashOf(s, k);
      WithHash(s, k, RemoveAll(HashOf(s, k), fs));
    }
  }

  lemma RemovedCount<V>(m: map<Field, V>, fs: seq<Field>)
    ensures |m| - |RemoveAll(m, fs)| == |set f | f in fs && f in m|
    ensures forall f :: f in RemoveAll(m, fs) <==> f in m && f !in fs
    ensures forall f :: f in RemoveAll(m, fs) ==> RemoveAll(m, fs)[f] == m[f]
  {
    RemoveAllIsDifference(m, fs);
    var gone := set f | f in fs && f in m;
    assert m.Keys == RemoveAll(m, fs).Keys + gone;
  }

  /** HCLONE: afterwards both keys answer alike; an existing target is never written. */
  lemma HcloneLaw(s: State, source: Key, target: Key, g: Field)
    requires source in s.keys && s.keys[source].VHash? ==> s.keys[source].fields != map[]
    ensures var o := Step(s, Hclone(source, target));
      if NotHash(s, target) then o == Outcome(s, WrongType)
      else if target in s.keys then o == Outcome(s, TargetExists)
      else if NotHash(s, source) then o == Outcome(s, WrongType)
      else
        && o.reply == Ok && OnlyAt(s, o.state, {target})
        && HgetSpec(o.state, target, g) == HgetSpec(s, source, g) == HgetSpec(o.state, source, g)
        && (target in o.state.keys <==> source in s.keys)
  {
    WithHash(s, target, HashOf(s, source));
  }

  /** HGET tells a key of another type from a missing field. */
  lemma HgetLaw(s: State, k: Key, f: Field)
    ensures HgetSpec(s, k, f) ==
      if k !in s.keys then NotFound
      else match s.keys[k]
        case VHash(m) => if f in m then Bulk(m[f]) else NotFound
        case _ => WrongType
  {
  }

  // ---------------------------------------------------------------- sets

  predicate NotSet(s: State, k: Key)
  {
    k in s.keys && !s.keys[k].VSet?
  }

  predicate Member(s: State, k: Key, f: Field)
  {
    k in s.keys && s.keys[k].VSet? && f in s.keys[k].members
  }

  /** SADD: the elements given are members, besides those that were; the answer counts the distinct new ones. */
  lemma SaddLaw(s: State, k: Key, fs: seq<Field>, g: Field)
    ensures var o := Step(s, Sadd(k, fs));
      if NotSet(s, k) then o == Outcome(s, WrongType)
      else
        && o.reply == Count(|set f | f in fs && !Member(s, k, f)|) && OnlyAt(s, o.state, {k})
        && (Member(o.state, k, g) <==> g in fs || Member(s, k, g))
  {
    if !NotSet(s, k) {
      AddedCount(SetOf(s, k), fs);
      WithSet(s, k, AddAll(SetOf(s, k), fs));
      assert (set f | f in fs && !Member(s, k, f)) == set f | f in fs && f !in SetOf(s, k);
    }
  }

  lemma AddedCount(m: set<Field>, fs: seq<Field>)
    ensures |AddAll(m, fs)| - |m| == |set f | f in fs && f !in m|
    ensures forall g :: g in AddAll(m, fs) <==> g in m || g in fs
  {
    AddAndDropAll(m, fs);
    assert AddAll(m, fs) == m + set f | f in fs && f !in m;
  }

  lemma DroppedCount(m: set<Field>, fs: seq<Field>)
    ensures |m| - |DropAll(m, fs)| == |set f | f in fs && f in m|
    ensures forall g :: g in DropAll(m, fs) <==> g in m && g !in fs
  {
    AddAndDropAll(m, fs);
    assert m == DropAll(m, fs) + set f | f in fs && f in m;
  }

  /** SREM: the elements given are no members, the others stay; the answer counts the distinct ones removed. */
  lemma SremLaw(s: State, k: Key, fs: seq<Field>, g: Field)
    ensures var o := Step(s, Srem(k, fs));
      if NotSet(s, k) then o == Outcome(s, WrongType)
      else
        && o.reply == Count(|set f | f in fs && Member(s, k, f)|) && OnlyAt(s, o.state, {k})
        && (Member(o.state, k, g) <==> g !in fs && Member(s, k, g))
  {
    if !NotSet(s, k) { MembersDropped(s, k, fs, g); }
  }

  lemma MembersDropped(s: State, k: Key, fs: seq<Field>, g: Field)
    requires !NotSet(s, k)
    ensures var o := SremSpec(s, k, fs);
      && o.reply == Count(|set f | f in fs && Member(s, k, f)|) && OnlyAt(s, o.state, {k})
      && (Member(o.state, k, g) <==> g !in fs && Member(s, k, g))
  {
    DroppedCount(SetOf(s, k), fs);
    WithSet(s, k, DropAll(SetOf(s, k), fs));
    assert (set f | f in fs && Member(s, k, f)) == set f | f in fs && f in SetOf(s, k);
  }

  /** SMOVE: the element leaves the source and is in the target, if it was in the source; nothing else moves. */
  lemma SmoveLaw(s: State, source: Key, target: Key, f: Field, g: Field)
    requires source != target
    ensures var o := Step(s, Smove(source, target, f));
      if NotSet(s, source) || NotSet(s, target) then o == Outcome(s, WrongType)
      else if !Member(s, source, f) then o == Outcome(s, Count(0))
      else
        && o.reply == Count(1) && OnlyAt(s, o.state, {source, target})
        && (Member(o.state, source, g) <==> Member(s, source, g) && g != f)
        && (Member(o.state, target, g) <==> Member(s, target, g) || g == f)
  {
    if !NotSet(s, source) && !NotSet(s, target) && Member(s, source, f) {
      MemberMoved(s, source, target, f, g);
    }
  }

  lemma MemberMoved(s: State, source: Key, target: Key, f: Field, g: Field)
    requires source != target && !NotSet(s, source) && !NotSet(s, target) && Member(s, source, f)
    ensures var o := SmoveSpec(s, source, target, f);
      && o.reply == Count(1) && OnlyAt(s, o.state, {source, target})
      && (Member(o.state, source, g) <==> Member(s, source, g) && g != f)
      && (Member(o.state, target, g) <==> Member(s, target, g) || g == f)
  {
    var s1 := With(s, source, VSet(SetOf(s, source) - {f}));
    WithSet(s, source, SetOf(s, source) - {f});
    assert SameKey(s, s1, target);
    var t := With(s1, target, VSet(SetOf(s1, target) + {f}));
    WithSet(s1, target, SetOf(s1, target) + {f});
    assert SameKey(s1, t, source);
    assert forall j :: j != source && j != target ==> SameKey(s, s1, j) && SameKey(s1, t, j);
  }

  // ---------------------------------------------------------------- locality hashes

  predicate NotLocality(s: State, k: Key)
  {
    k in s.keys && !s.keys[k].VLocalityHash?
  }

  predicate HasHint(s: State, k: Key, f: Field, h: Hint)
  {
    k in s.keys && s.keys[k].VLocalityHash? && f in s.keys[k].located && s.keys[k].located[f].hint == h
  }

  /** LHGET tells a key of another type from a missing field, whatever the field's hint. */
  lemma LhgetLaw(s: State, k: Key, f: Field)
    ensures LhgetSpec(s, k, f) ==
      if k !in s.keys then NotFound
      else match s.keys[k]
        case VLocalityHash(m) => if f in m then Bulk(m[f].value) else NotFound
        case _ => WrongType
  {
  }

  /** LHSET: the field has the new value under the new hint and no other; other fields keep both. */
  lemma LhsetLaw(s: State, k: Key, f: Field, h: Hint, x: Bytes, g: Field, i: Hint)
    requires k != [] && f != [] && h != []
    ensures var o := Step(s, Lhset(k, f, h, x));
      if NotLocality(s, k) then o == Outcome(s, WrongType)
      else
        && o.reply == (if LhgetSpec(s, k, f) == NotFound then Count(1) else Count(0)) && OnlyAt(s, o.state, {k})
        && LhgetSpec(o.state, k, g) == (if g == f then Bulk(x) else LhgetSpec(s, k, g))
        && (HasHint(o.state, k, g, i) <==> if g == f then i == h else HasHint(s, k, g, i))
  {
  }

  /** LHMSET: for each field, the last placement given counts; `j` is where it stands, or -1. */
  lemma LhmsetLaw(s: State, k: Key, ps: seq<Placement>, g: Field, i: Hint, j: int)
    requires Admissible(s, Lhmset(k, ps)) && -1 <= j < |ps| && (0 <= j ==> ps[j].field == g)
    requires forall l :: j < l < |ps| ==> ps[l].field != g
    ensures var o := Step(s, Lhmset(k, ps));
      if NotLocality(s, k) then o == Outcome(s, WrongType)
      else
        && o.reply == Ok && OnlyAt(s, o.state, {k})
        && LhgetSpec(o.state, k, g) == (if 0 <= j then Bulk(ps[j].value) else LhgetSpec(s, k, g))
        && (HasHint(o.state, k, g, i) <==> if 0 <= j then i == ps[j].hint else HasHint(s, k, g, i))
  {
    PlaceAllLast(LocatedOf(s, k), ps, g, j);
    WithLocated(s, k, PlaceAll(LocatedOf(s, k), ps));
  }

  /** LHDEL: the fields named are gone, the others are not; the answer counts the distinct fields that were there. */
  lemma LhdelLaw(s: State, k: Key, fs: seq<Field>, g: Field, i: Hint)
    requires Admissible(s, Lhdel(k, fs))
    ensures var o := Step(s, Lhdel(k, fs));
      if NotLocality(s, k) then o == Outcome(s, WrongType)
      else
        && o.reply == Count(|set f | f in fs && LhgetSpec(s, k, f).Bulk?|) && OnlyAt(s, o.state, {k})
        && LhgetSpec(o.state, k, g) == (if g in fs then NotFound else LhgetSpec(s, k, g))
        && (HasHint(o.state, k, g, i) <==> g !in fs && HasHint(s, k, g, i))
  {
    if !NotLocality(s, k) { LocatedDropped(s, k, fs, g, i); }
  }

  lemma LocatedDropped(s: State, k: Key, fs: seq<Field>, g: Field, i: Hint)
    requires !NotLocality(s, k)
    ensures var o := LhdelSpec(s, k, fs);
      && o.reply == Count(|set f | f in fs && LhgetSpec(s, k, f).Bulk?|) && OnlyAt(s, o.state, {k})
      && LhgetSpec(o.state, k, g) == (if g in fs then NotFound else LhgetSpec(s, k, g))
      && (HasHint(o.state, k, g, i) <==> g !in fs && HasHint(s, k, g, i))
  {
    var m := RemoveAll(LocatedOf(s, k), fs);
    RemovedCount(LocatedOf(s, k), fs);
    assert (set f | f in fs && LhgetSpec(s, k, f).Bulk?) == set f | f in fs && f in LocatedOf(s, k);
    WithLocated(s, k, m);
  }

  /** LHLOCDEL: the field goes if it has this very hint; under any other hint nothing happens. */
  lemma LhlocdelLaw(s: State, k: Key, f: Field, h: Hint, g: Field)
    requires k != [] && f != [] && h != []
    ensures var o := Step(s, Lhlocdel(k, f, h));
      if NotLocality(s, k) then o == Outcome(s, WrongType)
      else if !HasHint(s, k, f, h) then o == Outcome(s, Count(0))
      else
        && o.reply == Count(1) && OnlyAt(s, o.state, {k})
        && LhgetSpec(o.state, k, g) == if g == f then NotFound else LhgetSpec(s, k, g)
  {
    if HasHint(s, k, f, h) {
      RemoveAllOne(LocatedOf(s, k), f);
      var m := Without(LocatedOf(s, k), f);
      WithLocated(s, k, m);
    }
  }

  // ---------------------------------------------------------------- migration commands

  /** The two tables after a field was placed in one and another (or the same) deleted from the other. */
  ghost predicate Moved(s: State, t: State, k: Key, g: Field, h: Hint, x: Bytes, j: Key, f: Field)
  {
    && OnlyAt(s, t, {k, j}) && (forall e, i :: HasHint(t, k, e, i) <==> if e == g then i == h else HasHint(s, k, e, i))
    && (forall e :: LhgetSpec(t, k, e) == if e == g then Bulk(x) else LhgetSpec(s, k, e))
    && (if NotHash(s, j) then SameKey(s, t, j)
       else forall e :: HgetSpec(t, j, e) == if e == f then NotFound else HgetSpec(s, j, e))
  }

  lemma PlacedHere(s: State, t: State, k: Key, g: Field, h: Hint, x: Bytes)
    requires !NotLocality(s, k) && k in t.keys
    requires t.keys[k] == VLocalityHash(LocatedOf(s, k)[g := Located(h, x)])
    ensures forall e, i :: HasHint(t, k, e, i) <==> if e == g then i == h else HasHint(s, k, e, i)
    ensures forall e :: LhgetSpec(t, k, e) == if e == g then Bulk(x) else LhgetSpec(s, k, e)
  {
  }

  lemma GoneThere(s: State, t: State, j: Key, f: Field)
    requires !NotHash(s, j) && !NotHash(t, j) && HashOf(t, j) == Without(HashOf(s, j), f)
    ensures forall e :: HgetSpec(t, j, e) == if e == f then NotFound else HgetSpec(s, j, e)
  {
  }

  lemma MovedTables(s: State, s1: State, t: State, k: Key, g: Field, h: Hint, x: Bytes, j: Key, f: Field)
    requires k != j && !NotLocality(s, k)
    requires s1 == With(s, k, VLocalityHash(LocatedOf(s, k)[g := Located(h, x)]))
    requires t == if NotHash(s, j) then s1 else With(s1, j, VHash(Without(HashOf(s, j), f)))
    ensures Moved(s, t, k, g, h, x, j, f)
  {
    var m := LocatedOf(s, k)[g := Located(h, x)];
    assert g in m;
    WithLocated(s, k, m);
    WithHash(s1, j, Without(HashOf(s, j), f));
    assert SameKey(s, s1, j);
    PlacedHere(s, t, k, g, h, x);
    if !NotHash(s, j) { GoneThere(s, t, j, f); }
  }

  lemma MovedBy(s: State, k: Key, g: Field, h: Hint, x: Bytes, j: Key, f: Field)
    requires k != j && !NotLocality(s, k)
    ensures Moved(s, HdelSpec(LhsetSpec(s, k, g, h, x).state, j, [f]).state, k, g, h, x, j, f)
  {
    var s1 := LhsetSpec(s, k, g, h, x).state;
    assert SameKey(s, s1, j) by { WithLocated(s, k, LocatedOf(s, k)[g := Located(h, x)]); }
    RemoveAllOne(HashOf(s, j), f);
    MovedTables(s, s1, HdelSpec(s1, j, [f]).state, k, g, h, x, j, f);
  }

  /** The answer is that of LHSET, and afterwards the field is nowhere but in the locality hash. */
  lemma LhsetAndDelFallbackLaw(s: State, k: Key, f: Field, h: Hint, x: Bytes, fallback: Key)
    requires k != [] && f != [] && h != [] && k != fallback
    ensures var o := Step(s, LhsetAndDelFallback(k, f, h, x, fallback));
      if NotLocality(s, k) then o == Outcome(Step(s, Hdel(fallback, [f])).state, WrongType)
      else
        && o.reply == (if LhgetSpec(s, k, f) == NotFound then Count(1) else Count(0))
        && Moved(s, o.state, k, f, h, x, fallback, f)
  {
    SetAndDeleted(s, k, f, h, x, fallback);
  }

  lemma SetAndDeleted(s: State, k: Key, f: Field, h: Hint, x: Bytes, fallback: Key)
    requires k != fallback
    ensures var o := LhsetAndDelFallbackSpec(s, k, f, h, x, fallback);
      if NotLocality(s, k) then o == Outcome(HdelSpec(s, fallback, [f]).state, WrongType)
      else
        && o.reply == (if LhgetSpec(s, k, f) == NotFound then Count(1) else Count(0))
        && Moved(s, o.state, k, f, h, x, fallback, f)
  {
    if !NotLocality(s, k) { MovedBy(s, k, f, h, x, fallback, f); }
  }

  /** The field goes from the locality hash if it is there, and otherwise from the fallback, as by HDEL. */
  lemma LhdelWithFallbackLaw(s: State, k: Key, f: Field, fallback: Key)
    requires WellFormed(s) && k != [] && f != []
    ensures var o := Step(s, LhdelWithFallback(k, f, fallback));
      if LhgetSpec(s, k, f).Bulk? then o == Step(s, Lhdel(k, [f])) && o.reply == Count(1)
      else o == Step(s, Hdel(fallback, [f]))
  {
    LhdelOne(s, k, f);
    DeletedOnce(s, k, f, fallback);
  }

  lemma DeletedOnce(s: State, k: Key, f: Field, fallback: Key)
    requires LhgetSpec(s, k, f).Bulk? <==> LhdelSpec(s, k, [f]).reply == Count(1)
    requires !LhgetSpec(s, k, f).Bulk? ==> LhdelSpec(s, k, [f]).state == s
    ensures LhdelWithFallbackSpec(s, k, f, fallback)
      == if LhgetSpec(s, k, f).Bulk? then LhdelSpec(s, k, [f]) else HdelSpec(s, fallback, [f])
  {
  }

  lemma LhdelOne(s: State, k: Key, f: Field)
    requires WellFormed(s)
    ensures LhgetSpec(s, k, f).Bulk? <==> LhdelSpec(s, k, [f]).reply == Count(1)
    ensures !LhgetSpec(s, k, f).Bulk? ==> LhdelSpec(s, k, [f]).state == s
  {
    if k in s.keys { assert WellFormedValue(s.keys[k], s.clock); }
    RemoveAllOne(LocatedOf(s, k), f);
  }

  /** LHGET with a fallback: the value in the locality hash, or else what HGET answers on the other key. */
  lemma LhgetWithFallbackLaw(s: State, k: Key, f: Field, fallback: Key)
    ensures LhgetWithFallbackSpec(s, k, f, fallback) ==
      if NotLocality(s, k) || LhgetSpec(s, k, f).Bulk? then LhgetSpec(s, k, f) else HgetSpec(s, fallback, f)
  {
  }

  /** CONVERT-HASH-FIELD-TO-LHASH moves one value, once, or changes nothing. */
  lemma ConvertHashFieldLaw(s: State, source: Key, f: Field, target: Key, g: Field, h: Hint)
    requires target != [] && g != [] && h != []
    ensures var o, v := Step(s, ConvertHashField(source, f, target, g, h)), HgetSpec(s, source, f);
      if LhgetSpec(s, target, g).Bulk? then o == Outcome(s, TargetExists)
      else if !v.Bulk? then o == Outcome(s, v)
      else if NotLocality(s, target) then o == Outcome(s, WrongType)
      else o.reply == Ok && Moved(s, o.state, target, g, h, v.value, source, f)
  {
    ConvertOutcome(s, source, f, target, g, h);
  }

  lemma ConvertOutcome(s: State, source: Key, f: Field, target: Key, g: Field, h: Hint)
    ensures var o, v := ConvertHashFieldSpec(s, source, f, target, g, h), HgetSpec(s, source, f);
      if LhgetSpec(s, target, g).Bulk? then o == Outcome(s, TargetExists)
      else if !v.Bulk? then o == Outcome(s, v)
      else if NotLocality(s, target) then o == Outcome(s, WrongType)
      else o.reply == Ok && Moved(s, o.state, target, g, h, v.value, source, f)
  {
    var v := HgetSpec(s, source, f);
    if v.Bulk? && !NotLocality(s, target) {
      MovedBy(s, target, g, h, v.value, source, f);
    }
  }

  // ---------------------------------------------------------------- versioned hashes

  predicate NotVersioned(s: State, k: Key)
  {
    k in s.keys && !s.keys[k].VVersionedHash?
  }

  predicate HasEntry(s: State, k: Key, f: Field, x: Bytes)
  {
    k in s.keys && s.keys[k].VVersionedHash? && f in s.keys[k].entries && s.keys[k].entries[f] == x
  }

  /** A versioned command outside its own key, and what it records for the subscribers of the key. */
  ghost predicate Recorded(s: State, t: State, k: Key, us: seq<Update>)
  {
    && t.clock == s.clock && t.lastApplied == s.lastApplied && k in t.touched && k in t.revisions
    && t.revisions[k].updates == (if k in s.revisions then s.revisions[k].updates else []) + us
    && (forall j :: j != k ==> SameKey(s, t, j) && (j in t.touched <==> j in s.touched))
    && (forall j :: j != k ==> (j in t.revisions <==> j in s.revisions))
    && (forall j :: j != k && j in s.revisions ==> t.revisions[j] == s.revisions[j])
  }

  /** VHSET answers the version that the hash then has: one more than before, once in a transaction. */
  lemma VhsetLaw(s: State, k: Key, f: Field, x: Bytes, g: Field, y: Bytes)
    requires Admissible(s, Vhset(k, f, x))
    ensures var o := Step(s, Vhset(k, f, x));
      if NotVersioned(s, k) then o == Outcome(s, WrongType)
      else
        && k in o.state.keys && o.state.keys[k].VVersionedHash? && o.reply == Version(o.state.keys[k].version)
        && o.reply.version == (if k in s.keys then s.keys[k].version else 0) + (if k in s.touched then 0 else 1)
        && (HasEntry(o.state, k, g, y) <==> if g == f then y == x else HasEntry(s, k, g, y))
        && Recorded(s, o.state, k, [Update(f, x)])
  {
  }

  /** VHDEL raises the version only if it removes something; it records each field it was given, with an empty value. */
  lemma VhdelLaw(s: State, k: Key, fs: seq<Field>, g: Field, y: Bytes)
    requires Admissible(s, Vhdel(k, fs))
    ensures var o := Step(s, Vhdel(k, fs));
      if NotVersioned(s, k) then o == Outcome(s, WrongType)
      else
        && k in o.state.keys && o.state.keys[k].VVersionedHash? && o.reply == Version(o.state.keys[k].version)
        && o.reply.version == (if k in s.keys then s.keys[k].version else 0)
          + (if k !in s.touched && k in s.keys && exists f :: f in fs && f in s.keys[k].entries then 1 else 0)
        && (HasEntry(o.state, k, g, y) <==> g !in fs && HasEntry(s, k, g, y))
        && Recorded(s, o.state, k, seq(|fs|, i requires 0 <= i < |fs| => Update(fs[i], [])))
  {
    if !NotVersioned(s, k) {
      VhdelEntries(s, k, fs, g, y);
      VhdelRecorded(s, k, fs);
    }
  }

  lemma VhdelEntries(s: State, k: Key, fs: seq<Field>, g: Field, y: Bytes)
    requires !NotVersioned(s, k)
    ensures var o := VhdelSpec(s, k, fs);
      && k in o.state.keys && o.state.keys[k].VVersionedHash? && o.reply == Version(o.state.keys[k].version)
      && o.reply.version == (if k in s.keys then s.keys[k].version else 0)
        + (if k !in s.touched && k in s.keys && exists f :: f in fs && f in s.keys[k].entries then 1 else 0)
      && (HasEntry(o.state, k, g, y) <==> g !in fs && HasEntry(s, k, g, y))
  {
    RemovedCount(EntriesOf(s, k), fs);
    RemovedSome(EntriesOf(s, k), fs);
  }

  lemma VhdelRecorded(s: State, k: Key, fs: seq<Field>)
    requires !NotVersioned(s, k)
    ensures Recorded(s, VhdelSpec(s, k, fs).state, k, seq(|fs|, i requires 0 <= i < |fs| => Update(fs[i], [])))
  {
    assert Deletions(fs) == seq(|fs|, i requires 0 <= i < |fs| => Update(fs[i], []));
  }

  lemma RemovedSome(m: map<Field, Bytes>, fs: seq<Field>)
    ensures |RemoveAll(m, fs)| == |m| <==> !exists f :: f in fs && f in m
  {
    RemovedCount(m, fs);
    var gone := set f | f in fs && f in m;
    if f :| f in fs && f in m {
      assert f in gone;
    } else {
      assert gone == {};
    }
  }

  // ---------------------------------------------------------------- deques

  predicate NotDeque(s: State, k: Key)
  {
    k in s.keys && !s.keys[k].VDeque?
  }

  /** The deque at `k` holds these items, from the first to the last; a key that is not there holds none. */
  predicate HasItems(s: State, k: Key, items: seq<Bytes>)
  {
    if k in s.keys then s.keys[k].VDeque? && s.keys[k].items == items && items != [] else items == []
  }

  lemma WithDeque(s: State, k: Key, items: seq<Bytes>, start: int)
    ensures var t := With(s, k, VDeque(items, start));
      && HasItems(t, k, items) && OnlyAt(s, t, {k}) && (items != [] ==> t.keys[k] == VDeque(items, start))
  {
  }

  /** A pop takes the first item, or the last, and leaves the others in their order; an empty deque has none. */
  lemma PopLaw(s: State, d: Direction, k: Key, items: seq<Bytes>)
    requires !NotDeque(s, k) ==> HasItems(s, k, items)
    ensures var o := Step(s, DequePop(d, k));
      if NotDeque(s, k) then o == Outcome(s, WrongType)
      else if items == [] then o == Outcome(s, NotFound)
      else
        && OnlyAt(s, o.state, {k})
        && match d
           case Left => o.reply == Bulk(items[0]) && HasItems(o.state, k, items[1..])
           case Right => o.reply == Bulk(items[|items| - 1]) && HasItems(o.state, k, items[..|items| - 1])
  {
    if !NotDeque(s, k) && items != [] {
      WithDeque(s, k, items[1..], s.keys[k].start + 1);
      WithDeque(s, k, items[..|items| - 1], s.keys[k].start);
    }
  }

  function Opposite(d: Direction): Direction
  {
    match d case Left => Right case Right => Left
  }

  /** Of `n` things in a row, where the one stands that has `i` others before it, seen from that end. */
  function Nth(d: Direction, i: int, n: int): int
  {
    match d case Left => i case Right => n - 1 - i
  }

  /** The arguments in the order in which they come to stand from the front: a push to the front turns them round. */
  ghost predicate Lined(d: Direction, xs: seq<Bytes>, ys: seq<Bytes>)
  {
    && |ys| == |xs|
    && forall i {:trigger ys[i]} :: 0 <= i < |xs| ==> ys[i] == xs[Nth(Opposite(d), i, |xs|)]
  }

  lemma {:induction false} ReversedAt(xs: seq<Bytes>, i: nat)
    requires i < |xs|
    ensures |Reversed(xs)| == |xs| && Reversed(xs)[i] == xs[|xs| - 1 - i]
  {
    ReversedSize(xs);
    if i > 0 { ReversedAt(xs[..|xs| - 1], i - 1); }
  }

  lemma LinedUp(d: Direction, xs: seq<Bytes>, ys: seq<Bytes>)
    ensures Lined(d, xs, ys) <==> ys == if d == Left then Reversed(xs) else xs
  {
    var zs := if d == Left then Reversed(xs) else xs;
    ReversedSize(xs);
    forall i | 0 <= i < |xs| ensures zs[i] == xs[Nth(Opposite(d), i, |xs|)] {
      ReversedAt(xs, i);
    }
    if Lined(d, xs, ys) {
      SameLine(d, xs, ys, zs);
    }
  }

  lemma SameLine(d: Direction, xs: seq<Bytes>, ys: seq<Bytes>, zs: seq<Bytes>)
    requires Lined(d, xs, ys) && Lined(d, xs, zs)
    ensures ys == zs
  {
    forall i | 0 <= i < |ys| ensures ys[i] == zs[i] { }
  }

  /** A push puts its items in front of the others or behind them, and answers how many there are now. */
  lemma PushLaw(s: State, d: Direction, k: Key, xs: seq<Bytes>, items: seq<Bytes>, ys: seq<Bytes>)
    requires Admissible(s, DequePush(d, k, xs)) && Lined(d, xs, ys)
    requires !NotDeque(s, k) ==> HasItems(s, k, items)
    ensures var o := Step(s, DequePush(d, k, xs));
      if NotDeque(s, k) then o == Outcome(s, WrongType)
      else
        && o.reply == Count(|items| + |xs|) && OnlyAt(s, o.state, {k})
        && HasItems(o.state, k, if d == Left then ys + items else items + ys)
  {
    if !NotDeque(s, k) {
      PushItems(s, d, k, xs, items, ys);
    }
  }

  lemma PushItems(s: State, d: Direction, k: Key, xs: seq<Bytes>, items: seq<Bytes>, ys: seq<Bytes>)
    requires Lined(d, xs, ys) && !NotDeque(s, k) && HasItems(s, k, items)
    ensures var o := DequePushSpec(s, d, k, xs);
      && o.reply == Count(|items| + |xs|) && OnlyAt(s, o.state, {k})
      && HasItems(o.state, k, if d == Left then ys + items else items + ys)
  {
    var start := StartFor(s, k, d);
    PushAllIsConcatenation(d, VDeque(items, start), xs);
    LinedUp(d, xs, ys);
    if d == Left {
      WithDeque(s, k, ys + items, start - |xs|);
    } else {
      WithDeque(s, k, items + ys, start);
    }
  }

  /** A new deque begins in the middle of the range of indexes, so that it has room at both ends. */
  lemma FirstPush(s: State, d: Direction, k: Key, x: Bytes)
    requires k !in s.keys
    ensures Admissible(s, DequePush(d, k, [x]))
    ensures var t := Step(s, DequePush(d, k, [x])).state;
      k in t.keys && t.keys[k] == VDeque([x], 9223372036854775806)
  {
    PushAllIsConcatenation(d, VDeque([], StartFor(s, k, d)), [x]);
    LinedUp(d, [x], [x]);
    WithDeque(s, k, [x], 9223372036854775806);
  }

  /** Popping undoes pushing at the same end, for any store and any item. */
  lemma PopUndoesPush(s: State, d: Direction, k: Key, x: Bytes)
    requires WellFormed(s) && Admissible(s, DequePush(d, k, [x])) && !NotDeque(s, k)
    ensures Step(Step(s, DequePush(d, k, [x])).state, DequePop(d, k)) == Outcome(s, Bulk(x))
  {
    PushOneItem(s, d, k, x);
    PopUndoes(s, d, k, x);
  }

  lemma PushOneItem(s: State, d: Direction, k: Key, x: Bytes)
    requires !NotDeque(s, k)
    ensures DequePushSpec(s, d, k, [x]).state
      == With(s, k, PushOne(d, VDeque(ItemsOf(s, k), StartFor(s, k, d)), x))
  {
    assert [x][..0] == [];
    assert PushAll(d, VDeque(ItemsOf(s, k), StartFor(s, k, d)), [x][..0]) == VDeque(ItemsOf(s, k), StartFor(s, k, d));
  }

  lemma PopUndoes(s: State, d: Direction, k: Key, x: Bytes)
    requires WellFormed(s) && !NotDeque(s, k)
    ensures DequePopSpec(With(s, k, PushOne(d, VDeque(ItemsOf(s, k), StartFor(s, k, d)), x)), d, k)
      == Outcome(s, Bulk(x))
  {
    if k in s.keys { assert WellFormedValue(s.keys[k], s.clock); }
    var items, start := ItemsOf(s, k), StartFor(s, k, d);
    var t := With(s, k, PushOne(d, VDeque(items, start), x));
    if d == Left {
      assert ([x] + items)[1..] == items;
      assert With(t, k, VDeque(items, start)) == s;
    } else {
      assert (items + [x])[..|items|] == items;
      assert With(t, k, VDeque(items, start)) == s;
    }
  }

  /** As many pops in a row: what is left, and the answers. */
  function PopMany(s: State, d: Direction, k: Key, n: nat): (State, seq<Reply>)
  {
    if n == 0 then (s, [])
    else
      var (t, replies) := PopMany(s, d, k, n - 1);
      var o := Step(t, DequePop(d, k));
      (o.state, replies + [o.reply])
  }

  /** From `s` to `t`, `n` items were taken from one end, and answered in turn; the others are left in their order. */
  ghost predicate Popped(s: State, t: State, replies: seq<Reply>, d: Direction, k: Key, n: nat, items: seq<Bytes>)
    requires n <= |items|
  {
    && OnlyAt(s, t, {k}) && !NotDeque(t, k)
    && HasItems(t, k, if d == Left then items[n..] else items[..|items| - n])
    && |replies| == n
    && forall i {:trigger replies[i]} :: 0 <= i < n ==> replies[i] == Bulk(items[Nth(d, i, |items|)])
  }

  /** Popping `n` times from the front answers the first `n` items in order, from the back the last ones, last first. */
  lemma {:induction false} PopManyLaw(s: State, d: Direction, k: Key, n: nat, items: seq<Bytes>)
    requires !NotDeque(s, k) && HasItems(s, k, items) && n <= |items|
    ensures Popped(s, PopMany(s, d, k, n).0, PopMany(s, d, k, n).1, d, k, n, items)
  {
    if n > 0 {
      PopManyLaw(s, d, k, n - 1, items);
      var (t, replies) := PopMany(s, d, k, n - 1);
      PopOneMore(s, t, replies, d, k, n, items);
    }
  }

  lemma PopOneMore(s: State, t: State, replies: seq<Reply>, d: Direction, k: Key, n: nat, items: seq<Bytes>)
    requires 0 < n <= |items| && Popped(s, t, replies, d, k, n - 1, items)
    ensures var o := Step(t, DequePop(d, k)); Popped(s, o.state, replies + [o.reply], d, k, n, items)
  {
    var left := if d == Left then items[n - 1..] else items[..|items| - (n - 1)];
    PopLaw(t, d, k, left);
    assert d == Left ==> left[1..] == items[n..];
    assert d == Right ==> left[..|left| - 1] == items[..|items| - n];
    StillOnly(s, t, Step(t, DequePop(d, k)).state, k);
  }

  lemma StillOnly(s: State, t: State, u: State, k: Key)
    requires OnlyAt(s, t, {k}) && OnlyAt(t, u, {k})
    ensures OnlyAt(s, u, {k})
  {
    forall j | j != k ensures SameKey(s, u, j) {
      assert SameKey(s, t, j) && SameKey(t, u, j);
    }
  }

  /** One answer for each item, from the front or from the back. */
  predicate AnswersInTurn(d: Direction, replies: seq<Reply>, items: seq<Bytes>)
  {
    && |replies| == |items|
    && forall i {:trigger replies[i]} :: 0 <= i < |items| ==> replies[i] == Bulk(items[Nth(d, i, |items|)])
  }

  lemma PopAllOf(s: State, t: State, d: Direction, k: Key, items: seq<Bytes>)
    requires k !in s.keys && OnlyAt(s, t, {k}) && !NotDeque(t, k) && HasItems(t, k, items)
    ensures PopMany(t, d, k, |items|).0 == s && AnswersInTurn(d, PopMany(t, d, k, |items|).1, items)
  {
    PopManyLaw(t, d, k, |items|, items);
    var u := PopMany(t, d, k, |items|).0;
    assert HasItems(u, k, []);
    Back(s, t, u, k);
  }

  lemma Back(s: State, t: State, u: State, k: Key)
    requires k !in s.keys && k !in u.keys && OnlyAt(s, t, {k}) && OnlyAt(t, u, {k})
    ensures u == s
  {
    forall j ensures (j in u.keys <==> j in s.keys) && (j in s.keys ==> u.keys[j] == s.keys[j]) {
      assert j != k ==> SameKey(s, t, j) && SameKey(t, u, j);
    }
  }

  lemma PushNew(s: State, d: Direction, k: Key, xs: seq<Bytes>, ys: seq<Bytes>)
    requires k !in s.keys && Admissible(s, DequePush(d, k, xs)) && Lined(d, xs, ys)
    ensures var t := Step(s, DequePush(d, k, xs)).state; OnlyAt(s, t, {k}) && !NotDeque(t, k) && HasItems(t, k, ys)
  {
    var none: seq<Bytes> := [];
    assert (if d == Left then ys + none else none + ys) == ys;
    PushLaw(s, d, k, xs, none, ys);
  }

  lemma TurnedRound(d: Direction, e: Direction, replies: seq<Reply>, xs: seq<Bytes>, ys: seq<Bytes>)
    requires Lined(d, xs, ys) && AnswersInTurn(e, replies, ys)
    ensures AnswersInTurn(if d == e then Right else Left, replies, xs)
  {
    forall i | 0 <= i < |xs| ensures replies[i] == Bulk(xs[Nth(if d == e then Right else Left, i, |xs|)]) {
      assert replies[i] == Bulk(ys[Nth(e, i, |ys|)]);
      assert ys[Nth(e, i, |ys|)] == xs[Nth(Opposite(d), Nth(e, i, |ys|), |xs|)];
    }
  }

  /**
   * First in, first out: what is pushed at one end of a new deque is popped at the other end in the same order,
   * and the store is as before.
   */
  lemma FirstInFirstOut(s: State, d: Direction, k: Key, xs: seq<Bytes>)
    requires k !in s.keys && Admissible(s, DequePush(d, k, xs))
    ensures var t := Step(s, DequePush(d, k, xs)).state;
      PopMany(t, Opposite(d), k, |xs|).0 == s && AnswersInTurn(Left, PopMany(t, Opposite(d), k, |xs|).1, xs)
  {
    var ys := if d == Left then Reversed(xs) else xs;
    LinedUp(d, xs, ys);
    PushNew(s, d, k, xs, ys);
    PopAllOf(s, Step(s, DequePush(d, k, xs)).state, Opposite(d), k, ys);
    TurnedRound(d, Opposite(d), PopMany(Step(s, DequePush(d, k, xs)).state, Opposite(d), k, |xs|).1, xs, ys);
  }

  /** Last in, first out at the same end. */
  lemma LastInFirstOut(s: State, d: Direction, k: Key, xs: seq<Bytes>)
    requires k !in s.keys && Admissible(s, DequePush(d, k, xs))
    ensures var t := Step(s, DequePush(d, k, xs)).state;
      PopMany(t, d, k, |xs|).0 == s && AnswersInTurn(Right, PopMany(t, d, k, |xs|).1, xs)
  {
    var ys := if d == Left then Reversed(xs) else xs;
    LinedUp(d, xs, ys);
    PushNew(s, d, k, xs, ys);
    PopAllOf(s, Step(s, DequePush(d, k, xs)).state, d, k, ys);
    TurnedRound(d, d, PopMany(Step(s, DequePush(d, k, xs)).state, d, k, |xs|).1, xs, ys);
  }

  /** Trimming keeps the last items, as many as asked, and answers how many it removed. */
  lemma TrimLaw(s: State, k: Key, n: nat, items: seq<Bytes>)
    requires !NotDeque(s, k) ==> HasItems(s, k, items)
    ensures var o := Step(s, DequeTrimFront(k, n));
      if NotDeque(s, k) then o == Outcome(s, WrongType)
      else if |items| <= n then o == Outcome(s, Count(0))
      else
        && o.reply == Count(|items| - n) && OnlyAt(s, o.state, {k})
        && HasItems(o.state, k, items[|items| - n..])
  {
    if !NotDeque(s, k) && |items| > n {
      WithDeque(s, k, items[|items| - n..], s.keys[k].start + |items| - n);
    }
  }

  /** How many items of the deque lie in front of the cursor; without one, or with one behind the end, all. */
  function InFront(v: Value, cursor: Option<int>): int
    requires v.VDeque?
  {
    if cursor.None? || cursor.value > v.start + |v.items| then |v.items| else cursor.value - v.start - 1
  }

  /**
   * A page is the last `count` items in front of the cursor, or all of them if there are no more; the new cursor
   * is the index of its first item if there are more in front, and otherwise there is none.
   */
  lemma PageLaw(s: State, k: Key, cursor: Option<int>, count: nat)
    requires k in s.keys && s.keys[k].VDeque? && s.keys[k].items != []
    requires cursor.Some? ==> s.keys[k].start + 1 < cursor.value
    requires count <= s.keys[k].start + 1 + InFront(s.keys[k], cursor)
    ensures var v, n, page := s.keys[k], InFront(s.keys[k], cursor), ScanPage(s, k, cursor, count);
      && 0 < n <= |v.items|
      && page == if n <= count then (v.items[..n], None) else (v.items[n - count..n], Some(v.start + 1 + n - count))
  {
    var v, n := s.keys[k], InFront(s.keys[k], cursor);
    ScanPageAt(s, k, cursor, count, v.start, v.start + |v.items| + 1, v.start + 1 + n, v.start + 1 + n - count);
  }

  /** A deque that is not there has one page, which is empty. */
  lemma NoPage(s: State, k: Key, cursor: Option<int>, count: int)
    requires k !in s.keys
    ensures ScanPage(s, k, cursor, count) == ([], None)
  {
  }

  // ---------------------------------------------------------------- deletion

  /** DEL removes the keys named, of whatever type, and answers how many of them there were. */
  lemma DelLaw(s: State, ks: seq<Key>, k: Key)
    ensures var o := Step(s, Del(ks));
      && o.reply == Count(|set j | j in ks && j in s.keys|)
      && (if k in ks then k !in o.state.keys else SameKey(s, o.state, k))
      && (k in o.state.touched <==> k in s.touched && k !in ks)
      && o.state.clock == s.clock && o.state.lastApplied == s.lastApplied && o.state.revisions == s.revisions
  {
    DelAllKeeps(s, ks, k);
    DelCount(s, ks);
  }

  lemma DelCount(s: State, ks: seq<Key>)
    ensures |s.keys| - |DelAll(s, ks).keys| == |set j | j in ks && j in s.keys|
  {
    DelAllRemoves(s, ks);
    RemovedCount(s.keys, ks);
  }

  lemma {:induction false} DelAllRemoves(s: State, ks: seq<Key>)
    ensures DelAll(s, ks).keys == RemoveAll(s.keys, ks)
  {
    if ks != [] { DelAllRemoves(s, ks[..|ks| - 1]); }
  }

  /** FLUSHALL removes all keys; the clock, the last applied index and what was recorded stay. */
  lemma FlushAllLaw(s: State)
    ensures Step(s, FlushAll) == Outcome(State(map[], s.clock, s.lastApplied, {}, s.revisions), Ok)
  {
  }

  /** A commit leaves every key and the clock alone, and begins a new transaction. */
  lemma CommitLaw(s: State, index: int)
    ensures CommitSpec(s, index) == State(s.keys, s.clock, if index > 0 then index else s.lastApplied, {}, map[])
  {
  }

  // ---------------------------------------------------------------- what is stored

  /** The descriptor of each kind of key: its type, how many elements or bytes it has, and two numbers. */
  lemma StoredDescriptor(v: Value)
    ensures DescriptorOf(v) == match v
      case VString(t) => KeyDescriptor(TString, |t|, 9223372036854775807, 9223372036854775807)
      case VHash(m) => KeyDescriptor(THash, |m|, 9223372036854775807, 9223372036854775807)
      case VSet(m) => KeyDescriptor(TSet, |m|, 9223372036854775807, 9223372036854775807)
      case VDeque(items, start) => KeyDescriptor(TDeque, |items|, start, start + |items| + 1)
      case VLocalityHash(m) => KeyDescriptor(TLocalityHash, |m|, 9223372036854775807, 9223372036854775807)
      case VLease(holder, from, until) => KeyDescriptor(TLease, |holder|, from, until)
      case VVersionedHash(m, version) => KeyDescriptor(TVersionedHash, |m|, version, 9223372036854775807)
  {
  }

  /**
   * The other records of a key: those that a database holds for it, in every representation of the store.
   * A value of another type has none of them.
   */
  lemma StoredRecords(
    db: map<Locator, Record>, batch: map<Locator, Staged>, s: State, k: Key, f: Field, h: Hint, i: int)
    requires Represents(db, batch, s) && k in s.keys
    ensures match s.keys[k]
      case VString(t) => Lookup(db, batch, At(k, Text)) == Some(Raw(t))
      case VHash(m) => Lookup(db, batch, At(k, Entry(THash, f))) == if f in m then Some(Raw(m[f])) else None
      case VSet(m) => Lookup(db, batch, At(k, Entry(TSet, f))) == if f in m then Some(Raw([49])) else None
      case VDeque(items, start) =>
        Lookup(db, batch, At(k, Item(start + i))) == if 1 <= i <= |items| then Some(Raw(items[i - 1])) else None
      case VLocalityHash(m) =>
        && Lookup(db, batch, At(k, LocalityIndex(f))) == (if f in m then Some(Raw(m[f].hint)) else None)
        && Lookup(db, batch, At(k, LocalityData(h, f)))
          == if f in m && m[f].hint == h then Some(Raw(m[f].value)) else None
      case VLease(holder, _, until) =>
        && Lookup(db, batch, At(k, LeaseHolder)) == Some(Raw(holder))
        && Lookup(db, batch, At(k, ExpirationEvent(i))) == if i == until then Some(Raw([49])) else None
      case VVersionedHash(m, _) =>
        Lookup(db, batch, At(k, Entry(TVersionedHash, f))) == if f in m then Some(Raw(m[f])) else None
  {
    assert Lookup(db, batch, At(k, Text)) == Encode(s, At(k, Text));
    assert forall t :: Lookup(db, batch, At(k, Entry(t, f))) == Encode(s, At(k, Entry(t, f)));
    var j := if s.keys[k].VDeque? then s.keys[k].start + i else i;
    assert Lookup(db, batch, At(k, Item(j))) == Encode(s, At(k, Item(j)));
    assert Lookup(db, batch, At(k, LocalityIndex(f))) == Encode(s, At(k, LocalityIndex(f)));
    assert Lookup(db, batch, At(k, LocalityData(h, f))) == Encode(s, At(k, LocalityData(h, f)));
    assert Lookup(db, batch, At(k, LeaseHolder)) == Encode(s, At(k, LeaseHolder));
    assert Lookup(db, batch, At(k, ExpirationEvent(i))) == Encode(s, At(k, ExpirationEvent(i)));
  }
}
