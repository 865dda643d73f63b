/**
 * What the publisher (src/pubsub/Publisher.cc) does with the iterators: removing all listeners, and
 * how a search can fail to end when two threads remove them at once.
 */
module Publisher {
  import opened Bytes
  import opened StagedIteration
  import opened MultiMap

  lemma FrontIsPresent<T(!new)>(stage: seq<T>, present: set<T>, less: (T, T) -> bool)
    requires stage != [] && InFront(stage, present, less)
    ensures stage[0] in present
  {
  }

  method EraseCurrent<K(==, !new), V(==, !new)>(it: FullIterator<K, V>)
    requires it.Sane() && it.isValid && it.AtFirst()
    modifies it.target
    ensures it.Sane() && it.AtErased()
    ensures (it.keyIter.stage[0], it.matchIter.stage[0]) in old(Pairs(it.target.contents))
    ensures Pairs(it.target.contents) == old(Pairs(it.target.contents)) - {(it.keyIter.stage[0], it.matchIter.stage[0])}
  {
    var key, value := it.matchIter.targetKey, it.matchIter.stage[0];
    FrontIsPresent(it.matchIter.stage, ValuesOf(it.target.contents, key), it.target.valueLess);
    RemovedParts(it.target.contents, key, value);
    var existed := it.target.Erase(key, value);
  }

  /** The current pair was erased and nobody else is at work: the search ends, at the first pair that is left. */
  method NextAfterErase<K(==, !new), V(==, !new)>(it: FullIterator<K, V>)
    requires it.Sane() && it.AtErased()
    modifies it, it.keyIter, it.matchIter
    ensures it.Sane() && it.AtFirst()
    ensures (it.matchIter != null && it.matchIter != old(it.matchIter) ==> fresh(it.matchIter))
  {
    ghost var keyLess, valueLess, keys := it.target.keyLess, it.target.valueLess, it.target.contents.Keys;
    ghost var key, keyStage, valueStage := it.keyIter.stage[0], it.keyIter.stage, it.matchIter.stage;
    ghost var values, more := ValuesOf(it.target.contents, key), it.MoreValues();
    StageAscending(it.keyIter.returned, keyStage, keyLess);
    StageAscending(it.matchIter.returned, valueStage, valueLess);
    WhatIsLeft(valueStage, values, valueLess);
    assert more <==> key in it.target.contents;
    assert more ==> keys + {key} == keys;
    it.Next();
    if more {
      NextInFront(valueStage, values, it.matchIter.stage, it.matchIter.stageSize, valueLess);
    } else {
      NextInFront(keyStage, keys, it.keyIter.stage, it.keyIter.stageSize, keyLess);
      if it.isValid {
        StageInFront(it.matchIter.stage, ValuesOf(it.target.contents, it.keyIter.stage[0]), it.valueStage, valueLess);
      } else {
        assert it.target.contents.Keys == {};
      }
    }
  }

  /** There are more values exactly if any are left. */
  lemma WhatIsLeft<T(!new)>(stage: seq<T>, present: set<T>, less: (T, T) -> bool)
    requires StrictOrder(less) && stage != [] && Ascending(stage, less) && InFront(stage, present + {stage[0]}, less)
    requires stage[0] !in present
    ensures |stage| > 1 || Above(present, Some(stage[0]), less) != {} <==> present != {}
  {
    if |stage| > 1 {
      assert less(stage[0], stage[1]) && stage[1] in present + {stage[0]};
    } else {
      assert Above(present, Some(stage[0]), less) == present;
    }
  }

  ghost predicate Visited<T>(visited: seq<T>, left: set<T>, all: set<T>)
  {
    && (set p | p in visited) + left == all && (forall p :: p in visited ==> p !in left)
    && forall i, j :: 0 <= i < j < |visited| ==> visited[i] != visited[j]
  }

  lemma VisitOne<T>(visited: seq<T>, left: set<T>, all: set<T>, p: T)
    requires Visited(visited, left, all) && p in left
    ensures Visited(visited + [p], left - {p}, all)
  {
    assert (set q | q in visited + [p]) == (set q | q in visited) + {p};
  }

  /** One round of the loop: the pair the iterator stands at is visited, erased and left behind. */
  method PurgeOne<K(==, !new), V(==, !new)>(it: FullIterator<K, V>) returns (pair: (K, V))
    requires it.Sane() && it.isValid && it.AtFirst()
    modifies it, it.keyIter, it.matchIter, it.target
    ensures it.Sane() && it.AtFirst()
    ensures (it.matchIter != null && it.matchIter != old(it.matchIter) ==> fresh(it.matchIter))
    ensures pair in old(Pairs(it.target.contents))
    ensures Pairs(it.target.contents) == old(Pairs(it.target.contents)) - {pair}
  {
    pair := (it.keyIter.stage[0], it.matchIter.stage[0]);
    EraseCurrent(it);
    NextAfterErase(it);
  }

  /**
   * purgeListeners (src/pubsub/Publisher.cc:59-69) when nobody else is at work: each pair is visited once,
   * and none is left.
   */
  method PurgeListeners<K(==, !new), V(==, !new)>(target: ThreadSafeMultiMap<K, V>, keyStage: nat, valueStage: nat)
    returns (visited: seq<(K, V)>)
    requires target.Valid() && StrictOrder(target.keyLess) && StrictOrder(target.valueLess) && keyStage > 0
    requires valueStage > 0
    modifies target
    ensures target.Valid() && target.contents == map[] && target.storedEntries == 0
    ensures (set p | p in visited) == old(Pairs(target.contents))
    ensures forall i, j :: 0 <= i < j < |visited| ==> visited[i] != visited[j]
  {
    visited := [];
    ghost var all := Pairs(target.contents);
    var it := new FullIterator(target, keyStage, valueStage);
    while it.isValid
      invariant it.target == target && it.Sane() && it.AtFirst() && fresh(it) && fresh(it.keyIter)
      invariant it.matchIter != null ==> fresh(it.matchIter)
      invariant Visited(visited, Pairs(target.contents), all)
      decreases |Pairs(target.contents)|
    {
      ghost var left := Pairs(target.contents);
      var pair := PurgeOne(it);
      VisitOne(visited, left, all, pair);
      visited := visited + [pair];
    }
    assert Pairs(target.contents) == {};
  }

  /**
   * A search that never ends can happen: two keys are staged, another thread erases the second, and the
   * iterator moves on from the first.
   */
  method StagedKeyErased<K(==, !new), V(==, !new)>(kl: (K, K) -> bool, vl: (V, V) -> bool, first: K, second: K, v: V)
    returns (it: FullIterator<K, V>)
    requires StrictOrder(kl) && StrictOrder(vl) && kl(first, second)
    ensures it.Sane() && it.isValid && it.keyIter.isValid && it.keyIter.stage == [second]
    ensures forall n: nat :: Running(Rounds(it.target.contents, it.Searching(), n))
  {
    var target := TwoKeys(kl, vl, first, second, v);
    it := Stage(target, first, second, v);
    var _ := target.Erase(second, v);
    assert target.contents.Keys == {first} && ValuesOf(target.contents, first) == {v};
    assert Above({v}, Some(v), vl) == {};
    var search := it.Advance();
    forall n: nat ensures Running(Rounds(it.target.contents, it.Searching(), n)) {
      SearchingForever(it.target.contents, it.Searching(), n);
    }
  }

  method TwoKeys<K(==, !new), V(==, !new)>(kl: (K, K) -> bool, vl: (V, V) -> bool, first: K, second: K, v: V)
    returns (target: ThreadSafeMultiMap<K, V>)
    requires StrictOrder(kl) && StrictOrder(vl) && kl(first, second)
    ensures fresh(target) && target.Valid() && target.keyLess == kl && target.valueLess == vl
    ensures target.contents == map[first := {v}, second := {v}]
  {
    target := new ThreadSafeMultiMap(kl, vl);
    var _ := target.Insert(first, v);
    var _ := target.Insert(second, v);
  }

  method Stage<K(==, !new), V(==, !new)>(target: ThreadSafeMultiMap<K, V>, first: K, second: K, v: V)
    returns (it: FullIterator<K, V>)
    requires target.Valid() && StrictOrder(target.keyLess) && StrictOrder(target.valueLess)
    requires target.keyLess(first, second)
    requires target.contents == map[first := {v}, second := {v}]
    ensures fresh(it) && fresh(it.keyIter) && it.target == target && it.Sane() && it.AtPair() && fresh(it.matchIter)
    ensures it.keyIter.stage == [first, second] && it.matchIter.stage == [v]
  {
    it := new FullIterator(target, 2, 1);
    assert target.contents.Keys == {first, second};
    TwoStaged(it.keyIter.stage, first, second, target.keyLess);
    assert ValuesOf(target.contents, first) == {v};
    OneStaged(it.matchIter.stage, v, target.valueLess);
  }

  lemma TwoStaged<K(!new)>(stage: seq<K>, first: K, second: K, less: (K, K) -> bool)
    requires StrictOrder(less) && less(first, second) && IsStage(stage, {first, second}, 2, less)
    ensures stage == [first, second]
  {
    assert |stage| > 0 ==> stage[0] in {first, second};
    assert |stage| > 1 ==> stage[1] in {first, second} && less(stage[0], stage[1]);
    if first !in stage || second !in stage {
      assert |stage| == 2;
    }
  }

  lemma OneStaged<V(!new)>(stage: seq<V>, v: V, less: (V, V) -> bool)
    requires StrictOrder(less) && IsStage(stage, {v}, 1, less)
    ensures stage == [v]
  {
    assert |stage| > 0 ==> stage[0] in {v};
  }
}
