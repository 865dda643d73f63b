/**
 * The index of subscriptions, from channel to connections (src/pubsub/ThreadSafeMultiMap.hh), and
 * its iterators. Each call takes the lock, so calls are atomic; between two calls of an iterator
 * other threads may have done anything to the map. That is why no iterator's Valid() reads it.
 */
module MultiMap {
  import opened Bytes
  import opened StagedIteration

  ghost function Pairs<K, V>(contents: map<K, set<V>>): set<(K, V)>
  {
    set k, v | k in contents && v in contents[k] :: (k, v)
  }

  ghost predicate NoEmptySet<K, V>(contents: map<K, set<V>>)
  {
    forall k :: k in contents ==> contents[k] != {}
  }

  function ValuesOf<K(==), V(==)>(contents: map<K, set<V>>, key: K): set<V>
  {
    if key in contents then contents[key] else {}
  }

  function Added<K(==), V(==)>(contents: map<K, set<V>>, key: K, value: V): map<K, set<V>>
  {
    contents[key := ValuesOf(contents, key) + {value}]
  }

  function Removed<K(==, !new), V(==)>(contents: map<K, set<V>>, key: K, value: V): map<K, set<V>>
  {
    if key !in contents then contents
    else if contents[key] - {value} == {} then map k | k in contents && k != key :: contents[k]
    else contents[key := contents[key] - {value}]
  }

  lemma PairsAdded<K, V>(contents: map<K, set<V>>, key: K, value: V)
    requires NoEmptySet(contents)
    ensures NoEmptySet(Added(contents, key, value))
    ensures Pairs(Added(contents, key, value)) == Pairs(contents) + {(key, value)}
  {
    var after := Added(contents, key, value);
    forall p: (K, V) ensures p in Pairs(after) <==> p in Pairs(contents) || p == (key, value) {
      var (k, v) := p;
      assert k != key ==> (k in after <==> k in contents) && (k in after ==> after[k] == contents[k]);
    }
  }

  lemma PairsRemoved<K(!new), V>(contents: map<K, set<V>>, key: K, value: V)
    requires NoEmptySet(contents)
    ensures NoEmptySet(Removed(contents, key, value))
    ensures Pairs(Removed(contents, key, value)) == Pairs(contents) - {(key, value)}
  {
    var after := Removed(contents, key, value);
    forall p: (K, V) ensures p in Pairs(after) <==> p in Pairs(contents) && p != (key, value) {
      var (k, v) := p;
      assert k != key ==> (k in after <==> k in contents) && (k in after ==> after[k] == contents[k]);
      if key in contents && v in contents[key] && v != value {
        assert v in contents[key] - {value};
      }
    }
  }

  /** What is left of a key, and of the keys, with the pair put back. */
  lemma RemovedParts<K(!new), V>(contents: map<K, set<V>>, key: K, value: V)
    requires value in ValuesOf(contents, key)
    ensures ValuesOf(Removed(contents, key, value), key) + {value} == ValuesOf(contents, key)
    ensures value !in ValuesOf(Removed(contents, key, value), key)
    ensures Removed(contents, key, value).Keys + {key} == contents.Keys
    ensures (key, value) in Pairs(contents)
  {
    var rest := contents[key] - {value};
    assert rest + {value} == contents[key];
  }

  class ThreadSafeMultiMap<K(==, !new), V(==, !new)> {
    var contents: map<K, set<V>>
    var storedEntries: int
    const keyLess: (K, K) -> bool
    const valueLess: (V, V) -> bool

    /** No empty set is kept, and the counter is the number of pairs. */
    ghost predicate Valid()
      reads this
    {
      NoEmptySet(contents) && storedEntries == |Pairs(contents)|
    }

    constructor (kl: (K, K) -> bool, vl: (V, V) -> bool)
      ensures Valid() && contents == map[] && keyLess == kl && valueLess == vl
    {
      contents, storedEntries, keyLess, valueLess := map[], 0, kl, vl;
      new;
      assert Pairs(contents) == {};
    }

    /** insert (src/pubsub/ThreadSafeMultiMap.hh:50-55). */
    method Insert(key: K, value: V) returns (isNew: bool)
      requires Valid()
      modifies this
      ensures Valid() && contents == Added(old(contents), key, value)
      ensures Pairs(contents) == old(Pairs(contents)) + {(key, value)}
      ensures isNew <==> (key, value) !in old(Pairs(contents))
    {
      PairsAdded(contents, key, value);
      ghost var before, after := Pairs(contents), Added(contents, key, value);
      var values := if key in contents then contents[key] else {};
      isNew := value !in values;
      assert isNew <==> (key, value) !in Pairs(contents);
      contents := contents[key := values + {value}];
      storedEntries := storedEntries + if isNew then 1 else 0;
      assert contents == after && (!isNew ==> Pairs(after) == before);
    }

    /** erase (src/pubsub/ThreadSafeMultiMap.hh:60-76). */
    method Erase(key: K, value: V) returns (existed: bool)
      requires Valid()
      modifies this
      ensures Valid() && contents == Removed(old(contents), key, value)
      ensures Pairs(contents) == old(Pairs(contents)) - {(key, value)}
      ensures existed <==> (key, value) in old(Pairs(contents))
    {
      PairsRemoved(contents, key, value);
      if key !in contents {
        return false;
      }
      var values := contents[key];
      existed := value in values;
      storedEntries := storedEntries - if existed then 1 else 0;
      contents := if values - {value} == {} then map k | k in contents && k != key :: contents[k]
        else contents[key := values - {value}];
    }
  }

  /** Iterates over the keys (src/pubsub/ThreadSafeMultiMap.hh:90-169). */
  class KeyIterator<K(==, !new), V(==, !new)> {
    const target: ThreadSafeMultiMap<K, V>
    const stageSize: nat
    var stage: seq<K>
    var isValid: bool
    ghost var returned: seq<K>
    ghost var always: set<K>
    ghost var ever: set<K>

    ghost predicate Valid()
      reads this
    {
      stageSize > 0 && StrictOrder(target.keyLess) && Fits(Walk(returned, stage, isValid, always, ever), target.keyLess)
    }

    constructor (trg: ThreadSafeMultiMap<K, V>, size: nat)
      requires size > 0 && StrictOrder(trg.keyLess)
      ensures Valid() && target == trg && stageSize == size && returned == [] && always == ever == trg.contents.Keys
      ensures IsStage(stage, trg.contents.Keys, size, trg.keyLess)
    {
      target, stageSize := trg, size;
      var from := Above(trg.contents.Keys, None, trg.keyLess);
      assert from == trg.contents.Keys;
      var first := Collect(from, size, trg.keyLess);
      stage, isValid := first, first != [];
      returned, always, ever := [], trg.contents.Keys, trg.contents.Keys;
      BeginFits(trg.contents.Keys, size, first, trg.keyLess);
    }

    /** next (src/pubsub/ThreadSafeMultiMap.hh:117-125), whatever has become of the map. */
    method Next()
      requires Valid() && isValid
      modifies this
      ensures Valid() && returned == old(returned) + [old(stage)[0]]
      ensures old(always) * target.contents.Keys <= always <= old(always) && ever <= old(ever) + target.contents.Keys
      ensures if |old(stage)| > 1 then stage == old(stage)[1..]
        else IsStage(stage, Above(target.contents.Keys, Some(old(stage)[0]), target.keyLess), stageSize, target.keyLess)
    {
      ghost var w := Walk(returned, stage, isValid, always, ever);
      returned := returned + [stage[0]];
      if |stage| > 1 {
        PopFits(w, target.keyLess);
        stage := stage[1..];
        return;
      }
      var present := target.contents.Keys;
      var from := Above(present, Some(stage[0]), target.keyLess);
      var refill := Collect(from, stageSize, target.keyLess);
      RefillFits(w, present, stageSize, refill, target.keyLess);
      stage, isValid := refill, refill != [];
      always, ever := always * present, ever + present;
    }
  }

  /** Iterates over the values of one key (src/pubsub/ThreadSafeMultiMap.hh:175-274). */
  class MatchIterator<K(==, !new), V(==, !new)> {
    const target: ThreadSafeMultiMap<K, V>
    const targetKey: K
    const stageSize: nat
    var stage: seq<V>
    var isValid: bool
    ghost var returned: seq<V>
    ghost var always: set<V>
    ghost var ever: set<V>

    ghost predicate Valid()
      reads this
    {
      stageSize > 0 && StrictOrder(target.valueLess)
        && Fits(Walk(returned, stage, isValid, always, ever), target.valueLess)
    }

    constructor (trg: ThreadSafeMultiMap<K, V>, key: K, size: nat)
      requires size > 0 && StrictOrder(trg.valueLess)
      ensures Valid() && target == trg && targetKey == key && stageSize == size && returned == []
      ensures always == ever == ValuesOf(trg.contents, key)
      ensures IsStage(stage, ValuesOf(trg.contents, key), size, trg.valueLess)
    {
      target, targetKey, stageSize := trg, key, size;
      var present := ValuesOf(trg.contents, key);
      var from := Above(present, None, trg.valueLess);
      assert from == present;
      var first := Collect(from, size, trg.valueLess);
      stage, isValid := first, first != [];
      returned, always, ever := [], present, present;
      BeginFits(present, size, first, trg.valueLess);
    }

    /** next (src/pubsub/ThreadSafeMultiMap.hh:210-218), whatever has become of the map. */
    method Next()
      requires Valid() && isValid
      modifies this
      ensures Valid() && returned == old(returned) + [old(stage)[0]]
      ensures var present := ValuesOf(target.contents, targetKey);
        old(always) * present <= always <= old(always) && ever <= old(ever) + present
      ensures if |old(stage)| > 1 then stage == old(stage)[1..]
        else IsStage(stage, Above(ValuesOf(target.contents, targetKey), Some(old(stage)[0]), target.valueLess),
          stageSize, target.valueLess)
    {
      ghost var w := Walk(returned, stage, isValid, always, ever);
      returned := returned + [stage[0]];
      if |stage| > 1 {
        PopFits(w, target.valueLess);
        stage := stage[1..];
        return;
      }
      var present := ValuesOf(target.contents, targetKey);
      var from := Above(present, Some(stage[0]), target.valueLess);
      var refill := Collect(from, stageSize, target.valueLess);
      RefillFits(w, present, stageSize, refill, target.valueLess);
      stage, isValid := refill, refill != [];
      always, ever := always * present, ever + present;
    }
  }

  // ---------------------------------------------------------------- without interference

  /** The stage holds the first elements of what is there: nothing comes before it. */
  ghost predicate InFront<T>(stage: seq<T>, present: set<T>, less: (T, T) -> bool)
  {
    && (forall i :: 0 <= i < |stage| ==> stage[i] in present)
    && forall x :: x in present ==> x in stage || (stage != [] && less(stage[|stage| - 1], x))
  }

  lemma StageInFront<T(!new)>(stage: seq<T>, present: set<T>, size: nat, less: (T, T) -> bool)
    requires IsStage(stage, present, size, less) && size > 0
    ensures InFront(stage, present, less) && (stage == [] <==> present == {})
  {
    if stage != [] {
      assert stage[0] in present;
    }
  }

  /** Once the first element is gone from the collection, the next stage is again in front. */
  lemma NextInFront<T(!new)>(stage: seq<T>, present: set<T>, next: seq<T>, size: nat, less: (T, T) -> bool)
    requires StrictOrder(less) && size > 0 && stage != [] && Ascending(stage, less)
    requires InFront(stage, present + {stage[0]}, less)
    requires stage[0] !in present
    requires if |stage| > 1 then next == stage[1..] else IsStage(next, Above(present, Some(stage[0]), less), size, less)
    ensures InFront(next, present, less) && (next == [] <==> present == {})
  {
    if |stage| > 1 {
      forall i | 0 <= i < |next| ensures next[i] in present {
        assert next[i] == stage[i + 1] && less(stage[0], stage[i + 1]);
        assert stage[i + 1] in present + {stage[0]};
      }
      forall x | x in present ensures x in next || less(next[|next| - 1], x) {
        assert next[|next| - 1] == stage[|stage| - 1];
        if x in stage {
          var i :| 0 <= i < |stage| && stage[i] == x;
          assert i > 0 && next[i - 1] == x;
        }
      }
      assert next[0] in present;
    } else {
      assert Above(present, Some(stage[0]), less) == present;
      StageInFront(next, present, size, less);
    }
  }

  /** Iterates over all pairs (src/pubsub/ThreadSafeMultiMap.hh:281-372). */
  class FullIterator<K(==, !new), V(==, !new)> {
    const target: ThreadSafeMultiMap<K, V>
    const valueStage: nat
    const keyIter: KeyIterator<K, V>
    var matchIter: MatchIterator?<K, V>
    var isValid: bool

    ghost predicate Sane()
      reads this, keyIter, target
    {
      && target.Valid() && StrictOrder(target.valueLess) && valueStage > 0
      && keyIter.target == target && keyIter.Valid()
    }

    /** The two iterators stand at the same key. */
    ghost predicate AtPair()
      reads this, keyIter, matchIter
    {
      && isValid && keyIter.isValid && keyIter.stage != []
      && matchIter != null && matchIter.isValid && matchIter.stage != [] && matchIter.target == target
        && matchIter.Valid()
      && matchIter.targetKey == keyIter.stage[0]
    }

    /** Nobody else has touched the map: the iterator stands at the first pair that is left. */
    ghost predicate AtFirst()
      reads this, keyIter, matchIter, target
    {
      if !isValid then target.contents == map[]
      else
        && AtPair() && InFront(keyIter.stage, target.contents.Keys, target.keyLess)
        && InFront(matchIter.stage, ValuesOf(target.contents, keyIter.stage[0]), target.valueLess)
    }

    /** The same, with the pair that the iterator stands at taken out. */
    ghost predicate AtErased()
      reads this, keyIter, matchIter, target
    {
      && AtPair() && InFront(keyIter.stage, target.contents.Keys + {keyIter.stage[0]}, target.keyLess)
      && var values := ValuesOf(target.contents, keyIter.stage[0]);
        matchIter.stage[0] !in values && InFront(matchIter.stage, values + {matchIter.stage[0]}, target.valueLess)
    }

    /** The loop of findValidMatchIter, about to begin. */
    ghost function Searching(): Search<K>
      reads this, keyIter
    {
      Search(keyIter.stage, keyIter.isValid, false, false)
    }

    constructor (trg: ThreadSafeMultiMap<K, V>, keyStage: nat, values: nat)
      requires trg.Valid() && StrictOrder(trg.keyLess) && StrictOrder(trg.valueLess) && keyStage > 0 && values > 0
      ensures Sane() && AtFirst() && target == trg && fresh(keyIter) && (matchIter != null ==> fresh(matchIter))
      ensures keyIter.stageSize == keyStage && IsStage(keyIter.stage, trg.contents.Keys, keyStage, trg.keyLess)
      ensures isValid ==> IsStage(matchIter.stage, ValuesOf(trg.contents, keyIter.stage[0]), values, trg.valueLess)
      ensures isValid ==> matchIter.stageSize == values
    {
      target, valueStage, isValid, matchIter := trg, values, true, null;
      keyIter := new KeyIterator(trg, keyStage);
      new;
      StageInFront(keyIter.stage, target.contents.Keys, keyStage, target.keyLess);
      FindValidMatchIter();
      if isValid {
        StageInFront(matchIter.stage, ValuesOf(target.contents, keyIter.stage[0]), valueStage, target.valueLess);
      } else {
        assert target.contents.Keys == {};
      }
    }

    /** One round of the loop in findValidMatchIter; the key iterator stays where it is. */
    method SearchRound() returns (found: bool, over: bool)
      requires Sane() && isValid
      modifies this
      ensures Sane() && isValid == !over && (over ==> matchIter == old(matchIter))
      ensures Search(keyIter.stage, keyIter.isValid, found, over) == Round(target.contents, Searching())
      ensures found ==> AtPair() && fresh(matchIter) && matchIter.stageSize == valueStage
      ensures found ==>
        IsStage(matchIter.stage, ValuesOf(target.contents, keyIter.stage[0]), valueStage, target.valueLess)
    {
      if !keyIter.isValid {
        isValid := false;
        return false, true;
      }
      var key := keyIter.stage[0];
      matchIter := new MatchIterator(target, key, valueStage);
      StageInFront(matchIter.stage, ValuesOf(target.contents, key), valueStage, target.valueLess);
      return matchIter.isValid, false;
    }

    /** findValidMatchIter (src/pubsub/ThreadSafeMultiMap.hh:356-367), when its loop ends: see SearchingForever. */
    method FindValidMatchIter()
      requires Sane() && isValid && (keyIter.isValid ==> keyIter.stage[0] in target.contents)
      modifies this
      ensures Sane() && (isValid <==> keyIter.isValid)
      ensures isValid ==> AtPair() && fresh(matchIter) && matchIter.stageSize == valueStage
      ensures isValid ==>
        IsStage(matchIter.stage, ValuesOf(target.contents, keyIter.stage[0]), valueStage, target.valueLess)
      ensures !isValid ==> matchIter == old(matchIter)
    {
      var found, over := SearchRound();
      assert found || over;
    }

    /** The key has values behind the current one. */
    ghost predicate MoreValues()
      reads this, keyIter, matchIter, target
      requires AtPair()
    {
      || |matchIter.stage| > 1
      || Above(ValuesOf(target.contents, keyIter.stage[0]), Some(matchIter.stage[0]), target.valueLess) != {}
    }

    /** The next key in the stage, if it is needed, has not been erased. */
    ghost predicate SearchEnds()
      reads this, keyIter, matchIter, target
      requires AtPair()
    {
      MoreValues() || |keyIter.stage| == 1 || keyIter.stage[1] in target.contents
    }

    /** The first part of next (src/pubsub/ThreadSafeMultiMap.hh:311-332): the next value, or else the next key. */
    method Advance() returns (search: bool)
      requires Sane() && AtPair()
      modifies keyIter, matchIter
      ensures Sane() && search == !old(MoreValues())
      ensures !search ==> AtPair() && keyIter.stage == old(keyIter.stage) && keyIter.returned == old(keyIter.returned)
      ensures !search ==> if old(|matchIter.stage|) > 1 then matchIter.stage == old(matchIter.stage)[1..]
        else IsStage(matchIter.stage,
          Above(ValuesOf(target.contents, keyIter.stage[0]), Some(old(matchIter.stage[0])), target.valueLess),
                     matchIter.stageSize, target.valueLess)
      ensures search ==> keyIter.returned == old(keyIter.returned) + [old(keyIter.stage[0])]
      ensures search ==> if old(|keyIter.stage|) > 1 then keyIter.stage == old(keyIter.stage)[1..]
        else IsStage(keyIter.stage, Above(target.contents.Keys, Some(old(keyIter.stage[0])), target.keyLess),
                     keyIter.stageSize, target.keyLess)
    {
      ghost var stage, values := matchIter.stage, ValuesOf(target.contents, keyIter.stage[0]);
      matchIter.Next();
      if |stage| == 1 {
        StageInFront(matchIter.stage, Above(values, Some(stage[0]), target.valueLess), matchIter.stageSize,
          target.valueLess);
      }
      search := !matchIter.isValid;
      if search {
        keyIter.Next();
      }
    }

    /** next, whatever others have done to the map, as long as the search for the next key ends. */
    method Next()
      requires Sane() && AtPair() && SearchEnds()
      modifies this, keyIter, matchIter
      ensures Sane() && (if isValid then AtPair() else !keyIter.isValid)
      ensures isValid && matchIter != old(matchIter) ==> fresh(matchIter)
      ensures !isValid ==> matchIter == old(matchIter)
      ensures keyIter.returned == if old(MoreValues()) then old(keyIter.returned)
        else old(keyIter.returned) + [old(keyIter.stage[0])]
      ensures old(MoreValues()) ==> isValid && matchIter == old(matchIter) && keyIter.stage == old(keyIter.stage)
      ensures old(MoreValues()) ==>
        if old(|matchIter.stage|) > 1 then matchIter.stage == old(matchIter.stage)[1..]
        else IsStage(matchIter.stage,
          Above(ValuesOf(target.contents, keyIter.stage[0]), Some(old(matchIter.stage[0])), target.valueLess),
                     matchIter.stageSize, target.valueLess)
      ensures !old(MoreValues()) ==>
        if old(|keyIter.stage|) > 1 then keyIter.stage == old(keyIter.stage)[1..]
        else IsStage(keyIter.stage, Above(target.contents.Keys, Some(old(keyIter.stage[0])), target.keyLess),
                     keyIter.stageSize, target.keyLess)
      ensures !old(MoreValues()) && isValid ==>
        IsStage(matchIter.stage, ValuesOf(target.contents, keyIter.stage[0]), valueStage, target.valueLess)
    {
      var search := Advance();
      if search {
        FindValidMatchIter();
      }
    }
  }

  /** The state of the loop in findValidMatchIter: the key iterator, and whether the loop has ended, and how. */
  datatype Search<K> = Search(stage: seq<K>, keysValid: bool, found: bool, over: bool)

  ghost predicate Running<K>(x: Search<K>)
  {
    !x.found && !x.over
  }

  ghost function Round<K, V>(contents: map<K, set<V>>, x: Search<K>): Search<K>
  {
    if !Running(x) then x
    else if !x.keysValid || x.stage == [] then x.(over := true)
    else x.(found := ValuesOf(contents, x.stage[0]) != {})
  }

  ghost function Rounds<K, V>(contents: map<K, set<V>>, x: Search<K>, n: nat): Search<K>
  {
    if n == 0 then x else Round(contents, Rounds(contents, x, n - 1))
  }

  /**
   * Nothing advances the key iterator in the loop: it goes on for ever exactly if the key in front has been
   * erased meanwhile.
   */
  lemma {:induction false} SearchingForever<K, V>(contents: map<K, set<V>>, x: Search<K>, n: nat)
    requires NoEmptySet(contents) && Running(x) && (x.keysValid ==> x.stage != [])
    ensures if x.keysValid && x.stage[0] !in contents then Rounds(contents, x, n) == x
            else n > 0 ==> !Running(Rounds(contents, x, n))
  {
    if n > 0 {
      SearchingForever(contents, x, n - 1);
      if n == 1 {
        assert Rounds(contents, x, 0) == x;
      }
    }
  }


  lemma StageAscending<T(!new)>(returned: seq<T>, stage: seq<T>, less: (T, T) -> bool)
    requires Ascending(returned + stage, less)
    ensures Ascending(stage, less)
  {
    var all := returned + stage;
    forall i, j | 0 <= i < j < |stage| ensures less(stage[i], stage[j]) {
      assert stage[i] == all[|returned| + i] && stage[j] == all[|returned| + j];
    }
  }
}
