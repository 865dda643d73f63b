/**
 * Walking through an ordered collection that others change meanwhile, as the iterators of
 * src/pubsub/ThreadSafeMultiMap.hh do: copy a few elements at a time into a stage, and when the
 * stage runs out look up what now comes after the last one.
 */
module StagedIteration {
  import opened Bytes

  /** The order of a std::map or std::set. */
  ghost predicate StrictOrder<T(!new)>(less: (T, T) -> bool)
  {
    && (forall a :: !less(a, a))
    && (forall a, b :: less(a, b) || less(b, a) || a == b)
    && (forall a, b, c {:trigger less(a, b), less(b, c)} :: less(a, b) && less(b, c) ==> less(a, c))
  }

  ghost predicate Ascending<T>(s: seq<T>, less: (T, T) -> bool)
  {
    forall i, j :: 0 <= i < j < |s| ==> less(s[i], s[j])
  }

  /** What upper_bound points at, and everything after it. */
  function Above<T(==, !new)>(present: set<T>, last: Option<T>, less: (T, T) -> bool): set<T>
  {
    set x | x in present && (last.Some? ==> less(last.value, x))
  }

  /** The first elements of a set, in order, as many as the stage holds. */
  ghost predicate IsStage<T>(stage: seq<T>, from: set<T>, size: nat, less: (T, T) -> bool)
  {
    && Ascending(stage, less) && |stage| <= size && (forall i :: 0 <= i < |stage| ==> stage[i] in from)
    && forall x :: x in from ==> x in stage || (|stage| == size && forall i :: 0 <= i < |stage| ==> less(stage[i], x))
  }

  method Smallest<T(==, !new)>(s: set<T>, less: (T, T) -> bool) returns (x: T)
    requires s != {} && StrictOrder(less)
    ensures x in s && forall y :: y in s && y != x ==> less(x, y)
  {
    x :| x in s;
    var rest := s - {x};
    while rest != {}
      invariant rest <= s && x in s && x !in rest
      invariant forall y :: y in s && y !in rest && y != x ==> less(x, y)
      decreases |rest|
    {
      var y :| y in rest;
      if less(y, x) {
        x := y;
      }
      rest := rest - {y};
    }
  }

  /** The loop of populateStage (src/pubsub/ThreadSafeMultiMap.hh:148-156, 254-261). */
  method Collect<T(==, !new)>(from: set<T>, size: nat, less: (T, T) -> bool) returns (stage: seq<T>)
    requires StrictOrder(less)
    ensures IsStage(stage, from, size, less)
  {
    stage := [];
    var rest := from;
    var i := 0;
    while i < size && rest != {}
      invariant i == |stage| <= size && rest <= from && Ascending(stage, less)
      invariant forall k :: 0 <= k < |stage| ==> stage[k] in from
      invariant forall x :: x in from ==> x in stage || x in rest
      invariant forall x, k :: x in rest && 0 <= k < |stage| ==> less(stage[k], x)
    {
      var x := Smallest(rest, less);
      stage := stage + [x];
      rest := rest - {x};
      i := i + 1;
    }
  }

  // ---------------------------------------------------------------- walks

  /** `returned` was handed out; `always` was there whenever the collection was looked at, `ever` at least once. */
  datatype Walk<T> = Walk(returned: seq<T>, stage: seq<T>, valid: bool, always: set<T>, ever: set<T>)

  ghost predicate Fits<T>(w: Walk<T>, less: (T, T) -> bool)
  {
    && Ascending(w.returned + w.stage, less)
    && (forall x :: x in w.returned + w.stage ==> x in w.ever)
    && (if w.valid then
          w.stage != [] && forall x :: x in w.always ==>
            x in w.returned || x in w.stage || less(w.stage[|w.stage| - 1], x)
        else
          w.stage == [] && forall x :: x in w.always ==> x in w.returned)
  }

  lemma BeginFits<T(!new)>(present: set<T>, size: nat, stage: seq<T>, less: (T, T) -> bool)
    requires StrictOrder(less) && size > 0 && IsStage(stage, Above(present, None, less), size, less)
    ensures Fits(Walk([], stage, stage != [], present, present), less)
  {
    assert forall x :: x in present ==> x in Above(present, None, less);
    assert [] + stage == stage;
  }

  /** The stage has more elements: no need to look at the collection. */
  lemma PopFits<T(!new)>(w: Walk<T>, less: (T, T) -> bool)
    requires Fits(w, less) && |w.stage| > 1
    ensures Fits(w.(returned := w.returned + [w.stage[0]], stage := w.stage[1..]), less)
  {
    assert w.returned + [w.stage[0]] + w.stage[1..] == w.returned + w.stage;
  }

  /**
   * The stage is down to its last element: whatever is there now, nothing that was there all along is skipped
   * or repeated.
   */
  lemma RefillFits<T(!new)>(w: Walk<T>, present: set<T>, size: nat, stage: seq<T>, less: (T, T) -> bool)
    requires StrictOrder(less) && Fits(w, less) && |w.stage| == 1 && size > 0
    requires IsStage(stage, Above(present, Some(w.stage[0]), less), size, less)
    ensures Fits(Walk(w.returned + [w.stage[0]], stage, stage != [], w.always * present, w.ever + present), less)
  {
    var last := w.stage[0];
    var from := Above(present, Some(last), less);
    var returned := w.returned + [last];
    assert returned == w.returned + w.stage;
    AscendingJoin(returned, stage, less);
    forall x | x in w.always * present ensures x in returned || x in from {
    }
  }

  lemma AscendingJoin<T(!new)>(a: seq<T>, b: seq<T>, less: (T, T) -> bool)
    requires StrictOrder(less) && Ascending(a, less) && Ascending(b, less)
    requires a != [] && forall i :: 0 <= i < |b| ==> less(a[|a| - 1], b[i])
    ensures Ascending(a + b, less)
  {
    var c := a + b;
    forall i, j | 0 <= i < j < |c| ensures less(c[i], c[j]) {
      if i < |a| <= j && i < |a| - 1 {
        assert less(a[i], a[|a| - 1]) && less(a[|a| - 1], b[j - |a|]);
      }
    }
  }

  /** When a walk is over, everything that was always there has been returned, in order, and nothing twice. */
  lemma WalkComplete<T(!new)>(w: Walk<T>, less: (T, T) -> bool)
    requires StrictOrder(less) && Fits(w, less) && !w.valid
    ensures (forall x :: x in w.always ==> x in w.returned) && Ascending(w.returned, less)
    ensures forall i, j :: 0 <= i < j < |w.returned| ==> w.returned[i] != w.returned[j]
  {
    assert w.returned + w.stage == w.returned;
  }
}
