/**
 * What each command of src/StateMachine.cc (and the composite commands of
 * src/Dispatcher.cc) does to the abstract store, and a step function over all of them.
 */
module StoreSpec {
  import opened Bytes
  import opened StoreModel

  datatype Direction = Left | Right

  datatype Reply =
    | Ok
    | WrongType
    | NotFound
    | TargetExists
    | Malformed
    | Count(n: int)
    | Bulk(value: Bytes)
    | Version(version: int)
    | LeaseAcquired(info: LeaseInfo)
    | LeaseRenewed(info: LeaseInfo)
    | LeaseHeld(info: LeaseInfo)
    | LeaseShown(info: LeaseInfo)

  datatype LeaseInfo = LeaseInfo(holder: Bytes, from: int, until: int)

  datatype Outcome = Outcome(state: State, reply: Reply)

  datatype Placement = Placement(field: Field, hint: Hint, value: Bytes)

  datatype Command =
    | Set(key: Key, value: Bytes)
    | Hset(key: Key, field: Field, value: Bytes)
    | Hmset(key: Key, pairs: seq<Update>)
    | Hsetnx(key: Key, field: Field, value: Bytes)
    | Hdel(key: Key, fields: seq<Field>)
    | Hclone(source: Key, target: Key)
    | Sadd(key: Key, fields: seq<Field>)
    | Srem(key: Key, fields: seq<Field>)
    | Smove(source: Key, target: Key, field: Field)
    | Lhset(key: Key, field: Field, hint: Hint, value: Bytes)
    | Lhmset(key: Key, placements: seq<Placement>)
    | Lhdel(key: Key, fields: seq<Field>)
    | Lhlocdel(key: Key, field: Field, hint: Hint)
    | LhsetAndDelFallback(key: Key, field: Field, hint: Hint, value: Bytes, fallback: Key)
    | LhdelWithFallback(key: Key, field: Field, fallback: Key)
    | ConvertHashField(source: Key, field: Field, target: Key, newField: Field, hint: Hint)
    | DequePush(direction: Direction, key: Key, items: seq<Bytes>)
    | DequePop(direction: Direction, key: Key)
    | DequeTrimFront(key: Key, maxToKeep: int)
    | Vhset(key: Key, field: Field, value: Bytes)
    | Vhdel(key: Key, fields: seq<Field>)
    | LeaseAcquire(key: Key, holder: Bytes, now: int, duration: int)
    | LeaseGet(key: Key, now: int)
    | LeaseRelease(key: Key, now: int)
    | Del(targets: seq<Key>)
    | FlushAll

  // ---------------------------------------------------------------- strings and hashes

  function SetSpec(s: State, k: Key, x: Bytes): Outcome
  {
    if Wrong(s, k, TString) then Outcome(s, WrongType) else Outcome(With(s, k, VString(x)), Ok)
  }

  function HsetSpec(s: State, k: Key, f: Field, x: Bytes): Outcome
  {
    if Wrong(s, k, THash) then Outcome(s, WrongType)
    else Outcome(With(s, k, VHash(HashOf(s, k)[f := x])), Count(if f in HashOf(s, k) then 0 else 1))
  }

  function HmsetSpec(s: State, k: Key, kvs: seq<Update>): Outcome
  {
    if Wrong(s, k, THash) then Outcome(s, WrongType)
    else Outcome(With(s, k, VHash(PutAll(HashOf(s, k), kvs))), Ok)
  }

  function HsetnxSpec(s: State, k: Key, f: Field, x: Bytes): Outcome
  {
    if Wrong(s, k, THash) then Outcome(s, WrongType)
    else if f in HashOf(s, k) then Outcome(s, Count(0))
    else Outcome(With(s, k, VHash(HashOf(s, k)[f := x])), Count(1))
  }

  function HdelSpec(s: State, k: Key, fs: seq<Field>): Outcome
  {
    if Wrong(s, k, THash) then Outcome(s, WrongType)
    else
      var m := RemoveAll(HashOf(s, k), fs);
      Outcome(With(s, k, VHash(m)), Count(|HashOf(s, k)| - |m|))
  }

  function HcloneSpec(s: State, source: Key, target: Key): Outcome
  {
    if Wrong(s, target, THash) then Outcome(s, WrongType)
    else if target in s.keys then Outcome(s, TargetExists)
    else if source !in s.keys then Outcome(s, Ok)
    else if Wrong(s, source, THash) then Outcome(s, WrongType)
    else Outcome(With(s, target, VHash(HashOf(s, source))), Ok)
  }

  // ---------------------------------------------------------------- sets

  function AddAll(m: set<Field>, fs: seq<Field>): set<Field>
  {
    if fs == [] then m else AddAll(m, fs[..|fs| - 1]) + {fs[|fs| - 1]}
  }

  function DropAll(m: set<Field>, fs: seq<Field>): set<Field>
  {
    if fs == [] then m else DropAll(m, fs[..|fs| - 1]) - {fs[|fs| - 1]}
  }

  function SaddSpec(s: State, k: Key, fs: seq<Field>): Outcome
  {
    if Wrong(s, k, TSet) then Outcome(s, WrongType)
    else
      var m := AddAll(SetOf(s, k), fs);
      Outcome(With(s, k, VSet(m)), Count(|m| - |SetOf(s, k)|))
  }

  function SremSpec(s: State, k: Key, fs: seq<Field>): Outcome
  {
    if Wrong(s, k, TSet) then Outcome(s, WrongType)
    else
      var m := DropAll(SetOf(s, k), fs);
      Outcome(With(s, k, VSet(m)), Count(|SetOf(s, k)| - |m|))
  }

  function SmoveSpec(s: State, source: Key, target: Key, f: Field): Outcome
  {
    if Wrong(s, source, TSet) || Wrong(s, target, TSet) then Outcome(s, WrongType)
    else if f !in SetOf(s, source) then Outcome(s, Count(0))
    else
      var s1 := With(s, source, VSet(SetOf(s, source) - {f}));
      Outcome(With(s1, target, VSet(SetOf(s1, target) + {f})), Count(1))
  }

  // ---------------------------------------------------------------- locality hashes

  function PlaceAll(m: map<Field, Located>, ps: seq<Placement>): map<Field, Located>
  {
    if ps == [] then m
    else
      var p := ps[|ps| - 1];
      PlaceAll(m, ps[..|ps| - 1])[p.field := Located(p.hint, p.value)]
  }

  function LhsetSpec(s: State, k: Key, f: Field, h: Hint, x: Bytes): Outcome
  {
    if Wrong(s, k, TLocalityHash) then Outcome(s, WrongType)
    else
      var m := LocatedOf(s, k);
      Outcome(With(s, k, VLocalityHash(m[f := Located(h, x)])), Count(if f in m then 0 else 1))
  }

  function LhmsetSpec(s: State, k: Key, ps: seq<Placement>): Outcome
  {
    if Wrong(s, k, TLocalityHash) then Outcome(s, WrongType)
    else Outcome(With(s, k, VLocalityHash(PlaceAll(LocatedOf(s, k), ps))), Ok)
  }

  function LhdelSpec(s: State, k: Key, fs: seq<Field>): Outcome
  {
    if Wrong(s, k, TLocalityHash) then Outcome(s, WrongType)
    else
      var m := RemoveAll(LocatedOf(s, k), fs);
      Outcome(With(s, k, VLocalityHash(m)), Count(|LocatedOf(s, k)| - |m|))
  }

  function LhlocdelSpec(s: State, k: Key, f: Field, h: Hint): Outcome
  {
    if Wrong(s, k, TLocalityHash) then Outcome(s, WrongType)
    else if f in LocatedOf(s, k) && LocatedOf(s, k)[f].hint == h then LhdelSpec(s, k, [f])
    else Outcome(s, Count(0))
  }

  /** The hint given by the reader plays no part in the answer. */
  function LhgetSpec(s: State, k: Key, f: Field): Reply
  {
    if Wrong(s, k, TLocalityHash) then WrongType
    else if f in LocatedOf(s, k) then Bulk(LocatedOf(s, k)[f].value)
    else NotFound
  }

  function HgetSpec(s: State, k: Key, f: Field): Reply
  {
    if Wrong(s, k, THash) then WrongType
    else if f in HashOf(s, k) then Bulk(HashOf(s, k)[f])
    else NotFound
  }

  // ---------------------------------------------------------------- migration commands (src/Dispatcher.cc)

  function LhsetAndDelFallbackSpec(s: State, k: Key, f: Field, h: Hint, x: Bytes, fallback: Key): Outcome
  {
    var o := LhsetSpec(s, k, f, h, x);
    Outcome(HdelSpec(o.state, fallback, [f]).state, o.reply)
  }

  function LhdelWithFallbackSpec(s: State, k: Key, f: Field, fallback: Key): Outcome
  {
    var o := LhdelSpec(s, k, [f]);
    if o.reply == Count(1) then o else HdelSpec(o.state, fallback, [f])
  }

  function LhgetWithFallbackSpec(s: State, k: Key, f: Field, fallback: Key): Reply
  {
    var r := LhgetSpec(s, k, f);
    if r != NotFound then r else HgetSpec(s, fallback, f)
  }

  function ConvertHashFieldSpec(s: State, source: Key, f: Field, target: Key, g: Field, h: Hint): Outcome
  {
    if LhgetSpec(s, target, g).Bulk? then Outcome(s, TargetExists)
    else
      var r := HgetSpec(s, source, f);
      if !r.Bulk? then Outcome(s, r)
      else
        var o := LhsetSpec(s, target, g, h, r.value);
        if o.reply == WrongType then o
        else Outcome(HdelSpec(o.state, source, [f]).state, Ok)
  }

  // ---------------------------------------------------------------- deques

  function PushOne(d: Direction, v: Value, x: Bytes): Value
    requires v.VDeque?
  {
    if d == Left then VDeque([x] + v.items, v.start - 1) else VDeque(v.items + [x], v.start)
  }

  /** The items arrive one by one, so a push to the front leaves the last argument first. */
  function PushAll(d: Direction, v: Value, xs: seq<Bytes>): (w: Value)
    requires v.VDeque?
    ensures w.VDeque?
  {
    if xs == [] then v else PushOne(d, PushAll(d, v, xs[..|xs| - 1]), xs[|xs| - 1])
  }

  /** The index of the next slot to fill at either end. */
  function EdgeOf(d: Direction, v: Value): int
    requires v.VDeque?
  {
    if d == Left then v.start else v.start + |v.items| + 1
  }

  function Reversed(xs: seq<Bytes>): seq<Bytes>
  {
    if xs == [] then [] else [xs[|xs| - 1]] + Reversed(xs[..|xs| - 1])
  }

  lemma {:induction false} PushAllIsConcatenation(d: Direction, v: Value, xs: seq<Bytes>)
    requires v.VDeque?
    ensures PushAll(d, v, xs) ==
      if d == Left then VDeque(Reversed(xs) + v.items, v.start - |xs|) else VDeque(v.items + xs, v.start)
  {
    if xs == [] {
      assert [] + v.items == v.items == v.items + [];
    } else {
      var ys, x := xs[..|xs| - 1], xs[|xs| - 1];
      PushAllIsConcatenation(d, v, ys);
      assert [x] + (Reversed(ys) + v.items) == Reversed(xs) + v.items;
      assert (v.items + ys) + [x] == v.items + xs by { assert xs == ys + [x]; }
    }
  }

  /**
   * The slot to the left of the first item; a deque that does not exist yet starts in the middle of the index
   * range.
   */
  function StartFor(s: State, k: Key, d: Direction): int
  {
    if k in s.keys && s.keys[k].VDeque? then s.keys[k].start
    else if d == Left then INITIAL_INDEX
    else INITIAL_INDEX - 1
  }

  function DequePushSpec(s: State, d: Direction, k: Key, xs: seq<Bytes>): Outcome
  {
    if Wrong(s, k, TDeque) then Outcome(s, WrongType)
    else
      Outcome(With(s, k, PushAll(d, VDeque(ItemsOf(s, k), StartFor(s, k, d)), xs)), Count(|ItemsOf(s, k)| + |xs|))
  }

  function DequePopSpec(s: State, d: Direction, k: Key): Outcome
  {
    if Wrong(s, k, TDeque) then Outcome(s, WrongType)
    else if ItemsOf(s, k) == [] then Outcome(s, NotFound)
    else
      var items, start := ItemsOf(s, k), StartFor(s, k, d);
      if d == Left then Outcome(With(s, k, VDeque(items[1..], start + 1)), Bulk(items[0]))
      else Outcome(With(s, k, VDeque(items[..|items| - 1], start)), Bulk(items[|items| - 1]))
  }

  function DropOne(v: Value): Value
    requires v.VDeque? && v.items != []
  {
    VDeque(v.items[1..], v.start + 1)
  }

  function TrimAll(v: Value, n: nat): (w: Value)
    requires v.VDeque? && n <= |v.items|
    ensures w.VDeque? && |w.items| == |v.items| - n && w.start == v.start + n
  {
    if n == 0 then v else DropOne(TrimAll(v, n - 1))
  }

  lemma {:induction false} TrimAllIsSuffix(v: Value, n: nat)
    requires v.VDeque? && n <= |v.items|
    ensures TrimAll(v, n) == VDeque(v.items[n..], v.start + n)
  {
    if n > 0 { TrimAllIsSuffix(v, n - 1); }
  }

  function DequeTrimFrontSpec(s: State, k: Key, maxToKeep: int): Outcome
    requires 0 <= maxToKeep
  {
    if Wrong(s, k, TDeque) then Outcome(s, WrongType)
    else
      var items := ItemsOf(s, k);
      var n := |items| - maxToKeep;
      if n <= 0 then Outcome(s, Count(0))
      else Outcome(With(s, k, VDeque(items[n..], StartFor(s, k, Left) + n)), Count(n))
  }

  /** The index just after the last item of a page: the cursor, or the end of the deque. */
  function ScanEnd(s: State, k: Key, cursor: Option<int>): int
  {
    var end := StartFor(s, k, Left) + |ItemsOf(s, k)| + 1;
    if cursor.None? || cursor.value > end then end else cursor.value
  }

  /** Where a page begins: 64-bit subtraction, which wraps around for counts beyond the index. */
  function ScanStart(marker: int, count: int): int
  {
    if count <= marker then marker - count else marker - count + U64_LIMIT
  }

  /** The items from index `first` up to, and without, index `marker`. */
  function ItemsBetween(items: seq<Bytes>, start: int, first: int, marker: int): seq<Bytes>
  {
    if start < first < marker <= start + |items| + 1 then items[first - start - 1..marker - start - 1] else []
  }

  lemma ItemsMore(items: seq<Bytes>, start: int, first: int, i: int)
    requires start < first <= i <= start + |items|
    ensures ItemsBetween(items, start, first, i + 1) == ItemsBetween(items, start, first, i) + [items[i - start - 1]]
  {
  }

  function ScanPage(s: State, k: Key, cursor: Option<int>, count: int): (seq<Bytes>, Option<int>)
  {
    var items, start, marker := ItemsOf(s, k), StartFor(s, k, Left), ScanEnd(s, k, cursor);
    var first := ScanStart(marker, count);
    if items == [] then ([], None)
    else if first <= start + 1 then (ItemsBetween(items, start, start + 1, marker), None)
    else (ItemsBetween(items, start, first, marker), Some(first))
  }

  lemma ScanPageAt(s: State, k: Key, cursor: Option<int>, count: int, start: int, end: int, marker: int, first: int)
    requires k in s.keys && s.keys[k].VDeque? && s.keys[k].items != []
    requires start == s.keys[k].start && end == start + |s.keys[k].items| + 1
    requires marker == if cursor.None? || cursor.value > end then end else cursor.value
    requires first == ScanStart(marker, count)
    ensures ScanPage(s, k, cursor, count).0
      == ItemsBetween(s.keys[k].items, start, if first <= start + 1 then start + 1 else first, marker)
    ensures ScanPage(s, k, cursor, count).1 == if first <= start + 1 then None else Some(first)
  {
    assert ScanEnd(s, k, cursor) == marker;
  }

  // ---------------------------------------------------------------- versioned hashes

  function RevisionOf(s: State, k: Key): Revision
  {
    if k in s.revisions then s.revisions[k] else Revision(0, [])
  }

  /** setRevisionNumber accepts only the number it already has, once that is not zero. */
  predicate Numbered(r: Revision, n: int)
  {
    r.number == 0 || r.number == n
  }

  function Deletions(fs: seq<Field>): seq<Update>
  {
    seq(|fs|, i requires 0 <= i < |fs| => Update(fs[i], []))
  }

  function VhsetVersion(s: State, k: Key): int
  {
    VersionOf(s, k) + if k in s.touched then 0 else 1
  }

  function VhdelVersion(s: State, k: Key, fs: seq<Field>): int
  {
    VersionOf(s, k) +
    if |RemoveAll(EntriesOf(s, k), fs)| == |EntriesOf(s, k)| || k in s.touched then 0 else 1
  }

  function Revised(s: State, k: Key, m: map<Field, Bytes>, version: int, updates: seq<Update>): State
  {
    s.(keys := s.keys[k := VVersionedHash(m, version)],
       touched := s.touched + {k},
       revisions := s.revisions[k := Revision(version, RevisionOf(s, k).updates + updates)])
  }

  function VhsetSpec(s: State, k: Key, f: Field, x: Bytes): Outcome
  {
    if Wrong(s, k, TVersionedHash) then Outcome(s, WrongType)
    else
      var n := VhsetVersion(s, k);
      Outcome(Revised(s, k, EntriesOf(s, k)[f := x], n, [Update(f, x)]), Version(n))
  }

  function VhdelSpec(s: State, k: Key, fs: seq<Field>): Outcome
  {
    if Wrong(s, k, TVersionedHash) then Outcome(s, WrongType)
    else
      var n := VhdelVersion(s, k, fs);
      Outcome(Revised(s, k, RemoveAll(EntriesOf(s, k), fs), n, Deletions(fs)), Version(n))
  }

  // ---------------------------------------------------------------- leases and the clock

  predicate Expired(v: Value, now: int)
  {
    v.VLease? && v.until <= now
  }

  /** Moving the clock forward drops every lease whose deadline it reaches; it never moves back. */
  function Advance(s: State, now: int): State
  {
    if now <= s.clock then s
    else s.(clock := now, keys := map k | k in s.keys && !Expired(s.keys[k], now) :: s.keys[k])
  }

  function InfoOf(v: Value): LeaseInfo
    requires v.VLease?
  {
    LeaseInfo(v.holder, v.from, v.until)
  }

  /** Acquiring a lease once the clock is up to date. */
  function AcquireSpec(s: State, k: Key, holder: Bytes, duration: int): Outcome
  {
    if Wrong(s, k, TLease) then Outcome(s, WrongType)
    else if k in s.keys && s.keys[k].VLease? && s.keys[k].holder != holder then Outcome(s, LeaseHeld(InfoOf(s.keys[k])))
    else
      var v := VLease(holder, s.clock, s.clock + duration);
      Outcome(With(s, k, v), if k in s.keys then LeaseRenewed(InfoOf(v)) else LeaseAcquired(InfoOf(v)))
  }

  function LeaseAcquireSpec(s: State, k: Key, holder: Bytes, now: int, duration: int): Outcome
  {
    AcquireSpec(Advance(s, now), k, holder, duration)
  }

  function LeaseGetSpec(s0: State, k: Key, now: int): Outcome
  {
    var s := Advance(s0, now);
    if k !in s.keys then Outcome(s, NotFound)
    else if !s.keys[k].VLease? then Outcome(s, WrongType)
    else Outcome(s, LeaseShown(InfoOf(s.keys[k])))
  }

  function LeaseReleaseSpec(s0: State, k: Key, now: int): Outcome
  {
    var s := if now == 0 then s0 else Advance(s0, now);
    if Wrong(s, k, TLease) then Outcome(s, WrongType)
    else if k !in s.keys then Outcome(s, NotFound)
    else Outcome(s.(keys := Without(s.keys, k)), Ok)
  }

  // ---------------------------------------------------------------- deletion

  function DelOne(s: State, k: Key): State
  {
    s.(keys := Without(s.keys, k), touched := s.touched - {k})
  }

  function DelAll(s: State, ks: seq<Key>): State
  {
    if ks == [] then s else DelOne(DelAll(s, ks[..|ks| - 1]), ks[|ks| - 1])
  }

  function DelSpec(s: State, ks: seq<Key>): Outcome
  {
    Outcome(DelAll(s, ks), Count(|s.keys| - |DelAll(s, ks).keys|))
  }

  function FlushAllSpec(s: State): Outcome
  {
    Outcome(s.(keys := map[], touched := {}), Ok)
  }

  /** Committing the batch starts a new transaction. */
  function CommitSpec(s: State, index: int): State
  {
    s.(lastApplied := if index > 0 then index else s.lastApplied, touched := {}, revisions := map[])
  }

  // ---------------------------------------------------------------- steps

  /**
   * What the callers of the store guarantee: no empty strings (the parser rejects them),
   * a non-negative trim size, durations and timestamps within the 64-bit range, deque
   * indexes that do not wrap around, distinct keys in SMOVE, and no revision number conflict.
   */
  predicate Admissible(s: State, c: Command)
  {
    match c
    case Set(_, x) => x != []
    case Smove(source, target, _) => source != target
    case Lhset(k, f, h, _) => k != [] && f != [] && h != []
    case Lhmset(k, ps) => k != [] && forall p <- ps :: p.field != [] && p.hint != []
    case Lhdel(k, fs) => k != [] && [] !in fs
    case Lhlocdel(k, f, h) => k != [] && f != [] && h != []
    case LhsetAndDelFallback(k, f, h, _, _) => k != [] && f != [] && h != []
    case LhdelWithFallback(k, f, _) => k != [] && f != []
    case ConvertHashField(_, _, k, g, h) => k != [] && g != [] && h != []
    case DequePush(d, k, xs) =>
      if d == Left then |xs| <= StartFor(s, k, d) else StartFor(s, k, d) + |ItemsOf(s, k)| + |xs| + 1 < U64_LIMIT
    case DequeTrimFront(_, n) => 0 <= n
    case Vhset(k, _, _) => Wrong(s, k, TVersionedHash) || Numbered(RevisionOf(s, k), VhsetVersion(s, k))
    case Vhdel(k, fs) => Wrong(s, k, TVersionedHash) || Numbered(RevisionOf(s, k), VhdelVersion(s, k, fs))
    case LeaseAcquire(_, holder, now, d) => holder != [] && 0 <= now && 1 <= d && Advance(s, now).clock + d < U64_LIMIT
    case LeaseGet(_, now) => 0 <= now
    case LeaseRelease(_, now) => 0 <= now
    case _ => true
  }

  function Step(s: State, c: Command): Outcome
    requires Admissible(s, c)
  {
    match c
    case Set(k, x) => SetSpec(s, k, x)
    case Hset(k, f, x) => HsetSpec(s, k, f, x)
    case Hmset(k, kvs) => HmsetSpec(s, k, kvs)
    case Hsetnx(k, f, x) => HsetnxSpec(s, k, f, x)
    case Hdel(k, fs) => HdelSpec(s, k, fs)
    case Hclone(a, b) => HcloneSpec(s, a, b)
    case Sadd(k, fs) => SaddSpec(s, k, fs)
    case Srem(k, fs) => SremSpec(s, k, fs)
    case Smove(a, b, f) => SmoveSpec(s, a, b, f)
    case Lhset(k, f, h, x) => LhsetSpec(s, k, f, h, x)
    case Lhmset(k, ps) => LhmsetSpec(s, k, ps)
    case Lhdel(k, fs) => LhdelSpec(s, k, fs)
    case Lhlocdel(k, f, h) => LhlocdelSpec(s, k, f, h)
    case LhsetAndDelFallback(k, f, h, x, fb) => LhsetAndDelFallbackSpec(s, k, f, h, x, fb)
    case LhdelWithFallback(k, f, fb) => LhdelWithFallbackSpec(s, k, f, fb)
    case ConvertHashField(a, f, b, g, h) => ConvertHashFieldSpec(s, a, f, b, g, h)
    case DequePush(d, k, xs) => DequePushSpec(s, d, k, xs)
    case DequePop(d, k) => DequePopSpec(s, d, k)
    case DequeTrimFront(k, n) => DequeTrimFrontSpec(s, k, n)
    case Vhset(k, f, x) => VhsetSpec(s, k, f, x)
    case Vhdel(k, fs) => VhdelSpec(s, k, fs)
    case LeaseAcquire(k, holder, now, d) => LeaseAcquireSpec(s, k, holder, now, d)
    case LeaseGet(k, now) => LeaseGetSpec(s, k, now)
    case LeaseRelease(k, now) => LeaseReleaseSpec(s, k, now)
    case Del(ks) => DelSpec(s, ks)
    case FlushAll => FlushAllSpec(s)
  }
}
