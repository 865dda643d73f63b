/**
 * Paging through the store with SCAN, HSCAN and SSCAN (src/StateMachine.cc:684-708, 795-818,
 * 1823-1869): each page ends with a cursor, the name at which the next one starts. SCAN looks
 * only at keys that begin like the pattern.
 */
module Scan {
  import opened Bytes
  import opened Glob
  import opened ByteOrder

  /** A record of the ordered store; also a result, whose key then lacks the prefix that was scanned. */
  datatype Record = Record(key: Bytes, value: Bytes)

  ghost predicate Ascending(store: seq<Record>)
  {
    forall i, j :: 0 <= i < j < |store| ==> Before(store[i].key, store[j].key)
  }

  /** Where an iterator stands after Seek, and everything behind it. */
  function Seek(store: seq<Record>, x: Bytes): seq<Record>
  {
    if store == [] || !Before(store[0].key, x) then store else Seek(store[1..], x)
  }

  /**
   * What is scanned: names behind `base` that begin with `stem`; `base` and `stem` together are what the
   * iterator checks.
   */
  datatype Query = Query(base: Bytes, stem: Bytes, keep: Bytes -> bool)

  predicate InRange(q: Query, r: Record)
  {
    q.base + q.stem <= r.key
  }

  function Strip(q: Query, r: Record): Record
    requires InRange(q, r)
  {
    Record(r.key[|q.base|..], r.value)
  }

  /** One page: at most `count` records are looked at; the next one, if it is still in range, becomes the cursor. */
  function Page(q: Query, rest: seq<Record>, count: nat): (seq<Record>, Bytes)
  {
    if rest == [] || !InRange(q, rest[0]) then ([], [])
    else if count == 0 then ([], Strip(q, rest[0]).key)
    else
      var (results, cursor) := Page(q, rest[1..], count - 1);
      ((if q.keep(Strip(q, rest[0]).key) then [Strip(q, rest[0])] else []) + results, cursor)
  }

  function Start(q: Query, cursor: Bytes): Bytes
  {
    q.base + if cursor == [] then q.stem else cursor
  }

  /** All that a query is about, in order. */
  function Listing(q: Query, store: seq<Record>): seq<Record>
  {
    if store == [] then []
    else
      var first := if InRange(q, store[0]) && q.keep(Strip(q, store[0]).key) then [Strip(q, store[0])] else [];
      first + Listing(q, store[1..])
  }

  // ---------------------------------------------------------------- order

  lemma {:induction false} PrefixNotBefore(d: Bytes, a: Bytes)
    requires d <= a
    ensures !Before(a, d)
  {
    if d != [] {
      assert a[1..] == d[1..] + a[|d|..];
      PrefixNotBefore(d[1..], a[1..]);
    }
  }

  /** Once past the names with a prefix, no more of them come. */
  lemma {:induction false} PrefixRange(d: Bytes, a: Bytes, b: Bytes)
    requires !Before(a, d) && !(d <= a) && Before(a, b)
    ensures !(d <= b)
  {
    if a != [] && a[0] == d[0] && d <= b {
      assert a == [a[0]] + a[1..] && d == [d[0]] + d[1..] && b == [b[0]] + b[1..];
      assert !(d[1..] <= a[1..]);
      assert b[1..][..|d| - 1] == b[..|d|][1..];
      PrefixRange(d[1..], a[1..], b[1..]);
    }
  }

  lemma {:induction false} SeekIsSuffix(store: seq<Record>, x: Bytes) returns (i: nat)
    ensures i <= |store| && Seek(store, x) == store[i..]
    ensures forall j :: 0 <= j < i ==> Before(store[j].key, x)
    ensures i < |store| ==> !Before(store[i].key, x)
  {
    if store == [] || !Before(store[0].key, x) {
      i := 0;
    } else {
      var k := SeekIsSuffix(store[1..], x);
      i := k + 1;
    }
  }

  lemma {:induction false} SeekAt(store: seq<Record>, i: nat)
    requires Ascending(store) && i < |store|
    ensures Seek(store, store[i].key) == store[i..]
  {
    if i == 0 {
      BeforeIrreflexive(store[0].key);
    } else {
      SeekAt(store[1..], i - 1);
    }
  }

  // ---------------------------------------------------------------- pages

  /** Nothing in range is left out before the position that Seek finds. */
  lemma {:induction false} NothingBefore(q: Query, store: seq<Record>, i: nat)
    requires i <= |store| && forall j :: 0 <= j < i ==> !InRange(q, store[j])
    ensures Listing(q, store) == Listing(q, store[i..])
  {
    if i > 0 {
      NothingBefore(q, store[1..], i - 1);
      assert store[1..][i - 1..] == store[i..];
    }
  }

  lemma {:induction false} NothingInRange(q: Query, store: seq<Record>)
    requires forall j :: 0 <= j < |store| ==> !InRange(q, store[j])
    ensures Listing(q, store) == []
  {
    if store != [] {
      NothingInRange(q, store[1..]);
    }
  }

  lemma NothingAfter(q: Query, rest: seq<Record>)
    requires Ascending(rest) && rest != [] && !InRange(q, rest[0]) && !Before(rest[0].key, q.base + q.stem)
    ensures Listing(q, rest) == []
  {
    forall j | 0 <= j < |rest| ensures !InRange(q, rest[j]) {
      if j > 0 {
        PrefixRange(q.base + q.stem, rest[0].key, rest[j].key);
      }
    }
    NothingInRange(q, rest);
  }

  /** What a page of `rest` lists, and what it leaves for the next ones. */
  ghost predicate Pages(q: Query, rest: seq<Record>, count: nat, results: seq<Record>, cursor: Bytes)
  {
    if cursor == [] then results == Listing(q, rest)
    else
      && count < |rest| && q.base + cursor == rest[count].key && InRange(q, rest[count])
      && results + Listing(q, rest[count..]) == Listing(q, rest)
  }

  lemma {:induction false} PageLists(q: Query, rest: seq<Record>, count: nat)
    requires Ascending(rest) && (rest != [] ==> !Before(rest[0].key, q.base + q.stem))
    requires forall j :: 0 <= j < |rest| ==> rest[j].key != q.base
    ensures Pages(q, rest, count, Page(q, rest, count).0, Page(q, rest, count).1)
  {
    if rest == [] {
    } else if !InRange(q, rest[0]) {
      NothingAfter(q, rest);
    } else if count == 0 {
      assert rest[0].key == q.base + rest[0].key[|q.base|..];
      assert rest[0..] == rest;
    } else {
      var next := rest[1..];
      if next != [] {
        StaysBehind(q.base + q.stem, rest[0].key, next[0].key);
      }
      PageLists(q, next, count - 1);
      PageGrows(q, rest, count, Page(q, next, count - 1).0, Page(q, next, count - 1).1);
    }
  }

  /**
   * How far a page goes: over the first `count` records in range, or over all if there are no more. What it
   * keeps of them is its result; the cursor is the name of the next one, and empty if there is none.
   */
  lemma {:induction false} PageReaches(q: Query, rest: seq<Record>, count: nat, n: nat)
    requires n <= |rest| && (forall i :: 0 <= i < n ==> InRange(q, rest[i])) && (n < |rest| ==> !InRange(q, rest[n]))
    ensures Page(q, rest, count).0 == Listing(q, rest[..if n <= count then n else count])
    ensures Page(q, rest, count).1 == if n <= count then [] else Strip(q, rest[count]).key
    ensures |Page(q, rest, count).0| <= count
    decreases n
  {
    var m := if n <= count then n else count;
    if m > 0 {
      PageReaches(q, rest[1..], count - 1, n - 1);
      assert rest[..m][0] == rest[0] && rest[..m][1..] == rest[1..][..m - 1];
    } else {
      assert rest[..m] == [];
    }
  }

  lemma PageGrows(q: Query, rest: seq<Record>, count: nat, results: seq<Record>, cursor: Bytes)
    requires rest != [] && count > 0 && InRange(q, rest[0]) && Pages(q, rest[1..], count - 1, results, cursor)
    ensures var first := if q.keep(Strip(q, rest[0]).key) then [Strip(q, rest[0])] else [];
      Pages(q, rest, count, first + results, cursor)
  {
    var first := if q.keep(Strip(q, rest[0]).key) then [Strip(q, rest[0])] else [];
    if cursor != [] {
      var left := Listing(q, rest[count..]);
      assert rest[1..][count - 1..] == rest[count..];
      assert first + (results + left) == (first + results) + left;
    }
  }

  lemma StaysBehind(d: Bytes, a: Bytes, b: Bytes)
    requires d <= a && Before(a, b)
    ensures !Before(b, d)
  {
    PrefixNotBefore(d, a);
    if Before(b, d) {
      BeforeTransitive(a, b, d);
    }
  }

  /** Follow the cursors until one is empty. */
  function Follow(q: Query, store: seq<Record>, cursor: Bytes, count: nat): seq<Record>
    requires count > 0 && Proper(q, store) && Reached(q, cursor)
    decreases |Seek(store, Start(q, cursor))|
  {
    var (results, next) := Page(q, Seek(store, Start(q, cursor)), count);
    if next == [] then results
    else
      PageAdvances(q, store, cursor, count);
      results + Follow(q, store, next, count)
  }

  /** The store is in order, and no scanned name is empty: an empty cursor means the end. */
  ghost predicate Proper(q: Query, store: seq<Record>)
  {
    Ascending(store) && forall i :: 0 <= i < |store| ==> store[i].key != q.base
  }

  /** A cursor that a page has returned, or the empty one to begin with. */
  ghost predicate Reached(q: Query, cursor: Bytes)
  {
    cursor == [] || q.stem <= cursor
  }

  lemma StartFits(q: Query, store: seq<Record>, cursor: Bytes) returns (i: nat)
    requires Proper(q, store) && Reached(q, cursor)
    ensures i <= |store| && Seek(store, Start(q, cursor)) == store[i..]
    ensures forall j :: 0 <= j < i ==> Before(store[j].key, Start(q, cursor))
    ensures i < |store| ==> !Before(store[i].key, q.base + q.stem)
  {
    i := SeekIsSuffix(store, Start(q, cursor));
    if i < |store| && cursor != [] {
      NotBeforeStem(q, store[i].key, cursor);
    }
  }

  lemma NotBeforeStem(q: Query, a: Bytes, cursor: Bytes)
    requires q.stem <= cursor && !Before(a, q.base + cursor)
    ensures !Before(a, q.base + q.stem)
  {
    var more := cursor[|q.stem|..];
    assert q.base + q.stem + more == q.base + cursor;
    if Before(a, q.base + q.stem) {
      ExtendBefore(a, q.base + q.stem, more);
    }
  }

  lemma {:induction false} ExtendBefore(a: Bytes, b: Bytes, more: Bytes)
    requires Before(a, b)
    ensures Before(a, b + more)
  {
    if a != [] && a[0] == b[0] {
      ExtendBefore(a[1..], b[1..], more);
      assert (b + more)[1..] == b[1..] + more;
    }
  }

  /** The next cursor starts strictly later, at the record where this page stopped. */
  lemma PageAdvances(q: Query, store: seq<Record>, cursor: Bytes, count: nat)
    requires count > 0 && Proper(q, store) && Reached(q, cursor)
    ensures var rest := Seek(store, Start(q, cursor));
      var (results, next) := Page(q, rest, count);
      next != [] ==>
        && Reached(q, next) && count < |rest| && Seek(store, Start(q, next)) == rest[count..]
        && results + Listing(q, rest[count..]) == Listing(q, rest)
    ensures var rest := Seek(store, Start(q, cursor));
      var (results, next) := Page(q, rest, count);
      next == [] ==> results == Listing(q, rest)
  {
    var i := StartFits(q, store, cursor);
    var rest := store[i..];
    PageLists(q, rest, count);
    var (_, next) := Page(q, rest, count);
    if next != [] {
      SeekAt(store, i + count);
      assert rest[count..] == store[i + count..] && rest[count] == store[i + count];
      assert (q.base + next)[|q.base|..] == next;
    }
  }

  lemma {:induction false} FollowLists(q: Query, store: seq<Record>, cursor: Bytes, count: nat)
    requires count > 0 && Proper(q, store) && Reached(q, cursor)
    ensures Follow(q, store, cursor, count) == Listing(q, Seek(store, Start(q, cursor)))
    decreases |Seek(store, Start(q, cursor))|
  {
    PageAdvances(q, store, cursor, count);
    var (_, next) := Page(q, Seek(store, Start(q, cursor)), count);
    if next != [] {
      FollowLists(q, store, next, count);
    }
  }

  /** From the empty cursor to the empty cursor: everything that was asked for, in order, once, for every page size. */
  lemma PagesCoverAll(q: Query, store: seq<Record>, count: nat)
    requires count > 0 && Proper(q, store)
    ensures Follow(q, store, [], count) == Listing(q, store)
  {
    FollowLists(q, store, [], count);
    var i := StartFits(q, store, []);
    forall j | 0 <= j < i ensures !InRange(q, store[j]) {
      if InRange(q, store[j]) {
        PrefixNotBefore(q.base + q.stem, store[j].key);
      }
    }
    NothingBefore(q, store, i);
  }

  // ---------------------------------------------------------------- the beginning of a pattern

  predicate Special(c: byte)
  {
    c == QUESTION || c == Glob.STAR || c == OPEN || c == CLOSE || c == BACKSLASH
  }

  function LiteralPrefix(pattern: Bytes): (prefix: Bytes)
    ensures prefix <= pattern
  {
    if pattern == [] || Special(pattern[0]) then [] else [pattern[0]] + LiteralPrefix(pattern[1..])
  }

  /** The prefix goes up to the first special byte, and no further. */
  lemma {:induction false} PrefixEnds(pattern: Bytes)
    ensures var n := |LiteralPrefix(pattern)|;
      && LiteralPrefix(pattern) == pattern[..n] && (forall i :: 0 <= i < n ==> pattern[i] !in {42, 63, 91, 92, 93})
      && (n < |pattern| ==> pattern[n] in {42, 63, 91, 92, 93})
  {
    if pattern != [] && !Special(pattern[0]) { PrefixEnds(pattern[1..]); }
  }

  lemma LiteralPrefixAt(pattern: Bytes, i: nat)
    requires i < |pattern|
    ensures pattern[..i] + LiteralPrefix(pattern[i..]) ==
      if Special(pattern[i]) then pattern[..i] else pattern[..i + 1] + LiteralPrefix(pattern[i + 1..])
  {
    var rest := pattern[i..];
    assert rest[0] == pattern[i] && rest[1..] == pattern[i + 1..];
    if !Special(pattern[i]) {
      assert pattern[..i] + ([pattern[i]] + LiteralPrefix(rest[1..])) == pattern[..i + 1] + LiteralPrefix(rest[1..]);
    }
  }

  /** extractPatternPrefix (src/storage/PatternMatching.hh:37-50). */
  method ExtractPatternPrefix(pattern: Bytes) returns (prefix: Bytes)
    ensures prefix == LiteralPrefix(pattern)
  {
    var i := 0;
    assert pattern[..0] == [] && pattern[0..] == pattern;
    while i < |pattern|
      invariant 0 <= i <= |pattern| && LiteralPrefix(pattern) == pattern[..i] + LiteralPrefix(pattern[i..])
    {
      LiteralPrefixAt(pattern, i);
      if Special(pattern[i]) {
        return pattern[..i];
      }
      i := i + 1;
    }
    assert pattern[i..] == [];
    return pattern;
  }

  /** Whatever matches begins with the literal part of the pattern. */
  lemma {:induction false} MatchesBeginWithPrefix(pattern: Bytes, name: Bytes)
    requires Matches(Lex(pattern), name)
    ensures LiteralPrefix(pattern) <= name
  {
    if pattern != [] && !Special(pattern[0]) {
      assert Head(pattern) == (Literal(pattern[0]), pattern[1..]);
      assert Lex(pattern)[1..] == Lex(pattern[1..]);
      MatchesBeginWithPrefix(pattern[1..], name[1..]);
      assert name == [name[0]] + name[1..];
    }
  }

  predicate EmptyPattern(pattern: Bytes)
  {
    pattern == [] || pattern == [Glob.STAR]
  }

  /** First byte of the records that describe keys. */
  const DESCRIPTOR: byte := 33

  /** Every key that matches: the whole keyspace, filtered. */
  ghost function KeysMatching(pattern: Bytes): Query
  {
    Query([DESCRIPTOR], [], name => EmptyPattern(pattern) || Matches(Lex(pattern), name))
  }

  ghost function ScanQuery(pattern: Bytes): Query
  {
    KeysMatching(pattern).(stem := LiteralPrefix(pattern))
  }

  lemma {:induction false} PruningIsHarmless(q: Query, stem: Bytes, store: seq<Record>)
    requires q.stem == [] && forall name :: q.keep(name) ==> stem <= name
    ensures Listing(q.(stem := stem), store) == Listing(q, store)
  {
    if store != [] {
      PruningIsHarmless(q, stem, store[1..]);
      var key := store[0].key;
      assert q.base + [] == q.base;
      if q.base <= key && stem <= key[|q.base|..] {
        assert key == q.base + key[|q.base|..];
        assert q.base + stem <= key;
      }
      if q.base + stem <= key {
        assert q.base <= key && stem == key[|q.base|..][..|stem|];
      }
    }
  }

  /**
   * Following SCAN's cursors gives exactly the keys that match, although it looks only at those that begin
   * like the pattern.
   */
  lemma ScanFindsAll(pattern: Bytes, store: seq<Record>, count: nat)
    requires count > 0 && Ascending(store) && forall i :: 0 <= i < |store| ==> store[i].key != [DESCRIPTOR]
    ensures Follow(ScanQuery(pattern), store, [], count) == Listing(KeysMatching(pattern), store)
  {
    PagesCoverAll(ScanQuery(pattern), store, count);
    var q, stem := KeysMatching(pattern), LiteralPrefix(pattern);
    forall name | q.keep(name) ensures stem <= name {
      if EmptyPattern(pattern) {
        assert stem == [];
      } else {
        MatchesBeginWithPrefix(pattern, name);
      }
    }
    PruningIsHarmless(q, stem, store);
  }

  // ---------------------------------------------------------------- the commands

  /** The two checks of SCAN's loop are one check for the prefix. */
  lemma DescriptorInRange(q: Query, r: Record)
    requires q.base == [DESCRIPTOR]
    ensures InRange(q, r) <==> |r.key| > 0 && r.key[0] == DESCRIPTOR && q.stem <= r.key[1..]
    ensures InRange(q, r) ==> Strip(q, r) == Record(r.key[1..], r.value)
  {
    var d := [DESCRIPTOR] + q.stem;
    if |r.key| > 0 && r.key[0] == DESCRIPTOR && q.stem <= r.key[1..] {
      assert r.key == [DESCRIPTOR] + r.key[1..];
      assert r.key[..|d|] == d;
    }
    if d <= r.key {
      assert r.key[1..][..|q.stem|] == q.stem;
    }
  }

  lemma PageStep(q: Query, rest: seq<Record>, count: nat)
    requires rest != [] && InRange(q, rest[0]) && count > 0
    ensures Page(q, rest, count).0
      == (if q.keep(Strip(q, rest[0]).key) then [Strip(q, rest[0])] else []) + Page(q, rest[1..], count - 1).0
    ensures Page(q, rest, count).1 == Page(q, rest[1..], count - 1).1
  {
  }

  lemma Associative(a: seq<Record>, b: seq<Record>, c: seq<Record>)
    ensures a + (b + c) == a + b + c
  {
  }

  lemma PageStops(q: Query, rest: seq<Record>, count: nat)
    ensures rest == [] || !InRange(q, rest[0]) ==> Page(q, rest, count).0 == [] && Page(q, rest, count).1 == []
    ensures rest != [] && InRange(q, rest[0]) && count == 0 ==>
      Page(q, rest, count).0 == [] && Page(q, rest, count).1 == Strip(q, rest[0]).key
  {
  }

  /** scan (src/StateMachine.cc:1823-1869), one page. */
  method ScanKeys(store: seq<Record>, cursor: Bytes, pattern: Bytes, count: nat, past: byte)
    returns (newcursor: Bytes, results: seq<Record>)
    requires WellFormed(pattern) && Harmless(past) && forall i :: 0 <= i < |store| ==> store[i].key != [DESCRIPTOR]
    ensures var page := Page(ScanQuery(pattern), Seek(store, Start(ScanQuery(pattern), cursor)), count);
      results == page.0 && newcursor == page.1
  {
    var prefix := ExtractPatternPrefix(pattern);
    var rest := Seek(store, [DESCRIPTOR] + if cursor == [] then prefix else cursor);
    ghost var from := SeekIsSuffix(store, [DESCRIPTOR] + if cursor == [] then prefix else cursor);
    newcursor, results := ScanFrom(rest, pattern, prefix, count, past, ScanQuery(pattern));
  }

  method ScanFrom(start: seq<Record>, pattern: Bytes, prefix: Bytes, count: nat, past: byte, ghost q: Query)
    returns (newcursor: Bytes, results: seq<Record>)
    requires WellFormed(pattern) && Harmless(past) && q.base == [DESCRIPTOR] && q.stem == prefix && Keeps(q, pattern)
    requires forall i :: 0 <= i < |start| ==> start[i].key != [DESCRIPTOR]
    ensures var page := Page(q, start, count); results == page.0 && newcursor == page.1
  {
    var rest, iterations := start, 0;
    results := [];
    while rest != []
      invariant 0 <= iterations <= count && forall i :: 0 <= i < |rest| ==> rest[i].key != [DESCRIPTOR]
      invariant Page(q, start, count).0 == results + Page(q, rest, count - iterations).0
      invariant Page(q, start, count).1 == Page(q, rest, count - iterations).1
      decreases |rest|
    {
      DescriptorInRange(q, rest[0]);
      PageStops(q, rest, count - iterations);
      iterations := iterations + 1;
      var rkey := rest[0].key;
      if |rkey| == 0 || rkey[0] != DESCRIPTOR || !(prefix <= rkey[1..]) {
        return [], results;
      }
      if iterations > count {
        return rkey[1..], results;
      }
      PageStep(q, rest, count - iterations + 1);
      var hit := Hit(pattern, rkey[1..], past, q);
      var found := if hit then [Record(rkey[1..], rest[0].value)] else [];
      Associative(results, found, Page(q, rest[1..], count - iterations).0);
      results := results + found;
      rest := rest[1..];
    }
    newcursor := [];
  }

  ghost predicate Keeps(q: Query, pattern: Bytes)
  {
    forall name :: q.keep(name) <==> EmptyPattern(pattern) || Matches(Lex(pattern), name)
  }

  method Hit(pattern: Bytes, name: Bytes, past: byte, ghost q: Query) returns (hit: bool)
    requires WellFormed(pattern) && Harmless(past) && name != [] && Keeps(q, pattern)
    ensures hit <==> q.keep(name)
  {
    hit := EmptyPattern(pattern);
    if !hit {
      hit := StringMatch(pattern, name, past);
    }
  }

  /** The fields behind a locator prefix, all of them. */
  function FieldQuery(prefix: Bytes): Query
  {
    Query(prefix, [], _ => true)
  }

  /** hscan and sscan (src/StateMachine.cc:684-708, 795-818), one page. */
  method ScanFields(store: seq<Record>, prefix: Bytes, cursor: Bytes, count: nat)
    returns (newcursor: Bytes, results: seq<Record>)
    ensures var page := Page(FieldQuery(prefix), Seek(store, prefix + cursor), count);
      results == page.0 && newcursor == page.1
    ensures Start(FieldQuery(prefix), cursor) == prefix + cursor
  {
    ghost var q := FieldQuery(prefix);
    assert prefix + [] == prefix;
    var start := Seek(store, prefix + cursor);
    var rest := start;
    newcursor, results := [], [];
    while rest != []
      invariant |results| <= count && newcursor == []
      invariant Page(q, start, count).0 == results + Page(q, rest, count - |results|).0
      invariant Page(q, start, count).1 == Page(q, rest, count - |results|).1
      decreases |rest|
    {
      PageStops(q, rest, count - |results|);
      if !(prefix <= rest[0].key) {
        return;
      }
      var fieldname := rest[0].key[|prefix|..];
      if |results| >= count {
        return fieldname, results;
      }
      PageStep(q, rest, count - |results|);
      Associative(results, [Record(fieldname, rest[0].value)], Page(q, rest[1..], count - |results| - 1).0);
      results := results + [Record(fieldname, rest[0].value)];
      rest := rest[1..];
    }
  }

  /** Following their cursors gives every field of the key once, in order. */
  lemma FieldScanFindsAll(prefix: Bytes, store: seq<Record>, count: nat)
    requires count > 0 && Ascending(store) && forall i :: 0 <= i < |store| ==> store[i].key != prefix
    ensures Follow(FieldQuery(prefix), store, [], count) == Listing(FieldQuery(prefix), store)
  {
    PagesCoverAll(FieldQuery(prefix), store, count);
  }
}
