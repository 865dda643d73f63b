/**
 * The glob matcher (deps/StringMatchLen.h), case-sensitive, as SCAN and PSUBSCRIBE use it: a loop
 * that walks pattern and string with one recursive call per star, against a declarative meaning
 * of patterns. The matcher looks one byte past the end of the pattern; that byte is a parameter.
 */
module Glob {
  import opened Bytes

  const STAR: byte := 42
  const QUESTION: byte := 63
  const OPEN: byte := 91
  const CLOSE: byte := 93
  const CARET: byte := 94
  const DASH: byte := 45
  const BACKSLASH: byte := 92

  // ---------------------------------------------------------------- what a pattern means

  datatype Item = Single(b: byte) | Range(start: byte, end: byte)

  datatype Token = Star | Any | Class(negated: bool, items: seq<Item>) | Literal(b: byte)

  /** The elements of a class up to its closing bracket or, if there is none, the end of the pattern. */
  function Items(p: Bytes): (r: (seq<Item>, Bytes))
    ensures |r.1| <= |p|
  {
    if p == [] then ([], [])
    else if p[0] == BACKSLASH && |p| >= 2 then
      var (items, rest) := Items(p[2..]);
      ([Single(p[1])] + items, rest)
    else if p[0] == CLOSE then ([], p[1..])
    else if |p| >= 3 && p[0] != BACKSLASH && p[1] == DASH then
      var (items, rest) := Items(p[3..]);
      ([Range(p[0], p[2])] + items, rest)
    else
      var (items, rest) := Items(p[1..]);
      ([Single(p[0])] + items, rest)
  }

  function ClassBody(p: Bytes): Bytes
  {
    if p != [] && p[0] == CARET then p[1..] else p
  }

  /** The first element of a pattern, and what follows it. */
  function Head(p: Bytes): (r: (Token, Bytes))
    requires p != []
    ensures |r.1| < |p|
  {
    if p[0] == STAR then (Star, p[1..])
    else if p[0] == QUESTION then (Any, p[1..])
    else if p[0] == OPEN then
      var (items, rest) := Items(ClassBody(p[1..]));
      (Class(p[1..] != [] && p[1] == CARET, items), rest)
    else if p[0] == BACKSLASH && |p| >= 2 then (Literal(p[1]), p[2..])
    else (Literal(p[0]), p[1..])
  }

  function Lex(p: Bytes): seq<Token>
    decreases |p|
  {
    if p == [] then [] else [Head(p).0] + Lex(Head(p).1)
  }

  /** char is signed. */
  function Signed(b: byte): int
  {
    if b < 128 then b as int else b as int - 256
  }

  predicate ItemAccepts(i: Item, c: byte)
  {
    match i
    case Single(b) => b == c
    case Range(a, b) => Signed(a) <= Signed(c) <= Signed(b) || Signed(b) <= Signed(c) <= Signed(a)
  }

  predicate ItemsAccept(items: seq<Item>, c: byte)
  {
    exists i :: 0 <= i < |items| && ItemAccepts(items[i], c)
  }

  predicate Accepts(t: Token, c: byte)
  {
    match t
    case Star => false
    case Any => true
    case Class(negated, items) => ItemsAccept(items, c) != negated
    case Literal(b) => b == c
  }

  /** A star stands for any string, every other element for one character that it accepts. */
  ghost predicate Matches(ts: seq<Token>, s: Bytes)
    decreases |ts|
  {
    if ts == [] then s == []
    else if ts[0].Star? then exists k :: 0 <= k <= |s| && Matches(ts[1..], s[k..])
    else s != [] && Accepts(ts[0], s[0]) && Matches(ts[1..], s[1..])
  }

  /** No class ends in the middle of an escape. */
  predicate ClassCloses(p: Bytes)
  {
    if p == [] || p[0] == CLOSE then true
    else if p[0] == BACKSLASH then |p| >= 2 && ClassCloses(p[2..])
    else if |p| >= 3 && p[1] == DASH then ClassCloses(p[3..])
    else ClassCloses(p[1..])
  }

  predicate WellFormed(p: Bytes)
    decreases |p|
  {
    p != [] ==> (p[0] == OPEN ==> ClassCloses(ClassBody(p[1..]))) && WellFormed(Head(p).1)
  }

  // ---------------------------------------------------------------- laws of matching

  lemma {:induction false} MatchesNothing(p: Bytes)
    ensures Matches(Lex(p), []) <==> p == [] || (p[0] == STAR && Matches(Lex(p[1..]), []))
  {
    if p != [] {
      var empty: Bytes := [];
      assert empty[0..] == [];
    }
  }

  /** Several stars in a row are as good as one. */
  lemma StarStar(p: Bytes, s: Bytes)
    requires |p| >= 2 && p[0] == STAR && p[1] == STAR
    ensures Matches(Lex(p), s) <==> Matches(Lex(p[1..]), s)
  {
    var rest := Lex(p[2..]);
    assert p[1..][1..] == p[2..];
    assert Lex(p[1..]) == [Star] + rest && Lex(p) == [Star] + Lex(p[1..]);
    assert ([Star] + rest)[1..] == rest && ([Star] + Lex(p[1..]))[1..] == Lex(p[1..]);
    if Matches(Lex(p), s) {
      var k :| 0 <= k <= |s| && Matches(Lex(p[1..]), s[k..]);
      var m :| 0 <= m <= |s[k..]| && Matches(rest, s[k..][m..]);
      assert s[k..][m..] == s[k + m..];
    }
    if Matches(Lex(p[1..]), s) {
      assert s[0..] == s;
    }
  }

  lemma LoneStar(s: Bytes)
    ensures Matches(Lex([STAR]), s)
  {
    assert Lex([STAR]) == [Star] && s[|s|..] == [];
    assert Matches([], s[|s|..]);
  }

  lemma StarMatches(p: Bytes, s: Bytes)
    requires p != [] && p[0] == STAR
    ensures Matches(Lex(p), s) <==> exists k :: 0 <= k <= |s| && Matches(Lex(p[1..]), s[k..])
  {
    assert ([Star] + Lex(p[1..]))[1..] == Lex(p[1..]);
  }

  lemma OneMatches(p: Bytes, s: Bytes)
    requires p != [] && p[0] != STAR && s != []
    ensures Matches(Lex(p), s) <==> Accepts(Head(p).0, s[0]) && Matches(Lex(Head(p).1), s[1..])
  {
    assert Lex(p)[1..] == Lex(Head(p).1);
  }

  // ---------------------------------------------------------------- the matcher

  /** The loop over a class; `match` was decided by the items before. */
  method MatchClass(p: Bytes, c: byte, past: byte) returns (found: bool, rest: Bytes)
    requires ClassCloses(p) && past != BACKSLASH && past != CLOSE
    ensures rest == Items(p).1 && (found <==> ItemsAccept(Items(p).0, c))
  {
    var q := p;
    found := false;
    while true
      invariant ClassCloses(q) && Items(q).1 == Items(p).1
      invariant ItemsAccept(Items(p).0, c) <==> found || ItemsAccept(Items(q).0, c)
      decreases |q|
    {
      ItemsStep(q, c);
      var first := if q == [] then past else q[0];
      if first == BACKSLASH {
        found := found || q[1] == c;
        q := q[2..];
      } else if first == CLOSE {
        return found, q[1..];
      } else if |q| == 0 {
        return found, [];
      } else if |q| >= 3 && q[1] == DASH {
        var start, end := Signed(q[0]), Signed(q[2]);
        if start > end {
          start, end := end, start;
        }
        found := found || start <= Signed(c) <= end;
        q := q[3..];
      } else {
        found := found || q[0] == c;
        q := q[1..];
      }
    }
  }

  lemma ItemsStep(q: Bytes, c: byte)
    requires ClassCloses(q)
    ensures q == [] || q[0] == CLOSE ==> !ItemsAccept(Items(q).0, c)
    ensures q != [] && q[0] != CLOSE ==>
      var (item, next) := if q[0] == BACKSLASH then (Single(q[1]), q[2..])
        else if |q| >= 3 && q[1] == DASH then (Range(q[0], q[2]), q[3..]) else (Single(q[0]), q[1..]);
      Items(q).1 == Items(next).1
        && (ItemsAccept(Items(q).0, c) <==> ItemAccepts(item, c) || ItemsAccept(Items(next).0, c))
  {
    if q != [] && q[0] != CLOSE {
      var (item, next) := if q[0] == BACKSLASH then (Single(q[1]), q[2..])
        else if |q| >= 3 && q[1] == DASH then (Range(q[0], q[2]), q[3..]) else (Single(q[0]), q[1..]);
      AcceptMore(item, Items(next).0, c);
    }
  }

  lemma AcceptMore(item: Item, items: seq<Item>, c: byte)
    ensures ItemsAccept([item] + items, c) <==> ItemAccepts(item, c) || ItemsAccept(items, c)
  {
    var all := [item] + items;
    if ItemAccepts(item, c) {
      assert ItemAccepts(all[0], c);
    }
    if ItemsAccept(items, c) {
      var i :| 0 <= i < |items| && ItemAccepts(items[i], c);
      assert ItemAccepts(all[i + 1], c);
    }
  }

  /**
   * A byte that cannot be taken for part of the pattern; 0 behind a std::string, CR in a request that is
   * still in its buffer.
   */
  predicate Harmless(past: byte)
  {
    past != STAR && past != CARET && past != CLOSE && past != BACKSLASH
  }

  /** The loop for a star: try the rest of the pattern at every position that is left. */
  method MatchStar(p: Bytes, text: Bytes, past: byte) returns (yes: bool)
    requires |p| >= 2 && p[0] == STAR && p[1] != STAR && WellFormed(p) && Harmless(past)
    ensures yes <==> Matches(Lex(p), text)
    decreases |p|, 0
  {
    StarMatches(p, text);
    var s := text;
    while |s| > 0
      invariant |s| <= |text| && s == text[|text| - |s|..]
      invariant NoneBefore(Lex(p[1..]), text, |text| - |s|)
    {
      yes := StringMatch(p[1..], s, past);
      if yes {
        assert Matches(Lex(p[1..]), text[|text| - |s|..]);
        return;
      }
      NoneMore(Lex(p[1..]), text, |text| - |s|);
      s := s[1..];
    }
    MatchesNothing(p[1..]);
    NoneMore(Lex(p[1..]), text, |text|);
    yes := false;
  }

  /** The rest of the pattern matches at no position before `n`. */
  ghost predicate NoneBefore(rest: seq<Token>, text: Bytes, n: int)
    requires n <= |text| + 1
  {
    forall k :: 0 <= k < n ==> !Matches(rest, text[k..])
  }

  lemma NoneMore(rest: seq<Token>, text: Bytes, n: nat)
    requires n <= |text| && NoneBefore(rest, text, n) && !Matches(rest, text[n..])
    ensures NoneBefore(rest, text, n + 1)
    ensures n < |text| ==> text[n..][1..] == text[n + 1..]
  {
  }

  /** The part of the loop that matches one character. */
  method MatchOne(p: Bytes, c: byte, past: byte) returns (yes: bool, rest: Bytes)
    requires p != [] && p[0] != STAR && WellFormed(p) && Harmless(past)
    ensures rest == Head(p).1 && (yes <==> Accepts(Head(p).0, c))
  {
    if p[0] == QUESTION {
      return true, p[1..];
    } else if p[0] == OPEN {
      var q := p[1..];
      var first := if q == [] then past else q[0];
      var negation := first == CARET;
      if negation {
        q := q[1..];
      }
      var found;
      found, rest := MatchClass(q, c, past);
      return found != negation, rest;
    } else if p[0] == BACKSLASH && |p| >= 2 {
      return p[1] == c, p[2..];
    } else {
      return p[0] == c, p[1..];
    }
  }

  /** stringmatchlen (deps/StringMatchLen.h:44-164) says yes exactly when the string matches the pattern. */
  method StringMatch(pattern: Bytes, text: Bytes, past: byte) returns (yes: bool)
    requires text != [] && WellFormed(pattern) && Harmless(past)
    ensures yes <==> Matches(Lex(pattern), text)
    decreases |pattern|, 1
  {
    var p, s := pattern, text;
    while |p| > 0
      invariant s != [] && WellFormed(p) && |p| <= |pattern|
      invariant Matches(Lex(pattern), text) <==> Matches(Lex(p), s)
      decreases |p|
    {
      if p[0] == STAR {
        p := CollapseStars(p, s, past);
        if |p| == 1 {
          LoneStar(s);
          return true;
        }
        yes := MatchStar(p, s, past);
        return;
      }
      OneMatches(p, s);
      var ok;
      ok, p := MatchOne(p, s[0], past);
      if !ok {
        return false;
      }
      s := s[1..];
      if s == [] {
        p := SkipStars(p, past);
        return p == [];
      }
    }
    yes := false;
  }

  /** Of several stars only the last is kept. */
  method CollapseStars(p: Bytes, ghost s: Bytes, past: byte) returns (q: Bytes)
    requires p != [] && p[0] == STAR && WellFormed(p) && Harmless(past)
    ensures q != [] && q[0] == STAR && WellFormed(q) && |q| <= |p| && (|q| > 1 ==> q[1] != STAR)
    ensures Matches(Lex(q), s) <==> Matches(Lex(p), s)
    ensures |q| == 1 ==> q == [STAR]
  {
    q := p;
    while (if |q| == 1 then past else q[1]) == STAR
      invariant q != [] && q[0] == STAR && WellFormed(q) && |q| <= |p| && (Matches(Lex(q), s) <==> Matches(Lex(p), s))
      decreases |q|
    {
      StarStar(q, s);
      q := q[1..];
    }
  }

  /** At the end of the string only stars may be left. */
  method SkipStars(p: Bytes, past: byte) returns (q: Bytes)
    requires Harmless(past)
    ensures q == [] <==> Matches(Lex(p), [])
  {
    q := p;
    while (if q == [] then past else q[0]) == STAR
      invariant Matches(Lex(q), []) <==> Matches(Lex(p), [])
      decreases |q|
    {
      MatchesNothing(q);
      q := q[1..];
    }
    MatchesNothing(q);
  }

  // ---------------------------------------------------------------- what each byte of a pattern means

  /** The empty pattern matches the empty string only; `*` any string in front of what the rest matches. */
  lemma StarMeans(p: Bytes, s: Bytes)
    ensures Matches(Lex([]), s) <==> s == []
    ensures Matches(Lex([42] + p), s) <==> exists k :: 0 <= k <= |s| && Matches(Lex(p), s[k..])
  {
    assert ([42] + p)[1..] == p;
    StarMatches([42] + p, s);
  }

  /** `?` is any one byte, a backslash makes the next byte ordinary, and other bytes stand for themselves. */
  lemma ByteMeans(b: byte, p: Bytes, s: Bytes)
    ensures Matches(Lex([63] + p), s) <==> s != [] && Matches(Lex(p), s[1..])
    ensures Matches(Lex([92, b] + p), s) <==> s != [] && s[0] == b && Matches(Lex(p), s[1..])
    ensures b !in {42, 63, 91, 92} ==> (Matches(Lex([b] + p), s) <==> s != [] && s[0] == b && Matches(Lex(p), s[1..]))
    ensures Matches(Lex([92]), s) <==> s == [92]
  {
    assert ([63] + p)[1..] == p && ([92, b] + p)[2..] == p && ([b] + p)[1..] == p;
    FirstMeans([63] + p, p, s);
    FirstMeans([92, b] + p, p, s);
    if b !in {42, 63, 91, 92} { FirstMeans([b] + p, p, s); }
    FirstMeans([92], [], s);
    assert s != [] && s[1..] == [] ==> s == [s[0]];
  }

  lemma FirstMeans(p: Bytes, rest: Bytes, s: Bytes)
    requires p != [] && p[0] != 42 && Head(p).1 == rest
    ensures Matches(Lex(p), s) <==> s != [] && Accepts(Head(p).0, s[0]) && Matches(Lex(rest), s[1..])
  {
    if s != [] { OneMatches(p, s); } else { MatchesNothing(p); }
  }

  /** A class as it is written: every single byte behind a backslash, every range with a dash. */
  function Written(items: seq<Item>): Bytes
  {
    if items == [] then []
    else
      (match items[0] case Single(b) => [92, b] case Range(a, b) => [a, 45, b]) + Written(items[1..])
  }

  function ClassText(negated: bool, items: seq<Item>): Bytes
  {
    (if negated then [91, 94] else [91]) + Written(items) + [93]
  }

  /** Ranges that do not begin with a backslash or a closing bracket. */
  predicate Writable(items: seq<Item>)
  {
    forall i :: 0 <= i < |items| && items[i].Range? ==> items[i].start != 92 && items[i].start != 93
  }

  lemma {:induction false} ItemsWritten(items: seq<Item>, p: Bytes)
    requires Writable(items)
    ensures Items(Written(items) + [93] + p) == (items, p)
  {
    var s := Written(items) + [93] + p;
    if items == [] {
      assert s == [93] + p && ([93] + p)[1..] == p;
    } else {
      ItemsWritten(items[1..], p);
      var rest := Written(items[1..]) + [93] + p;
      assert items == [items[0]] + items[1..];
      match items[0] {
        case Single(b) => assert s == [92, b] + rest && s[2..] == rest;
        case Range(a, b) => assert s == [a, 45, b] + rest && s[3..] == rest;
      }
    }
  }

  /**
   * `[...]` accepts the bytes listed and those between the ends of a range, in either order and as signed
   * numbers; `[^...]` accepts all others.
   */
  lemma ClassMeans(negated: bool, items: seq<Item>, p: Bytes, s: Bytes)
    requires Writable(items) && (!negated && items != [] && items[0].Range? ==> items[0].start != 94)
    ensures Matches(Lex(ClassText(negated, items) + p), s) <==>
      && s != [] && (negated <==> !exists i :: 0 <= i < |items| && Covers(items[i], s[0])) && Matches(Lex(p), s[1..])
  {
    ClassHead(negated, items, p);
    FirstMeans(ClassText(negated, items) + p, p, s);
    if s != [] { ItemsCover(items, s[0]); }
  }

  lemma ClassHead(negated: bool, items: seq<Item>, p: Bytes)
    requires Writable(items) && (!negated && items != [] && items[0].Range? ==> items[0].start != 94)
    ensures Head(ClassText(negated, items) + p) == (Class(negated, items), p)
  {
    var body := Written(items) + [93] + p;
    ItemsWritten(items, p);
    WrittenFront(items, p);
    HeadOfClass(negated, body);
    Associate(if negated then [91, 94] else [91], Written(items), [93], p);
  }

  lemma WrittenFront(items: seq<Item>, p: Bytes)
    ensures var body := Written(items) + [93] + p;
      body != [] && (body[0] == 94 ==> items != [] && items[0].Range? && items[0].start == 94)
  {
  }

  lemma Associate(a: Bytes, b: Bytes, c: Bytes, d: Bytes)
    ensures a + b + c + d == a + (b + c + d)
  {
  }

  lemma HeadOfClass(negated: bool, body: Bytes)
    requires body != [] && (!negated ==> body[0] != 94)
    ensures Head((if negated then [91, 94] else [91]) + body) == (Class(negated, Items(body).0), Items(body).1)
  {
    if negated {
      assert ([91, 94] + body)[1..] == [94] + body && ([94] + body)[1..] == body;
    } else {
      assert ([91] + body)[1..] == body;
    }
  }

  lemma ItemsCover(items: seq<Item>, c: byte)
    ensures ItemsAccept(items, c) <==> exists i :: 0 <= i < |items| && Covers(items[i], c)
  {
    forall i | 0 <= i < |items| ensures ItemAccepts(items[i], c) <==> Covers(items[i], c) { }
  }

  predicate Covers(i: Item, c: byte)
  {
    match i
    case Single(b) => c == b
    case Range(a, b) =>
      var x, y, z := if a < 128 then a as int else a as int - 256, if c < 128 then c as int else c as int - 256,
        if b < 128 then b as int else b as int - 256;
      x <= y <= z || z <= y <= x
  }
}
