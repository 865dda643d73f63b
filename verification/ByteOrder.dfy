/** The order of byte strings, as rocksdb compares its keys. */
module ByteOrder {
  import opened Bytes

  predicate Before(a: Bytes, b: Bytes)
  {
    b != [] && (a == [] || a[0] < b[0] || (a[0] == b[0] && Before(a[1..], b[1..])))
  }

  lemma {:induction false} BeforeAppend(a: Bytes, b: Bytes, f: Bytes, g: Bytes)
    requires |a| == |b|
    ensures Before(a + f, b + g) <==> Before(a, b) || (a == b && Before(f, g))
  {
    if a == [] {
      assert a + f == f && b + g == g;
    } else {
      assert (a + f)[1..] == a[1..] + f && (b + g)[1..] == b[1..] + g;
      BeforeAppend(a[1..], b[1..], f, g);
      assert a == [a[0]] + a[1..] && b == [b[0]] + b[1..];
    }
  }

  lemma BeforePrefix(p: Bytes, a: Bytes, b: Bytes)
    ensures Before(p + a, p + b) <==> Before(a, b)
  {
    BeforeAppend(p, p, a, b);
    BeforeIrreflexive(p);
  }

  lemma {:induction false} BeforeIrreflexive(a: Bytes)
    ensures !Before(a, a)
  {
    if a != [] { BeforeIrreflexive(a[1..]); }
  }

  lemma {:induction false} BeforeTransitive(a: Bytes, b: Bytes, c: Bytes)
    requires Before(a, b) && Before(b, c)
    ensures Before(a, c)
  {
    if a != [] && a[0] == b[0] && b[0] == c[0] {
      BeforeTransitive(a[1..], b[1..], c[1..]);
    }
  }

  lemma {:induction false} BeforeTotal(a: Bytes, b: Bytes)
    ensures Before(a, b) || Before(b, a) || a == b
  {
    if a != [] && b != [] && a[0] == b[0] {
      BeforeTotal(a[1..], b[1..]);
      assert a == [a[0]] + a[1..] && b == [b[0]] + b[1..];
    }
  }

  /** What lies between two strings begins like both. */
  lemma {:induction false} PrefixBetween(p: Bytes, a: Bytes, m: Bytes, b: Bytes)
    requires p <= a && p <= b && Before(a, m) && Before(m, b)
    ensures p <= m
  {
    if p != [] {
      assert m[0] == p[0];
      assert p[1..] <= a[1..] && p[1..] <= b[1..];
      PrefixBetween(p[1..], a[1..], m[1..], b[1..]);
      assert m == [m[0]] + m[1..] && p == [p[0]] + p[1..];
    }
  }
}
