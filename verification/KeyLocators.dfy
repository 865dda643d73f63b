/**
 * The byte strings behind the locators (src/storage/KeyLocators.hh) and the way back
 * (src/storage/ReverseLocator.hh). A key is escaped by putting a bar before each hash sign
 * and ends at two hash signs; a key that itself ends in a bar blurs that ending.
 */
module KeyLocators {
  import opened Bytes
  import opened StoreModel
  import opened ByteOrder

  const HASH: byte := 35
  const BAR: byte := 124

  // ---------------------------------------------------------------- escaping

  function Unit(c: byte): Bytes
  {
    if c == HASH then [BAR, HASH] else [c]
  }

  function Escape(k: Bytes): Bytes
  {
    if k == [] then [] else Unit(k[0]) + Escape(k[1..])
  }

  const END: Bytes := [HASH, HASH]

  /** appendEscapedString, with whatever follows. */
  function Escaped(k: Bytes, rest: Bytes): Bytes
  {
    Escape(k) + END + rest
  }

  /** `a` and `b` differ in their last byte only, a hash sign there and a bar here. */
  predicate Twins(a: Bytes, b: Bytes)
  {
    |a| == |b| > 0 && a[..|a| - 1] == b[..|b| - 1] && a[|a| - 1] == HASH && b[|b| - 1] == BAR
  }

  predicate Clash(a: Bytes, f: Bytes, b: Bytes, g: Bytes)
  {
    Twins(a, b) && g == [HASH] + f
  }

  lemma EscapedCons(c: byte, k: Bytes, f: Bytes)
    ensures Escaped([c] + k, f) == Unit(c) + Escaped(k, f)
  {
    assert ([c] + k)[1..] == k;
  }

  /** An escaped string starts with a hash sign only if it is empty. */
  lemma EscapedHead(k: Bytes, f: Bytes)
    requires k != []
    ensures Escaped(k, f)[0] == (if k[0] == HASH then BAR else k[0]) != HASH
  {
    assert Escaped(k, f)[0] == Unit(k[0])[0];
  }

  lemma TwinsCons(c: byte, a: Bytes, b: Bytes)
    requires a != [] && b != []
    ensures Twins([c] + a, [c] + b) <==> Twins(a, b)
  {
    assert ([c] + a)[..|a|] == [c] + a[..|a| - 1];
    assert ([c] + b)[..|b|] == [c] + b[..|b| - 1];
    if Twins([c] + a, [c] + b) {
      assert a[..|a| - 1] == ([c] + a)[..|a|][1..] == ([c] + b)[..|b|][1..] == b[..|b| - 1];
    }
  }

  /** A hash sign against a bar at the front: the strings agree only for twins of length one. */
  lemma HashAgainstBar(a: Bytes, f: Bytes, b: Bytes, g: Bytes)
    requires a != [] && b != [] && a[0] == HASH && b[0] == BAR
    ensures Escaped(a, f) == Escaped(b, g) <==> Clash(a, f, b, g)
  {
    var (a1, b1) := (a[1..], b[1..]);
    assert a == [HASH] + a1 && b == [BAR] + b1;
    EscapedCons(HASH, a1, f);
    EscapedCons(BAR, b1, g);
    assert Escaped(a, f) == [BAR] + ([HASH] + Escaped(a1, f));
    assert Escaped(b, g) == [BAR] + Escaped(b1, g);
    assert Escaped(a, f) == Escaped(b, g) <==> [HASH] + Escaped(a1, f) == Escaped(b1, g) by {
      assert ([BAR] + ([HASH] + Escaped(a1, f)))[1..] == [HASH] + Escaped(a1, f);
      assert ([BAR] + Escaped(b1, g))[1..] == Escaped(b1, g);
    }
    if b1 != [] {
      EscapedHead(b1, g);
      assert ([HASH] + Escaped(a1, f))[0] == HASH;
    } else {
      assert Escaped(b1, g) == [HASH] + ([HASH] + g);
      assert ([HASH] + Escaped(a1, f))[1..] == Escaped(a1, f);
      assert ([HASH] + ([HASH] + g))[1..] == [HASH] + g;
      if a1 != [] {
        EscapedHead(a1, f);
        assert ([HASH] + g)[0] == HASH;
      } else {
        assert Escaped(a1, f) == [HASH] + ([HASH] + f);
        assert ([HASH] + ([HASH] + f))[1..] == [HASH] + f && ([HASH] + g)[1..] == g;
      }
    }
  }

  lemma TwinsAgreeUpFront(a: Bytes, b: Bytes)
    requires a != [] && b != []
    ensures Twins(a, b) ==> a[0] == b[0] || (a[0] == HASH && b[0] == BAR)
  {
    if Twins(a, b) && |a| > 1 { assert a[0] == a[..|a| - 1][0] == b[..|b| - 1][0] == b[0]; }
  }

  /** The first byte in common can be taken off both sides. */
  lemma SameHead(c: byte, a: Bytes, f: Bytes, b: Bytes, g: Bytes)
    ensures Escaped([c] + a, f) == Escaped([c] + b, g) <==> Escaped(a, f) == Escaped(b, g)
    ensures a != [] && b != [] ==> (Clash([c] + a, f, [c] + b, g) <==> Clash(a, f, b, g))
  {
    EscapedCons(c, a, f);
    EscapedCons(c, b, g);
    assert (Unit(c) + Escaped(a, f))[|Unit(c)|..] == Escaped(a, f);
    assert (Unit(c) + Escaped(b, g))[|Unit(c)|..] == Escaped(b, g);
    if a != [] && b != [] { TwinsCons(c, a, b); }
  }

  /** Exactly which pairs of key and field share an escaped string. */
  lemma {:induction false} EscapedCollision(a: Bytes, f: Bytes, b: Bytes, g: Bytes)
    ensures Escaped(a, f) == Escaped(b, g) <==> (a == b && f == g) || Clash(a, f, b, g) || Clash(b, g, a, f)
    decreases |a|
  {
    if a == [] && b == [] {
      assert Escaped(a, f)[2..] == f && Escaped(b, g)[2..] == g;
    } else if a == [] {
      EscapedHead(b, g);
      assert Escaped(a, f)[0] == HASH;
    } else if b == [] {
      EscapedHead(a, f);
      assert Escaped(b, g)[0] == HASH;
    } else {
      TwinsAgreeUpFront(a, b);
      TwinsAgreeUpFront(b, a);
      if a[0] == b[0] {
        assert a == [a[0]] + a[1..] && b == [b[0]] + b[1..];
        EscapedCollision(a[1..], f, b[1..], g);
        SameHead(a[0], a[1..], f, b[1..], g);
        SameHead(a[0], b[1..], g, a[1..], f);
      } else if a[0] == HASH && b[0] == BAR {
        HashAgainstBar(a, f, b, g);
      } else if a[0] == BAR && b[0] == HASH {
        HashAgainstBar(b, g, a, f);
      } else {
        EscapedHead(a, f);
        EscapedHead(b, g);
      }
    }
  }

  /** Exactly when the escaped key `a` starts the record of a field `g` of key `b`. */
  lemma EscapedPrefix(a: Bytes, b: Bytes, g: Bytes)
    ensures Escaped(a, []) <= Escaped(b, g) <==> a == b || Twins(b, a) || (Twins(a, b) && g != [] && g[0] == HASH)
  {
    var n := |Escaped(a, [])|;
    if Escaped(a, []) <= Escaped(b, g) {
      var f := Escaped(b, g)[n..];
      assert Escaped(a, f) == Escaped(a, []) + f == Escaped(b, g);
      EscapedCollision(a, f, b, g);
    } else {
      EscapedCollision(a, g, b, g);
      EscapedCollision(a, [HASH] + g, b, g);
      assert Escaped(a, g) == Escaped(a, []) + g;
      assert Escaped(a, [HASH] + g) == Escaped(a, []) + ([HASH] + g);
      if g != [] && g[0] == HASH {
        EscapedCollision(a, g[1..], b, g);
        assert g == [HASH] + g[1..];
        assert Escaped(a, g[1..]) == Escaped(a, []) + g[1..];
      }
    }
  }

  // ---------------------------------------------------------------- big-endian indexes

  /** unsignedIntToBinaryString: eight bytes, most significant first. */
  function BigEndian(n: int, width: nat): Bytes
    decreases width
  {
    if width == 0 then [] else BigEndian(n / 256, width - 1) + [(n % 256) as byte]
  }

  function Pow256(width: nat): int
  {
    if width == 0 then 1 else 256 * Pow256(width - 1)
  }

  lemma {:induction false} BigEndianWidth(n: int, width: nat)
    ensures |BigEndian(n, width)| == width
    decreases width
  {
    if width > 0 { BigEndianWidth(n / 256, width - 1); }
  }

  /** The byte order of the encodings is the order of the numbers. */
  lemma {:induction false} BigEndianOrder(m: int, n: int, width: nat)
    requires 0 <= m < Pow256(width) && 0 <= n < Pow256(width)
    ensures Before(BigEndian(m, width), BigEndian(n, width)) <==> m < n
    ensures BigEndian(m, width) == BigEndian(n, width) <==> m == n
  {
    if width > 0 {
      BigEndianWidth(m / 256, width - 1);
      BigEndianWidth(n / 256, width - 1);
      BigEndianOrder(m / 256, n / 256, width - 1);
      var x, y := [(m % 256) as byte], [(n % 256) as byte];
      BeforeAppend(BigEndian(m / 256, width - 1), BigEndian(n / 256, width - 1), x, y);
      assert Before(x, y) <==> m % 256 < n % 256;
      assert m == 256 * (m / 256) + m % 256 && n == 256 * (n / 256) + n % 256;
      var (p, q) := (BigEndian(m, width), BigEndian(n, width));
      assert p[..width - 1] == BigEndian(m / 256, width - 1) && q[..width - 1] == BigEndian(n / 256, width - 1);
      assert p[width - 1] == x[0] && q[width - 1] == y[0];
    }
  }

  /** binaryStringToUnsignedInt, the way back. */
  function FromBigEndian(b: Bytes): (n: int)
    ensures 0 <= n < Pow256(|b|)
  {
    if b == [] then 0 else 256 * FromBigEndian(b[..|b| - 1]) + b[|b| - 1] as int
  }

  /** Numbers and strings of a width are the same thing. */
  lemma {:induction false} BigEndianBack(n: int, b: Bytes)
    requires 0 <= n < Pow256(|b|)
    ensures BigEndian(n, |b|) == b <==> FromBigEndian(b) == n
  {
    if b != [] {
      var c := b[..|b| - 1];
      BigEndianBack(n / 256, c);
      BigEndianWidth(n / 256, |c|);
      assert BigEndian(n, |b|)[..|b| - 1] == BigEndian(n / 256, |c|);
      assert b == c + [b[|b| - 1]];
    }
  }

  // ---------------------------------------------------------------- locators as bytes

  /** The type bytes of KeyType and InternalKeyType ('b', 'c', 'g', ... and '!', '@', '_'). */
  function EntryByte(t: KeyType): byte
  {
    match t
    case TString => 97
    case THash => 98
    case TSet => 99
    case TDeque => 100
    case TLocalityHash => 101
    case TLease => 102
    case TVersionedHash => 103
  }

  const LAST_APPLIED: Bytes := [95, 95, 108, 97, 115, 116, 45, 97, 112, 112, 108, 105, 101, 100]
  const CLOCK: Bytes := [95, 95, 99, 108, 111, 99, 107]
  const WIDTH: nat := 8

  function LocatorBytes(l: Locator): Bytes
  {
    match l
    case Clock => CLOCK
    case LastApplied => LAST_APPLIED
    case At(k, Descriptor) => [33] + k
    case At(k, Text) => [97] + k
    case At(k, Entry(t, f)) => [EntryByte(t)] + Escaped(k, f)
    case At(k, Item(i)) => [100] + Escaped(k, BigEndian(i, WIDTH))
    case At(k, LocalityData(h, f)) => [101] + Escaped(k, [100] + Escaped(h, f))
    case At(k, LocalityIndex(f)) => [101] + Escaped(k, [105] + f)
    case At(k, LeaseHolder) => [102] + k
    case At(k, ExpirationEvent(d)) => [64] + (BigEndian(d, WIDTH) + k)
  }

  /** Escaping puts a bar before every hash sign, and changes no other byte. */
  lemma EscapeBytes(c: byte, k: Bytes)
    ensures Escape([]) == [] && Escape([35] + k) == [124, 35] + Escape(k)
    ensures c != 35 ==> Escape([c] + k) == [c] + Escape(k)
  {
    assert ([35] + k)[1..] == k && ([c] + k)[1..] == k;
  }

  lemma Associate(a: Bytes, b: Bytes, c: Bytes, d: Bytes)
    ensures a + (b + c + d) == a + b + c + d
  {
  }

  /** The layout of the store, byte for byte: '!' and '@', the letters of the types, and '##' behind an escaped key. */
  lemma Layout(k: Key, f: Field, i: int)
    ensures LocatorBytes(At(k, Descriptor)) == [33] + k && LocatorBytes(At(k, Text)) == [97] + k
    ensures LocatorBytes(At(k, Entry(THash, f))) == [98] + Escape(k) + [35, 35] + f
    ensures LocatorBytes(At(k, Entry(TSet, f))) == [99] + Escape(k) + [35, 35] + f
    ensures LocatorBytes(At(k, Item(i))) == [100] + Escape(k) + [35, 35] + BigEndian(i, 8)
    ensures LocatorBytes(At(k, LeaseHolder)) == [102] + k
    ensures LocatorBytes(At(k, Entry(TVersionedHash, f))) == [103] + Escape(k) + [35, 35] + f
    ensures LocatorBytes(At(k, ExpirationEvent(i))) == [64] + BigEndian(i, 8) + k
  {
    Associate([98], Escape(k), [35, 35], f);
    Associate([99], Escape(k), [35, 35], f);
    Associate([103], Escape(k), [35, 35], f);
    Associate([100], Escape(k), [35, 35], BigEndian(i, 8));
  }

  /** A locality hash: its data lie under 'd' and the escaped hint, its index under 'i'. */
  lemma LocalityLayout(k: Key, f: Field, h: Hint)
    ensures LocatorBytes(At(k, LocalityData(h, f))) == [101] + Escape(k) + [35, 35] + ([100] + Escape(h) + [35, 35] + f)
    ensures LocatorBytes(At(k, LocalityIndex(f))) == [101] + Escape(k) + [35, 35] + ([105] + f)
  {
    Associate([100], Escape(h), [35, 35], f);
    Associate([101], Escape(k), [35, 35], [100] + Escape(h) + [35, 35] + f);
    Associate([101], Escape(k), [35, 35], [105] + f);
  }

  lemma Pow256Width()
    ensures Pow256(WIDTH) == U64_LIMIT
  {
    assert Pow256(2) == 0x1_0000;
    assert Pow256(4) == 0x1_0000_0000;
    assert Pow256(6) == 0x1_0000_0000_0000;
  }

  /** What the locator classes accept: entries of the three field types, indexes of 64 bits. */
  predicate Proper(l: Locator)
  {
    l.At? ==>
      && (l.slot.Entry? ==> l.slot.kind in {THash, TSet, TVersionedHash})
      && (l.slot.Item? ==> 0 <= l.slot.index < U64_LIMIT)
      && (l.slot.ExpirationEvent? ==> 0 <= l.slot.deadline < U64_LIMIT)
  }

  /** Different records under one string: fields of twin keys, or fields under twin hints of one locality hash. */
  predicate Collide(l: Locator, m: Locator)
  {
    l.At? && m.At? &&
    ((l.slot.Entry? && m.slot.Entry? && l.slot.kind == m.slot.kind
      && Clash(l.key, l.slot.field, m.key, m.slot.field)) ||
     (l.slot.LocalityData? && m.slot.LocalityData? && l.key == m.key &&
      Clash(l.slot.hint, l.slot.field, m.slot.hint, m.slot.field)))
  }

  /** The first byte tells the kinds of record apart, except the two kinds of a locality hash. */
  function FirstByte(l: Locator): byte
  {
    match l
    case Clock => 95
    case LastApplied => 95
    case At(_, Descriptor) => 33
    case At(_, Text) => 97
    case At(_, Entry(t, _)) => EntryByte(t)
    case At(_, Item(_)) => 100
    case At(_, LocalityData(_, _)) => 101
    case At(_, LocalityIndex(_)) => 101
    case At(_, LeaseHolder) => 102
    case At(_, ExpirationEvent(_)) => 64
  }

  lemma TailOf(c: byte, x: Bytes, y: Bytes)
    ensures [c] + x == [c] + y <==> x == y
  {
    assert ([c] + x)[1..] == x && ([c] + y)[1..] == y;
  }

  lemma PrefixTail(c: byte, x: Bytes, y: Bytes)
    ensures [c] + x <= [c] + y <==> x <= y
  {
    if x <= y {
      assert [c] + y == ([c] + x) + y[|x|..];
    }
    if [c] + x <= [c] + y {
      assert forall i :: 0 <= i < |x| ==> x[i] == ([c] + x)[i + 1] == ([c] + y)[i + 1] == y[i];
    }
  }

  lemma PlainCollision(l: Locator, m: Locator)
    requires l.At? && m.At? && l.slot == m.slot && (l.slot.Descriptor? || l.slot.Text? || l.slot.LeaseHolder?)
    ensures LocatorBytes(l) == LocatorBytes(m) <==> l == m
  {
    TailOf(FirstByte(l), l.key, m.key);
  }

  lemma EntryCollision(t: KeyType, k: Key, f: Field, j: Key, g: Field)
    ensures LocatorBytes(At(k, Entry(t, f))) == LocatorBytes(At(j, Entry(t, g))) <==>
            (k == j && f == g) || Clash(k, f, j, g) || Clash(j, g, k, f)
  {
    TailOf(EntryByte(t), Escaped(k, f), Escaped(j, g));
    EscapedCollision(k, f, j, g);
  }

  /** Indexes of equal width never make up for the extra hash sign. */
  lemma ItemCollision(k: Key, m: int, j: Key, n: int)
    requires 0 <= m < U64_LIMIT && 0 <= n < U64_LIMIT
    ensures LocatorBytes(At(k, Item(m))) == LocatorBytes(At(j, Item(n))) <==> k == j && m == n
  {
    TailOf(100, Escaped(k, BigEndian(m, WIDTH)), Escaped(j, BigEndian(n, WIDTH)));
    EscapedCollision(k, BigEndian(m, WIDTH), j, BigEndian(n, WIDTH));
    BigEndianWidth(m, WIDTH);
    BigEndianWidth(n, WIDTH);
    Pow256Width();
    BigEndianOrder(m, n, WIDTH);
  }

  lemma EventCollision(k: Key, m: int, j: Key, n: int)
    requires 0 <= m < U64_LIMIT && 0 <= n < U64_LIMIT
    ensures LocatorBytes(At(k, ExpirationEvent(m))) == LocatorBytes(At(j, ExpirationEvent(n))) <==> k == j && m == n
  {
    var (a, b) := (BigEndian(m, WIDTH), BigEndian(n, WIDTH));
    TailOf(64, a + k, b + j);
    BigEndianWidth(m, WIDTH);
    BigEndianWidth(n, WIDTH);
    Pow256Width();
    BigEndianOrder(m, n, WIDTH);
    assert (a + k)[..WIDTH] == a && (b + j)[..WIDTH] == b;
    assert (a + k)[WIDTH..] == k && (b + j)[WIDTH..] == j;
  }

  /** After a locality hash key comes a letter, so twin keys do no harm there. */
  lemma LocalityTails(k: Key, c: byte, x: Bytes, j: Key, d: byte, y: Bytes)
    requires c != HASH && d != HASH
    ensures [101] + Escaped(k, [c] + x) == [101] + Escaped(j, [d] + y) <==> k == j && c == d && x == y
  {
    TailOf(101, Escaped(k, [c] + x), Escaped(j, [d] + y));
    EscapedCollision(k, [c] + x, j, [d] + y);
    if c == d { TailOf(c, x, y); }
    assert ([c] + x)[0] == c && ([d] + y)[0] == d && ([HASH] + ([c] + x))[0] == HASH && ([HASH] + ([d] + y))[0] == HASH;
  }

  lemma LocalityCollision(l: Locator, m: Locator)
    requires l.At? && (l.slot.LocalityData? || l.slot.LocalityIndex?)
    requires m.At? && (m.slot.LocalityData? || m.slot.LocalityIndex?)
    ensures LocatorBytes(l) == LocatorBytes(m) <==> l == m || Collide(l, m) || Collide(m, l)
  {
    match (l.slot, m.slot)
    case (LocalityData(h, f), LocalityData(i, g)) =>
      LocalityTails(l.key, 100, Escaped(h, f), m.key, 100, Escaped(i, g));
      EscapedCollision(h, f, i, g);
    case (LocalityData(h, f), LocalityIndex(g)) => LocalityTails(l.key, 100, Escaped(h, f), m.key, 105, g);
    case (LocalityIndex(f), LocalityData(i, g)) => LocalityTails(l.key, 105, f, m.key, 100, Escaped(i, g));
    case (LocalityIndex(f), LocalityIndex(g)) => LocalityTails(l.key, 105, f, m.key, 105, g);
  }

  lemma FirstByteFirst(l: Locator)
    ensures LocatorBytes(l) != [] && LocatorBytes(l)[0] == FirstByte(l)
  {
  }

  lemma InternalCollision(l: Locator, m: Locator)
    requires Proper(l) && Proper(m) && !(l.At? && m.At?)
    ensures LocatorBytes(l) == LocatorBytes(m) <==> l == m
  {
    FirstByteFirst(l);
    FirstByteFirst(m);
    assert FirstByte(l) != FirstByte(m) || (!l.At? && !m.At?);
    assert |CLOCK| == 7 && |LAST_APPLIED| == 14;
  }

  lemma SameKindCollision(l: Locator, m: Locator)
    requires Proper(l) && Proper(m) && l.At? && m.At? && FirstByte(l) == FirstByte(m)
    ensures LocatorBytes(l) == LocatorBytes(m) <==> l == m || Collide(l, m) || Collide(m, l)
  {
    match l.slot
    case Entry(t, f) => EntryCollision(t, l.key, f, m.key, m.slot.field);
    case Item(i) => ItemCollision(l.key, i, m.key, m.slot.index);
    case ExpirationEvent(d) => EventCollision(l.key, d, m.key, m.slot.deadline);
    case LocalityData(_, _) => LocalityCollision(l, m);
    case LocalityIndex(_) => LocalityCollision(l, m);
    case Descriptor => PlainCollision(l, m);
    case Text => PlainCollision(l, m);
    case LeaseHolder => PlainCollision(l, m);
  }

  /** Exactly which two locators share a rocksdb key. */
  lemma LocatorCollision(l: Locator, m: Locator)
    requires Proper(l) && Proper(m)
    ensures LocatorBytes(l) == LocatorBytes(m) <==> l == m || Collide(l, m) || Collide(m, l)
  {
    if !(l.At? && m.At?) {
      InternalCollision(l, m);
    } else if FirstByte(l) == FirstByte(m) {
      SameKindCollision(l, m);
    } else {
      FirstByteFirst(l);
      FirstByteFirst(m);
    }
  }

  /**
   * So the abstract locators stand for the byte strings faithfully as long as no two keys in use,
   * and no two hints, are twins.
   */
  lemma InjectiveWithoutTwins(l: Locator, m: Locator)
    requires Proper(l) && Proper(m) && LocatorBytes(l) == LocatorBytes(m)
    requires l.At? && m.At? ==> !Twins(l.key, m.key) && !Twins(m.key, l.key)
    requires l.At? && m.At? && l.slot.LocalityData? && m.slot.LocalityData? ==>
               !Twins(l.slot.hint, m.slot.hint) && !Twins(m.slot.hint, l.slot.hint)
    ensures l == m
  {
    LocatorCollision(l, m);
  }

  /** Two fields of two hashes, one record: field "#x" of key "a|" and field "x" of key "a#". */
  lemma CollisionExample()
    ensures LocatorBytes(At([97, 124], Entry(THash, [35, 120]))) == LocatorBytes(At([97, 35], Entry(THash, [120])))
  {
    EntryCollision(THash, [97, 35], [120], [97, 124], [35, 120]);
    assert Twins([97, 35], [97, 124]);
  }

  // ---------------------------------------------------------------- namesakes

  /** The one other pair of key and field that is written as the same bytes, if there is one. */
  function Other(k: Bytes, f: Bytes): Option<(Bytes, Bytes)>
  {
    if k == [] then None
    else if k[|k| - 1] == HASH then Some((k[..|k| - 1] + [BAR], [HASH] + f))
    else if k[|k| - 1] == BAR && f != [] && f[0] == HASH then Some((k[..|k| - 1] + [HASH], f[1..]))
    else None
  }

  lemma OtherIs(a: Bytes, f: Bytes, b: Bytes, g: Bytes)
    ensures Other(a, f) == Some((b, g)) <==> Clash(a, f, b, g) || Clash(b, g, a, f)
  {
    if Clash(a, f, b, g) {
      assert b == a[..|a| - 1] + [BAR];
    }
    if Clash(b, g, a, f) {
      assert b == a[..|a| - 1] + [HASH] && f[1..] == g;
    }
    if Other(a, f) == Some((b, g)) {
      assert b[..|b| - 1] == a[..|a| - 1];
      if a[|a| - 1] == BAR {
        assert f == [HASH] + f[1..];
      }
    }
  }

  /** The one other record that would have the same name. */
  function Namesake(l: Locator): Option<Locator>
  {
    match l
    case At(k, Entry(t, f)) =>
      (match Other(k, f) case Some(p) => Some(At(p.0, Entry(t, p.1))) case None => None)
    case At(k, LocalityData(h, f)) =>
      (match Other(h, f) case Some(p) => Some(At(k, LocalityData(p.0, p.1))) case None => None)
    case _ => None
  }

  /** Collisions as a partner that can be computed. */
  lemma NamesakeIs(l: Locator, m: Locator)
    requires Proper(l) && Proper(m)
    ensures LocatorBytes(l) == LocatorBytes(m) <==> l == m || Namesake(l) == Some(m)
  {
    LocatorCollision(l, m);
    if l.At? && m.At? && l.slot.Entry? && m.slot.Entry? {
      OtherIs(l.key, l.slot.field, m.key, m.slot.field);
    }
    if l.At? && m.At? && l.slot.LocalityData? && m.slot.LocalityData? {
      OtherIs(l.slot.hint, l.slot.field, m.slot.hint, m.slot.field);
    }
  }

  lemma NamesakeBack(l: Locator)
    requires Namesake(l).Some?
    ensures var m := Namesake(l).value;
      m != l && Namesake(m) == Some(l) && (Proper(l) ==> Proper(m) && LocatorBytes(m) == LocatorBytes(l))
  {
    var m := Namesake(l).value;
    if l.slot.Entry? {
      OtherIs(l.key, l.slot.field, m.key, m.slot.field);
      OtherIs(m.key, m.slot.field, l.key, l.slot.field);
    } else {
      OtherIs(l.slot.hint, l.slot.field, m.slot.hint, m.slot.field);
      OtherIs(m.slot.hint, m.slot.field, l.slot.hint, l.slot.field);
    }
    if Proper(l) {
      NamesakeIs(l, m);
    }
  }

  /** DEL sweeps by prefix: exactly which fields it meets under the prefix of `k`. */
  lemma EntryPrefix(t: KeyType, k: Key, l: Locator)
    requires Proper(l) && t in {THash, TSet, TVersionedHash}
    ensures [EntryByte(t)] + Escaped(k, []) <= LocatorBytes(l) <==>
            l.At? && l.slot.Entry? && l.slot.kind == t &&
            (l.key == k || Twins(l.key, k) || (Twins(k, l.key) && l.slot.field != [] && l.slot.field[0] == HASH))
  {
    assert LocatorBytes(l)[0] == FirstByte(l);
    if FirstByte(l) == EntryByte(t) {
      assert l.At? && l.slot.Entry? && l.slot.kind == t;
      EscapedPrefix(k, l.key, l.slot.field);
      var (x, y) := (Escaped(k, []), Escaped(l.key, l.slot.field));
      PrefixTail(EntryByte(t), x, y);
    }
  }

  /** The same for the deques, whose fields are indexes. */
  lemma ItemPrefix(k: Key, l: Locator)
    requires Proper(l)
    ensures [100] + Escaped(k, []) <= LocatorBytes(l) <==>
            l.At? && l.slot.Item?
              && (l.key == k || Twins(l.key, k) || (Twins(k, l.key) && StartsWithHash(l.slot.index)))
  {
    FirstByteFirst(l);
    if l.At? && l.slot.Item? {
      ItemOfPrefix(k, l.key, l.slot.index);
    }
  }

  predicate StartsWithHash(index: int)
  {
    BigEndian(index, WIDTH) != [] && BigEndian(index, WIDTH)[0] == HASH
  }

  lemma ItemOfPrefix(k: Key, j: Key, i: int)
    ensures [100] + Escaped(k, []) <= LocatorBytes(At(j, Item(i))) <==>
            j == k || Twins(j, k) || (Twins(k, j) && StartsWithHash(i))
  {
    var b := BigEndian(i, WIDTH);
    BigEndianWidth(i, WIDTH);
    EscapedPrefix(k, j, b);
    PrefixTail(100, Escaped(k, []), Escaped(j, b));
  }

  /** The letter after the key tells the two tables of a locality hash apart, and one key from its twin. */
  lemma LocalityPrefix(k: Key, c: byte, l: Locator)
    requires Proper(l) && c in {100, 105}
    ensures [101] + Escaped(k, [c]) <= LocatorBytes(l) <==>
            l.At? && l.key == k && (if c == 100 then l.slot.LocalityData? else l.slot.LocalityIndex?)
  {
    FirstByteFirst(l);
    if l.At? && l.slot.LocalityData? {
      LetterPrefix(k, c, l.key, 100, Escaped(l.slot.hint, l.slot.field));
    } else if l.At? && l.slot.LocalityIndex? {
      LetterPrefix(k, c, l.key, 105, l.slot.field);
    }
  }

  lemma LetterPrefix(k: Key, c: byte, j: Key, d: byte, y: Bytes)
    requires c != HASH && d != HASH
    ensures [101] + Escaped(k, [c]) <= [101] + Escaped(j, [d] + y) <==> k == j && c == d
  {
    var x := Escaped(k, [c]);
    var z := Escaped(j, [d] + y);
    PrefixTail(101, x, z);
    if x <= z {
      var f := z[|x|..];
      assert Escaped(k, [c] + f) == x + f == z;
      EscapedCollision(k, [c] + f, j, [d] + y);
      assert ([c] + f)[0] == c && ([d] + y)[0] == d;
    } else {
      assert Escaped(k, [c] + y) == x + y;
    }
  }

  /** The iterator over expiration events meets them by deadline (assertDeadlineSanity never fires). */
  lemma EventsByDeadline(k: Key, m: int, j: Key, n: int)
    requires 0 <= m < U64_LIMIT && 0 <= n < U64_LIMIT
    requires Before(LocatorBytes(At(k, ExpirationEvent(m))), LocatorBytes(At(j, ExpirationEvent(n))))
    ensures m <= n
  {
    var (a, b) := (BigEndian(m, WIDTH), BigEndian(n, WIDTH));
    BigEndianWidth(m, WIDTH);
    BigEndianWidth(n, WIDTH);
    Pow256Width();
    BigEndianOrder(m, n, WIDTH);
    assert ([64] + (a + k))[1..] == a + k && ([64] + (b + j))[1..] == b + j;
    BeforeAppend(a, b, k, j);
  }

  /** The iterator over a deque meets its items by index. */
  lemma ItemsByIndex(k: Key, m: int, n: int)
    requires 0 <= m < U64_LIMIT && 0 <= n < U64_LIMIT
    ensures Before(LocatorBytes(At(k, Item(m))), LocatorBytes(At(k, Item(n)))) <==> m < n
  {
    var (a, b) := (BigEndian(m, WIDTH), BigEndian(n, WIDTH));
    BeforePrefix([100], Escaped(k, a), Escaped(k, b));
    BeforePrefix(Escape(k) + END, a, b);
    Pow256Width();
    BigEndianOrder(m, n, WIDTH);
  }

  // ---------------------------------------------------------------- the way back

  /** extractPrefix from position `i` on, with the key read so far; reads past the end find no hash sign. */
  function ExtractFrom(d: Bytes, i: nat, key: Bytes): Option<(Bytes, nat)>
    decreases |d| - i
  {
    if i >= |d| then None
    else if d[i] != HASH then ExtractFrom(d, i + 1, key + [d[i]])
    else if i == 0 || key == [] then None
    else if i + 1 < |d| && d[i + 1] == HASH && d[i - 1] != BAR then Some((key, i + 2))
    else if i + 2 < |d| && d[i + 1] == HASH && d[i - 1] == BAR && d[i + 2] != HASH then Some((key, i + 2))
    else if i + 2 < |d| && d[i + 1] == HASH && d[i - 1] == BAR
      && d[i + 2] == HASH
    then Some((key[..|key| - 1] + [HASH], i + 3))
    else if d[i - 1] != BAR then None
    else ExtractFrom(d, i + 1, key[..|key| - 1] + [HASH])
  }

  /**
   * The loop of extractPrefix (src/storage/ReverseLocator.hh:32-65); None stands for its parse error and its
   * assert.
   */
  method ExtractPrefix(d: Bytes) returns (r: Option<(Bytes, nat)>)
    ensures r == ExtractFrom(d, 0, [])
  {
    var key: Bytes := [];
    var i := 0;
    while i < |d|
      invariant 0 <= i <= |d|
      invariant ExtractFrom(d, 0, []) == ExtractFrom(d, i, key)
    {
      if d[i] == HASH {
        if i == 0 || key == [] { return None; }
        if i + 1 < |d| && d[i + 1] == HASH && d[i - 1] != BAR { return Some((key, i + 2)); }
        if i + 2 < |d| && d[i + 1] == HASH && d[i - 1] == BAR && d[i + 2] != HASH { return Some((key, i + 2)); }
        if i + 2 < |d| && d[i + 1] == HASH && d[i - 1] == BAR && d[i + 2] == HASH {
          return Some((key[..|key| - 1] + [HASH], i + 3));
        }
        if d[i - 1] != BAR { return None; }
        key := key[..|key| - 1] + [HASH];
      } else {
        key := key + [d[i]];
      }
      i := i + 1;
    }
    r := None;
  }

  /** The key ends in a bar and what follows does not say so: nothing, or a hash sign. */
  predicate Blurred(k: Bytes, f: Bytes)
  {
    k != [] && k[|k| - 1] == BAR && (f == [] || f[0] == HASH)
  }

  lemma {:induction false} EscapeAppend(a: Bytes, c: byte)
    ensures Escape(a + [c]) == Escape(a) + Unit(c)
  {
    if a == [] {
      assert a + [c] == [c] && Escape([c]) == Unit(c) + Escape([c][1..]);
    } else {
      assert (a + [c])[1..] == a[1..] + [c];
      EscapeAppend(a[1..], c);
    }
  }

  lemma EscapeLast(a: Bytes)
    requires a != []
    ensures Escape(a) != [] && Escape(a)[|Escape(a)| - 1] == a[|a| - 1]
  {
    var n := |a| - 1;
    assert a == a[..n] + [a[n]];
    EscapeAppend(a[..n], a[n]);
  }

  /** At the end of a key that does not end in a hash sign. */
  lemma ExtractEnd(a: Bytes, f: Bytes)
    requires a != [] && a[|a| - 1] != HASH
    ensures ExtractFrom(Escaped(a, f), |Escape(a)|, a) == Some((a, |Escape(a)| + 2)) <==> !Blurred(a, f)
  {
    EscapeLast(a);
    var d, i := Escaped(a, f), |Escape(a)|;
    assert d[i] == HASH && d[i + 1] == HASH && d[i - 1] == a[|a| - 1] && (f != [] ==> d[i + 2] == f[0]);
    if a[|a| - 1] == BAR && f == [] {
      var key := a[..|a| - 1] + [HASH];
      assert ExtractFrom(d, i, a) == ExtractFrom(d, i + 1, key) == None;
    }
  }

  lemma AfterPrefix(p: Bytes, t: Bytes, d: Bytes)
    requires d == p + [BAR, HASH] + t
    ensures d[|p|] == BAR && d[|p| + 1] == HASH
    ensures forall j :: 0 <= j < |t| ==> d[|p| + 2 + j] == t[j]
  {
  }

  /** What stands at an escaped hash sign. */
  lemma AtHash(a: Bytes, b: Bytes, f: Bytes, d: Bytes, i: nat)
    requires d == Escape(a + [HASH]) + Escaped(b, f) && i == |Escape(a)|
    ensures |d| > i + 3 && d[i] == BAR && d[i + 1] == HASH
    ensures if b == [] then d[i + 2] == HASH && d[i + 3] == HASH else d[i + 2] != HASH
  {
    var t := Escaped(b, f);
    EscapeAppend(a, HASH);
    AfterPrefix(Escape(a), t, d);
    assert |t| >= 2 && d[i + 2 + 0] == t[0] && d[i + 2 + 1] == t[1];
    if b != [] {
      EscapedHead(b, f);
    } else {
      assert t == END + f;
    }
  }

  /** There the key is complete, or reading goes on behind it. */
  lemma ExtractHash(a: Bytes, b: Bytes, f: Bytes, d: Bytes, i: nat)
    requires d == Escape(a + [HASH]) + Escaped(b, f) && i == |Escape(a)|
    ensures ExtractFrom(d, i, a) == if b == [] then Some((a + [HASH], i + 4)) else ExtractFrom(d, i + 2, a + [HASH])
  {
    AtHash(a, b, f, d, i);
    var key := a + [BAR];
    assert key[..|key| - 1] + [HASH] == a + [HASH];
    assert ExtractFrom(d, i, a) == ExtractFrom(d, i + 1, key);
  }

  /** The key comes back from position `i` on, with the part `a` read and `b` still to come. */
  ghost predicate ComesBack(a: Bytes, b: Bytes, f: Bytes)
  {
    ExtractFrom(Escape(a) + Escaped(b, f), |Escape(a)|, a) == Some((a + b, |Escape(a)| + |Escape(b)| + 2))
  }

  /** Another byte of the key is read. */
  lemma ExtractByte(a: Bytes, c: byte, b: Bytes, f: Bytes)
    requires c != HASH || b != []
    ensures ComesBack(a, [c] + b, f) <==> ComesBack(a + [c], b, f)
  {
    var d, i := Escape(a) + Escaped([c] + b, f), |Escape(a)|;
    EscapeAppend(a, c);
    EscapedCons(c, b, f);
    assert ([c] + b)[1..] == b && a + ([c] + b) == (a + [c]) + b;
    assert d == Escape(a + [c]) + Escaped(b, f);
    assert d[i] == Unit(c)[0];
    if c != HASH {
      assert ExtractFrom(d, i, a) == ExtractFrom(d, i + 1, a + [c]);
    } else {
      ExtractHash(a, b, f, d, i);
    }
  }

  /** A hash sign at the end of the key. */
  lemma ExtractLast(a: Bytes, f: Bytes)
    ensures ComesBack(a, [HASH], f)
  {
    EscapeAppend(a, HASH);
    EscapedCons(HASH, [], f);
    assert [HASH] + [] == [HASH] && Escape([HASH]) == Unit(HASH) + Escape([]);
    assert Escape(a) + Escaped([HASH], f) == Escape(a + [HASH]) + Escaped([], f);
    ExtractHash(a, [], f, Escape(a) + Escaped([HASH], f), |Escape(a)|);
  }

  lemma {:induction false} ExtractStep(a: Bytes, b: Bytes, f: Bytes)
    requires a + b != []
    requires a != [] && b == [] ==> a[|a| - 1] != HASH
    ensures ComesBack(a, b, f) <==> !Blurred(a + b, f)
    decreases |b|
  {
    if b == [] {
      assert a + b == a;
      assert Escape(a) + Escaped(b, f) == Escaped(a, f);
      ExtractEnd(a, f);
    } else if b == [HASH] {
      ExtractLast(a, f);
    } else {
      assert b == [b[0]] + b[1..] && (a + [b[0]]) + b[1..] == a + b;
      assert b[1..] == [] ==> b == [b[0]];
      ExtractByte(a, b[0], b[1..], f);
      ExtractStep(a + [b[0]], b[1..], f);
    }
  }

  /** Exactly when the key comes back: unless it ends in a bar and a hash sign or nothing follows. */
  lemma ExtractRoundTrip(k: Bytes, f: Bytes)
    requires k != []
    ensures ExtractFrom(Escaped(k, f), 0, []) == Some((k, |Escape(k)| + 2)) <==> !Blurred(k, f)
  {
    ExtractStep([], k, f);
    assert Escape([]) + Escaped(k, f) == Escaped(k, f) && [] + k == k;
  }
}
