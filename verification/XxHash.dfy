/**
 * Streaming and one-shot xxHash (deps/xxhash/xxhash.cc). Both cut the input into stripes, feed
 * them to four lanes and finish with what is left; the streaming form keeps the beginning of a
 * stripe between calls. That they agree does not depend on the arithmetic, so the rounds are a
 * parameter; the rounds of XXH32 and XXH64 follow at the end.
 */
module XxHash {
  import opened Bytes

  /**
   * `merge` combines the lanes of a long input; the hash of a short one starts from its seed, which the third
   * lane keeps.
   */
  datatype Rounds<!Lanes, !Word> = Rounds(
    start: Word -> Lanes,
    absorb: (Lanes, Bytes) -> Lanes,
    merge: Lanes -> Word,
    third: Lanes -> Word,
    short: Word -> Word,
    addLength: (Word, nat) -> Word,
    finish: (Word, Bytes) -> Word)

  ghost predicate Lawful<Lanes, Word(!new)>(r: Rounds<Lanes, Word>)
  {
    forall seed: Word :: r.third(r.start(seed)) == seed
  }

  /** All whole stripes of the input. */
  function Stripes<Lanes, Word>(r: Rounds<Lanes, Word>, width: nat, v: Lanes, s: Bytes): Lanes
    requires width > 0
    decreases |s|
  {
    if |s| < width then v else Stripes(r, width, r.absorb(v, s[..width]), s[width..])
  }

  /** What does not fill a stripe. */
  function Rest(width: nat, s: Bytes): (t: Bytes)
    requires width > 0
    ensures |t| < width
    decreases |s|
  {
    if |s| < width then s else Rest(width, s[width..])
  }

  /** Appending to the input only needs what was left over. */
  lemma {:induction false} StripesAppend<Lanes, Word>(r: Rounds<Lanes, Word>, width: nat, v: Lanes, a: Bytes, b: Bytes)
    requires width > 0
    ensures Stripes(r, width, v, a + b) == Stripes(r, width, Stripes(r, width, v, a), Rest(width, a) + b)
    ensures Rest(width, a + b) == Rest(width, Rest(width, a) + b)
    decreases |a|
  {
    if |a| >= width {
      assert (a + b)[..width] == a[..width] && (a + b)[width..] == a[width..] + b;
      StripesAppend(r, width, r.absorb(v, a[..width]), a[width..], b);
    }
  }

  lemma {:induction false} RestSize(width: nat, s: Bytes)
    requires width > 0
    ensures |Rest(width, s)| == |s| % width
    decreases |s|
  {
    if |s| >= width {
      RestSize(width, s[width..]);
      Wraps(|s| - width, width);
    }
  }

  lemma Wraps(n: nat, width: nat)
    requires width > 0
    ensures (n + width) % width == n % width
  {
    assert (n + width) - (n % width) == (n / width + 1) * width;
    ModUnique(n + width, width, n / width + 1, n % width);
  }

  lemma ModUnique(n: nat, width: nat, q: nat, m: nat)
    requires m < width && n == q * width + m
    ensures n % width == m
  {
    var k := n / width;
    assert k * width + n % width == q * width + m;
    if k < q {
      OneMore(k, q, width);
    } else if k > q {
      OneMore(q, k, width);
    }
  }

  /** Counting modulo m loses nothing that matters modulo m. */
  lemma ModAdd(a: nat, b: nat, m: nat)
    requires m > 0
    ensures (a % m + b % m) % m == (a + b) % m
  {
    DivMod(a, m);
    DivMod(b, m);
    ModSum(a / m, a % m, b / m, b % m, m);
  }

  lemma DivMod(a: nat, m: nat)
    requires m > 0
    ensures (a / m) * m + a % m == a && a % m < m
  {
  }

  lemma ModSum(q: nat, x: nat, p: nat, y: nat, m: nat)
    requires x < m && y < m
    ensures (x + y) % m == (q * m + x + (p * m + y)) % m
  {
    var n := q * m + x + (p * m + y);
    assert n == (q + p) * m + (x + y);
    if x + y < m {
      ModUnique(n, m, q + p, x + y);
      ModUnique(x + y, m, 0, x + y);
    } else {
      assert n == (q + p + 1) * m + (x + y - m);
      ModUnique(n, m, q + p + 1, x + y - m);
      ModUnique(x + y, m, 1, x + y - m);
    }
  }

  lemma OneMore(k: nat, q: nat, width: nat)
    requires k < q
    ensures k * width + width <= q * width
  {
    assert q * width == (k + 1) * width + (q - k - 1) * width;
  }

  /** The hash of a whole input; lengths are counted modulo the size of a word. */
  function Hash<Lanes, Word>(r: Rounds<Lanes, Word>, width: nat, modulus: nat, input: Bytes, seed: Word): Word
    requires width > 0 && modulus > 0
  {
    var v := Stripes(r, width, r.start(seed), input);
    var h := if |input| >= width then r.merge(v) else r.short(seed);
    r.finish(r.addLength(h, |input| % modulus), Rest(width, input))
  }

  /** XXH32_endian_align and XXH64_endian_align (deps/xxhash/xxhash.cc:351-389, 810-852). */
  method OneShot<Lanes, Word>(r: Rounds<Lanes, Word>, width: nat, modulus: nat, input: Bytes, seed: Word)
    returns (hash: Word)
    requires width > 0 && modulus > 0
    ensures hash == Hash(r, width, modulus, input, seed)
  {
    var h;
    var p := 0;
    var v := r.start(seed);
    if |input| >= width {
      while p + width <= |input|
        invariant 0 <= p <= |input|
        invariant Stripes(r, width, v, input[p..]) == Stripes(r, width, r.start(seed), input)
        invariant Rest(width, input[p..]) == Rest(width, input)
      {
        assert input[p..][..width] == input[p..p + width] && input[p..][width..] == input[p + width..];
        v := r.absorb(v, input[p..p + width]);
        p := p + width;
      }
      h := r.merge(v);
    } else {
      h := r.short(seed);
    }
    hash := r.finish(r.addLength(h, |input| % modulus), input[p..]);
  }

  // ---------------------------------------------------------------- streaming

  /**
   * The lanes and the buffer of XXH32_state_t and XXH64_state_t, and the part of the update functions that is
   * alike.
   */
  class Absorber<Lanes, Word> {
    const r: Rounds<Lanes, Word>
    const width: nat
    const mem: array<byte>
    var memsize: nat
    var v: Lanes

    ghost predicate Shape()
      reads this
    {
      width > 0 && mem.Length == width && memsize < width
    }

    /** This much input has been seen. */
    ghost predicate Holds(seed: Word, seen: Bytes)
      reads this, mem
    {
      Shape() && v == Stripes(r, width, r.start(seed), seen) && mem[..memsize] == Rest(width, seen)
    }

    constructor (rounds: Rounds<Lanes, Word>, w: nat, seed: Word)
      requires w > 0
      ensures fresh(mem) && width == w && r == rounds && Holds(seed, [])
    {
      r, width, memsize, v := rounds, w, 0, rounds.start(seed);
      mem := new byte[w];
    }

    method Store(at: nat, bytes: Bytes)
      requires at + |bytes| <= mem.Length
      modifies mem
      ensures mem[..at + |bytes|] == old(mem[..at]) + bytes
    {
      forall i | 0 <= i < |bytes| {
        mem[at + i] := bytes[i];
      }
    }

    /** Complete the stripe in the buffer. */
    method CompleteStripe(input: Bytes) returns (p: nat)
      requires Shape() && memsize + |input| >= width
      modifies this, mem
      ensures Shape() && memsize == 0 && p <= |input|
      ensures Stripes(r, width, v, input[p..]) == Stripes(r, width, old(v), old(mem[..memsize]) + input)
      ensures Rest(width, input[p..]) == Rest(width, old(mem[..memsize]) + input)
    {
      p := 0;
      ghost var all := mem[..memsize] + input;
      if memsize > 0 {
        p := width - memsize;
        Store(memsize, input[..p]);
        assert mem[..] == mem[..width] == all[..width] && all[width..] == input[p..];
        v := r.absorb(v, mem[..]);
        memsize := 0;
      } else {
        assert all == input && input[0..] == input;
      }
    }

    /** The loop over whole stripes. */
    method AbsorbStripes(input: Bytes, from: nat) returns (p: nat)
      requires Shape() && from <= |input|
      modifies `v
      ensures from <= p <= |input| && |input| - p < width
      ensures v == Stripes(r, width, old(v), input[from..]) && input[p..] == Rest(width, input[from..])
    {
      p := from;
      while p + width <= |input|
        invariant from <= p <= |input|
        invariant Stripes(r, width, v, input[p..]) == Stripes(r, width, old(v), input[from..])
        invariant Rest(width, input[p..]) == Rest(width, input[from..])
      {
        assert input[p..][..width] == input[p..p + width] && input[p..][width..] == input[p + width..];
        v := r.absorb(v, input[p..p + width]);
        p := p + width;
      }
    }

    /** XXH32_update_endian and XXH64_update_endian without the counters (deps/xxhash/xxhash.cc:465-503, 925-966). */
    method Absorb(input: Bytes, ghost seed: Word, ghost seen: Bytes)
      requires Holds(seed, seen)
      modifies this, mem
      ensures Holds(seed, seen + input)
    {
      StripesAppend(r, width, r.start(seed), seen, input);
      if memsize + |input| < width {
        Store(memsize, input);
        memsize := memsize + |input|;
        return;
      }
      var p := CompleteStripe(input);
      p := AbsorbStripes(input, p);
      if p < |input| {
        Store(0, input[p..]);
        memsize := |input| - p;
        assert mem[..memsize] == input[p..];
      }
    }
  }

  /** The flag is set with the first update that makes the input long, before the counter can wrap around. */
  lemma StaysLarge(seen: nat, more: nat)
    ensures (seen % 0x1_0000_0000 + more % 0x1_0000_0000) % 0x1_0000_0000 == (seen + more) % 0x1_0000_0000
    ensures seen + more >= 16 <==> seen >= 16 || more >= 16 || (seen + more) % 0x1_0000_0000 >= 16
  {
    ModAdd(seen, more, 0x1_0000_0000);
    if seen + more < 32 {
      ModUnique(seen + more, 0x1_0000_0000, 0, seen + more);
    }
  }

  /**
   * XXH32_state_t (deps/xxhash/xxhash.cc:440-542): the length is kept modulo 2^32, next to a flag that
   * remembers a long input.
   */
  class State32<Lanes, Word(!new)> {
    const core: Absorber<Lanes, Word>
    var totalLen32: nat
    var largeLen: bool

    ghost predicate Holds(seed: Word, seen: Bytes)
      reads this, core, core.mem
    {
      && core.width == 16 && core.Holds(seed, seen)
      && totalLen32 == |seen| % 0x1_0000_0000 && largeLen == (|seen| >= 16)
    }

    constructor (rounds: Rounds<Lanes, Word>, seed: Word)
      ensures fresh(core) && fresh(core.mem) && core.r == rounds && Holds(seed, [])
    {
      core := new Absorber(rounds, 16, seed);
      totalLen32, largeLen := 0, false;
    }

    method Update(input: Bytes, ghost seed: Word, ghost seen: Bytes)
      requires Holds(seed, seen)
      modifies this, core, core.mem
      ensures Holds(seed, seen + input)
    {
      StaysLarge(|seen|, |input|);
      totalLen32 := (totalLen32 + |input| % 0x1_0000_0000) % 0x1_0000_0000;
      largeLen := largeLen || |input| >= 16 || totalLen32 >= 16;
      core.Absorb(input, seed, seen);
    }

    /** However the input was cut into updates, the digest is the one-shot hash, even beyond 4 GiB. */
    method Digest(ghost seed: Word, ghost seen: Bytes) returns (hash: Word)
      requires Holds(seed, seen) && Lawful(core.r)
      ensures hash == Hash(core.r, 16, 0x1_0000_0000, seen, seed)
    {
      var h := if largeLen then core.r.merge(core.v) else core.r.short(core.r.third(core.v));
      hash := core.r.finish(core.r.addLength(h, totalLen32), core.mem[..core.memsize]);
    }
  }

  /**
   * XXH64_state_t (deps/xxhash/xxhash.cc:897-1002): the length alone tells long inputs from short ones and
   * how much the buffer holds.
   */
  class State64<Lanes, Word(!new)> {
    const core: Absorber<Lanes, Word>
    var totalLen: nat

    ghost predicate Holds(seed: Word, seen: Bytes)
      reads this, core, core.mem
    {
      core.width == 32 && core.Holds(seed, seen) && totalLen == |seen| % 0x1_0000_0000_0000_0000
    }

    constructor (rounds: Rounds<Lanes, Word>, seed: Word)
      ensures fresh(core) && fresh(core.mem) && core.r == rounds && Holds(seed, [])
    {
      core := new Absorber(rounds, 32, seed);
      totalLen := 0;
    }

    method Update(input: Bytes, ghost seed: Word, ghost seen: Bytes)
      requires Holds(seed, seen)
      modifies this, core, core.mem
      ensures Holds(seed, seen + input)
    {
      ModAdd(|seen|, |input|, 0x1_0000_0000_0000_0000);
      totalLen := (totalLen + |input| % 0x1_0000_0000_0000_0000) % 0x1_0000_0000_0000_0000;
      core.Absorb(input, seed, seen);
    }

    /** The digest is the one-shot hash of any input that a size_t can measure. */
    method Digest(ghost seed: Word, ghost seen: Bytes) returns (hash: Word)
      requires Holds(seed, seen) && Lawful(core.r) && |seen| < 0x1_0000_0000_0000_0000
      ensures hash == Hash(core.r, 32, 0x1_0000_0000_0000_0000, seen, seed)
    {
      RestSize(32, seen);
      var h := if totalLen >= 32 then core.r.merge(core.v) else core.r.short(core.r.third(core.v));
      hash := core.r.finish(core.r.addLength(h, totalLen), core.mem[..totalLen % 32]);
    }
  }

  /** Any number of updates. */
  function Concatenated(inputs: seq<Bytes>): Bytes
  {
    if inputs == [] then [] else Concatenated(inputs[..|inputs| - 1]) + inputs[|inputs| - 1]
  }

  method HashInPieces32<Lanes, Word(!new)>(rounds: Rounds<Lanes, Word>, seed: Word, inputs: seq<Bytes>)
    returns (hash: Word)
    requires Lawful(rounds)
    ensures hash == Hash(rounds, 16, 0x1_0000_0000, Concatenated(inputs), seed)
  {
    var state := new State32(rounds, seed);
    var i := 0;
    while i < |inputs|
      invariant 0 <= i <= |inputs| && fresh(state) && fresh(state.core) && fresh(state.core.mem)
      invariant state.core.r == rounds && state.Holds(seed, Concatenated(inputs[..i]))
    {
      assert inputs[..i + 1][..i] == inputs[..i];
      state.Update(inputs[i], seed, Concatenated(inputs[..i]));
      i := i + 1;
    }
    assert inputs[..i] == inputs;
    hash := state.Digest(seed, Concatenated(inputs));
  }

  method HashInPieces64<Lanes, Word(!new)>(rounds: Rounds<Lanes, Word>, seed: Word, inputs: seq<Bytes>)
    returns (hash: Word)
    requires Lawful(rounds) && |Concatenated(inputs)| < 0x1_0000_0000_0000_0000
    ensures hash == Hash(rounds, 32, 0x1_0000_0000_0000_0000, Concatenated(inputs), seed)
  {
    var state := new State64(rounds, seed);
    var i := 0;
    while i < |inputs|
      invariant 0 <= i <= |inputs| && fresh(state) && fresh(state.core) && fresh(state.core.mem)
      invariant state.core.r == rounds && state.Holds(seed, Concatenated(inputs[..i]))
    {
      assert inputs[..i + 1][..i] == inputs[..i];
      state.Update(inputs[i], seed, Concatenated(inputs[..i]));
      i := i + 1;
    }
    assert inputs[..i] == inputs;
    hash := state.Digest(seed, Concatenated(inputs));
  }
}
