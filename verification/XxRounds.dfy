/**
 * The arithmetic of XXH32 and XXH64 (deps/xxhash/xxhash.cc:260-335, 664-800), as the rounds that
 * the streaming and the one-shot form of XxHash share.
 */
module XxRounds {
  import opened Bytes
  import opened XxHash

  type U32 = bv32
  type U64 = bv64

  datatype Lanes<W> = Lanes(v1: W, v2: W, v3: W, v4: W)

  /** The bytes from position `at`, least significant first; bytes that are not there count as 0. */
  function LittleEndian(s: Bytes, at: nat, count: nat): nat
    decreases count
  {
    if count == 0 then 0 else (if at < |s| then s[at] as nat else 0) + 256 * LittleEndian(s, at + 1, count - 1)
  }

  function Read32(s: Bytes, at: nat): U32
  {
    (LittleEndian(s, at, 4) % 0x1_0000_0000) as bv32
  }

  function Read64(s: Bytes, at: nat): U64
  {
    (LittleEndian(s, at, 8) % 0x1_0000_0000_0000_0000) as bv64
  }

  // ---------------------------------------------------------------- XXH32

  const PRIME32_1: U32 := 2654435761
  const PRIME32_2: U32 := 2246822519
  const PRIME32_3: U32 := 3266489917
  const PRIME32_4: U32 := 668265263
  const PRIME32_5: U32 := 374761393

  function Round32(seed: U32, input: U32): U32
  {
    (seed + input * PRIME32_2).RotateLeft(13) * PRIME32_1
  }

  function Absorb32(v: Lanes<U32>, s: Bytes): Lanes<U32>
  {
    Lanes(Round32(v.v1, Read32(s, 0)), Round32(v.v2, Read32(s, 4)), Round32(v.v3, Read32(s, 8)),
      Round32(v.v4, Read32(s, 12)))
  }

  function Avalanche32(h: U32): U32
  {
    var a := (h ^ (h >> 15)) * PRIME32_2;
    var b := (a ^ (a >> 13)) * PRIME32_3;
    b ^ (b >> 16)
  }

  function Word32(h: U32, w: U32): U32
  {
    (h + w * PRIME32_3).RotateLeft(17) * PRIME32_4
  }

  function Byte32(h: U32, b: U32): U32
  {
    (h + b * PRIME32_5).RotateLeft(11) * PRIME32_1
  }

  /** XXH32_finalize: words of four bytes, then single bytes. */
  function Finish32(h: U32, tail: Bytes): U32
    decreases |tail|
  {
    if |tail| >= 4 then Finish32(Word32(h, Read32(tail, 0)), tail[4..])
    else if |tail| > 0 then Finish32(Byte32(h, tail[0] as bv32), tail[1..])
    else Avalanche32(h)
  }

  function Xxh32(): Rounds<Lanes<U32>, U32>
  {
    Rounds(
      (seed: U32) => Lanes(seed + PRIME32_1 + PRIME32_2, seed + PRIME32_2, seed, seed - PRIME32_1),
      (v: Lanes<U32>, s: Bytes) => Absorb32(v, s),
      (v: Lanes<U32>) => v.v1.RotateLeft(1) + v.v2.RotateLeft(7) + v.v3.RotateLeft(12) + v.v4.RotateLeft(18),
      (v: Lanes<U32>) => v.v3,
      (seed: U32) => seed + PRIME32_5,
      (h: U32, n: nat) => h + ((n % 0x1_0000_0000) as bv32),
      (h: U32, tail: Bytes) => Finish32(h, tail))
  }

  // ---------------------------------------------------------------- XXH64

  const PRIME64_1: U64 := 11400714785074694791
  const PRIME64_2: U64 := 14029467366897019727
  const PRIME64_3: U64 := 1609587929392839161
  const PRIME64_4: U64 := 9650029242287828579
  const PRIME64_5: U64 := 2870177450012600261

  function Round64(acc: U64, input: U64): U64
  {
    (acc + input * PRIME64_2).RotateLeft(31) * PRIME64_1
  }

  function MergeRound64(acc: U64, val: U64): U64
  {
    (acc ^ Round64(0, val)) * PRIME64_1 + PRIME64_4
  }

  function Absorb64(v: Lanes<U64>, s: Bytes): Lanes<U64>
  {
    Lanes(Round64(v.v1, Read64(s, 0)), Round64(v.v2, Read64(s, 8)), Round64(v.v3, Read64(s, 16)),
      Round64(v.v4, Read64(s, 24)))
  }

  function Merge64(v: Lanes<U64>): U64
  {
    var h := v.v1.RotateLeft(1) + v.v2.RotateLeft(7) + v.v3.RotateLeft(12) + v.v4.RotateLeft(18);
    MergeRound64(MergeRound64(MergeRound64(MergeRound64(h, v.v1), v.v2), v.v3), v.v4)
  }

  function Avalanche64(h: U64): U64
  {
    var a := (h ^ (h >> 33)) * PRIME64_2;
    var b := (a ^ (a >> 29)) * PRIME64_3;
    b ^ (b >> 32)
  }

  function Word64(h: U64, w: U64): U64
  {
    (h ^ Round64(0, w)).RotateLeft(27) * PRIME64_1 + PRIME64_4
  }

  function Half64(h: U64, w: U64): U64
  {
    (h ^ (w * PRIME64_1)).RotateLeft(23) * PRIME64_2 + PRIME64_3
  }

  function Byte64(h: U64, b: U64): U64
  {
    (h ^ (b * PRIME64_5)).RotateLeft(11) * PRIME64_1
  }

  /** XXH64_finalize: words of eight bytes, at most one of four, then single bytes. */
  function Finish64(h: U64, tail: Bytes): U64
    decreases |tail|
  {
    if |tail| >= 8 then Finish64(Word64(h, Read64(tail, 0)), tail[8..])
    else if |tail| >= 4 then Finish64(Half64(h, (LittleEndian(tail, 0, 4) % 0x1_0000_0000) as bv64), tail[4..])
    else if |tail| > 0 then Finish64(Byte64(h, tail[0] as bv64), tail[1..])
    else Avalanche64(h)
  }

  function Xxh64(): Rounds<Lanes<U64>, U64>
  {
    Rounds(
      (seed: U64) => Lanes(seed + PRIME64_1 + PRIME64_2, seed + PRIME64_2, seed, seed - PRIME64_1),
      (v: Lanes<U64>, s: Bytes) => Absorb64(v, s),
      (v: Lanes<U64>) => Merge64(v),
      (v: Lanes<U64>) => v.v3,
      (seed: U64) => seed + PRIME64_5,
      (h: U64, n: nat) => h + ((n % 0x1_0000_0000_0000_0000) as bv64),
      (h: U64, tail: Bytes) => Finish64(h, tail))
  }

  /** Both keep the seed in the third lane, which is what lets the streaming form do without it. */
  lemma RoundsLawful()
    ensures Lawful(Xxh32()) && Lawful(Xxh64())
  {
  }

  // ---------------------------------------------------------------- known values

  /** The published hashes of the empty input. */
  lemma EmptyInput()
    ensures Hash(Xxh32(), 16, 0x1_0000_0000, [], 0) == 0x02CC5D05
    ensures Hash(Xxh64(), 32, 0x1_0000_0000_0000_0000, [], 0) == 0xEF46DB3751D8E999
  {
  }

  /** Each step of XXH32, as it comes up in the hash of a longer text. */
  lemma Steps32()
    ensures Xxh32().start(0) == Lanes(606290984, 2246822519, 0, 1640531535)
    ensures Round32(2357638484, 1953068133) == 45263155
    ensures Xxh32().merge(Lanes(1905951598, 1363942888, 2549762978, 606771106)) == 2357638445
    ensures Word32(2357638484, 1953068133) == 162862404 && Byte32(2357638484, 101) == 2922810276
    ensures Avalanche32(3014066459) == 0xE2293B2F
    ensures Xxh32().short(1) == 374761394 && Xxh32().addLength(374761394, 39) == 374761433
  {
  }

  lemma Steps64()
    ensures Xxh64().start(0) == Lanes(6983438078262162902, 14029467366897019727, 0, 7046029288634856825)
    ensures Round64(3973390001945083467, 8545141950437767700) == 10917227102777674478
    ensures MergeRound64(3973390001945083467, 8545141950437767700) == 4435941713727147906
  {
  }

  lemma LastSteps64()
    ensures Word64(3973390001945083467, 8545141950437767700) == 15104894304706027954
    ensures Half64(3973390001945083467, 1953068133) == 4835116165010048261
    ensures Byte64(3973390001945083467, 101) == 8528262463358162567
    ensures Xxh64().short(1) == 2870177450012600262 && Xxh64().addLength(2870177450012600262, 39) == 2870177450012600301
    ensures Avalanche64(2092563352423746596) == 0xFBCEA83C8A378BF1
  {
  }

  /** The four lanes of XXH64 are merged one after the other. */
  lemma Merged64()
    ensures Xxh64().merge(Lanes(3973390001945083467, 1959113162029503183, 14799629111262711754, 2024056041550129738))
      == 9579768019787294901
  {
  }

  /** Words are read least significant byte first. */
  lemma WordBytes(s: Bytes, at: nat)
    requires at + 4 <= |s|
    ensures LittleEndian(s, at, 4)
      == s[at] as nat + 256 * (s[at + 1] as nat) + 65536 * (s[at + 2] as nat) + 16777216 * (s[at + 3] as nat)
    ensures at + 8 <= |s| ==> LittleEndian(s, at, 8) == LittleEndian(s, at, 4) + 4294967296 * LittleEndian(s, at + 4, 4)
  {
    FourBytes(s, at, 0);
    if at + 8 <= |s| {
      FourBytes(s, at, 4);
      FourBytes(s, at + 4, 0);
    }
  }

  lemma FourBytes(s: Bytes, at: nat, more: nat)
    requires at + 4 <= |s|
    ensures LittleEndian(s, at, 4 + more)
      == s[at] as nat + 256 * (s[at + 1] as nat) + 65536 * (s[at + 2] as nat) + 16777216 * (s[at + 3] as nat)
        + 4294967296 * LittleEndian(s, at + 4, more)
  {
    assert LittleEndian(s, at + 3, 1 + more) == s[at + 3] as nat + 256 * LittleEndian(s, at + 4, more);
    assert LittleEndian(s, at + 2, 2 + more) == s[at + 2] as nat + 256 * LittleEndian(s, at + 3, 1 + more);
  }

  /** A tail is taken from its front: a word first, whatever follows it. */
  lemma WordFirst(h: U32, w: Bytes, tail: Bytes)
    requires |w| == 4
    ensures Finish32(h, w + tail) == Finish32(Word32(h, Read32(w, 0)), tail)
  {
    assert (w + tail)[4..] == tail;
    LittleEndianFront(w, tail, 0, 4);
  }

  lemma {:induction false} LittleEndianFront(w: Bytes, tail: Bytes, at: nat, n: nat)
    requires at + n <= |w|
    ensures LittleEndian(w + tail, at, n) == LittleEndian(w, at, n)
    decreases n
  {
    if n > 0 { LittleEndianFront(w, tail, at + 1, n - 1); }
  }

  /** XXH32 of an input given in any pieces is XXH32 of the whole. */
  method Xxh32InPieces(seed: U32, inputs: seq<Bytes>) returns (hash: U32)
    ensures hash == Hash(Xxh32(), 16, 0x1_0000_0000, Concatenated(inputs), seed)
  {
    RoundsLawful();
    hash := HashInPieces32(Xxh32(), seed, inputs);
  }

  /** Likewise XXH64, for inputs whose length fits its counter. */
  method Xxh64InPieces(seed: U64, inputs: seq<Bytes>) returns (hash: U64)
    requires |Concatenated(inputs)| < 0x1_0000_0000_0000_0000
    ensures hash == Hash(Xxh64(), 32, 0x1_0000_0000_0000_0000, Concatenated(inputs), seed)
  {
    RoundsLawful();
    hash := HashInPieces64(Xxh64(), seed, inputs);
  }
}
