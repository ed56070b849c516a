/** The seeded 32-bit hash of the Bloom filter and the bit offsets derived from it. */
module BloomHash {
  import opened Word32

  type Byte = x: nat | x < 256

  const BLOOM_BITS: nat := 16_000_000
  const BLOOM_K: nat := 10

  const C1: Word := 0xcc9e2d51
  const C2: Word := 0x1b873593

  // ---------------------------------------------------------------- reference definition

  function Rotl(x: Word, r: nat): Word
    requires 0 < r < 32
  {
    OrWord(Shl(x, r), Shr(x, 32 - r))
  }

  function XorWord(x: Word, y: Word): Word {
    WordBound();
    XorBelow(x, y, 32);
    Xor(x, y)
  }

  function OrWord(x: nat, y: nat): Word {
    Or(x, y) % TWO_32
  }

  /** The little-endian word starting at offset i. */
  function LoadWord(bytes: seq<Byte>, i: nat): Word
    requires i + 4 <= |bytes|
  {
    OrWord(OrWord(OrWord(bytes[i], Shl(bytes[i + 1], 8)), Shl(bytes[i + 2], 16)), Shl(bytes[i + 3], 24))
  }

  function Scramble(k: Word): Word {
    Imul(Rotl(Imul(k, C1), 15), C2)
  }

  function MixBlock(h: Word, k: Word): Word {
    (Imul(Rotl(XorWord(h, k), 13), 5) + 0xe6546b64) % TWO_32
  }

  /** The state after mixing every whole word from offset i on. */
  function MixBlocks(bytes: seq<Byte>, i: nat, h: Word): Word
    decreases |bytes| - i
  {
    if i + 4 <= |bytes| then MixBlocks(bytes, i + 4, MixBlock(h, Scramble(LoadWord(bytes, i)))) else h
  }

  /** What the one to three trailing bytes contribute; zero when there are none. */
  function TailWord(tail: seq<Byte>): Word
    requires |tail| < 4
  {
    var rem: Word := if |tail| == 0 then 0
                     else if |tail| == 1 then tail[0]
                     else if |tail| == 2 then XorWord(Shl(tail[1], 8), tail[0])
                     else XorWord(XorWord(Shl(tail[2], 16), Shl(tail[1], 8)), tail[0]);
    if |tail| == 0 then 0 else OrWord(Shl(Imul(rem, C1), 15), Shr(Imul(rem, C1), 17))
  }

  function ShiftMix(h: Word, k: nat): Word {
    var s: Word := ShrWord(h, k);
    XorWord(h, s)
  }

  function ShrWord(h: Word, k: nat): Word {
    ShrLe(h, k);
    Shr(h, k)
  }

  function Finalize(h: Word): Word {
    ShiftMix(Imul(ShiftMix(Imul(ShiftMix(h, 16), 0x85ebca6b), 13), 0xc2b2ae35), 16)
  }

  function Hash(key: seq<Byte>, seed: Word): Word {
    var body := MixBlocks(key, 0, seed);
    var tail := TailWord(key[|key| - |key| % 4..]);
    Finalize(XorWord(XorWord(body, tail), |key| % TWO_32))
  }

  // ---------------------------------------------------------------- the inverse in the seed

  function Unrotl13(y: Word): Word {
    y / 0x2000 + (y % 0x2000) * 0x80000
  }

  function UnmixBlock(h: Word, k: Word): Word {
    XorWord(Unrotl13(Imul((h + TWO_32 - 0xe6546b64) % TWO_32, 0xcccccccd)), k)
  }

  function UnmixBlocks(bytes: seq<Byte>, i: nat, h: Word): Word
    decreases |bytes| - i
  {
    if i + 4 <= |bytes| then UnmixBlock(UnmixBlocks(bytes, i + 4, h), Scramble(LoadWord(bytes, i))) else h
  }

  function Unshift13(h: Word): Word {
    XorWord(ShiftMix(h, 13), ShrWord(h, 26))
  }

  function Unfinalize(h: Word): Word {
    ShiftMix(Imul(Unshift13(Imul(ShiftMix(h, 16), 0x7ed1b41d)), 0xa5cb9243), 16)
  }

  /** The one seed under which `key` hashes to `h`. */
  function SeedFor(key: seq<Byte>, h: Word): Word {
    var tail := TailWord(key[|key| - |key| % 4..]);
    UnmixBlocks(key, 0, XorWord(XorWord(Unfinalize(h), |key| % TWO_32), tail))
  }

  lemma WordBound()
    ensures Pow2(32) == TWO_32
    ensures Pow2(13) == 0x2000 && Pow2(16) == 0x10000 && Pow2(19) == 0x80000 && Pow2(26) == 0x400_0000
  {
    assert Pow2(13) == 0x2000;
    assert Pow2(16) == 0x10000;
    assert Pow2(19) == 0x80000;
    assert Pow2(22) == 0x40_0000;
    assert Pow2(26) == 0x400_0000;
    assert Pow2(29) == 0x2000_0000;
  }

  lemma ShrLe(h: nat, k: nat)
    ensures Shr(h, k) <= h
  {
    var p := Pow2(k);
    if h / p > h { MulGap(p, h, h / p); assert p * (h / p) + h % p == h; }
  }

  // ---------------------------------------------------------------- each step is invertible

  lemma ModInverse(x: Word, c: nat, d: nat, q: nat)
    requires c * d == q * TWO_32 + 1
    ensures Imul(Imul(x, c), d) == x
  {
    var a, r := x * c / TWO_32, x * c % TWO_32;
    assert r * d == x * q * TWO_32 + x - a * d * TWO_32 by {
      assert x * c == a * TWO_32 + r;
      calc {
        r * d;
        (x * c - a * TWO_32) * d;
        x * (c * d) - a * TWO_32 * d;
        x * q * TWO_32 + x - a * d * TWO_32;
      }
    }
    assert r * d == TWO_32 * (x * q - a * d) + x;
    DivUnique(r * d, TWO_32, x * q - a * d, x);
  }

  lemma ImulInverse(x: Word)
    ensures Imul(Imul(x, 5), 0xcccccccd) == x && Imul(Imul(x, 0xcccccccd), 5) == x
    ensures Imul(Imul(x, 0x85ebca6b), 0xa5cb9243) == x && Imul(Imul(x, 0xa5cb9243), 0x85ebca6b) == x
    ensures Imul(Imul(x, 0xc2b2ae35), 0x7ed1b41d) == x && Imul(Imul(x, 0x7ed1b41d), 0xc2b2ae35) == x
  {
    hide Imul;
    ModInverse(x, 5, 0xcccccccd, 4);
    ModInverse(x, 0xcccccccd, 5, 4);
    ModInverse(x, 0x85ebca6b, 0xa5cb9243, 0x56bb77f4);
    ModInverse(x, 0xa5cb9243, 0x85ebca6b, 0x56bb77f4);
    ModInverse(x, 0xc2b2ae35, 0x7ed1b41d, 0x60736e9a);
    ModInverse(x, 0x7ed1b41d, 0xc2b2ae35, 0x60736e9a);
  }

  lemma Rotl13Sum(x: Word)
    ensures Rotl(x, 13) == (x % 0x80000) * 0x2000 + x / 0x80000
  {
    WordBound();
    var lo, hi := x % 0x80000, x / 0x80000;
    assert hi < 0x2000;
    assert Shl(x, 13) == lo * 0x2000 by {
      assert x * 0x2000 == TWO_32 * hi + lo * 0x2000;
      DivUnique(x * 0x2000, TWO_32, hi, lo * 0x2000);
    }
    OrDisjoint(lo, hi, 13);
  }

  lemma Rotl13Inverse(x: Word)
    ensures Unrotl13(Rotl(x, 13)) == x && Rotl(Unrotl13(x), 13) == x
  {
    hide Rotl;
    Rotl13Sum(x);
    Rotl13Sum(Unrotl13(x));
    HalvesSwap(x % 0x80000, x / 0x80000, 0x2000);
    HalvesSwap(x % 0x2000, x / 0x2000, 0x80000);
  }

  /** Digits (lo, hi) written in base p, read back. */
  lemma HalvesSwap(lo: nat, hi: nat, p: nat)
    requires hi < p
    ensures (lo * p + hi) / p == lo && (lo * p + hi) % p == hi
  {
    DivUnique(lo * p + hi, p, lo, hi);
  }

  lemma XorWordCancel(x: Word, y: Word)
    ensures XorWord(XorWord(x, y), y) == x
  {
    XorCancel(x, y);
  }

  lemma ShrShr(x: nat, j: nat, k: nat)
    ensures Shr(Shr(x, j), k) == Shr(x, j + k)
    decreases j
  {
    if j != 0 {
      ShrStep(x, j);
      ShrStep(x, j + k);
      ShrShr(x / 2, j - 1, k);
    }
  }

  lemma ShiftMix16Inverse(x: Word)
    ensures ShiftMix(ShiftMix(x, 16), 16) == x
  {
    WordBound();
    ShrXor(x, Shr(x, 16), 16);
    ShrShr(x, 16, 16);
    XorCancel(x, Shr(x, 16));
  }

  lemma Unshift13Inverse(x: Word)
    ensures Unshift13(ShiftMix(x, 13)) == x && ShiftMix(Unshift13(x), 13) == x
  {
    var a, b := Shr(x, 13), Shr(x, 26);
    var y := Xor(x, a);
    WordBound();
    ShrShr(x, 13, 13);
    ShrShr(x, 13, 26);
    ShrShr(x, 26, 13);
    assert Pow2(39) == 0x80_0000_0000 by { assert Pow2(32) == TWO_32; }
    assert Shr(x, 39) == 0;
    ShrXor(x, a, 13);
    ShrXor(x, a, 26);
    assert Shr(y, 13) == Xor(a, b) && Shr(y, 26) == b;
    XorAssoc(x, a, Xor(a, b));
    XorAssoc(a, a, b);
    XorSelf(a);
    XorCancel(x, b);
    assert Unshift13(ShiftMix(x, 13)) == x;
    ShrXor(y, b, 13);
    XorCancel(y, b);
    assert ShiftMix(Unshift13(x), 13) == x by {
      assert Unshift13(x) == Xor(y, b);
      assert Shr(Xor(y, b), 13) == Xor(Xor(a, b), 0);
      XorAssoc(x, a, b);
      XorCancel(x, Xor(a, b));
    }
  }

  lemma MixBlockInverse(h: Word, k: Word)
    ensures UnmixBlock(MixBlock(h, k), k) == h && MixBlock(UnmixBlock(h, k), k) == h
  {
    hide Rotl, Unrotl13, XorWord, Imul;
    var x := XorWord(h, k);
    ImulInverse(Rotl(x, 13));
    Rotl13Inverse(x);
    XorWordCancel(h, k);
    var y: Word := (h + TWO_32 - 0xe6546b64) % TWO_32;
    ImulInverse(y);
    Rotl13Inverse(Imul(y, 0xcccccccd));
    XorWordCancel(Unrotl13(Imul(y, 0xcccccccd)), k);
  }

  lemma {:induction false} MixBlocksInverse(bytes: seq<Byte>, i: nat, h: Word)
    ensures UnmixBlocks(bytes, i, MixBlocks(bytes, i, h)) == h
    ensures MixBlocks(bytes, i, UnmixBlocks(bytes, i, h)) == h
    decreases |bytes| - i
  {
    hide MixBlock, UnmixBlock, Scramble, LoadWord;
    if i + 4 <= |bytes| {
      var k := Scramble(LoadWord(bytes, i));
      MixBlocksInverse(bytes, i + 4, MixBlock(h, k));
      MixBlockInverse(h, k);
      MixBlocksInverse(bytes, i + 4, h);
      MixBlockInverse(UnmixBlocks(bytes, i + 4, h), k);
    }
  }

  lemma FinalizeInverse(h: Word)
    ensures Unfinalize(Finalize(h)) == h && Finalize(Unfinalize(h)) == h
  {
    hide ShiftMix, Unshift13, Imul;
    var a := ShiftMix(h, 16);
    var b := Imul(a, 0x85ebca6b);
    var c := ShiftMix(b, 13);
    ShiftMix16Inverse(Imul(c, 0xc2b2ae35));
    ImulInverse(c);
    Unshift13Inverse(b);
    ImulInverse(a);
    ShiftMix16Inverse(h);
    var d := Imul(a, 0x7ed1b41d);
    var e := Unshift13(d);
    ShiftMix16Inverse(Imul(e, 0xa5cb9243));
    ImulInverse(e);
    Unshift13Inverse(d);
  }

  // ---------------------------------------------------------------- main results

  /** For a fixed key the hash is a permutation of the 32-bit seeds: SeedFor is its two-sided inverse. */
  lemma HashPermutesSeeds(key: seq<Byte>, seed: Word, h: Word)
    ensures SeedFor(key, Hash(key, seed)) == seed
    ensures Hash(key, SeedFor(key, h)) == h
  {
    hide MixBlocks, UnmixBlocks, Finalize, Unfinalize, XorWord;
    var tail := TailWord(key[|key| - |key| % 4..]);
    var len: Word := |key| % TWO_32;
    var body := MixBlocks(key, 0, seed);
    FinalizeInverse(XorWord(XorWord(body, tail), len));
    XorWordCancel(XorWord(body, tail), len);
    XorWordCancel(body, tail);
    MixBlocksInverse(key, 0, seed);
    var u := Unfinalize(h);
    var v := XorWord(u, len);
    var w := XorWord(v, tail);
    MixBlocksInverse(key, 0, w);
    XorWordCancel(v, tail);
    XorWordCancel(u, len);
    FinalizeInverse(h);
  }

  /** The BLOOM_K hashes of one value never coincide; only the reduction modulo BLOOM_BITS can merge them. */
  lemma HashesDistinct(key: seq<Byte>, i: Word, j: Word)
    ensures Hash(key, i) == Hash(key, j) <==> i == j
  {
    hide Hash, SeedFor;
    HashPermutesSeeds(key, i, 0);
    HashPermutesSeeds(key, j, 0);
  }

  // ---------------------------------------------------------------- the loop of the source

  lemma XorZero()
    ensures forall x: Word :: XorWord(x, 0) == x && XorWord(0, x) == x
  {}

  method Murmur3(key: seq<Byte>, seed: nat) returns (h: Word)
    ensures h == Hash(key, seed % TWO_32)
  {
    hide Imul, Shl, Shr, ShrWord, OrWord, XorWord, ShiftMix, Xor, Or, Pow2;
    h := seed % TWO_32;
    var len := |key|;
    var i := 0;
    while i <= len - 4
      invariant 0 <= i <= len && i % 4 == 0
      invariant MixBlocks(key, i, h) == MixBlocks(key, 0, seed % TWO_32)
    {
      var k := Imul(LoadWord(key, i), C1);
      k := OrWord(Shl(k, 15), Shr(k, 17));
      k := Imul(k, C2);
      h := XorWord(h, k);
      h := OrWord(Shl(h, 13), Shr(h, 19));
      h := (Imul(h, 5) + 0xe6546b64) % TWO_32;
      i := i + 4;
    }
    assert i == len - len % 4;
    ghost var body, tail := h, key[i..];
    var remaining: Word := 0;
    if len % 4 == 3 { remaining := XorWord(remaining, Shl(key[i + 2], 16)); }
    if len % 4 >= 2 { remaining := XorWord(remaining, Shl(key[i + 1], 8)); }
    if len % 4 >= 1 {
      remaining := XorWord(remaining, key[i]);
      h := XorWord(h, OrWord(Shl(Imul(remaining, C1), 15), Shr(Imul(remaining, C1), 17)));
    }
    assert h == XorWord(body, TailWord(tail)) by { XorZero(); }
    h := XorWord(h, len % TWO_32);
    h := ShiftMix(h, 16);
    h := Imul(h, 0x85ebca6b);
    h := ShiftMix(h, 13);
    h := Imul(h, 0xc2b2ae35);
    h := ShiftMix(h, 16);
  }

  function BloomBits(value: seq<Byte>): (offsets: seq<nat>)
    ensures |offsets| == BLOOM_K && forall i :: 0 <= i < BLOOM_K ==> offsets[i] < BLOOM_BITS
  {
    seq(BLOOM_K, i requires 0 <= i < BLOOM_K => Hash(value, i) % BLOOM_BITS)
  }

  /** Every offset fits the bit array, and the offsets are residues of BLOOM_K pairwise distinct hashes. */
  lemma BloomBitsShape(value: seq<Byte>) returns (hashes: seq<Word>)
    ensures |BloomBits(value)| == BLOOM_K == |hashes|
    ensures forall i :: 0 <= i < BLOOM_K ==> BloomBits(value)[i] == hashes[i] % BLOOM_BITS < BLOOM_BITS
    ensures forall i, j :: 0 <= i < j < BLOOM_K ==> hashes[i] != hashes[j]
    ensures forall i :: 0 <= i < BLOOM_K ==> SeedFor(value, hashes[i]) == i
  {
    hide Hash, SeedFor;
    hashes := seq(BLOOM_K, i requires 0 <= i < BLOOM_K => Hash(value, i));
    forall i | 0 <= i < BLOOM_K ensures SeedFor(value, hashes[i]) == i {
      HashPermutesSeeds(value, i, 0);
    }
  }
}
