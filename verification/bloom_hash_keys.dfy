/** How the hash of the Bloom filter depends on its key. */
module BloomHashKeys {
  import opened Word32
  import opened BloomHash

  // ---------------------------------------------------------------- words as sums

  lemma {:induction false} XorComm(x: nat, y: nat)
    ensures Xor(x, y) == Xor(y, x)
  {
    if x != 0 && y != 0 { XorComm(x / 2, y / 2); }
  }

  lemma {:induction false} OrComm(x: nat, y: nat)
    ensures Or(x, y) == Or(y, x)
  {
    if x != 0 && y != 0 { OrComm(x / 2, y / 2); }
  }

  /** a * 2^k, one doubling at a time. */
  function Shifted(a: nat, k: nat): nat {
    if k == 0 then a else 2 * Shifted(a, k - 1)
  }

  lemma {:induction false} ShiftedIs(a: nat, k: nat)
    ensures Shifted(a, k) == a * Pow2(k)
  {
    if k != 0 {
      ShiftedIs(a, k - 1);
      Regroup(a, Pow2(k - 1));
    }
  }

  lemma {:induction false} XorShifted(a: nat, b: nat, k: nat)
    requires b < Pow2(k)
    ensures Xor(Shifted(a, k), b) == Shifted(a, k) + b
  {
    if k == 0 {
      XorNone(a);
    } else {
      var c, e := b / 2, b % 2;
      assert Pow2(k) == 2 * Pow2(k - 1) && Shifted(a, k) == 2 * Shifted(a, k - 1);
      XorShifted(a, c, k - 1);
      XorDouble(Shifted(a, k - 1), c, e);
      hide Xor, Pow2, Shifted;
    }
  }

  lemma XorDouble(u: nat, c: nat, e: nat)
    requires Xor(u, c) == u + c && e < 2
    ensures Xor(2 * u, 2 * c + e) == 2 * u + 2 * c + e
  {
    hide Xor;
    XorBit(u, c, 0, e);
  }

  lemma XorDisjoint(a: nat, b: nat, k: nat, p: nat)
    requires p == Pow2(k) && b < p
    ensures Xor(a * p, b) == a * p + b
  {
    hide Xor, Shifted, Pow2;
    ShiftedIs(a, k);
    XorShifted(a, b, k);
  }

  lemma OrSmall(a: nat, b: nat, k: nat, p: nat)
    requires p == Pow2(k) && b < p
    ensures Or(b, a * p) == a * p + b
  {
    hide Or, Pow2;
    OrDisjoint(a, b, k);
    OrComm(a * p, b);
  }

  lemma XorNone(x: nat)
    ensures Xor(0, x) == x && Xor(x, 0) == x
  {}

  function Bit(a: nat, b: nat): nat {
    (a + b) % 2
  }

  lemma XorBit(x: nat, y: nat, a: nat, b: nat)
    requires a < 2 && b < 2
    ensures Xor(2 * x + a, 2 * y + b) == 2 * Xor(x, y) + Bit(a, b)
  {
    hide Xor;
    Digits(a, x);
    Digits(b, y);
    XorDigit(2 * x + a, 2 * y + b);
    assert (2 * x + a + (2 * y + b)) % 2 == (a + b) % 2;
  }

  lemma Powers()
    ensures Pow2(8) == 0x100 && Pow2(15) == 0x8000 && Pow2(16) == 0x10000 && Pow2(17) == 0x20000
    ensures Pow2(24) == 0x100_0000
  {
    assert Pow2(8) == 0x100;
    assert Pow2(12) == 0x1000;
    assert Pow2(20) == 0x10_0000;
  }

  function Value(a: nat, b: nat, c: nat, d: nat): nat {
    a + 0x100 * b + 0x10000 * c + 0x100_0000 * d
  }

  /** The four bytes of a word count 1, 256, 65536 and 2^24. */
  lemma LoadWordSum(bytes: seq<Byte>, i: nat)
    requires i + 4 <= |bytes|
    ensures LoadWord(bytes, i) == Value(bytes[i], bytes[i + 1], bytes[i + 2], bytes[i + 3])
  {
    OrSum(bytes[i], bytes[i + 1], bytes[i + 2], bytes[i + 3]);
  }

  lemma ShlIs(x: nat, k: nat, p: nat)
    requires p == Pow2(k) && x * p < TWO_32
    ensures Shl(x, k) == x * p
  {}

  lemma OrSum(a: nat, b: nat, c: nat, d: nat)
    requires a < 256 && b < 256 && c < 256 && d < 256
    ensures OrWord(OrWord(OrWord(a, Shl(b, 8)), Shl(c, 16)), Shl(d, 24)) == Value(a, b, c, d)
  {
    hide Or, Pow2, Shl;
    Powers();
    ShlIs(b, 8, 0x100);
    ShlIs(c, 16, 0x10000);
    ShlIs(d, 24, 0x100_0000);
    OrSmall(b, a, 8, 0x100);
    OrSmall(c, b * 0x100 + a, 16, 0x10000);
    OrSmall(d, c * 0x10000 + b * 0x100 + a, 24, 0x100_0000);
  }

  lemma LowByte(a: nat, r: nat)
    requires a < 256
    ensures (a + 0x100 * r) % 0x100 == a && (a + 0x100 * r) / 0x100 == r
  {}

  lemma ValueInjective(a: nat, b: nat, c: nat, d: nat, a': nat, b': nat, c': nat, d': nat)
    requires a < 256 && b < 256 && c < 256 && d < 256 && a' < 256 && b' < 256 && c' < 256 && d' < 256
    requires Value(a, b, c, d) == Value(a', b', c', d')
    ensures a == a' && b == b' && c == c' && d == d'
  {
    LowByte(a, b + 0x100 * (c + 0x100 * d));
    LowByte(a', b' + 0x100 * (c' + 0x100 * d'));
    LowByte(b, c + 0x100 * d);
    LowByte(b', c' + 0x100 * d');
    LowByte(c, d);
    LowByte(c', d');
  }

  /** What the trailing bytes are read as. */
  function TailSum(tail: seq<Byte>): nat
    requires |tail| < 4
  {
    if |tail| == 0 then 0
    else if |tail| == 1 then Value(tail[0], 0, 0, 0)
    else if |tail| == 2 then Value(tail[0], tail[1], 0, 0)
    else Value(tail[0], tail[1], tail[2], 0)
  }

  lemma XorSum(a: nat, b: nat, c: nat)
    requires a < 256 && b < 256 && c < 256
    ensures XorWord(Shl(b, 8), a) == Value(a, b, 0, 0)
    ensures XorWord(XorWord(Shl(c, 16), Shl(b, 8)), a) == Value(a, b, c, 0)
  {
    hide Xor, Pow2, Shl;
    Powers();
    ShlIs(b, 8, 0x100);
    ShlIs(c, 16, 0x10000);
    XorDisjoint(b, a, 8, 0x100);
    XorDisjoint(c, b * 0x100, 16, 0x10000);
    XorDisjoint(c * 0x100 + b, a, 8, 0x100);
  }

  /** The tail contributes its positional value, multiplied and rotated once. */
  lemma TailWordSum(tail: seq<Byte>)
    requires |tail| < 4
    ensures TailSum(tail) < TWO_32 && TailWord(tail) == Rotl(Imul(TailSum(tail), C1), 15)
  {
    hide Xor, Or, Shl, Shr, Pow2, XorWord, OrWord, Imul, Value;
    TailSumBelow(tail);
    if |tail| == 0 {
      ImulZero();
      ZeroRotl();
    } else if |tail| == 1 {
      ValueLow(tail[0]);
    } else if |tail| == 2 {
      XorSum(tail[0], tail[1], 0);
    } else {
      XorSum(tail[0], tail[1], tail[2]);
    }
  }

  lemma TailSumBelow(tail: seq<Byte>)
    requires |tail| < 4
    ensures TailSum(tail) < TWO_32
  {}

  lemma ImulZero()
    ensures Imul(0, C1) == 0
  {}

  lemma ValueLow(a: nat)
    ensures Value(a, 0, 0, 0) == a
  {}

  lemma ZeroRotl()
    ensures Rotl(0, 15) == 0
  {
    Rotl15Sum(0);
  }

  // ---------------------------------------------------------------- each step is injective in the key

  lemma Rotl15Sum(x: Word)
    ensures Rotl(x, 15) == (x % 0x20000) * 0x8000 + x / 0x20000
  {
    WordBound();
    Powers();
    var lo, hi := x % 0x20000, x / 0x20000;
    assert hi < 0x8000;
    assert Shl(x, 15) == lo * 0x8000 by {
      assert x * 0x8000 == TWO_32 * hi + lo * 0x8000;
      DivUnique(x * 0x8000, TWO_32, hi, lo * 0x8000);
    }
    OrDisjoint(lo, hi, 15);
  }

  lemma Rotl15Injective(x: Word, y: Word)
    requires Rotl(x, 15) == Rotl(y, 15)
    ensures x == y
  {
    hide Rotl;
    Rotl15Sum(x);
    Rotl15Sum(y);
    HalvesSwap(x % 0x20000, x / 0x20000, 0x8000);
    HalvesSwap(y % 0x20000, y / 0x20000, 0x8000);
  }

  lemma C1Injective(x: Word, y: Word)
    requires Imul(x, C1) == Imul(y, C1)
    ensures x == y
  {
    hide Imul;
    ModInverse(x, C1, 0xdee13bb1, 0xb2253208);
    ModInverse(y, C1, 0xdee13bb1, 0xb2253208);
  }

  lemma C2Injective(x: Word, y: Word)
    requires Imul(x, C2) == Imul(y, C2)
    ensures x == y
  {
    hide Imul;
    ModInverse(x, C2, 0x56ed309b, 0x958ed66);
    ModInverse(y, C2, 0x56ed309b, 0x958ed66);
  }

  lemma ScrambleInjective(k: Word, l: Word)
    requires Scramble(k) == Scramble(l)
    ensures k == l
  {
    hide Imul, Rotl;
    C2Injective(Rotl(Imul(k, C1), 15), Rotl(Imul(l, C1), 15));
    Rotl15Injective(Imul(k, C1), Imul(l, C1));
    C1Injective(k, l);
  }

  lemma XorWordInjective(h: Word, k: Word, l: Word)
    requires XorWord(h, k) == XorWord(h, l)
    ensures k == l
  {
    hide Xor;
    XorComm(h, k);
    XorComm(h, l);
    XorCancel(k, h);
    XorCancel(l, h);
  }

  lemma MixBlockInjective(h: Word, k: Word, l: Word)
    requires MixBlock(h, k) == MixBlock(h, l)
    ensures k == l
  {
    hide Imul, Rotl, Unrotl13, XorWord;
    var x, y := XorWord(h, k), XorWord(h, l);
    assert Imul(Rotl(x, 13), 5) == Imul(Rotl(y, 13), 5);
    ImulInverse(Rotl(x, 13));
    ImulInverse(Rotl(y, 13));
    Rotl13Inverse(x);
    Rotl13Inverse(y);
    XorWordInjective(h, k, l);
  }

  // ---------------------------------------------------------------- keys that differ in one group

  /** The keys agree outside the aligned word, or tail, that starts at w. */
  ghost predicate AgreeOutside(a: seq<Byte>, b: seq<Byte>, w: nat) {
    |a| == |b| && w % 4 == 0 && forall i :: 0 <= i < |a| && !(w <= i < w + 4) ==> a[i] == b[i]
  }

  lemma {:induction false} SameBlocks(a: seq<Byte>, b: seq<Byte>, i: nat, h: Word)
    requires |a| == |b| && forall j :: i <= j < |a| - |a| % 4 ==> a[j] == b[j]
    requires i % 4 == 0
    ensures MixBlocks(a, i, h) == MixBlocks(b, i, h)
    decreases |a| - i
  {
    hide MixBlock, Scramble, OrWord, Shl;
    if i + 4 <= |a| {
      assert LoadWord(a, i) == LoadWord(b, i);
      hide LoadWord;
      SameBlocks(a, b, i + 4, MixBlock(h, Scramble(LoadWord(a, i))));
    }
  }

  lemma LoadWordDiffers(a: seq<Byte>, b: seq<Byte>, w: nat)
    requires AgreeOutside(a, b, w) && w + 4 <= |a| && a != b
    ensures LoadWord(a, w) != LoadWord(b, w)
  {
    hide LoadWord;
    LoadWordSum(a, w);
    LoadWordSum(b, w);
    if LoadWord(a, w) == LoadWord(b, w) {
      ValueInjective(a[w], a[w + 1], a[w + 2], a[w + 3], b[w], b[w + 1], b[w + 2], b[w + 3]);
      assert forall i :: 0 <= i < |a| ==> a[i] == b[i];
    }
  }

  lemma {:induction false} BlocksDiffer(a: seq<Byte>, b: seq<Byte>, w: nat, i: nat, h: Word)
    requires AgreeOutside(a, b, w) && w + 4 <= |a| && a != b && i <= w && i % 4 == 0
    ensures MixBlocks(a, i, h) != MixBlocks(b, i, h)
    decreases |a| - i
  {
    hide MixBlock, Scramble, UnmixBlocks, OrWord, Shl;
    var k, l := Scramble(LoadWord(a, i)), Scramble(LoadWord(b, i));
    if i < w {
      assert LoadWord(a, i) == LoadWord(b, i);
      hide LoadWord;
      BlocksDiffer(a, b, w, i + 4, MixBlock(h, k));
    } else {
      LoadWordDiffers(a, b, w);
      hide LoadWord;
      if k == l { ScrambleInjective(LoadWord(a, w), LoadWord(b, w)); }
      if MixBlock(h, k) == MixBlock(h, l) { MixBlockInjective(h, k, l); }
      SameBlocks(a, b, i + 4, MixBlock(h, l));
      MixBlocksInverse(a, i + 4, MixBlock(h, k));
      MixBlocksInverse(a, i + 4, MixBlock(h, l));
    }
  }

  lemma FinishInjective(x: Word, y: Word, len: Word)
    requires Finalize(XorWord(x, len)) == Finalize(XorWord(y, len))
    ensures x == y
  {
    hide Finalize, Unfinalize, XorWord;
    FinalizeInverse(XorWord(x, len));
    FinalizeInverse(XorWord(y, len));
    XorWordCancel(x, len);
    XorWordCancel(y, len);
  }

  lemma SameTail(a: seq<Byte>, b: seq<Byte>, w: nat)
    requires AgreeOutside(a, b, w) && w + 4 <= |a|
    ensures a[|a| - |a| % 4..] == b[|a| - |a| % 4..]
  {}

  /** Keys that differ in a single aligned word have different hashes under every seed. */
  lemma WordMatters(a: seq<Byte>, b: seq<Byte>, w: nat, seed: Word)
    requires AgreeOutside(a, b, w) && w + 4 <= |a| && a != b
    ensures Hash(a, seed) != Hash(b, seed)
  {
    hide MixBlocks, Finalize, XorWord, TailWord;
    var n := |a| - |a| % 4;
    SameTail(a, b, w);
    BlocksDiffer(a, b, w, 0, seed);
    var x, y, tail := MixBlocks(a, 0, seed), MixBlocks(b, 0, seed), TailWord(a[n..]);
    if Hash(a, seed) == Hash(b, seed) {
      FinishInjective(XorWord(x, tail), XorWord(y, tail), |a| % TWO_32);
      XorWordCancel(x, tail);
      XorWordCancel(y, tail);
    }
  }

  lemma TailInjective(s: seq<Byte>, t: seq<Byte>)
    requires |s| == |t| < 4 && TailWord(s) == TailWord(t)
    ensures s == t
  {
    hide TailWord, Rotl, Imul, TailSum;
    TailWordSum(s);
    TailWordSum(t);
    Rotl15Injective(Imul(TailSum(s), C1), Imul(TailSum(t), C1));
    C1Injective(TailSum(s), TailSum(t));
    TailSumInjective(s, t);
  }

  lemma TailSumInjective(s: seq<Byte>, t: seq<Byte>)
    requires |s| == |t| < 4 && TailSum(s) == TailSum(t)
    ensures s == t
  {
    hide Value;
    if |s| == 1 { ValueInjective(s[0], 0, 0, 0, t[0], 0, 0, 0); }
    if |s| == 2 { ValueInjective(s[0], s[1], 0, 0, t[0], t[1], 0, 0); }
    if |s| == 3 { ValueInjective(s[0], s[1], s[2], 0, t[0], t[1], t[2], 0); }
  }

  lemma TailDiffers(a: seq<Byte>, b: seq<Byte>, n: nat)
    requires n <= |a| == |b| && a != b && forall i :: 0 <= i < n ==> a[i] == b[i]
    ensures a[n..] != b[n..]
  {
    var i :| 0 <= i < |a| && a[i] != b[i];
    assert a[n..][i - n] == a[i] && b[n..][i - n] == b[i];
  }

  /** And so have keys that differ in the trailing bytes only. */
  lemma TailMatters(a: seq<Byte>, b: seq<Byte>, seed: Word)
    requires |a| == |b| && a != b && AgreeOutside(a, b, |a| - |a| % 4)
    ensures Hash(a, seed) != Hash(b, seed)
  {
    hide MixBlocks, Finalize, XorWord, TailWord;
    var n := |a| - |a| % 4;
    TailDiffers(a, b, n);
    SameBlocks(a, b, 0, seed);
    var x := MixBlocks(a, 0, seed);
    if Hash(a, seed) == Hash(b, seed) {
      FinishInjective(XorWord(x, TailWord(a[n..])), XorWord(x, TailWord(b[n..])), |a| % TWO_32);
      XorWordInjective(x, TailWord(a[n..]), TailWord(b[n..]));
      TailInjective(a[n..], b[n..]);
    }
  }

  // ---------------------------------------------------------------- a published value

  function Push(x: nat, digit: nat): nat {
    x * 16 + digit
  }

  function Hex8(a: nat, b: nat, c: nat, d: nat, e: nat, f: nat, g: nat, h: nat): nat {
    Push(Push(Push(Push(Push(Push(Push(a, b), c), d), e), f), g), h)
  }

  function Double(x: nat, a: nat): nat {
    2 * x + a
  }

  function Four(x: nat, a: nat, b: nat, c: nat, d: nat): nat {
    Double(Double(Double(Double(x, a), b), c), d)
  }

  lemma XorFour(x: nat, y: nat, a: nat, b: nat, c: nat, d: nat, a': nat, b': nat, c': nat, d': nat)
    requires a < 2 && b < 2 && c < 2 && d < 2 && a' < 2 && b' < 2 && c' < 2 && d' < 2
    ensures Xor(Four(x, a, b, c, d), Four(y, a', b', c', d')) ==
            Four(Xor(x, y), Bit(a, a'), Bit(b, b'), Bit(c, c'), Bit(d, d'))
  {
    hide Xor, Bit, Double;
    var x1, y1 := Double(x, a), Double(y, a');
    var x2, y2 := Double(x1, b), Double(y1, b');
    var x3, y3 := Double(x2, c), Double(y2, c');
    XorDoubled(x, y, a, a');
    XorDoubled(x1, y1, b, b');
    XorDoubled(x2, y2, c, c');
    XorDoubled(x3, y3, d, d');
  }

  lemma XorDoubled(x: nat, y: nat, a: nat, b: nat)
    requires a < 2 && b < 2
    ensures Xor(Double(x, a), Double(y, b)) == Double(Xor(x, y), Bit(a, b))
  {
    hide Xor, Bit;
    XorBit(x, y, a, b);
  }

  /** A hexadecimal digit is pushed as four bits. */
  lemma PushFour(x: nat, a: nat, b: nat, c: nat, d: nat)
    ensures Push(x, Four(0, a, b, c, d)) == Four(x, a, b, c, d)
  {}

  lemma Halved(a: nat)
    ensures Double(a / 2, a % 2) == a
  {}

  lemma Bits(a: nat) returns (p: nat, q: nat, r: nat, s: nat)
    requires a < 16
    ensures p < 2 && q < 2 && r < 2 && s < 2 && a == Four(0, p, q, r, s)
  {
    s := a % 2;
    Halved(a);
    var b := a / 2;
    r := b % 2;
    Halved(b);
    var c := b / 2;
    q := c % 2;
    Halved(c);
    p := c / 2;
    assert Double(0, p) == p;
    hide Double;
  }

  lemma XorPush(x: nat, y: nat, a: nat, b: nat)
    requires a < 16 && b < 16
    ensures Xor(Push(x, a), Push(y, b)) == Push(Xor(x, y), Xor(a, b))
  {
    hide Xor, Push, Four, Bit;
    var p, q, r, s := Bits(a);
    var p', q', r', s' := Bits(b);
    XorFour(x, y, p, q, r, s, p', q', r', s');
    XorFour(0, 0, p, q, r, s, p', q', r', s');
    XorNone(0);
    PushFour(x, p, q, r, s);
    PushFour(y, p', q', r', s');
    PushFour(Xor(x, y), Bit(p, p'), Bit(q, q'), Bit(r, r'), Bit(s, s'));
  }

  lemma XorHex(a: nat, b: nat, c: nat, d: nat, e: nat, f: nat, g: nat, h: nat,
               a': nat, b': nat, c': nat, d': nat, e': nat, f': nat, g': nat, h': nat)
    requires b < 16 && c < 16 && d < 16 && e < 16 && f < 16 && g < 16 && h < 16
    requires b' < 16 && c' < 16 && d' < 16 && e' < 16 && f' < 16 && g' < 16 && h' < 16
    ensures Xor(Hex8(a, b, c, d, e, f, g, h), Hex8(a', b', c', d', e', f', g', h')) ==
            Hex8(Xor(a, a'), Xor(b, b'), Xor(c, c'), Xor(d, d'), Xor(e, e'), Xor(f, f'), Xor(g, g'), Xor(h, h'))
  {
    hide Xor, Push;
    var x1, y1 := Push(a, b), Push(a', b');
    var x2, y2 := Push(x1, c), Push(y1, c');
    var x3, y3 := Push(x2, d), Push(y2, d');
    var x4, y4 := Push(x3, e), Push(y3, e');
    var x5, y5 := Push(x4, f), Push(y4, f');
    var x6, y6 := Push(x5, g), Push(y5, g');
    XorPush(a, a', b, b');
    XorPush(x1, y1, c, c');
    XorPush(x2, y2, d, d');
    XorPush(x3, y3, e, e');
    XorPush(x4, y4, f, f');
    XorPush(x5, y5, g, g');
    XorPush(x6, y6, h, h');
  }

  lemma Nibbles()
    ensures Xor(9, 7) == 14 && Xor(7, 9) == 14 && Xor(5, 8) == 13 && Xor(15, 5) == 10
    ensures Xor(13, 14) == 3 && Xor(9, 12) == 5 && Xor(1, 8) == 9 && Xor(14, 6) == 8
    ensures Xor(6, 11) == 13 && Xor(8, 10) == 2 && Xor(7, 6) == 1 && Xor(8, 11) == 3 && Xor(11, 4) == 15
  {
    assert Xor(3, 1) == 2 && Xor(2, 3) == 1 && Xor(3, 2) == 1;
    assert Xor(4, 3) == 7 && Xor(3, 4) == 7 && Xor(2, 4) == 6 && Xor(7, 2) == 5 && Xor(6, 7) == 1 && Xor(4, 6) == 2;
    assert Xor(3, 5) == 6 && Xor(4, 5) == 1 && Xor(3, 3) == 0 && Xor(5, 2) == 7;
  }

  /** A published value of MurmurHash3_x86_32, which the hash meets for lengths divisible by four: the key
      "test" under seed 0. */
  lemma TestVector()
    ensures Hash([116, 101, 115, 116], 0) == 0xba6bd213
  {
    hide Scramble, MixBlock, LoadWord, Xor, XorWord, Finalize;
    var key: seq<Byte> := [116, 101, 115, 116];
    LoadWordSum(key, 0);
    assert LoadWord(key, 0) == 0x74736574;
    ScrambleTest();
    MixTest();
    assert MixBlocks(key, 4, 0x7985975b) == 0x7985975b;
    assert MixBlocks(key, 0, 0) == 0x7985975b;
    assert key[4..] == [];
    hide MixBlocks;
    LengthTest();
    FinalizeTest();
  }

  lemma ScrambleTest()
    ensures Scramble(0x74736574) == 0x465f51e8
  {
    hide Rotl, Imul;
    Rotl15Sum(0x2ef07db4);
    ImulTest();
  }

  lemma ImulTest()
    ensures Imul(0x74736574, C1) == 0x2ef07db4 && Imul(0x3eda1778, C2) == 0x465f51e8
    ensures Imul(0xea3d08cb, 5) == 0x93312bf7
  {}

  lemma MixTest()
    ensures MixBlock(0, 0x465f51e8) == 0x7985975b
  {
    hide Rotl, Xor, Imul, Pow2, Or, Shl, Shr;
    XorNone(0x465f51e8);
    Rotl13Sum(0x465f51e8);
    ImulTest();
  }

  lemma LengthTest()
    ensures XorWord(XorWord(0x7985975b, 0), 4) == 0x7985975f
  {
    Nibbles();
    hide Xor;
    XorHex(7, 9, 8, 5, 9, 7, 5, 11, 0, 0, 0, 0, 0, 0, 0, 4);
    XorNone(0x7985975b);
    Zeros();
  }

  lemma Zeros()
    ensures forall x: nat :: Xor(x, 0) == x
  {
    forall x: nat ensures Xor(x, 0) == x { XorNone(x); }
  }

  lemma FinalizeTest()
    ensures Finalize(0x7985975f) == 0xba6bd213
  {
    WordBound();
    Nibbles();
    Zeros();
    hide Xor, Pow2;
    XorNone(7);
    XorHex(7, 9, 8, 5, 9, 7, 5, 15, 0, 0, 0, 0, 7, 9, 8, 5);
    XorHex(15, 13, 9, 0, 13, 9, 1, 14, 0, 0, 0, 7, 14, 12, 8, 6);
    XorHex(11, 10, 6, 11, 6, 8, 7, 8, 0, 0, 0, 0, 11, 10, 6, 11);
    assert ShiftMix(0x7985975f, 16) == 0x7985eeda;
    assert Imul(0x7985eeda, 0x85ebca6b) == 0xfd90d91e;
    assert ShiftMix(0xfd90d91e, 13) == 0xfd973598;
    assert Imul(0xfd973598, 0xc2b2ae35) == 0xba6b6878;
    assert ShiftMix(0xba6b6878, 16) == 0xba6bd213;
    hide ShiftMix, Imul;
  }
}
