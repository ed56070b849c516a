/** Dotted quads as numbers and the prefix test of the proxy list, with the 32-bit operators of
    ECMAScript. Texts are taken already split at their dots and slash. */
module IpCidr {
  import opened Options
  import opened Word32

  /** What Number makes of one piece of text: a finite number, which may have a fraction, or not. */
  datatype Part = NotFinite | Num(value: real)

  /** Four numbers from 0 to 255; the parts of a decimal dotted quad are whole. */
  predicate InRange(parts: seq<Part>) {
    |parts| == 4 && forall i :: 0 <= i < 4 ==> parts[i].Num? && 0.0 <= parts[i].value <= 255.0
  }

  predicate Octets(parts: seq<Part>) {
    InRange(parts) && forall i :: 0 <= i < 4 ==> parts[i].value == parts[i].value.Floor as real
  }

  /** The shifts and ors take the whole part of a number. */
  function Whole(part: Part): nat
    requires part.Num? && 0.0 <= part.value <= 255.0
  {
    part.value.Floor
  }

  function IpToNum(parts: seq<Part>): Option<Word> {
    if |parts| != 4 then None
    else if exists i :: 0 <= i < 4 && (parts[i].NotFinite? || parts[i].value < 0.0 || parts[i].value > 255.0) then None
    else
      Some(Or(Or(Or(Shl(Whole(parts[0]), 24), Shl(Whole(parts[1]), 16)), Shl(Whole(parts[2]), 8)), Whole(parts[3]))
           % TWO_32)
  }

  /** The signed value of a 32-bit pattern, which is what `&` yields. */
  function Int32(x: Word): int {
    if x < 0x8000_0000 then x else x - TWO_32
  }

  function And32(x: Word, y: Word): int {
    Int32(And(x, y) % TWO_32)
  }

  /** Shift counts are taken modulo 32. */
  function ShlJs(x: Word, count: int): Word {
    Shl(x, count % 32)
  }

  function Mask(bits: int): Word {
    if bits == 0 then 0 else ShlJs(0xffff_ffff, 32 - bits)
  }

  function IpInCidr(ip: seq<Part>, range: seq<Part>, bits: int): bool {
    var ipNum, rangeNum := IpToNum(ip), IpToNum(range);
    if ipNum.None? || rangeNum.None? then false
    else And32(ipNum.value, Mask(bits)) == And32(rangeNum.value, Mask(bits))
  }

  lemma Powers()
    ensures Pow2(8) == 0x100 && Pow2(16) == 0x10000 && Pow2(24) == 0x100_0000 && Pow2(32) == TWO_32
  {
    assert Pow2(12) == 0x1000;
    assert Pow2(20) == 0x10_0000;
    assert Pow2(28) == 0x1000_0000;
  }

  lemma QuadSum(a: nat, b: nat, c: nat, d: nat)
    requires a < 256 && b < 256 && c < 256 && d < 256
    ensures Or(Or(Or(Shl(a, 24), Shl(b, 16)), Shl(c, 8)), d) == a * 0x100_0000 + b * 0x10000 + c * 0x100 + d
  {
    Powers();
    hide Or, Pow2;
    OrDisjoint(a, b * 0x10000, 24);
    OrDisjoint(a * 0x100 + b, c * 0x100, 16);
    OrDisjoint(a * 0x10000 + b * 0x100 + c, d, 8);
  }

  /** Four numbers in range are read by their whole parts in base 256; anything else is no address. */
  lemma IpToNumPositional(parts: seq<Part>)
    ensures InRange(parts) <==> IpToNum(parts).Some?
    ensures InRange(parts) ==>
              IpToNum(parts).value == Whole(parts[0]) * 0x100_0000 + Whole(parts[1]) * 0x10000
                                      + Whole(parts[2]) * 0x100 + Whole(parts[3])
  {
    hide Or, Shl;
    if InRange(parts) {
      QuadSum(Whole(parts[0]), Whole(parts[1]), Whole(parts[2]), Whole(parts[3]));
    }
  }

  /** Equal numbers mean equal whole parts, so dotted quads of whole parts are told apart. */
  lemma IpToNumInjective(p: seq<Part>, q: seq<Part>)
    requires InRange(p) && InRange(q)
    ensures IpToNum(p).Some? && IpToNum(q).Some?
    ensures IpToNum(p) == IpToNum(q) <==> forall i :: 0 <= i < 4 ==> Whole(p[i]) == Whole(q[i])
    ensures Octets(p) && Octets(q) ==> (IpToNum(p) == IpToNum(q) <==> p == q)
  {
    IpToNumPositional(p);
    IpToNumPositional(q);
    hide IpToNum;
    if IpToNum(p) == IpToNum(q) {
      assert Whole(p[0]) == Whole(q[0]);
      assert Whole(p[1]) == Whole(q[1]);
      assert Whole(p[2]) == Whole(q[2]);
      assert Whole(p[3]) == Whole(q[3]);
    }
    if Octets(p) && Octets(q) && forall i :: 0 <= i < 4 ==> Whole(p[i]) == Whole(q[i]) {
      forall i | 0 <= i < 4 ensures p[i] == q[i] { assert Whole(p[i]) == Whole(q[i]); }
      assert p == q;
    }
  }

  lemma {:induction false} AndMask(x: nat, s: nat, k: nat)
    requires s <= k && x < Pow2(k)
    ensures Pow2(s) <= Pow2(k)
    ensures And(x, Pow2(k) - Pow2(s)) == x - Rest(x, Pow2(s))
  {
    if k == 0 {
    } else if s == 0 {
      Half(x, Pow2(k - 1));
      AndMask(x / 2, 0, k - 1);
      AndOnes(x, k);
    } else {
      Half(x, Pow2(k - 1));
      AndMask(x / 2, s - 1, k - 1);
      AndMaskStep(x, s, k);
    }
  }

  lemma Half(x: nat, q: nat)
    requires x < 2 * q
    ensures x / 2 < q
  {}

  lemma AndDigit(x: nat, low: nat, high: nat)
    requires low < 2
    ensures And(x, 2 * high + low) == (if x % 2 == 1 && low == 1 then 1 else 0) + 2 * And(x / 2, high)
  {
    Digits(low, high);
  }

  lemma AndOnes(x: nat, k: nat)
    requires k > 0 && And(x / 2, Pow2(k - 1) - Pow2(0)) == x / 2 - Rest(x / 2, Pow2(0))
    ensures And(x, Pow2(k) - Pow2(0)) == x - Rest(x, Pow2(0))
  {
    var q := Pow2(k - 1);
    assert Pow2(k) == 2 * q && Pow2(0) == 1;
    assert Rest(x, 1) == 0 && Rest(x / 2, 1) == 0;
    hide And, Pow2, Rest;
    AndDigit(x, 1, q - 1);
  }

  lemma AndMaskStep(x: nat, s: nat, k: nat)
    requires 0 < s <= k && Pow2(s - 1) <= Pow2(k - 1)
    requires And(x / 2, Pow2(k - 1) - Pow2(s - 1)) == x / 2 - Rest(x / 2, Pow2(s - 1))
    ensures Pow2(s) <= Pow2(k) && And(x, Pow2(k) - Pow2(s)) == x - Rest(x, Pow2(s))
  {
    var p, q := Pow2(s - 1), Pow2(k - 1);
    assert Pow2(k) == 2 * q && Pow2(s) == 2 * p;
    hide And, Pow2, Rest;
    AndDigit(x, 0, q - p);
    RestHalf(x, p);
  }

  lemma RestHalf(x: nat, p: nat)
    requires p > 0
    ensures Rest(x, 2 * p) == 2 * Rest(x / 2, p) + x % 2
  {
    var q, r := Quotient(x / 2, p), Rest(x / 2, p);
    Division(x / 2, p);
    DoubleProduct(p, q);
    assert x == (2 * p) * q + (2 * r + x % 2);
    DivUnique(x, 2 * p, q, 2 * r + x % 2);
  }

  lemma DoubleProduct(p: nat, q: nat)
    ensures (2 * p) * q == 2 * (p * q)
  {}

  lemma MaskValue(s: nat)
    requires s < 32
    ensures Pow2(s) <= TWO_32 && Shl(0xffff_ffff, s) == TWO_32 - Pow2(s)
  {
    Powers();
    var p := Pow2(s);
    AndMask(0, s, 32);
    assert 0xffff_ffff * p == TWO_32 * (p - 1) + (TWO_32 - p);
    DivUnique(0xffff_ffff * p, TWO_32, p - 1, TWO_32 - p);
  }

  /** The number of low bits a prefix length leaves free; lengths outside 0..32 wrap. */
  function FreeBits(bits: int): nat {
    if bits == 0 then 32 else (32 - bits) % 32
  }

  lemma SameBlock(x: nat, y: nat, p: nat)
    requires p > 0
    ensures x - Rest(x, p) == y - Rest(y, p) <==> Quotient(x, p) == Quotient(y, p)
  {
    hide Rest, Quotient;
    Division(x, p);
    Division(y, p);
    if Quotient(x, p) < Quotient(y, p) { MulGap(p, Quotient(x, p), Quotient(y, p)); }
    if Quotient(y, p) < Quotient(x, p) { MulGap(p, Quotient(y, p), Quotient(x, p)); }
  }

  lemma MaskOfBits(bits: int)
    ensures FreeBits(bits) <= 32 && Pow2(FreeBits(bits)) <= TWO_32
    ensures Mask(bits) == TWO_32 - Pow2(FreeBits(bits))
  {
    if bits == 0 {
      Powers();
    } else {
      hide Shl, Pow2;
      MaskValue((32 - bits) % 32);
    }
  }

  /** Masking clears the free bits, and the signed reading of the result loses nothing. */
  lemma MaskClears(x: Word, bits: int)
    ensures Rest(x, Pow2(FreeBits(bits))) <= x
    ensures And32(x, Mask(bits)) == Int32(x - Rest(x, Pow2(FreeBits(bits))))
  {
    hide And, Pow2, Mask, FreeBits, Rest, Quotient;
    Powers();
    MaskOfBits(bits);
    AndMask(x, FreeBits(bits), 32);
    Division(x, Pow2(FreeBits(bits)));
  }

  lemma MaskedEqual(x: Word, y: Word, bits: int)
    ensures And32(x, Mask(bits)) == And32(y, Mask(bits)) <==>
            Quotient(x, Pow2(FreeBits(bits))) == Quotient(y, Pow2(FreeBits(bits)))
  {
    hide And32, Mask, Pow2, FreeBits, Rest, Quotient;
    MaskClears(x, bits);
    MaskClears(y, bits);
    SameBlock(x, y, Pow2(FreeBits(bits)));
  }

  /** The prefix test, signed operators and all, holds of two addresses with equal leading bits and of no
      text that is not an address. */
  lemma InCidrIsPrefix(ip: seq<Part>, range: seq<Part>, bits: int)
    ensures InRange(ip) <==> IpToNum(ip).Some?
    ensures InRange(range) <==> IpToNum(range).Some?
    ensures var p := Pow2(FreeBits(bits));
            IpInCidr(ip, range, bits) <==>
            InRange(ip) && InRange(range) && IpToNum(ip).value / p == IpToNum(range).value / p
    ensures 0 <= bits <= 32 ==> FreeBits(bits) == 32 - bits
  {
    hide IpToNum, And32, Mask, Pow2;
    IpToNumPositional(ip);
    IpToNumPositional(range);
    if InRange(ip) && InRange(range) { MaskedEqual(IpToNum(ip).value, IpToNum(range).value, bits); }
    hide Whole, InRange;
  }
}
