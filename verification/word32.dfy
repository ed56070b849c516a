/** The 32-bit integer operators of ECMAScript on their unsigned representatives.

    `^`, `|`, `&`, `<<`, `>>>` and `Math.imul` first reduce their operands modulo 2^32, so a
    chain of them is determined by the unsigned representative of each intermediate value.
    The bitwise operators are defined digit by digit on naturals. */
module Word32 {
  const TWO_32: nat := 0x1_0000_0000

  type Word = x: nat | x < TWO_32

  function Pow2(k: nat): (r: nat)
    ensures r >= 1
  {
    if k == 0 then 1 else 2 * Pow2(k - 1)
  }

  function Xor(x: nat, y: nat): nat {
    if x == 0 then y
    else if y == 0 then x
    else (x + y) % 2 + 2 * Xor(x / 2, y / 2)
  }

  function Or(x: nat, y: nat): nat {
    if x == 0 then y
    else if y == 0 then x
    else (if x % 2 == 1 || y % 2 == 1 then 1 else 0) + 2 * Or(x / 2, y / 2)
  }

  function And(x: nat, y: nat): nat {
    if x == 0 || y == 0 then 0
    else (if x % 2 == 1 && y % 2 == 1 then 1 else 0) + 2 * And(x / 2, y / 2)
  }

  function Shr(x: nat, k: nat): nat {
    Quotient(x, Pow2(k))
  }

  function Quotient(x: nat, d: nat): nat
    requires d >= 1
  {
    x / d
  }

  function Rest(x: nat, d: nat): nat
    requires d >= 1
  {
    x % d
  }

  lemma Division(x: nat, d: nat)
    requires d >= 1
    ensures x == d * Quotient(x, d) + Rest(x, d) && Rest(x, d) < d && Rest(x, d) <= x
  {
    assert d * Quotient(x, d) >= 0;
  }

  function Shl(x: nat, k: nat): Word {
    x * Pow2(k) % TWO_32
  }

  function Imul(x: nat, y: nat): Word {
    x * y % TWO_32
  }

  lemma {:induction false} XorDigit(x: nat, y: nat)
    ensures Xor(x, y) % 2 == (x + y) % 2
    ensures Xor(x, y) / 2 == Xor(x / 2, y / 2)
  {
    if x != 0 && y != 0 { Digits((x + y) % 2, Xor(x / 2, y / 2)); }
  }

  lemma Digits(low: nat, high: nat)
    requires low < 2
    ensures (low + 2 * high) % 2 == low && (low + 2 * high) / 2 == high
  {}

  lemma {:induction false} XorSelf(x: nat)
    ensures Xor(x, x) == 0
  {
    if x != 0 { XorSelf(x / 2); }
  }

  lemma XorAssocDigit(x: nat, y: nat, z: nat)
    requires Xor(Xor(x / 2, y / 2), z / 2) == Xor(x / 2, Xor(y / 2, z / 2))
    ensures Xor(Xor(x, y), z) == Xor(x, Xor(y, z))
  {
    hide Xor;
    XorDigit(x, y);
    XorDigit(y, z);
    XorDigit(Xor(x, y), z);
    XorDigit(x, Xor(y, z));
    ParitySum(Xor(x, y), x + y, z);
    ParitySum(Xor(y, z), y + z, x);
    SameDigits(Xor(Xor(x, y), z), Xor(x, Xor(y, z)));
  }

  lemma SameDigits(a: nat, b: nat)
    requires a / 2 == b / 2 && a % 2 == b % 2
    ensures a == b
  {}

  lemma {:induction false} XorAssoc(x: nat, y: nat, z: nat)
    ensures Xor(Xor(x, y), z) == Xor(x, Xor(y, z))
    decreases x + y + z
  {
    if x != 0 && y != 0 && z != 0 {
      XorAssoc(x / 2, y / 2, z / 2);
      XorAssocDigit(x, y, z);
    }
  }

  lemma ParitySum(a: nat, b: nat, c: nat)
    requires a % 2 == b % 2
    ensures (a + c) % 2 == (b + c) % 2
  {}

  lemma {:induction false} XorCancel(x: nat, y: nat)
    ensures Xor(Xor(x, y), y) == x
  {
    XorAssoc(x, y, y);
    XorSelf(y);
  }

  lemma {:induction false} XorBelow(x: nat, y: nat, k: nat)
    requires x < Pow2(k) && y < Pow2(k)
    ensures Xor(x, y) < Pow2(k)
  {
    if x != 0 && y != 0 { XorBelow(x / 2, y / 2, k - 1); }
  }

  lemma {:induction false} OrBelow(x: nat, y: nat, k: nat)
    requires x < Pow2(k) && y < Pow2(k)
    ensures Or(x, y) < Pow2(k)
  {
    if x != 0 && y != 0 { OrBelow(x / 2, y / 2, k - 1); }
  }

  lemma ShrStep(x: nat, k: nat)
    requires k > 0
    ensures Shr(x, k) == Shr(x / 2, k - 1)
  {
    var p := Pow2(k - 1);
    assert Pow2(k) == 2 * p;
    DivTwice(x, p);
  }

  lemma DivTwice(x: nat, p: nat)
    requires p > 0
    ensures x / (2 * p) == (x / 2) / p
  {
    var q := (x / 2) / p;
    var r := (x / 2) % p;
    assert x / 2 == q * p + r;
    assert x == (2 * p) * q + (2 * r + x % 2);
    DivUnique(x, 2 * p, q, 2 * r + x % 2);
  }

  lemma DivUnique(x: nat, d: nat, q: nat, r: nat)
    requires d > 0 && r < d && x == d * q + r
    ensures x / d == q && x % d == r
  {
    var q' := x / d;
    if q < q' { MulGap(d, q, q'); }
    if q' < q { MulGap(d, q', q); }
  }

  lemma {:induction false} MulGap(d: nat, a: nat, b: nat)
    requires a < b
    ensures d * a + d <= d * b
    decreases b
  {
    assert d * b == d * (b - 1) + d;
    if a < b - 1 { MulGap(d, a, b - 1); }
  }

  lemma {:induction false} ShrXor(x: nat, y: nat, k: nat)
    ensures Shr(Xor(x, y), k) == Xor(Shr(x, k), Shr(y, k))
  {
    if k == 0 {
      ShrZero(x);
      ShrZero(y);
      ShrZero(Xor(x, y));
    } else {
      ShrXor(x / 2, y / 2, k - 1);
      ShrXorStep(x, y, k);
    }
  }

  lemma ShrZero(x: nat)
    ensures Shr(x, 0) == x
  {}

  lemma ShrXorStep(x: nat, y: nat, k: nat)
    requires k > 0 && Shr(Xor(x / 2, y / 2), k - 1) == Xor(Shr(x / 2, k - 1), Shr(y / 2, k - 1))
    ensures Shr(Xor(x, y), k) == Xor(Shr(x, k), Shr(y, k))
  {
    hide Xor, Shr, Pow2;
    XorDigit(x, y);
    ShrStep(Xor(x, y), k);
    ShrStep(x, k);
    ShrStep(y, k);
  }

  lemma {:induction false} OrDisjoint(a: nat, b: nat, k: nat)
    requires b < Pow2(k)
    ensures Or(a * Pow2(k), b) == a * Pow2(k) + b
  {
    if k != 0 && a != 0 && b != 0 {
      var p := Pow2(k - 1);
      Regroup(a, p);
      OrDisjoint(a, b / 2, k - 1);
    }
  }

  lemma Regroup(a: nat, p: nat)
    ensures a * (2 * p) == 2 * (a * p)
    ensures a * (2 * p) % 2 == 0 && a * (2 * p) / 2 == a * p
  {}
}
