/** The bit operators of C and Python on unsigned integers, and the arithmetic they compute. */
module Bits {
  import opened Defs

  function Pow2(n: nat): (r: nat)
    ensures r > 0
  {
    if n == 0 then 1 else 2 * Pow2(n - 1)
  }

  function And(x: nat, y: nat): (r: nat)
    ensures r <= x && r <= y
  {
    if x == 0 || y == 0 then 0
    else (if x % 2 == 1 && y % 2 == 1 then 1 else 0) + 2 * And(x / 2, y / 2)
  }

  function Or(x: nat, y: nat): nat
    decreases x + y
  {
    if x == 0 then y else if y == 0 then x
    else (if x % 2 == 1 || y % 2 == 1 then 1 else 0) + 2 * Or(x / 2, y / 2)
  }

  function Xor(x: nat, y: nat): nat
    decreases x + y
  {
    if x == 0 then y else if y == 0 then x
    else (if x % 2 != y % 2 then 1 else 0) + 2 * Xor(x / 2, y / 2)
  }

  predicate Bit(x: nat, i: nat)
  {
    if i == 0 then x % 2 == 1 else Bit(x / 2, i - 1)
  }

  /** Parity and half of each operator. */
  lemma Halves(x: nat, y: nat)
    ensures And(x, y) / 2 == And(x / 2, y / 2) && (And(x, y) % 2 == 1 <==> x % 2 == 1 && y % 2 == 1)
    ensures Or(x, y) / 2 == Or(x / 2, y / 2) && (Or(x, y) % 2 == 1 <==> x % 2 == 1 || y % 2 == 1)
    ensures Xor(x, y) / 2 == Xor(x / 2, y / 2) && (Xor(x, y) % 2 == 1 <==> x % 2 != y % 2)
  {
  }

  /** The three operators work bit by bit. */
  lemma {:induction false} Bitwise(x: nat, y: nat, i: nat)
    ensures Bit(And(x, y), i) <==> Bit(x, i) && Bit(y, i)
    ensures Bit(Or(x, y), i) <==> Bit(x, i) || Bit(y, i)
    ensures Bit(Xor(x, y), i) <==> Bit(x, i) != Bit(y, i)
    decreases i
  {
    hide And, Or, Xor;
    Halves(x, y);
    if i > 0 { Bitwise(x / 2, y / 2, i - 1); }
  }

  lemma {:induction false} OrXorBound(x: nat, y: nat, n: nat)
    requires x < Pow2(n) && y < Pow2(n)
    ensures Or(x, y) < Pow2(n) && Xor(x, y) < Pow2(n)
    decreases n
  {
    if x != 0 && y != 0 { OrXorBound(x / 2, y / 2, n - 1); }
  }

  lemma Double(n: nat)
    ensures Pow2(n + 1) == 2 * Pow2(n)
  {
  }

  lemma Pow2Values()
    ensures Pow2(0) == 1 && Pow2(1) == 2 && Pow2(5) == 0x20 && Pow2(6) == 0x40 && Pow2(8) == 0x100 && Pow2(11) == 0x800
    ensures Pow2(16) == 0x1_0000 && Pow2(21) == 0x20_0000 && Pow2(24) == 0x100_0000
    ensures Pow2(26) == 0x400_0000 && Pow2(31) == 0x8000_0000 && Pow2(32) == WORD
  {
  }

  lemma MaskStep(x: nat, p: nat)
    requires p > 0 && And(x / 2, p - 1) == x / 2 % p
    ensures And(x, 2 * p - 1) == x % (2 * p)
  {
    hide And, Or, Xor;
    Halves(x, 2 * p - 1);
    assert (2 * p - 1) / 2 == p - 1;
    HalfMod(x, p);
  }

  /** And-ing with a low mask keeps the remainder. */
  lemma {:induction false} AndMask(x: nat, n: nat)
    ensures And(x, Pow2(n) - 1) == x % Pow2(n)
    decreases n
  {
    hide And;
    if n > 0 {
      AndMask(x / 2, n - 1);
      Double(n - 1);
      hide Pow2;
      MaskStep(x, Pow2(n - 1));
    } else {
      assert Pow2(0) == 1;
    }
  }

  lemma LowBits(x: nat)
    ensures And(x, 0x1F) == x % 0x20
    ensures And(x, 0x3F) == x % 0x40
    ensures And(x, 0xFFFF) == x % 0x1_0000
    ensures And(x, 0x3FF_FFFF) == x % 0x400_0000
  {
    hide And, Pow2;
    Pow2Values();
    AndMask(x, 5);
    AndMask(x, 6);
    AndMask(x, 16);
    AndMask(x, 26);
  }

  lemma HalfMod(x: nat, p: nat)
    requires p > 0
    ensures x % (2 * p) == 2 * (x / 2 % p) + x % 2
  {
    var q, r := x / 2 / p, x / 2 % p;
    assert x / 2 == q * p + r;
    assert x == q * (2 * p) + (2 * r + x % 2);
    ModUnique(x, 2 * p, q, 2 * r + x % 2);
  }

  lemma AtLeastFactor(a: int, d: nat)
    requires a >= 1
    ensures a * d >= d
  {
    assert a * d == d + (a - 1) * d;
  }

  lemma FarFromZero(a: int, d: nat)
    requires a != 0
    ensures a * d >= d || a * d + d <= 0
  {
    if a > 0 { AtLeastFactor(a, d); } else { AtLeastFactor(-a, d); }
  }

  lemma ModUnique(x: int, d: int, q: int, r: int)
    requires d > 0 && x == q * d + r && 0 <= r < d
    ensures x / d == q && x % d == r
  {
    var q', r' := x / d, x % d;
    assert x == q' * d + r';
    assert (q - q') * d == q * d - q' * d == r' - r;
    if q != q' { FarFromZero(q - q', d); }
  }

  /** And-ing with a single bit selects it. */
  lemma {:induction false} AndBit(x: nat, n: nat)
    requires x < 2 * Pow2(n)
    ensures And(x, Pow2(n)) == if x < Pow2(n) then 0 else Pow2(n)
    decreases n
  {
    if n > 0 {
      AndBit(x / 2, n - 1);
      assert Pow2(n) / 2 == Pow2(n - 1) && Pow2(n) % 2 == 0;
    } else {
      assert And(x, 1) == x % 2;
    }
  }

  lemma OrDouble(high: nat, low: nat)
    ensures Or(2 * high, low) == 2 * Or(high, low / 2) + low % 2
  {
  }

  lemma OrZero(x: nat)
    ensures Or(x, 0) == x
  {
  }

  /** Or-ing a value into the free low bits of a shifted one adds it. */
  lemma {:induction false} OrAdds(high: nat, low: nat, n: nat)
    requires low < Pow2(n)
    ensures Or(high * Pow2(n), low) == high * Pow2(n) + low
    decreases n
  {
    hide Or;
    if n > 0 {
      var shifted := high * Pow2(n - 1);
      Double(n - 1);
      hide Pow2;
      assert high * Pow2(n) == 2 * shifted;
      OrAdds(high, low / 2, n - 1);
      OrDouble(shifted, low);
    } else {
      OrZero(high);
    }
  }

  lemma OrLowBit(bit: nat, high: nat)
    requires bit <= 1 && high % 2 == 0
    ensures Or(bit, high) == high + bit
  {
    if bit == 1 && high != 0 { assert Or(1 / 2, high / 2) == high / 2; }
  }

  lemma OrAt(high: nat, low: nat, n: nat, p: nat)
    requires p == Pow2(n) && low < p
    ensures Or(high * p, low) == high * p + low
  {
    hide Or, Pow2;
    OrAdds(high, low, n);
  }

  // ---- uint32_t operators

  function Signed(x: word): int { if x < 0x8000_0000 then x else x - WORD }

  function Wrap(x: int): word { x % WORD }

  function Shl(x: word, n: nat): word { Wrap(x * Pow2(n)) }

  function Shr(x: word, n: nat): (r: word)
    ensures r == x / Pow2(n)
  {
    DivShrinks(x, Pow2(n));
    x / Pow2(n)
  }

  /** `(int32_t)x >> n`, the arithmetic shift of the host compiler. */
  function Sra(x: word, n: nat): word { Wrap(Signed(x) / Pow2(n)) }

  function Or32(x: word, y: word): word { Pow2Values(); OrXorBound(x, y, 32); Or(x, y) }

  function Xor32(x: word, y: word): word { Pow2Values(); OrXorBound(x, y, 32); Xor(x, y) }

  function Not32(x: word): word { WORD - 1 - x }

  lemma DivShrinks(x: nat, d: nat)
    requires d > 0
    ensures 0 <= x / d <= x
  {
    if x / d >= 1 { AtLeastFactor(d, x / d); }
  }

  /** The arithmetic shift repeats the sign bit: it is the logical shift of the
      value, or the complement of the logical shift of the complement. */
  lemma SraRepeatsSign(x: word, n: nat)
    ensures Sra(x, n) == if x < 0x8000_0000 then x / Pow2(n) else Not32(Shr(Not32(x), n))
  {
    var p := Pow2(n);
    DivShrinks(x, p);
    if x >= 0x8000_0000 {
      var y := WORD - 1 - x;
      var q, r := y / p, y % p;
      assert Signed(x) == -y - 1 == (-q - 1) * p + (p - 1 - r);
      ModUnique(Signed(x), p, -q - 1, p - 1 - r);
      DivShrinks(y, p);
      ModUnique(-q - 1, WORD, -1, WORD - 1 - q);
    }
  }
}
