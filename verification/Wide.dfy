// Exact 64x64->128 multiplication and 128/64 restoring division, written with
// the 64-bit wrap-around, shifts and masks of the portable C++ code.

module Wide {
  import opened Core

  datatype U128 = U128(lo: u64, hi: u64) {
    function Value(): nat {
      hi * U64_END + lo
    }

    predicate FitsU64() {
      hi == 0
    }
  }

  function Wrap(x: int): u64 {
    x % U64_END
  }

  /** x | (1 << k). */
  function WithBit(x: u64, k: nat): u64 {
    if (x / Pow2(k)) % 2 == 1 then x else Wrap(x + Pow2(k))
  }

  /** (high << 32) | (low & 0xFFFFFFFF). */
  function Join(high: u64, low: u64): u64 {
    high % U32_END * U32_END + low % U32_END
  }

  /** The 64x64 product by 32-bit limbs. */
  function MulWide(a: u64, b: u64): U128 {
    var (aLo, aHi, bLo, bHi) := (a % U32_END, a / U32_END, b % U32_END, b / U32_END);
    AddLimbs(Wrap(aLo * bLo), Wrap(aLo * bHi), Wrap(aHi * bLo), Wrap(aHi * bHi))
  }

  function AddLimbs(p0: u64, p1: u64, p2: u64, p3: u64): U128 {
    var mid := Wrap(p1 + p0 / U32_END);
    var mid2 := Wrap(p2 + mid % U32_END);
    var carry := Wrap(mid2 / U32_END + mid / U32_END);
    U128(Join(mid2, p0), Wrap(p3 + carry))
  }

  /** The limb product loses nothing: no intermediate wraps. */
  lemma {:induction false} MulWideExact(a: u64, b: u64)
    ensures MulWide(a, b).Value() == a * b
  {
    var (aLo, aHi, bLo, bHi) := (a % U32_END, a / U32_END, b % U32_END, b / U32_END);
    var p0 := LimbProduct(aLo, bLo);
    var p1 := LimbProduct(aLo, bHi);
    var p2 := LimbProduct(aHi, bLo);
    var p3 := LimbProduct(aHi, bHi);
    AddLimbsExact(p0, p1, p2, p3);
    Expansion(aLo, aHi, bLo, bHi);
  }

  lemma {:induction false} AddLimbsExact(p0: u64, p1: u64, p2: u64, p3: u64)
    requires p0 <= LIMB_MAX && p1 <= LIMB_MAX && p2 <= LIMB_MAX && p3 <= LIMB_MAX
    ensures AddLimbs(p0, p1, p2, p3).Value() == p3 * U64_END + (p1 + p2) * U32_END + p0
  {
    var mid := p1 + p0 / U32_END;
    var mid2 := p2 + mid % U32_END;
    var carry := mid2 / U32_END + mid / U32_END;
    Unwrapped(mid); Unwrapped(mid2); Unwrapped(carry); Unwrapped(p3 + carry);
    assert AddLimbs(p0, p1, p2, p3) == U128(Join(mid2, p0), p3 + carry);
  }

  // The largest product of two 32-bit limbs.
  const LIMB_MAX: nat := 0xFFFF_FFFE_0000_0001

  lemma {:induction false} Unwrapped(x: int)
    requires 0 <= x < U64_END
    ensures Wrap(x) == x
  {
  }

  lemma {:induction false} LimbProduct(x: nat, y: nat) returns (p: u64)
    requires x < U32_END && y < U32_END
    ensures p == x * y && p <= LIMB_MAX && Wrap(x * y) == p
  {
    MulMonotone(x, y, 0xFFFF_FFFF, 0xFFFF_FFFF);
    p := x * y;
  }

  lemma {:induction false} MulMonotone(x: nat, y: nat, a: nat, b: nat)
    requires x <= a && y <= b
    ensures x * y <= a * b
  {
    assert x * y <= x * b <= a * b;
  }

  lemma {:induction false} Expansion(aLo: nat, aHi: nat, bLo: nat, bHi: nat)
    ensures (aHi * U32_END + aLo) * (bHi * U32_END + bLo)
         == aHi * bHi * U64_END + (aLo * bHi + aHi * bLo) * U32_END + aLo * bLo
  {
    var x := aHi * U32_END;
    var y := bHi * U32_END;
    assert (x + aLo) * (y + bLo) == x * y + x * bLo + aLo * y + aLo * bLo;
    assert x * y == aHi * bHi * U64_END;
    assert x * bLo == aHi * bLo * U32_END;
    assert aLo * y == aLo * bHi * U32_END;
  }

  lemma {:induction false} DivUnique(x: int, d: int, q: int, r: int)
    requires d > 0 && 0 <= r < d && x == q * d + r
    ensures x / d == q && x % d == r
  {
    var e := x / d - q;
    assert x == (x / d) * d + x % d;
    assert e * d == r - x % d;
    assert e >= 1 ==> e * d >= d;
    assert e <= -1 ==> e * d <= -d;
  }

  lemma {:induction false} DivByProduct(x: nat, a: nat, b: nat)
    requires a > 0 && b > 0
    ensures a * b > 0 && x / (a * b) == x / a / b
  {
    var q := x / a / b;
    var r := x / a % b;
    assert x / a == q * b + r;
    assert x == (q * b + r) * a + x % a;
    assert (q * b + r) * a == q * (a * b) + r * a;
    assert r * a <= (b - 1) * a == a * b - a;
    DivUnique(x, a * b, q, r * a + x % a);
  }

  lemma {:induction false} NextHighBit(n: U128, bit: nat)
    requires 64 <= bit < 128
    ensures n.Value() / Pow2(bit) == n.hi / Pow2(bit - 64)
  {
    Pow2OfWord();
    Pow2Add(64, bit - 64);
    DivByProduct(n.Value(), Pow2(64), Pow2(bit - 64));
    DivUnique(n.Value(), U64_END, n.hi, n.lo);
  }

  lemma {:induction false} NextLowBit(n: U128, bit: nat)
    requires bit < 64
    ensures (n.Value() / Pow2(bit)) % 2 == (n.lo / Pow2(bit)) % 2
  {
    HighPartIsEven(n.hi, bit);
    EvenMultiple(n.Value(), n.lo, n.hi * Pow2(63 - bit), Pow2(bit));
  }

  lemma {:induction false} EvenMultiple(v: nat, x: nat, m: nat, p: nat)
    requires p > 0 && v == 2 * m * p + x
    ensures (v / p) % 2 == (x / p) % 2
  {
    assert x == (x / p) * p + x % p;
    assert (2 * m + x / p) * p == 2 * m * p + (x / p) * p;
    DivUnique(v, p, 2 * m + x / p, x % p);
  }

  lemma {:induction false} HighPartIsEven(hi: nat, bit: nat)
    requires bit < 64
    ensures hi * U64_END == 2 * (hi * Pow2(63 - bit)) * Pow2(bit)
  {
    Pow2OfWord();
    Pow2Add(63 - bit, bit + 1);
    Regroup(hi, Pow2(63 - bit), Pow2(bit));
    assert Pow2(bit + 1) == 2 * Pow2(bit);
  }

  lemma {:induction false} Regroup(h: nat, x: nat, y: nat)
    ensures h * (x * (2 * y)) == 2 * (h * x) * y
  {
    assert x * (2 * y) == 2 * (x * y);
    assert h * (2 * (x * y)) == 2 * (h * (x * y)) == 2 * ((h * x) * y) == 2 * (h * x) * y;
  }

  function BitAt(n: U128, bit: nat): nat {
    if bit >= 64 then (n.hi / Pow2(bit - 64)) % 2 else (n.lo / Pow2(bit)) % 2
  }

  lemma {:induction false} NextBit(n: U128, bit: nat)
    requires bit < 128
    ensures n.Value() / Pow2(bit) == 2 * (n.Value() / Pow2(bit + 1)) + BitAt(n, bit)
  {
    DivByProduct(n.Value(), Pow2(bit), 2);
    if bit >= 64 {
      NextHighBit(n, bit);
    } else {
      NextLowBit(n, bit);
    }
  }

  /** A word whose low k bits are clear: only `prefix` has been written so far. */
  ghost predicate HighBits(word: u64, prefix: nat, k: nat)
    requires k <= 64
  {
    word == prefix * Pow2(k) && prefix < Pow2(64 - k)
  }

  lemma {:induction false} WriteNextBit(word: u64, prefix: nat, k: nat)
    requires 0 < k <= 64 && HighBits(word, prefix, k)
    ensures HighBits(WithBit(word, k - 1), 2 * prefix + 1, k - 1)
    ensures HighBits(word, 2 * prefix, k - 1)
  {
    HalveShift(prefix, k);
    DoubleAndTake(prefix, Pow2(k - 1));
    DoublePrefix(prefix, k);
    PrefixFits(2 * prefix + 1, k - 1);
    assert WithBit(word, k - 1) == word + Pow2(k - 1) by {
      BitIsClear(word, prefix, Pow2(k - 1));
      Unwrapped(word + Pow2(k - 1));
    }
  }

  lemma {:induction false} DoublePrefix(prefix: nat, k: nat)
    requires 0 < k <= 64 && prefix < Pow2(64 - k)
    ensures 2 * prefix + 1 < Pow2(64 - (k - 1))
  {
    assert Pow2(64 - (k - 1)) == 2 * Pow2(64 - k);
  }

  lemma {:induction false} HalveShift(prefix: nat, k: nat)
    requires 0 < k
    ensures prefix * Pow2(k) == 2 * (prefix * Pow2(k - 1))
  {
    assert Pow2(k) == 2 * Pow2(k - 1);
    var p := Pow2(k - 1);
    assert prefix * (2 * p) == 2 * (prefix * p);
  }

  lemma {:induction false} BitIsClear(word: nat, prefix: nat, p: nat)
    requires p > 0 && word == 2 * (prefix * p)
    ensures (word / p) % 2 == 0
  {
    assert word == (2 * prefix) * p + 0;
    DivUnique(word, p, 2 * prefix, 0);
  }

  lemma {:induction false} PrefixFits(prefix: nat, k: nat)
    requires k <= 64 && prefix < Pow2(64 - k)
    ensures prefix * Pow2(k) < U64_END
  {
    Pow2OfWord();
    Pow2Add(64 - k, k);
    MulMonotone(prefix, Pow2(k), Pow2(64 - k) - 1, Pow2(k));
    assert (Pow2(64 - k) - 1) * Pow2(k) == Pow2(64 - k) * Pow2(k) - Pow2(k);
  }

  datatype DivState = DivState(hi: u64, lo: u64, remainder: u64)

  /** One round of restoring division. The test on the top bit covers the
      shifted remainder that no longer fits 64 bits. */
  function Round(s: DivState, n: U128, denominator: u64, bit: nat): DivState {
    var carryOut := s.remainder / 0x8000_0000_0000_0000 != 0;
    var shifted := Wrap(Wrap(2 * s.remainder) + BitAt(n, bit));
    if !carryOut && shifted < denominator then s.(remainder := shifted)
    else
      var remainder := Wrap(shifted - denominator);
      if bit >= 64 then DivState(WithBit(s.hi, bit - 64), s.lo, remainder)
      else DivState(s.hi, WithBit(s.lo, bit), remainder)
  }

  /** The state once every bit from 127 down to k has been processed. */
  ghost function After(n: U128, denominator: u64, k: nat): DivState
    requires k <= 128
    decreases 128 - k
  {
    if k == 128 then DivState(0, 0, 0) else Round(After(n, denominator, k + 1), n, denominator, k)
  }

  /** `done` and the remainder divide the bits read so far. */
  ghost predicate Divides(n: U128, denominator: nat, remainder: nat, k: nat, done: nat)
    requires k <= 128
  {
    remainder < denominator && done * denominator + remainder == n.Value() / Pow2(k)
  }

  /** The quotient words spell `done`, shifted past the bits still to come. */
  ghost predicate Spells(hi: u64, lo: u64, k: nat, done: nat)
    requires k <= 128
  {
    if k >= 64 then lo == 0 && HighBits(hi, done, k - 64)
    else exists low :: HighBits(lo, low, k) && done == hi * Pow2(64 - k) + low
  }

  /** Doubling and taking in one bit, with the bit shifted out made explicit. */
  lemma {:induction false} ShiftedRemainder(r: u64, incoming: nat, denominator: u64)
    requires incoming < 2 && r < denominator
    ensures
      var carryOut := r / 0x8000_0000_0000_0000 != 0;
      var shifted := Wrap(Wrap(2 * r) + incoming);
      if carryOut || shifted >= denominator
        then 2 * r + incoming >= denominator && Wrap(shifted - denominator) == 2 * r + incoming - denominator
        else shifted == 2 * r + incoming
  {
    var shifted := if r < 0x8000_0000_0000_0000 then 2 * r else 2 * r - U64_END;
    assert Wrap(2 * r) == shifted;
    assert Wrap(shifted + incoming) == shifted + incoming;
    if r >= 0x8000_0000_0000_0000 {
      assert shifted + incoming - denominator == (2 * r + incoming - denominator) - U64_END;
    }
  }

  function Taken(s: DivState, n: U128, denominator: u64, bit: nat): nat {
    if 2 * s.remainder + BitAt(n, bit) >= denominator then 1 else 0
  }

  lemma {:induction false} RoundKeepsQuotient(s: DivState, n: U128, denominator: u64, bit: nat, done: nat)
    requires bit < 128 && Divides(n, denominator, s.remainder, bit + 1, done)
    ensures Divides(n, denominator, Round(s, n, denominator, bit).remainder, bit, 2 * done + Taken(s, n, denominator, bit))
  {
    NextBit(n, bit);
    DoubleAndTake(done, denominator);
    ShiftedRemainder(s.remainder, BitAt(n, bit), denominator);
  }

  lemma {:induction false} RoundKeepsWords(s: DivState, n: U128, denominator: u64, bit: nat, done: nat)
    requires bit < 128 && s.remainder < denominator && Spells(s.hi, s.lo, bit + 1, done)
    ensures
      var t := Round(s, n, denominator, bit);
      Spells(t.hi, t.lo, bit, 2 * done + Taken(s, n, denominator, bit))
  {
    ShiftedRemainder(s.remainder, BitAt(n, bit), denominator);
    if bit >= 64 {
      WriteNextBit(s.hi, done, bit - 63);
    } else {
      var low := LowPart(s.hi, s.lo, bit, done);
      WriteNextBit(s.lo, low, bit + 1);
      DoubleHigh(s.hi, bit);
    }
  }

  lemma {:induction false} LowPart(hi: u64, lo: u64, bit: nat, done: nat) returns (low: nat)
    requires bit < 64 && Spells(hi, lo, bit + 1, done)
    ensures HighBits(lo, low, bit + 1) && done == hi * Pow2(63 - bit) + low
  {
    if bit == 63 {
      low := 0;
      assert hi == done * Pow2(0) && Pow2(63 - bit) == Pow2(0) == 1;
    } else {
      low :| HighBits(lo, low, bit + 1) && done == hi * Pow2(63 - bit) + low;
    }
  }

  lemma {:induction false} DoubleAndTake(done: nat, denominator: nat)
    ensures (2 * done) * denominator == 2 * (done * denominator)
    ensures (2 * done + 1) * denominator == 2 * (done * denominator) + denominator
  {
  }

  lemma {:induction false} DoubleHigh(high: nat, bit: nat)
    requires bit < 64
    ensures high * Pow2(64 - bit) == 2 * (high * Pow2(63 - bit))
  {
    var p := Pow2(63 - bit);
    assert Pow2(64 - bit) == 2 * p;
    assert high * (2 * p) == 2 * (high * p);
  }

  lemma {:induction false} AfterInvariant(n: U128, denominator: u64, k: nat) returns (done: nat)
    requires k <= 128 && denominator > 0
    ensures var s := After(n, denominator, k); Divides(n, denominator, s.remainder, k, done) && Spells(s.hi, s.lo, k, done)
    decreases 128 - k
  {
    if k == 128 {
      done := 0;
      Pow2OfWord();
      DivUnique(n.Value(), Pow2(128), 0, n.Value());
    } else {
      var s := After(n, denominator, k + 1);
      done := AfterInvariant(n, denominator, k + 1);
      RoundKeepsQuotient(s, n, denominator, k, done);
      RoundKeepsWords(s, n, denominator, k, done);
      done := 2 * done + Taken(s, n, denominator, k);
    }
  }

  lemma {:induction false} AfterIsExact(n: U128, denominator: u64)
    requires denominator > 0
    ensures
      var s := After(n, denominator, 0);
      U128(s.lo, s.hi).Value() * denominator + s.remainder == n.Value() && s.remainder < denominator
  {
    var s := After(n, denominator, 0);
    var done := AfterInvariant(n, denominator, 0);
    assert Pow2(0) == 1;
    var low :| HighBits(s.lo, low, 0) && done == s.hi * Pow2(64) + low;
    Pow2OfWord();
    assert done == U128(s.lo, s.hi).Value();
  }

  datatype Division = Division(quotient: U128, remainder: u64, divideByZero: bool)

  /** Restoring division, one numerator bit per iteration. */
  method DivWide(numerator: U128, denominator: u64) returns (r: Division)
    ensures r.divideByZero <==> denominator == 0
    ensures !r.divideByZero ==>
      && r.quotient.Value() * denominator + r.remainder == numerator.Value()
      && r.remainder < denominator
  {
    if denominator == 0 {
      return Division(U128(0, 0), 0, true);
    }
    var state := DivState(0, 0, 0);
    var bit := 127;
    while bit >= 0
      invariant -1 <= bit <= 127
      invariant state == After(numerator, denominator, bit + 1)
      decreases bit + 1
    {
      state := Round(state, numerator, denominator, bit);
      bit := bit - 1;
    }
    AfterIsExact(numerator, denominator);
    r := Division(U128(state.lo, state.hi), state.remainder, false);
  }

  datatype MulDivResult = MulDivResult(value: u64, remainder: u64, overflow: bool, divideByZero: bool)

  /** floor(value * multiplier / divisor), with overflow reported exactly when
      the quotient needs more than 64 bits. */
  method MulDiv(value: u64, multiplier: u64, divisor: u64) returns (r: MulDivResult)
    ensures r.divideByZero <==> divisor == 0
    ensures divisor > 0 ==> (r.overflow <==> value * multiplier / divisor >= U64_END)
    ensures divisor > 0 && !r.overflow ==>
      && r.value == value * multiplier / divisor
      && r.remainder == value * multiplier % divisor
  {
    if divisor == 0 {
      return MulDivResult(0, 0, false, true);
    }
    var product := MulWide(value, multiplier);
    MulWideExact(value, multiplier);
    var divided := DivWide(product, divisor);
    DivUnique(product.Value(), divisor, divided.quotient.Value(), divided.remainder);
    if !divided.quotient.FitsU64() {
      return MulDivResult(0, 0, true, false);
    }
    r := MulDivResult(divided.quotient.lo, divided.remainder, false, false);
  }
}
