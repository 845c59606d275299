/** Slider positions: a value scaled to thousandths in word arithmetic, by the tracker and by the window manager. */
module Scales {
  import opened WordMath

  const SCALE := 1000

  // The tracker's scale

  /** value * 1000 / divisor, at most 1000, exact on all words. */
  method ScaleThousand(value: UWord, divisor: UWord) returns (scaled: UWord)
    ensures scaled == if divisor == 0 then 0 else if value >= divisor then 1000 else value * 1000 / divisor
  {
    var top: UWord := SCALE;
    if divisor == 0 {
      return 0;
    }
    if value >= divisor {
      return top;
    }
    var product := TimesThousand(value);
    var quotient, remainder := DivideWords(product, divisor);
    DivideDone(value * SCALE, quotient.Value(), divisor, remainder);
    BelowScale(value, divisor, quotient.Value(), remainder);
    if quotient.hi != 0 || quotient.lo > SCALE {
      return top;
    }
    scaled := quotient.lo;
  }

  lemma BelowScale(value: UWord, divisor: UWord, quotient: int, remainder: int)
    requires value < divisor && remainder >= 0 && quotient * divisor + remainder == value * SCALE
    ensures quotient < SCALE
  {
    FactorOrder(value, divisor, SCALE);
    FactorOrder(quotient, SCALE, divisor);
  }

  method TimesThousand(value: UWord) returns (product: Words)
    ensures product.Value() == value * SCALE
  {
    hide Pow2, Sum, Doubled;
    var addend, rest := Words(value, 0), SCALE;
    product := Words(0, 0);
    while rest > 0
      invariant 0 <= rest <= SCALE && product.Value() + addend.Value() * rest == value * SCALE
      decreases rest
    {
      Halving(addend.Value(), rest);
      AddendFits(value, product.Value(), addend.Value(), rest);
      if rest % 2 == 1 {
        product := Sum(product, addend);
      }
      addend := Doubled(addend);
      rest := rest / 2;
    }
  }

  lemma AddendFits(value: UWord, product: int, addend: int, rest: nat)
    requires rest > 0 && product >= 0 && addend >= 0 && product + addend * rest == value * SCALE
    ensures addend < 0x8000_0000 && product + addend < 0x1_0000_0000
  {
    Grows(1, rest, addend);
  }

  /** Divides a product of a word and 1000 by a larger word, one bit at a time; a bit shifted out of the remainder
      counts as well. */
  method DivideWords(product: Words, divisor: UWord) returns (quotient: Words, remainder: UWord)
    requires product.Value() < divisor * SCALE
    ensures quotient.Value() * divisor + remainder == product.Value() && remainder < divisor
  {
    hide Pow2, Tail, Dividing, Low, Doubled;
    quotient, remainder := Words(0, 0), 0;
    var register, count := product, 32;
    ghost var low: int := product.Value();
    ghost var total := product.Value();
    PowThirtyTwo();
    DividingStart(total, 0, divisor, 32);
    while count > 0
      invariant 0 <= count <= 32
      invariant Dividing(total, quotient.Value(), divisor, remainder, low, count, register.Value(), 32)
    {
      DividingStep(total, quotient.Value(), divisor, remainder, low, count, register.Value(), 32, SCALE);
      DividingRange(total, quotient.Value(), divisor, remainder, low, count, register.Value(), 32);
      var bit := if register.hi >= 0x8000 then 1 else 0;
      register := Doubled(register);
      var carry := remainder >= 0x8000;
      RemainderShift(remainder, divisor, bit);
      remainder := Low(2 * remainder + bit);
      quotient := Doubled(quotient);
      if carry || remainder >= divisor {
        remainder := Low(remainder - divisor);
        quotient := Increment(quotient);
      }
      low := Tail(low, count);
      count := count - 1;
    }
    DividingEnd(total, quotient.Value(), divisor, remainder, low, register.Value(), 32);
  }

  /** Sets the low bit of a number that is even. */
  function Increment(a: Words): (s: Words)
    requires a.Value() % 2 == 0
    ensures s.Value() == a.Value() + 1
  {
    Words(a.lo + 1, a.hi)
  }

  lemma PowThirtyTwo()
    ensures Pow2(31) == 0x8000_0000 && Pow2(32) == 0x1_0000_0000
  {
    Pow2Sixteen();
    Pow2Sum(16, 16);
    Pow2Sum(16, 15);
  }

  lemma DividingRange(total: int, quotient: int, divisor: int, remainder: int, low: int, count: nat, register: int,
                      width: nat)
    requires Dividing(total, quotient, divisor, remainder, low, count, register, width)
    ensures 0 <= remainder < divisor
  {
  }

  /** A remainder shifted beyond sixteen bits is seen by its carry, and the subtraction brings it back. */
  lemma RemainderShift(remainder: UWord, divisor: UWord, bit: int)
    requires remainder < divisor && (bit == 0 || bit == 1)
    ensures var r := 2 * remainder + bit;
            && (remainder >= 0x8000 || Low(r) >= divisor <==> r >= divisor)
            && (if r >= divisor then Low(Low(r) - divisor) == r - divisor else Low(r) == r)
  {
    var r := 2 * remainder + bit;
    if remainder >= 0x8000 {
      assert Low(r) == r - 0x1_0000;
      assert Low(r) - divisor + 0x1_0000 == r - divisor;
      LowAround(r - divisor);
    } else {
      LowSmall(r);
    }
  }

  lemma LowAround(v: UWord)
    ensures Low(v - 0x1_0000) == v
  {
  }

  // The window manager's scale

  /** One bit of the multiplier: the remainder is doubled, the value joins it, and at most two divisors come off, all in
      machine words. */
  function ScaleBit(value: UWord, divisor: UWord, bit: bool, quotient: UWord, remainder: UWord): (UWord, UWord) {
    var twice := Low(2 * remainder);
    var sum := if bit then Low(twice + value) else twice;
    var twofold: int := Low(2 * quotient);
    var (q1: UWord, r1: UWord) :=
      if sum >= divisor then (Low(twofold + 1), Low(sum as int - divisor)) else (twofold, sum);
    if r1 >= divisor then (Low(q1 as int + 1), Low(r1 as int - divisor)) else (q1, r1)
  }

  /** The result of the loop over `count` bits of the multiplier, the high ones first. */
  function ScaleBits(value: UWord, multiplier: int, divisor: UWord, count: nat, quotient: UWord,
                     remainder: UWord): UWord
    decreases count
  {
    if count == 0 then quotient
    else
      var (q, r) := ScaleBit(value, divisor, multiplier / Pow2(count - 1) % 2 == 1, quotient, remainder);
      ScaleBits(value, multiplier, divisor, count - 1, q, r)
  }

  function Capped(a: int, b: int): int {
    if a > b then b else a
  }

  /** value * multiplier / divisor, the value capped at the divisor and the multiplier at 1000. */
  function WindowScale(value: UWord, multiplier: UWord, divisor: UWord): UWord {
    if divisor == 0 then 0 else ScaleBits(Capped(value, divisor), Capped(multiplier, SCALE), divisor, 10, 0, 0)
  }

  /** The loop over the bits of the multiplier, from the highest of ten. */
  method ScaleWindow(value: UWord, multiplier: UWord, divisor: UWord) returns (quotient: UWord)
    ensures quotient == WindowScale(value, multiplier, divisor)
    ensures divisor <= 21846 ==> quotient == Share(value, multiplier, divisor)
  {
    hide Pow2, ScaleBit, Share;
    WindowScaleExact(divisor);
    if divisor == 0 {
      return 0;
    }
    var v: UWord, m: int := Capped(value, divisor), Capped(multiplier, SCALE);
    var remainder: UWord := 0;
    quotient := 0;
    var mask, count := 0x200, 10;
    PowNine();
    while mask > 0
      invariant 0 <= count <= 10 && mask == (if count == 0 then 0 else Pow2(count - 1))
      invariant ScaleBits(v, m, divisor, count, quotient, remainder) == WindowScale(value, multiplier, divisor)
      decreases count
    {
      MaskStep(count);
      var bit := m / mask % 2 == 1;
      quotient, remainder := Accumulate(v, divisor, bit, quotient, remainder);
      mask := mask / 2;
      count := count - 1;
    }
  }

  method Accumulate(value: UWord, divisor: UWord, bit: bool, quotient: UWord, remainder: UWord)
    returns (q: UWord, r: UWord)
    ensures (q, r) == ScaleBit(value, divisor, bit, quotient, remainder)
  {
    q := Low(2 * quotient);
    var temporary := Low(2 * remainder);
    if bit {
      temporary := Low(temporary + value);
    }
    if temporary >= divisor {
      temporary := Low(temporary - divisor);
      q := Low(q + 1);
    }
    if temporary >= divisor {
      temporary := Low(temporary - divisor);
      q := Low(q + 1);
    }
    r := temporary;
  }

  lemma PowNine()
    ensures Pow2(9) == 0x200 && Pow2(10) == 0x400
  {
    Pow2Sixteen();
    assert Pow2(10) == 2 * Pow2(9);
  }

  lemma MaskStep(count: nat)
    requires 0 < count <= 10
    ensures Pow2(count - 1) > 0 && Pow2(count - 1) / 2 == if count == 1 then 0 else Pow2(count - 2)
  {
  }

  const SAFE_DIVISOR := 21846

  /** With a divisor no larger than SAFE_DIVISOR nothing wraps: the multiplier's bits passed so far are divided
      exactly. */
  lemma BitExact(value: UWord, divisor: UWord, bit: bool, quotient: UWord, remainder: UWord, passed: nat)
    requires 0 < divisor <= SAFE_DIVISOR && value <= divisor && remainder < divisor && 2 * passed + 1 < 0x400
    requires value * passed == quotient * divisor + remainder && (value == divisor ==> remainder == 0)
    ensures var (q, r) := ScaleBit(value, divisor, bit, quotient, remainder);
            var more := 2 * passed + if bit then 1 else 0;
            r < divisor && value * more == q * divisor + r && (value == divisor ==> r == 0)
  {
    var more := 2 * passed + if bit then 1 else 0;
    var sum := 2 * remainder + if bit then value else 0;
    Grows(value, divisor, passed);
    FactorOrder(quotient, passed + 1, divisor);
    BitIs(value, divisor, bit, quotient, remainder);
    Expand(value, passed, bit, quotient, divisor);
  }

  /** One bit without wrap-around. */
  lemma BitIs(value: UWord, divisor: UWord, bit: bool, quotient: UWord, remainder: UWord)
    requires 0 < divisor && remainder < divisor && value <= divisor && quotient < 0x7fff
    requires 2 * remainder + value < 0x1_0000
    ensures var sum := 2 * remainder + if bit then value else 0;
            ScaleBit(value, divisor, bit, quotient, remainder) ==
            if sum >= 2 * divisor then (2 * quotient + 2, sum - 2 * divisor)
            else if sum >= divisor then (2 * quotient + 1, sum - divisor) else (2 * quotient, sum)
  {
    hide Low;
    var sum := 2 * remainder + if bit then value else 0;
    LowSmall(2 * remainder);
    LowSmall(sum);
    LowSmall(2 * quotient);
    LowSmall(2 * quotient + 1);
    LowSmall(2 * quotient + 2);
    if sum >= divisor {
      LowSmall(sum - divisor);
      if sum - divisor >= divisor {
        LowSmall(sum - 2 * divisor);
      }
    }
  }

  lemma Expand(value: int, passed: int, bit: bool, quotient: int, divisor: int)
    ensures value * (2 * passed + if bit then 1 else 0) == 2 * (value * passed) + if bit then value else 0
    ensures (2 * quotient) * divisor == 2 * (quotient * divisor)
    ensures (2 * quotient + 1) * divisor == 2 * (quotient * divisor) + divisor
    ensures (2 * quotient + 2) * divisor == 2 * (quotient * divisor) + 2 * divisor
  {
  }

  /** All bits: from a prefix of the multiplier on, the loop divides exactly. */
  lemma {:induction false} BitsExact(value: UWord, multiplier: nat, divisor: UWord, count: nat, quotient: UWord,
                                     remainder: UWord)
    requires 0 < divisor <= SAFE_DIVISOR && value <= divisor && remainder < divisor && count <= 10 && multiplier < 0x400
    requires value * (multiplier / Pow2(count)) == quotient * divisor + remainder
             && (value == divisor ==> remainder == 0)
    ensures ScaleBits(value, multiplier, divisor, count, quotient, remainder) == value * multiplier / divisor
    decreases count
  {
    hide ScaleBit;
    if count == 0 {
      DivideDone(value * multiplier, quotient, divisor, remainder);
    } else {
      PrefixStep(multiplier, count);
      var bit := multiplier / Pow2(count - 1) % 2 == 1;
      BitExact(value, divisor, bit, quotient, remainder, multiplier / Pow2(count));
      var (q, r) := ScaleBit(value, divisor, bit, quotient, remainder);
      BitsExact(value, multiplier, divisor, count - 1, q, r);
    }
  }

  lemma PrefixStep(multiplier: nat, count: nat)
    requires 0 < count <= 10 && multiplier < 0x400
    ensures multiplier / Pow2(count - 1) == 2 * (multiplier / Pow2(count)) + multiplier / Pow2(count - 1) % 2
    ensures 0 <= multiplier / Pow2(count) && 2 * (multiplier / Pow2(count)) + 1 < 0x400
  {
    hide Pow2;
    Doubling(count, count);
    HalfStep(multiplier, Pow2(count - 1));
  }

  lemma HalfStep(m: nat, p: nat)
    requires p > 0
    ensures m / (2 * p) == m / p / 2 && 0 <= m / p <= m
  {
    Divided(m, p);
    Halved(m, p, m / p, m % p, m / p / 2, m / p % 2);
  }

  lemma Divided(m: nat, p: nat)
    requires p > 0
    ensures m == m / p * p + m % p && 0 <= m % p < p && 0 <= m / p
  {
  }

  lemma Halved(m: nat, p: nat, a: nat, r: nat, h: nat, b: nat)
    requires r < p && m == a * p + r && a == 2 * h + b && b < 2
    ensures m / (2 * p) == h && a <= m
  {
    Spread(h, b, p);
    DivideDone(m, h, 2 * p, b * p + r);
    Grows(1, p, a);
  }

  lemma Spread(h: nat, b: nat, p: nat)
    requires b == 0 || b == 1
    ensures (2 * h + b) * p == h * (2 * p) + b * p && b * p == if b == 0 then 0 else p
  {
  }

  /** The scale meant. */
  function Share(value: UWord, multiplier: UWord, divisor: UWord): int {
    if divisor == 0 then 0
    else (if value > divisor then divisor else value) * (if multiplier > 1000 then 1000 else multiplier) / divisor
  }

  /** The window manager's scale is exact for all values and multipliers exactly when the divisor is at most 21846; for
      any larger one the sum of the doubled remainder and the value can wrap around. */
  lemma WindowScaleExact(divisor: UWord)
    ensures (forall value: UWord, multiplier: UWord ::
               WindowScale(value, multiplier, divisor) == Share(value, multiplier, divisor))
            <==> divisor <= 21846
  {
    if divisor <= SAFE_DIVISOR {
      forall value: UWord, multiplier: UWord
        ensures WindowScale(value, multiplier, divisor) == Share(value, multiplier, divisor)
      {
        if divisor > 0 {
          var (v, m) := (Capped(value, divisor), Capped(multiplier, SCALE));
          PowNine();
          assert m / Pow2(10) == 0;
          BitsExact(v, m, divisor, 10, 0, 0);
        }
      }
    } else {
      LargeDivisorWraps(divisor);
    }
  }

  lemma LargeDivisorWraps(divisor: UWord)
    requires divisor > SAFE_DIVISOR
    ensures WindowScale(divisor - 1, 3, divisor) != Share(divisor - 1, 3, divisor)
  {
    hide ScaleBit;
    NoBits(divisor, 10);
    var v: UWord := divisor - 1;
    FirstBit(divisor);
    assert ScaleBits(v, 3, divisor, 2, 0, 0) == ScaleBits(v, 3, divisor, 1, 0, v) by {
      assert Pow2(1) == 2;
    }
    assert ScaleBits(v, 3, divisor, 1, 0, v) == ScaleBit(v, divisor, true, 0, v).0 by {
      assert Pow2(0) == 1;
    }
    SecondBit(divisor);
    DivideDone(v * 3, 2, divisor, divisor - 3);
  }

  /** The high bits of 3 are zero and change nothing. */
  lemma {:induction false} NoBits(divisor: UWord, count: nat)
    requires 0 < divisor && 2 <= count <= 10
    ensures ScaleBits(divisor - 1, 3, divisor, count, 0, 0) == ScaleBits(divisor - 1, 3, divisor, 2, 0, 0)
  {
    hide ScaleBit, ScaleBits, Pow2;
    if count > 2 {
      PowFour(count - 1);
      ZeroBit(divisor);
      NoBits(divisor, count - 1);
      BitsUnroll(divisor - 1, 3, divisor, count, 0, 0);
    }
  }

  lemma BitsUnroll(value: UWord, multiplier: int, divisor: UWord, count: nat, quotient: UWord, remainder: UWord)
    requires count > 0
    ensures var (q, r) := ScaleBit(value, divisor, multiplier / Pow2(count - 1) % 2 == 1, quotient, remainder);
            ScaleBits(value, multiplier, divisor, count, quotient, remainder)
            == ScaleBits(value, multiplier, divisor, count - 1, q, r)
  {
  }

  lemma PowFour(n: nat)
    requires n >= 2
    ensures Pow2(n) >= 4 && 3 / Pow2(n) == 0
  {
    if n > 2 {
      PowFour(n - 1);
    }
  }

  lemma ZeroBit(divisor: UWord)
    requires 0 < divisor
    ensures ScaleBit(divisor - 1, divisor, false, 0, 0) == (0, 0)
  {
  }

  lemma FirstBit(divisor: UWord)
    requires divisor > SAFE_DIVISOR
    ensures ScaleBit(divisor - 1, divisor, true, 0, 0) == (0, divisor - 1)
  {
  }

  lemma SecondBit(divisor: UWord)
    requires divisor > SAFE_DIVISOR
    ensures ScaleBit(divisor - 1, divisor, true, 0, divisor - 1).0 != 2
  {
  }
}
