/** Arithmetic on 16-bit words without wide operations: sums, products and quotients by shifting. */
module WordMath {
  type UWord = v: int | 0 <= v < 0x1_0000

  type Byte = b: int | 0 <= b < 0x100

  /** A stored sum keeps its low sixteen bits. */
  function Low(v: int): UWord {
    v % 0x1_0000
  }

  /** A 32-bit number in two words. */
  datatype Words = Words(lo: UWord, hi: UWord) {
    function Value(): (v: int)
      ensures 0 <= v < 0x1_0000_0000
    {
      hi * 0x1_0000 + lo
    }
  }

  function Pow2(n: nat): (p: int)
    ensures p > 0
  {
    if n == 0 then 1 else 2 * Pow2(n - 1)
  }

  lemma Pow2Sixteen()
    ensures Pow2(16) == 0x1_0000 && Pow2(10) == 1024
  {
    assert Pow2(4) == 16 && Pow2(8) == 256 && Pow2(12) == 4096;
  }

  // Sums and shifts

  /** Adds, losing a carry out of the high word. */
  function Sum(a: Words, b: Words): (s: Words)
    ensures s.Value() == (a.Value() + b.Value()) % 0x1_0000_0000
  {
    var lo := Low(a.lo + b.lo);
    var hi := Low(a.hi + b.hi);
    SumCarries(a, b);
    Words(lo, if lo < a.lo then Low(hi + 1) else hi)
  }

  lemma SumCarries(a: Words, b: Words)
    ensures var lo := Low(a.lo + b.lo); var hi := Low(a.hi + b.hi);
            var top := if lo < a.lo then Low(hi + 1) else hi;
            top * 0x1_0000 + lo == (a.Value() + b.Value()) % 0x1_0000_0000
  {
    var total := a.Value() + b.Value();
    var lo := Low(a.lo + b.lo);
    var carry := if lo < a.lo then 1 else 0;
    assert a.lo + b.lo == carry * 0x1_0000 + lo;
    var top := Low(Low(a.hi + b.hi) + carry);
    var over := (a.hi + b.hi + carry) / 0x1_0000;
    assert a.hi + b.hi + carry == over * 0x1_0000 + top;
    assert total == over * 0x1_0000_0000 + (top * 0x1_0000 + lo);
  }

  lemma LowDouble(v: UWord)
    ensures Low(2 * v) == if v >= 0x8000 then 2 * v - 0x1_0000 else 2 * v
  {
  }

  lemma LowSmall(v: int)
    requires 0 <= v < 0x1_0000
    ensures Low(v) == v
  {
  }

  /** Doubles, losing the top bit. */
  function Doubled(a: Words): (s: Words)
    ensures a.hi >= 0x8000 <==> a.Value() >= 0x8000_0000
    ensures s.Value() == if a.hi >= 0x8000 then 2 * a.Value() - 0x1_0000_0000 else 2 * a.Value()
  {
    LowDouble(a.lo);
    LowDouble(a.hi);
    Words(Low(2 * a.lo), Low(2 * a.hi) + if a.lo >= 0x8000 then 1 else 0)
  }

  // Products

  lemma Halving(a: int, r: nat)
    ensures a * r == 2 * a * (r / 2) + if r % 2 == 1 then a else 0
  {
    assert r == 2 * (r / 2) + r % 2;
  }

  lemma Grows(a: int, b: int, n: nat)
    requires 0 <= a <= b
    ensures a * n <= b * n
  {
  }

  /** Multiplies by adding shifted copies: sixteen steps. */
  method Multiply(left: UWord, right: UWord) returns (product: Words)
    ensures product.Value() == left * right
  {
    hide Pow2, Sum, Doubled;
    var addend, rest, count := Words(left, 0), right, 16;
    product := Words(0, 0);
    MultiplyStart(left, right);
    while count > 0
      invariant 0 <= count <= 16 && 0 <= rest
      invariant Multiplying(left, right, product.Value(), addend.Value(), rest, count)
      decreases count
    {
      MultiplyStep(left, right, product.Value(), addend.Value(), rest, count);
      if rest % 2 == 1 {
        product := Sum(product, addend);
      }
      rest := rest / 2;
      addend := Doubled(addend);
      count := count - 1;
    }
    MultiplyEnd(left, right, product.Value(), addend.Value(), rest);
  }

  /** What the bits of `right` passed so far add up to, and what the ones left stand for. */
  ghost predicate Multiplying(left: UWord, right: UWord, product: int, addend: int, rest: nat, count: nat) {
    && 0 <= product && 0 <= addend && rest < Pow2(count)
    && addend * Pow2(count) == left * 0x1_0000 && product + addend * rest == left * right
  }

  lemma MultiplyStart(left: UWord, right: UWord)
    ensures Multiplying(left, right, 0, left, right, 16)
  {
    Pow2Sixteen();
  }

  lemma MultiplyStep(left: UWord, right: UWord, product: int, addend: int, rest: nat, count: nat)
    requires Multiplying(left, right, product, addend, rest, count) && count > 0
    ensures addend < 0x8000_0000 && (rest % 2 == 1 ==> product + addend < 0x1_0000_0000)
    ensures Multiplying(left, right, if rest % 2 == 1 then product + addend else product, 2 * addend, rest / 2,
                        count - 1)
  {
    Halving(addend, rest);
    ProductBounded(left, right, product, addend, rest);
    AddendBounded(left, addend, count);
  }

  lemma MultiplyEnd(left: UWord, right: UWord, product: int, addend: int, rest: nat)
    requires Multiplying(left, right, product, addend, rest, 0)
    ensures product == left * right
  {
    assert rest == 0;
  }

  lemma ProductBounded(left: UWord, right: UWord, product: int, addend: int, rest: nat)
    requires product + addend * rest == left * right && product >= 0 && addend >= 0
    ensures rest % 2 == 1 ==> product + addend < 0x1_0000_0000
  {
    if rest % 2 == 1 {
      Grows(1, rest, addend);
      Grows(left, 0xffff, right);
    }
  }

  lemma AddendBounded(left: UWord, addend: int, count: nat)
    requires addend >= 0 && 0 < count && addend * Pow2(count) == left * 0x1_0000
    ensures addend < 0x8000_0000 && 2 * addend * Pow2(count - 1) == left * 0x1_0000
  {
    Grows(2, Pow2(count), addend);
  }

  // Quotients

  /** The top bit of a number of `count` bits, and what is left below it. */
  function Head(v: int, count: nat): int
    requires count > 0
  {
    if v >= Pow2(count - 1) then 1 else 0
  }

  function Tail(v: int, count: nat): int
    requires count > 0
  {
    v - Head(v, count) * Pow2(count - 1)
  }

  /** One step of a division bit by bit: with the bits above `count` divided, the next bit joins the remainder. */
  lemma DivideStep(total: int, quotient: int, divisor: int, remainder: int, low: int, count: nat)
    requires divisor > 0 && 0 <= remainder < divisor && count > 0 && 0 <= low < Pow2(count)
    requires total == (quotient * divisor + remainder) * Pow2(count) + low
    ensures 0 <= Tail(low, count) < Pow2(count - 1)
    ensures var r := 2 * remainder + Head(low, count);
            var (q', r') := if r >= divisor then (2 * quotient + 1, r - divisor) else (2 * quotient, r);
            && 0 <= r' < divisor
            && total == (q' * divisor + r') * Pow2(count - 1) + Tail(low, count)
  {
    var r := 2 * remainder + Head(low, count);
    var (q', r') := if r >= divisor then (2 * quotient + 1, r - divisor) else (2 * quotient, r);
    assert q' * divisor + r' == 2 * (quotient * divisor) + r by {
      assert (2 * quotient + 1) * divisor == 2 * (quotient * divisor) + divisor;
      assert (2 * quotient) * divisor == 2 * (quotient * divisor);
    }
    var p := Pow2(count - 1);
    var s := quotient * divisor + remainder;
    assert q' * divisor + r' == 2 * s + Head(low, count);
    assert (2 * s + Head(low, count)) * p == s * (2 * p) + Head(low, count) * p;
  }

  lemma DivideDone(total: int, quotient: int, divisor: int, remainder: int)
    requires divisor > 0 && 0 <= remainder < divisor && total == quotient * divisor + remainder
    ensures quotient == total / divisor && remainder == total % divisor
  {
    var q, r := total / divisor, total % divisor;
    assert total == q * divisor + r;
    assert (q - quotient) * divisor == remainder - r;
    if q > quotient {
      Grows(1, q - quotient, divisor);
    } else if q < quotient {
      Grows(1, quotient - q, divisor);
    }
  }

  lemma {:induction false} Pow2Sum(a: nat, b: nat)
    ensures Pow2(a) * Pow2(b) == Pow2(a + b)
  {
    if a > 0 {
      Pow2Sum(a - 1, b);
      assert Pow2(a) * Pow2(b) == 2 * (Pow2(a - 1) * Pow2(b));
    }
  }

  /** Shifting a register of `width` bits left by one: the top bit falls out, the rest stays in place. */
  lemma ShiftOut(reg: int, low: int, count: nat, width: nat)
    requires 0 < count <= width && 0 <= low < Pow2(count) && reg == low * Pow2(width - count)
    ensures reg >= Pow2(width - 1) <==> Head(low, count) == 1
    ensures 2 * reg - Head(low, count) * Pow2(width) == Tail(low, count) * Pow2(width - count + 1)
    ensures 0 <= reg < Pow2(width)
  {
    var (p, h, s) := (Pow2(count - 1), Head(low, count), Pow2(width - count));
    hide Pow2;
    Doubling(count, width);
    Pow2Sum(width - count, count - 1);
    Pow2Sum(width - count, count);
    FactorOrder(low, p, s);
    FactorOrder(low, Pow2(count), s);
    Spread(low, h, p, s);
  }

  lemma Doubling(count: nat, width: nat)
    requires 0 < count <= width
    ensures Pow2(count) == 2 * Pow2(count - 1) && Pow2(width) == 2 * Pow2(width - 1)
    ensures Pow2(width - count + 1) == 2 * Pow2(width - count)
  {
  }

  lemma FactorOrder(a: int, b: int, n: int)
    requires n > 0
    ensures a < b <==> a * n < b * n
    ensures a * n == n * a && b * n == n * b
  {
    if a < b {
      assert (b - a) * n == b * n - a * n;
      assert (b - a) * n >= 1;
    } else {
      assert (a - b) * n == a * n - b * n;
    }
  }

  lemma Spread(low: int, h: int, p: int, s: int)
    ensures (low - h * p) * (2 * s) == 2 * (low * s) - h * (2 * (s * p))
  {
    assert (low - h * p) * (2 * s) == low * (2 * s) - (h * p) * (2 * s);
    assert (h * p) * (2 * s) == h * (2 * (s * p));
  }

  /** While a division of a small enough number runs, its quotient leaves room for another bit. */
  lemma QuotientRoom(total: int, quotient: int, divisor: int, remainder: int, low: int, count: nat, bound: int)
    requires divisor > 0 && quotient >= 0 && remainder >= 0 && low >= 0
    requires total == (quotient * divisor + remainder) * Pow2(count) + low && total < divisor * bound
    ensures quotient < bound && (count > 0 ==> 2 * quotient < bound)
  {
    var (p, s) := (Pow2(count), quotient * divisor);
    Grows(s, s + remainder, p);
    Grows(if count > 0 then 2 else 1, p, s);
    FactorOrder(quotient, bound, divisor);
    FactorOrder(2 * quotient, bound, divisor);
    assert (2 * quotient) * divisor == 2 * s;
  }

  /** A division under way: `low` is the bits still to come, at the top of the register. */
  ghost predicate Dividing(total: int, quotient: int, divisor: int, remainder: int, low: int, count: nat, register: int,
                           width: nat)
  {
    && divisor > 0 && 0 <= remainder < divisor && 0 <= quotient && count <= width
    && 0 <= low < Pow2(count) && register == low * Pow2(width - count)
    && total == (quotient * divisor + remainder) * Pow2(count) + low
  }

  lemma DividingStart(word: int, carried: int, divisor: int, width: nat)
    requires 0 <= carried < divisor && 0 <= word < Pow2(width)
    ensures Dividing(carried * Pow2(width) + word, 0, divisor, carried, word, width, word, width)
  {
  }

  lemma DividingStep(total: int, quotient: int, divisor: int, remainder: int, low: int, count: nat, register: int,
                     width: nat, bound: int)
    requires Dividing(total, quotient, divisor, remainder, low, count, register, width) && count > 0
    requires total < divisor * bound
    ensures var bit := if register >= Pow2(width - 1) then 1 else 0;
            var r := 2 * remainder + bit;
            && 0 <= register < Pow2(width)
            && 2 * quotient < bound
            && Dividing(total, if r >= divisor then 2 * quotient + 1 else 2 * quotient, divisor,
                        if r >= divisor then r - divisor else r, Tail(low, count), count - 1,
                        2 * register - bit * Pow2(width), width)
  {
    hide Pow2;
    ShiftOut(register, low, count, width);
    DivideStep(total, quotient, divisor, remainder, low, count);
    QuotientRoom(total, quotient, divisor, remainder, low, count, bound);
    Doubling(count, width);
  }

  lemma DividingEnd(total: int, quotient: int, divisor: int, remainder: int, low: int, register: int, width: nat)
    requires Dividing(total, quotient, divisor, remainder, low, 0, register, width)
    ensures total == quotient * divisor + remainder && 0 <= remainder < divisor
  {
    assert low == 0;
  }

  /** Divides a remainder carried over and one more word by ten. */
  method DivideWord(word: UWord, carried: UWord) returns (quotient: UWord, remainder: UWord)
    requires carried < 10
    ensures quotient * 10 + remainder == carried * 0x1_0000 + word && remainder < 10
  {
    hide Pow2, Tail, Dividing, Low;
    quotient, remainder := 0, carried;
    var register: int, count := word, 16;
    ghost var low: int := word;
    ghost var total := carried * 0x1_0000 + word;
    PowFifteen();
    DividingStart(word, carried, 10, 16);
    while count > 0
      invariant 0 <= count <= 16 && remainder < 10
      invariant Dividing(total, quotient, 10, remainder, low, count, register, 16)
    {
      DividingStep(total, quotient, 10, remainder, low, count, register, 16, 0x1_0000);
      LowDouble(register);
      LowDouble(quotient);
      var bit := if register >= 0x8000 then 1 else 0;
      LowSmall(2 * remainder + bit);
      register := Low(2 * register);
      quotient := Low(2 * quotient);
      remainder := Low(2 * remainder + bit);
      if remainder >= 10 {
        remainder, quotient := remainder - 10, quotient + 1;
      }
      low := Tail(low, count);
      count := count - 1;
    }
    DividingEnd(total, quotient, 10, remainder, low, register, 16);
  }

  lemma PowFifteen()
    ensures Pow2(15) == 0x8000 && Pow2(16) == 0x1_0000
  {
    Pow2Sixteen();
  }

  /** Divides a 32-bit number by ten, the high word first. */
  method DivideByTen(value: Words) returns (quotient: Words, remainder: UWord)
    ensures quotient.Value() == value.Value() / 10 && remainder == value.Value() % 10
  {
    var high, carried := DivideWord(value.hi, 0);
    var low, rest := DivideWord(value.lo, carried);
    quotient, remainder := Words(low, high), rest;
    DivideDone(value.Value(), quotient.Value(), 10, remainder);
  }
}
