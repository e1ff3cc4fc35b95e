/** The numbers that `dtoa.c` keeps in words of 32 bits, least significant first, and what one
  step of its carry and borrow loops does to them. */
module BigWords {
  import opened Basics

  const BASE: nat := 0x1_0000_0000

  const LONG: nat := 0x1_0000_0000_0000_0000

  /** A 64-bit result: unsigned, wrapping around. */
  function Wrap(x: int): (r: nat)
    ensures r < LONG
  {
    x % LONG
  }

  type Words = seq<nat>

  ghost predicate AreWords(x: Words) { forall k :: 0 <= k < |x| ==> x[k] < BASE }

  function Power(n: nat): (p: nat)
    ensures p > 0
  {
    if n == 0 then 1 else BASE * Power(n - 1)
  }

  /** The number that the words stand for. */
  function Value(x: Words): (v: nat)
  {
    if x == [] then 0 else Value(x[..|x| - 1]) + x[|x| - 1] * Power(|x| - 1)
  }

  /** No leading zeros, but that a single word may be 0. */
  ghost predicate Normal(x: Words) { AreWords(x) && (|x| > 1 ==> x[|x| - 1] > 0) }

  // ---- Products ----------------------------------------------------------------------------

  lemma Times(p: int, a: int, b: int)
    ensures (a + b) * p == a * p + b * p && (a - b) * p == a * p - b * p
  {
  }

  lemma Larger(p: nat, a: int, b: int)
    requires a <= b
    ensures a * p <= b * p
  {
  }

  lemma Associate(a: int, b: int, c: int)
    ensures a * b * c == a * (b * c)
  {
  }

  lemma {:induction false} PowerPlus(m: nat, n: nat)
    ensures Power(m + n) == Power(m) * Power(n)
  {
    if m > 0 {
      PowerPlus(m - 1, n);
      Associate(BASE, Power(m - 1), Power(n));
    }
  }

  lemma {:induction false} PowerGrows(m: nat, n: nat)
    requires m <= n
    ensures Power(m) <= Power(n)
    decreases n
  {
    if m < n { PowerGrows(m, n - 1); }
  }

  // ---- Values ------------------------------------------------------------------------------

  lemma ValueNext(x: Words, i: nat)
    requires i < |x|
    ensures Value(x[..i + 1]) == Value(x[..i]) + x[i] * Power(i)
  {
    assert x[..i + 1][..i] == x[..i];
  }

  lemma ValuePush(x: Words, w: nat)
    ensures Value(x + [w]) == Value(x) + w * Power(|x|)
  {
    assert (x + [w])[..|x|] == x;
  }

  lemma PlaceHigher(p: nat, v: nat, w: nat, q: nat)
    ensures (v + w * q) * p == v * p + w * (p * q)
  {
    Times(p, v, w * q);
    Associate(w, q, p);
  }

  lemma {:induction false} ValueConcat(x: Words, y: Words)
    ensures Value(x + y) == Value(x) + Value(y) * Power(|x|)
  {
    if y == [] {
      assert x + y == x;
    } else {
      var init, top := y[..|y| - 1], y[|y| - 1];
      ValueConcat(x, init);
      assert x + y == (x + init) + [top];
      ValuePush(x + init, top);
      PowerPlus(|x|, |init|);
      PlaceHigher(Power(|x|), Value(init), top, Power(|init|));
    }
  }

  lemma {:induction false} ValueBound(x: Words)
    requires AreWords(x)
    ensures Value(x) < Power(|x|)
  {
    if x != [] {
      var init, top := x[..|x| - 1], x[|x| - 1];
      ValueBound(init);
      Larger(Power(|x| - 1), top, BASE - 1);
      Times(Power(|x| - 1), BASE, 1);
    }
  }

  lemma {:induction false} ValueZero(x: Words)
    requires forall k :: 0 <= k < |x| ==> x[k] == 0
    ensures Value(x) == 0
  {
    if x != [] { ValueZero(x[..|x| - 1]); }
  }

  /** A number is between its top word and the next, both at their place. */
  lemma TopBounds(x: Words)
    requires AreWords(x) && x != []
    ensures x[|x| - 1] * Power(|x| - 1) <= Value(x) < (x[|x| - 1] + 1) * Power(|x| - 1)
    ensures x[|x| - 1] > 0 ==> Value(x) >= Power(|x| - 1)
  {
    var n := |x| - 1;
    ValueBound(x[..n]);
    Times(Power(n), x[n], 1);
    if x[n] > 0 { Larger(Power(n), 1, x[n]); }
  }

  lemma LongerIsLarger(x: Words, y: Words)
    requires Normal(x) && AreWords(y) && |x| > |y| && |x| > 1
    ensures Value(x) > Value(y)
  {
    TopBounds(x);
    ValueBound(y);
    PowerGrows(|y|, |x| - 1);
  }

  lemma TopDiffers(x: Words, y: Words)
    requires AreWords(x) && AreWords(y) && |x| == |y| > 0 && x[|x| - 1] < y[|y| - 1]
    ensures Value(x) < Value(y)
  {
    TopBounds(x);
    TopBounds(y);
    Larger(Power(|x| - 1), x[|x| - 1] + 1, y[|y| - 1]);
  }

  lemma {:induction false} SameTop(x: Words, y: Words, n: nat)
    requires |x| == |y| && n <= |x| && forall k :: n <= k < |x| ==> x[k] == y[k]
    ensures Value(x) - Value(y) == Value(x[..n]) - Value(y[..n])
    decreases |x|
  {
    if n == |x| {
      assert x[..n] == x && y[..n] == y;
    } else {
      var x', y' := x[..|x| - 1], y[..|y| - 1];
      SameTop(x', y', n);
      assert x'[..n] == x[..n] && y'[..n] == y[..n];
    }
  }

  lemma {:induction false} DropZeros(x: Words, n: nat)
    requires n <= |x| && forall k :: n <= k < |x| ==> x[k] == 0
    ensures Value(x) == Value(x[..n])
    decreases |x|
  {
    if n == |x| {
      assert x[..n] == x;
    } else {
      DropZeros(x[..|x| - 1], n);
      assert x[..|x| - 1][..n] == x[..n];
    }
  }

  // ---- Multiply, add and carry ---------------------------------------------------------------

  /** The words `r` and the carry stand for the first `i` words of `x` times `m`, plus `v`. */
  ghost predicate Scaled(r: Words, carry: nat, x: Words, i: nat, m: nat, v: nat)
  {
    forall n :: Look(n) ==>
      |r| == i <= |x| && AreWords(r) && Value(r) + carry * Power(i) == Value(x[..i]) * m + v
  }

  /** The word `lo` and the carry `hi` are the sum that one step of the loops adds up. */
  ghost predicate SumOf(lo: nat, hi: nat, x: nat, m: nat, c: nat, carry: nat)
  {
    forall n :: Look(n) ==> lo < BASE && lo + hi * BASE == x * m + c + carry
  }

  lemma ProductFits(x: nat, m: nat)
    requires x < BASE && m < BASE
    ensures 0 <= x * m <= 0xFFFF_FFFF * 0xFFFF_FFFF
  {
    Larger(m, 0, x);
    Larger(m, x, 0xFFFF_FFFF);
    Larger(0xFFFF_FFFF, m, 0xFFFF_FFFF);
  }

  lemma SumFits(x: nat, m: nat, c: nat, carry: nat)
    requires x < BASE && m < BASE && carry < BASE && c < BASE
    ensures 0 <= x * m + c + carry < LONG
  {
    ProductFits(x, m);
  }

  lemma SplitLong(z: nat, x: nat, m: nat, c: nat, carry: nat)
    requires z == x * m + c + carry
    ensures SumOf(z % BASE, z / BASE, x, m, c, carry)
  {
    assert z == z % BASE + z / BASE * BASE;
  }

  /** One step of the loops: the sum fits in 64 bits, and the carry in 32. */
  method AddProduct(x: nat, m: nat, c: nat, carry: nat) returns (lo: nat, hi: nat)
    requires x < BASE && m < BASE && carry < BASE && c < BASE
    ensures lo < BASE && hi < BASE && SumOf(lo, hi, x, m, c, carry)
  {
    SumFits(x, m, c, carry);
    var z := Wrap(x * m + c + carry);
    SplitLong(z, x, m, c, carry);
    lo, hi := z % BASE, z / BASE;
  }

  lemma CarrySum(p: nat, x: nat, m: nat, c: nat, carry: nat)
    ensures (x * m + c + carry) * p == x * p * m + c * p + carry * p
  {
    Times(p, x * m + c, carry);
    Times(p, x * m, c);
    Associate(x, m, p);
    Associate(x, p, m);
    assert m * p == p * m;
  }

  lemma OneWordMore(p: nat, v: nat, x: nat, m: nat, c: nat, carry: nat, lo: nat, hi: nat)
    requires lo + hi * BASE == x * m + c + carry
    ensures v * m + lo * p + hi * (BASE * p) == (v + x * p) * m + c * p + carry * p
  {
    Times(p, lo, hi * BASE);
    Associate(hi, BASE, p);
    CarrySum(p, x, m, c, carry);
    Times(m, v, x * p);
  }

  lemma ScaledNext(r: Words, carry: nat, x: Words, i: nat, m: nat, v: nat, c: nat, lo: nat, hi: nat)
    requires Scaled(r, carry, x, i, m, v) && i < |x| && SumOf(lo, hi, x[i], m, c, carry)
    ensures Scaled(r + [lo], hi, x, i + 1, m, v + c * Power(i))
  {
    assert Look(0);
    ValueNext(x, i);
    ValuePush(r, lo);
    OneWordMore(Power(i), Value(x[..i]), x[i], m, c, carry, lo, hi);
  }

  lemma ScaledStep(r: Words, carry: nat, x: Words, i: nat, m: nat, v: nat, lo: nat, hi: nat)
    requires Scaled(r, carry, x, i, m, v) && i < |x| && SumOf(lo, hi, x[i], m, 0, carry)
    ensures Scaled(r + [lo], hi, x, i + 1, m, v)
  {
    ScaledNext(r, carry, x, i, m, v, 0, lo, hi);
  }

  lemma ScaledOnto(r: Words, carry: nat, x: Words, i: nat, m: nat, c: Words, lo: nat, hi: nat)
    requires i < |x| && i < |c| && Scaled(r, carry, x, i, m, Value(c[..i])) && SumOf(lo, hi, x[i], m, c[i], carry)
    ensures Scaled(r + [lo], hi, x, i + 1, m, Value(c[..i + 1]))
  {
    ScaledNext(r, carry, x, i, m, Value(c[..i]), c[i], lo, hi);
    ValueNext(c, i);
  }

  lemma ScaledFirst(x: Words, m: nat, a: nat)
    ensures Scaled([], a, x, 0, m, a)
  {
    assert x[..0] == [] && 0 * m == 0;
  }

  lemma ScaledLast(r: Words, carry: nat, x: Words, m: nat, v: nat)
    requires Scaled(r, carry, x, |x|, m, v)
    ensures AreWords(r) && |r| == |x| && Value(r) + carry * Power(|x|) == Value(x) * m + v
    ensures Value(r + [carry]) == Value(x) * m + v
  {
    assert Look(0);
    assert x[..|x|] == x;
    ValuePush(r, carry);
  }

  // ---- Subtract and borrow -------------------------------------------------------------------

  /** The words `r`, less what is still owed at place `i`, stand for the first `i` words of `x`
    less `v`. */
  ghost predicate Reduced(r: Words, owed: nat, x: Words, i: nat, v: int)
  {
    forall n :: Look(n) ==>
      |r| == i <= |x| && AreWords(r) && Value(r) - owed * Power(i) == Value(x[..i]) - v
  }

  /** The word `w` and the next borrow are what one step of the loops makes of a difference. */
  ghost predicate DifferenceOf(w: nat, next: nat, x: nat, lo: nat, borrow: nat)
  {
    forall n :: Look(n) ==> w < BASE && next <= 1 && w == x - lo - borrow + next * BASE
  }

  /** One step: the 64-bit difference wraps around exactly when it is negative, and then its
    bit 32 is 1. */
  method SubtractWord(x: nat, lo: nat, borrow: nat) returns (w: nat, next: nat)
    requires x < BASE && lo < BASE && borrow <= 1
    ensures w < BASE && next <= 1 && DifferenceOf(w, next, x, lo, borrow)
  {
    var y := Wrap(x - lo - borrow);
    w, next := y % BASE, y / BASE % 2;
    if x < lo + borrow {
      var d := x - lo - borrow;
      assert y == d + LONG == (d + BASE) + (BASE - 1) * BASE;
    }
  }

  /** One word of the loop of `quorem`: the product of a word `s` and `q` is taken away. */
  lemma ReducedNext(r: Words, borrow: nat, carry: nat, x: Words, i: nat, v: int, s: nat, q: nat, lo: nat, hi: nat,
                    w: nat, next: nat)
    requires Reduced(r, borrow + carry, x, i, v) && i < |x|
    requires SumOf(lo, hi, s, q, 0, carry) && DifferenceOf(w, next, x[i], lo, borrow)
    ensures Reduced(r + [w], next + hi, x, i + 1, v + s * Power(i) * q)
  {
    assert Look(0);
    ValueNext(x, i);
    ValuePush(r, w);
    OneWordLess(Power(i), x[i], borrow, carry, s, q, lo, hi, w, next);
  }

  lemma OneWordLess(p: nat, x: nat, borrow: nat, carry: nat, s: nat, q: nat, lo: nat, hi: nat, w: nat, next: nat)
    requires w == x - lo - borrow + next * BASE && lo + hi * BASE == s * q + 0 + carry
    ensures w * p - (next + hi) * (BASE * p) == x * p - s * p * q - (borrow + carry) * p
  {
    OneWordMore(p, 0, s, q, 0, carry, lo, hi);
    assert 0 * q == 0 && 0 * p == 0;
    Times(p, x - lo - borrow, next * BASE);
    Times(p, x - lo, borrow);
    Times(p, x, lo);
    Associate(next, BASE, p);
    Times(BASE * p, next, hi);
    Times(p, borrow, carry);
  }

  lemma ReducedTimes(r: Words, borrow: nat, carry: nat, x: Words, i: nat, s: Words, q: nat, lo: nat, hi: nat, w: nat,
                     next: nat)
    requires i < |x| && i < |s| && Reduced(r, borrow + carry, x, i, Value(s[..i]) * q)
    requires SumOf(lo, hi, s[i], q, 0, carry) && DifferenceOf(w, next, x[i], lo, borrow)
    ensures Reduced(r + [w], next + hi, x, i + 1, Value(s[..i + 1]) * q)
  {
    ReducedNext(r, borrow, carry, x, i, Value(s[..i]) * q, s[i], q, lo, hi, w, next);
    ValueNext(s, i);
    Times(q, Value(s[..i]), s[i] * Power(i));
  }

  lemma ReducedByWord(r: Words, borrow: nat, x: Words, i: nat, s: Words, w: nat, next: nat)
    requires i < |x| && i < |s| && s[i] < BASE && Reduced(r, borrow, x, i, Value(s[..i]))
    requires DifferenceOf(w, next, x[i], s[i], borrow)
    ensures Reduced(r + [w], next, x, i + 1, Value(s[..i + 1]))
  {
    ReducedTimes(r, borrow, 0, x, i, s, 1, s[i], 0, w, next);
  }

  lemma ReducedByNone(r: Words, borrow: nat, x: Words, i: nat, v: int, w: nat, next: nat)
    requires i < |x| && Reduced(r, borrow, x, i, v) && DifferenceOf(w, next, x[i], 0, borrow)
    ensures Reduced(r + [w], next, x, i + 1, v)
  {
    ReducedNext(r, borrow, 0, x, i, v, 0, 1, 0, 0, w, next);
  }

  lemma ReducedFirst(x: Words)
    ensures Reduced([], 0, x, 0, 0)
  {
    assert x[..0] == [] && 0 * Power(0) == 0;
  }

  /** When no more was taken away than there was, nothing is owed in the end. */
  lemma ReducedLast(r: Words, owed: nat, x: Words, v: nat)
    requires Reduced(r, owed, x, |x|, v) && v <= Value(x)
    ensures AreWords(r) && |r| == |x| && owed == 0 && Value(r) == Value(x) - v
  {
    assert Look(0);
    assert x[..|x|] == x;
    ValueBound(r);
    if owed > 0 { Larger(Power(|x|), 1, owed); }
  }

  // ---- Shifting ------------------------------------------------------------------------------

  function TwoTo(k: nat): (p: nat)
    ensures p > 0
  {
    if k == 0 then 1 else 2 * TwoTo(k - 1)
  }

  lemma {:induction false} TwoToPlus(j: nat, k: nat)
    ensures TwoTo(j + k) == TwoTo(j) * TwoTo(k)
  {
    if j > 0 {
      TwoToPlus(j - 1, k);
      Associate(2, TwoTo(j - 1), TwoTo(k));
    }
  }

  lemma {:induction false} TwoToWords(n: nat)
    ensures TwoTo(32 * n) == Power(n)
  {
    if n > 0 {
      TwoToWords(n - 1);
      TwoToPlus(32, 32 * (n - 1));
      TwoTo32();
    }
  }

  lemma TwoTo32()
    ensures TwoTo(32) == BASE
  {
    assert TwoTo(8) == 256;
    TwoToPlus(8, 8);
    TwoToPlus(16, 16);
  }

  lemma DivideExactly(x: nat, q: nat, r: nat, d: nat)
    requires x == q * d + r && r < d
    ensures x / d == q && x % d == r
  {
    var e := x / d - q;
    assert x == (x / d) * d + x % d;
    Times(d, x / d, q);
    if e > 0 { Larger(d, 1, e); }
    if e < 0 { Larger(d, e, -1); }
  }

  lemma ShiftHigh(x: nat, a: nat, b: nat, hi: nat, lo: nat)
    requires x == hi * b + lo && a * b == BASE
    ensures x * a == hi * BASE + lo * a
  {
    Times(a, hi * b, lo);
    Associate(hi, b, a);
  }

  lemma ShiftLow(z: nat, a: nat, b: nat, lo: nat)
    requires lo < b && z < a && a * b == BASE
    ensures lo * a + z < BASE
  {
    Larger(a, lo, b - 1);
    Times(a, b, 1);
  }

  lemma ShiftParts(x: nat, z: nat, a: nat, b: nat)
    requires a > 0 && b > 0 && a * b == BASE && x < BASE && z < a
    ensures (x * a) % BASE + z < BASE && (x * a) % BASE + z + (x / b) * BASE == x * a + z
    ensures x / b < a
  {
    var hi, lo := x / b, x % b;
    ShiftHigh(x, a, b, hi, lo);
    ShiftLow(z, a, b, lo);
    DivideExactly(x * a, hi, lo * a, BASE);
    if hi >= a { Larger(b, a, hi); }
  }

  /** The word `x << k`, whose higher bits are lost. */
  function ShiftLeft(x: nat, k: nat): nat { (x * TwoTo(k)) % BASE }

  function Quotient(x: nat, d: nat): nat
    requires d > 0
  {
    x / d
  }

  function ShiftRight(x: nat, k: nat): nat { Quotient(x, TwoTo(k)) }

  /** One step of `lshift`. Shifting a word left by `k` bits leaves room for the `k` bits that
    came out of the word below: or-ing them in is adding them, and what comes out is the carry
    of the product. */
  method ShiftWord(x: nat, z: nat, k: nat) returns (lo: nat, hi: nat)
    requires 0 < k < 32 && x < BASE && z < TwoTo(k)
    ensures SumOf(lo, hi, x, TwoTo(k), 0, z) && lo < BASE && hi < TwoTo(k)
  {
    TwoToPlus(k, 32 - k);
    TwoTo32();
    ShiftParts(x, z, TwoTo(k), TwoTo(32 - k));
    lo, hi := ShiftLeft(x, k) + z, ShiftRight(x, 32 - k);
  }

  lemma SmallPower(k: nat)
    requires k < 32
    ensures TwoTo(k) < BASE
  {
    TwoToPlus(k, 32 - k);
    TwoTo32();
    Larger(TwoTo(k), 2, TwoTo(32 - k));
  }
}
