/** The Diffie-Hellman arithmetic of `lua-crypt.c`: products and powers modulo the largest 64-bit
  prime, in 64-bit words that wrap around. */
module ModExp {
  import opened Basics

  const P: nat := 0xffff_ffff_ffff_ffc5

  const WORD: nat := 0x1_0000_0000_0000_0000

  const G: nat := 5

  /** A 64-bit result. */
  function Wrap(x: int): (r: nat)
    ensures r < WORD
  {
    x % WORD
  }

  // ---- Arithmetic modulo P -----------------------------------------------------------------

  lemma Multiple(k: int, r: int)
    ensures (P * k + r) % P == r % P
  {
  }

  lemma ModProduct(x: int, y: int)
    ensures (x % P) * y % P == x * y % P
  {
    var q, r := x / P, x % P;
    assert x == P * q + r;
    assert x * y == (P * q + r) * y == P * (q * y) + r * y by { Distribute(P * q, r, y); Associate(P, q, y); }
    Multiple(q * y, r * y);
  }

  lemma Distribute(a: int, b: int, c: int)
    ensures (a + b) * c == a * c + b * c
  {
  }

  lemma Associate(a: int, b: int, c: int)
    ensures a * b * c == a * (b * c)
  {
  }

  // ---- Multiplication ----------------------------------------------------------------------

  /** `mul_mod_p`. */
  method MulModP(a0: nat, b0: nat) returns (m: nat)
    requires a0 <= P && b0 < WORD
    ensures m < P && m == a0 * b0 % P
  {
    var a: nat, b: nat := a0, b0;
    m := 0;
    ghost var v := a0 * b0 % P;
    assert Keeps(m, a, b, v);
    while b != 0
      invariant a <= P && m < P && b < WORD && Keeps(m, a, b, v)
      decreases b
    {
      ghost var m0, a1 := m, a;
      Added(m, a);
      Doubled(a);
      if b % 2 == 1 {
        var t := Wrap(P - a);
        if m >= t {
          m := Wrap(m - t);
        } else {
          m := Wrap(m + a);
        }
      }
      if a >= Wrap(P - a) {
        a := Wrap(Wrap(a * 2) - P);
      } else {
        a := Wrap(a * 2);
      }
      Round(m0, m, a1, a, b, v);
      b := b / 2;
    }
    Finished(m, a, v);
  }

  /** What the loop keeps. */
  ghost predicate Keeps(m: nat, a: nat, b: nat, v: nat) { forall n :: Look(n) ==> (m + a * b) % P == v }

  lemma Finished(m: nat, a: nat, v: nat)
    requires Keeps(m, a, 0, v) && m < P
    ensures m == v
  {
    assert Look(0);
    assert a * 0 == 0;
  }

  lemma Added(m: nat, a: nat)
    requires m < P && a <= P
    ensures var t := Wrap(P - a); var r := if m >= t then Wrap(m - t) else Wrap(m + a);
            r < P && (r == m + a || r == m + a - P)
  {
  }

  lemma Doubled(a: nat)
    requires a <= P
    ensures var r := if a >= Wrap(P - a) then Wrap(Wrap(a * 2) - P) else Wrap(a * 2);
            r <= P && (r == 2 * a || r == 2 * a - P)
  {
    if 2 * a >= WORD {
      assert Wrap(a * 2) == 2 * a - WORD;
    }
  }

  /** One round of the loop: add if the bit is set, double, halve. */
  lemma Round(m: nat, m': nat, a: nat, a': nat, b: nat, v: nat)
    requires b > 0 && (a' == 2 * a || a' == 2 * a - P)
    requires b % 2 == 0 ==> m' == m
    requires b % 2 == 1 ==> m' == m + a || m' == m + a - P
    requires Keeps(m, a, b, v)
    ensures Keeps(m', a', b / 2, v)
  {
    assert Look(0);
    var h := b / 2;
    var k := if a' == 2 * a then 0 else -h;
    var j := if b % 2 == 0 || m' == m + a then 0 else -1;
    assert a' * h == 2 * a * h + P * k by { Distribute(2 * a, a' - 2 * a, h); }
    assert a * b == 2 * a * h + a * (b % 2) by { assert b == 2 * h + b % 2; Twice(a, h, b % 2); }
    assert m' + a' * h == P * (k + j) + (m + a * b) by { Distribute(k, j, P); }
    Multiple(k + j, m + a * b);
  }

  lemma Twice(a: int, h: int, r: int)
    ensures a * (2 * h + r) == 2 * a * h + a * r
  {
  }

  // ---- Powers ------------------------------------------------------------------------------

  function Pow(a: nat, b: nat): (r: nat) { if b == 0 then 1 else a * Pow(a, b - 1) }

  lemma {:induction false} PowPlus(a: nat, b: nat, c: nat)
    ensures Pow(a, b + c) == Pow(a, b) * Pow(a, c)
    decreases b
  {
    if b > 0 {
      PowPlus(a, b - 1, c);
      Associate(a, Pow(a, b - 1), Pow(a, c));
    }
  }

  lemma {:induction false} PowTimes(a: nat, b: nat, c: nat)
    ensures Pow(Pow(a, b), c) == Pow(a, b * c)
    decreases c
  {
    if c > 0 {
      PowTimes(a, b, c - 1);
      PowPlus(a, b, b * (c - 1));
      assert b * c == b + b * (c - 1);
    } else {
      assert b * c == 0;
    }
  }

  lemma {:induction false} PowMod(a: nat, b: nat)
    ensures Pow(a % P, b) % P == Pow(a, b) % P
    decreases b
  {
    if b > 0 {
      PowMod(a, b - 1);
      ModProduct(a, Pow(a % P, b - 1));
      ModProduct(Pow(a % P, b - 1), a);
      ModProduct(Pow(a, b - 1), a);
    }
  }

  /** `pow_mod_p`. It returns `a` itself for `b == 1`, even when `a` is `P`. */
  method PowModP(a: nat, b: nat) returns (r: nat)
    requires a <= P && 1 <= b < WORD
    ensures r <= P && r % P == Pow(a, b) % P && (r == P <==> a == P && b == 1)
    decreases b
  {
    if b == 1 {
      assert Pow(a, 1) == a * Pow(a, 0) == a;
      return a;
    }
    ghost var n := b / 2;
    var t := PowModP(a, b / 2);
    r := MulModP(t, t);
    HalfPower(a, n, t, r);
    if b % 2 != 0 {
      ghost var even := r;
      r := MulModP(r, a);
      OnceMore(a, even, n + n, r);
      assert b == n + n + 1;
    } else {
      assert b == n + n;
    }
  }

  lemma HalfPower(a: nat, n: nat, t: nat, r: nat)
    requires t % P == Pow(a, n) % P && r == t * t % P
    ensures r == Pow(a, n + n) % P && r % P == r
  {
    Squared(t, Pow(a, n));
    PowPlus(a, n, n);
  }

  lemma Squared(t: nat, h: nat)
    requires t % P == h % P
    ensures t * t % P == h * h % P
  {
    ModProduct(t, t);
    ModProduct(h, t);
    ModProduct(t, h);
    ModProduct(h, h);
  }

  lemma OnceMore(a: nat, even: nat, n: nat, r: nat)
    requires even == Pow(a, n) % P && r == even * a % P
    ensures r == Pow(a, n + 1) % P && r % P == r
  {
    ModProduct(Pow(a, n), a);
    assert Pow(a, n + 1) == a * Pow(a, n);
  }

  /** `powmodp`. */
  method PowModPrime(x: nat, b: nat) returns (r: nat)
    requires x < WORD && 1 <= b < WORD
    ensures r <= P && r % P == Pow(x, b) % P
    ensures r == Pow(x, b) % P <==> !(x == P && b == 1)
  {
    var a := x;
    if a > P {
      a := a % P;
    }
    PowMod(x, b);
    r := PowModP(a, b);
  }

  // ---- The exchange ------------------------------------------------------------------------

  /** What `ldhexchange` and `ldhsecret` compute: `r` is `x^b` in the field. */
  ghost predicate IsPower(r: nat, x: nat, b: nat) { r == Pow(x, b) % P }

  /** Both sides derive the same secret. */
  lemma SameSecret(x: nat, y: nat, px: nat, py: nat, sx: nat, sy: nat)
    requires IsPower(px, G, x) && IsPower(py, G, y) && IsPower(sx, py, x) && IsPower(sy, px, y)
    ensures sx == sy
  {
    PowMod(Pow(G, x), y);
    PowMod(Pow(G, y), x);
    PowTimes(G, x, y);
    PowTimes(G, y, x);
    assert x * y == y * x;
  }

  /** 1 / G modulo P. */
  const G_INVERSE: nat := 7378697629483820623

  lemma {:induction false} GInvertible(x: nat)
    ensures Pow(G, x) * Pow(G_INVERSE, x) % P == 1
    decreases x
  {
    if x > 0 {
      GInvertible(x - 1);
      var a, b := Pow(G, x - 1), Pow(G_INVERSE, x - 1);
      assert G * a * (G_INVERSE * b) == (G * G_INVERSE) * (a * b);
      ModProduct(G * G_INVERSE, a * b);
      assert G * G_INVERSE % P == 1;
    }
  }

  /** A public key is never 0, which the other side would refuse. */
  lemma PublicKeyAccepted(x: nat)
    ensures Pow(G, x) % P != 0
  {
    GInvertible(x);
    ModProduct(Pow(G, x), Pow(G_INVERSE, x));
  }

  /** The whole exchange: whatever the private keys are, the keys are accepted and the secrets are
    the same. */
  method Exchange(x: nat, y: nat) returns (px: nat, py: nat, sx: nat, sy: nat)
    requires 1 <= x < WORD && 1 <= y < WORD
    ensures px != 0 && py != 0 && sx == sy && IsPower(px, G, x) && IsPower(py, G, y) && IsPower(sx, py, x)
  {
    px := PowModPrime(G, x);
    py := PowModPrime(G, y);
    PublicKeyAccepted(x);
    PublicKeyAccepted(y);
    sx := PowModPrime(py, x);
    sy := PowModPrime(px, y);
    SameSecret(x, y, px, py, sx, sy);
  }
}
