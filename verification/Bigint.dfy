/** The operations on the big integers of `dtoa.c`. */
module BigIntegers {
  import opened Basics
  import opened BigWords

  class Bigint {
    const k: nat
    const x: array<nat>
    var wds: nat
    var sign: nat

    ghost predicate Valid()
      reads this, x
    {
      x.Length == TwoTo(k) && wds <= x.Length && AreWords(x[..wds])
    }

    ghost function Content(): Words
      requires wds <= x.Length
      reads this, x
    {
      x[..wds]
    }

    /** `Balloc`. */
    constructor (k: nat)
      ensures Valid() && fresh(x) && this.k == k && x.Length == TwoTo(k) && wds == 0 && sign == 0
    {
      this.k := k;
      x := new nat[TwoTo(k)];
      wds, sign := 0, 0;
    }
  }

  // ---- Comparing ---------------------------------------------------------------------------

  /** `cmp`. */
  method Cmp(a: Bigint, b: Bigint) returns (c: int)
    requires a.Valid() && b.Valid() && Normal(a.Content()) && Normal(b.Content())
    requires b.wds > 0 && (a.wds == 0 ==> Value(b.Content()) > 0)
    ensures c < 0 <==> Value(a.Content()) < Value(b.Content())
    ensures c == 0 <==> Value(a.Content()) == Value(b.Content())
  {
    ghost var x, y := a.Content(), b.Content();
    if a.wds != b.wds {
      c := a.wds - b.wds;
      if a.wds > b.wds { LongerIsLarger(x, y); }
      else if b.wds > 1 { LongerIsLarger(y, x); }
      return;
    }
    var i := a.wds;
    while i > 0
      invariant 0 <= i <= a.wds && forall k :: i <= k < |x| ==> x[k] == y[k]
    {
      i := i - 1;
      assert a.x[i] == x[i] && b.x[i] == y[i];
      if a.x[i] != b.x[i] {
        SameTop(x, y, i + 1);
        if a.x[i] < b.x[i] { TopDiffers(x[..i + 1], y[..i + 1]); return -1; }
        TopDiffers(y[..i + 1], x[..i + 1]);
        return 1;
      }
    }
    assert x == y;
    return 0;
  }

  // ---- Multiplying and adding ----------------------------------------------------------------

  lemma StaysNormal(x: Words, y: Words)
    requires Normal(x) && AreWords(y) && |x| == |y| && Value(y) >= Value(x)
    ensures Normal(y)
  {
    if |y| > 1 {
      TopBounds(x);
      TopBounds(y);
    }
  }

  lemma ProductGrows(v: nat, m: nat, a: nat)
    requires m > 0
    ensures v * m + a >= v
  {
    Larger(v, 1, m);
  }

  lemma KeepsNormal(x: Words, y: Words, m: nat, a: nat)
    requires AreWords(y) && |x| == |y| && Value(y) == Value(x) * m + a
    ensures m > 0 && Normal(x) ==> Normal(y)
  {
    if m > 0 && Normal(x) {
      ProductGrows(Value(x), m, a);
      StaysNormal(x, y);
    }
  }

  /** The loop of `multadd`. */
  method ScaleWords(b: array<nat>, wds: nat, m: nat, a: nat) returns (carry: nat)
    requires wds <= b.Length && AreWords(b[..wds]) && m < BASE && a < BASE
    modifies b
    ensures carry < BASE && AreWords(b[..wds])
    ensures Value(b[..wds] + [carry]) == old(Value(b[..wds])) * m + a
    ensures Value(b[..wds] + [0]) == Value(b[..wds])
  {
    ghost var x := b[..wds];
    var i: nat := 0;
    carry := a;
    ScaledFirst(x, m, a);
    while i < wds
      invariant 0 <= i <= wds == |x| && carry < BASE && b[i..wds] == x[i..]
      invariant Scaled(b[..i], carry, x, i, m, a)
    {
      ghost var r := b[..i];
      assert b[i] == x[i];
      var lo, hi := AddProduct(b[i], m, 0, carry);
      ScaledStep(r, carry, x, i, m, a, lo, hi);
      b[i], carry := lo, hi;
      i := i + 1;
      assert b[..i] == r + [lo];
    }
    ScaledLast(b[..wds], carry, x, m, a);
    ValuePush(b[..wds], 0);
  }

  /** One word more, in a larger integer if there is no room. */
  method OneMore(b: Bigint, w: nat) returns (c: Bigint)
    requires b.Valid() && 0 < w < BASE
    modifies b, b.x
    ensures c.Valid() && (c == b || (fresh(c) && fresh(c.x))) && c.sign == old(b.sign)
    ensures c.Content() == old(b.Content()) + [w] && Normal(c.Content())
  {
    ghost var r := b.Content();
    var wds := b.wds;
    c := b;
    if wds >= b.x.Length {
      c := new Bigint(b.k + 1);
      forall j | 0 <= j < wds { c.x[j] := b.x[j]; }
      c.sign := b.sign;
    }
    assert c.x[..wds] == r;
    c.x[wds] := w;
    c.wds := wds + 1;
    assert c.Content() == r + [w];
  }

  /** `multadd`: multiply by `m` and add `a`. */
  method MultAdd(b: Bigint, m: nat, a: nat) returns (c: Bigint)
    requires b.Valid() && b.wds > 0 && m < 0x8000_0000 && a < 0x8000_0000
    modifies b, b.x
    ensures c.Valid() && (c == b || (fresh(c) && fresh(c.x))) && c.sign == old(b.sign) && c.wds > 0
    ensures Value(c.Content()) == old(Value(b.Content())) * m + a
    ensures m > 0 && old(Normal(b.Content())) ==> Normal(c.Content())
  {
    ghost var x := b.Content();
    var carry := ScaleWords(b.x, b.wds, m, a);
    c := b;
    if carry > 0 {
      c := OneMore(b, carry);
    } else {
      KeepsNormal(x, b.Content(), m, a);
    }
  }

  lemma NextRow(v: nat, a: nat, w: nat, y: nat, p: nat)
    requires v == a * w
    ensures v + a * y * p == a * (w + y * p)
  {
    Associate(a, y, p);
  }

  lemma PlaceSum(p: nat, u: nat, v: nat, d: nat, v': nat)
    requires v' == v + d
    ensures u + v' * p == u + v * p + d * p
  {
    Times(p, v, d);
  }

  lemma AddAtPlace(low: Words, mid: Words, mid': Words, d: nat)
    requires Value(mid') == Value(mid) + d
    ensures Value(low + mid') == Value(low + mid) + d * Power(|low|)
  {
    ValueConcat(low, mid);
    ValueConcat(low, mid');
    PlaceSum(Power(|low|), Value(low), Value(mid), d, Value(mid'));
  }

  /** The loop of `mult` over one word: add `y` times `a` to `c` from its word `j` on. */
  method AddScaled(c: array<nat>, j: nat, a: array<nat>, wa: nat, y: nat) returns (carry: nat)
    requires c != a && wa <= a.Length && j + wa <= c.Length && y < BASE
    requires AreWords(a[..wa]) && AreWords(c[j..j + wa])
    modifies c
    ensures carry < BASE && AreWords(c[j..j + wa]) && c[..j] == old(c[..j]) && c[j + wa..] == old(c[j + wa..])
    ensures Value(c[j..j + wa] + [carry]) == Value(a[..wa]) * y + old(Value(c[j..j + wa]))
  {
    ghost var x, mid, low, high := a[..wa], c[j..j + wa], c[..j], c[j + wa..];
    var i: nat := 0;
    carry := 0;
    assert mid[..0] == [];
    ScaledFirst(x, y, 0);
    while i < wa
      invariant 0 <= i <= wa && carry < BASE
      invariant c[..j] == low && c[j + i..j + wa] == mid[i..] && c[j + wa..] == high
      invariant Scaled(c[j..j + i], carry, x, i, y, Value(mid[..i]))
    {
      ghost var r := c[j..j + i];
      assert c[j + i] == mid[i] && a[i] == x[i];
      var lo, hi := AddProduct(a[i], y, c[j + i], carry);
      ScaledOnto(r, carry, x, i, y, mid, lo, hi);
      c[j + i], carry := lo, hi;
      i := i + 1;
      assert c[j..j + i] == r + [lo];
    }
    assert mid[..wa] == mid;
    ScaledLast(c[j..j + wa], carry, x, y, Value(mid));
  }

  /** What `mult` does for one word `y` of its second operand. */
  method AddRow(c: array<nat>, j: nat, a: array<nat>, wa: nat, y: nat)
    requires c != a && 0 < wa <= a.Length && j + wa < c.Length && y < BASE
    requires AreWords(a[..wa]) && AreWords(c[..j + wa])
    modifies c
    ensures AreWords(c[..j + wa + 1]) && c[j + wa + 1..] == old(c[j + wa + 1..])
    ensures Value(c[..j + wa + 1]) == old(Value(c[..j + wa])) + Value(a[..wa]) * y * Power(j)
  {
    ghost var low, mid := c[..j], c[j..j + wa];
    assert c[..j + wa] == low + mid;
    var carry := AddScaled(c, j, a, wa, y);
    ghost var mid' := c[j..j + wa] + [carry];
    c[j + wa] := carry;
    assert c[..j + wa + 1] == low + mid';
    AddAtPlace(low, mid, mid', Value(a[..wa]) * y);
  }

  /** The words up to the last that is not 0. */
  method Significant(c: array<nat>, wc: nat) returns (n: nat)
    requires wc <= c.Length
    ensures n <= wc && (n > 0 ==> c[n - 1] != 0) && Value(c[..n]) == Value(c[..wc])
  {
    ghost var r := c[..wc];
    n := wc;
    while n > 0 && c[n - 1] == 0
      invariant 0 <= n <= |r| && forall i :: n <= i < |r| ==> r[i] == 0
    {
      n := n - 1;
      assert r[n] == c[n];
    }
    DropZeros(r, n);
    assert r[..n] == c[..n];
  }

  /** The first `n` words of `c` stand for `v`, and those up to `wc` are 0. */
  ghost predicate Rows(c: Words, n: nat, wc: nat, v: nat)
  {
    forall h :: Look(h) ==>
      n <= wc <= |c| && AreWords(c[..n]) && Value(c[..n]) == v && forall i :: n <= i < wc ==> c[i] == 0
  }

  lemma EmptyRow(c: Words, n: nat, wc: nat, v: nat)
    requires Rows(c, n, wc, v) && n < wc
    ensures Rows(c, n + 1, wc, v)
  {
    assert Look(0);
    assert c[..n + 1] == c[..n] + [0];
    ValuePush(c[..n], 0);
  }

  lemma FullRow(c: Words, c': Words, n: nat, wc: nat, v: nat, v': nat)
    requires Rows(c, n, wc, v) && n < wc <= |c'| == |c| && c'[n + 1..] == c[n + 1..]
    requires AreWords(c'[..n + 1]) && Value(c'[..n + 1]) == v'
    ensures Rows(c', n + 1, wc, v')
  {
    assert Look(0);
    forall i | n + 1 <= i < wc ensures c'[i] == 0 {
      assert c'[i] == c'[n + 1..][i - (n + 1)] == c[n + 1..][i - (n + 1)] == c[i];
    }
  }

  /** One round of the loop of `mult` over the words of its second operand. */
  method AddWord(c: array<nat>, j: nat, a: array<nat>, wa: nat, w: nat, wc: nat, ghost v: nat)
    requires c != a && 0 < wa <= a.Length && wa + j < wc <= c.Length && w < BASE && AreWords(a[..wa])
    requires Rows(c[..], wa + j, wc, v)
    modifies c
    ensures Rows(c[..], wa + j + 1, wc, v + Value(a[..wa]) * w * Power(j))
  {
    ghost var c0 := c[..];
    if w != 0 {
      assert Look(0);
      assert c0[..wa + j] == c[..j + wa];
      AddRow(c, j, a, wa, w);
      FullRow(c0, c[..], wa + j, wc, v, v + Value(a[..wa]) * w * Power(j));
    } else {
      EmptyRow(c0, wa + j, wc, v);
      assert Value(a[..wa]) * 0 * Power(j) == 0;
    }
  }

  /** The loop of `mult` over the words of its second operand. */
  method AddRows(c: array<nat>, a: array<nat>, wa: nat, b: array<nat>, wb: nat)
    requires c != a && c != b && wb <= wa <= a.Length && wb <= b.Length && wa + wb <= c.Length
    requires AreWords(a[..wa]) && AreWords(b[..wb]) && forall i :: 0 <= i < wa + wb ==> c[i] == 0
    modifies c
    ensures AreWords(c[..wa + wb]) && Value(c[..wa + wb]) == Value(a[..wa]) * Value(b[..wb])
  {
    ghost var x, y := a[..wa], b[..wb];
    ValueZero(c[..wa]);
    assert y[..0] == [] && Value(x) * 0 == 0;
    var j: nat := 0;
    while j < wb
      invariant 0 <= j <= wb && Rows(c[..], wa + j, wa + wb, Value(x) * Value(y[..j]))
    {
      ghost var v := Value(x) * Value(y[..j]);
      assert b[j] == y[j];
      ValueNext(y, j);
      NextRow(v, Value(x), Value(y[..j]), y[j], Power(j));
      AddWord(c, j, a, wa, b[j], wa + wb, v);
      j := j + 1;
    }
    assert Look(0);
    assert y[..wb] == y && c[..][..wa + wb] == c[..wa + wb];
  }

  method Zeros(k: nat, n: nat) returns (c: Bigint)
    requires n <= TwoTo(k)
    ensures c.Valid() && fresh(c) && fresh(c.x) && c.sign == 0 && c.k == k
    ensures forall i :: 0 <= i < n ==> c.x[i] == 0
  {
    c := new Bigint(k);
    forall i | 0 <= i < n { c.x[i] := 0; }
  }

  /** The number in the first `n` words, without its leading zeros. */
  method SetSize(c: Bigint, n: nat)
    requires c.x.Length == TwoTo(c.k) && n <= c.x.Length && AreWords(c.x[..n])
    modifies c`wds
    ensures c.Valid() && Value(c.Content()) == Value(c.x[..n]) && (c.wds > 0 ==> c.x[c.wds - 1] > 0)
  {
    ghost var r := c.x[..n];
    c.wds := Significant(c.x, n);
    assert c.x[..c.wds] == r[..c.wds];
  }

  /** `mult`, once the longer operand is the first. */
  method MultLonger(a: Bigint, b: Bigint) returns (c: Bigint)
    requires a.Valid() && b.Valid() && a.wds >= b.wds
    ensures c.Valid() && fresh(c) && fresh(c.x) && c.sign == 0
    ensures Value(c.Content()) == Value(a.Content()) * Value(b.Content())
    ensures c.wds > 0 ==> c.x[c.wds - 1] > 0
  {
    var k: nat, wa, wb := a.k, a.wds, b.wds;
    if wa + wb > a.x.Length { k := k + 1; }
    c := Zeros(k, wa + wb);
    AddRows(c.x, a.x, wa, b.x, wb);
    SetSize(c, wa + wb);
  }

  /** `mult`. */
  method Mult(a: Bigint, b: Bigint) returns (c: Bigint)
    requires a.Valid() && b.Valid()
    ensures c.Valid() && fresh(c) && fresh(c.x) && c.sign == 0
    ensures Value(c.Content()) == Value(a.Content()) * Value(b.Content())
    ensures c.wds > 0 ==> c.x[c.wds - 1] > 0
  {
    if a.wds < b.wds {
      Commute(Value(a.Content()), Value(b.Content()));
      c := MultLonger(b, a);
    } else {
      c := MultLonger(a, b);
    }
  }

  lemma Commute(a: int, b: int)
    ensures a * b == b * a
  {
  }

  // ---- Shifting ------------------------------------------------------------------------------

  lemma Shifted(zeros: Words, r: Words, v: nat, s: nat, k: nat)
    requires k == 32 * |zeros| + s && Value(r) == v * TwoTo(s) && forall i :: 0 <= i < |zeros| ==> zeros[i] == 0
    ensures Value(zeros + r) == v * TwoTo(k)
  {
    ValueZero(zeros);
    ValueConcat(zeros, r);
    TwoToPlus(s, 32 * |zeros|);
    TwoToWords(|zeros|);
    Associate(v, TwoTo(s), Power(|zeros|));
  }

  /** The loop of `lshift` over the bits: `s` of them, from word `n` of `c` on. */
  method ShiftBits(c: array<nat>, n: nat, a: array<nat>, wa: nat, s: nat) returns (z: nat)
    requires c != a && 0 < wa <= a.Length && n + wa < c.Length && 0 < s < 32 && AreWords(a[..wa])
    modifies c
    ensures AreWords(c[n..n + wa + 1]) && c[..n] == old(c[..n]) && z == c[n + wa]
    ensures Value(c[n..n + wa + 1]) == Value(a[..wa]) * TwoTo(s)
  {
    ghost var x, low, m := a[..wa], c[..n], TwoTo(s);
    SmallPower(s);
    var i: nat := 0;
    z := 0;
    ScaledFirst(x, m, 0);
    while i < wa
      invariant 0 <= i <= wa && z < m < BASE && c[..n] == low
      invariant Scaled(c[n..n + i], z, x, i, m, 0)
    {
      ghost var r := c[n..n + i];
      assert a[i] == x[i];
      var lo, hi := ShiftWord(a[i], z, s);
      ScaledStep(r, z, x, i, m, 0, lo, hi);
      c[n + i], z := lo, hi;
      i := i + 1;
      assert c[n..n + i] == r + [lo];
    }
    ghost var r := c[n..n + wa];
    ScaledLast(r, z, x, m, 0);
    c[n + wa] := z;
    assert c[n..n + wa + 1] == r + [z];
  }

  /** The words of `a` shifted by less than a word, to word `n` of `c`: `len` of them. */
  method ShiftInto(c: array<nat>, n: nat, a: array<nat>, wa: nat, s: nat) returns (len: nat)
    requires c != a && 0 < wa <= a.Length && n + wa < c.Length && s < 32 && AreWords(a[..wa])
    modifies c
    ensures wa <= len <= wa + 1 && AreWords(c[n..n + len]) && c[..n] == old(c[..n])
    ensures Value(c[n..n + len]) == Value(a[..wa]) * TwoTo(s)
  {
    ghost var low, x := c[..n], a[..wa];
    len := wa;
    if s > 0 {
      var z := ShiftBits(c, n, a, wa, s);
      ghost var r := c[n..n + wa];
      assert c[n..n + wa + 1] == r + [z];
      assert forall k :: 0 <= k < wa ==> r[k] == (r + [z])[k];
      ValuePush(r, z);
      if z > 0 { len := len + 1; }
      assert Value(c[n..n + len]) == Value(x) * TwoTo(s);
    } else {
      forall j | 0 <= j < wa { c[n + j] := a[j]; }
      assert c[n..n + len] == x && c[..n] == low;
      assert Value(c[n..n + len]) == Value(x) * TwoTo(s);
    }
    assert a[..wa] == x;
  }

  /** `lshift`. */
  method LShift(b: Bigint, k: nat) returns (c: Bigint)
    requires b.Valid() && b.wds > 0
    ensures c.Valid() && fresh(c) && fresh(c.x) && c.wds > 0
    ensures Value(c.Content()) == Value(b.Content()) * TwoTo(k)
  {
    var n, s, wds := k / 32, k % 32, b.wds;
    var k1: nat, i: nat := b.k, b.x.Length;
    while n + wds + 1 > i
      invariant i == TwoTo(k1)
    {
      k1, i := k1 + 1, 2 * i;
    }
    c := Zeros(k1, n);
    ghost var zeros := c.x[..n];
    var len := ShiftInto(c.x, n, b.x, wds, s);
    ghost var r := c.x[n..n + len];
    c.wds := n + len;
    assert c.Content() == zeros + r;
    Shifted(zeros, r, Value(b.Content()), s, k);
  }

  // ---- Differences ---------------------------------------------------------------------------

  /** The second loop of `diff`: the words that `b` does not have. */
  method BorrowOn(c: array<nat>, a: array<nat>, wa: nat, from: nat, borrow0: nat, ghost v: nat)
    requires c != a && from <= wa <= a.Length && wa <= c.Length && AreWords(a[..wa]) && borrow0 <= 1
    requires v <= Value(a[..wa]) && Reduced(c[..from], borrow0, a[..wa], from, v)
    modifies c
    ensures AreWords(c[..wa]) && Value(c[..wa]) == Value(a[..wa]) - v
  {
    ghost var x := a[..wa];
    var i: nat, borrow: nat := from, borrow0;
    while i < wa
      invariant from <= i <= wa && borrow <= 1 && Reduced(c[..i], borrow, x, i, v)
    {
      ghost var r := c[..i];
      assert a[i] == x[i];
      var w, next := SubtractWord(a[i], 0, borrow);
      ReducedByNone(r, borrow, x, i, v, w, next);
      c[i], borrow := w, next;
      i := i + 1;
      assert c[..i] == r + [w];
    }
    ReducedLast(c[..wa], borrow, x, v);
  }

  /** The loops of `diff`: the words of `a`, less those of `b` as long as it has any. */
  method SubtractWords(c: array<nat>, a: array<nat>, wa: nat, b: array<nat>, wb: nat)
    requires c != a && c != b && wb <= wa <= a.Length && wb <= b.Length && wa <= c.Length
    requires AreWords(a[..wa]) && AreWords(b[..wb]) && Value(b[..wb]) <= Value(a[..wa])
    modifies c
    ensures AreWords(c[..wa]) && Value(c[..wa]) == Value(a[..wa]) - Value(b[..wb])
  {
    ghost var x, y := a[..wa], b[..wb];
    var i: nat, borrow: nat := 0, 0;
    ReducedFirst(x);
    assert y[..0] == [];
    while i < wb
      invariant 0 <= i <= wb && borrow <= 1 && Reduced(c[..i], borrow, x, i, Value(y[..i]))
    {
      ghost var r := c[..i];
      assert a[i] == x[i] && b[i] == y[i];
      var w, next := SubtractWord(a[i], b[i], borrow);
      ReducedByWord(r, borrow, x, i, y, w, next);
      c[i], borrow := w, next;
      i := i + 1;
      assert c[..i] == r + [w];
    }
    assert y[..wb] == y;
    BorrowOn(c, a, wa, wb, borrow, Value(y));
  }

  /** `diff`, once the larger operand is the first. */
  method DiffLarger(a: Bigint, b: Bigint, sign: nat) returns (c: Bigint)
    requires a.Valid() && b.Valid() && a.wds >= b.wds > 0 && Value(a.Content()) > Value(b.Content())
    ensures c.Valid() && fresh(c) && fresh(c.x) && c.wds > 0 && c.sign == sign
    ensures Value(c.Content()) == Value(a.Content()) - Value(b.Content()) && Normal(c.Content())
  {
    var wa := a.wds;
    c := Zeros(a.k, 0);
    c.sign := sign;
    SubtractWords(c.x, a.x, wa, b.x, b.wds);
    SetSize(c, wa);
  }

  /** `diff`: the sign tells which of the two is the larger. */
  method Diff(a: Bigint, b: Bigint) returns (c: Bigint)
    requires a.Valid() && b.Valid() && a.wds > 0 && b.wds > 0 && Normal(a.Content()) && Normal(b.Content())
    ensures c.Valid() && fresh(c) && fresh(c.x) && c.wds > 0 && Normal(c.Content())
    ensures Value(c.Content())
            == if c.sign == 0 then Value(a.Content()) - Value(b.Content()) else Value(b.Content()) - Value(a.Content())
    ensures c.sign == if Value(a.Content()) < Value(b.Content()) then 1 else 0
  {
    var i := Cmp(a, b);
    if i == 0 {
      c := new Bigint(0);
      c.x[0] := 0;
      c.wds := 1;
      assert c.Content() == [0];
    } else if i < 0 {
      NotShorter(b.Content(), a.Content());
      c := DiffLarger(b, a, 1);
    } else {
      NotShorter(a.Content(), b.Content());
      c := DiffLarger(a, b, 0);
    }
  }

  lemma NotShorter(x: Words, y: Words)
    requires Normal(x) && Normal(y) && |x| > 0 && Value(x) > Value(y)
    ensures |x| >= |y|
  {
    if |y| > |x| { LongerIsLarger(y, x); }
  }

  // ---- Quotient and remainder ----------------------------------------------------------------

  /** What `quorem` takes for the quotient: the top word through the top word of the divisor and
    one more. */
  function Estimate(x: Words, s: Words): nat
    requires s != []
  {
    if |x| < |s| then 0 else Quotient(x[|s| - 1], s[|s| - 1] + 1)
  }

  /** `a / (t + 1) * v <= a * p` for a divisor below `(t + 1) * p`. */
  lemma EstimateTimes(a: nat, t: nat, v: nat, p: nat)
    requires v < (t + 1) * p
    ensures Quotient(a, t + 1) * v <= a * p
  {
    var q := Quotient(a, t + 1);
    assert q * (t + 1) <= a;
    Larger(q, v, (t + 1) * p);
    Associate(q, t + 1, p);
    Commute(q, v);
    Commute(q, (t + 1) * p);
    Larger(p, q * (t + 1), a);
  }

  /** The estimate is never too large. */
  lemma EstimateLow(x: Words, s: Words)
    requires AreWords(x) && AreWords(s) && |x| <= |s| && s != []
    ensures Estimate(x, s) * Value(s) <= Value(x)
  {
    if |x| == |s| {
      TopBounds(x);
      TopBounds(s);
      EstimateTimes(x[|x| - 1], s[|s| - 1], Value(s), Power(|s| - 1));
    } else {
      assert 0 * Value(s) == 0;
    }
  }

  lemma EstimateReaches(a: nat, t: nat, v: nat, p: nat)
    requires t * p <= v && Quotient(a, t + 1) < t
    ensures (a + 1) * p <= (Quotient(a, t + 1) + 2) * v
  {
    var q := Quotient(a, t + 1);
    assert a == q * (t + 1) + a % (t + 1);
    assert (q + 1) * (t + 1) == q * (t + 1) + (t + 1);
    assert (q + 1) * (t + 1) == (q + 1) * t + (q + 1);
    Larger(p, a + 1, (q + 1) * t + t);
    assert (q + 1) * t + t == (q + 2) * t;
    Associate(q + 2, t, p);
    Larger(q + 2, t * p, v);
    Commute(q + 2, t * p);
    Commute(q + 2, v);
  }

  /** It is at most one too small, unless it reaches the top word of the divisor. */
  lemma EstimateHigh(x: Words, s: Words)
    requires AreWords(x) && AreWords(s) && 0 < |x| <= |s| && Estimate(x, s) < s[|s| - 1]
    ensures Value(x) < (Estimate(x, s) + 2) * Value(s)
  {
    TopBounds(s);
    TopBounds(x);
    if |x| == |s| {
      EstimateReaches(x[|x| - 1], s[|s| - 1], Value(s), Power(|s| - 1));
    } else {
      PowerGrows(|x|, |s| - 1);
      ValueBound(x);
    }
  }

  /** The divisors that `dtoa` makes: its shifts put the top bit of the top word at bit 27. */
  ghost predicate Shaped(s: Words) { s != [] && Normal(s) && 0x800_0000 <= s[|s| - 1] < 0x1000_0000 }

  /** For those, a dividend below 16 times as much has no more words, and the estimate is at most
    one too small. */
  lemma DigitEstimate(x: Words, s: Words)
    requires Normal(x) && Shaped(s) && Value(x) < 16 * Value(s)
    ensures |x| <= |s| && Estimate(x, s) <= 15 && Value(x) < (Estimate(x, s) + 2) * Value(s)
  {
    var n := |s| - 1;
    TopBounds(s);
    Larger(Power(n), s[n] + 1, 0x1000_0000);
    assert Value(x) < Power(n + 1);
    if |x| > |s| {
      TopBounds(x);
      PowerGrows(n + 1, |x| - 1);
    }
    if x == [] {
      assert Estimate(x, s) == 0;
    } else {
      if |x| == |s| {
        EstimateLow(x, s);
        if Estimate(x, s) >= 16 { Larger(Value(s), 16, Estimate(x, s)); }
      }
      EstimateHigh(x, s);
    }
  }

  /** The first `i` words of `q` times `y` have been taken from `x`. */
  ghost predicate Taken(r: Words, owed: nat, x: Words, i: nat, y: Words, q: nat)
  {
    forall n :: Look(n) ==> i <= |y| && Reduced(r, owed, x, i, Value(y[..i]) * q)
  }

  lemma TakenFirst(x: Words, y: Words, q: nat)
    ensures Taken([], 0, x, 0, y, q)
  {
    ReducedFirst(x);
    assert y[..0] == [] && 0 * q == 0;
  }

  lemma TakenIs(r: Words, owed: nat, x: Words, i: nat, y: Words, q: nat)
    requires Taken(r, owed, x, i, y, q) && i <= |y|
    ensures Reduced(r, owed, x, i, Value(y[..i]) * q)
  {
    assert Look(0);
  }

  lemma TakenFrom(r: Words, owed: nat, x: Words, i: nat, y: Words, q: nat)
    requires i <= |y| && Reduced(r, owed, x, i, Value(y[..i]) * q)
    ensures Taken(r, owed, x, i, y, q)
  {
  }

  lemma TakenNext(r: Words, borrow: nat, carry: nat, x: Words, i: nat, y: Words, q: nat, lo: nat, hi: nat, w: nat,
                  next: nat)
    requires i < |x| == |y| && Taken(r, borrow + carry, x, i, y, q)
    requires SumOf(lo, hi, y[i], q, 0, carry) && DifferenceOf(w, next, x[i], lo, borrow)
    ensures Taken(r + [w], next + hi, x, i + 1, y, q)
  {
    TakenIs(r, borrow + carry, x, i, y, q);
    ReducedTimes(r, borrow, carry, x, i, y, q, lo, hi, w, next);
    TakenFrom(r + [w], next + hi, x, i + 1, y, q);
  }

  lemma TakenAll(r: Words, owed: nat, x: Words, y: Words, q: nat, v: nat)
    requires Taken(r, owed, x, |x|, y, q) && |x| == |y| && v == Value(y) * q && v <= Value(x)
    ensures AreWords(r) && |r| == |x| && Value(r) == Value(x) - v
  {
    TakenIs(r, owed, x, |x|, y, q);
    assert y[..|x|] == y;
    ReducedLast(r, owed, x, v);
  }

  /** The loop of `quorem`: take `q` times the divisor away. */
  method TakeAway(b: array<nat>, s: array<nat>, n: nat, q: nat)
    requires b != s && n <= b.Length && n <= s.Length && AreWords(b[..n]) && AreWords(s[..n]) && q < BASE
    requires Value(s[..n]) * q <= Value(b[..n])
    modifies b
    ensures AreWords(b[..n]) && Value(b[..n]) == old(Value(b[..n])) - Value(s[..n]) * q
  {
    ghost var x, y := b[..n], s[..n];
    var i: nat, borrow: nat, carry: nat := 0, 0, 0;
    TakenFirst(x, y, q);
    while i < n
      invariant 0 <= i <= n && borrow <= 1 && carry < BASE && b[i..n] == x[i..]
      invariant Taken(b[..i], borrow + carry, x, i, y, q)
    {
      ghost var r := b[..i];
      assert b[i] == x[i] && s[i] == y[i];
      var lo, hi := AddProduct(s[i], q, 0, carry);
      var w, next := SubtractWord(b[i], lo, borrow);
      TakenNext(r, borrow, carry, x, i, y, q, lo, hi, w, next);
      b[i], borrow, carry := w, next, hi;
      i := i + 1;
      assert b[..i] == r + [w];
    }
    TakenAll(b[..n], borrow + carry, x, y, q, Value(y) * q);
  }

  /** How `quorem` drops leading zeros, `n` being the place of the top word: a single word that
    is 0 is dropped too. */
  method Trim(b: Bigint, n: nat) returns (m: nat)
    requires b.Valid() && b.wds == n + 1
    modifies b`wds
    ensures b.Valid() && Normal(b.Content()) && Value(b.Content()) == old(Value(b.Content()))
    ensures b.wds <= n + 1 && (b.wds == n + 1 ==> m == n)
  {
    ghost var r := b.Content();
    m := n;
    if b.x[n] == 0 {
      var e := n - 1;
      while e > 0 && b.x[e] == 0
        invariant -1 <= e == m - 1 && m <= n && forall i :: m <= i < |r| ==> r[i] == 0
      {
        assert r[e] == b.x[e];
        m, e := m - 1, e - 1;
      }
      DropZeros(r, m);
      b.wds := m;
      assert b.Content() == r[..m];
    }
  }

  /** Taking away `q` times `s` and leaving less than `s` is dividing. */
  lemma Divide(v: nat, q: nat, r: nat, s: nat)
    requires v == s * q + r && r < s
    ensures q == Quotient(v, s) && r == Remainder(v, s)
  {
    Commute(s, q);
    DivideExactly(v, q, r, s);
  }

  lemma LessWords(x: Words, s: Words)
    requires Normal(x) && Normal(s) && |x| < |s| && Value(s) > 0
    ensures Value(x) < Value(s) && Value(x) < (Estimate(x, s) + 2) * Value(s) && Value(s) * 0 == 0
    ensures Estimate(x, s) == 0 && Value(x) < (Estimate(x, s) + 1) * Value(s)
  {
    if |s| > 1 { LongerIsLarger(s, x); }
  }

  lemma QuotientRest(v0: nat, s: nat, q0: nat, v1: nat, q: nat, v2: nat)
    requires v0 == s * q0 + v1
    requires if v1 >= s then q == q0 + 1 && v2 == v1 - s else q == q0 && v2 == v1
    ensures v0 == s * q + v2
    ensures v2 < s <==> v0 < (q0 + 2) * s
    ensures v1 >= s <==> v0 >= (q0 + 1) * s
  {
    assert (q0 + 1) * s == s * q0 + s;
    assert (q0 + 2) * s == s * q0 + 2 * s;
    assert s * (q0 + 1) == s * q0 + s;
  }

  /** The first half of `quorem`: take the estimate's share. */
  method TakeShare(b: Bigint, S: Bigint, n: nat, q: nat) returns (m: nat)
    requires b != S && b.x != S.x && b.Valid() && S.Valid() && b.wds == S.wds == n + 1 && Normal(b.Content())
    requires q < BASE && Value(S.Content()) * q <= Value(b.Content())
    modifies b, b.x
    ensures b.Valid() && Normal(b.Content()) && b.wds <= n + 1 && (b.wds == n + 1 ==> m == n)
    ensures Value(b.Content()) == old(Value(b.Content())) - Value(S.Content()) * q
  {
    m := n;
    if q > 0 {
      TakeAway(b.x, S.x, n + 1, q);
      m := Trim(b, n);
    } else {
      assert Value(S.Content()) * 0 == 0;
    }
  }

  /** The second half: correct an estimate that was too small. */
  method Correct(b: Bigint, S: Bigint, n: nat, q: nat) returns (q': nat)
    requires b != S && b.x != S.x && b.Valid() && S.Valid() && Normal(b.Content()) && Normal(S.Content())
    requires b.wds <= S.wds && Value(S.Content()) > 0 && (b.wds == S.wds ==> n + 1 == b.wds)
    modifies b, b.x
    ensures b.Valid() && Normal(b.Content())
    ensures if old(Value(b.Content())) >= Value(S.Content())
      then q' == q + 1 && Value(b.Content()) == old(Value(b.Content())) - Value(S.Content())
      else q' == q && Value(b.Content()) == old(Value(b.Content()))
  {
    var c := Cmp(b, S);
    q' := q;
    if c >= 0 {
      if b.wds < S.wds { LessWords(b.Content(), S.Content()); }
      q' := q + 1;
      TakeAway(b.x, S.x, n + 1, 1);
      var _ := Trim(b, n);
    }
  }

  lemma WholeRest(x: Words, s: Words, q0: nat, v1: nat, q: nat, v2: nat)
    requires s != [] && q0 == Estimate(x, s) && v1 == Value(x) - Value(s) * q0
    requires if v1 >= Value(s) then q == q0 + 1 && v2 == v1 - Value(s) else q == q0 && v2 == v1
    ensures Value(x) == Value(s) * q + v2
    ensures v2 < Value(s) <==> Value(x) < (Estimate(x, s) + 2) * Value(s)
    ensures q == Estimate(x, s) + if Value(x) < (Estimate(x, s) + 1) * Value(s) then 0 else 1
  {
    QuotientRest(Value(x), Value(s), q0, v1, q, v2);
  }

  /** `quorem`, when the dividend has as many words as the divisor. */
  method QuoremSame(b: Bigint, S: Bigint) returns (q: nat)
    requires b != S && b.x != S.x && b.Valid() && S.Valid() && Normal(b.Content()) && Normal(S.Content())
    requires b.wds == S.wds && Value(S.Content()) > 0 && S.x[S.wds - 1] + 1 < BASE
    modifies b, b.x
    ensures b.Valid() && Normal(b.Content())
    ensures old(Value(b.Content())) == Value(S.Content()) * q + Value(b.Content())
    ensures Value(b.Content()) < Value(S.Content()) <==>
      old(Value(b.Content())) < (Estimate(old(b.Content()), S.Content()) + 2) * Value(S.Content())
    ensures var e := Estimate(old(b.Content()), S.Content());
      q == e + if old(Value(b.Content())) < (e + 1) * Value(S.Content()) then 0 else 1
  {
    ghost var x, s := b.Content(), S.Content();
    var n := S.wds - 1;
    var q0 := Quotient(b.x[n], S.x[n] + 1);
    EstimateLow(x, s);
    Commute(q0, Value(s));
    n := TakeShare(b, S, n, q0);
    ghost var v1 := Value(b.Content());
    q := Correct(b, S, n, q0);
    WholeRest(x, s, q0, v1, q, Value(b.Content()));
  }

  /** `quorem`: what it takes away is what the quotient says; the rest is the remainder exactly
    when the estimate was at most one too small. */
  method Quorem(b: Bigint, S: Bigint) returns (q: nat)
    requires b != S && b.x != S.x && b.Valid() && S.Valid() && Normal(b.Content()) && Normal(S.Content())
    requires b.wds <= S.wds && Value(S.Content()) > 0 && S.x[S.wds - 1] + 1 < BASE
    modifies b, b.x
    ensures b.Valid() && Normal(b.Content())
    ensures old(Value(b.Content())) == Value(S.Content()) * q + Value(b.Content())
    ensures Value(b.Content()) < Value(S.Content()) <==>
      old(Value(b.Content())) < (Estimate(old(b.Content()), S.Content()) + 2) * Value(S.Content())
    ensures var e := Estimate(old(b.Content()), S.Content());
      q == e + if old(Value(b.Content())) < (e + 1) * Value(S.Content()) then 0 else 1
  {
    if b.wds < S.wds {
      LessWords(b.Content(), S.Content());
      q := 0;
    } else {
      q := QuoremSame(b, S);
    }
  }

  /** For the divisors that `dtoa` makes what is left is less than the divisor. */
  method QuoremDigit(b: Bigint, S: Bigint) returns (q: nat)
    requires b != S && b.x != S.x && b.Valid() && S.Valid() && Normal(b.Content()) && Shaped(S.Content())
    requires Value(b.Content()) < 16 * Value(S.Content())
    modifies b, b.x
    ensures b.Valid() && Normal(b.Content())
    ensures old(Value(b.Content())) == Value(S.Content()) * q + Value(b.Content())
    ensures q <= 15 && Value(b.Content()) < Value(S.Content())
  {
    ghost var v, s := Value(b.Content()), Value(S.Content());
    TopBounds(S.Content());
    DigitEstimate(b.Content(), S.Content());
    q := Quorem(b, S);
    if q >= 16 { Larger(s, 16, q); Commute(s, q); }
  }

  function Remainder(x: nat, d: nat): nat
    requires d > 0
  {
    x % d
  }

  /** So there `quorem` divides: it returns the quotient and leaves the remainder. */
  method QuoremOfShaped(b: Bigint, S: Bigint) returns (q: nat)
    requires b != S && b.x != S.x && b.Valid() && S.Valid() && Normal(b.Content()) && Shaped(S.Content())
    requires Value(b.Content()) < 16 * Value(S.Content())
    modifies b, b.x
    ensures b.Valid() && Normal(b.Content()) && q <= 15
    ensures q == Quotient(old(Value(b.Content())), Value(S.Content()))
    ensures Value(b.Content()) == Remainder(old(Value(b.Content())), Value(S.Content()))
  {
    ghost var v, s := Value(b.Content()), Value(S.Content());
    q := QuoremDigit(b, S);
    Divide(v, q, Value(b.Content()), s);
  }

  lemma TenByOne()
    ensures Normal([10]) && Normal([1]) && Value([10]) == 10 && Value([1]) == 1 && Estimate([10], [1]) == 5
  {
    assert [10][..0] == [] && [1][..0] == [];
    assert Quotient(10, 2) == 5;
  }

  /** For others it need not: 10 by 1 gives 6, and leaves 4. */
  method EstimateTooSmall(b: Bigint, S: Bigint) returns (q: nat)
    requires b != S && b.x != S.x && b.Valid() && S.Valid() && b.Content() == [10] && S.Content() == [1]
    modifies b, b.x
    ensures q == 6 && b.Valid() && Value(b.Content()) == 4 && old(Value(b.Content())) == 10 && Value(S.Content()) == 1
  {
    TenByOne();
    assert S.x[0] == S.Content()[0];
    q := Quorem(b, S);
  }
}
