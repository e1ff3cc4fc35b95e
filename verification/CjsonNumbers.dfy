/** The numbers that `json_decode` takes, and what they mean: those of `strtoll` with base 0, in decimal,
  octal or hexadecimal digits, and those of `strtod` where a point or an exponent follows. */
module CjsonNumbers {
  import opened Basics
  import opened Cjson

  // ---- Numerals ----------------------------------------------------------------------------------

  /** A digit in either case. */
  function Digit(c: byte): Option<nat>
  {
    if 48 <= c <= 57 then Some(c - 48)
    else if 65 <= c <= 70 then Some(c - 55)
    else if 97 <= c <= 102 then Some(c - 87)
    else None
  }

  predicate IsDigit(c: byte, base: nat) { Digit(c).Some? && Digit(c).value < base }

  predicate AreDigits(ds: seq<byte>, base: nat) { forall i :: 0 <= i < |ds| ==> IsDigit(ds[i], base) }

  function NumberOf(ds: seq<byte>, base: nat): (n: nat)
    requires AreDigits(ds, base)
  {
    if ds == [] then 0 else NumberOf(ds[..|ds| - 1], base) * base + Digit(ds[|ds| - 1]).value
  }

  /** `mark` is empty, or the two characters of a hexadecimal number. */
  datatype Numeral = Numeral(sign: seq<byte>, mark: seq<byte>, digits: seq<byte>)

  predicate IsSign(s: seq<byte>) { s == [] || s == [43] || s == [45] }

  predicate GoodNumeral(n: Numeral)
  {
    && IsSign(n.sign) && (n.mark == [] || n.mark == [48, 120] || n.mark == [48, 88])
    && n.digits != [] && AreDigits(n.digits, BaseOf(n))
  }

  function BaseOf(n: Numeral): (base: nat)
    requires n.digits != []
    ensures base <= 16
  {
    if n.mark != [] then 16 else if n.digits[0] == 48 then 8 else 10
  }

  function NumeralText(n: Numeral): seq<byte> { n.sign + n.mark + n.digits }

  /** The number, or the nearest one of 64 bits. */
  function NumeralValue(n: Numeral): (i: int)
    requires GoodNumeral(n)
    ensures IsInt64(i)
  {
    var v := NumberOf(n.digits, BaseOf(n)) as int;
    var i := if n.sign == [45] then -v else v;
    if i < -0x8000_0000_0000_0000 then -0x8000_0000_0000_0000
    else if i > 0x7FFF_FFFF_FFFF_FFFF then 0x7FFF_FFFF_FFFF_FFFF
    else i
  }

  // ---- Reading digits ----------------------------------------------------------------------------

  lemma DigitSame(c: byte)
    ensures HexValue(c) == Digit(c) && (Digit(c).Some? ==> Digit(c).value < 16)
    ensures forall base: nat :: base <= 16 ==> (DigitOf(c) < base <==> IsDigit(c, base))
    ensures Digit(c).Some? ==> DigitOf(c) == Digit(c).value
  {
  }

  /** No digit follows. */
  predicate Stops(t: seq<byte>, base: nat) { t == [] || !IsDigit(t[0], base) }

  lemma {:induction false} AccumulateRead(pre: seq<byte>, ds: seq<byte>, base: nat, t: seq<byte>)
    requires base <= 16 && AreDigits(pre, base) && AreDigits(ds, base) && Stops(t, base)
    ensures AreDigits(pre + ds, base)
    ensures Accumulate(ds + t, base, NumberOf(pre, base)) == (NumberOf(pre + ds, base), t)
    decreases |ds|
  {
    if ds == [] {
      assert ds + t == t && pre + ds == pre;
      if t != [] { DigitSame(t[0]); }
    } else {
      var next := pre + [ds[0]];
      DigitSame(ds[0]);
      assert IsDigit(ds[0], base) && next[..|next| - 1] == pre;
      assert (ds + t)[1..] == ds[1..] + t && next + ds[1..] == pre + ds;
      AccumulateRead(next, ds[1..], base, t);
    }
  }

  /** The digits at the front. */
  lemma {:induction false} DigitsAhead(s: seq<byte>, base: nat) returns (ds: seq<byte>, t: seq<byte>)
    ensures s == ds + t && AreDigits(ds, base) && Stops(t, base)
    decreases |s|
  {
    if s == [] || !IsDigit(s[0], base) {
      ds, t := [], s;
    } else {
      ds, t := DigitsAhead(s[1..], base);
      ds := [s[0]] + ds;
    }
  }

  // ---- strtoll -----------------------------------------------------------------------------------

  predicate HexAhead(t: seq<byte>) { |t| > 1 && (t[0] == 120 || t[0] == 88) && IsDigit(t[1], 16) }

  /** Nothing follows by which the number would go on. */
  predicate NumeralStops(n: Numeral, t: seq<byte>)
    requires n.digits != []
  {
    Stops(t, BaseOf(n)) && (n.mark == [] && n.digits == [48] ==> !HexAhead(t))
  }

  lemma HexIs(t: seq<byte>)
    ensures IsHex([48] + t) <==> HexAhead(t)
  {
    var s: seq<byte> := [48] + t;
    assert Skip(s, 1) == t && Skip(s, 2) == Skip(t, 1);
    DigitSame(Peek(Skip(t, 1)));
  }

  lemma MarkedIs(mark: byte, ds: seq<byte>, t: seq<byte>)
    requires (mark == 120 || mark == 88) && ds != [] && IsDigit(ds[0], 16)
    ensures IsHex([48, mark] + ds + t) && Skip([48, mark] + ds + t, 2) == ds + t
  {
    var rest := [mark] + ds + t;
    assert rest[0] == mark && rest[1] == ds[0];
    HexIs(rest);
    assert [48, mark] + ds + t == [48] + rest;
  }

  lemma MarkRead(mark: byte, ds: seq<byte>, t: seq<byte>)
    requires (mark == 120 || mark == 88) && ds != [] && AreDigits(ds, 16) && Stops(t, 16)
    ensures IsHex([48, mark] + ds + t) && Accumulate(Skip([48, mark] + ds + t, 2), 16, 0) == (NumberOf(ds, 16), t)
  {
    assert IsDigit(ds[0], 16);
    MarkedIs(mark, ds, t);
    assert [] + ds == ds;
    AccumulateRead([], ds, 16, t);
  }

  lemma PlainRead(ds: seq<byte>, t: seq<byte>)
    requires ds != [] && ds[0] != 48 && AreDigits(ds, 10) && Stops(t, 10)
    ensures !IsHex(ds + t) && Accumulate(ds + t, 10, 0) == (NumberOf(ds, 10), t)
  {
    assert [] + ds == ds;
    AccumulateRead([], ds, 10, t);
  }

  lemma OctalPlain(ds: seq<byte>, t: seq<byte>)
    requires ds != [] && ds[0] == 48 && AreDigits(ds, 8) && (ds == [48] ==> !HexAhead(t))
    ensures !IsHex(ds + t)
  {
    var rest := ds[1..] + t;
    assert ds + t == [48] + rest;
    HexIs(rest);
    if |ds| > 1 {
      assert rest[0] == ds[1] && IsDigit(ds[1], 8);
    } else {
      assert rest == t && ds == [48];
    }
  }

  lemma OctalRead(ds: seq<byte>, t: seq<byte>)
    requires ds != [] && ds[0] == 48 && AreDigits(ds, 8) && Stops(t, 8) && (ds == [48] ==> !HexAhead(t))
    ensures !IsHex(ds + t) && Accumulate(ds + t, 8, 0) == (NumberOf(ds, 8), t)
  {
    OctalPlain(ds, t);
    AccumulateRead([], ds, 8, t);
    assert [] + ds == ds;
  }

  /** The number without its sign. */
  ghost predicate ReadUnsigned(s: seq<byte>, base: nat, n: nat, t: seq<byte>)
    requires base <= 16
  {
    && s != [] && DigitOf(s[0]) < 10 && s[0] != 45 && s[0] != 43
    && (IsHex(s) <==> base == 16) && (base != 16 ==> base == if s[0] == 48 then 8 else 10)
    && Accumulate(if base == 16 then Skip(s, 2) else s, base, 0) == (n, t)
  }

  lemma UnsignedRead(n: Numeral, t: seq<byte>)
    requires GoodNumeral(n) && NumeralStops(n, t)
    ensures ReadUnsigned(n.mark + n.digits + t, BaseOf(n), NumberOf(n.digits, BaseOf(n)), t)
  {
    var ds := n.digits;
    assert IsDigit(ds[0], BaseOf(n));
    DigitSame(ds[0]);
    if n.mark != [] {
      assert n.mark == [48, n.mark[1]];
      MarkRead(n.mark[1], ds, t);
    } else {
      assert n.mark + ds + t == ds + t;
      if ds[0] == 48 { OctalRead(ds, t); } else { PlainRead(ds, t); }
    }
  }

  /** `strtoll` reads a sign and a number. */
  lemma SignedRead(sign: seq<byte>, u: seq<byte>, base: nat, n: nat, t: seq<byte>)
    requires IsSign(sign) && base <= 16 && ReadUnsigned(u, base, n, t)
    ensures Strtoll(sign + u) == (Signed(sign == [45], n), t)
  {
    var s := sign + u;
    if sign == [] {
      assert s == u;
    } else {
      assert s[0] == sign[0] && s[1..] == u;
    }
  }

  lemma ValueSigned(n: Numeral)
    requires GoodNumeral(n)
    ensures Signed(n.sign == [45], NumberOf(n.digits, BaseOf(n))) == NumeralValue(n)
  {
  }

  lemma SignedJoin(n: Numeral, t: seq<byte>)
    ensures NumeralText(n) + t == n.sign + (n.mark + n.digits + t)
  {
  }

  lemma NumeralRead(n: Numeral, t: seq<byte>)
    requires GoodNumeral(n) && NumeralStops(n, t)
    ensures Strtoll(NumeralText(n) + t) == (NumeralValue(n), t)
  {
    UnsignedRead(n, t);
    SignedJoin(n, t);
    SignedRead(n.sign, n.mark + n.digits + t, BaseOf(n), NumberOf(n.digits, BaseOf(n)), t);
    ValueSigned(n);
  }

  lemma MarkedText(sign: seq<byte>, u: seq<byte>) returns (n: Numeral, t: seq<byte>)
    requires IsSign(sign) && u != [] && u[0] == 48 && HexAhead(u[1..])
    ensures GoodNumeral(n) && NumeralStops(n, t) && n.sign == sign && u == n.mark + n.digits + t
  {
    var ds, rest := DigitsAhead(u[2..], 16);
    assert u[1] == u[1..][0] && u[2] == u[1..][1];
    assert u[..2] == [48, u[1]] && u == u[..2] + u[2..];
    n, t := Numeral(sign, u[..2], ds), rest;
  }

  lemma UnsignedText(sign: seq<byte>, u: seq<byte>) returns (n: Numeral, t: seq<byte>)
    requires IsSign(sign) && u != [] && IsDigit(u[0], 10)
    ensures GoodNumeral(n) && NumeralStops(n, t) && n.sign == sign && u == n.mark + n.digits + t
  {
    if u[0] == 48 && HexAhead(u[1..]) {
      n, t := MarkedText(sign, u);
    } else {
      var ds, rest := DigitsAhead(u, if u[0] == 48 then 8 else 10);
      n, t := Numeral(sign, [], ds), rest;
      if ds == [48] { assert u[1..] == rest; }
    }
  }

  lemma SignAhead(s: seq<byte>) returns (sign: seq<byte>, u: seq<byte>)
    requires |Strtoll(s).1| < |s|
    ensures IsSign(sign) && s == sign + u && u != [] && IsDigit(u[0], 10)
  {
    sign := if Peek(s) == 45 || Peek(s) == 43 then [s[0]] else [];
    u := s[|sign|..];
    DigitSame(Peek(u));
  }

  /** What `strtoll` takes is a numeral. */
  lemma StrtollText(s: seq<byte>) returns (n: Numeral, t: seq<byte>)
    requires |Strtoll(s).1| < |s|
    ensures GoodNumeral(n) && NumeralStops(n, t) && s == NumeralText(n) + t
    ensures Strtoll(s) == (NumeralValue(n), t)
  {
    var sign, u := SignAhead(s);
    n, t := UnsignedText(sign, u);
    SignedJoin(n, t);
    NumeralRead(n, t);
  }

  // ---- strtod ------------------------------------------------------------------------------------

  /** `mark`, `sign` and `digits` are all empty when there is no exponent. */
  datatype Exponent = Exponent(mark: seq<byte>, sign: seq<byte>, digits: seq<byte>)

  /** A number with a point or an exponent; `point` is empty when there is none. */
  datatype Float = Float(whole: Numeral, point: seq<byte>, decimals: seq<byte>, exponent: Exponent)

  function ExponentText(e: Exponent): seq<byte> { e.mark + e.sign + e.digits }

  function TailText(f: Float): seq<byte> { f.point + f.decimals + ExponentText(f.exponent) }

  function FloatWritten(f: Float): seq<byte> { NumeralText(f.whole) + TailText(f) }

  /** `mark` is the letter of exponents: e, or p behind hexadecimal digits. */
  predicate GoodExponent(e: Exponent, mark: byte)
  {
    if e.mark == [] then e.sign == [] && e.digits == []
    else
      && |e.mark| == 1 && (e.mark[0] == mark || mark - e.mark[0] == 32) && IsSign(e.sign)
      && e.digits != [] && AreDigits(e.digits, 10)
  }

  predicate GoodTail(f: Float, base: nat, mark: byte)
  {
    && (f.point == [46] || (f.point == [] && f.decimals == []))
    && AreDigits(f.decimals, base) && GoodExponent(f.exponent, mark)
  }

  /** A hexadecimal number has an exponent only behind a point: without it, `strtoll` has taken the number. */
  predicate GoodFloat(f: Float)
  {
    && GoodNumeral(f.whole)
    && if f.whole.mark != [] then GoodTail(f, 16, 112) && f.point != []
       else GoodTail(f, 10, 101) && (f.point != [] || f.exponent.mark != [])
  }

  // ---- Reading the tail --------------------------------------------------------------------------

  lemma {:induction false} ScanDigits(ds: seq<byte>, u: seq<byte>, base: nat, mark: nat, part: nat)
    requires base <= 16 && AreDigits(ds, if part == 2 then 10 else base)
    ensures Scan(ds + u, base, mark, part) == |ds| + Scan(u, base, mark, part)
    decreases |ds|
  {
    if ds == [] {
      assert ds + u == u;
    } else {
      assert IsDigit(ds[0], if part == 2 then 10 else base);
      DigitSame(ds[0]);
      assert (ds + u)[1..] == ds[1..] + u;
      ScanDigits(ds[1..], u, base, mark, part);
    }
  }

  function MarkOf(base: nat): byte { if base == 16 then 112 else 101 }

  lemma EndsScan(u: seq<byte>, base: nat, mark: byte, part: nat)
    requires Ends(u) && base <= 16 && mark in {101, 112}
    ensures Scan(u, base, mark, part) == 0
  {
    if u != [] { DigitSame(u[0]); }
  }

  lemma MarkSizeRead(e: Exponent, u: seq<byte>, mark: byte)
    requires GoodExponent(e, mark) && e.mark != []
    ensures MarkSize(ExponentText(e) + u, mark) == 1 + |e.sign|
  {
    var s := ExponentText(e) + u;
    var ds := e.digits + u;
    assert IsDigit(e.digits[0], 10) && ds[0] == e.digits[0];
    DigitSame(ds[0]);
    assert s[0] == e.mark[0] && Skip(s, 1) == e.sign + ds;
    if e.sign == [] {
      assert e.sign + ds == ds;
    } else {
      assert Skip(s, 2) == ds && (e.sign + ds)[0] == e.sign[0];
    }
  }

  lemma MarkStep(s: seq<byte>, k: nat, base: nat, part: nat)
    requires base == 10 || base == 16
    requires s != [] && part < 2 && k == MarkSize(s, MarkOf(base)) > 0
    ensures Scan(s, base, MarkOf(base), part) == k + Scan(s[k..], base, MarkOf(base), 2)
  {
    DigitSame(s[0]);
  }

  lemma ExponentRead(e: Exponent, u: seq<byte>, base: nat, part: nat)
    requires GoodExponent(e, MarkOf(base)) && Ends(u) && (base == 10 || base == 16) && part < 2
    ensures Scan(ExponentText(e) + u, base, MarkOf(base), part) == |ExponentText(e)|
  {
    var s := ExponentText(e) + u;
    if e.mark == [] {
      assert s == u;
      EndsScan(u, base, MarkOf(base), part);
    } else {
      MarkSizeRead(e, u, MarkOf(base));
      var k := 1 + |e.sign|;
      MarkStep(s, k, base, part);
      assert s == (e.mark + e.sign) + (e.digits + u) && |e.mark + e.sign| == k;
      assert s[k..] == e.digits + u;
      ScanDigits(e.digits, u, base, MarkOf(base), 2);
      EndsScan(u, base, MarkOf(base), 2);
    }
  }

  lemma PointStep(s: seq<byte>, base: nat)
    requires (base == 10 || base == 16) && s != [] && s[0] == 46
    ensures Scan(s, base, MarkOf(base), 0) == 1 + Scan(s[1..], base, MarkOf(base), 1)
  {
    DigitSame(46);
  }

  lemma TailRead(f: Float, u: seq<byte>, base: nat)
    requires GoodTail(f, base, MarkOf(base)) && Ends(u) && (base == 10 || base == 16)
    ensures Scan(TailText(f) + u, base, MarkOf(base), 0) == |TailText(f)|
  {
    var s, eu := TailText(f) + u, ExponentText(f.exponent) + u;
    if f.point == [] {
      assert s == eu;
      ExponentRead(f.exponent, u, base, 0);
    } else {
      assert s == [46] + (f.decimals + eu);
      PointStep(s, base);
      assert s[1..] == f.decimals + eu;
      ScanDigits(f.decimals, eu, base, MarkOf(base), 1);
      ExponentRead(f.exponent, u, base, 1);
    }
  }

  // ---- strtod reads a float ----------------------------------------------------------------------

  /** The base of what follows a point. */
  function FractionBase(n: Numeral): nat { if n.mark != [] then 16 else 10 }

  lemma MoreDigits(ds: seq<byte>, base: nat, more: nat)
    requires AreDigits(ds, base) && base <= more
    ensures AreDigits(ds, more)
  {
  }

  lemma MarkedSize(u: seq<byte>, ds: seq<byte>, t: seq<byte>)
    requires IsHex(u) && Skip(u, 2) == ds + t && AreDigits(ds, 16)
    ensures FloatSize(u) == 2 + |ds| + Scan(t, 16, MarkOf(16), 0)
  {
    ScanDigits(ds, t, 16, MarkOf(16), 0);
  }

  lemma PlainSize(ds: seq<byte>, t: seq<byte>, base: nat)
    requires !IsHex(ds + t) && AreDigits(ds, base) && base <= 10
    ensures FloatSize(ds + t) == |ds| + Scan(t, 10, MarkOf(10), 0)
  {
    MoreDigits(ds, base, 10);
    ScanDigits(ds, t, 10, MarkOf(10), 0);
  }

  lemma UnsignedSize(n: Numeral, t: seq<byte>)
    requires GoodNumeral(n) && NumeralStops(n, t)
    ensures FloatSize(n.mark + n.digits + t) ==
      |n.mark| + |n.digits| + Scan(t, FractionBase(n), MarkOf(FractionBase(n)), 0)
  {
    UnsignedRead(n, t);
    if n.mark != [] {
      Skipped(n.mark, n.digits + t);
      Join3(n.mark, n.digits, t);
      MarkedSize(n.mark + n.digits + t, n.digits, t);
    } else {
      assert n.mark + n.digits + t == n.digits + t;
      PlainSize(n.digits, t, BaseOf(n));
    }
  }

  lemma Skipped(a: seq<byte>, b: seq<byte>)
    ensures Skip(a + b, |a|) == b
  {
  }

  lemma SignBefore(sign: seq<byte>, u: seq<byte>)
    requires IsSign(sign) && u != [] && u[0] != 43 && u[0] != 45
    ensures SignSize(sign + u) == |sign| && (sign + u)[|sign|..] == u
  {
    if sign == [] { assert sign + u == u; } else { assert (sign + u)[0] == sign[0]; }
  }

  /** `strtod` takes the numeral that `strtoll` has found, and goes on behind it. */
  lemma StrtodBehind(n: Numeral, t: seq<byte>)
    requires GoodNumeral(n) && NumeralStops(n, t)
    ensures var k := Scan(t, FractionBase(n), MarkOf(FractionBase(n)), 0);
      Strtod(NumeralText(n) + t) == (NumeralText(n) + t[..k], t[k..])
  {
    var u, k := n.mark + n.digits + t, Scan(t, FractionBase(n), MarkOf(FractionBase(n)), 0);
    UnsignedRead(n, t);
    UnsignedSize(n, t);
    SignBefore(n.sign, u);
    SignedJoin(n, t);
    FrontOf(NumeralText(n), t, k);
  }

  lemma FrontOf(a: seq<byte>, t: seq<byte>, k: nat)
    requires k <= |t|
    ensures (a + t)[..|a| + k] == a + t[..k] && (a + t)[|a| + k..] == t[k..]
  {
  }

  lemma TailStops(f: Float, u: seq<byte>)
    requires GoodFloat(f)
    ensures var t := TailText(f) + u; t != [] && Fractional(t) && NumeralStops(f.whole, t)
  {
    var t := TailText(f) + u;
    if f.point != [] { assert t[0] == 46; } else { assert t[0] == f.exponent.mark[0]; }
  }

  lemma FloatTaken(f: Float, u: seq<byte>)
    requires GoodFloat(f) && Ends(u)
    ensures NumberToken(FloatWritten(f) + u) == (TDouble(FloatWritten(f)), u)
  {
    var t := TailText(f) + u;
    assert FloatWritten(f) + u == NumeralText(f.whole) + t;
    TailStops(f, u);
    NumeralRead(f.whole, t);
    StrtodBehind(f.whole, t);
    TailRead(f, u, FractionBase(f.whole));
    assert t[..|TailText(f)|] == TailText(f) && t[|TailText(f)|..] == u;
  }

  // ---- What strtod takes is a float --------------------------------------------------------------

  /** Where `strtod` sees an exponent, there is its mark, perhaps a sign, and a digit. */
  lemma MarkThere(s: seq<byte>, mark: byte)
    requires s != [] && mark in {101, 112} && MarkSize(s, mark) > 0
    ensures var k := MarkSize(s, mark);
      && (s[0] == mark || mark - s[0] == 32) && IsSign(s[1..k]) && k < |s| && IsDigit(s[k], 10)
  {
    var k := MarkSize(s, mark);
    DigitSame(Peek(Skip(s, k)));
    assert Skip(s, k) == s[k..] && Skip(s, 1) == s[1..];
    if k == 2 { assert s[1..2] == [s[1]]; }
  }

  lemma ThreeParts(s: seq<byte>, k: nat, ds: seq<byte>, t: seq<byte>)
    requires 1 <= k <= |s| && s[k..] == ds + t
    ensures s[..k + |ds|] == s[..1] + s[1..k] + ds
  {
    assert s[..k] == s[..1] + s[1..k];
    assert s == s[..k] + (ds + t);
  }

  lemma ExponentThere(s: seq<byte>, base: nat, part: nat) returns (e: Exponent)
    requires (base == 10 || base == 16) && part < 2 && s != [] && MarkSize(s, MarkOf(base)) > 0
    ensures GoodExponent(e, MarkOf(base)) && s[..Scan(s, base, MarkOf(base), part)] == ExponentText(e)
  {
    var k := MarkSize(s, MarkOf(base));
    MarkThere(s, MarkOf(base));
    MarkStep(s, k, base, part);
    var ds, t := DigitsAhead(s[k..], 10);
    ScanDigits(ds, t, base, MarkOf(base), 2);
    StopsScan(t, base);
    e := Exponent(s[..1], s[1..k], ds);
    ThreeParts(s, k, ds, t);
  }

  lemma ExponentOf(s: seq<byte>, base: nat, part: nat) returns (e: Exponent)
    requires (base == 10 || base == 16) && part < 2 && Stops(s, base) && !(part == 0 && Peek(s) == 46)
    ensures GoodExponent(e, MarkOf(base)) && s[..Scan(s, base, MarkOf(base), part)] == ExponentText(e)
  {
    if s != [] && MarkSize(s, MarkOf(base)) > 0 {
      e := ExponentThere(s, base, part);
    } else {
      DigitSame(Peek(s));
      e := Exponent([], [], []);
    }
  }

  lemma StopsScan(t: seq<byte>, base: nat)
    requires Stops(t, 10)
    ensures Scan(t, base, MarkOf(base), 2) == 0
  {
    DigitSame(Peek(t));
  }

  lemma DecimalsOf(s: seq<byte>, base: nat) returns (ds: seq<byte>, e: Exponent)
    requires base == 10 || base == 16
    ensures AreDigits(ds, base) && GoodExponent(e, MarkOf(base))
    ensures s[..Scan(s, base, MarkOf(base), 1)] == ds + ExponentText(e)
  {
    var t;
    ds, t := DigitsAhead(s, base);
    ScanDigits(ds, t, base, MarkOf(base), 1);
    e := ExponentOf(t, base, 1);
    FrontOf(ds, t, Scan(t, base, MarkOf(base), 1));
  }

  lemma PointTail(whole: Numeral, s: seq<byte>, base: nat) returns (f: Float)
    requires (base == 10 || base == 16) && Peek(s) == 46
    ensures f.whole == whole && GoodTail(f, base, MarkOf(base)) && f.point != []
    ensures s[..Scan(s, base, MarkOf(base), 0)] == TailText(f)
  {
    var ds, e := DecimalsOf(s[1..], base);
    f := Float(whole, [46], ds, e);
    PointStep(s, base);
    FrontOf([46], s[1..], Scan(s[1..], base, MarkOf(base), 1));
    assert s == [46] + s[1..];
    Join3([46], ds, ExponentText(e));
  }

  lemma PlainTail(whole: Numeral, s: seq<byte>, base: nat) returns (f: Float)
    requires (base == 10 || base == 16) && Stops(s, base) && Peek(s) != 46
    ensures f.whole == whole && GoodTail(f, base, MarkOf(base)) && f.point == []
    ensures s[..Scan(s, base, MarkOf(base), 0)] == TailText(f)
  {
    var e := ExponentOf(s, base, 0);
    f := Float(whole, [], [], e);
    assert TailText(f) == ExponentText(e);
  }

  lemma TailOf(whole: Numeral, s: seq<byte>) returns (f: Float)
    requires GoodNumeral(whole) && Fractional(s) && NumeralStops(whole, s)
    ensures var base := FractionBase(whole);
      && f.whole == whole && GoodTail(f, base, MarkOf(base)) && (f.point != [] <==> s[0] == 46)
      && s[..Scan(s, base, MarkOf(base), 0)] == TailText(f)
  {
    if s[0] == 46 {
      f := PointTail(whole, s, FractionBase(whole));
    } else {
      f := PlainTail(whole, s, FractionBase(whole));
    }
  }

  lemma DoubleOf(s: seq<byte>, i: int, u: seq<byte>)
    requires Strtoll(s) == (i, u) && NumberToken(s).0.TDouble?
    ensures Fractional(u) && NumberToken(s) == (TDouble(Strtod(s).0), Strtod(s).1)
  {
  }

  /** A point makes it a float, and so does an exponent. */
  lemma FloatGood(f: Float, u: seq<byte>)
    requires GoodNumeral(f.whole) && Fractional(u) && NumeralStops(f.whole, u)
    requires GoodTail(f, FractionBase(f.whole), MarkOf(FractionBase(f.whole))) && (f.point != [] <==> u[0] == 46)
    ensures GoodFloat(f) || (TailText(f) == [] && (u[0] == 101 || u[0] == 69))
  {
  }

  /** What is taken as a number with a fraction is one, but where a letter follows that begins no exponent. */
  lemma FloatOf(s: seq<byte>) returns (f: Float, t: seq<byte>)
    requires NumberToken(s).0.TDouble?
    ensures s == FloatWritten(f) + t && NumberToken(s) == (TDouble(FloatWritten(f)), t)
    ensures GoodFloat(f) || Peek(t) == 101 || Peek(t) == 69
  {
    var n, u := StrtollText(s);
    DoubleOf(s, NumeralValue(n), u);
    StrtodBehind(n, u);
    f := TailOf(n, u);
    FloatGood(f, u);
    t := u[|TailText(f)|..];
    FloatJoined(f, u, t);
  }

  lemma FloatJoined(f: Float, u: seq<byte>, t: seq<byte>)
    requires TailText(f) <= u && t == u[|TailText(f)|..]
    ensures NumeralText(f.whole) + u == FloatWritten(f) + t && NumeralText(f.whole) + TailText(f) == FloatWritten(f)
  {
    assert u == TailText(f) + t;
  }
}
