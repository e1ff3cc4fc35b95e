/** All the byte strings that `luaseri_unpack` takes, also those that `luaseri_pack` never writes, and what
  they mean. */
module SerializeForms {
  import opened Basics
  import opened Serialize

  // ---- Numbers -----------------------------------------------------------------------------------

  /** The bytes of a number in little-endian memory, in two's complement when it is negative. */
  function Little(n: int, k: nat): (b: seq<byte>)
    ensures |b| == k && forall i :: 0 <= i < k ==> b[i] == n / Pow256(i) % 256
  {
    seq(k, i requires 0 <= i < k => n / Pow256(i) % 256)
  }

  lemma DivDiv(n: int, k: nat)
    ensures n / 256 / Pow256(k) == n / Pow256(k + 1)
  {
    var p, q := Pow256(k), n / 256;
    var r := q - q / p * p;
    assert n == 256 * (q / p * p + r) + n % 256;
    var low := 256 * r + n % 256;
    assert 0 <= low < 256 * p by { assert r <= p - 1; }
    assert n == (q / p) * (256 * p) + low by { Distribute(q / p, p, r); }
    Quotient(n, 256 * p, q / p, low);
  }

  lemma Distribute(a: int, p: int, r: int)
    ensures 256 * (a * p + r) == a * (256 * p) + 256 * r
  {
  }

  lemma Times(d: int, m: int)
    requires m > 0
    ensures (d >= 1 ==> d * m >= m) && (d <= -1 ==> d * m <= -m)
  {
    if d >= 1 { assert (d - 1) * m >= 0; }
    if d <= -1 { assert (-d - 1) * m >= 0; }
  }

  lemma Quotient(n: int, m: nat, q: int, r: int)
    requires m > 0 && n == q * m + r && 0 <= r < m
    ensures n / m == q && n % m == r
  {
    Times(q - n / m, m);
    assert (q - n / m) * m == q * m - n / m * m == n % m - r;
  }

  lemma LittleTail(n: int, k: nat)
    requires k > 0
    ensures Little(n, k) == [n % 256] + Little(n / 256, k - 1)
  {
    var b, t := Little(n, k), [(n % 256) as byte] + Little(n / 256, k - 1);
    forall i | 0 <= i < k ensures b[i] == t[i] {
      if i > 0 { DivDiv(n, i - 1); } else { assert Pow256(0) == 1; }
    }
  }

  lemma RestOfHead(n: int, p: nat)
    requires p > 0
    ensures n % (256 * p) == n % 256 + 256 * (n / 256 % p)
  {
    var q, r := n / 256 / p, n / 256 % p;
    assert n / 256 == q * p + r && n == 256 * (n / 256) + n % 256;
    Distribute(q, p, r);
    Quotient(n, 256 * p, q, 256 * r + n % 256);
  }

  /** Reading the bytes gives the number in the range of that many bytes. */
  lemma {:induction false} NumberLittle(n: int, k: nat)
    ensures Number(Little(n, k)) == n % Pow256(k)
    decreases k
  {
    if k > 0 {
      LittleTail(n, k);
      NumberLittle(n / 256, k - 1);
      RestOfHead(n, Pow256(k - 1));
    }
  }

  lemma {:induction false} NumberBelow(b: seq<byte>)
    ensures Number(b) < Pow256(|b|)
    decreases |b|
  {
    if b != [] {
      NumberBelow(b[1..]);
      assert Number(b) == b[0] as nat + 256 * Number(b[1..]) && Pow256(|b|) == 256 * Pow256(|b[1..]|);
    }
  }

  lemma NumberParts(b: seq<byte>)
    requires b != []
    ensures Number(b) / 256 == Number(b[1..]) && Number(b) % 256 == b[0] && b == [b[0]] + b[1..]
  {
    Quotient(Number(b), 256, Number(b[1..]), b[0] as int);
  }

  /** All bytes are those of the number they hold, and of the negative one. */
  lemma {:induction false} LittleNumber(b: seq<byte>)
    ensures b == Little(Number(b), |b|)
    decreases |b|
  {
    if b != [] {
      LittleNumber(b[1..]);
      NumberParts(b);
      LittleTail(Number(b), |b|);
    }
  }

  lemma {:induction false} NumberOnce(a: seq<byte>, b: seq<byte>)
    requires |a| == |b| && Number(a) == Number(b)
    ensures a == b
    decreases |a|
  {
    if a != [] {
      NumberParts(a);
      NumberParts(b);
      NumberOnce(a[1..], b[1..]);
    }
  }

  lemma ModMinus(n: int, p: nat)
    requires p > 0
    ensures (n - p) % p == n % p
  {
    Quotient(n - p, p, n / p - 1, n % p);
  }

  lemma LittleWraps(n: int, k: nat)
    ensures Little(n - Pow256(k), k) == Little(n, k)
  {
    NumberLittle(n, k);
    NumberLittle(n - Pow256(k), k);
    ModMinus(n, Pow256(k));
    NumberOnce(Little(n - Pow256(k), k), Little(n, k));
  }

  // ---- Forms -------------------------------------------------------------------------------------

  /** One way to write a value. The upper five bits of its first byte mean nothing for nil and pointers, and
    any but 0 mean true. An integer has `width` bytes; a string has its length in the first byte, or in `width`
    bytes behind it; and a table ends with a nil. */
  datatype Form =
    | NilForm(cookie: nat)
    | BooleanForm(cookie: nat)
    | IntegerForm(width: nat, n: int)
    | RealForm(bytes: seq<byte>)
    | PointerForm(cookie: nat, bytes: seq<byte>)
    | ShortForm(s: seq<byte>)
    | LongForm(width: nat, s: seq<byte>)
    | TableForm(count: Count, items: seq<Form>, pairs: seq<Entry>, cookie: nat)

  /** The length of a table's array part is in its first byte, or an integer behind it. */
  datatype Count = Inline | Counted(width: nat, n: int)

  datatype Entry = Entry(key: Form, value: Form)

  /** Integers of one and two bytes have no sign. */
  predicate GoodInteger(width: nat, n: int)
  {
    if width == 0 then n == 0
    else if width == 1 then 0 <= n < 0x100
    else if width == 2 then 0 <= n < 0x1_0000
    else if width == 4 then -0x8000_0000 <= n < 0x8000_0000
    else width == 8 && -0x8000_0000_0000_0000 <= n < 0x8000_0000_0000_0000
  }

  /** An integer of eight bytes is cut to four, and nothing is read when it is negative then. */
  function CutLength(n: int): nat
  {
    if n % 0x1_0000_0000 < 0x8000_0000 then n % 0x1_0000_0000 else 0
  }

  predicate GoodCount(c: Count, k: nat)
  {
    match c
    case Inline => k < 31
    case Counted(width, n) =>
      && GoodInteger(width, n)
      && k == CutLength(n)
  }

  ghost predicate GoodForm(f: Form)
    decreases f
  {
    match f
    case NilForm(c) => c < 32
    case BooleanForm(c) => c < 32
    case IntegerForm(width, n) => GoodInteger(width, n)
    case RealForm(b) => |b| == 8
    case PointerForm(c, b) => c < 32 && |b| == 8
    case ShortForm(b) => |b| < 32
    case LongForm(width, b) => (width == 2 && |b| < 0x1_0000) || (width == 4 && |b| < 0x8000_0000)
    case TableForm(count, items, pairs, c) =>
      && GoodCount(count, |items|) && c < 32
      && (forall i :: 0 <= i < |items| ==> GoodForm(items[i]))
      && (forall i :: 0 <= i < |pairs| ==> GoodEntry(pairs[i]))
  }

  ghost predicate GoodEntry(e: Entry)
    decreases e
  {
    GoodForm(e.key) && !e.key.NilForm? && GoodForm(e.value)
  }

  function First(t: nat, c: nat): (r: seq<byte>)
    ensures |r| == 1
  {
    [(t + 8 * c) % 256]
  }

  function IntegerText(width: nat, n: int): seq<byte>
  {
    First(2, if width == 8 then 6 else width) + Little(n, width)
  }

  function CountText(c: Count, k: nat): seq<byte>
  {
    match c
    case Inline => First(6, k)
    case Counted(width, n) => First(6, 31) + IntegerText(width, n)
  }

  function FormText(f: Form): seq<byte>
    decreases f
  {
    match f
    case NilForm(c) => First(0, c)
    case BooleanForm(c) => First(1, c)
    case IntegerForm(width, n) => IntegerText(width, n)
    case RealForm(b) => First(2, 8) + b
    case PointerForm(c, b) => First(3, c) + b
    case ShortForm(b) => First(4, |b|) + b
    case LongForm(width, b) => First(5, width) + Little(|b|, width) + b
    case TableForm(count, items, pairs, c) =>
      CountText(count, |items|) + AllText(items) + EntriesText(pairs) + First(0, c)
  }

  function AllText(items: seq<Form>): seq<byte>
    decreases items
  {
    if items == [] then [] else FormText(items[0]) + AllText(items[1..])
  }

  function EntriesText(pairs: seq<Entry>): seq<byte>
    decreases pairs
  {
    if pairs == [] then [] else EntryText(pairs[0]) + EntriesText(pairs[1..])
  }

  function EntryText(e: Entry): seq<byte>
    decreases e
  {
    FormText(e.key) + FormText(e.value)
  }

  function FormValue(f: Form): Value
    decreases f
  {
    match f
    case NilForm(_) => Nil
    case BooleanForm(c) => Boolean(c != 0)
    case IntegerForm(_, n) => Integer(n)
    case RealForm(b) => Real(b)
    case PointerForm(_, b) => Pointer(b)
    case ShortForm(b) => String(b)
    case LongForm(_, b) => String(b)
    case TableForm(_, items, pairs, _) => Table(AllValues(items), EntryValues(pairs))
  }

  function AllValues(items: seq<Form>): seq<Value>
    decreases items
  {
    if items == [] then [] else [FormValue(items[0])] + AllValues(items[1..])
  }

  function EntryValues(pairs: seq<Entry>): seq<Pair>
    decreases pairs
  {
    if pairs == [] then [] else [EntryValue(pairs[0])] + EntryValues(pairs[1..])
  }

  function EntryValue(e: Entry): Pair
    decreases e
  {
    Pair(FormValue(e.key), FormValue(e.value))
  }

  // ---- Reading them ------------------------------------------------------------------------------

  lemma FirstIs(t: nat, c: nat, rest: seq<byte>)
    requires t < 8 && c < 32
    ensures Unpack(First(t, c) + rest) == PushValue(rest, t, c)
    ensures var s := First(t, c) + rest; s[1..] == rest && (s[0] as nat) % 8 == t && (s[0] as nat) / 8 == c
  {
    assert First(t, c) == [Combine(t, c)];
    CombineParts(t, c);
    UnpackHead(t, c, rest);
    assert ([Combine(t, c)] + rest)[1..] == rest;
  }

  lemma NumberRead(n: int, k: nat, m: nat, t: seq<byte>)
    ensures UnpackNumber(Little(n, k) + t, k, m) == Got(Signed(n % Pow256(k), m), t)
  {
    TakeConcat(Little(n, k), t);
    NumberLittle(n, k);
  }

  /** Two's complement, with `m` values. */
  lemma SignedBack(n: int, m: nat)
    requires m > 0 && m % 2 == 0
    ensures -(m / 2) <= n < m / 2 ==> Signed(n % m, m) == n
  {
    if 0 <= n < m / 2 { Quotient(n, m, 0, n); }
    if -(m / 2) <= n < 0 { Quotient(n, m, -1, n + m); }
  }

  lemma PlainNumberRead(n: int, k: nat, p: nat, t: seq<byte>)
    requires p == Pow256(k) && 0 <= n < p
    ensures UnpackNumber(Little(n, k) + t, k, 2 * p) == Got(n, t)
  {
    NumberRead(n, k, 2 * p, t);
    Quotient(n, p, 0, n);
  }

  lemma SignedNumberRead(n: int, k: nat, p: nat, t: seq<byte>)
    requires p == Pow256(k) && p % 2 == 0 && -(p / 2) <= n < p / 2
    ensures UnpackNumber(Little(n, k) + t, k, p) == Got(n, t)
  {
    NumberRead(n, k, p, t);
    SignedBack(n, p);
  }

  lemma WidthRead(width: nat, n: int, t: seq<byte>)
    requires GoodInteger(width, n)
    ensures UnpackInteger(Little(n, width) + t, if width == 8 then 6 else width) == Got(n, t)
  {
    Powers();
    if width == 0 {
      assert Little(n, 0) + t == t;
    } else if width == 1 {
      PlainNumberRead(n, 1, 0x100, t);
    } else if width == 2 {
      PlainNumberRead(n, 2, 0x1_0000, t);
    } else if width == 4 {
      SignedNumberRead(n, 4, 0x1_0000_0000, t);
    } else {
      SignedNumberRead(n, 8, 0x1_0000_0000_0000_0000, t);
    }
  }

  lemma IntegerFormRead(width: nat, n: int, t: seq<byte>)
    requires GoodInteger(width, n)
    ensures Unpack(IntegerText(width, n) + t) == Got(Integer(n), t)
  {
    WidthRead(width, n, t);
    var c := if width == 8 then 6 else width;
    Join3(First(2, c), Little(n, width), t);
    FirstIs(2, c, Little(n, width) + t);
  }

  lemma CutRead(n: int)
    ensures CutLength(n) == if Truncate(n) > 0 then Truncate(n) else 0
  {
  }

  lemma CountRead(c: Count, k: nat, t: seq<byte>)
    requires GoodCount(c, k)
    ensures var s := CountText(c, k) + t;
      && s != [] && (s[0] as nat) % 8 == TYPE_TABLE && UnpackLength(s[1..], (s[0] as nat) / 8).Got?
      && var r := UnpackLength(s[1..], (s[0] as nat) / 8); r.rest == t && k == if r.value > 0 then r.value else 0
  {
    match c
    case Inline => FirstIs(6, k, t);
    case Counted(width, n) =>
      CutRead(n);
      WidthRead(width, n, t);
      var w := if width == 8 then 6 else width;
      Join3(First(2, w), Little(n, width), t);
      FirstIs(2, w, Little(n, width) + t);
      FirstIs(6, 31, IntegerText(width, n) + t);
      Join3(First(6, 31), IntegerText(width, n), t);
  }

  lemma StringRead(b: seq<byte>, t: seq<byte>)
    ensures |b| < 32 ==> Unpack(First(4, |b|) + b + t) == Got(String(b), t)
    ensures |b| < 0x1_0000 ==> Unpack(First(5, 2) + Little(|b|, 2) + b + t) == Got(String(b), t)
    ensures |b| < 0x8000_0000 ==> Unpack(First(5, 4) + Little(|b|, 4) + b + t) == Got(String(b), t)
  {
    TakeConcat(b, t);
    if |b| < 32 {
      FirstIs(4, |b|, b + t);
      Join3(First(4, |b|), b, t);
    }
    if |b| < 0x1_0000 { LongRead(b, 2, t); }
    if |b| < 0x8000_0000 { LongRead(b, 4, t); }
  }

  lemma LongRead(b: seq<byte>, k: nat, t: seq<byte>)
    requires (k == 2 && |b| < 0x1_0000) || (k == 4 && |b| < 0x8000_0000)
    ensures Unpack(First(5, k) + Little(|b|, k) + b + t) == Got(String(b), t)
  {
    Powers();
    LengthRead(b, k, Pow256(k), t);
    FirstIs(5, k, Little(|b|, k) + (b + t));
    Join4(First(5, k), Little(|b|, k), b, t);
  }

  lemma LengthRead(b: seq<byte>, k: nat, p: nat, t: seq<byte>)
    requires p == Pow256(k) && |b| < p && |b| < 0x8000_0000
    ensures UnpackLong(Little(|b|, k) + (b + t), k) == Got(String(b), t)
  {
    TakeConcat(b, t);
    TakeConcat(Little(|b|, k), b + t);
    NumberLittle(|b|, k);
    Quotient(|b|, p, 0, |b|);
  }

  lemma EightRead(t: nat, c: nat, b: seq<byte>, rest: seq<byte>)
    requires |b| == 8 && c < 32 && ((t == 2 && c == 8) || t == 3)
    ensures Unpack(First(t, c) + b + rest) == Got(if t == 2 then Real(b) else Pointer(b), rest)
  {
    TakeConcat(b, rest);
    Join3(First(t, c), b, rest);
    FirstIs(t, c, b + rest);
  }

  /** Every form is read as its value, up to what follows. */
  lemma {:induction false} FormRead(f: Form, t: seq<byte>)
    requires GoodForm(f)
    ensures Unpack(FormText(f) + t) == Got(FormValue(f), t)
    decreases f, 2
  {
    match f
    case NilForm(c) => FirstIs(0, c, t);
    case BooleanForm(c) => FirstIs(1, c, t);
    case IntegerForm(width, n) => IntegerFormRead(width, n, t);
    case RealForm(b) => EightRead(2, 8, b, t);
    case PointerForm(c, b) => EightRead(3, c, b, t);
    case ShortForm(b) => StringRead(b, t);
    case LongForm(_, b) => StringRead(b, t);
    case TableForm(_, _, _, _) => TableFormRead(f, t);
  }

  lemma {:induction false} TableFormRead(f: Form, t: seq<byte>)
    requires f.TableForm? && GoodForm(f)
    ensures Unpack(FormText(f) + t) == Got(FormValue(f), t)
    decreases f, 1
  {
    var k, items := CountText(f.count, |f.items|), AllText(f.items);
    var entries, end := EntriesText(f.pairs), First(0, f.cookie);
    CountRead(f.count, |f.items|, items + (entries + (end + t)));
    AllRead(f.items, |f.items|, entries + (end + t));
    EntriesRead(f.pairs, f.cookie, t);
    Join5(k, items, entries, end, t);
    TableOf(k + (items + (entries + (end + t))), |f.items|, AllValues(f.items), entries + (end + t),
            EntryValues(f.pairs), t);
  }

  /** A length that is not positive counts as none. */
  lemma TableOf(s: seq<byte>, n: nat, items: seq<Value>, s2: seq<byte>, pairs: seq<Pair>, t: seq<byte>)
    requires s != [] && (s[0] as nat) % 8 == TYPE_TABLE && UnpackLength(s[1..], (s[0] as nat) / 8).Got?
    requires var r := UnpackLength(s[1..], (s[0] as nat) / 8);
      n == (if r.value > 0 then r.value else 0) && UnpackAll(r.rest, n) == Got(items, s2)
    requires UnpackPairs(s2) == Got(pairs, t)
    ensures Unpack(s) == Got(Table(items, pairs), t)
  {
    var c := (s[0] as nat) / 8;
    assert UnpackAll(UnpackLength(s[1..], c).rest, UnpackLength(s[1..], c).value) == Got(items, s2);
    assert UnpackTable(s[1..], c) == Got(Table(items, pairs), t);
    assert Unpack(s) == PushValue(s[1..], TYPE_TABLE, c);
  }

  lemma {:induction false} AllRead(items: seq<Form>, n: nat, t: seq<byte>)
    requires n == |items| && forall i :: 0 <= i < |items| ==> GoodForm(items[i])
    ensures UnpackAll(AllText(items) + t, n) == Got(AllValues(items), t)
    decreases items, 0
  {
    if items == [] {
      assert AllText(items) + t == t;
    } else {
      FormRead(items[0], AllText(items[1..]) + t);
      AllRead(items[1..], n - 1, t);
      Join3(FormText(items[0]), AllText(items[1..]), t);
    }
  }

  lemma {:induction false} EntryRead(e: Entry, t: seq<byte>)
    requires GoodEntry(e)
    ensures Unpack(FormText(e.key) + (FormText(e.value) + t)) == Got(FormValue(e.key), FormText(e.value) + t)
    ensures Unpack(FormText(e.value) + t) == Got(FormValue(e.value), t) && FormValue(e.key) != Nil
    decreases e, 0
  {
    FormRead(e.key, FormText(e.value) + t);
    FormRead(e.value, t);
  }

  lemma {:induction false} EntriesRead(pairs: seq<Entry>, c: nat, t: seq<byte>)
    requires c < 32 && forall i :: 0 <= i < |pairs| ==> GoodEntry(pairs[i])
    ensures UnpackPairs(EntriesText(pairs) + (First(0, c) + t)) == Got(EntryValues(pairs), t)
    decreases pairs, 0
  {
    if pairs == [] {
      assert EntriesText(pairs) + (First(0, c) + t) == First(0, c) + t;
      FirstIs(0, c, t);
    } else {
      var e, more := pairs[0], EntriesText(pairs[1..]) + (First(0, c) + t);
      EntriesRead(pairs[1..], c, t);
      EntryRead(e, more);
      assert EntriesText(pairs) == FormText(e.key) + FormText(e.value) + EntriesText(pairs[1..]);
      Join4(FormText(e.key), FormText(e.value), EntriesText(pairs[1..]), First(0, c) + t);
      ReadPair(EntriesText(pairs) + (First(0, c) + t), FormValue(e.key), FormText(e.value) + more,
               FormValue(e.value), more, EntryValues(pairs[1..]), t);
    }
  }

  // ---- Nothing else is read ----------------------------------------------------------------------

  lemma Behind(s: seq<byte>, n: nat)
    requires n <= |s|
    ensures s == s[..n] + s[n..]
  {
  }

  lemma FirstOf(s: seq<byte>)
    requires s != []
    ensures var t, c := (s[0] as nat) % 8, (s[0] as nat) / 8;
      t < 8 && c < 32 && s == First(t, c) + s[1..] && Unpack(s) == PushValue(s[1..], t, c)
  {
    var t, c := (s[0] as nat) % 8, (s[0] as nat) / 8;
    assert First(t, c) == [s[0]];
    assert Unpack(s) == PushValue(s[1..], t, c);
  }

  lemma WidthOf(s: seq<byte>, c: nat) returns (width: nat)
    requires UnpackInteger(s, c).Got?
    ensures var r := UnpackInteger(s, c);
      GoodInteger(width, r.value) && c == (if width == 8 then 6 else width) && s == Little(r.value, width) + r.rest
  {
    Powers();
    width := if c == 6 then 8 else c;
    var b := s[..width];
    Behind(s, width);
    LittleNumber(b);
    NumberBelow(b);
    if c == 4 && Number(b) >= 0x8000_0000 { LittleWraps(Number(b), 4); }
    if c == 6 && Number(b) >= 0x8000_0000_0000_0000 { LittleWraps(Number(b), 8); }
  }

  lemma IntegerOf(s: seq<byte>) returns (f: Form)
    requires s != [] && (s[0] as nat) % 8 == TYPE_NUMBER && Unpack(s).Got?
    ensures GoodForm(f) && s == FormText(f) + Unpack(s).rest && FormValue(f) == Unpack(s).value
  {
    FirstOf(s);
    var c := (s[0] as nat) / 8;
    if c == TYPE_NUMBER_REAL {
      f := RealForm(s[1..9]);
      Behind(s[1..], 8);
      Join3(First(2, 8), s[1..9], s[9..]);
    } else {
      var width := WidthOf(s[1..], c);
      var r := UnpackInteger(s[1..], c);
      f := IntegerForm(width, r.value);
      Join3(First(2, c), Little(r.value, width), r.rest);
    }
  }

  lemma LongOf(s: seq<byte>, k: nat) returns (b: seq<byte>)
    requires UnpackLong(s, k).Got? && (k == 2 || k == 4)
    ensures |b| < 0x8000_0000 && (k == 2 ==> |b| < 0x1_0000) && UnpackLong(s, k).value == String(b)
    ensures s == Little(|b|, k) + (b + UnpackLong(s, k).rest)
  {
    Powers();
    var n := Number(s[..k]);
    Behind(s, k);
    LittleNumber(s[..k]);
    NumberBelow(s[..k]);
    Behind(s[k..], n);
    b := s[k..][..n];
  }

  lemma StringOf(s: seq<byte>) returns (f: Form)
    requires s != [] && (s[0] as nat) % 8 in {TYPE_SHORT_STRING, TYPE_LONG_STRING} && Unpack(s).Got?
    ensures GoodForm(f) && s == FormText(f) + Unpack(s).rest && FormValue(f) == Unpack(s).value
  {
    FirstOf(s);
    var c := (s[0] as nat) / 8;
    if (s[0] as nat) % 8 == TYPE_SHORT_STRING {
      f := ShortForm(s[1..][..c]);
      Behind(s[1..], c);
      Join3(First(4, c), s[1..][..c], s[1..][c..]);
    } else {
      var b := LongOf(s[1..], c);
      f := LongForm(c, b);
      Join4(First(5, c), Little(|b|, c), b, Unpack(s).rest);
    }
  }

  lemma CountedOf(u: seq<byte>) returns (width: nat)
    requires UnpackLength(u, 31).Got?
    ensures u != [] && var r := UnpackInteger(u[1..], (u[0] as nat) / 8);
      && r.Got? && UnpackLength(u, 31) == Got(Truncate(r.value), r.rest)
      && GoodInteger(width, r.value) && u == IntegerText(width, r.value) + r.rest
  {
    FirstOf(u);
    var w := (u[0] as nat) / 8;
    width := WidthOf(u[1..], w);
    var r := UnpackInteger(u[1..], w);
    Join3(First(2, w), Little(r.value, width), r.rest);
  }

  lemma CountJoined(s: seq<byte>, width: nat, n: int, rest: seq<byte>)
    requires s != [] && (s[0] as nat) % 8 == 6 && (s[0] as nat) / 8 == 31
    requires s[1..] == IntegerText(width, n) + rest
    ensures s == First(6, 31) + IntegerText(width, n) + rest
  {
    FirstOf(s);
    Join3(First(6, 31), IntegerText(width, n), rest);
  }

  lemma CountOf(s: seq<byte>) returns (c: Count, k: nat)
    requires s != [] && (s[0] as nat) % 8 == TYPE_TABLE && UnpackLength(s[1..], (s[0] as nat) / 8).Got?
    ensures var r := UnpackLength(s[1..], (s[0] as nat) / 8);
      GoodCount(c, k) && s == CountText(c, k) + r.rest && k == if r.value > 0 then r.value else 0
  {
    var cookie, u := (s[0] as nat) / 8, s[1..];
    if cookie < 31 {
      FirstOf(s);
      c, k := Inline, cookie;
    } else {
      var width := CountedOf(u);
      var r := UnpackInteger(u[1..], (u[0] as nat) / 8);
      CutRead(r.value);
      c, k := Counted(width, r.value), CutLength(r.value);
      CountJoined(s, width, r.value, r.rest);
    }
  }

  /** Whatever is read is a form. */
  lemma {:induction false} FormOf(s: seq<byte>) returns (f: Form)
    requires Unpack(s).Got?
    ensures GoodForm(f) && s == FormText(f) + Unpack(s).rest && FormValue(f) == Unpack(s).value
    decreases |s|, 0
  {
    FirstOf(s);
    var t, c := (s[0] as nat) % 8, (s[0] as nat) / 8;
    if t == TYPE_NIL {
      f := NilForm(c);
    } else if t == TYPE_BOOLEAN {
      f := BooleanForm(c);
    } else if t == TYPE_NUMBER {
      f := IntegerOf(s);
    } else if t == TYPE_USERDATA {
      f := PointerForm(c, s[1..9]);
      Behind(s[1..], 8);
      Join3(First(3, c), s[1..9], s[9..]);
    } else if t == TYPE_TABLE {
      f := TableFormOf(s);
    } else {
      f := StringOf(s);
    }
  }

  lemma {:induction false} TableFormOf(s: seq<byte>) returns (f: Form)
    requires s != [] && (s[0] as nat) % 8 == TYPE_TABLE && Unpack(s).Got?
    ensures GoodForm(f) && s == FormText(f) + Unpack(s).rest && FormValue(f) == Unpack(s).value
    decreases |s|, -1
  {
    FirstOf(s);
    var cookie := (s[0] as nat) / 8;
    assert Unpack(s) == UnpackTable(s[1..], cookie);
    var c, k := CountOf(s);
    var r := UnpackLength(s[1..], cookie);
    var items := AllOf(r.rest, r.value);
    var r2 := UnpackAll(r.rest, r.value);
    var entries, close := EntriesOf(r2.rest);
    f := TableForm(c, items, entries, close);
    Join5(CountText(c, k), AllText(items), EntriesText(entries), First(0, close), Unpack(s).rest);
  }

  lemma {:induction false} AllOf(s: seq<byte>, n: int) returns (items: seq<Form>)
    requires UnpackAll(s, n).Got?
    ensures |items| == (if n > 0 then n else 0) && forall i :: 0 <= i < |items| ==> GoodForm(items[i])
    ensures s == AllText(items) + UnpackAll(s, n).rest && AllValues(items) == UnpackAll(s, n).value
    decreases |s|, 1
  {
    if n <= 0 {
      items := [];
    } else {
      var f := FormOf(s);
      var s1 := Unpack(s).rest;
      var more := AllOf(s1, n - 1);
      items := [f] + more;
      assert items[1..] == more;
      Join3(FormText(f), AllText(more), UnpackAll(s, n).rest);
    }
  }

  lemma {:induction false} EntriesOf(s: seq<byte>) returns (pairs: seq<Entry>, c: nat)
    requires UnpackPairs(s).Got?
    ensures c < 32 && forall i :: 0 <= i < |pairs| ==> GoodEntry(pairs[i])
    ensures s == EntriesText(pairs) + (First(0, c) + UnpackPairs(s).rest) && EntryValues(pairs) == UnpackPairs(s).value
    decreases |s|, 1
  {
    var key := FormOf(s);
    var s1 := Unpack(s).rest;
    if key.NilForm? {
      pairs, c := [], key.cookie;
    } else {
      var value := FormOf(s1);
      var more;
      more, c := EntriesOf(Unpack(s1).rest);
      pairs := [Entry(key, value)] + more;
      assert pairs[1..] == more;
      Join4(FormText(key), FormText(value), EntriesText(more), First(0, c) + UnpackPairs(s).rest);
    }
  }

  /** What is unpacked are exactly the forms, and the value is that of the form. */
  lemma UnpackExactly(s: seq<byte>, v: Value, t: seq<byte>)
    ensures Unpack(s) == Got(v, t) <==> exists f :: GoodForm(f) && s == FormText(f) + t && FormValue(f) == v
  {
    if Unpack(s).Got? {
      var f := FormOf(s);
    }
    if f :| GoodForm(f) && s == FormText(f) + t && FormValue(f) == v {
      FormRead(f, t);
    }
  }

  lemma {:induction false} ListRead(fs: seq<Form>)
    requires forall i :: 0 <= i < |fs| ==> GoodForm(fs[i])
    ensures UnpackList(AllText(fs)) == Some(AllValues(fs))
    decreases |fs|
  {
    if fs != [] {
      FormRead(fs[0], AllText(fs[1..]));
      ListRead(fs[1..]);
    }
  }

  lemma {:induction false} ListOf(s: seq<byte>) returns (fs: seq<Form>)
    requires UnpackList(s).Some?
    ensures (forall i :: 0 <= i < |fs| ==> GoodForm(fs[i])) && s == AllText(fs)
    ensures UnpackList(s) == Some(AllValues(fs))
    decreases |s|
  {
    if s == [] {
      fs := [];
    } else {
      var f := FormOf(s);
      var more := ListOf(Unpack(s).rest);
      fs := [f] + more;
      assert fs[1..] == more;
    }
  }

  /** A call unpacks exactly the forms that stand one behind the other. */
  lemma UnpackListExactly(s: seq<byte>, vs: seq<Value>)
    ensures UnpackList(s) == Some(vs) <==>
      exists fs :: (forall i :: 0 <= i < |fs| ==> GoodForm(fs[i])) && s == AllText(fs) && AllValues(fs) == vs
  {
    if UnpackList(s) == Some(vs) {
      var fs := ListOf(s);
    }
    if fs :| (forall i :: 0 <= i < |fs| ==> GoodForm(fs[i])) && s == AllText(fs) && AllValues(fs) == vs {
      ListRead(fs);
    }
  }

  // ---- What is packed ----------------------------------------------------------------------------

  /** The integer is written in no fewer bytes. */
  predicate LeastWidth(width: nat, n: int)
  {
    GoodInteger(width, n) && forall w: nat :: w < width ==> !GoodInteger(w, n)
  }

  /** The form that is packed: the shortest, and the first byte holds as little as it can. */
  ghost predicate Packed(f: Form)
    decreases f
  {
    match f
    case NilForm(c) => c == 0
    case BooleanForm(c) => c < 2
    case IntegerForm(width, n) => LeastWidth(width, n)
    case RealForm(b) => |b| == 8
    case PointerForm(c, b) => c == 0 && |b| == 8
    case ShortForm(b) => |b| < 32
    case LongForm(width, b) => 32 <= |b| < 0x8000_0000 && width == if |b| < 0x1_0000 then 2 else 4
    case TableForm(count, items, pairs, c) =>
      && c == 0 && |items| < 0x8000_0000
      && (match count case Inline => |items| < 31 case Counted(width, n) => n == |items| >= 31 && LeastWidth(width, n))
      && (forall i :: 0 <= i < |items| ==> Packed(items[i]))
      && (forall i :: 0 <= i < |pairs| ==> PackedEntry(pairs[i]))
  }

  ghost predicate PackedEntry(e: Entry)
    decreases e
  {
    Packed(e.key) && !e.key.NilForm? && Packed(e.value)
  }

  lemma BytesLittle(n: nat, k: nat, p: nat)
    requires n < p == Pow256(k)
    ensures Bytes(n, k) == Little(n, k)
  {
    NumberOfBytes(n, k);
    NumberLittle(n, k);
    Quotient(n, p, 0, n);
    NumberOnce(Bytes(n, k), Little(n, k));
  }

  lemma UnsignedLittle(n: int, k: nat, p: nat)
    requires p == Pow256(k) && 0 <= n + p && n < p
    ensures Bytes(Unsigned(n, p), k) == Little(n, k)
  {
    BytesLittle(Unsigned(n, p), k, p);
    LittleWraps(n + p, k);
  }

  lemma FirstCombined(t: nat, c: nat)
    requires t < 8 && c < 32
    ensures First(t, c) == [Combine(t, c)]
  {
  }

  lemma WidthLeast(v: int) returns (width: nat)
    requires -0x8000_0000_0000_0000 <= v < 0x8000_0000_0000_0000
    ensures LeastWidth(width, v)
    ensures width == if v == 0 then 0 else if !IsInt32(v) then 8 else if v < 0 || v >= 0x1_0000 then 4
                     else if v < 0x100 then 1 else 2
  {
    width := if v == 0 then 0 else if !IsInt32(v) then 8 else if v < 0 || v >= 0x1_0000 then 4
             else if v < 0x100 then 1 else 2;
  }

  lemma IntegerPacked(v: int) returns (width: nat)
    requires -0x8000_0000_0000_0000 <= v < 0x8000_0000_0000_0000
    ensures LeastWidth(width, v) && PackInteger(v) == IntegerText(width, v)
  {
    Powers();
    width := WidthLeast(v);
    FirstCombined(2, if width == 8 then 6 else width);
    if width == 8 {
      UnsignedLittle(v, 8, 0x1_0000_0000_0000_0000);
    } else if width == 4 {
      UnsignedLittle(v, 4, 0x1_0000_0000);
    } else if width == 2 {
      BytesLittle(v, 2, 0x1_0000);
    } else if width == 1 {
      BytesLittle(v, 1, 0x100);
    }
  }

  lemma StringPacked(b: seq<byte>) returns (f: Form)
    requires |b| < 0x8000_0000
    ensures Packed(f) && PackString(b) == FormText(f) && FormValue(f) == String(b)
  {
    Powers();
    if |b| < 32 {
      FirstCombined(4, |b|);
      f := ShortForm(b);
    } else if |b| < 0x1_0000 {
      FirstCombined(5, 2);
      BytesLittle(|b|, 2, 0x1_0000);
      f := LongForm(2, b);
    } else {
      FirstCombined(5, 4);
      BytesLittle(|b|, 4, 0x1_0000_0000);
      f := LongForm(4, b);
    }
  }

  lemma HeadPacked(n: nat) returns (c: Count)
    requires n < 0x8000_0000
    ensures PackHead(n) == CountText(c, n)
    ensures match c case Inline => n < 31 case Counted(width, m) => m == n >= 31 && LeastWidth(width, m)
  {
    if n < 31 {
      c := Inline;
    } else {
      var width := IntegerPacked(n);
      c := Counted(width, n);
    }
  }

  /** A value is packed in its shortest form. */
  lemma {:induction false} PackedForm(v: Value) returns (f: Form)
    requires Proper(v)
    ensures Packed(f) && Pack(v) == FormText(f) && FormValue(f) == Strip(v)
    decreases v
  {
    match v
    case Nil => f := NilForm(0);
    case Boolean(b) => f := BooleanForm(if b then 1 else 0);
    case Integer(n) =>
      var width := IntegerPacked(n);
      f := IntegerForm(width, n);
    case Real(b) => f := RealForm(b);
    case Pointer(b) => f := PointerForm(0, b);
    case String(b) => f := StringPacked(b);
    case Table(items, pairs) =>
      var c := HeadPacked(|items|);
      var fs := AllPacked(items);
      var es := EntriesPacked(pairs, |items|);
      f := TableForm(c, fs, es, 0);
  }

  lemma {:induction false} AllPacked(items: seq<Value>) returns (fs: seq<Form>)
    requires forall i :: 0 <= i < |items| ==> Proper(items[i])
    ensures |fs| == |items| && forall i :: 0 <= i < |fs| ==> Packed(fs[i])
    ensures PackAll(items) == AllText(fs) && AllValues(fs) == StripAll(items)
    decreases items
  {
    if items == [] {
      fs := [];
    } else {
      var f := PackedForm(items[0]);
      var more := AllPacked(items[1..]);
      fs := [f] + more;
      assert fs[1..] == more;
    }
  }

  lemma {:induction false} EntriesPacked(pairs: seq<Pair>, n: nat) returns (es: seq<Entry>)
    requires forall i :: 0 <= i < |pairs| ==> ProperPair(pairs[i])
    ensures forall i :: 0 <= i < |es| ==> PackedEntry(es[i])
    ensures PackPairs(pairs, n) == EntriesText(es) && EntryValues(es) == StripPairs(pairs, n)
    decreases pairs
  {
    if pairs == [] {
      es := [];
    } else {
      es := EntriesPacked(pairs[1..], n);
      if !InArray(pairs[0].key, n) {
        var e := EntryPacked(pairs[0]);
        assert ([e] + es)[1..] == es;
        es := [e] + es;
      }
    }
  }

  lemma {:induction false} EntryPacked(p: Pair) returns (e: Entry)
    requires ProperPair(p)
    ensures PackedEntry(e) && PackPair(p) == EntryText(e) && EntryValue(e) == StripPair(p)
    decreases p
  {
    var key := PackedForm(p.key);
    var value := PackedForm(p.value);
    e := Entry(key, value);
  }

  /** Whatever was unpacked can be packed again, if it is not nested too deep. */
  lemma {:induction false} FormProper(f: Form)
    requires GoodForm(f)
    ensures Proper(FormValue(f))
    decreases f
  {
    match f
    case TableForm(_, items, pairs, _) =>
      AllProper(items);
      EntriesProper(pairs);
    case _ =>
  }

  lemma {:induction false} AllProper(items: seq<Form>)
    requires forall i :: 0 <= i < |items| ==> GoodForm(items[i])
    ensures |AllValues(items)| == |items| && forall v :: v in AllValues(items) ==> Proper(v)
    decreases items
  {
    if items != [] {
      FormProper(items[0]);
      AllProper(items[1..]);
    }
  }

  lemma {:induction false} EntriesProper(pairs: seq<Entry>)
    requires forall i :: 0 <= i < |pairs| ==> GoodEntry(pairs[i])
    ensures forall p :: p in EntryValues(pairs) ==> ProperPair(p)
    decreases pairs
  {
    if pairs != [] {
      EntryProper(pairs[0]);
      EntriesProper(pairs[1..]);
    }
  }

  lemma {:induction false} EntryProper(e: Entry)
    requires GoodEntry(e)
    ensures ProperPair(EntryValue(e))
    decreases e
  {
    FormProper(e.key);
    FormProper(e.value);
  }

  /** Of the entries, those at the indices of the array part are left out, and no others. */
  lemma {:induction false} StripKeeps(pairs: seq<Pair>, n: nat, q: Pair)
    ensures q in StripPairs(pairs, n) <==>
      exists i :: 0 <= i < |pairs| && q == StripPair(pairs[i])
        && !(pairs[i].key.Integer? && 1 <= pairs[i].key.n <= n)
    decreases |pairs|
  {
    if pairs != [] {
      var rest := pairs[1..];
      StripKeeps(rest, n, q);
      assert forall i :: 0 <= i < |rest| ==> rest[i] == pairs[i + 1];
      assert forall i :: 0 < i < |pairs| ==> pairs[i] == rest[i - 1];
    }
  }
}
