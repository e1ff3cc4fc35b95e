/** `lua-seri.c`: Lua values as bytes. */
module Serialize {
  import opened Basics

  const TYPE_NIL: nat := 0
  const TYPE_BOOLEAN: nat := 1
  const TYPE_NUMBER: nat := 2
  const TYPE_USERDATA: nat := 3
  const TYPE_SHORT_STRING: nat := 4
  const TYPE_LONG_STRING: nat := 5
  const TYPE_TABLE: nat := 6

  const TYPE_NUMBER_ZERO: nat := 0
  const TYPE_NUMBER_BYTE: nat := 1
  const TYPE_NUMBER_WORD: nat := 2
  const TYPE_NUMBER_DWORD: nat := 4
  const TYPE_NUMBER_QWORD: nat := 6
  const TYPE_NUMBER_REAL: nat := 8

  const MAX_COOKIE: nat := 32
  const MAX_DEPTH: nat := 32

  /** The values that can be packed. A double and a pointer are their eight bytes. A table is what
    its indices from 1 to its length hold, and all its entries in the order of `lua_next`, among
    them those of these indices again. */
  datatype Value =
    | Nil
    | Boolean(b: bool)
    | Integer(n: int)
    | Real(bytes: seq<byte>)
    | Pointer(bytes: seq<byte>)
    | String(s: seq<byte>)
    | Table(items: seq<Value>, pairs: seq<Pair>)

  datatype Pair = Pair(key: Value, value: Value)

  // ---- Bytes ---------------------------------------------------------------------------------

  function Pow256(k: nat): (p: nat)
    ensures p > 0
  {
    if k == 0 then 1 else 256 * Pow256(k - 1)
  }

  /** A number in `k` bytes, as little-endian memory holds it. */
  function Bytes(n: nat, k: nat): (r: seq<byte>)
    ensures |r| == k
  {
    if k == 0 then [] else [n % 256] + Bytes(n / 256, k - 1)
  }

  function Number(s: seq<byte>): nat
  {
    if s == [] then 0 else (s[0] as nat) + 256 * Number(s[1..])
  }

  lemma {:induction false} NumberOfBytes(n: nat, k: nat)
    requires n < Pow256(k)
    ensures Number(Bytes(n, k)) == n
  {
    if k > 0 {
      NumberOfBytes(n / 256, k - 1);
      assert Bytes(n, k)[1..] == Bytes(n / 256, k - 1);
    }
  }

  lemma Powers()
    ensures Pow256(1) == 0x100 && Pow256(2) == 0x1_0000
            && Pow256(4) == 0x1_0000_0000
            && Pow256(8) == 0x1_0000_0000_0000_0000
  {
    assert Pow256(1) == 256 * Pow256(0);
    assert Pow256(2) == 256 * Pow256(1);
    assert Pow256(3) == 256 * Pow256(2);
    assert Pow256(4) == 256 * Pow256(3);
    assert Pow256(5) == 256 * Pow256(4);
    assert Pow256(6) == 256 * Pow256(5);
    assert Pow256(7) == 256 * Pow256(6);
  }

  /** Two's complement: the bits of `n` in a word of `m` values, and back. */
  function Unsigned(n: int, m: nat): nat
    requires n + m >= 0
  {
    if n < 0 then n + m else n
  }

  function Signed(n: nat, m: nat): int { if n >= m / 2 then n - m else n }

  function Combine(t: nat, v: nat): byte
    requires t < 8 && v < 32
  {
    t + v * 8
  }

  // ---- What packing writes -------------------------------------------------------------------

  predicate IsInt64(n: int) { -0x8000_0000_0000_0000 <= n < 0x8000_0000_0000_0000 }

  predicate IsInt32(n: int) { -0x8000_0000 <= n < 0x8000_0000 }

  /** `wb_integer`. */
  function PackInteger(v: int): (r: seq<byte>)
    requires IsInt64(v)
    ensures r != []
  {
    if v == 0 then [Combine(TYPE_NUMBER, TYPE_NUMBER_ZERO)]
    else if !IsInt32(v) then [Combine(TYPE_NUMBER, TYPE_NUMBER_QWORD)] + Bytes(Unsigned(v, 0x1_0000_0000_0000_0000), 8)
    else if v < 0 then [Combine(TYPE_NUMBER, TYPE_NUMBER_DWORD)] + Bytes(Unsigned(v, 0x1_0000_0000), 4)
    else if v < 0x100 then [Combine(TYPE_NUMBER, TYPE_NUMBER_BYTE)] + Bytes(v, 1)
    else if v < 0x10000 then [Combine(TYPE_NUMBER, TYPE_NUMBER_WORD)] + Bytes(v, 2)
    else [Combine(TYPE_NUMBER, TYPE_NUMBER_DWORD)] + Bytes(v, 4)
  }

  /** `wb_string`. */
  function PackString(s: seq<byte>): (r: seq<byte>)
    requires |s| < 0x8000_0000
    ensures r != []
  {
    if |s| < MAX_COOKIE then [Combine(TYPE_SHORT_STRING, |s|)] + s
    else if |s| < 0x10000 then [Combine(TYPE_LONG_STRING, 2)] + Bytes(|s|, 2) + s
    else [Combine(TYPE_LONG_STRING, 4)] + Bytes(|s|, 4) + s
  }

  /** The head of a table: the length of its array part. */
  function PackHead(n: nat): (r: seq<byte>)
    requires n < 0x8000_0000
    ensures r != []
  {
    if n >= MAX_COOKIE - 1 then [Combine(TYPE_TABLE, MAX_COOKIE - 1)] + PackInteger(n) else [Combine(TYPE_TABLE, n)]
  }

  /** The key is one of the array part. */
  predicate InArray(k: Value, n: nat) { k.Integer? && 0 < k.n <= n }

  /** What the types of C hold; a key is never nil. */
  ghost predicate Proper(v: Value)
    decreases v
  {
    match v
    case Integer(n) => IsInt64(n)
    case Real(b) => |b| == 8
    case Pointer(b) => |b| == 8
    case String(s) => |s| < 0x8000_0000
    case Table(items, pairs) =>
      && |items| < 0x8000_0000
      && (forall i :: 0 <= i < |items| ==> Proper(items[i]))
      && (forall i :: 0 <= i < |pairs| ==> ProperPair(pairs[i]))
    case _ => true
  }

  ghost predicate ProperPair(p: Pair)
    decreases p
  {
    p.key != Nil && Proper(p.key) && Proper(p.value)
  }

  /** `pack_one`. */
  function Pack(v: Value): (r: seq<byte>)
    requires Proper(v)
    ensures r != []
    decreases v
  {
    match v
    case Nil => [Combine(TYPE_NIL, 0)]
    case Boolean(b) => [Combine(TYPE_BOOLEAN, if b then 1 else 0)]
    case Integer(n) => PackInteger(n)
    case Real(b) => [Combine(TYPE_NUMBER, TYPE_NUMBER_REAL)] + b
    case Pointer(b) => [Combine(TYPE_USERDATA, 0)] + b
    case String(s) => PackString(s)
    case Table(items, pairs) => PackHead(|items|) + PackAll(items) + PackPairs(pairs, |items|) + [Combine(TYPE_NIL, 0)]
  }

  function PackAll(items: seq<Value>): seq<byte>
    requires forall i :: 0 <= i < |items| ==> Proper(items[i])
    decreases items
  {
    if items == [] then [] else Pack(items[0]) + PackAll(items[1..])
  }

  function PackPairs(pairs: seq<Pair>, n: nat): seq<byte>
    requires forall i :: 0 <= i < |pairs| ==> ProperPair(pairs[i])
    decreases pairs
  {
    if pairs == [] then [] else (if InArray(pairs[0].key, n) then [] else PackPair(pairs[0])) + PackPairs(pairs[1..], n)
  }

  function PackPair(p: Pair): (r: seq<byte>)
    requires ProperPair(p)
    ensures r != []
    decreases p
  {
    Pack(p.key) + Pack(p.value)
  }

  // ---- What unpacking reads ------------------------------------------------------------------

  datatype Read<T> = Failed | Got(value: T, rest: seq<byte>)

  /** `rb_read`. */
  function Take(s: seq<byte>, n: nat): Read<seq<byte>> { if |s| < n then Failed else Got(s[..n], s[n..]) }

  /** `get_integer`. */
  function UnpackInteger(s: seq<byte>, cookie: nat): (r: Read<int>)
    ensures r.Got? ==> |r.rest| <= |s|
  {
    if cookie == TYPE_NUMBER_ZERO then Got(0, s)
    else if cookie == TYPE_NUMBER_BYTE then UnpackNumber(s, 1, 0x200)
    else if cookie == TYPE_NUMBER_WORD then UnpackNumber(s, 2, 0x2_0000)
    else if cookie == TYPE_NUMBER_DWORD then UnpackNumber(s, 4, 0x1_0000_0000)
    else if cookie == TYPE_NUMBER_QWORD then UnpackNumber(s, 8, 0x1_0000_0000_0000_0000)
    else Failed
  }

  function UnpackNumber(s: seq<byte>, k: nat, m: nat): (r: Read<int>)
    ensures r.Got? ==> |r.rest| <= |s|
  {
    match Take(s, k)
    case Failed => Failed
    case Got(b, rest) => Got(Signed(Number(b), m), rest)
  }

  function UnpackString(s: seq<byte>, n: nat): (r: Read<Value>)
    ensures r.Got? ==> |r.rest| <= |s|
  {
    match Take(s, n)
    case Failed => Failed
    case Got(b, rest) => Got(String(b), rest)
  }

  function UnpackLong(s: seq<byte>, k: nat): (r: Read<Value>)
    ensures r.Got? ==> |r.rest| <= |s|
  {
    match Take(s, k)
    case Failed => Failed
    case Got(b, rest) => if Number(b) >= 0x8000_0000 then Failed else UnpackString(rest, Number(b))
  }

  function UnpackBytes(s: seq<byte>, f: seq<byte> -> Value): (r: Read<Value>)
    ensures r.Got? ==> |r.rest| <= |s|
  {
    match Take(s, 8)
    case Failed => Failed
    case Got(b, rest) => Got(f(b), rest)
  }

  /** `unpack_one`. */
  function Unpack(s: seq<byte>): (r: Read<Value>)
    ensures r.Got? ==> |r.rest| < |s|
    decreases |s|, 0
  {
    if s == [] then Failed else PushValue(s[1..], (s[0] as nat) % 8, (s[0] as nat) / 8)
  }

  /** `push_value`. */
  function PushValue(s: seq<byte>, t: nat, cookie: nat): (r: Read<Value>)
    ensures r.Got? ==> |r.rest| <= |s|
    decreases |s|, 3
  {
    if t == TYPE_NIL then Got(Nil, s)
    else if t == TYPE_BOOLEAN then Got(Boolean(cookie != 0), s)
    else if t == TYPE_NUMBER then
      if cookie == TYPE_NUMBER_REAL then UnpackBytes(s, b => Real(b))
      else match UnpackInteger(s, cookie) case Failed => Failed case Got(n, rest) => Got(Integer(n), rest)
    else if t == TYPE_USERDATA then UnpackBytes(s, b => Pointer(b))
    else if t == TYPE_SHORT_STRING then UnpackString(s, cookie)
    else if t == TYPE_LONG_STRING then
      if cookie == 2 then UnpackLong(s, 2) else if cookie == 4 then UnpackLong(s, 4) else Failed
    else if t == TYPE_TABLE then UnpackTable(s, cookie)
    else Failed
  }

  /** A number as an `int` holds it. */
  function Truncate(n: int): int { (n + 0x8000_0000) % 0x1_0000_0000 - 0x8000_0000 }

  /** The length of a table's array part. */
  function UnpackLength(s: seq<byte>, cookie: nat): (r: Read<int>)
    ensures r.Got? ==> |r.rest| <= |s|
  {
    if cookie != MAX_COOKIE - 1 then Got(cookie, s)
    else if s == [] then Failed
    else
      var t, c := (s[0] as nat) % 8, (s[0] as nat) / 8;
      if t != TYPE_NUMBER || c == TYPE_NUMBER_REAL then Failed
      else match UnpackInteger(s[1..], c) case Failed => Failed case Got(n, rest) => Got(Truncate(n), rest)
  }

  /** `unpack_table`: what was stored, in the order of the stores. */
  function UnpackTable(s: seq<byte>, cookie: nat): (r: Read<Value>)
    ensures r.Got? ==> |r.rest| <= |s|
    decreases |s|, 2
  {
    match UnpackLength(s, cookie)
    case Failed => Failed
    case Got(n, s1) =>
      match UnpackAll(s1, n)
      case Failed => Failed
      case Got(items, s2) =>
        match UnpackPairs(s2)
        case Failed => Failed
        case Got(pairs, s3) => Got(Table(items, pairs), s3)
  }

  function UnpackAll(s: seq<byte>, n: int): (r: Read<seq<Value>>)
    ensures r.Got? ==> |r.rest| <= |s|
    decreases |s|, 1
  {
    if n <= 0 then Got([], s) else
      match Unpack(s)
      case Failed => Failed
      case Got(v, s1) =>
        match UnpackAll(s1, n - 1)
        case Failed => Failed
        case Got(vs, s2) => Got([v] + vs, s2)
  }

  function UnpackPairs(s: seq<byte>): (r: Read<seq<Pair>>)
    ensures r.Got? ==> |r.rest| < |s|
    decreases |s|, 1
  {
    match Unpack(s)
    case Failed => Failed
    case Got(k, s1) =>
      if k == Nil then Got([], s1) else
        match Unpack(s1)
        case Failed => Failed
        case Got(v, s2) =>
          match UnpackPairs(s2)
          case Failed => Failed
          case Got(ps, s3) => Got([Pair(k, v)] + ps, s3)
  }

  // ---- Unpacking undoes packing --------------------------------------------------------------

  /** The entries of the array part are not stored a second time. */
  function Strip(v: Value): Value
    decreases v
  {
    if v.Table? then Table(StripAll(v.items), StripPairs(v.pairs, |v.items|)) else v
  }

  function StripAll(items: seq<Value>): (r: seq<Value>)
    ensures |r| == |items|
    decreases items
  {
    if items == [] then [] else [Strip(items[0])] + StripAll(items[1..])
  }

  function StripPairs(pairs: seq<Pair>, n: nat): seq<Pair>
    decreases pairs
  {
    if pairs == [] then []
    else (if InArray(pairs[0].key, n) then [] else [StripPair(pairs[0])]) + StripPairs(pairs[1..], n)
  }

  function StripPair(p: Pair): Pair
    decreases p
  {
    Pair(Strip(p.key), Strip(p.value))
  }

  lemma Join3(a: seq<byte>, b: seq<byte>, c: seq<byte>)
    ensures (a + b) + c == a + (b + c)
  {
  }

  lemma Join4(a: seq<byte>, b: seq<byte>, c: seq<byte>, d: seq<byte>)
    ensures ((a + b) + c) + d == a + (b + (c + d))
  {
  }

  lemma Join5(a: seq<byte>, b: seq<byte>, c: seq<byte>, d: seq<byte>, e: seq<byte>)
    ensures (((a + b) + c) + d) + e == a + (b + (c + (d + e)))
  {
  }

  lemma TakeConcat(b: seq<byte>, t: seq<byte>)
    ensures Take(b + t, |b|) == Got(b, t)
  {
    assert (b + t)[..|b|] == b && (b + t)[|b|..] == t;
  }

  lemma NumberBack(n: nat, k: nat, m: nat, t: seq<byte>)
    requires n < Pow256(k)
    ensures UnpackNumber(Bytes(n, k) + t, k, m) == Got(Signed(n, m), t)
  {
    TakeConcat(Bytes(n, k), t);
    NumberOfBytes(n, k);
  }

  lemma CombineParts(t: nat, c: nat)
    requires t < 8 && c < 32
    ensures (Combine(t, c) as nat) % 8 == t && (Combine(t, c) as nat) / 8 == c
  {
  }

  lemma UnpackHead(t: nat, c: nat, rest: seq<byte>)
    requires t < 8 && c < 32
    ensures Unpack([Combine(t, c)] + rest) == PushValue(rest, t, c)
  {
    CombineParts(t, c);
    var s := [Combine(t, c)] + rest;
    assert s[0] == Combine(t, c) && s[1..] == rest;
    assert Unpack(s) == PushValue(s[1..], (s[0] as nat) % 8, (s[0] as nat) / 8);
  }

  lemma FieldBack(c: nat, n: nat, k: nat, m: nat, t: seq<byte>)
    requires c < 32 && n < Pow256(k)
    ensures var s := ([Combine(TYPE_NUMBER, c)] + Bytes(n, k)) + t;
      (s[0] as nat) % 8 == TYPE_NUMBER && (s[0] as nat) / 8 == c && UnpackNumber(s[1..], k, m) == Got(Signed(n, m), t)
  {
    CombineParts(TYPE_NUMBER, c);
    NumberBack(n, k, m, t);
    assert (([Combine(TYPE_NUMBER, c)] + Bytes(n, k)) + t)[1..] == Bytes(n, k) + t;
  }

  lemma IntegerBack(v: int, t: seq<byte>)
    requires IsInt64(v)
    ensures var s := PackInteger(v) + t;
      (s[0] as nat) % 8 == TYPE_NUMBER && (s[0] as nat) / 8 != TYPE_NUMBER_REAL
      && UnpackInteger(s[1..], (s[0] as nat) / 8) == Got(v, t)
  {
    Powers();
    if v == 0 {
      CombineParts(TYPE_NUMBER, TYPE_NUMBER_ZERO);
      assert (PackInteger(v) + t)[1..] == t;
    } else if !IsInt32(v) {
      FieldBack(TYPE_NUMBER_QWORD, Unsigned(v, 0x1_0000_0000_0000_0000), 8, 0x1_0000_0000_0000_0000, t);
    } else if v < 0 {
      FieldBack(TYPE_NUMBER_DWORD, Unsigned(v, 0x1_0000_0000), 4, 0x1_0000_0000, t);
    } else if v < 0x100 {
      FieldBack(TYPE_NUMBER_BYTE, v, 1, 0x200, t);
    } else if v < 0x10000 {
      FieldBack(TYPE_NUMBER_WORD, v, 2, 0x2_0000, t);
    } else {
      FieldBack(TYPE_NUMBER_DWORD, v, 4, 0x1_0000_0000, t);
    }
  }

  lemma IntegerRead(v: int, t: seq<byte>)
    requires IsInt64(v)
    ensures Unpack(PackInteger(v) + t) == Got(Integer(v), t)
  {
    IntegerBack(v, t);
    var s := PackInteger(v) + t;
    assert Unpack(s) == PushValue(s[1..], TYPE_NUMBER, (s[0] as nat) / 8);
  }

  lemma LengthBack(n: nat, t: seq<byte>)
    requires n < 0x8000_0000
    ensures var s := PackHead(n) + t;
      (s[0] as nat) % 8 == TYPE_TABLE && UnpackLength(s[1..], (s[0] as nat) / 8) == Got(n, t)
  {
    var s := PackHead(n) + t;
    if n >= MAX_COOKIE - 1 {
      assert s[1..] == PackInteger(n) + t;
      IntegerBack(n, t);
    } else {
      assert s[1..] == t;
    }
  }

  lemma LongBack(b: seq<byte>, k: nat, t: seq<byte>)
    requires |b| < 0x8000_0000 && |b| < Pow256(k)
    ensures UnpackLong(Bytes(|b|, k) + (b + t), k) == Got(String(b), t)
  {
    TakeConcat(Bytes(|b|, k), b + t);
    NumberOfBytes(|b|, k);
    TakeConcat(b, t);
  }

  lemma StringBack(b: seq<byte>, t: seq<byte>)
    requires |b| < 0x8000_0000
    ensures Unpack(PackString(b) + t) == Got(String(b), t)
  {
    Powers();
    if |b| < MAX_COOKIE {
      TakeConcat(b, t);
      UnpackHead(TYPE_SHORT_STRING, |b|, b + t);
      Join3([Combine(TYPE_SHORT_STRING, |b|)], b, t);
    } else {
      var k := if |b| < 0x10000 then 2 else 4;
      LongBack(b, k, t);
      UnpackHead(TYPE_LONG_STRING, k, Bytes(|b|, k) + (b + t));
      Join4([Combine(TYPE_LONG_STRING, k)], Bytes(|b|, k), b, t);
    }
  }

  lemma NilBack(t: seq<byte>)
    ensures Unpack([Combine(TYPE_NIL, 0)] + t) == Got(Nil, t)
  {
    UnpackHead(TYPE_NIL, 0, t);
  }

  lemma ReadTable(s: seq<byte>, n: nat, s1: seq<byte>, items: seq<Value>, s2: seq<byte>, pairs: seq<Pair>, t: seq<byte>)
    requires s != [] && (s[0] as nat) % 8 == TYPE_TABLE && UnpackLength(s[1..], (s[0] as nat) / 8) == Got(n, s1)
    requires UnpackAll(s1, n) == Got(items, s2) && UnpackPairs(s2) == Got(pairs, t)
    ensures Unpack(s) == Got(Table(items, pairs), t)
  {
    var c := (s[0] as nat) / 8;
    assert UnpackTable(s[1..], c) == Got(Table(items, pairs), t);
    assert Unpack(s) == PushValue(s[1..], TYPE_TABLE, c);
  }

  lemma ReadPair(s: seq<byte>, k: Value, s1: seq<byte>, v: Value, s2: seq<byte>, ps: seq<Pair>, t: seq<byte>)
    requires Unpack(s) == Got(k, s1) && k != Nil && Unpack(s1) == Got(v, s2) && UnpackPairs(s2) == Got(ps, t)
    ensures UnpackPairs(s) == Got([Pair(k, v)] + ps, t)
  {
  }

  /** `luaseri_unpack` reads back what `luaseri_pack` wrote, whatever follows it. */
  lemma {:induction false} RoundTrip(v: Value, t: seq<byte>)
    requires Proper(v)
    ensures Unpack(Pack(v) + t) == Got(Strip(v), t)
    decreases v, 1
  {
    match v {
      case Nil => NilBack(t);
      case Boolean(b) => UnpackHead(TYPE_BOOLEAN, if b then 1 else 0, t);
      case Integer(n) => IntegerRead(n, t);
      case Real(b) =>
        TakeConcat(b, t);
        UnpackHead(TYPE_NUMBER, TYPE_NUMBER_REAL, b + t);
        Join3([Combine(TYPE_NUMBER, TYPE_NUMBER_REAL)], b, t);
      case Pointer(b) =>
        TakeConcat(b, t);
        UnpackHead(TYPE_USERDATA, 0, b + t);
        Join3([Combine(TYPE_USERDATA, 0)], b, t);
      case String(b) => StringBack(b, t);
      case Table(items, pairs) => TableBack(v, t);
    }
  }

  lemma {:induction false} TableBack(v: Value, t: seq<byte>)
    requires v.Table? && Proper(v)
    ensures Unpack(Pack(v) + t) == Got(Strip(v), t)
    decreases v, 0
  {
    var items, pairs := v.items, v.pairs;
    var t1 := PackPairs(pairs, |items|) + ([Combine(TYPE_NIL, 0)] + t);
    var t0 := PackAll(items) + t1;
    LengthBack(|items|, t0);
    AllBack(items, t1);
    PairsBack(pairs, |items|, t);
    ReadTable(PackHead(|items|) + t0, |items|, t0, StripAll(items), t1, StripPairs(pairs, |items|), t);
    Join5(PackHead(|items|), PackAll(items), PackPairs(pairs, |items|), [Combine(TYPE_NIL, 0)], t);
  }

  lemma {:induction false} AllBack(items: seq<Value>, t: seq<byte>)
    requires forall i :: 0 <= i < |items| ==> Proper(items[i])
    ensures UnpackAll(PackAll(items) + t, |items|) == Got(StripAll(items), t)
    decreases items
  {
    if items == [] {
      assert PackAll(items) + t == t;
    } else {
      RoundTrip(items[0], PackAll(items[1..]) + t);
      AllBack(items[1..], t);
      assert PackAll(items) + t == Pack(items[0]) + (PackAll(items[1..]) + t);
    }
  }

  lemma PairsJoin(pairs: seq<Pair>, n: nat, end: seq<byte>)
    requires pairs != [] && forall i :: 0 <= i < |pairs| ==> ProperPair(pairs[i])
    ensures var p, t := pairs[0], PackPairs(pairs[1..], n) + end;
      PackPairs(pairs, n) + end == if InArray(p.key, n) then t else Pack(p.key) + (Pack(p.value) + t)
  {
    var p, t := pairs[0], PackPairs(pairs[1..], n);
    if InArray(p.key, n) {
      assert [] + t == t;
    } else {
      Join4(Pack(p.key), Pack(p.value), t, end);
    }
  }

  lemma {:induction false} PairsBack(pairs: seq<Pair>, n: nat, t: seq<byte>)
    requires forall i :: 0 <= i < |pairs| ==> ProperPair(pairs[i])
    ensures UnpackPairs(PackPairs(pairs, n) + ([Combine(TYPE_NIL, 0)] + t)) == Got(StripPairs(pairs, n), t)
    decreases pairs
  {
    var end: seq<byte> := [Combine(TYPE_NIL, 0)] + t;
    if pairs == [] {
      NilBack(t);
      assert PackPairs(pairs, n) + end == end;
    } else {
      var p, t1 := pairs[0], PackPairs(pairs[1..], n) + end;
      PairsBack(pairs[1..], n, t);
      PairsJoin(pairs, n, end);
      if InArray(p.key, n) {
        assert StripPairs(pairs, n) == StripPairs(pairs[1..], n);
      } else {
        PairBack(p, t1);
        ReadPair(PackPairs(pairs, n) + end, Strip(p.key), Pack(p.value) + t1,
                 Strip(p.value), t1, StripPairs(pairs[1..], n), t);
      }
    }
  }

  lemma {:induction false} PairBack(p: Pair, t: seq<byte>)
    requires ProperPair(p)
    ensures Unpack(Pack(p.key) + (Pack(p.value) + t)) == Got(Strip(p.key), Pack(p.value) + t)
    ensures Unpack(Pack(p.value) + t) == Got(Strip(p.value), t) && Strip(p.key) != Nil
    decreases p
  {
    RoundTrip(p.key, Pack(p.value) + t);
    RoundTrip(p.value, t);
  }

  /** The list of values that a call packs. */
  lemma {:induction false} ListBack(vs: seq<Value>)
    requires forall i :: 0 <= i < |vs| ==> Proper(vs[i])
    ensures UnpackList(PackAll(vs)) == Some(StripAll(vs))
  {
    if vs != [] {
      RoundTrip(vs[0], PackAll(vs[1..]));
      ListBack(vs[1..]);
    }
  }

  /** `luaseri_unpack`: values up to the end. */
  function UnpackList(s: seq<byte>): Option<seq<Value>>
    decreases |s|
  {
    if s == [] then Some([]) else
      match Unpack(s)
      case Failed => None
      case Got(v, rest) =>
        match UnpackList(rest)
        case None => None
        case Some(vs) => Some([v] + vs)
  }

  // ---- Tables as maps ------------------------------------------------------------------------

  function Find(pairs: seq<Pair>, k: Value): Value
  {
    if pairs == [] then Nil else if pairs[0].key == k then pairs[0].value else Find(pairs[1..], k)
  }

  /** What a table holds at a key. */
  function Get(v: Value, k: Value): Value
    requires v.Table?
  {
    if InArray(k, |v.items|) then v.items[k.n - 1] else Find(v.pairs, k)
  }

  lemma {:induction false} StripAllAt(items: seq<Value>, i: nat)
    requires i < |items|
    ensures StripAll(items)[i] == Strip(items[i])
  {
    if i > 0 { StripAllAt(items[1..], i - 1); }
  }

  lemma {:induction false} FindStripped(pairs: seq<Pair>, n: nat, k: Value)
    requires !k.Table? && !InArray(k, n)
    ensures Find(StripPairs(pairs, n), k) == Strip(Find(pairs, k))
  {
    if pairs != [] {
      FindStripped(pairs[1..], n, k);
      var rest := StripPairs(pairs[1..], n);
      if InArray(pairs[0].key, n) {
        assert StripPairs(pairs, n) == rest;
      } else {
        var p := pairs[0];
        assert StripPair(p) == Pair(Strip(p.key), Strip(p.value)) && (Strip(p.key) == k <==> p.key == k);
        assert StripPairs(pairs, n) == [StripPair(p)] + rest && ([StripPair(p)] + rest)[1..] == rest;
      }
    }
  }

  /** What is unpacked holds at each key what was packed. */
  lemma SameTable(v: Value, k: Value)
    requires v.Table? && !k.Table?
    ensures Get(Strip(v), k) == Strip(Get(v, k))
  {
    if InArray(k, |v.items|) { StripAllAt(v.items, k.n - 1); } else { FindStripped(v.pairs, |v.items|, k); }
  }
}
