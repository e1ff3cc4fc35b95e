/** The JSON codec of `lua_cjson.c` on byte sequences, with its default settings: what is encoded is
  decoded to the same. */
module Cjson {
  import opened Basics

  const MAX_DEPTH: nat := 1000

  const SPARSE_RATIO: nat := 2

  const SPARSE_SAFE: nat := 10

  datatype Key = StringKey(s: seq<byte>) | IntegerKey(n: int)

  /** The values that have a text: `Null` is the light userdata that stands for null. An array is a
    table whose keys are all positive integers, with `Nil` at those up to the largest that are no
    keys; every other table, also the empty one, is an object, with its fields in the order of
    `lua_next`. A double is its text: the one that `sprintf` writes for it, and the one that `strtod` reads. */
  datatype Json =
    | Nil
    | Null
    | Boolean(b: bool)
    | Integer(n: int)
    | Double(text: seq<byte>)
    | String(s: seq<byte>)
    | Array(items: seq<Json>)
    | Object(members: seq<Member>)

  datatype Member = Member(key: Key, value: Json)

  predicate IsInt64(n: int) { -0x8000_0000_0000_0000 <= n < 0x8000_0000_0000_0000 }

  predicate Positive(k: Key) { k.IntegerKey? && k.n >= 1 }

  ghost predicate Proper(v: Json)
    decreases v
  {
    match v
    case Integer(n) => IsInt64(n)
    case Double(text) => FloatText(text)
    case Array(items) =>
      && items != [] && items[|items| - 1] != Nil
      && forall i :: 0 <= i < |items| ==> Proper(items[i])
    case Object(members) =>
      && (members == [] || exists i :: 0 <= i < |members| && !Positive(members[i].key))
      && forall i :: 0 <= i < |members| ==> ProperMember(members[i])
    case _ => true
  }

  ghost predicate ProperMember(m: Member)
    decreases m
  {
    && (m.key.IntegerKey? ==> IsInt64(m.key.n)) && m.value != Nil && Proper(m.value)
  }

  // ---- Encoding --------------------------------------------------------------------------------

  /** A hexadecimal digit in lower case. */
  function HexDigit(n: nat): byte
    requires n < 16
  {
    if n < 10 then 48 + n else 87 + n
  }

  /** `char2escape`, or the character itself. */
  function Escaped(c: byte): (r: seq<byte>)
    ensures 1 <= |r| <= 6
  {
    if c == 34 || c == 92 || c == 47 then [92, c]
    else if c == 8 then [92, 98]
    else if c == 9 then [92, 116]
    else if c == 10 then [92, 110]
    else if c == 12 then [92, 102]
    else if c == 13 then [92, 114]
    else if c < 32 || c == 127 then [92, 117, 48, 48, HexDigit(c / 16), HexDigit(c % 16)]
    else [c]
  }

  function EscapeAll(s: seq<byte>): (r: seq<byte>)
    ensures |r| <= 6 * |s|
  {
    if s == [] then [] else Escaped(s[0]) + EscapeAll(s[1..])
  }

  /** `json_append_string`. */
  function EncodeString(s: seq<byte>): seq<byte> { [34] + EscapeAll(s) + [34] }

  function Digits(n: nat): (r: seq<byte>)
    ensures r != []
  {
    if n < 10 then [48 + n] else Digits(n / 10) + [48 + n % 10]
  }

  /** What `sprintf` writes for an integer. */
  function Decimal(n: int): seq<byte> { if n < 0 then [45] + Digits(-n) else Digits(n) }

  const NULL_TEXT: seq<byte> := [110, 117, 108, 108]

  const TRUE_TEXT: seq<byte> := [116, 114, 117, 101]

  const FALSE_TEXT: seq<byte> := [102, 97, 108, 115, 101]

  function EncodeKey(k: Key): seq<byte>
  {
    match k
    case StringKey(s) => EncodeString(s) + [58]
    case IntegerKey(n) => [34] + Decimal(n) + [34, 58]
  }

  /** `json_append_data`, as far as it does not fail. */
  function Encode(v: Json): seq<byte>
    decreases v
  {
    match v
    case Nil => NULL_TEXT
    case Null => NULL_TEXT
    case Boolean(b) => if b then TRUE_TEXT else FALSE_TEXT
    case Integer(n) => Decimal(n)
    case Double(text) => text
    case String(s) => EncodeString(s)
    case Array(items) => [91] + EncodeItems(items) + [93]
    case Object(members) => [123] + EncodeMembers(members) + [125]
  }

  function EncodeItems(items: seq<Json>): seq<byte>
    decreases items
  {
    if items == [] then [] else
    Encode(items[0]) + if |items| == 1 then [] else [44] + EncodeItems(items[1..])
  }

  function EncodeMembers(members: seq<Member>): seq<byte>
    decreases members
  {
    if members == [] then [] else
    EncodeMember(members[0]) + if |members| == 1 then [] else [44] + EncodeMembers(members[1..])
  }

  function EncodeMember(m: Member): seq<byte>
    decreases m
  {
    EncodeKey(m.key) + Encode(m.value)
  }

  function Present(items: seq<Json>): nat
  {
    if items == [] then 0 else Present(items[..|items| - 1]) + if items[|items| - 1] == Nil then 0 else 1
  }

  /** `lua_array_length` refuses arrays that are mostly holes. */
  predicate Sparse(items: seq<Json>)
  {
    |items| > Present(items) * SPARSE_RATIO && |items| > SPARSE_SAFE
  }

  /** Encoding does not fail: nothing is nested too deep, and no array is too sparse. */
  predicate Encodable(v: Json, depth: nat)
    decreases v
  {
    match v
    case Array(items) =>
      depth < MAX_DEPTH && !Sparse(items) && forall i :: 0 <= i < |items| ==> Encodable(items[i], depth + 1)
    case Object(members) =>
      depth < MAX_DEPTH && forall i :: 0 <= i < |members| ==> EncodableMember(members[i], depth + 1)
    case _ => true
  }

  predicate EncodableMember(m: Member, depth: nat)
    decreases m
  {
    Encodable(m.value, depth)
  }

  // ---- Decoding strings ------------------------------------------------------------------------

  /** The character at the front; behind the text stands a zero. */
  function Peek(s: seq<byte>): byte { if s == [] then 0 else s[0] }

  function Skip(s: seq<byte>, n: nat): seq<byte> { if n <= |s| then s[n..] else [] }

  /** `hexdigit2int`. */
  function HexValue(c: byte): Option<nat>
  {
    if 48 <= c <= 57 then Some(c - 48)
    else if 97 <= c <= 102 then Some(c - 87)
    else if 65 <= c <= 70 then Some(c - 55)
    else None
  }

  /** `decode_hex4`. */
  function Hex4(s: seq<byte>): (r: Option<nat>)
    ensures r.Some? ==> |s| >= 4 && r.value < 0x1_0000
  {
    if |s| < 4 then None else
    var a, b, c, d := HexValue(s[0]), HexValue(s[1]), HexValue(s[2]), HexValue(s[3]);
    if a.None? || b.None? || c.None? || d.None? then None
    else Some(a.value * 4096 + b.value * 256 + c.value * 16 + d.value)
  }

  /** `codepoint_to_utf8`. */
  function Utf8(cp: nat): (r: seq<byte>)
    requires cp < 0x11_0000
    ensures 1 <= |r| <= 4 && (cp < 0x1_0000 ==> |r| <= 3)
  {
    if cp <= 0x7F then [cp]
    else if cp <= 0x7FF then [cp / 64 + 0xC0, cp % 64 + 0x80]
    else if cp <= 0xFFFF then [cp / 4096 + 0xE0, cp / 64 % 64 + 0x80, cp % 64 + 0x80]
    else [cp / 262144 + 0xF0, cp / 4096 % 64 + 0x80, cp / 64 % 64 + 0x80, cp % 64 + 0x80]
  }

  /** `json_append_unicode_escape`: the bytes that an escape beginning with `\u` stands for, and how
    long it is. A code unit of a surrogate pair must come with the other. */
  function Unicode(s: seq<byte>): (r: Option<(seq<byte>, nat)>)
    ensures r.Some? ==> 1 <= |r.value.0| <= 4 && |r.value.0| < r.value.1 <= |s|
  {
    match Hex4(Skip(s, 2))
    case None => None
    case Some(high) =>
      if !(0xD800 <= high < 0xE000) then Some((Utf8(high), 6))
      else if high >= 0xDC00 || Peek(Skip(s, 6)) != 92 || Peek(Skip(s, 7)) != 117 then None
      else
        match Hex4(Skip(s, 8))
        case None => None
        case Some(low) =>
          if !(0xDC00 <= low < 0xE000) then None
          else Some((Utf8((high - 0xD800) * 0x400 + (low - 0xDC00) + 0x1_0000), 12))
  }

  /** `escape2char`, but for `u`. */
  function Unescape(c: byte): Option<byte>
  {
    if c == 34 || c == 92 || c == 47 then Some(c)
    else if c == 98 then Some(8)
    else if c == 116 then Some(9)
    else if c == 110 then Some(10)
    else if c == 102 then Some(12)
    else if c == 114 then Some(13)
    else None
  }

  /** What stands at the front of a string: the bytes it means, and how many it takes. */
  function ReadChar(s: seq<byte>): (r: Option<(seq<byte>, nat)>)
    ensures r.Some? ==> 1 <= |r.value.0| <= r.value.1 <= |s|
  {
    if Peek(s) == 0 then None
    else if s[0] != 92 then Some(([s[0]], 1))
    else if Peek(s[1..]) == 117 then Unicode(s)
    else
      match Unescape(Peek(s[1..]))
      case None => None
      case Some(c) => Some(([c], 2))
  }

  /** `json_next_string_token`, behind the quote: the string, and what follows it. */
  function ReadString(s: seq<byte>): (r: Option<(seq<byte>, seq<byte>)>)
    ensures r.Some? ==> |r.value.0| + |r.value.1| < |s|
    decreases |s|
  {
    if Peek(s) == 34 then Some(([], s[1..])) else
    match ReadChar(s)
    case None => None
    case Some((bytes, n)) => Before(bytes, ReadString(s[n..]))
  }

  function Before(bytes: seq<byte>, r: Option<(seq<byte>, seq<byte>)>): Option<(seq<byte>, seq<byte>)>
  {
    if r.None? then None else Some((bytes + r.value.0, r.value.1))
  }

  lemma BeforeTwice(a: seq<byte>, b: seq<byte>, r: Option<(seq<byte>, seq<byte>)>)
    ensures Before(a, Before(b, r)) == Before(a + b, r)
  {
    if r.Some? { assert a + (b + r.value.0) == (a + b) + r.value.0; }
  }

  // ---- Decoding numbers ------------------------------------------------------------------------

  /** The value of a digit in base 16, or 16 of what is none. */
  function DigitOf(c: byte): nat
  {
    match HexValue(c)
    case None => 16
    case Some(d) => d
  }

  function Accumulate(s: seq<byte>, base: nat, acc: nat): (r: (nat, seq<byte>))
    requires base <= 16
    ensures |r.1| <= |s| && (s != [] && DigitOf(s[0]) < base ==> |r.1| < |s|)
    decreases |s|
  {
    if s != [] && DigitOf(s[0]) < base then Accumulate(s[1..], base, acc * base + DigitOf(s[0])) else (acc, s)
  }

  /** `strtoll` keeps to the range of its result. */
  function Signed(negative: bool, n: nat): int
  {
    var i: int := n;
    if negative then (if i > 0x8000_0000_0000_0000 then -0x8000_0000_0000_0000 else -i)
    else if i >= 0x8000_0000_0000_0000 then 0x7FFF_FFFF_FFFF_FFFF else i
  }

  /** `strtoll` with base 0: the number, and what follows it; nothing is taken when there is none. */
  function Strtoll(s: seq<byte>): (r: (int, seq<byte>))
    ensures |r.1| <= |s|
  {
    var negative := Peek(s) == 45;
    var t := if negative || Peek(s) == 43 then s[1..] else s;
    if IsHex(t) then
      var (n, rest) := Accumulate(Skip(t, 2), 16, 0);
      (Signed(negative, n), rest)
    else if t != [] && DigitOf(t[0]) < 10 then
      var (n, rest) := Accumulate(t, if t[0] == 48 then 8 else 10, 0);
      (Signed(negative, n), rest)
    else (0, s)
  }

  // ---- Decoding values -------------------------------------------------------------------------

  /** `TDouble` is a number with a fraction or an exponent. */
  datatype Token =
    | TObjBegin | TObjEnd | TArrBegin | TArrEnd
    | TString(s: seq<byte>) | TInteger(n: int) | TDouble(text: seq<byte>) | TBoolean(b: bool) | TNull
    | TColon | TComma | TEnd | TError

  predicate White(c: byte) { c == 32 || c == 9 || c == 10 || c == 13 }

  predicate Starts(s: seq<byte>, text: seq<byte>) { |text| <= |s| && s[..|text|] == text }

  /** How long the mark of an exponent is that begins here, with its sign; 0 when no digit follows. */
  function MarkSize(s: seq<byte>, mark: nat): (k: nat)
    ensures k <= |s|
  {
    var k := if Peek(Skip(s, 1)) == 43 || Peek(Skip(s, 1)) == 45 then 2 else 1;
    if s != [] && (s[0] == mark || mark - s[0] == 32) && DigitOf(Peek(Skip(s, k))) < 10 then k else 0
  }

  /** How far `strtod` goes: over digits (part 0), those behind a point (part 1), and those of an exponent. */
  function Scan(s: seq<byte>, base: nat, mark: nat, part: nat): (n: nat)
    ensures n <= |s| && (s != [] && DigitOf(s[0]) < 10 <= base ==> n > 0)
    decreases |s|
  {
    if s == [] then 0
    else if DigitOf(s[0]) < if part == 2 then 10 else base then 1 + Scan(s[1..], base, mark, part)
    else if part == 0 && s[0] == 46 then 1 + Scan(s[1..], base, mark, 1)
    else if part < 2 && MarkSize(s, mark) > 0 then
      MarkSize(s, mark) + Scan(s[MarkSize(s, mark)..], base, mark, 2)
    else 0
  }

  predicate IsHex(t: seq<byte>)
  {
    Peek(t) == 48 && (Peek(Skip(t, 1)) == 120 || Peek(Skip(t, 1)) == 88) && DigitOf(Peek(Skip(t, 2))) < 16
  }

  /** How long the number without its sign is that `strtod` takes. */
  function FloatSize(t: seq<byte>): (n: nat)
    ensures n <= |t| && (t != [] && DigitOf(t[0]) < 10 ==> n > 0)
  {
    if IsHex(t) then 2 + Scan(Skip(t, 2), 16, 112, 0) else Scan(t, 10, 101, 0)
  }

  function SignSize(s: seq<byte>): (n: nat)
    ensures n <= |s|
  {
    if Peek(s) == 45 || Peek(s) == 43 then 1 else 0
  }

  /** `strtod`, where `strtoll` found a number: the text it takes and what follows. */
  function Strtod(s: seq<byte>): (r: (seq<byte>, seq<byte>))
    ensures s == r.0 + r.1
  {
    var n := SignSize(s) + FloatSize(s[SignSize(s)..]);
    (s[..n], s[n..])
  }

  predicate Fractional(rest: seq<byte>) { Peek(rest) == 46 || Peek(rest) == 101 || Peek(rest) == 69 }

  /** `json_next_number_token`. */
  function NumberToken(s: seq<byte>): (r: (Token, seq<byte>))
    ensures |r.1| <= |s| && (r.0 != TError ==> |r.1| < |s|)
  {
    var (n, rest) := Strtoll(s);
    if |rest| == |s| then (TError, s)
    else if Fractional(rest) then var (text, rest') := Strtod(s); (TDouble(text), rest')
    else (TInteger(n), rest)
  }

  function Unsigned(text: seq<byte>): seq<byte> { if Peek(text) == 45 then text[1..] else text }

  /** Behind the first digits comes a point or an exponent. */
  predicate Halts(t: seq<byte>)
    decreases |t|
  {
    t != [] && if DigitOf(t[0]) < 10 then Halts(t[1..]) else Fractional(t)
  }

  /** What `sprintf` writes for a double that is not written as an integer: perhaps a minus, a decimal number
    without zeros in front, and all of it is what `strtod` takes. */
  predicate FloatText(text: seq<byte>)
  {
    var t := Unsigned(text);
    t != [] && 48 <= t[0] <= 57 && Halts(t) && (t[0] == 48 ==> Fractional(t[1..])) && Scan(t, 10, 101, 0) == |t|
  }

  /** `json_next_token`. */
  function NextToken(s: seq<byte>): (r: (Token, seq<byte>))
    ensures |r.1| <= |s| && (r.0 != TError && r.0 != TEnd ==> |r.1| < |s|)
    decreases |s|
  {
    var c := Peek(s);
    if c == 0 then (TEnd, s)
    else if White(c) then NextToken(s[1..])
    else if c == 123 then (TObjBegin, s[1..])
    else if c == 125 then (TObjEnd, s[1..])
    else if c == 91 then (TArrBegin, s[1..])
    else if c == 93 then (TArrEnd, s[1..])
    else if c == 44 then (TComma, s[1..])
    else if c == 58 then (TColon, s[1..])
    else if c == 34 then
      match ReadString(s[1..])
      case None => (TError, s)
      case Some((str, rest)) => (TString(str), rest)
    else if c == 45 || 48 <= c <= 57 || c == 43 then NumberToken(s)
    else if Starts(s, TRUE_TEXT) then (TBoolean(true), s[4..])
    else if Starts(s, FALSE_TEXT) then (TBoolean(false), s[5..])
    else if Starts(s, NULL_TEXT) then (TNull, s[4..])
    else (TError, s)
  }

  datatype Read<T> = Got(value: T, rest: seq<byte>) | Failed

  /** `json_process_value`. */
  function Value(t: Token, s: seq<byte>, depth: nat): (r: Read<Json>)
    ensures r.Got? ==> |r.rest| <= |s|
    decreases |s|, 1
  {
    match t
    case TString(str) => Got(String(str), s)
    case TInteger(n) => Got(Integer(n), s)
    case TBoolean(b) => Got(Boolean(b), s)
    case TNull => Got(Null, s)
    case TDouble(text) => Got(Double(text), s)
    case TArrBegin => ParseArray(s, depth)
    case TObjBegin => ParseObject(s, depth)
    case _ => Failed
  }

  /** `json_parse_array_context`. */
  function ParseArray(s: seq<byte>, depth: nat): (r: Read<Json>)
    ensures r.Got? ==> |r.rest| <= |s|
    decreases |s|, 0
  {
    if depth >= MAX_DEPTH then Failed else
    var (t, r) := NextToken(s);
    if t == TArrEnd then Got(Array([]), r)
    else if |r| == |s| then Failed
    else
      match Items(t, r, depth + 1)
      case Got(vs, rest) => Got(Array(vs), rest)
      case Failed => Failed
  }

  function Items(t: Token, s: seq<byte>, depth: nat): (r: Read<seq<Json>>)
    ensures r.Got? ==> |r.rest| <= |s|
    decreases |s|, 2
  {
    match Value(t, s, depth)
    case Failed => Failed
    case Got(v, s1) =>
      var (t2, s2) := NextToken(s1);
      if t2 == TArrEnd then Got([v], s2)
      else if t2 != TComma then Failed
      else
        var (t3, s3) := NextToken(s2);
        match Items(t3, s3, depth)
        case Got(vs, rest) => Got([v] + vs, rest)
        case Failed => Failed
  }

  /** `json_parse_object_context`. */
  function ParseObject(s: seq<byte>, depth: nat): (r: Read<Json>)
    ensures r.Got? ==> |r.rest| <= |s|
    decreases |s|, 0
  {
    if depth >= MAX_DEPTH then Failed else
    var (t, r) := NextToken(s);
    if t == TObjEnd then Got(Object([]), r)
    else if |r| == |s| then Failed
    else
      match Members(t, r, depth + 1)
      case Got(ms, rest) => Got(Object(ms), rest)
      case Failed => Failed
  }

  function Members(t: Token, s: seq<byte>, depth: nat): (r: Read<seq<Member>>)
    ensures r.Got? ==> |r.rest| <= |s|
    decreases |s|, 2
  {
    if !t.TString? then Failed else
    var (t1, s1) := NextToken(s);
    if t1 != TColon then Failed else
    var (t2, s2) := NextToken(s1);
    match Value(t2, s2, depth)
    case Failed => Failed
    case Got(v, s3) =>
      var (t4, s4) := NextToken(s3);
      if t4 == TObjEnd then Got([Member(StringKey(t.s), v)], s4)
      else if t4 != TComma then Failed
      else
        var (t5, s5) := NextToken(s4);
        match Members(t5, s5, depth)
        case Got(ms, rest) => Got([Member(StringKey(t.s), v)] + ms, rest)
        case Failed => Failed
  }

  /** Nothing may follow the value. */
  function Finished(r: Read<Json>): Read<Json>
  {
    if !r.Got? then r else
    var (t, rest) := NextToken(r.rest);
    if t == TEnd then Got(r.value, rest) else Failed
  }

  /** `json_decode`. */
  function Decode(s: seq<byte>): Read<Json>
  {
    if |s| >= 2 && (s[0] == 0 || s[1] == 0) then Failed else
    var (t, r) := NextToken(s);
    Finished(Value(t, r, 0))
  }

  // ---- Round trips: strings --------------------------------------------------------------------

  /** A character is read back from its escape. */
  lemma CharBack(c: byte, t: seq<byte>)
    ensures ReadChar(Escaped(c) + t) == Some(([c], |Escaped(c)|)) && Peek(Escaped(c) + t) != 34
  {
    var s := Escaped(c) + t;
    if |Escaped(c)| == 6 {
      HexBack(c, t);
    } else if |Escaped(c)| == 2 {
      assert s[0] == 92 && s[1..][0] == s[1];
    }
  }

  lemma HexBack(c: byte, t: seq<byte>)
    requires c < 32 || c == 127
    ensures Unicode([92, 117, 48, 48, HexDigit(c / 16), HexDigit(c % 16)] + t) == Some(([c], 6))
  {
    var s: seq<byte> := [92, 117, 48, 48, HexDigit(c / 16), HexDigit(c % 16)] + t;
    var u := Skip(s, 2);
    assert u[0] == 48 && u[1] == 48 && u[2] == HexDigit(c / 16) && u[3] == HexDigit(c % 16);
    assert HexValue(48) == Some(0);
    assert HexValue(HexDigit(c / 16)) == Some(c / 16) && HexValue(HexDigit(c % 16)) == Some(c % 16);
  }

  lemma Join3(a: seq<byte>, b: seq<byte>, c: seq<byte>)
    ensures a + b + c == a + (b + c)
  {
  }

  lemma Join4(a: seq<byte>, b: seq<byte>, c: seq<byte>, d: seq<byte>)
    ensures a + b + c + d == a + (b + c + d)
  {
  }

  lemma {:induction false} StringBack(s: seq<byte>, t: seq<byte>)
    ensures ReadString(EscapeAll(s) + [34] + t) == Some((s, t))
  {
    if s == [] {
      assert [] + [34] + t == [34] + t && ([34] + t)[1..] == t;
    } else {
      var e, more := Escaped(s[0]), EscapeAll(s[1..]) + [34] + t;
      Join4(e, EscapeAll(s[1..]), [34], t);
      StringBack(s[1..], t);
      CharBack(s[0], more);
      assert (e + more)[|e|..] == more;
      assert [s[0]] + s[1..] == s;
    }
  }

  /** A string is a token. */
  lemma StringToken(s: seq<byte>, t: seq<byte>)
    ensures NextToken(EncodeString(s) + t) == (TString(s), t)
  {
    var body := EscapeAll(s) + [34] + t;
    assert EncodeString(s) + t == [34] + body && ([34] + body)[1..] == body;
    StringBack(s, t);
    QuoteToken(s, body, t);
  }

  lemma QuoteToken(s: seq<byte>, body: seq<byte>, t: seq<byte>)
    requires ReadString(body) == Some((s, t))
    ensures NextToken([34] + body) == (TString(s), t)
  {
    assert ([34] + body)[1..] == body;
  }

  // ---- Round trips: integers -------------------------------------------------------------------

  /** What may stand behind a value. */
  predicate Ends(t: seq<byte>)
  {
    t == [] || t[0] == 0 || t[0] == 44 || t[0] == 93 || t[0] == 125 || White(t[0])
  }

  lemma {:induction false} DigitsPlain(n: nat)
    ensures forall k :: 0 <= k < |Digits(n)| ==> 48 <= Digits(n)[k] <= 57
    ensures n > 0 ==> Digits(n)[0] != 48
    ensures n == 0 ==> Digits(n) == [48]
  {
    if n >= 10 { DigitsPlain(n / 10); }
  }

  lemma AccumulateOne(d: byte, t: seq<byte>, base: nat, acc: nat)
    requires base <= 16 && DigitOf(d) < base
    ensures Accumulate([d] + t, base, acc) == Accumulate(t, base, acc * base + DigitOf(d))
  {
    assert ([d] + t)[1..] == t;
  }

  lemma {:induction false} DigitsBack(n: nat, u: seq<byte>)
    ensures Accumulate(Digits(n) + u, 10, 0) == Accumulate(u, 10, n)
  {
    if n < 10 {
      AccumulateOne(48 + n, u, 10, 0);
    } else {
      var d: byte := 48 + n % 10;
      DigitsBack(n / 10, [d] + u);
      Join3(Digits(n / 10), [d], u);
      AccumulateOne(d, u, 10, n / 10);
    }
  }

  lemma NoDigit(t: seq<byte>, base: nat, acc: nat)
    requires base <= 10 && Ends(t)
    ensures Accumulate(t, base, acc) == (acc, t)
  {
  }

  lemma PositiveBack(n: nat, t: seq<byte>)
    requires Ends(t)
    ensures var s := Digits(n) + t;
      && Peek(s) == Digits(n)[0] && 48 <= Peek(s) <= 57
      && Accumulate(s, if s[0] == 48 then 8 else 10, 0) == (n, t)
      && (Peek(s) == 48 ==> Peek(Skip(s, 1)) != 120 && Peek(Skip(s, 1)) != 88)
  {
    DigitsPlain(n);
    if n == 0 {
      assert Skip([48] + t, 1) == t;
      AccumulateOne(48, t, 8, 0);
      NoDigit(t, 8, 0);
    } else {
      DigitsBack(n, t);
      NoDigit(t, 10, n);
    }
  }

  lemma DecimalRead(n: int, t: seq<byte>)
    requires Ends(t)
    ensures Strtoll(Decimal(n) + t) == (Signed(n < 0, if n < 0 then -n else n), t)
  {
    var m: nat := if n < 0 then -n else n;
    PositiveBack(m, t);
    if n < 0 {
      Join3([45], Digits(m), t);
      assert (Decimal(n) + t)[1..] == Digits(m) + t;
    }
  }

  lemma IntegerBack(n: int, t: seq<byte>)
    requires IsInt64(n) && Ends(t)
    ensures Strtoll(Decimal(n) + t) == (n, t)
  {
    DecimalRead(n, t);
  }

  lemma IntegerToken(n: int, t: seq<byte>)
    requires IsInt64(n) && Ends(t)
    ensures NextToken(Decimal(n) + t) == (TInteger(n), t)
  {
    var s := Decimal(n) + t;
    DigitsPlain(if n < 0 then -n else n);
    assert Peek(s) == 45 || 48 <= Peek(s) <= 57;
    IntegerBack(n, t);
    assert NextToken(s) == NumberToken(s);
  }

  // ---- Round trips: doubles --------------------------------------------------------------------

  lemma MarkAppend(s: seq<byte>, u: seq<byte>)
    requires s != [] && MarkSize(s, 101) > 0
    ensures MarkSize(s + u, 101) == MarkSize(s, 101) && (s + u)[0] == s[0]
  {
    var k := MarkSize(s, 101);
    assert Skip(s, 1) == s[1..] && Skip(s + u, 1) == s[1..] + u;
    assert s[1..] != [] && Peek(s[1..] + u) == s[1];
    assert Skip(s, k) == s[k..] && Skip(s + u, k) == s[k..] + u;
    assert s[k..] != [] && Peek(s[k..] + u) == s[k];
  }

  lemma ScanEnds(u: seq<byte>, part: nat)
    requires Ends(u)
    ensures Scan(u, 10, 101, part) == 0
  {
  }

  /** One character, of the number or the point, further. */
  lemma ScanOne(s: seq<byte>, u: seq<byte>, part: nat, next: nat)
    requires s != [] && Scan(s[1..] + u, 10, 101, next) == |s| - 1
    requires if DigitOf(s[0]) < 10 then next == part else s[0] == 46 && part == 0 && next == 1
    ensures Scan(s + u, 10, 101, part) == |s|
  {
    assert (s + u)[1..] == s[1..] + u;
  }

  lemma ScanMark(s: seq<byte>, u: seq<byte>, part: nat, k: nat)
    requires s != [] && DigitOf(s[0]) >= 10 && !(part == 0 && s[0] == 46) && part < 2 && k == MarkSize(s, 101) > 0
    requires Scan(s[k..] + u, 10, 101, 2) == |s| - k
    ensures Scan(s + u, 10, 101, part) == |s|
  {
    MarkAppend(s, u);
    assert (s + u)[k..] == s[k..] + u;
  }

  /** A number that was taken whole is taken up to what ends it. */
  lemma {:induction false} ScanAppend(s: seq<byte>, u: seq<byte>, part: nat)
    requires Ends(u) && Scan(s, 10, 101, part) == |s|
    ensures Scan(s + u, 10, 101, part) == |s|
    decreases |s|
  {
    if s == [] {
      assert s + u == u;
      ScanEnds(u, part);
    } else if DigitOf(s[0]) < 10 {
      ScanAppend(s[1..], u, part);
      ScanOne(s, u, part, part);
    } else if part == 0 && s[0] == 46 {
      ScanAppend(s[1..], u, 1);
      ScanOne(s, u, 0, 1);
    } else {
      var k := MarkSize(s, 101);
      ScanAppend(s[k..], u, 2);
      ScanMark(s, u, part, k);
    }
  }

  /** `strtoll` stops in front of the point or the exponent. */
  lemma {:induction false} HaltsAt(t: seq<byte>, u: seq<byte>, acc: nat)
    requires Halts(t)
    ensures Fractional(Accumulate(t + u, 10, acc).1)
    decreases |t|
  {
    if DigitOf(t[0]) < 10 {
      HaltsAt(t[1..], u, acc * 10 + DigitOf(t[0]));
      assert (t + u)[1..] == t[1..] + u;
    }
  }

  lemma HaltsAtZero(t: seq<byte>, u: seq<byte>)
    requires t != [] && t[0] == 48 && Fractional(t[1..])
    ensures Accumulate(t + u, 8, 0).1 == t[1..] + u && Fractional(t[1..] + u) && !IsHex(t + u)
  {
    assert (t + u)[1..] == t[1..] + u && t[1..] != [] && Skip(t + u, 1) == t[1..] + u;
    assert Peek(t[1..] + u) == t[1];
  }

  /** The number without its sign. */
  lemma FloatRead(text: seq<byte>, u: seq<byte>)
    requires FloatText(text) && Ends(u)
    ensures var t := Unsigned(text);
      FloatSize(t + u) == |t| && !IsHex(t + u) && (t + u)[0] == t[0] && 48 <= t[0] <= 57
      && Fractional(Accumulate(t + u, if t[0] == 48 then 8 else 10, 0).1)
  {
    var t := Unsigned(text);
    ScanAppend(t, u, 0);
    if t[0] == 48 { HaltsAtZero(t, u); } else { HaltsAt(t, u, 0); }
  }

  lemma DoubleStrtoll(text: seq<byte>, u: seq<byte>)
    requires FloatText(text) && Ends(u)
    ensures var r := Strtoll(text + u).1; Fractional(r) && |r| < |text + u|
    ensures Strtod(text + u) == (text, u)
  {
    var t, s := Unsigned(text), text + u;
    FloatRead(text, u);
    if Peek(text) == 45 {
      assert s[1..] == t + u && SignSize(s) == 1;
    } else {
      assert s == t + u && SignSize(s) == 0 && s[0..] == s;
    }
    assert s[..|text|] == text && s[|text|..] == u;
  }

  lemma DoubleToken(text: seq<byte>, u: seq<byte>)
    requires FloatText(text) && Ends(u)
    ensures NextToken(text + u) == (TDouble(text), u)
  {
    DoubleStrtoll(text, u);
    var s := text + u;
    assert Peek(s) == 45 || 48 <= Peek(s) <= 57;
    assert NextToken(s) == NumberToken(s);
  }

  lemma {:induction false} Plain(s: seq<byte>)
    requires forall k :: 0 <= k < |s| ==> s[k] == 45 || 48 <= s[k] <= 57
    ensures EscapeAll(s) == s
  {
    if s != [] {
      Plain(s[1..]);
      assert Escaped(s[0]) == [s[0]] && [s[0]] + s[1..] == s;
    }
  }

  // ---- Round trips: values ---------------------------------------------------------------------

  /** What a key is read back as: numbers become strings. */
  function CanonKey(k: Key): Key { if k.IntegerKey? then StringKey(Decimal(k.n)) else k }

  /** What a value is read back as: a hole is a null. */
  function Canon(v: Json): Json
    decreases v
  {
    match v
    case Nil => Null
    case Array(items) => Array(CanonItems(items))
    case Object(members) => Object(CanonMembers(members))
    case _ => v
  }

  function CanonItems(items: seq<Json>): (r: seq<Json>)
    decreases items
  {
    if items == [] then [] else [Canon(items[0])] + CanonItems(items[1..])
  }

  function CanonMembers(members: seq<Member>): (r: seq<Member>)
    decreases members
  {
    if members == [] then [] else [CanonMember(members[0])] + CanonMembers(members[1..])
  }

  function CanonMember(m: Member): Member
    decreases m
  {
    Member(CanonKey(m.key), Canon(m.value))
  }

  function SingleToken(c: byte): Token
  {
    if c == 44 then TComma else if c == 58 then TColon else if c == 91 then TArrBegin
    else if c == 93 then TArrEnd else if c == 123 then TObjBegin else TObjEnd
  }

  lemma CharToken(c: byte, t: seq<byte>)
    requires c == 44 || c == 58 || c == 91 || c == 93 || c == 123 || c == 125
    ensures NextToken([c] + t) == (SingleToken(c), t)
  {
    assert ([c] + t)[1..] == t;
  }

  lemma WordToken(t: seq<byte>)
    ensures NextToken(NULL_TEXT + t) == (TNull, t)
    ensures NextToken(TRUE_TEXT + t) == (TBoolean(true), t) && NextToken(FALSE_TEXT + t) == (TBoolean(false), t)
  {
    assert Starts(NULL_TEXT + t, NULL_TEXT) && (NULL_TEXT + t)[4..] == t;
    assert Starts(TRUE_TEXT + t, TRUE_TEXT) && (TRUE_TEXT + t)[4..] == t;
    assert Starts(FALSE_TEXT + t, FALSE_TEXT) && (FALSE_TEXT + t)[5..] == t;
  }

  /** The text is read as the value, up to `t`. */
  ghost predicate ReadsAs(s: seq<byte>, depth: nat, v: Json, t: seq<byte>)
  {
    var (tok, r) := NextToken(s);
    |r| < |s| && tok != TArrEnd && tok != TObjEnd && Value(tok, r, depth) == Got(v, t)
  }

  lemma KeyToken(k: Key, t: seq<byte>)
    ensures NextToken(EncodeKey(k) + t) == (TString(CanonKey(k).s), [58] + t)
  {
    match k
    case StringKey(s) =>
      Join3(EncodeString(s), [58], t);
      StringToken(s, [58] + t);
    case IntegerKey(n) =>
      var d := Decimal(n);
      DigitsPlain(if n < 0 then -n else n);
      Plain(d);
      assert EncodeKey(k) + t == EncodeString(d) + ([58] + t);
      StringToken(d, [58] + t);
  }

  lemma Regroup(e: seq<byte>, more: seq<byte>, end: seq<byte>)
    ensures e + ([44] + more) + end == e + ([44] + (more + end))
    ensures e + [] + end == e + end
  {
  }

  predicate IsLeaf(v: Json) { !v.Array? && !v.Object? }

  /** The token that a value without parts is. */
  function LeafToken(v: Json): Token
    requires IsLeaf(v)
  {
    match v
    case Nil => TNull
    case Null => TNull
    case Boolean(b) => TBoolean(b)
    case Integer(n) => TInteger(n)
    case Double(text) => TDouble(text)
    case String(s) => TString(s)
  }

  lemma LeafValue(v: Json, t: seq<byte>, depth: nat)
    requires IsLeaf(v)
    ensures Value(LeafToken(v), t, depth) == Got(Canon(v), t) && LeafToken(v) != TArrEnd && LeafToken(v) != TObjEnd
  {
    match v
    case Nil =>
    case Null =>
    case Boolean(_) =>
    case Integer(_) =>
    case Double(_) =>
    case String(_) =>
  }

  lemma LeafReads(tok: Token, v: Json, s: seq<byte>, t: seq<byte>, depth: nat)
    requires NextToken(s) == (tok, t) && |t| < |s| && tok != TArrEnd && tok != TObjEnd
    requires Value(tok, t, depth) == Got(v, t)
    ensures ReadsAs(s, depth, v, t)
  {
  }

  lemma LeafParsed(v: Json, t: seq<byte>, depth: nat)
    requires Proper(v) && Ends(t) && IsLeaf(v)
    ensures ReadsAs(Encode(v) + t, depth, Canon(v), t)
  {
    match v {
      case Nil => WordToken(t);
      case Null => WordToken(t);
      case Boolean(_) => WordToken(t);
      case Integer(n) => IntegerToken(n, t);
      case Double(text) => DoubleToken(text, t);
      case String(s) => StringToken(s, t);
    }
    LeafValue(v, t, depth);
    LeafReads(LeafToken(v), Canon(v), Encode(v) + t, t, depth);
  }

  /** `json_decode` undoes `json_encode`, whatever follows. */
  lemma {:induction false} Parsed(v: Json, t: seq<byte>, depth: nat)
    requires Proper(v) && Encodable(v, depth) && Ends(t)
    ensures ReadsAs(Encode(v) + t, depth, Canon(v), t)
    decreases v, 2
  {
    match v
    case Array(items) => ArrayParsed(items, t, depth);
    case Object(members) => ObjectParsed(members, t, depth);
    case _ => LeafParsed(v, t, depth);
  }

  /** A list of values up to the bracket. */
  ghost predicate ItemsAt(s: seq<byte>, depth: nat, vs: seq<Json>, t: seq<byte>)
  {
    var (tok, r) := NextToken(s);
    |r| < |s| && tok != TArrEnd && Items(tok, r, depth) == Got(vs, t)
  }

  lemma ArrayAt(body: seq<byte>, depth: nat, vs: seq<Json>, t: seq<byte>)
    requires depth < MAX_DEPTH && ItemsAt(body, depth + 1, vs, t)
    ensures ReadsAs([91] + body, depth, Array(vs), t)
  {
    CharToken(91, body);
  }

  lemma LastItem(s: seq<byte>, depth: nat, v: Json, u: seq<byte>, t: seq<byte>)
    requires ReadsAs(s, depth, v, u) && NextToken(u) == (TArrEnd, t)
    ensures ItemsAt(s, depth, [v], t)
  {
  }

  lemma NextItem(s: seq<byte>, depth: nat, v: Json, u: seq<byte>, more: seq<byte>, vs: seq<Json>, t: seq<byte>)
    requires ReadsAs(s, depth, v, u) && NextToken(u) == (TComma, more) && ItemsAt(more, depth, vs, t)
    ensures ItemsAt(s, depth, [v] + vs, t)
  {
  }

  lemma {:induction false} ArrayParsed(items: seq<Json>, t: seq<byte>, depth: nat)
    requires Proper(Array(items)) && Encodable(Array(items), depth)
    ensures ReadsAs(Encode(Array(items)) + t, depth, Canon(Array(items)), t)
    decreases Array(items), 1
  {
    var body := EncodeItems(items);
    assert Encode(Array(items)) + t == [91] + (body + ([93] + t));
    ItemsParsed(items, t, depth + 1);
    ArrayAt(body + ([93] + t), depth, CanonItems(items), t);
  }

  lemma {:induction false} ItemsParsed(items: seq<Json>, t: seq<byte>, depth: nat)
    requires items != [] && forall i :: 0 <= i < |items| ==> Proper(items[i]) && Encodable(items[i], depth)
    ensures ItemsAt(EncodeItems(items) + ([93] + t), depth, CanonItems(items), t)
    decreases items, 0
  {
    var rest, end := items[1..], [93] + t;
    if rest == [] {
      Regroup(Encode(items[0]), [], end);
      CharToken(93, t);
      Parsed(items[0], end, depth);
      LastItem(Encode(items[0]) + end, depth, Canon(items[0]), end, t);
      assert CanonItems(items) == [Canon(items[0])];
    } else {
      var more := EncodeItems(rest) + end;
      Regroup(Encode(items[0]), EncodeItems(rest), end);
      CharToken(44, more);
      Parsed(items[0], [44] + more, depth);
      ItemsParsed(rest, t, depth);
      NextItem(Encode(items[0]) + ([44] + more), depth, Canon(items[0]), [44] + more, more, CanonItems(rest), t);
    }
  }

  /** A key, a colon and a value, with `u` behind them. */
  ghost predicate FieldAt(s: seq<byte>, depth: nat, m: Member, u: seq<byte>)
  {
    var (tok, r) := NextToken(s);
    && |r| < |s| && m.key.StringKey? && tok == TString(m.key.s)
    && NextToken(r).0 == TColon && ReadsAs(NextToken(r).1, depth, m.value, u)
  }

  /** A list of fields up to the brace. */
  ghost predicate FieldsAt(s: seq<byte>, depth: nat, ms: seq<Member>, t: seq<byte>)
  {
    var (tok, r) := NextToken(s);
    |r| < |s| && tok != TObjEnd && Members(tok, r, depth) == Got(ms, t)
  }

  lemma LastField(s: seq<byte>, depth: nat, m: Member, u: seq<byte>, t: seq<byte>)
    requires FieldAt(s, depth, m, u) && NextToken(u) == (TObjEnd, t)
    ensures FieldsAt(s, depth, [m], t)
  {
  }

  lemma NextField(s: seq<byte>, depth: nat, m: Member, u: seq<byte>, more: seq<byte>, ms: seq<Member>, t: seq<byte>)
    requires FieldAt(s, depth, m, u) && NextToken(u) == (TComma, more) && FieldsAt(more, depth, ms, t)
    ensures FieldsAt(s, depth, [m] + ms, t)
  {
  }

  lemma {:induction false} ObjectParsed(members: seq<Member>, t: seq<byte>, depth: nat)
    requires Proper(Object(members)) && Encodable(Object(members), depth)
    ensures ReadsAs(Encode(Object(members)) + t, depth, Canon(Object(members)), t)
    decreases Object(members), 1
  {
    var body := EncodeMembers(members) + ([125] + t);
    assert Encode(Object(members)) + t == [123] + body;
    CharToken(123, body);
    CharToken(125, t);
    if members == [] {
      assert body == [125] + t;
    } else {
      MembersParsed(members, t, depth + 1);
    }
  }

  lemma {:induction false} MembersParsed(members: seq<Member>, t: seq<byte>, depth: nat)
    requires members != []
    requires forall i :: 0 <= i < |members| ==> ProperMember(members[i]) && EncodableMember(members[i], depth)
    ensures FieldsAt(EncodeMembers(members) + ([125] + t), depth, CanonMembers(members), t)
    decreases members, 0
  {
    var m, rest, end := members[0], members[1..], [125] + t;
    if rest == [] {
      Regroup(EncodeMember(m), [], end);
      CharToken(125, t);
      MemberParsed(m, end, depth);
      LastField(EncodeMember(m) + end, depth, CanonMember(m), end, t);
      assert CanonMembers(members) == [CanonMember(m)];
    } else {
      var more := EncodeMembers(rest) + end;
      Regroup(EncodeMember(m), EncodeMembers(rest), end);
      CharToken(44, more);
      MemberParsed(m, [44] + more, depth);
      MembersParsed(rest, t, depth);
      NextField(EncodeMember(m) + ([44] + more), depth, CanonMember(m), [44] + more, more, CanonMembers(rest), t);
    }
  }

  lemma {:induction false} MemberParsed(m: Member, t: seq<byte>, depth: nat)
    requires ProperMember(m) && EncodableMember(m, depth) && Ends(t)
    ensures FieldAt(EncodeMember(m) + t, depth, CanonMember(m), t)
    decreases m, 3
  {
    var value := Encode(m.value) + t;
    Join3(EncodeKey(m.key), Encode(m.value), t);
    KeyToken(m.key, value);
    CharToken(58, value);
    Parsed(m.value, t, depth);
  }

  // ---- Round trips: whole texts ----------------------------------------------------------------

  lemma {:induction false} DigitsNoZero(n: nat)
    ensures 0 !in Digits(n)
  {
    if n >= 10 { DigitsNoZero(n / 10); }
  }

  lemma {:induction false} EscapesNoZero(s: seq<byte>)
    ensures 0 !in EscapeAll(s)
  {
    if s != [] { EscapesNoZero(s[1..]); }
  }

  lemma FloatNoZero(text: seq<byte>)
    requires FloatText(text)
    ensures text != [] && text[0] != 0 && (|text| > 1 ==> text[1] != 0)
  {
    var t := Unsigned(text);
    assert Halts(t) && DigitOf(t[0]) < 10 && Halts(t[1..]);
    assert t[1] == t[1..][0];
  }

  /** No text begins with a zero among its first two characters. */
  lemma NoZeroAhead(v: Json)
    requires Proper(v)
    ensures var s := Encode(v); s != [] && s[0] != 0 && (|s| > 1 ==> s[1] != 0)
  {
    match v
    case Integer(n) => DigitsNoZero(if n < 0 then -n else n);
    case String(s) => EscapesNoZero(s);
    case Double(text) => FloatNoZero(text);
    case Array(items) =>
      TextNoZero(items[0]);
      assert Encode(v)[1] == Encode(items[0])[0];
    case Object(members) =>
      if members != [] { assert Encode(v)[1] == EncodeMember(members[0])[0] == 34; }
    case _ =>
  }

  lemma TextNoZero(v: Json)
    requires Proper(v)
    ensures Encode(v) != [] && Encode(v)[0] != 0
  {
    match v
    case Integer(n) => DigitsNoZero(if n < 0 then -n else n);
    case _ =>
  }

  /** Decoding undoes encoding: for every value whose encoding does not fail, but that holes become
    nulls and number keys strings. */
  lemma DecodeEncode(v: Json)
    requires Proper(v) && Encodable(v, 0)
    ensures Decode(Encode(v)) == Got(Canon(v), [])
  {
    NoZeroAhead(v);
    assert Encode(v) + [] == Encode(v);
    Parsed(v, [], 0);
  }

  /** No array has a hole, and no table a number as key. */
  predicate Lasting(v: Json)
    decreases v
  {
    match v
    case Nil => false
    case Array(items) => forall i :: 0 <= i < |items| ==> Lasting(items[i])
    case Object(members) => forall i :: 0 <= i < |members| ==> LastingMember(members[i])
    case _ => true
  }

  predicate LastingMember(m: Member)
    decreases m
  {
    m.key.StringKey? && Lasting(m.value)
  }

  lemma {:induction false} ItemsLast(items: seq<Json>)
    ensures CanonItems(items) == items <==> forall i :: 0 <= i < |items| ==> Lasting(items[i])
    decreases items
  {
    if items != [] {
      CanonLasts(items[0]);
      ItemsLast(items[1..]);
      assert items == [items[0]] + items[1..];
      assert CanonItems(items)[1..] == CanonItems(items[1..]);
      assert forall i :: 1 <= i < |items| ==> items[i] == items[1..][i - 1];
    }
  }

  lemma {:induction false} MembersLast(members: seq<Member>)
    ensures CanonMembers(members) == members <==> forall i :: 0 <= i < |members| ==> LastingMember(members[i])
    decreases members
  {
    if members != [] {
      MemberLasts(members[0]);
      MembersLast(members[1..]);
      assert members == [members[0]] + members[1..];
      assert CanonMembers(members)[1..] == CanonMembers(members[1..]);
      assert forall i :: 1 <= i < |members| ==> members[i] == members[1..][i - 1];
    }
  }

  lemma {:induction false} MemberLasts(m: Member)
    ensures CanonMember(m) == m <==> LastingMember(m)
    decreases m
  {
    CanonLasts(m.value);
  }

  lemma {:induction false} CanonLasts(v: Json)
    ensures Canon(v) == v <==> Lasting(v)
    decreases v
  {
    match v
    case Array(items) => ItemsLast(items);
    case Object(members) => MembersLast(members);
    case _ =>
  }

  /** A value whose encoding does not fail comes back as it was if and only if no array in it has a hole and
    no table a number as key. */
  lemma BackExactly(v: Json)
    requires Proper(v) && Encodable(v, 0)
    ensures Decode(Encode(v)) == Got(v, []) <==> Lasting(v)
  {
    DecodeEncode(v);
    CanonLasts(v);
  }

  /** A whole text of digits is read as its number exactly if that fits in 64 bits, else as the nearest one
    that does. */
  lemma DecodeDigits(n: int)
    ensures var m := if n < -0x8000_0000_0000_0000 then -0x8000_0000_0000_0000
                     else if n > 0x7FFF_FFFF_FFFF_FFFF then 0x7FFF_FFFF_FFFF_FFFF else n;
      Decode(Decimal(n)) == Got(Integer(m), []) && (m == n <==> IsInt64(n))
  {
    DecimalRead(n, []);
    DigitsPlain(if n < 0 then -n else n);
    assert Decimal(n) + [] == Decimal(n);
    assert NextToken(Decimal(n)) == NumberToken(Decimal(n));
  }

  lemma OctalRead()
    ensures Accumulate([48, 49, 48], 8, 0) == (8, [])
  {
    var one: seq<byte> := [49, 48];
    assert [48] + one == [48, 49, 48] && [49] + [48] == one && [48] + [] == [48];
    AccumulateOne(48, one, 8, 0);
    AccumulateOne(49, [48], 8, 0);
    AccumulateOne(48, [], 8, 1);
    NoDigit([], 8, 8);
  }

  lemma OctalToken(s: seq<byte>)
    requires s == [48, 49, 48]
    ensures NextToken(s) == (TInteger(8), [])
  {
    OctalRead();
    assert Skip(s, 1) == [49, 48];
    assert Strtoll(s) == (8, []);
    assert NextToken(s) == NumberToken(s);
  }

  /** A number that begins with a zero is octal, though JSON has no such numbers: 010 is 8. */
  lemma DecodeOctal()
    ensures Decode([48, 49, 48]) == Got(Integer(8), [])
  {
    OctalToken([48, 49, 48]);
  }

  /** What a table holds at a key; of equal keys the last one counts. */
  function Field(members: seq<Member>, k: Key): Option<Json>
  {
    if members == [] then None else
    var rest := Field(members[1..], k);
    if rest.Some? then rest else if members[0].key == k then Some(members[0].value) else None
  }

  /** The last member with the key, or -1. */
  lemma {:induction false} FieldIs(members: seq<Member>, k: Key) returns (i: int)
    ensures -1 <= i < |members| && forall j :: i < j < |members| ==> members[j].key != k
    ensures i < 0 ==> Field(members, k) == None
    ensures i >= 0 ==> members[i].key == k && Field(members, k) == Some(members[i].value)
  {
    i := -1;
    if members != [] {
      var r := FieldIs(members[1..], k);
      assert forall j :: 0 < j < |members| ==> members[j] == members[1..][j - 1];
      i := if r >= 0 then r + 1 else if members[0].key == k then 0 else -1;
    }
  }

  lemma {:induction false} CanonAt(members: seq<Member>, i: nat)
    requires i < |members|
    ensures |CanonMembers(members)| == |members| && CanonMembers(members)[i] == CanonMember(members[i])
  {
    if i > 0 { CanonAt(members[1..], i - 1); } else if |members| > 1 { CanonAt(members[1..], 0); }
  }

  lemma DecimalOnce(m: int, n: int)
    requires IsInt64(m) && IsInt64(n) && Decimal(m) == Decimal(n)
    ensures m == n
  {
    IntegerBack(m, []);
    IntegerBack(n, []);
  }

  /** The number key at `i` has this text. */
  predicate Alike(members: seq<Member>, i: int, s: seq<byte>)
  {
    0 <= i < |members| && members[i].key.IntegerKey? && Decimal(members[i].key.n) == s
  }

  ghost predicate NumberKeys(members: seq<Member>)
  {
    forall i :: 0 <= i < |members| && members[i].key.IntegerKey? ==> IsInt64(members[i].key.n)
  }

  /** No member behind the place has the string as key. */
  ghost predicate NotBehind(members: seq<Member>, i: int, s: seq<byte>)
  {
    forall j :: 0 <= j && i < j < |members| ==> members[j].key != StringKey(s)
  }

  /** A field of a table, whose keys are all different, is there again at its string key, or still absent, if
    and only if no number key with this text comes behind it, unless with the same value. */
  lemma SameField(members: seq<Member>, s: seq<byte>)
    requires NumberKeys(members) && forall i, j :: 0 <= i < j < |members| ==> members[i].key != members[j].key
    ensures var before, after := Field(members, StringKey(s)), Field(CanonMembers(members), StringKey(s));
      (after == if before.None? then None else Some(Canon(before.value))) <==>
        forall i :: Alike(members, i, s) && NotBehind(members, i, s) ==>
          before.Some? && Canon(before.value) == Canon(members[i].value)
  {
    var canon, k := CanonMembers(members), StringKey(s);
    var last := FieldIs(canon, k);
    var own := FieldIs(members, k);
    if members == [] { return; }
    forall i | 0 <= i < |members| ensures |canon| == |members| && canon[i] == CanonMember(members[i]) {
      CanonAt(members, i);
    }
    forall i | Alike(members, i, s) ensures i <= last && canon[i].key == k {
      assert canon[i].key == k;
    }
    if last >= 0 && members[last].key.StringKey? {
      assert canon[last].key == members[last].key;
      assert own == last;
    } else if last >= 0 {
      assert Alike(members, last, s);
      forall j | last < j < |members| ensures members[j].key != k { assert canon[j].key != k; }
      assert NotBehind(members, last, s);
      forall i | Alike(members, i, s) ensures i == last { DecimalOnce(members[i].key.n, members[last].key.n); }
    }
  }

  /** A table with the string "1" and the number 1 as keys. */
  function Hidden(): seq<Member>
  {
    [Member(StringKey([49]), Boolean(true)), Member(IntegerKey(1), Boolean(false))]
  }

  /** Decoding what was encoded, the field at the string holds what was at the number. */
  lemma HiddenField()
    ensures Proper(Object(Hidden())) && Encodable(Object(Hidden()), 0)
    ensures Field(Hidden(), StringKey([49])) == Some(Boolean(true))
    ensures Decode(Encode(Object(Hidden()))) == Got(Object(CanonMembers(Hidden())), [])
    ensures Field(CanonMembers(Hidden()), StringKey([49])) == Some(Boolean(false))
  {
    var v := Object(Hidden());
    assert !Positive(Hidden()[0].key);
    assert EncodableMember(Hidden()[0], 1) && EncodableMember(Hidden()[1], 1);
    DecodeEncode(v);
    assert Decimal(1) == [49];
    assert Hidden()[1..][1..] == [];
    var canon := CanonMembers(Hidden());
    assert canon == [Member(StringKey([49]), Boolean(true)), Member(StringKey([49]), Boolean(false))];
    assert canon[1..][1..] == [];
  }

  /** The code point of a character in UTF-8. */
  function CodePoint(u: seq<nat>): nat
    requires 1 <= |u| <= 4
  {
    if |u| == 1 then u[0]
    else if |u| == 2 then u[0] % 32 * 64 + u[1] % 64
    else if |u| == 3 then u[0] % 16 * 4096 + u[1] % 64 * 64 + u[2] % 64
    else u[0] % 8 * 262144 + u[1] % 64 * 4096 + u[2] % 64 * 64 + u[3] % 64
  }

  lemma Continuation(x: nat)
    ensures (x % 64 + 0x80) % 64 == x % 64 && (x % 64 + 0x80) / 64 == 2
  {
  }

  lemma Sixes(cp: nat)
    ensures cp == cp / 64 * 64 + cp % 64 && cp / 64 == cp / 4096 * 64 + cp / 64 % 64
    ensures cp / 4096 == cp / 262144 * 64 + cp / 4096 % 64
  {
  }

  lemma Lead(x: nat)
    ensures x < 32 ==> (x + 0xC0) % 32 == x
    ensures x < 16 ==> (x + 0xE0) % 16 == x
    ensures x < 8 ==> (x + 0xF0) % 8 == x
  {
  }

  lemma Utf8Short(cp: nat)
    requires cp <= 0x7FF
    ensures CodePoint(Utf8(cp)) == cp && (|Utf8(cp)| > 1 ==> Utf8(cp)[1] / 64 == 2)
  {
    Sixes(cp);
    Lead(cp / 64);
    Continuation(cp);
  }

  lemma Utf8Long(cp: nat)
    requires 0x7FF < cp < 0x11_0000
    ensures CodePoint(Utf8(cp)) == cp && forall k :: 1 <= k < |Utf8(cp)| ==> Utf8(cp)[k] / 64 == 2
  {
    Sixes(cp);
    Continuation(cp);
    Continuation(cp / 64);
    Continuation(cp / 4096);
    if cp < 0x1_0000 { Lead(cp / 4096); } else { Lead(cp / 262144); }
  }

  /** An escape stands for its code point in UTF-8, in as many bytes as it needs. */
  lemma Utf8Exact(cp: nat)
    requires cp < 0x11_0000
    ensures CodePoint(Utf8(cp)) == cp
    ensures |Utf8(cp)| == if cp < 0x80 then 1 else if cp < 0x800 then 2 else if cp < 0x1_0000 then 3 else 4
    ensures forall k :: 1 <= k < |Utf8(cp)| ==> Utf8(cp)[k] / 64 == 2
  {
    if cp <= 0x7FF { Utf8Short(cp); } else { Utf8Long(cp); }
  }
}
