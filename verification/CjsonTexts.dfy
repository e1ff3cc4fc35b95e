/** All the ways to write a value in JSON that `json_decode` takes: spaces of four kinds around every token,
  and the escapes that `json_encode` never writes. */
module CjsonTexts {
  import opened Basics
  import opened Cjson
  import opened CjsonNumbers

  // ---- White space -----------------------------------------------------------------------------

  /** Tabs, newlines, carriage returns and spaces. */
  predicate Spaces(w: seq<byte>) { forall i :: 0 <= i < |w| ==> w[i] in {9, 10, 13, 32} }

  lemma SpaceSkipped(c: byte, s: seq<byte>)
    requires c in {9, 10, 13, 32}
    ensures NextToken([c] + s) == NextToken(s)
  {
    assert ([c] + s)[1..] == s;
  }

  lemma {:induction false} SpacesSkipped(w: seq<byte>, s: seq<byte>)
    requires Spaces(w)
    ensures NextToken(w + s) == NextToken(s)
    decreases |w|
  {
    if w == [] {
      assert w + s == s;
    } else {
      SpacesSkipped(w[1..], s);
      SpaceSkipped(w[0], w[1..] + s);
      assert w + s == [w[0]] + (w[1..] + s);
    }
  }

  // ---- Strings ---------------------------------------------------------------------------------

  /** A character of a string: as it is, with a letter behind a backslash, as a code unit, or as two that are a
    surrogate pair; the code units are four hexadecimal digits. */
  datatype Piece = Raw(c: byte) | Short(c: byte) | Unit(hex: seq<byte>) | Pair(high: seq<byte>, low: seq<byte>)

  predicate AreHex(h: seq<byte>) { |h| == 4 && forall i :: 0 <= i < 4 ==> Digit(h[i]).Some? }

  function UnitOf(h: seq<byte>): (u: nat)
    requires AreHex(h)
    ensures u < 0x1_0000
  {
    ((Digit(h[0]).value * 16 + Digit(h[1]).value) * 16 + Digit(h[2]).value) * 16 + Digit(h[3]).value
  }

  /** The letters that may stand behind a backslash, and what they mean. */
  function Letters(): map<byte, byte>
  {
    map[34 := 34, 92 := 92, 47 := 47, 98 := 8, 102 := 12, 110 := 10, 114 := 13, 116 := 9]
  }

  predicate Writable(p: Piece)
  {
    match p
    case Raw(c) => c != 34 && c != 92 && c != 0
    case Short(c) => c in Letters()
    case Unit(h) => AreHex(h) && !(0xD800 <= UnitOf(h) <= 0xDFFF)
    case Pair(h, l) => AreHex(h) && AreHex(l) && 0xD800 <= UnitOf(h) <= 0xDBFF && 0xDC00 <= UnitOf(l) <= 0xDFFF
  }

  function PieceText(p: Piece): (t: seq<byte>)
    ensures t != []
  {
    match p
    case Raw(c) => [c]
    case Short(c) => [92, c]
    case Unit(h) => [92, 117] + h
    case Pair(h, l) => [92, 117] + h + [92, 117] + l
  }

  /** The code point of a code unit or a pair. */
  function PointOf(p: Piece): (cp: nat)
    requires Writable(p) && (p.Unit? || p.Pair?)
    ensures cp < 0x11_0000
  {
    if p.Unit? then UnitOf(p.hex) else 0x1_0000 + (UnitOf(p.high) % 0x400) * 0x400 + UnitOf(p.low) % 0x400
  }

  /** The bytes that it means; those of a code point are its UTF-8 (see `Cjson.Utf8Exact`). */
  function PieceBytes(p: Piece): (b: seq<byte>)
  {
    match p
    case Raw(c) => [c]
    case Short(c) => if c in Letters() then [Letters()[c]] else []
    case _ => if Writable(p) then Utf8(PointOf(p)) else []
  }

  predicate AllWritable(ps: seq<Piece>) { forall i :: 0 <= i < |ps| ==> Writable(ps[i]) }

  function StringText(ps: seq<Piece>): seq<byte>
  {
    if ps == [] then [] else PieceText(ps[0]) + StringText(ps[1..])
  }

  function StringBytes(ps: seq<Piece>): seq<byte>
  {
    if ps == [] then [] else PieceBytes(ps[0]) + StringBytes(ps[1..])
  }

  lemma HexRead(h: seq<byte>, t: seq<byte>)
    requires AreHex(h)
    ensures Hex4(h + t) == Some(UnitOf(h))
  {
    forall i | 0 <= i < 4 ensures HexValue((h + t)[i]) == Digit(h[i]) {
      assert (h + t)[i] == h[i];
    }
  }

  lemma UnitRead(h: seq<byte>, t: seq<byte>)
    requires Writable(Unit(h))
    ensures Unicode([92, 117] + h + t) == Some((PieceBytes(Unit(h)), 6))
  {
    assert Skip([92, 117] + h + t, 2) == h + t;
    HexRead(h, t);
  }

  lemma PairSkips(h: seq<byte>, l: seq<byte>, t: seq<byte>)
    requires AreHex(h) && AreHex(l)
    ensures var s := [92, 117] + h + [92, 117] + l + t;
      && Skip(s, 2) == h + ([92, 117] + l + t) && Peek(Skip(s, 6)) == 92 && Peek(Skip(s, 7)) == 117
      && Skip(s, 8) == l + t
  {
    var s := [92, 117] + h + [92, 117] + l + t;
    assert Skip(s, 2) == h + ([92, 117] + l + t);
    assert Skip(s, 6) == [92, 117] + l + t && Skip(s, 7) == [117] + l + t;
    assert Skip(s, 8) == l + t;
  }

  lemma PairUnicode(s: seq<byte>, high: nat, low: nat)
    requires Hex4(Skip(s, 2)) == Some(high) && Hex4(Skip(s, 8)) == Some(low)
    requires 0xD800 <= high <= 0xDBFF && 0xDC00 <= low <= 0xDFFF && Peek(Skip(s, 6)) == 92 && Peek(Skip(s, 7)) == 117
    ensures Unicode(s) == Some((Utf8((high - 0xD800) * 0x400 + (low - 0xDC00) + 0x1_0000), 12))
  {
  }

  lemma PairPoint(p: Piece)
    requires p.Pair? && Writable(p)
    ensures PointOf(p) == (UnitOf(p.high) - 0xD800) * 0x400 + (UnitOf(p.low) - 0xDC00) + 0x1_0000
  {
    assert UnitOf(p.high) % 0x400 == UnitOf(p.high) - 0xD800 && UnitOf(p.low) % 0x400 == UnitOf(p.low) - 0xDC00;
  }

  lemma PairRead(h: seq<byte>, l: seq<byte>, t: seq<byte>)
    requires Writable(Pair(h, l))
    ensures Unicode([92, 117] + h + [92, 117] + l + t) == Some((PieceBytes(Pair(h, l)), 12))
  {
    PairSkips(h, l, t);
    HexRead(h, [92, 117] + l + t);
    HexRead(l, t);
    PairPoint(Pair(h, l));
    PairUnicode([92, 117] + h + [92, 117] + l + t, UnitOf(h), UnitOf(l));
  }

  lemma PieceRead(p: Piece, t: seq<byte>)
    requires Writable(p)
    ensures ReadChar(PieceText(p) + t) == Some((PieceBytes(p), |PieceText(p)|)) && Peek(PieceText(p) + t) != 34
  {
    var s := PieceText(p) + t;
    match p
    case Raw(c) =>
    case Short(c) => assert s[0] == 92 && Peek(s[1..]) == c;
    case Unit(h) =>
      assert s[0] == 92 && Peek(s[1..]) == 117;
      UnitRead(h, t);
    case Pair(h, l) =>
      assert s[0] == 92 && Peek(s[1..]) == 117;
      PairRead(h, l, t);
  }

  /** However a string is written, it is read as the bytes it means. */
  lemma {:induction false} StringRead(ps: seq<Piece>, t: seq<byte>)
    requires AllWritable(ps)
    ensures ReadString(StringText(ps) + ([34] + t)) == Some((StringBytes(ps), t))
    decreases |ps|
  {
    if ps == [] {
      assert [] + ([34] + t) == [34] + t && ([34] + t)[1..] == t;
    } else {
      var e, more := PieceText(ps[0]), StringText(ps[1..]) + ([34] + t);
      assert StringText(ps) + ([34] + t) == e + more;
      StringRead(ps[1..], t);
      PieceRead(ps[0], more);
      assert (e + more)[|e|..] == more;
    }
  }

  function Quoted(ps: seq<Piece>): seq<byte> { [34] + StringText(ps) + [34] }

  lemma QuotedToken(ps: seq<Piece>, t: seq<byte>)
    requires AllWritable(ps)
    ensures NextToken(Quoted(ps) + t) == (TString(StringBytes(ps)), t)
  {
    var body := StringText(ps) + ([34] + t);
    assert Quoted(ps) + t == [34] + body;
    StringRead(ps, t);
    QuoteToken(StringBytes(ps), body, t);
  }

  // ---- Values ----------------------------------------------------------------------------------

  /** A written value: spaces stand in front of every token. */
  datatype Doc =
    | Leaf(space: seq<byte>, text: seq<byte>, v: Json)
    | Text(space: seq<byte>, pieces: seq<Piece>)
    | List(space: seq<byte>, items: seq<Item>, close: seq<byte>)
    | Map(space: seq<byte>, fields: seq<Entry>, close: seq<byte>)

  /** `comma`: the spaces in front of the comma that follows, if there is one. */
  datatype Item = Item(doc: Doc, comma: seq<byte>)

  datatype Entry = Entry(space: seq<byte>, key: seq<Piece>, colon: seq<byte>, doc: Doc, comma: seq<byte>)

  /** The texts of `null`, `true`, `false`, and of numbers. */
  ghost predicate LeafText(text: seq<byte>, v: Json)
  {
    match v
    case Null => text == [110, 117, 108, 108]
    case Boolean(b) => text == if b then [116, 114, 117, 101] else [102, 97, 108, 115, 101]
    case Integer(i) => exists n :: GoodNumeral(n) && text == NumeralText(n) && i == NumeralValue(n)
    case Double(d) => text == d && exists f :: GoodFloat(f) && text == FloatWritten(f)
    case _ => false
  }

  ghost predicate Good(d: Doc, depth: nat)
    decreases d
  {
    && Spaces(d.space)
    && match d
       case Leaf(_, text, v) => LeafText(text, v)
       case Text(_, ps) => AllWritable(ps)
       case List(_, items, close) =>
         depth < 1000 && Spaces(close) && forall i :: 0 <= i < |items| ==> GoodItem(items[i], depth + 1)
       case Map(_, fields, close) =>
         depth < 1000 && Spaces(close) && forall i :: 0 <= i < |fields| ==> GoodEntry(fields[i], depth + 1)
  }

  ghost predicate GoodItem(i: Item, depth: nat)
    decreases i
  {
    Good(i.doc, depth) && Spaces(i.comma)
  }

  ghost predicate GoodEntry(e: Entry, depth: nat)
    decreases e
  {
    Spaces(e.space) && AllWritable(e.key) && Spaces(e.colon) && Good(e.doc, depth) && Spaces(e.comma)
  }

  function Written(d: Doc): seq<byte>
    decreases d
  {
    d.space +
    match d
    case Leaf(_, text, _) => text
    case Text(_, ps) => Quoted(ps)
    case List(_, items, close) => [91] + WrittenItems(items) + close + [93]
    case Map(_, fields, close) => [123] + WrittenEntries(fields) + close + [125]
  }

  function WrittenItems(items: seq<Item>): seq<byte>
    decreases items
  {
    if items == [] then [] else
    Written(items[0].doc) + if |items| == 1 then [] else items[0].comma + [44] + WrittenItems(items[1..])
  }

  function WrittenEntries(fields: seq<Entry>): seq<byte>
    decreases fields
  {
    if fields == [] then [] else
    WrittenEntry(fields[0]) + if |fields| == 1 then [] else fields[0].comma + [44] + WrittenEntries(fields[1..])
  }

  function WrittenEntry(e: Entry): seq<byte>
    decreases e
  {
    e.space + Quoted(e.key) + e.colon + [58] + Written(e.doc)
  }

  function Meaning(d: Doc): Json
    decreases d
  {
    match d
    case Leaf(_, _, v) => v
    case Text(_, ps) => String(StringBytes(ps))
    case List(_, items, _) => Array(MeaningItems(items))
    case Map(_, fields, _) => Object(MeaningEntries(fields))
  }

  function MeaningItems(items: seq<Item>): seq<Json>
    decreases items
  {
    if items == [] then [] else [MeaningItem(items[0])] + MeaningItems(items[1..])
  }

  function MeaningItem(i: Item): Json
    decreases i
  {
    Meaning(i.doc)
  }

  function MeaningEntries(fields: seq<Entry>): seq<Member>
    decreases fields
  {
    if fields == [] then [] else [MeaningEntry(fields[0])] + MeaningEntries(fields[1..])
  }

  function MeaningEntry(e: Entry): Member
    decreases e
  {
    Member(StringKey(StringBytes(e.key)), Meaning(e.doc))
  }

  // ---- Reading them ----------------------------------------------------------------------------

  /** The predicates of `Cjson`, closed. */
  ghost predicate Reads(s: seq<byte>, depth: nat, v: Json, t: seq<byte>)
  {
    forall n :: Look(n) ==> ReadsAs(s, depth, v, t)
  }

  ghost predicate ReadsItems(s: seq<byte>, depth: nat, vs: seq<Json>, t: seq<byte>)
  {
    forall n :: Look(n) ==> ItemsAt(s, depth, vs, t)
  }

  ghost predicate ReadsField(s: seq<byte>, depth: nat, m: Member, t: seq<byte>)
  {
    forall n :: Look(n) ==> FieldAt(s, depth, m, t)
  }

  ghost predicate ReadsFields(s: seq<byte>, depth: nat, ms: seq<Member>, t: seq<byte>)
  {
    forall n :: Look(n) ==> FieldsAt(s, depth, ms, t)
  }

  lemma SpacesEnd(w: seq<byte>, c: byte, t: seq<byte>)
    requires Spaces(w) && c in {44, 93, 125}
    ensures Ends(w + [c] + t) && NextToken(w + [c] + t) == (SingleToken(c), t)
  {
    assert w + [c] + t == w + ([c] + t);
    SpacesSkipped(w, [c] + t);
    CharToken(c, t);
  }

  lemma EndsSpaces(w: seq<byte>, c: byte, t: seq<byte>)
    requires Spaces(w) && c in {44, 93, 125}
    ensures Ends(w + [c] + t)
  {
  }

  lemma Behind(w: seq<byte>, s: seq<byte>, depth: nat, v: Json, t: seq<byte>)
    requires Spaces(w) && Reads(s, depth, v, t)
    ensures Reads(w + s, depth, v, t)
  {
    assert Look(0);
    SpacesSkipped(w, s);
  }

  lemma NumberFirst(n: Numeral, t: seq<byte>)
    requires GoodNumeral(n)
    ensures var s := NumeralText(n) + t; s != [] && NextToken(s) == NumberToken(s)
  {
    var s := NumeralText(n) + t;
    assert IsDigit(n.digits[0], BaseOf(n));
    if n.sign == [] && n.mark == [] { assert s[0] == n.digits[0]; }
    assert s[0] == 43 || s[0] == 45 || 48 <= s[0] <= 57;
  }

  lemma EndsStop(n: Numeral, t: seq<byte>)
    requires GoodNumeral(n) && Ends(t)
    ensures NumeralStops(n, t) && !Fractional(t)
  {
  }

  lemma LeafRead(text: seq<byte>, v: Json, t: seq<byte>, depth: nat)
    requires LeafText(text, v) && Ends(t)
    ensures Reads(text + t, depth, v, t)
  {
    match v {
      case Null => WordToken(t);
      case Boolean(_) => WordToken(t);
      case Integer(_) =>
        var n :| GoodNumeral(n) && text == NumeralText(n) && v.n == NumeralValue(n);
        EndsStop(n, t);
        NumeralRead(n, t);
        NumberFirst(n, t);
      case Double(_) =>
        var f :| GoodFloat(f) && text == FloatWritten(f);
        FloatTaken(f, t);
        Join3(NumeralText(f.whole), TailText(f), t);
        NumberFirst(f.whole, TailText(f) + t);
    }
    LeafValue(v, t, depth);
    LeafReads(LeafToken(v), v, text + t, t, depth);
  }

  lemma TextRead(ps: seq<Piece>, t: seq<byte>, depth: nat)
    requires AllWritable(ps)
    ensures Reads(Quoted(ps) + t, depth, String(StringBytes(ps)), t)
  {
    QuotedToken(ps, t);
    LeafValue(String(StringBytes(ps)), t, depth);
    LeafReads(TString(StringBytes(ps)), String(StringBytes(ps)), Quoted(ps) + t, t, depth);
  }

  lemma ListStarts(body: seq<byte>, depth: nat, v: Json, t: seq<byte>)
    requires ParseArray(body, depth) == Got(v, t)
    ensures Reads([91] + body, depth, v, t)
  {
    CharToken(91, body);
    assert Value(TArrBegin, body, depth) == ParseArray(body, depth);
    assert ReadsAs([91] + body, depth, v, t);
  }

  lemma MapStarts(body: seq<byte>, depth: nat, v: Json, t: seq<byte>)
    requires ParseObject(body, depth) == Got(v, t)
    ensures Reads([123] + body, depth, v, t)
  {
    CharToken(123, body);
    assert Value(TObjBegin, body, depth) == ParseObject(body, depth);
    assert ReadsAs([123] + body, depth, v, t);
  }

  lemma EmptyList(w: seq<byte>, t: seq<byte>, depth: nat)
    requires Spaces(w) && depth < MAX_DEPTH
    ensures Reads([91] + (w + [93] + t), depth, Array([]), t)
  {
    SpacesEnd(w, 93, t);
    ListStarts(w + [93] + t, depth, Array([]), t);
  }

  lemma EmptyMap(w: seq<byte>, t: seq<byte>, depth: nat)
    requires Spaces(w) && depth < MAX_DEPTH
    ensures Reads([123] + (w + [125] + t), depth, Object([]), t)
  {
    SpacesEnd(w, 125, t);
    MapStarts(w + [125] + t, depth, Object([]), t);
  }

  lemma ListAt(body: seq<byte>, depth: nat, vs: seq<Json>, t: seq<byte>)
    requires depth < MAX_DEPTH && ReadsItems(body, depth + 1, vs, t)
    ensures Reads([91] + body, depth, Array(vs), t)
  {
    assert Look(0);
    ArrayAt(body, depth, vs, t);
  }

  lemma ItemLast(s: seq<byte>, depth: nat, v: Json, close: seq<byte>, t: seq<byte>)
    requires Spaces(close) && Reads(s, depth, v, close + [93] + t)
    ensures ReadsItems(s, depth, [v], t)
  {
    assert Look(0);
    SpacesEnd(close, 93, t);
    LastItem(s, depth, v, close + [93] + t, t);
  }

  lemma ItemNext(s: seq<byte>, depth: nat, v: Json, comma: seq<byte>, more: seq<byte>, vs: seq<Json>, t: seq<byte>)
    requires Spaces(comma) && Reads(s, depth, v, comma + [44] + more) && ReadsItems(more, depth, vs, t)
    ensures ReadsItems(s, depth, [v] + vs, t)
  {
    assert Look(0);
    SpacesEnd(comma, 44, more);
    NextItem(s, depth, v, comma + [44] + more, more, vs, t);
  }

  lemma MapAt(body: seq<byte>, depth: nat, ms: seq<Member>, t: seq<byte>)
    requires depth < MAX_DEPTH && ReadsFields(body, depth + 1, ms, t)
    ensures Reads([123] + body, depth, Object(ms), t)
  {
    assert Look(0);
    MapStarts(body, depth, Object(ms), t);
  }

  lemma FieldLast(s: seq<byte>, depth: nat, m: Member, close: seq<byte>, t: seq<byte>)
    requires Spaces(close) && ReadsField(s, depth, m, close + [125] + t)
    ensures ReadsFields(s, depth, [m], t)
  {
    assert Look(0);
    SpacesEnd(close, 125, t);
    LastField(s, depth, m, close + [125] + t, t);
  }

  lemma FieldNext(s: seq<byte>, depth: nat, m: Member, comma: seq<byte>, more: seq<byte>, ms: seq<Member>, t: seq<byte>)
    requires Spaces(comma) && ReadsField(s, depth, m, comma + [44] + more) && ReadsFields(more, depth, ms, t)
    ensures ReadsFields(s, depth, [m] + ms, t)
  {
    assert Look(0);
    SpacesEnd(comma, 44, more);
    NextField(s, depth, m, comma + [44] + more, more, ms, t);
  }

  lemma KeyTokens(e: Entry, s: seq<byte>)
    requires Spaces(e.space) && AllWritable(e.key) && Spaces(e.colon)
    ensures var r := e.colon + ([58] + s);
      && NextToken(e.space + (Quoted(e.key) + r)) == (TString(StringBytes(e.key)), r) && NextToken(r) == (TColon, s)
  {
    var r := e.colon + ([58] + s);
    SpacesSkipped(e.space, Quoted(e.key) + r);
    QuotedToken(e.key, r);
    SpacesSkipped(e.colon, [58] + s);
    CharToken(58, s);
  }

  lemma KeyRead(e: Entry, s: seq<byte>, depth: nat, v: Json, u: seq<byte>)
    requires Spaces(e.space) && AllWritable(e.key) && Spaces(e.colon) && Reads(s, depth, v, u)
    ensures ReadsField(e.space + (Quoted(e.key) + (e.colon + ([58] + s))), depth,
                       Member(StringKey(StringBytes(e.key)), v), u)
  {
    assert Look(0);
    KeyTokens(e, s);
  }

  /** Every way to write a value is parsed as the value, up to what follows. */
  lemma {:induction false} DocRead(d: Doc, t: seq<byte>, depth: nat)
    requires Good(d, depth) && Ends(t)
    ensures Reads(Written(d) + t, depth, Meaning(d), t)
    decreases d, 2
  {
    match d
    case Leaf(w, text, v) =>
      LeafRead(text, v, t, depth);
      Behind(w, text + t, depth, v, t);
      assert Written(d) + t == w + (text + t);
    case Text(w, ps) =>
      TextRead(ps, t, depth);
      Behind(w, Quoted(ps) + t, depth, String(StringBytes(ps)), t);
      assert Written(d) + t == w + (Quoted(ps) + t);
    case List(_, _, _) => ListRead(d, t, depth);
    case Map(_, _, _) => MapRead(d, t, depth);
  }

  lemma {:induction false} ListRead(d: Doc, t: seq<byte>, depth: nat)
    requires d.List? && Good(d, depth)
    ensures Reads(Written(d) + t, depth, Meaning(d), t)
    decreases d, 1
  {
    var w, items, end := d.space, d.items, d.close + [93] + t;
    var body := WrittenItems(items) + end;
    assert Written(d) + t == w + ([91] + body);
    if items == [] {
      assert body == end && MeaningItems(items) == [];
      EmptyList(d.close, t, depth);
    } else {
      ItemsRead(items, d.close, t, depth + 1);
      ListAt(body, depth, MeaningItems(items), t);
    }
    assert Meaning(d) == Array(MeaningItems(items));
    Behind(w, [91] + body, depth, Meaning(d), t);
  }

  lemma {:induction false} ItemRead(i: Item, t: seq<byte>, depth: nat)
    requires GoodItem(i, depth) && Ends(t)
    ensures Reads(Written(i.doc) + t, depth, MeaningItem(i), t)
    decreases i, 3
  {
    DocRead(i.doc, t, depth);
  }

  lemma {:induction false} ItemsRead(items: seq<Item>, close: seq<byte>, t: seq<byte>, depth: nat)
    requires items != [] && Spaces(close) && forall i :: 0 <= i < |items| ==> GoodItem(items[i], depth)
    ensures ReadsItems(WrittenItems(items) + (close + [93] + t), depth, MeaningItems(items), t)
    decreases items, 0
  {
    var i, rest, end := items[0], items[1..], close + [93] + t;
    if rest == [] {
      EndsSpaces(close, 93, t);
      ItemRead(i, end, depth);
      ItemLast(Written(i.doc) + end, depth, MeaningItem(i), close, t);
      assert MeaningItems(items) == [MeaningItem(i)];
      assert WrittenItems(items) == Written(i.doc);
    } else {
      var more := WrittenItems(rest) + end;
      EndsSpaces(i.comma, 44, more);
      ItemRead(i, i.comma + [44] + more, depth);
      ItemsRead(rest, close, t, depth);
      ItemNext(Written(i.doc) + (i.comma + [44] + more), depth, MeaningItem(i), i.comma, more, MeaningItems(rest), t);
      MoreJoined(Written(i.doc), i.comma, WrittenItems(rest), end);
    }
  }

  lemma MoreJoined(a: seq<byte>, comma: seq<byte>, rest: seq<byte>, end: seq<byte>)
    ensures (a + (comma + [44] + rest)) + end == a + (comma + [44] + (rest + end))
  {
  }

  lemma {:induction false} EntryRead(e: Entry, u: seq<byte>, depth: nat)
    requires GoodEntry(e, depth) && Ends(u)
    ensures ReadsField(WrittenEntry(e) + u, depth, MeaningEntry(e), u)
    decreases e, 3
  {
    DocRead(e.doc, u, depth);
    KeyRead(e, Written(e.doc) + u, depth, Meaning(e.doc), u);
    EntryJoined(e.space, Quoted(e.key), e.colon, Written(e.doc), u);
  }

  lemma EntryJoined(a: seq<byte>, b: seq<byte>, c: seq<byte>, d: seq<byte>, u: seq<byte>)
    ensures (a + b + c + [58] + d) + u == a + (b + (c + ([58] + (d + u))))
  {
  }

  lemma {:induction false} MapRead(d: Doc, t: seq<byte>, depth: nat)
    requires d.Map? && Good(d, depth)
    ensures Reads(Written(d) + t, depth, Meaning(d), t)
    decreases d, 1
  {
    var w, fields, end := d.space, d.fields, d.close + [125] + t;
    var body := WrittenEntries(fields) + end;
    assert Written(d) + t == w + ([123] + body);
    if fields == [] {
      assert body == end && MeaningEntries(fields) == [];
      EmptyMap(d.close, t, depth);
    } else {
      EntriesRead(fields, d.close, t, depth + 1);
      MapAt(body, depth, MeaningEntries(fields), t);
    }
    assert Meaning(d) == Object(MeaningEntries(fields));
    Behind(w, [123] + body, depth, Meaning(d), t);
  }

  lemma {:induction false} EntriesRead(fields: seq<Entry>, close: seq<byte>, t: seq<byte>, depth: nat)
    requires fields != [] && Spaces(close) && forall i :: 0 <= i < |fields| ==> GoodEntry(fields[i], depth)
    ensures ReadsFields(WrittenEntries(fields) + (close + [125] + t), depth, MeaningEntries(fields), t)
    decreases fields, 0
  {
    var e, rest, end := fields[0], fields[1..], close + [125] + t;
    if rest == [] {
      EndsSpaces(close, 125, t);
      EntryRead(e, end, depth);
      FieldLast(WrittenEntry(e) + end, depth, MeaningEntry(e), close, t);
      assert MeaningEntries(fields) == [MeaningEntry(e)];
      assert WrittenEntries(fields) == WrittenEntry(e);
    } else {
      var more := WrittenEntries(rest) + end;
      EndsSpaces(e.comma, 44, more);
      EntryRead(e, e.comma + [44] + more, depth);
      EntriesRead(rest, close, t, depth);
      FieldNext(WrittenEntry(e) + (e.comma + [44] + more), depth, MeaningEntry(e), e.comma, more,
                MeaningEntries(rest), t);
      MoreJoined(WrittenEntry(e), e.comma, WrittenEntries(rest), end);
    }
  }

  // ---- No text begins with a zero --------------------------------------------------------------

  predicate First(s: seq<byte>) { s != [] && s[0] != 0 }

  predicate Clear(s: seq<byte>) { First(s) && (|s| > 1 ==> s[1] != 0) }

  lemma NumeralClear(n: Numeral)
    requires GoodNumeral(n)
    ensures forall i :: 0 <= i < |NumeralText(n)| ==> NumeralText(n)[i] != 0
  {
    assert forall i :: 0 <= i < |n.digits| ==> IsDigit(n.digits[i], BaseOf(n)) && n.digits[i] != 0;
  }

  lemma LeafClear(text: seq<byte>, v: Json)
    requires LeafText(text, v)
    ensures Clear(text)
  {
    match v
    case Integer(_) =>
      var n :| GoodNumeral(n) && text == NumeralText(n) && v.n == NumeralValue(n);
      NumeralClear(n);
    case Double(_) =>
      var f :| GoodFloat(f) && text == FloatWritten(f);
      NumeralClear(f.whole);
      if |NumeralText(f.whole)| == 1 { assert text[1] == TailText(f)[0]; }
    case _ =>
  }

  lemma SpaceClear(w: seq<byte>, s: seq<byte>)
    requires Spaces(w) && Clear(s)
    ensures Clear(w + s)
  {
  }

  lemma TextClear(ps: seq<Piece>)
    requires AllWritable(ps)
    ensures Clear(Quoted(ps))
  {
    if ps != [] { assert Quoted(ps)[1] == PieceText(ps[0])[0]; }
  }

  lemma {:induction false} WrittenClear(d: Doc, depth: nat)
    requires Good(d, depth)
    ensures Clear(Written(d))
    decreases d
  {
    match d
    case Leaf(w, text, v) =>
      LeafClear(text, v);
      SpaceClear(w, text);
    case Text(w, ps) =>
      TextClear(ps);
      SpaceClear(w, Quoted(ps));
    case List(w, items, close) =>
      var core := [91] + WrittenItems(items) + close + [93];
      if items != [] {
        assert GoodItem(items[0], depth + 1) && items[0].doc < d;
        WrittenClear(items[0].doc, depth + 1);
        assert core[1] == Written(items[0].doc)[0];
      } else {
        assert core == [91] + (close + [93]);
      }
      SpaceClear(w, core);
    case Map(w, fields, close) =>
      var core := [123] + WrittenEntries(fields) + close + [125];
      if fields != [] {
        assert GoodEntry(fields[0], depth + 1);
        var e := fields[0];
        assert WrittenEntry(e)[0] == (e.space + [34])[0];
        assert core[1] == WrittenEntry(e)[0];
      } else {
        assert core == [123] + (close + [125]);
      }
      SpaceClear(w, core);
  }

  /** What is behind the value: spaces, and perhaps a zero and anything. */
  predicate Over(w: seq<byte>, z: seq<byte>) { Spaces(w) && (z == [] || z[0] == 0) }

  lemma OverEnds(w: seq<byte>, z: seq<byte>)
    requires Over(w, z)
    ensures Ends(w + z) && NextToken(w + z) == (TEnd, z)
  {
    SpacesSkipped(w, z);
  }

  lemma ClearMore(s: seq<byte>, t: seq<byte>)
    requires Clear(s) && (t != [] && t[0] == 0 ==> |s| > 1)
    ensures Clear(s + t)
  {
  }

  /** Decoding any of the texts of a value gives the value. The source refuses a text whose second byte is zero. */
  lemma DecodeWritten(d: Doc, w: seq<byte>, z: seq<byte>)
    requires Good(d, 0) && Over(w, z) && (|Written(d) + w| == 1 ==> z == [])
    ensures Decode(Written(d) + w + z) == Got(Meaning(d), z)
  {
    DocRead(d, w + z, 0);
    OverEnds(w, z);
    OverJoined(Written(d), w, z);
    WrittenClear(d, 0);
    ClearMore(Written(d), w + z);
    assert Look(0);
  }

  lemma OverJoined(s: seq<byte>, w: seq<byte>, z: seq<byte>)
    ensures s + w + z == s + (w + z)
  {
  }
}
