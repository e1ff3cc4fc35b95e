/** `json_decode` takes nothing but the texts of `CjsonTexts`: whatever it decodes is one. */
module CjsonExact {
  import opened Basics
  import opened Cjson
  import opened CjsonNumbers
  import opened CjsonTexts

  // ---- Tokens ------------------------------------------------------------------------------------

  lemma {:induction false} SpacesAhead(s: seq<byte>) returns (w: seq<byte>, t: seq<byte>)
    ensures s == w + t && Spaces(w) && !White(Peek(t)) && NextToken(s) == NextToken(t)
    decreases |s|
  {
    if White(Peek(s)) {
      w, t := SpacesAhead(s[1..]);
      w := [s[0]] + w;
    } else {
      w, t := [], s;
    }
  }

  predicate IsSingle(tok: Token)
  {
    tok in {TObjBegin, TObjEnd, TArrBegin, TArrEnd, TComma, TColon}
  }

  lemma SingleText(s: seq<byte>)
    requires !White(Peek(s)) && IsSingle(NextToken(s).0)
    ensures s != [] && s == [s[0]] + NextToken(s).1 && s[0] in {123, 125, 91, 93, 44, 58}
    ensures NextToken(s).0 == SingleToken(s[0])
  {
  }

  /** A token of one character, with spaces in front of it. */
  lemma SingleOf(s: seq<byte>) returns (w: seq<byte>, c: byte)
    requires IsSingle(NextToken(s).0)
    ensures Spaces(w) && s == w + [c] + NextToken(s).1
    ensures c in {123, 125, 91, 93, 44, 58} && NextToken(s).0 == SingleToken(c)
  {
    var t;
    w, t := SpacesAhead(s);
    SingleText(t);
    c := t[0];
  }

  // ---- Strings -----------------------------------------------------------------------------------

  lemma HexOf(s: seq<byte>, k: nat) returns (h: seq<byte>)
    requires Hex4(Skip(s, k)).Some?
    ensures |s| >= k + 4 && h == s[k..k + 4] && AreHex(h) && Hex4(Skip(s, k)) == Some(UnitOf(h))
  {
    h := s[k..k + 4];
    forall i | 0 <= i < 4 ensures h[i] == Skip(s, k)[i] && HexValue(h[i]) == Digit(h[i]) { DigitSame(h[i]); }
  }

  lemma UnitPiece(s: seq<byte>) returns (p: Piece)
    requires Unicode(s).Some? && [92, 117] <= s
    ensures Writable(p) && PieceText(p) <= s
  {
    var h := HexOf(s, 2);
    assert s[..6] == [92, 117] + h;
    if 0xD800 <= UnitOf(h) < 0xE000 {
      var l := HexOf(s, 8);
      assert Peek(Skip(s, 6)) == s[6] && Peek(Skip(s, 7)) == s[7];
      assert s[6..12] == [s[6], s[7]] + l;
      p := Pair(h, l);
      assert s[..12] == s[..6] + s[6..12];
    } else {
      p := Unit(h);
    }
  }

  lemma PieceOf(s: seq<byte>) returns (p: Piece)
    requires ReadChar(s).Some? && Peek(s) != 34
    ensures Writable(p) && ReadChar(s) == Some((PieceBytes(p), |PieceText(p)|)) && PieceText(p) <= s
  {
    if s[0] != 92 {
      p := Raw(s[0]);
    } else if Peek(s[1..]) == 117 {
      p := UnitPiece(s);
    } else {
      p := Short(s[1]);
    }
    var n := |PieceText(p)|;
    assert s == PieceText(p) + s[n..];
    PieceRead(p, s[n..]);
  }

  lemma PieceAhead(p: Piece, ps: seq<Piece>, s: seq<byte>, rest: seq<byte>)
    requires PieceText(p) <= s && s[|PieceText(p)|..] == StringText(ps) + rest
    ensures s == StringText([p] + ps) + rest && StringBytes([p] + ps) == PieceBytes(p) + StringBytes(ps)
  {
    assert ([p] + ps)[1..] == ps;
    Join3(PieceText(p), StringText(ps), rest);
  }

  lemma {:induction false} PiecesOf(s: seq<byte>) returns (ps: seq<Piece>)
    requires ReadString(s).Some?
    ensures var (bytes, rest) := ReadString(s).value;
      AllWritable(ps) && StringBytes(ps) == bytes && s == StringText(ps) + ([34] + rest)
    decreases |s|
  {
    if Peek(s) == 34 {
      ps := [];
      assert s == [34] + s[1..];
    } else {
      var p := PieceOf(s);
      var n := |PieceText(p)|;
      var more := PiecesOf(s[n..]);
      PieceAhead(p, more, s, [34] + ReadString(s).value.1);
      ps := [p] + more;
    }
  }

  lemma StringOf(s: seq<byte>) returns (w: seq<byte>, ps: seq<Piece>)
    requires NextToken(s).0.TString?
    ensures Spaces(w) && AllWritable(ps) && s == w + (Quoted(ps) + NextToken(s).1)
    ensures NextToken(s).0 == TString(StringBytes(ps))
  {
    var t;
    w, t := SpacesAhead(s);
    ps := PiecesOf(t[1..]);
    QuotesJoined(t, StringText(ps), NextToken(s).1);
  }

  lemma QuotesJoined(t: seq<byte>, text: seq<byte>, rest: seq<byte>)
    requires t != [] && t[0] == 34 && t[1..] == text + ([34] + rest)
    ensures t == [34] + text + [34] + rest
  {
    assert t == [34] + t[1..];
  }

  // ---- Other tokens ------------------------------------------------------------------------------

  predicate IsLeafToken(tok: Token) { tok.TInteger? || tok.TDouble? || tok.TBoolean? || tok == TNull }

  /** What may follow a value. */
  predicate Followed(rest: seq<byte>) { NextToken(rest).0 in {TComma, TArrEnd, TObjEnd, TEnd} }

  lemma FollowedPlain(t: seq<byte>)
    requires Followed(t)
    ensures Peek(t) != 101 && Peek(t) != 69
  {
  }

  lemma NumberOfToken(s: seq<byte>) returns (text: seq<byte>, v: Json)
    requires (NumberToken(s).0.TInteger? || NumberToken(s).0.TDouble?) && Followed(NumberToken(s).1)
    ensures LeafText(text, v) && s == text + NumberToken(s).1 && LeafToken(v) == NumberToken(s).0
  {
    if NumberToken(s).0.TDouble? {
      var f, t := FloatOf(s);
      FollowedPlain(t);
      text, v := FloatWritten(f), Double(FloatWritten(f));
    } else {
      var n, t := StrtollText(s);
      text, v := NumeralText(n), Integer(NumeralValue(n));
    }
  }

  lemma WordOf(s: seq<byte>) returns (text: seq<byte>, v: Json)
    requires !White(Peek(s)) && (NextToken(s).0.TBoolean? || NextToken(s).0 == TNull)
    ensures LeafText(text, v) && s == text + NextToken(s).1 && LeafToken(v) == NextToken(s).0
  {
    if Starts(s, TRUE_TEXT) {
      text, v := TRUE_TEXT, Boolean(true);
    } else if Starts(s, FALSE_TEXT) {
      text, v := FALSE_TEXT, Boolean(false);
    } else {
      text, v := NULL_TEXT, Null;
    }
    assert s == s[..|text|] + s[|text|..];
  }

  lemma NumberIs(s: seq<byte>)
    requires !White(Peek(s)) && (NextToken(s).0.TInteger? || NextToken(s).0.TDouble?)
    ensures NextToken(s) == NumberToken(s)
  {
  }

  lemma LeafOf(s: seq<byte>) returns (w: seq<byte>, text: seq<byte>, v: Json)
    requires IsLeafToken(NextToken(s).0) && Followed(NextToken(s).1)
    ensures Spaces(w) && LeafText(text, v) && s == w + text + NextToken(s).1 && LeafToken(v) == NextToken(s).0
  {
    var t;
    w, t := SpacesAhead(s);
    if NextToken(t).0.TBoolean? || NextToken(t).0 == TNull {
      text, v := WordOf(t);
    } else {
      NumberIs(t);
      text, v := NumberOfToken(t);
    }
    Join3(w, text, NextToken(s).1);
  }

  // ---- Values ------------------------------------------------------------------------------------

  /** The text up to `rest` is read as the value; `NextToken` is hidden in the parts of the token. */
  ghost predicate TakenAs(s: seq<byte>, depth: nat, v: Json, rest: seq<byte>)
  {
    Value(NextToken(s).0, NextToken(s).1, depth) == Got(v, rest)
  }

  lemma TextDoc(s: seq<byte>, depth: nat, v: Json, rest: seq<byte>) returns (d: Doc)
    requires TakenAs(s, depth, v, rest) && NextToken(s).0.TString?
    ensures Good(d, depth) && s == Written(d) + rest && Meaning(d) == v
  {
    var w, ps := StringOf(s);
    d := Text(w, ps);
    Join3(w, Quoted(ps), rest);
  }

  lemma LeafDoc(s: seq<byte>, depth: nat, v: Json, rest: seq<byte>) returns (d: Doc)
    requires TakenAs(s, depth, v, rest) && IsLeafToken(NextToken(s).0) && Followed(rest)
    ensures Good(d, depth) && s == Written(d) + rest && Meaning(d) == v
  {
    var w, text, u := LeafOf(s);
    LeafValue(u, rest, depth);
    d := Leaf(w, text, u);
  }

  lemma {:induction false} DocOf(s: seq<byte>, depth: nat, v: Json, rest: seq<byte>) returns (d: Doc)
    requires TakenAs(s, depth, v, rest) && Followed(rest)
    ensures Good(d, depth) && s == Written(d) + rest && Meaning(d) == v
    decreases |s|, 1
  {
    var tok := NextToken(s).0;
    if tok.TString? {
      d := TextDoc(s, depth, v, rest);
    } else if IsLeafToken(tok) {
      d := LeafDoc(s, depth, v, rest);
    } else if tok == TArrBegin {
      d := ListOf(s, depth, v, rest);
    } else {
      d := MapOf(s, depth, v, rest);
    }
  }

  lemma {:induction false} ListOf(s: seq<byte>, depth: nat, v: Json, rest: seq<byte>) returns (d: Doc)
    requires TakenAs(s, depth, v, rest) && NextToken(s).0 == TArrBegin
    ensures Good(d, depth) && s == Written(d) + rest && Meaning(d) == v
    decreases |s|, 0
  {
    var w, c := SingleOf(s);
    var body := NextToken(s).1;
    assert ParseArray(body, depth) == Got(v, rest);
    if NextToken(body).0 == TArrEnd {
      var close, e := SingleOf(body);
      d := List(w, [], close);
      assert s == Written(d) + rest;
    } else {
      assert ItemsTaken(body, depth + 1, v.items, rest);
      var items, close := ItemsOf(body, depth + 1, v.items, rest);
      d := List(w, items, close);
      ListJoined(w, WrittenItems(items), close, rest);
    }
  }

  lemma ListJoined(w: seq<byte>, items: seq<byte>, close: seq<byte>, rest: seq<byte>)
    ensures w + [91] + (items + (close + [93] + rest)) == w + ([91] + items + close + [93]) + rest
  {
  }

  /** `Items` and `Members`, from the text in front of the first token, and closed. */
  ghost predicate ItemsTaken(s: seq<byte>, depth: nat, vs: seq<Json>, rest: seq<byte>)
  {
    forall n :: Look(n) ==> Items(NextToken(s).0, NextToken(s).1, depth) == Got(vs, rest)
  }

  ghost predicate MembersTaken(s: seq<byte>, depth: nat, ms: seq<Member>, rest: seq<byte>)
  {
    forall n :: Look(n) ==> Members(NextToken(s).0, NextToken(s).1, depth) == Got(ms, rest)
  }

  lemma ItemsParts(s: seq<byte>, depth: nat, vs: seq<Json>, rest: seq<byte>) returns (u: seq<byte>)
    requires ItemsTaken(s, depth, vs, rest)
    ensures vs != [] && TakenAs(s, depth, vs[0], u) && |u| <= |s| && Followed(u)
    ensures if NextToken(u).0 == TArrEnd then NextToken(u).1 == rest && vs == [vs[0]]
      else NextToken(u).0 == TComma && ItemsTaken(NextToken(u).1, depth, vs[1..], rest)
  {
    assert Look(0);
    var r := NextToken(s);
    u := Value(r.0, r.1, depth).rest;
    if NextToken(u).0 == TComma {
      var r3 := NextToken(NextToken(u).1);
      assert vs[1..] == Items(r3.0, r3.1, depth).value;
    }
  }

  lemma {:induction false} ItemsOf(s: seq<byte>, depth: nat, vs: seq<Json>, rest: seq<byte>)
    returns (items: seq<Item>, close: seq<byte>)
    requires ItemsTaken(s, depth, vs, rest)
    ensures items != [] && Spaces(close) && forall i :: 0 <= i < |items| ==> GoodItem(items[i], depth)
    ensures s == WrittenItems(items) + (close + [93] + rest) && MeaningItems(items) == vs
    decreases |s|, 2
  {
    var u := ItemsParts(s, depth, vs, rest);
    var d := DocOf(s, depth, vs[0], u);
    var w, c := SingleOf(u);
    if NextToken(u).0 == TArrEnd {
      items, close := [Item(d, [])], w;
      ItemAlone(items[0]);
    } else {
      var u2 := NextToken(u).1;
      var more, end := ItemsOf(u2, depth, vs[1..], rest);
      items, close := [Item(d, w)] + more, end;
      ItemAhead(Item(d, w), more);
      MoreAhead(Written(d), w, WrittenItems(more), end + [93] + rest);
      assert vs == [vs[0]] + vs[1..];
    }
  }

  lemma ItemAlone(i: Item)
    ensures WrittenItems([i]) == Written(i.doc) && MeaningItems([i]) == [Meaning(i.doc)]
  {
  }

  lemma ItemAhead(i: Item, more: seq<Item>)
    requires more != []
    ensures WrittenItems([i] + more) == Written(i.doc) + (i.comma + [44] + WrittenItems(more))
    ensures MeaningItems([i] + more) == [Meaning(i.doc)] + MeaningItems(more)
  {
    assert ([i] + more)[1..] == more;
  }

  lemma MoreAhead(a: seq<byte>, comma: seq<byte>, more: seq<byte>, end: seq<byte>)
    ensures a + (comma + [44] + (more + end)) == a + (comma + [44] + more) + end
  {
  }

  lemma {:induction false} MapOf(s: seq<byte>, depth: nat, v: Json, rest: seq<byte>) returns (d: Doc)
    requires TakenAs(s, depth, v, rest) && NextToken(s).0 == TObjBegin
    ensures Good(d, depth) && s == Written(d) + rest && Meaning(d) == v
    decreases |s|, 0
  {
    var w, c := SingleOf(s);
    var body := NextToken(s).1;
    assert ParseObject(body, depth) == Got(v, rest);
    if NextToken(body).0 == TObjEnd {
      var close, e := SingleOf(body);
      d := Map(w, [], close);
      assert s == Written(d) + rest;
    } else {
      assert MembersTaken(body, depth + 1, v.members, rest);
      var fields, close := EntriesOf(body, depth + 1, v.members, rest);
      d := Map(w, fields, close);
      MapJoined(w, WrittenEntries(fields), close, rest);
    }
  }

  lemma MapJoined(w: seq<byte>, fields: seq<byte>, close: seq<byte>, rest: seq<byte>)
    ensures w + [123] + (fields + (close + [125] + rest)) == w + ([123] + fields + close + [125]) + rest
  {
  }

  lemma MembersParts(s: seq<byte>, depth: nat, ms: seq<Member>, rest: seq<byte>) returns (u: seq<byte>)
    requires MembersTaken(s, depth, ms, rest)
    ensures NextToken(s).0.TString? && NextToken(NextToken(s).1).0 == TColon
    ensures ms != [] && ms[0].key == StringKey(NextToken(s).0.s)
    ensures var v := NextToken(NextToken(s).1).1; TakenAs(v, depth, ms[0].value, u) && |u| <= |v|
    ensures Followed(u)
    ensures if NextToken(u).0 == TObjEnd then NextToken(u).1 == rest && ms == [ms[0]]
      else NextToken(u).0 == TComma && MembersTaken(NextToken(u).1, depth, ms[1..], rest)
  {
    assert Look(0);
    var r := NextToken(NextToken(NextToken(s).1).1);
    u := Value(r.0, r.1, depth).rest;
    if NextToken(u).0 == TComma {
      var r5 := NextToken(NextToken(u).1);
      assert ms[1..] == Members(r5.0, r5.1, depth).value;
    }
  }

  lemma KeyOf(s: seq<byte>) returns (space: seq<byte>, key: seq<Piece>, colon: seq<byte>)
    requires NextToken(s).0.TString? && NextToken(NextToken(s).1).0 == TColon
    ensures Spaces(space) && AllWritable(key) && Spaces(colon) && NextToken(s).0.s == StringBytes(key)
    ensures s == space + (Quoted(key) + (colon + [58] + NextToken(NextToken(s).1).1))
  {
    var c;
    space, key := StringOf(s);
    colon, c := SingleOf(NextToken(s).1);
  }

  lemma {:induction false} EntriesOf(s: seq<byte>, depth: nat, ms: seq<Member>, rest: seq<byte>)
    returns (fields: seq<Entry>, close: seq<byte>)
    requires MembersTaken(s, depth, ms, rest)
    ensures fields != [] && Spaces(close) && forall i :: 0 <= i < |fields| ==> GoodEntry(fields[i], depth)
    ensures s == WrittenEntries(fields) + (close + [125] + rest) && MeaningEntries(fields) == ms
    decreases |s|, 2
  {
    var u := MembersParts(s, depth, ms, rest);
    var space, key, colon := KeyOf(s);
    var d := DocOf(NextToken(NextToken(s).1).1, depth, ms[0].value, u);
    var w, c := SingleOf(u);
    if NextToken(u).0 == TObjEnd {
      var e := Entry(space, key, colon, d, []);
      fields, close := [e], w;
      EntryWritten(e, u);
      EntryAlone(e);
    } else {
      var e := Entry(space, key, colon, d, w);
      var more, end := EntriesOf(NextToken(u).1, depth, ms[1..], rest);
      fields, close := [e] + more, end;
      EntryWritten(e, u);
      EntryAhead(e, more);
      MoreAhead(WrittenEntry(e), w, WrittenEntries(more), end + [125] + rest);
      assert ms == [ms[0]] + ms[1..];
    }
  }

  lemma EntryWritten(e: Entry, u: seq<byte>)
    ensures e.space + (Quoted(e.key) + (e.colon + [58] + (Written(e.doc) + u))) == WrittenEntry(e) + u
  {
  }

  lemma EntryAlone(e: Entry)
    ensures WrittenEntries([e]) == WrittenEntry(e) && MeaningEntries([e]) == [MeaningEntry(e)]
  {
  }

  lemma EntryAhead(e: Entry, more: seq<Entry>)
    requires more != []
    ensures WrittenEntries([e] + more) == WrittenEntry(e) + (e.comma + [44] + WrittenEntries(more))
    ensures MeaningEntries([e] + more) == [MeaningEntry(e)] + MeaningEntries(more)
  {
    assert ([e] + more)[1..] == more;
  }

  // ---- Whole texts -------------------------------------------------------------------------------

  lemma DecodeParts(s: seq<byte>) returns (rest: seq<byte>)
    requires Decode(s).Got?
    ensures TakenAs(s, 0, Decode(s).value, rest) && NextToken(rest).0 == TEnd
  {
    rest := Value(NextToken(s).0, NextToken(s).1, 0).rest;
  }

  lemma EndIs(z: seq<byte>)
    requires NextToken(z).0 == TEnd && !White(Peek(z))
    ensures z == [] || z[0] == 0
  {
  }

  lemma DecodedText(s: seq<byte>) returns (d: Doc, w: seq<byte>, z: seq<byte>)
    requires Decode(s).Got?
    ensures Good(d, 0) && Over(w, z) && s == Written(d) + w + z && Meaning(d) == Decode(s).value
  {
    var rest := DecodeParts(s);
    d := DocOf(s, 0, Decode(s).value, rest);
    w, z := SpacesAhead(rest);
    EndIs(z);
    Join3(Written(d), w, z);
  }

  /** `s` is a text of `v`: what is behind its value, and the first zero, does not matter. Neither of the first
    two bytes may be zero. */
  ghost predicate IsText(s: seq<byte>, v: Json)
  {
    && !(|s| >= 2 && (s[0] == 0 || s[1] == 0))
    && exists d, w, z :: Good(d, 0) && Over(w, z) && s == Written(d) + w + z && Meaning(d) == v
  }

  /** What `json_decode` accepts are exactly the texts, and it gives the value that was written. */
  lemma DecodeExactly(s: seq<byte>, v: Json)
    ensures Decode(s).Got? && Decode(s).value == v <==> IsText(s, v)
  {
    if Decode(s).Got? {
      var d, w, z := DecodedText(s);
    }
    if IsText(s, v) {
      var d, w, z :| Good(d, 0) && Over(w, z) && s == Written(d) + w + z && Meaning(d) == v;
      WrittenClear(d, 0);
      assert z != [] ==> s[|Written(d) + w|] == z[0];
      DecodeWritten(d, w, z);
    }
  }

  // ---- What is encoded ---------------------------------------------------------------------------

  /** The characters that are written as they are: from the space up, but for the quote, the backslash, the slash and
    the one behind the tilde. */
  predicate Verbatim(c: byte) { c >= 32 && c !in {34, 47, 92, 127} }

  /** Every other character is escaped: by a letter if it has one, or else by four digits in lower case. */
  lemma EscapedExactly(c: byte)
    ensures Verbatim(c) ==> Escaped(c) == PieceText(Raw(c))
    ensures forall l: byte :: l in Letters() && Letters()[l] == c ==> Escaped(c) == PieceText(Short(l))
    ensures !Verbatim(c) && (forall l: byte :: l in Letters() ==> Letters()[l] != c) ==>
      exists h :: AreHex(h) && UnitOf(h) == c && Escaped(c) == PieceText(Unit(h))
        && forall i :: 0 <= i < 4 ==> 48 <= h[i] <= 57 || 97 <= h[i] <= 102
  {
    if !Verbatim(c) && forall l: byte :: l in Letters() ==> Letters()[l] != c {
      assert 47 in Letters() && 34 in Letters() && 92 in Letters() && 98 in Letters();
      assert 116 in Letters() && 110 in Letters() && 102 in Letters() && 114 in Letters();
      var h: seq<byte> := [48, 48, HexDigit(c / 16), HexDigit(c % 16)];
      assert AreHex(h) && UnitOf(h) == c && Escaped(c) == PieceText(Unit(h));
    }
  }

  /** From a value to the one that is `path[0]`-th in it, and so on. */
  ghost predicate At(v: Json, path: seq<nat>, w: Json)
    decreases path
  {
    if path == [] then v == w
    else if v.Array? then path[0] < |v.items| && At(v.items[path[0]], path[1..], w)
    else v.Object? && path[0] < |v.members| && At(v.members[path[0]].value, path[1..], w)
  }

  /** More than ten places, and less than half of them hold something. */
  ghost predicate MostlyHoles(items: seq<Json>)
  {
    |items| > 10 && 2 * |set i | 0 <= i < |items| && items[i] != Nil| < |items|
  }

  /** `w` may stand `depth` levels deep. */
  ghost predicate Fits(w: Json, depth: nat)
  {
    (w.Array? || w.Object? ==> depth < 1000) && (w.Array? ==> !MostlyHoles(w.items))
  }

  lemma {:induction false} PresentCounts(items: seq<Json>)
    ensures Present(items) == |set i | 0 <= i < |items| && items[i] != Nil|
  {
    var all := set i | 0 <= i < |items| && items[i] != Nil;
    if items != [] {
      var n := |items| - 1;
      var front := items[..n];
      PresentCounts(front);
      var some := set i | 0 <= i < n && front[i] != Nil;
      assert some == all - {n};
    }
  }

  /** What stands in the parts of a value stands in the value. */
  lemma PartsFit(v: Json, k: nat, w: Json, path: seq<nat>)
    requires if v.Array? then k < |v.items| && At(v.items[k], path, w)
             else v.Object? && k < |v.members| && At(v.members[k].value, path, w)
    ensures At(v, [k] + path, w)
  {
    assert ([k] + path)[1..] == path;
  }

  /** Everything that stands in the value may stand where it does. */
  ghost predicate AllFit(v: Json, depth: nat) { forall path, w :: At(v, path, w) ==> Fits(w, depth + |path|) }

  /** Encoding fails exactly for what is nested too deep and for arrays that are mostly holes, wherever they are. */
  lemma {:induction false} EncodableExactly(v: Json, depth: nat)
    ensures Encodable(v, depth) <==> AllFit(v, depth)
    decreases v
  {
    AllFitParts(v, depth);
    match v
    case Array(items) =>
      PresentCounts(items);
      forall i | 0 <= i < |items| ensures Encodable(items[i], depth + 1) <==> AllFit(items[i], depth + 1) {
        EncodableExactly(items[i], depth + 1);
      }
    case Object(members) =>
      forall i | 0 <= i < |members|
        ensures EncodableMember(members[i], depth + 1) <==> AllFit(members[i].value, depth + 1)
      {
        EncodableExactly(members[i].value, depth + 1);
      }
    case _ =>
  }

  lemma AllFitParts(v: Json, depth: nat)
    ensures AllFit(v, depth) <==>
      && Fits(v, depth)
      && (v.Array? ==> forall i :: 0 <= i < |v.items| ==> AllFit(v.items[i], depth + 1))
      && (v.Object? ==> forall i :: 0 <= i < |v.members| ==> AllFit(v.members[i].value, depth + 1))
  {
    if AllFit(v, depth) {
      assert At(v, [], v);
      if v.Array? {
        forall i, path, w | 0 <= i < |v.items| && At(v.items[i], path, w) ensures Fits(w, depth + 1 + |path|) {
          PartsFit(v, i, w, path);
        }
      }
      if v.Object? {
        forall i, path, w | 0 <= i < |v.members| && At(v.members[i].value, path, w)
          ensures Fits(w, depth + 1 + |path|)
        {
          PartsFit(v, i, w, path);
        }
      }
    } else {
      var path, w :| At(v, path, w) && !Fits(w, depth + |path|);
      if path != [] {
        var p := if v.Array? then v.items[path[0]] else v.members[path[0]].value;
        assert At(p, path[1..], w) && !Fits(w, depth + 1 + |path[1..]|);
        assert !AllFit(p, depth + 1);
      }
    }
  }
}
