/** The buffers of `lua_cjson.c` and `strbuf.h`: encoding into a buffer that grows, decoding with a
  scratch buffer as large as the text, both with appends that check nothing. */
module CjsonBuffers {
  import opened Basics
  import opened Cjson

  const DEFAULT_SIZE: nat := 1023

  // ---- Encoding --------------------------------------------------------------------------------

  class StrBuf {
    var buf: array<byte>
    var length: nat
    /** What was appended. */
    ghost var contents: seq<byte>

    ghost predicate Valid()
      reads this, buf
    {
      length < buf.Length && forall n :: Look(n) ==> contents == buf[..length]
    }

    /** `strbuf_init` with the default size. */
    constructor ()
      ensures Valid() && contents == [] && fresh(buf)
    {
      buf := new byte[DEFAULT_SIZE](_ => 0);
      length := 0;
      contents := [];
    }

    /** `strbuf_empty_length`: one place is kept for a zero behind the contents. */
    ghost function Space(): int
      reads this
    {
      buf.Length - length - 1
    }

    /** `strbuf_ensure_empty_length` and `strbuf_resize`: the size is doubled until it is enough. */
    method EnsureEmpty(len: nat)
      requires Valid()
      modifies `buf
      ensures Valid() && Space() >= len
      ensures if old(Space()) >= len then buf == old(buf) else fresh(buf)
    {
      if len > buf.Length - length - 1 {
        assert Look(0);
        var size := buf.Length;
        while size < length + len + 1
          invariant size >= buf.Length
          decreases length + len + 1 - size
        {
          size := size * 2;
        }
        var bigger := new byte[size](_ => 0);
        var i := 0;
        while i < length
          invariant 0 <= i <= length && bigger[..i] == buf[..i]
          modifies bigger
        {
          bigger[i] := buf[i];
          i := i + 1;
        }
        buf := bigger;
      }
    }

    /** `strbuf_append_char_unsafe`. */
    method AppendUnsafe(c: byte)
      requires Valid() && Space() >= 1
      modifies `length, `contents, buf
      ensures Valid() && contents == old(contents) + [c] && Space() == old(Space()) - 1
    {
      assert Look(0);
      buf[length] := c;
      length := length + 1;
      contents := contents + [c];
    }

    /** `strbuf_append_char`. */
    method AppendChar(c: byte)
      requires Valid()
      modifies this, buf
      ensures Valid() && contents == old(contents) + [c] && (buf == old(buf) || fresh(buf))
    {
      EnsureEmpty(1);
      AppendUnsafe(c);
    }

    /** `strbuf_append_string` of an escape, which resizes only when there is no space. */
    method AppendString(s: seq<byte>)
      requires Valid()
      modifies this, buf
      ensures Valid() && contents == old(contents) + s && (buf == old(buf) || fresh(buf))
      ensures old(Space()) >= |s| ==> buf == old(buf) && Space() == old(Space()) - |s|
    {
      var i := 0;
      while i < |s|
        invariant 0 <= i <= |s| && Valid() && contents == old(contents) + s[..i]
        invariant buf == old(buf) || fresh(buf)
        invariant old(Space()) >= |s| ==> buf == old(buf) && Space() == old(Space()) - i
      {
        EnsureEmpty(1);
        AppendUnsafe(s[i]);
        assert s[..i + 1] == s[..i] + [s[i]];
        i := i + 1;
      }
      assert s[..i] == s;
    }

    /** `strbuf_append_mem`. */
    method AppendMem(s: seq<byte>)
      requires Valid()
      modifies this, buf
      ensures Valid() && contents == old(contents) + s && (buf == old(buf) || fresh(buf))
    {
      EnsureEmpty(|s|);
      AppendString(s);
    }

    /** `json_append_string`: six times the length and two is space enough for appending without
      looking. */
    method AppendJsonString(s: seq<byte>)
      requires Valid()
      modifies this, buf
      ensures Valid() && contents == old(contents) + EncodeString(s) && (buf == old(buf) || fresh(buf))
    {
      EnsureEmpty(|s| * 6 + 2);
      AppendUnsafe(34);
      var i := 0;
      TextNone(contents, s);
      ghost var before := contents;
      while i < |s|
        invariant 0 <= i <= |s| && Valid() && ToEscape(before, contents, s, i)
        invariant (buf == old(buf) || fresh(buf)) && Space() >= (|s| - i) * 6 + 1
      {
        TextNext(before, contents, s, i);
        AppendEscape(s[i]);
        i := i + 1;
      }
      TextAll(old(contents), contents, s);
      AppendUnsafe(34);
    }

    /** One character, as its escape if it has one. */
    method AppendEscape(c: byte)
      requires Valid() && Space() >= 6
      modifies this, buf
      ensures Valid() && contents == old(contents) + Escaped(c) && buf == old(buf) && Space() >= old(Space()) - 6
    {
      var escape := Escaped(c);
      if escape != [c] { AppendString(escape); } else { AppendUnsafe(c); }
    }
  }

  /** From character `i` on they are still to be escaped. */
  ghost predicate ToEscape(before: seq<byte>, contents: seq<byte>, s: seq<byte>, i: nat)
  {
    forall n :: Look(n) ==> i <= |s| && contents + EscapeAll(s[i..]) == before + EscapeAll(s)
  }

  lemma TextNone(before: seq<byte>, s: seq<byte>)
    ensures ToEscape(before, before, s, 0)
  {
    assert s[0..] == s;
  }

  lemma EscapeFirst(s: seq<byte>)
    requires s != []
    ensures EscapeAll(s) == Escaped(s[0]) + EscapeAll(s[1..])
  {
  }

  lemma TextNext(before: seq<byte>, contents: seq<byte>, s: seq<byte>, i: nat)
    requires ToEscape(before, contents, s, i) && i < |s|
    ensures ToEscape(before, contents + Escaped(s[i]), s, i + 1)
  {
    assert Look(0);
    EscapeFirst(s[i..]);
    assert s[i..][1..] == s[i + 1..];
    Join3(contents, Escaped(s[i]), EscapeAll(s[i + 1..]));
  }

  lemma TextAll(old_: seq<byte>, contents: seq<byte>, s: seq<byte>)
    requires ToEscape(old_ + [34], contents, s, |s|)
    ensures contents + [34] == old_ + EncodeString(s)
  {
    assert Look(0);
    assert contents + [] == contents;
    Join4(old_, [34], EscapeAll(s), [34]);
  }

  lemma {:induction false} ItemsNext(items: seq<Json>, i: nat)
    requires i < |items|
    ensures EncodeItems(items[..i + 1]) == EncodeItems(items[..i]) + (if i > 0 then [44] else []) + Encode(items[i])
    decreases i
  {
    if i == 0 {
      assert items[..1] == [items[0]] && items[..0] == [];
    } else {
      ItemsNext(items[1..], i - 1);
      assert items[1..][..i] == items[..i + 1][1..] && items[1..][..i - 1] == items[..i][1..];
      var a, b := EncodeItems(items[1..][..i - 1]), Encode(items[i]);
      assert |items[..i]| == 1 ==> a == [];
      TextJoin(Encode(items[0]), a, if i > 1 then [44] else [], b);
    }
  }

  lemma TextJoin(e: seq<byte>, a: seq<byte>, c: seq<byte>, b: seq<byte>)
    ensures e + ([44] + (a + c + b)) == (e + ([44] + a)) + c + b
    ensures a == [] && c == [] ==> e + ([44] + (a + c + b)) == e + [] + [44] + b
  {
  }

  lemma {:induction false} MembersNext(members: seq<Member>, i: nat)
    requires i < |members|
    ensures EncodeMembers(members[..i + 1])
      == EncodeMembers(members[..i]) + (if i > 0 then [44] else []) + EncodeMember(members[i])
    decreases i
  {
    if i == 0 {
      assert members[..1] == [members[0]] && members[..0] == [];
    } else {
      MembersNext(members[1..], i - 1);
      assert members[1..][..i] == members[..i + 1][1..] && members[1..][..i - 1] == members[..i][1..];
      var a, b := EncodeMembers(members[1..][..i - 1]), EncodeMember(members[i]);
      assert |members[..i]| == 1 ==> a == [];
      TextJoin(EncodeMember(members[0]), a, if i > 1 then [44] else [], b);
    }
  }

  lemma Regrouped(before: seq<byte>, text: seq<byte>, comma: seq<byte>, more: seq<byte>)
    ensures before + text + comma + more == before + (text + comma + more)
    ensures comma == [] ==> before + text + more == before + (text + comma + more)
  {
  }

  /** The value was appended, or there was an error. */
  twostate predicate Appended(json: StrBuf, ok: bool, text: seq<byte>)
    requires old(json.Valid())
    reads json, json.buf
  {
    && json.Valid() && (json.buf == old(json.buf) || fresh(json.buf))
    && (ok ==> json.contents == old(json.contents) + text)
  }

  /** The keys of an array, counted by `lua_array_length`, which refuses one that is mostly holes. */
  method ArrayLength(items: seq<Json>) returns (ok: bool)
    ensures ok <==> !Sparse(items)
  {
    var i, count := 0, 0;
    while i < |items|
      invariant 0 <= i <= |items| && count == Present(items[..i])
    {
      assert items[..i + 1][..i] == items[..i];
      if items[i] != Nil { count := count + 1; }
      i := i + 1;
    }
    assert items[..i] == items;
    ok := !(|items| > count * SPARSE_RATIO && |items| > SPARSE_SAFE);
  }

  /** `json_append_data`. */
  method AppendData(json: StrBuf, v: Json, depth: nat) returns (ok: bool)
    requires json.Valid()
    modifies json, json.buf
    ensures Appended(json, ok, Encode(v)) && (ok <==> Encodable(v, depth))
    decreases v, 1
  {
    ok := true;
    match v {
      case Nil => json.AppendMem(NULL_TEXT);
      case Null => json.AppendMem(NULL_TEXT);
      case Boolean(b) => json.AppendMem(if b then TRUE_TEXT else FALSE_TEXT);
      case Integer(n) => json.AppendMem(Decimal(n));
      case Double(text) => json.AppendMem(text);
      case String(s) => json.AppendJsonString(s);
      case Array(items) => ok := AppendArray(json, items, depth);
      case Object(members) => ok := AppendObject(json, members, depth);
    }
  }

  function CommaAt(i: nat): seq<byte> { if i > 0 then [44] else [] }

  /** A comma, but not before the first. */
  method AppendComma(json: StrBuf, i: nat)
    requires json.Valid()
    modifies json, json.buf
    ensures Appended(json, true, CommaAt(i))
  {
    if i > 0 { json.AppendChar(44); } else { assert json.contents + [] == json.contents; }
  }

  /** `json_append_array`, with the checks before it. */
  method AppendArray(json: StrBuf, items: seq<Json>, depth: nat) returns (ok: bool)
    requires json.Valid()
    modifies json, json.buf
    ensures Appended(json, ok, Encode(Array(items))) && (ok <==> Encodable(Array(items), depth))
    decreases Array(items), 0
  {
    if depth >= MAX_DEPTH { return false; }
    ok := ArrayLength(items);
    if !ok { return; }
    json.AppendChar(91);
    ok := AppendItems(json, items, depth + 1);
    FirstItemsAll(items, |items|, depth + 1);
    if !ok { return; }
    Join4(old(json.contents), [91], EncodeItems(items), [93]);
    json.AppendChar(93);
  }

  /** The text of the first `i` items. */
  ghost predicate IsItems(text: seq<byte>, items: seq<Json>, i: nat)
  {
    forall n :: Look(n) ==> i <= |items| && text == EncodeItems(items[..i])
  }

  lemma ItemsNone(items: seq<Json>)
    ensures IsItems([], items, 0)
  {
  }

  lemma ItemsMore(text: seq<byte>, items: seq<Json>, i: nat)
    requires IsItems(text, items, i) && i < |items|
    ensures IsItems(text + CommaAt(i) + Encode(items[i]), items, i + 1)
  {
    assert Look(0);
    ItemsNext(items, i);
  }

  lemma ItemsAll(text: seq<byte>, items: seq<Json>)
    requires IsItems(text, items, |items|)
    ensures text == EncodeItems(items)
  {
    assert Look(0);
    assert items[..|items|] == items;
  }

  /** The loop of `json_append_array`. */
  method AppendItems(json: StrBuf, items: seq<Json>, depth: nat) returns (ok: bool)
    requires json.Valid()
    modifies json, json.buf
    ensures Appended(json, ok, EncodeItems(items))
    ensures ok <==> FirstItems(items, |items|, depth)
    decreases items
  {
    ghost var before, text := json.contents, [];
    ItemsNone(items);
    ok := true;
    var i := 0;
    while i < |items|
      invariant 0 <= i <= |items| && json.Valid() && (json.buf == old(json.buf) || fresh(json.buf)) && ok
      invariant json.contents == before + text && IsItems(text, items, i)
      invariant FirstItems(items, i, depth)
    {
      ItemsMore(text, items, i);
      AppendComma(json, i);
      ok := AppendData(json, items[i], depth);
      if !ok { NotAllItems(items, i, depth); return; }
      Regrouped(before, text, CommaAt(i), Encode(items[i]));
      text := text + CommaAt(i) + Encode(items[i]);
      i := i + 1;
    }
    ItemsAll(text, items);
  }

  /** The first `n` can be encoded. */
  predicate FirstItems(items: seq<Json>, n: nat, depth: nat)
    requires n <= |items|
    decreases n
  {
    n == 0 || (FirstItems(items, n - 1, depth) && Encodable(items[n - 1], depth))
  }

  lemma {:induction false} FirstItemsAll(items: seq<Json>, n: nat, depth: nat)
    requires n <= |items|
    ensures FirstItems(items, n, depth) <==> forall k :: 0 <= k < n ==> Encodable(items[k], depth)
    decreases n
  {
    if n > 0 { FirstItemsAll(items, n - 1, depth); }
  }

  lemma NotAllItems(items: seq<Json>, i: nat, depth: nat)
    requires i < |items| && !Encodable(items[i], depth)
    ensures !FirstItems(items, |items|, depth)
  {
    FirstItemsAll(items, |items|, depth);
  }

  /** The key of a field, and the colon. */
  method AppendKey(json: StrBuf, k: Key)
    requires json.Valid()
    modifies json, json.buf
    ensures Appended(json, true, EncodeKey(k))
  {
    match k {
      case StringKey(s) =>
        json.AppendJsonString(s);
        json.AppendChar(58);
      case IntegerKey(n) =>
        json.AppendChar(34);
        json.AppendMem(Decimal(n));
        json.AppendMem([34, 58]);
    }
  }

  method AppendMember(json: StrBuf, m: Member, depth: nat) returns (ok: bool)
    requires json.Valid()
    modifies json, json.buf
    ensures Appended(json, ok, EncodeMember(m)) && (ok <==> EncodableMember(m, depth))
    decreases m, 2
  {
    ghost var before := json.contents;
    AppendKey(json, m.key);
    ok := AppendData(json, m.value, depth);
    Join3(before, EncodeKey(m.key), Encode(m.value));
  }

  /** `json_append_object`. */
  method AppendObject(json: StrBuf, members: seq<Member>, depth: nat) returns (ok: bool)
    requires json.Valid()
    modifies json, json.buf
    ensures Appended(json, ok, Encode(Object(members))) && (ok <==> Encodable(Object(members), depth))
    decreases Object(members), 0
  {
    if depth >= MAX_DEPTH { return false; }
    json.AppendChar(123);
    ok := AppendMembers(json, members, depth + 1);
    FirstMembersAll(members, |members|, depth + 1);
    if !ok { return; }
    Join4(old(json.contents), [123], EncodeMembers(members), [125]);
    json.AppendChar(125);
  }

  ghost predicate IsMembers(text: seq<byte>, members: seq<Member>, i: nat)
  {
    forall n :: Look(n) ==> i <= |members| && text == EncodeMembers(members[..i])
  }

  lemma MembersNone(members: seq<Member>)
    ensures IsMembers([], members, 0)
  {
  }

  lemma MembersMore(text: seq<byte>, members: seq<Member>, i: nat)
    requires IsMembers(text, members, i) && i < |members|
    ensures IsMembers(text + CommaAt(i) + EncodeMember(members[i]), members, i + 1)
  {
    assert Look(0);
    MembersNext(members, i);
  }

  lemma MembersAll(text: seq<byte>, members: seq<Member>)
    requires IsMembers(text, members, |members|)
    ensures text == EncodeMembers(members)
  {
    assert Look(0);
    assert members[..|members|] == members;
  }

  /** The loop of `json_append_object`. */
  method AppendMembers(json: StrBuf, members: seq<Member>, depth: nat) returns (ok: bool)
    requires json.Valid()
    modifies json, json.buf
    ensures Appended(json, ok, EncodeMembers(members))
    ensures ok <==> FirstMembers(members, |members|, depth)
    decreases members
  {
    ghost var before, text := json.contents, [];
    MembersNone(members);
    ok := true;
    var i := 0;
    while i < |members|
      invariant 0 <= i <= |members| && json.Valid() && (json.buf == old(json.buf) || fresh(json.buf)) && ok
      invariant json.contents == before + text && IsMembers(text, members, i)
      invariant FirstMembers(members, i, depth)
    {
      MembersMore(text, members, i);
      AppendComma(json, i);
      ok := AppendMember(json, members[i], depth);
      if !ok { NotAllMembers(members, i, depth); return; }
      Regrouped(before, text, CommaAt(i), EncodeMember(members[i]));
      text := text + CommaAt(i) + EncodeMember(members[i]);
      i := i + 1;
    }
    MembersAll(text, members);
  }

  /** The first `n` can be encoded. */
  predicate FirstMembers(members: seq<Member>, n: nat, depth: nat)
    requires n <= |members|
    decreases n
  {
    n == 0 || (FirstMembers(members, n - 1, depth) && EncodableMember(members[n - 1], depth))
  }

  lemma {:induction false} FirstMembersAll(members: seq<Member>, n: nat, depth: nat)
    requires n <= |members|
    ensures FirstMembers(members, n, depth) <==> forall k :: 0 <= k < n ==> EncodableMember(members[k], depth)
    decreases n
  {
    if n > 0 { FirstMembersAll(members, n - 1, depth); }
  }

  lemma NotAllMembers(members: seq<Member>, i: nat, depth: nat)
    requires i < |members| && !EncodableMember(members[i], depth)
    ensures !FirstMembers(members, |members|, depth)
  {
    FirstMembersAll(members, |members|, depth);
  }

  /** `json_encode`. */
  method JsonEncode(v: Json) returns (r: Option<seq<byte>>)
    ensures r == if Encodable(v, 0) then Some(Encode(v)) else None
  {
    var json := new StrBuf();
    var ok := AppendData(json, v, 0);
    assert Look(0);
    assert [] + Encode(v) == Encode(v);
    r := if ok then Some(json.buf[..json.length]) else None;
  }

  // ---- Decoding --------------------------------------------------------------------------------

  datatype Outcome<T> = Done(value: T) | Fails

  /** The items so far, and what the rest is read as. */
  function Behind<T>(done: seq<T>, r: Read<seq<T>>): Read<seq<T>>
  {
    match r
    case Got(more, rest) => Got(done + more, rest)
    case Failed => Failed
  }

  lemma BehindTwice<T>(a: seq<T>, b: seq<T>, r: Read<seq<T>>)
    ensures Behind(a, Behind(b, r)) == Behind(a + b, r)
  {
    if r.Got? { assert a + (b + r.value) == (a + b) + r.value; }
  }

  class Parser {
    const data: seq<byte>
    var ptr: nat
    /** The scratch buffer for strings, and what it holds. */
    var tmp: array<byte>
    var length: nat
    ghost var str: seq<byte>
    var depth: nat

    ghost predicate Valid()
      reads this, tmp
    {
      ptr <= |data| < tmp.Length && length <= tmp.Length && forall n :: Look(n) ==> str == tmp[..length]
    }

    function Rest(): seq<byte>
      requires ptr <= |data|
      reads this
    {
      data[ptr..]
    }

    /** The set-up of `json_decode`: the scratch buffer has the size of the text, and one. */
    constructor (text: seq<byte>)
      ensures Valid() && data == text && ptr == 0 && depth == 0 && fresh(tmp)
    {
      data := text;
      ptr := 0;
      depth := 0;
      length := 0;
      str := [];
      tmp := new byte[if text == [] then DEFAULT_SIZE else |text| + 1](_ => 0);
    }

    /** `strbuf_append_mem_unsafe` and `strbuf_append_char_unsafe` on the scratch buffer. */
    method AppendTmp(bytes: seq<byte>)
      requires Valid() && length + |bytes| <= tmp.Length
      modifies `length, `str, tmp
      ensures Valid() && length == old(length) + |bytes| && str == old(str) + bytes
    {
      assert Look(0);
      var i := 0;
      while i < |bytes|
        invariant 0 <= i <= |bytes| && length == old(length) && str == old(str)
        invariant tmp[..length + i] == str + bytes[..i]
      {
        tmp[length + i] := bytes[i];
        assert bytes[..i + 1] == bytes[..i] + [bytes[i]];
        i := i + 1;
      }
      assert bytes[..i] == bytes;
      length := length + |bytes|;
      str := str + bytes;
    }

    /** One step of the loop of `json_next_string_token`. The scratch buffer never holds more than was
      read, so that it is large enough. */
    method StringStep(ghost start: nat) returns (ok: bool)
      requires Valid() && start <= ptr < |data| && length <= ptr - start && data[ptr] != 34
      requires ReadSoFar(data, start, str, ptr)
      modifies `ptr, `length, `str, tmp
      ensures Valid() && start <= ptr && length <= ptr - start
      ensures ptr >= old(ptr)
      ensures if ok then ptr > old(ptr) && ReadSoFar(data, start, str, ptr) else Unreadable(data, start)
    {
      var u := NextChar();
      ReadMore(data, start, str, ptr, u);
      if u == None { return false; }
      AppendTmp(u.value.0);
      ptr := ptr + u.value.1;
      ok := true;
    }

    /** A character or an escape. */
    method NextChar() returns (u: Option<(seq<byte>, nat)>)
      requires ptr <= |data|
      ensures IsChar(data, ptr, u)
    {
      u := ReadChar(data[ptr..]);
    }

    /** `json_next_string_token`. */
    method NextString() returns (ok: bool)
      requires Valid() && ptr < |data|
      modifies `ptr, `length, `str, tmp
      ensures Valid() && ptr > old(ptr)
      ensures if ok then IsString(data, old(ptr) + 1, str, ptr) else Unreadable(data, old(ptr) + 1)
    {
      ptr := ptr + 1;
      length, str := 0, [];
      ghost var start := ptr;
      ReadNone(data, start);
      ok := ReadChars(start);
      if !ok { return; }
      ReadAll(data, start, str, ptr);
      if ptr >= |data| { return false; }
      ptr := ptr + 1;
    }

    /** The loop of `json_next_string_token`. */
    method ReadChars(ghost start: nat) returns (ok: bool)
      requires Valid() && start <= ptr && length <= ptr - start && ReadSoFar(data, start, str, ptr)
      modifies `ptr, `length, `str, tmp
      ensures Valid() && ptr >= old(ptr)
      ensures if ok then ReadSoFar(data, start, str, ptr) else Unreadable(data, start)
      ensures ok && ptr < |data| ==> data[ptr] == 34
    {
      ok := true;
      while ptr < |data| && data[ptr] != 34
        invariant Valid() && start <= old(ptr) <= ptr && length <= ptr - start && ok
        invariant ReadSoFar(data, start, str, ptr)
        decreases |data| - ptr
      {
        ok := StringStep(start);
        if !ok { return; }
      }
    }

    /** `json_next_token`. */
    method NextToken() returns (t: Token)
      requires Valid()
      modifies `ptr, `length, `str, tmp
      ensures Valid() && t == Cjson.NextToken(old(Rest())).0 && ptr >= old(ptr)
      ensures t != TError ==> Rest() == Cjson.NextToken(old(Rest())).1
      ensures t != TError && t != TEnd ==> ptr > old(ptr)
    {
      ghost var start := ptr;
      ptr := BehindWhite();
      ghost var q := ptr;
      t := BehindToken();
      TokenBehind(data, start, q, t, ptr);
      TokenIs(data, start, t, ptr);
    }

    /** The token that begins here. */
    method BehindToken() returns (t: Token)
      requires Valid() && (ptr < |data| ==> !White(data[ptr]))
      modifies `ptr, `length, `str, tmp
      ensures Valid() && ptr >= old(ptr) && IsToken(data, old(ptr), t, ptr)
    {
      if ptr < |data| && data[ptr] == 34 {
        ghost var quote := ptr;
        var ok := NextString();
        if ok {
          StringTokenIs(data, quote, str, ptr);
          t := Scratch();
          return;
        }
        NoStringToken(data, quote, ptr);
        return TError;
      }
      t := PlainToken();
    }

    /** Behind white space. */
    method BehindWhite() returns (q: nat)
      requires ptr <= |data|
      ensures ptr <= q <= |data| && (q < |data| ==> !White(data[q])) && SameToken(data, ptr, q)
    {
      q := ptr;
      SameFirst(data, ptr);
      while q < |data| && White(data[q])
        invariant ptr <= q <= |data| && SameToken(data, ptr, q)
        decreases |data| - q
      {
        WhiteSkipped(data, ptr, q);
        q := q + 1;
      }
    }

    method Scratch() returns (t: Token)
      requires Valid()
      ensures t == TString(str)
    {
      assert Look(0);
      t := TString(tmp[..length]);
    }

    /** The other tokens. */
    method PlainToken() returns (t: Token)
      requires Valid() && (ptr < |data| ==> !White(data[ptr]) && data[ptr] != 34)
      modifies `ptr
      ensures Valid() && ptr >= old(ptr) && IsToken(data, old(ptr), t, ptr)
    {
      if ptr >= |data| || data[ptr] == 0 {
        EndIs(data, ptr);
        return TEnd;
      }
      var c, s := data[ptr], data[ptr..];
      if c == 45 || 48 <= c <= 57 || c == 43 {
        ghost var start := ptr;
        t := NextNumber();
        NumberIs(data, start, t, ptr);
        return;
      }
      WordIs(data, ptr);
      if c in {44, 58, 91, 93, 123, 125} {
        t := SingleToken(c);
        ptr := ptr + 1;
      } else if Starts(s, TRUE_TEXT) {
        t := TBoolean(true);
        ptr := ptr + 4;
      } else if Starts(s, FALSE_TEXT) {
        t := TBoolean(false);
        ptr := ptr + 5;
      } else if Starts(s, NULL_TEXT) {
        t := TNull;
        ptr := ptr + 4;
      } else {
        t := TError;
      }
    }

    /** `json_next_number_token`. */
    method NextNumber() returns (t: Token)
      requires Valid()
      modifies `ptr
      ensures Valid() && ptr >= old(ptr) && t == NumberToken(old(Rest())).0 && Rest() == NumberToken(old(Rest())).1
    {
      var s := data[ptr..];
      var (n, rest) := Strtoll(s);
      StrtollSuffix(s);
      var end := |data| - |rest|;
      assert data[end..] == rest;
      if end == ptr { return TError; }
      if end < |data| && (data[end] == 46 || data[end] == 101 || data[end] == 69) {
        FractionIs(s);
        t := NextFloat();
      } else {
        t := TInteger(n);
        ptr := end;
      }
    }

    /** The number is read again with `strtod`. */
    method NextFloat() returns (t: Token)
      requires Valid()
      modifies `ptr
      ensures Valid() && ptr >= old(ptr) && t == TDouble(Strtod(old(Rest())).0) && Rest() == Strtod(old(Rest())).1
    {
      var (text, rest) := Strtod(data[ptr..]);
      t := TDouble(text);
      assert data[ptr + |text|..] == data[ptr..][|text|..];
      ptr := ptr + |text|;
    }
  }

  lemma FractionIs(s: seq<byte>)
    requires Fractional(Strtoll(s).1) && |Strtoll(s).1| < |s|
    ensures NumberToken(s) == (TDouble(Strtod(s).0), Strtod(s).1)
  {
  }

  /** What the parser returned is what is to be read, and it stands behind it. */
  ghost predicate Agrees<T>(r: Outcome<T>, p: Parser, spec: Read<T>)
    requires p.ptr <= |p.data|
    reads p
  {
    match spec
    case Got(v, rest) => r == Done(v) && p.Rest() == rest
    case Failed => r == Fails
  }

  /** `json_process_value`. */
  method ProcessValue(p: Parser, t: Token) returns (r: Outcome<Json>)
    requires p.Valid()
    modifies p`ptr, p`length, p`str, p`depth, p.tmp
    ensures p.Valid() && p.ptr >= old(p.ptr) && Agrees(r, p, Value(t, old(p.Rest()), old(p.depth)))
    ensures r.Done? ==> p.depth == old(p.depth)
    decreases |p.data| - p.ptr, 1
  {
    match t {
      case TString(s) => r := Done(String(s));
      case TInteger(n) => r := Done(Integer(n));
      case TBoolean(b) => r := Done(Boolean(b));
      case TNull => r := Done(Null);
      case TDouble(text) => r := Done(Double(text));
      case TArrBegin => r := ParseArray(p);
      case TObjBegin => r := ParseObject(p);
      case _ => r := Fails;
    }
  }

  lemma EndFails(t: Token, s: seq<byte>, depth: nat)
    requires t == TEnd || t == TError
    ensures Items(t, s, depth) == Failed && Members(t, s, depth) == Failed
  {
  }

  /** `json_parse_array_context`. */
  method ParseArray(p: Parser) returns (r: Outcome<Json>)
    requires p.Valid()
    modifies p`ptr, p`length, p`str, p`depth, p.tmp
    ensures p.Valid() && p.ptr >= old(p.ptr) && Agrees(r, p, Cjson.ParseArray(old(p.Rest()), old(p.depth)))
    ensures r.Done? ==> p.depth == old(p.depth)
    decreases |p.data| - p.ptr, 0
  {
    p.depth := p.depth + 1;
    if p.depth > MAX_DEPTH { return Fails; }
    var t := p.NextToken();
    if t == TArrEnd {
      p.depth := p.depth - 1;
      return Done(Array([]));
    }
    if t == TEnd || t == TError {
      EndFails(t, Cjson.NextToken(old(p.Rest())).1, p.depth);
      return Fails;
    }
    var items := ParseItems(p, t);
    match items {
      case Done(vs) =>
        p.depth := p.depth - 1;
        r := Done(Array(vs));
      case Fails => r := Fails;
    }
  }

  /** The items up to the bracket, beginning with token `t`. */
  method ParseItems(p: Parser, t0: Token) returns (r: Outcome<seq<Json>>)
    requires p.Valid()
    modifies p`ptr, p`length, p`str, p`depth, p.tmp
    ensures p.Valid() && p.ptr >= old(p.ptr) && Agrees(r, p, Items(t0, old(p.Rest()), old(p.depth)))
    ensures r.Done? ==> p.depth == old(p.depth)
    decreases |p.data| - p.ptr, 2
  {
    var t, items: seq<Json> := t0, [];
    ghost var s := p.Rest();
    ItemsStart(t, s, p.depth);
    while true
      invariant p.Valid() && p.ptr >= old(p.ptr) && p.depth == old(p.depth) && (t != TError ==> p.Rest() == s)
      invariant ItemsSoFar(t0, old(p.Rest()), p.depth, items, t, s)
      decreases |p.data| - p.ptr
    {
      if t == TError {
        ItemsFail(t0, old(p.Rest()), p.depth, items, t, s);
        return Fails;
      }
      var v := ProcessValue(p, t);
      if !v.Done? {
        ItemsFail(t0, old(p.Rest()), old(p.depth), items, t, s);
        return Fails;
      }
      ghost var s1 := p.Rest();
      var t2 := p.NextToken();
      ItemsStep(t0, old(p.Rest()), p.depth, items, t, s, v.value, s1);
      items := items + [v.value];
      if t2 == TArrEnd { return Done(items); }
      if t2 != TComma { return Fails; }
      s := p.Rest();
      t := p.NextToken();
      s := Cjson.NextToken(s).1;
    }
  }

  ghost predicate ItemsSoFar(t0: Token, s0: seq<byte>, depth: nat, items: seq<Json>, t: Token, s: seq<byte>)
  {
    forall n :: Look(n) ==> Items(t0, s0, depth) == Behind(items, Items(t, s, depth))
  }

  lemma ItemsStart(t: Token, s: seq<byte>, depth: nat)
    ensures ItemsSoFar(t, s, depth, [], t, s)
  {
    var r := Items(t, s, depth);
    if r.Got? { assert [] + r.value == r.value; }
  }

  lemma ItemsFail(t0: Token, s0: seq<byte>, depth: nat, items: seq<Json>, t: Token, s: seq<byte>)
    requires ItemsSoFar(t0, s0, depth, items, t, s) && !Value(t, s, depth).Got?
    ensures Items(t0, s0, depth) == Failed
  {
    assert Look(0);
  }

  lemma ItemsStep(t0: Token, s0: seq<byte>, depth: nat, items: seq<Json>, t: Token, s: seq<byte>, v: Json,
                  s1: seq<byte>)
    requires ItemsSoFar(t0, s0, depth, items, t, s) && Value(t, s, depth) == Got(v, s1)
    ensures var (t2, s2) := NextToken(s1);
      if t2 == TArrEnd then Items(t0, s0, depth) == Got(items + [v], s2)
      else if t2 != TComma then Items(t0, s0, depth) == Failed
      else ItemsSoFar(t0, s0, depth, items + [v], NextToken(s2).0, NextToken(s2).1)
  {
    assert Look(0);
    var (t2, s2) := NextToken(s1);
    ItemsUnfold(t, s, depth, Items(t, s, depth), v, s1);
    if t2 == TComma { BehindTwice(items, [v], Items(NextToken(s2).0, NextToken(s2).1, depth)); }
  }

  lemma ItemsUnfold(t: Token, s: seq<byte>, depth: nat, r: Read<seq<Json>>, v: Json, s1: seq<byte>)
    requires r == Items(t, s, depth) && Value(t, s, depth) == Got(v, s1)
    ensures var (t2, s2) := NextToken(s1);
      r == if t2 == TArrEnd then Got([v], s2) else if t2 != TComma then Failed
           else Behind([v], Items(NextToken(s2).0, NextToken(s2).1, depth))
  {
  }

  /** `json_parse_object_context`. */
  method ParseObject(p: Parser) returns (r: Outcome<Json>)
    requires p.Valid()
    modifies p`ptr, p`length, p`str, p`depth, p.tmp
    ensures p.Valid() && p.ptr >= old(p.ptr) && Agrees(r, p, Cjson.ParseObject(old(p.Rest()), old(p.depth)))
    ensures r.Done? ==> p.depth == old(p.depth)
    decreases |p.data| - p.ptr, 0
  {
    p.depth := p.depth + 1;
    if p.depth > MAX_DEPTH { return Fails; }
    var t := p.NextToken();
    if t == TObjEnd {
      p.depth := p.depth - 1;
      return Done(Object([]));
    }
    if t == TEnd || t == TError {
      EndFails(t, Cjson.NextToken(old(p.Rest())).1, p.depth);
      return Fails;
    }
    var members := ParseMembers(p, t);
    match members {
      case Done(ms) =>
        p.depth := p.depth - 1;
        r := Done(Object(ms));
      case Fails => r := Fails;
    }
  }

  /** Key, colon and value. */
  method ParseField(p: Parser, t: Token) returns (r: Outcome<Member>)
    requires p.Valid()
    modifies p`ptr, p`length, p`str, p`depth, p.tmp
    ensures p.Valid() && p.ptr >= old(p.ptr) && Agrees(r, p, Field1(t, old(p.Rest()), old(p.depth)))
    ensures r.Done? ==> p.depth == old(p.depth)
    decreases |p.data| - p.ptr, 2
  {
    if !t.TString? { return Fails; }
    var colon := p.NextToken();
    if colon != TColon { return Fails; }
    ghost var s1 := p.Rest();
    var t2 := p.NextToken();
    if t2 == TError { return Fails; }
    var v := ProcessValue(p, t2);
    match v {
      case Done(value) => r := Done(Member(StringKey(t.s), value));
      case Fails => r := Fails;
    }
  }

  function Field1(t: Token, s: seq<byte>, depth: nat): Read<Member>
  {
    if !t.TString? then Failed else
    var (t1, s1) := NextToken(s);
    if t1 != TColon then Failed else
    var (t2, s2) := NextToken(s1);
    match Value(t2, s2, depth)
    case Got(v, s3) => Got(Member(StringKey(t.s), v), s3)
    case Failed => Failed
  }

  /** The fields up to the brace, beginning with token `t0`. */
  method ParseMembers(p: Parser, t0: Token) returns (r: Outcome<seq<Member>>)
    requires p.Valid()
    modifies p`ptr, p`length, p`str, p`depth, p.tmp
    ensures p.Valid() && p.ptr >= old(p.ptr) && Agrees(r, p, Members(t0, old(p.Rest()), old(p.depth)))
    ensures r.Done? ==> p.depth == old(p.depth)
    decreases |p.data| - p.ptr, 3
  {
    var t, members: seq<Member> := t0, [];
    ghost var s := p.Rest();
    MembersStart(t, s, p.depth);
    while true
      invariant p.Valid() && p.ptr >= old(p.ptr) && p.depth == old(p.depth) && (t != TError ==> p.Rest() == s)
      invariant MembersSoFar(t0, old(p.Rest()), p.depth, members, t, s)
      decreases |p.data| - p.ptr
    {
      if t == TError {
        MembersFail(t0, old(p.Rest()), p.depth, members, t, s);
        return Fails;
      }
      var m := ParseField(p, t);
      if !m.Done? {
        MembersFail(t0, old(p.Rest()), old(p.depth), members, t, s);
        return Fails;
      }
      ghost var s1 := p.Rest();
      var t2 := p.NextToken();
      MembersStep(t0, old(p.Rest()), p.depth, members, t, s, m.value, s1);
      members := members + [m.value];
      if t2 == TObjEnd { return Done(members); }
      if t2 != TComma { return Fails; }
      s := p.Rest();
      t := p.NextToken();
      s := Cjson.NextToken(s).1;
    }
  }

  ghost predicate MembersSoFar(t0: Token, s0: seq<byte>, depth: nat, members: seq<Member>, t: Token, s: seq<byte>)
  {
    forall n :: Look(n) ==> Members(t0, s0, depth) == Behind(members, Members(t, s, depth))
  }

  lemma MembersStart(t: Token, s: seq<byte>, depth: nat)
    ensures MembersSoFar(t, s, depth, [], t, s)
  {
    var r := Members(t, s, depth);
    if r.Got? { assert [] + r.value == r.value; }
  }

  lemma MembersFail(t0: Token, s0: seq<byte>, depth: nat, members: seq<Member>, t: Token, s: seq<byte>)
    requires MembersSoFar(t0, s0, depth, members, t, s) && !Field1(t, s, depth).Got?
    ensures Members(t0, s0, depth) == Failed
  {
    assert Look(0);
  }

  lemma MembersStep(t0: Token, s0: seq<byte>, depth: nat, members: seq<Member>, t: Token, s: seq<byte>, m: Member,
                    s1: seq<byte>)
    requires MembersSoFar(t0, s0, depth, members, t, s) && Field1(t, s, depth) == Got(m, s1)
    ensures var (t2, s2) := NextToken(s1);
      if t2 == TObjEnd then Members(t0, s0, depth) == Got(members + [m], s2)
      else if t2 != TComma then Members(t0, s0, depth) == Failed
      else MembersSoFar(t0, s0, depth, members + [m], NextToken(s2).0, NextToken(s2).1)
  {
    assert Look(0);
    var (t2, s2) := NextToken(s1);
    if t2 == TComma {
      var more := Members(NextToken(s2).0, NextToken(s2).1, depth);
      assert Members(t, s, depth) == Behind([m], more);
      BehindTwice(members, [m], more);
    }
  }

  ghost predicate Told(r: Outcome<Json>, spec: Read<Json>)
  {
    match spec
    case Got(v, _) => r == Done(v)
    case Failed => r == Fails
  }

  /** `json_decode`. */
  method JsonDecode(text: seq<byte>) returns (r: Outcome<Json>)
    ensures Told(r, Decode(text))
  {
    if |text| >= 2 && (text[0] == 0 || text[1] == 0) { return Fails; }
    var p := new Parser(text);
    assert text[0..] == text;
    var t := p.NextToken();
    DecodeIs(text, t, NextToken(text).1);
    if t == TError { return Fails; }
    r := WholeValue(p, t);
  }

  lemma DecodeIs(text: seq<byte>, t: Token, s: seq<byte>)
    requires !(|text| >= 2 && (text[0] == 0 || text[1] == 0)) && NextToken(text) == (t, s)
    ensures Decode(text) == Finished(Value(t, s, 0)) && (t == TError ==> Decode(text) == Failed)
  {
  }

  /** A value and nothing behind it. */
  method WholeValue(p: Parser, t: Token) returns (r: Outcome<Json>)
    requires p.Valid()
    modifies p`ptr, p`length, p`str, p`depth, p.tmp
    ensures Told(r, Finished(Value(t, old(p.Rest()), old(p.depth))))
  {
    r := ProcessValue(p, t);
    if r.Done? {
      var end := p.NextToken();
      if end != TEnd { return Fails; }
    }
  }

  /** Encoding and decoding: every value that can be encoded comes back, but that holes become nulls and
    number keys strings. */
  method EncodeDecode(v: Json) returns (r: Outcome<Json>)
    requires Proper(v)
    ensures r == if Encodable(v, 0) then Done(Canon(v)) else Fails
  {
    var text := JsonEncode(v);
    match text {
      case None => r := Fails;
      case Some(s) =>
        DecodeEncode(v);
        r := JsonDecode(s);
    }
  }

  lemma {:induction false} AccumulateSuffix(s: seq<byte>, base: nat, acc: nat)
    requires base <= 16
    ensures var rest := Accumulate(s, base, acc).1; rest == s[|s| - |rest|..]
    decreases |s|
  {
    if s != [] && DigitOf(s[0]) < base { AccumulateSuffix(s[1..], base, acc * base + DigitOf(s[0])); }
  }

  lemma StrtollSuffix(s: seq<byte>)
    ensures var rest := Strtoll(s).1; rest == s[|s| - |rest|..]
  {
    var t := if Peek(s) == 45 || Peek(s) == 43 then s[1..] else s;
    AccumulateSuffix(Skip(t, 2), 16, 0);
    AccumulateSuffix(t, 8, 0);
    AccumulateSuffix(t, 10, 0);
  }

  lemma BeforeNothing(r: Option<(seq<byte>, seq<byte>)>)
    ensures Before([], r) == r
  {
    if r.Some? { assert [] + r.value.0 == r.value.0; }
  }

  /** The next token is the same from both. */
  ghost predicate SameToken(data: seq<byte>, start: nat, ptr: nat)
  {
    forall n :: Look(n) ==> start <= ptr <= |data| ==> NextToken(data[start..]) == NextToken(data[ptr..])
  }

  lemma SameFirst(data: seq<byte>, ptr: nat)
    requires ptr <= |data|
    ensures SameToken(data, ptr, ptr)
  {
  }

  lemma WhiteSkipped(data: seq<byte>, start: nat, ptr: nat)
    requires SameToken(data, start, ptr) && start <= ptr < |data| && White(data[ptr])
    ensures SameToken(data, start, ptr + 1)
  {
    assert Look(0);
    assert data[ptr..][1..] == data[ptr + 1..];
  }

  /** The token from `start` on, and where it ends. */
  ghost predicate IsToken(data: seq<byte>, start: nat, t: Token, ptr: nat)
  {
    forall n :: Look(n) ==>
      && start <= |data| && ptr <= |data| && NextToken(data[start..]).0 == t
      && (t != TError ==> NextToken(data[start..]).1 == data[ptr..])
  }

  lemma TokenIs(data: seq<byte>, start: nat, t: Token, ptr: nat)
    requires IsToken(data, start, t, ptr) && start <= ptr <= |data|
    ensures t == NextToken(data[start..]).0 && (t != TError ==> data[ptr..] == NextToken(data[start..]).1)
    ensures t != TError && t != TEnd ==> ptr > start
  {
    assert Look(0);
  }

  lemma TokenBehind(data: seq<byte>, start: nat, q: nat, t: Token, ptr: nat)
    requires SameToken(data, start, q) && IsToken(data, q, t, ptr) && start <= q <= |data|
    ensures IsToken(data, start, t, ptr)
  {
    assert Look(0);
  }

  lemma NumberIs(data: seq<byte>, start: nat, t: Token, ptr: nat)
    requires start < |data| && (data[start] == 45 || 48 <= data[start] <= 57 || data[start] == 43) && ptr <= |data|
    requires NumberToken(data[start..]) == (t, data[ptr..])
    ensures IsToken(data, start, t, ptr)
  {
    assert NextToken(data[start..]) == NumberToken(data[start..]);
  }

  lemma EndIs(data: seq<byte>, start: nat)
    requires start <= |data| && (start < |data| ==> data[start] == 0)
    ensures IsToken(data, start, TEnd, start)
  {
  }

  /** Brackets, commas, colons and the three words. */
  function Word(s: seq<byte>): (r: (Token, nat))
    requires s != []
  {
    if s[0] in {44, 58, 91, 93, 123, 125} then (SingleToken(s[0]), 1)
    else if Starts(s, TRUE_TEXT) then (TBoolean(true), 4)
    else if Starts(s, FALSE_TEXT) then (TBoolean(false), 5)
    else if Starts(s, NULL_TEXT) then (TNull, 4)
    else (TError, 0)
  }

  lemma WordIs(data: seq<byte>, start: nat)
    requires start < |data| && data[start] != 0 && !White(data[start]) && data[start] != 34
    requires !(data[start] == 45 || 48 <= data[start] <= 57 || data[start] == 43)
    ensures var w := Word(data[start..]); start + w.1 <= |data| && IsToken(data, start, w.0, start + w.1)
  {
    var s := data[start..];
    var w := Word(s);
    assert s[w.1..] == data[start + w.1..];
    assert NextToken(s).0 == w.0 && (w.0 != TError ==> NextToken(s).1 == s[w.1..]);
  }

  /** What was read from `start` to `ptr`. */
  ghost predicate ReadSoFar(data: seq<byte>, start: nat, done: seq<byte>, ptr: nat)
  {
    forall n :: Look(n) ==>
      start <= ptr <= |data| && ReadString(data[start..]) == Before(done, ReadString(data[ptr..]))
  }

  lemma ReadNone(data: seq<byte>, start: nat)
    requires start <= |data|
    ensures ReadSoFar(data, start, [], start)
  {
    BeforeNothing(ReadString(data[start..]));
  }

  /** The string that begins at `start` and ends before `ptr`. */
  ghost predicate IsString(data: seq<byte>, start: nat, str: seq<byte>, ptr: nat)
  {
    forall n :: Look(n) ==> start <= |data| && ptr <= |data| && ReadString(data[start..]) == Some((str, data[ptr..]))
  }

  ghost predicate Unreadable(data: seq<byte>, start: nat)
  {
    forall n :: Look(n) ==> start <= |data| && ReadString(data[start..]) == None
  }

  lemma StringTokenIs(data: seq<byte>, quote: nat, str: seq<byte>, ptr: nat)
    requires quote < |data| && data[quote] == 34 && IsString(data, quote + 1, str, ptr)
    ensures IsToken(data, quote, TString(str), ptr)
  {
    assert Look(0);
    assert data[quote..][1..] == data[quote + 1..];
  }

  lemma NoStringToken(data: seq<byte>, quote: nat, ptr: nat)
    requires quote < |data| && data[quote] == 34 && Unreadable(data, quote + 1) && ptr <= |data|
    ensures IsToken(data, quote, TError, ptr)
  {
    assert Look(0);
    assert data[quote..][1..] == data[quote + 1..];
  }

  ghost predicate IsChar(data: seq<byte>, ptr: nat, u: Option<(seq<byte>, nat)>)
  {
    forall n :: Look(n) ==> ptr <= |data| && u == ReadChar(data[ptr..])
  }

  lemma ReadOne(s: seq<byte>, u: Option<(seq<byte>, nat)>, r: Option<(seq<byte>, seq<byte>)>)
    requires s != [] && s[0] != 34 && u == ReadChar(s) && r == ReadString(s)
    ensures r == if u.None? then None else Before(u.value.0, ReadString(s[u.value.1..]))
  {
  }

  lemma CharIs(data: seq<byte>, ptr: nat, u: Option<(seq<byte>, nat)>)
    requires IsChar(data, ptr, u)
    ensures ptr <= |data| && u == ReadChar(data[ptr..])
    ensures u.Some? ==> 1 <= |u.value.0| <= u.value.1 <= |data| - ptr
  {
    assert Look(0);
  }

  /** Reading goes on behind the character, or fails. */
  ghost predicate StepAt(data: seq<byte>, ptr: nat, u: Option<(seq<byte>, nat)>)
  {
    forall n :: Look(n) ==>
      && ptr <= |data| && (u.Some? ==> u.value.1 <= |data| - ptr)
      && ReadString(data[ptr..]) == if u.None? then None else Before(u.value.0, ReadString(data[ptr + u.value.1..]))
  }

  lemma StepIs(data: seq<byte>, ptr: nat, u: Option<(seq<byte>, nat)>)
    requires ptr < |data| && data[ptr] != 34 && u == ReadChar(data[ptr..]) && (u.Some? ==> u.value.1 <= |data| - ptr)
    ensures StepAt(data, ptr, u)
  {
    ReadOne(data[ptr..], u, ReadString(data[ptr..]));
    if u.Some? { assert data[ptr..][u.value.1..] == data[ptr + u.value.1..]; }
  }

  lemma StepSoFar(data: seq<byte>, start: nat, done: seq<byte>, ptr: nat, u: Option<(seq<byte>, nat)>)
    requires ReadSoFar(data, start, done, ptr) && StepAt(data, ptr, u)
    ensures if u.None? then Unreadable(data, start) else ReadSoFar(data, start, done + u.value.0, ptr + u.value.1)
  {
    assert Look(0);
    if u.Some? { BeforeTwice(done, u.value.0, ReadString(data[ptr + u.value.1..])); }
  }

  lemma ReadMore(data: seq<byte>, start: nat, done: seq<byte>, ptr: nat, u: Option<(seq<byte>, nat)>)
    requires ReadSoFar(data, start, done, ptr) && ptr < |data| && data[ptr] != 34 && IsChar(data, ptr, u)
    ensures u.Some? ==> 1 <= |u.value.0| <= u.value.1 <= |data| - ptr
    ensures if u.None? then Unreadable(data, start) else ReadSoFar(data, start, done + u.value.0, ptr + u.value.1)
  {
    CharIs(data, ptr, u);
    StepIs(data, ptr, u);
    StepSoFar(data, start, done, ptr, u);
  }

  lemma ReadAll(data: seq<byte>, start: nat, done: seq<byte>, ptr: nat)
    requires ReadSoFar(data, start, done, ptr) && (ptr < |data| ==> data[ptr] == 34)
    ensures if ptr < |data| then IsString(data, start, done, ptr + 1) else Unreadable(data, start)
  {
    assert Look(0);
    if ptr < |data| {
      assert data[ptr..][1..] == data[ptr + 1..];
      assert done + [] == done;
    }
  }
}
