/** The memory of `lua-seri.c`: the chain of blocks that packing writes, and the cursor with which
  unpacking reads. */
module SerializeBlocks {
  import opened Basics
  import opened Serialize

  const BLOCK_SIZE: nat := 128

  /** `memcpy` of `size` bytes to place `at`. */
  method Copy(buffer: array<byte>, at: nat, b: array<byte>, size: nat)
    requires buffer != b && at + size <= buffer.Length && size <= b.Length
    modifies buffer
    ensures buffer[..at + size] == old(buffer[..at]) + b[..size]
  {
    forall k | 0 <= k < size { buffer[at + k] := b[k]; }
  }

  /** `struct write_block`, with its chain of blocks. */
  class WriteBlock {
    var blocks: seq<array<byte>>
    var len: nat
    var ptr: nat
    /** All that was pushed. */
    ghost var contents: seq<byte>
    ghost var repr: set<object>

    ghost predicate Valid()
      reads this, repr
    {
      this in repr && forall n :: Look(n) ==> Laid()
    }

    ghost predicate Laid()
      reads this, repr
    {
      var last := |blocks| - 1;
      && this in repr && (forall i :: 0 <= i < |blocks| ==> blocks[i] in repr)
      && last >= 0 && ptr <= BLOCK_SIZE && len == |contents| == BLOCK_SIZE * last + ptr
      && (forall i :: 0 <= i < |blocks| ==> blocks[i].Length == BLOCK_SIZE)
      && (forall i, j :: 0 <= i < j < |blocks| ==> blocks[i] != blocks[j])
      && (forall i :: 0 <= i < last ==> blocks[i][..] == contents[BLOCK_SIZE * i..BLOCK_SIZE * i + BLOCK_SIZE])
      && blocks[last][..ptr] == contents[BLOCK_SIZE * last..]
    }

    /** `wb_init`. */
    constructor ()
      ensures Valid() && contents == [] && fresh(repr)
    {
      var b := new byte[BLOCK_SIZE](i => 0);
      blocks, len, ptr, contents, repr := [b], 0, 0, [], {this, b};
    }

    /** A new block behind a full one. */
    method Grow()
      requires Valid() && ptr == BLOCK_SIZE
      modifies this
      ensures Valid() && contents == old(contents) && ptr == 0
      ensures |blocks| == |old(blocks)| + 1 && old(blocks) <= blocks && fresh(repr - old(repr))
    {
      assert Look(0);
      var b := new byte[BLOCK_SIZE](i => 0);
      var last := |blocks| - 1;
      assert blocks[last][..ptr] == blocks[last][..];
      assert contents[BLOCK_SIZE * last..] == contents[BLOCK_SIZE * last..BLOCK_SIZE * last + BLOCK_SIZE];
      blocks, ptr, repr := blocks + [b], 0, repr + {b};
    }

    /** Bytes that fit into the last block. */
    method Append(buffer: seq<byte>)
      requires Valid() && ptr + |buffer| <= BLOCK_SIZE
      modifies repr
      ensures Valid() && blocks == old(blocks) && repr == old(repr) && contents == old(contents) + buffer
              && ptr == old(ptr) + |buffer|
    {
      assert Look(0);
      var last := |blocks| - 1;
      ghost var before := blocks[last][..ptr];
      var b := blocks[last];
      forall i | 0 <= i < |buffer| { b[ptr + i] := buffer[i]; }
      ptr, len, contents := ptr + |buffer|, len + |buffer|, contents + buffer;
      assert b[..ptr] == before + buffer;
    }

    /** `wb_push`: what does not fit goes on in new blocks. */
    method Push(buffer: seq<byte>)
      requires Valid()
      modifies repr
      ensures Valid() && contents == old(contents) + buffer && fresh(repr - old(repr))
    {
      assert Look(0);
      var rest := buffer;
      if ptr == BLOCK_SIZE { Grow(); }
      while ptr + |rest| > BLOCK_SIZE
        invariant Valid() && ptr < BLOCK_SIZE && contents + rest == old(contents) + buffer
        invariant fresh(repr - old(repr))
        decreases |rest|
      {
        var copy := BLOCK_SIZE - ptr;
        assert rest == rest[..copy] + rest[copy..];
        Append(rest[..copy]);
        rest := rest[copy..];
        Grow();
      }
      Append(rest);
    }

    /** What block `i` holds of the contents. */
    lemma BlockHolds(i: nat, size: nat)
      requires Valid() && i < |blocks| && BLOCK_SIZE * i < len
      requires size == if len - BLOCK_SIZE * i >= BLOCK_SIZE then BLOCK_SIZE else len - BLOCK_SIZE * i
      ensures BLOCK_SIZE * i + size <= len == |contents| && blocks[i].Length == BLOCK_SIZE
      ensures blocks[i][..size] == contents[BLOCK_SIZE * i..BLOCK_SIZE * i + size]
      ensures BLOCK_SIZE * i + size < len ==> size == BLOCK_SIZE && i + 1 < |blocks|
    {
      assert Look(0);
      var at := BLOCK_SIZE * i;
      if i < |blocks| - 1 {
        assert size == BLOCK_SIZE && blocks[i][..size] == blocks[i][..];
      } else {
        assert size == ptr && contents[at..] == contents[at..at + size];
      }
    }

    /** `seri`: the blocks, one behind the other. */
    method Seri() returns (buffer: array<byte>)
      requires Valid()
      ensures fresh(buffer) && buffer[..] == contents
    {
      assert Look(0);
      buffer := new byte[len](i => 0);
      var i: nat, rest: nat := 0, len;
      while rest > 0
        invariant 0 <= rest <= len && (rest > 0 ==> i < |blocks| && rest == len - BLOCK_SIZE * i)
        invariant buffer[..len - rest] == contents[..len - rest]
        modifies buffer
      {
        var at, size := BLOCK_SIZE * i, if rest >= BLOCK_SIZE then BLOCK_SIZE else rest;
        BlockHolds(i, size);
        Copy(buffer, at, blocks[i], size);
        FrontGrows(contents, at, size);
        i, rest := i + 1, rest - size;
      }
      assert buffer[..] == buffer[..len] && contents[..len] == contents;
    }
  }

  lemma FrontGrows(s: seq<byte>, at: nat, size: nat)
    requires at + size <= |s|
    ensures s[..at + size] == s[..at] + s[at..at + size]
  {
  }

  // ---- Packing -------------------------------------------------------------------------------

  /** No table lies deeper than `MAX_DEPTH` allows: `pack_one` refuses what is deeper, whatever it
    is. */
  ghost predicate Shallow(v: Value, depth: nat)
    decreases v, 1
  {
    depth <= MAX_DEPTH && (v.Table? ==> ShallowTable(v, depth + 1))
  }

  ghost predicate ShallowTable(v: Value, depth: nat)
    requires v.Table?
    decreases v, 0
  {
    && (forall i :: 0 <= i < |v.items| ==> Shallow(v.items[i], depth))
    && (forall i :: 0 <= i < |v.pairs| ==> ShallowPair(v.pairs[i], |v.items|, depth))
  }

  ghost predicate ShallowPair(p: Pair, n: nat, depth: nat)
    decreases p
  {
    InArray(p.key, n) || (Shallow(p.key, depth) && Shallow(p.value, depth))
  }

  /** A step into a table: to a value of its array part, or to the key or the value of another entry. */
  datatype Part = Item(i: nat) | Key(i: nat) | Held(i: nat)

  ghost predicate Into(v: Value, p: Part, w: Value)
  {
    && v.Table?
    && match p
       case Item(i) => i < |v.items| && w == v.items[i]
       case Key(i) => i < |v.pairs| && !InArray(v.pairs[i].key, |v.items|) && w == v.pairs[i].key
       case Held(i) => i < |v.pairs| && !InArray(v.pairs[i].key, |v.items|) && w == v.pairs[i].value
  }

  ghost predicate At(v: Value, path: seq<Part>, w: Value)
    decreases |path|
  {
    if path == [] then w == v else exists u :: Into(v, path[0], u) && At(u, path[1..], w)
  }

  ghost predicate Within(v: Value, depth: nat) { forall path, w :: At(v, path, w) ==> depth + |path| <= 32 }

  lemma WithinParts(v: Value, depth: nat)
    ensures Within(v, depth) <==> depth <= 32 && forall p, u :: Into(v, p, u) ==> Within(u, depth + 1)
  {
    if Within(v, depth) {
      assert At(v, [], v);
      forall p, u, path, w | Into(v, p, u) && At(u, path, w) ensures depth + 1 + |path| <= 32 {
        assert ([p] + path)[1..] == path;
        assert At(v, [p] + path, w);
      }
    } else {
      var path, w :| At(v, path, w) && depth + |path| > 32;
      if path != [] {
        var u :| Into(v, path[0], u) && At(u, path[1..], w);
        assert !Within(u, depth + 1);
      }
    }
  }

  lemma IntoAll(v: Value, depth: nat)
    requires v.Table?
    ensures (forall p, u :: Into(v, p, u) ==> Within(u, depth)) <==>
      && (forall i :: 0 <= i < |v.items| ==> Within(v.items[i], depth))
      && (forall i :: 0 <= i < |v.pairs| && !InArray(v.pairs[i].key, |v.items|) ==>
            Within(v.pairs[i].key, depth) && Within(v.pairs[i].value, depth))
  {
    if forall p, u :: Into(v, p, u) ==> Within(u, depth) {
      forall i | 0 <= i < |v.items| ensures Within(v.items[i], depth) {
        assert Into(v, Item(i), v.items[i]);
      }
      forall i | 0 <= i < |v.pairs| && !InArray(v.pairs[i].key, |v.items|)
        ensures Within(v.pairs[i].key, depth) && Within(v.pairs[i].value, depth)
      {
        assert Into(v, Key(i), v.pairs[i].key) && Into(v, Held(i), v.pairs[i].value);
      }
    }
  }

  /** Packing is refused exactly if something lies more than 32 tables deep. */
  lemma {:induction false} ShallowExactly(v: Value, depth: nat)
    ensures Shallow(v, depth) <==> Within(v, depth)
    decreases v
  {
    WithinParts(v, depth);
    if v.Table? {
      forall i | 0 <= i < |v.items| ensures Shallow(v.items[i], depth + 1) <==> Within(v.items[i], depth + 1) {
        ShallowExactly(v.items[i], depth + 1);
      }
      forall i | 0 <= i < |v.pairs| && !InArray(v.pairs[i].key, |v.items|)
        ensures ShallowPair(v.pairs[i], |v.items|, depth + 1) <==>
          Within(v.pairs[i].key, depth + 1) && Within(v.pairs[i].value, depth + 1)
      {
        ShallowExactly(v.pairs[i].key, depth + 1);
        ShallowExactly(v.pairs[i].value, depth + 1);
      }
      IntoAll(v, depth + 1);
      assert ShallowTable(v, depth + 1) <==>
        && (forall i :: 0 <= i < |v.items| ==> Within(v.items[i], depth + 1))
        && (forall i :: 0 <= i < |v.pairs| && !InArray(v.pairs[i].key, |v.items|) ==>
              Within(v.pairs[i].key, depth + 1) && Within(v.pairs[i].value, depth + 1));
    }
  }

  /** What a packing method does: the bytes come behind those there, if it is not refused. */
  twostate predicate Pushed(wb: WriteBlock, ok: bool, bytes: seq<byte>)
    reads wb, wb.repr
  {
    wb.Valid() && (ok ==> wb.contents == old(wb.contents) + bytes) && fresh(wb.repr - old(wb.repr))
  }

  /** `wb_integer`. */
  method WriteInteger(wb: WriteBlock, v: int)
    requires wb.Valid() && IsInt64(v)
    modifies wb.repr
    ensures Pushed(wb, true, PackInteger(v))
  {
    ghost var before := wb.contents;
    if v == 0 {
      wb.Push([Combine(TYPE_NUMBER, TYPE_NUMBER_ZERO)]);
    } else {
      var cookie, n, k :=
        if !IsInt32(v) then TYPE_NUMBER_QWORD else if v < 0 then TYPE_NUMBER_DWORD
        else if v < 0x100 then TYPE_NUMBER_BYTE else if v < 0x10000 then TYPE_NUMBER_WORD else TYPE_NUMBER_DWORD,
        if v >= 0 then v else if !IsInt32(v) then Unsigned(v, 0x1_0000_0000_0000_0000) else Unsigned(v, 0x1_0000_0000),
        if !IsInt32(v) then 8 else if v < 0 then 4 else if v < 0x100 then 1 else if v < 0x10000 then 2 else 4;
      wb.Push([Combine(TYPE_NUMBER, cookie)]);
      wb.Push(Bytes(n, k));
      Join3(before, [Combine(TYPE_NUMBER, cookie)], Bytes(n, k));
    }
  }

  /** `wb_string`. */
  method WriteString(wb: WriteBlock, s: seq<byte>)
    requires wb.Valid() && |s| < 0x8000_0000
    modifies wb.repr
    ensures Pushed(wb, true, PackString(s))
  {
    ghost var before := wb.contents;
    if |s| < MAX_COOKIE {
      wb.Push([Combine(TYPE_SHORT_STRING, |s|)]);
      if |s| > 0 { wb.Push(s); }
      assert |s| == 0 ==> [Combine(TYPE_SHORT_STRING, |s|)] + s == [Combine(TYPE_SHORT_STRING, |s|)];
      Join3(before, [Combine(TYPE_SHORT_STRING, |s|)], s);
    } else {
      var k := if |s| < 0x10000 then 2 else 4;
      wb.Push([Combine(TYPE_LONG_STRING, k)]);
      wb.Push(Bytes(|s|, k));
      wb.Push(s);
      Join4(before, [Combine(TYPE_LONG_STRING, k)], Bytes(|s|, k), s);
      Join3([Combine(TYPE_LONG_STRING, k)], Bytes(|s|, k), s);
    }
  }

  /** The head that `wb_table_array` writes. */
  method WriteHead(wb: WriteBlock, n: nat)
    requires wb.Valid() && n < 0x8000_0000
    modifies wb.repr
    ensures Pushed(wb, true, PackHead(n))
  {
    ghost var before := wb.contents;
    if n >= MAX_COOKIE - 1 {
      wb.Push([Combine(TYPE_TABLE, MAX_COOKIE - 1)]);
      WriteInteger(wb, n);
      Join3(before, [Combine(TYPE_TABLE, MAX_COOKIE - 1)], PackInteger(n));
    } else {
      wb.Push([Combine(TYPE_TABLE, n)]);
    }
  }

  /** `pack_one`: refused when the value is too deep. */
  method PackOne(wb: WriteBlock, v: Value, depth: nat) returns (ok: bool)
    requires wb.Valid() && Proper(v)
    modifies wb.repr
    ensures Pushed(wb, ok, Pack(v)) && (ok <==> Shallow(v, depth))
    decreases v, 1
  {
    ghost var before := wb.contents;
    ok := depth <= MAX_DEPTH;
    if !ok { return; }
    match v {
      case Nil => wb.Push([Combine(TYPE_NIL, 0)]);
      case Boolean(b) => wb.Push([Combine(TYPE_BOOLEAN, if b then 1 else 0)]);
      case Integer(n) => WriteInteger(wb, n);
      case Real(b) =>
        wb.Push([Combine(TYPE_NUMBER, TYPE_NUMBER_REAL)]);
        wb.Push(b);
        Join3(before, [Combine(TYPE_NUMBER, TYPE_NUMBER_REAL)], b);
      case Pointer(b) =>
        wb.Push([Combine(TYPE_USERDATA, 0)]);
        wb.Push(b);
        Join3(before, [Combine(TYPE_USERDATA, 0)], b);
      case String(s) => WriteString(wb, s);
      case Table(items, pairs) => ok := WriteTable(wb, v, depth + 1);
    }
  }

  lemma PackAllNext(items: seq<Value>, i: nat)
    requires i < |items| && forall k :: 0 <= k < |items| ==> Proper(items[k])
    ensures PackAll(items[..i + 1]) == PackAll(items[..i]) + Pack(items[i])
    decreases i
  {
    if i == 0 {
      assert items[..1][1..] == [] && items[..0] == [];
      assert PackAll(items[..1]) == Pack(items[0]) + PackAll(items[..1][1..]);
    } else {
      PackAllNext(items[1..], i - 1);
      assert items[..i + 1][1..] == items[1..][..i] && items[..i][1..] == items[1..][..i - 1];
      Join3(Pack(items[0]), PackAll(items[1..][..i - 1]), Pack(items[i]));
    }
  }

  function PairBytes(p: Pair, n: nat): seq<byte>
    requires ProperPair(p)
  {
    if InArray(p.key, n) then [] else PackPair(p)
  }

  lemma PackPairsNext(pairs: seq<Pair>, n: nat, i: nat)
    requires i < |pairs| && forall k :: 0 <= k < |pairs| ==> ProperPair(pairs[k])
    ensures PackPairs(pairs[..i + 1], n) == PackPairs(pairs[..i], n) + PairBytes(pairs[i], n)
    decreases i
  {
    if i == 0 {
      assert pairs[..1][1..] == [] && pairs[..0] == [];
      assert PackPairs(pairs[..1], n) == PairBytes(pairs[0], n) + PackPairs(pairs[..1][1..], n);
    } else {
      PackPairsNext(pairs[1..], n, i - 1);
      assert pairs[..i + 1][1..] == pairs[1..][..i] && pairs[..i][1..] == pairs[1..][..i - 1];
      Join3(PairBytes(pairs[0], n), PackPairs(pairs[1..][..i - 1], n), PairBytes(pairs[i], n));
    }
  }

  /** `wb_table`, for a table without a metatable. */
  method WriteTable(wb: WriteBlock, v: Value, depth: nat) returns (ok: bool)
    requires wb.Valid() && v.Table? && Proper(v)
    modifies wb.repr
    ensures Pushed(wb, ok, Pack(v))
    ensures ok <==> ShallowTable(v, depth)
    decreases v, 0
  {
    ghost var before := wb.contents;
    ok := WriteArray(wb, v.items, depth);
    if !ok { return; }
    ok := WriteHash(wb, v.pairs, |v.items|, depth);
    if !ok { return; }
    wb.Push([Combine(TYPE_NIL, 0)]);
    Join5(before, PackHead(|v.items|), PackAll(v.items), PackPairs(v.pairs, |v.items|), [Combine(TYPE_NIL, 0)]);
    Join4(PackHead(|v.items|), PackAll(v.items), PackPairs(v.pairs, |v.items|), [Combine(TYPE_NIL, 0)]);
  }

  /** `wb_table_array`. */
  method WriteArray(wb: WriteBlock, items: seq<Value>, depth: nat) returns (ok: bool)
    requires wb.Valid() && |items| < 0x8000_0000 && forall i :: 0 <= i < |items| ==> Proper(items[i])
    modifies wb.repr
    ensures Pushed(wb, ok, PackHead(|items|) + PackAll(items))
    ensures ok <==> forall i :: 0 <= i < |items| ==> Shallow(items[i], depth)
    decreases items
  {
    ghost var before := wb.contents;
    WriteHead(wb, |items|);
    ghost var head := wb.contents;
    var i := 0;
    assert items[..0] == [] && head + [] == head;
    while i < |items|
      invariant 0 <= i <= |items| && wb.Valid() && wb.contents == head + PackAll(items[..i])
      invariant fresh(wb.repr - old(wb.repr))
      invariant forall k :: 0 <= k < i ==> Shallow(items[k], depth)
    {
      ok := PackOne(wb, items[i], depth);
      if !ok { return; }
      PackAllNext(items, i);
      Join3(head, PackAll(items[..i]), Pack(items[i]));
      i := i + 1;
    }
    assert items[..i] == items;
    Join3(before, PackHead(|items|), PackAll(items));
    ok := true;
  }

  /** `wb_table_hash`, but for the nil at its end. */
  method WriteHash(wb: WriteBlock, pairs: seq<Pair>, n: nat, depth: nat) returns (ok: bool)
    requires wb.Valid() && forall i :: 0 <= i < |pairs| ==> ProperPair(pairs[i])
    modifies wb.repr
    ensures Pushed(wb, ok, PackPairs(pairs, n))
    ensures ok <==> forall i :: 0 <= i < |pairs| ==> ShallowPair(pairs[i], n, depth)
    decreases pairs
  {
    ghost var before := wb.contents;
    var i := 0;
    assert pairs[..0] == [] && before + [] == before;
    while i < |pairs|
      invariant 0 <= i <= |pairs| && wb.Valid() && wb.contents == before + PackPairs(pairs[..i], n)
      invariant fresh(wb.repr - old(wb.repr))
      invariant forall k :: 0 <= k < i ==> ShallowPair(pairs[k], n, depth)
    {
      ok := WritePair(wb, pairs[i], n, depth);
      if !ok { return; }
      PackPairsNext(pairs, n, i);
      Join3(before, PackPairs(pairs[..i], n), PairBytes(pairs[i], n));
      i := i + 1;
    }
    assert pairs[..i] == pairs;
    ok := true;
  }

  /** One entry: those of the array part were written there. */
  method WritePair(wb: WriteBlock, p: Pair, n: nat, depth: nat) returns (ok: bool)
    requires wb.Valid() && ProperPair(p)
    modifies wb.repr
    ensures Pushed(wb, ok, PairBytes(p, n)) && (ok <==> ShallowPair(p, n, depth))
    decreases p
  {
    ghost var before := wb.contents;
    if InArray(p.key, n) { return true; }
    ok := PackOne(wb, p.key, depth);
    if !ok { return; }
    ok := PackOne(wb, p.value, depth);
    if !ok { return; }
    Join3(before, Pack(p.key), Pack(p.value));
  }

  /** `luaseri_pack`: all the values of a call, or none when one of them is too deep. */
  method SeriPack(vs: seq<Value>) returns (r: Option<array<byte>>)
    requires forall i :: 0 <= i < |vs| ==> Proper(vs[i])
    ensures r.Some? <==> forall i :: 0 <= i < |vs| ==> Shallow(vs[i], 0)
    ensures r.Some? ==> fresh(r.value) && r.value[..] == PackAll(vs)
  {
    var wb := new WriteBlock();
    var i := 0;
    assert vs[..0] == [];
    while i < |vs|
      invariant 0 <= i <= |vs| && wb.Valid() && wb.contents == PackAll(vs[..i]) && fresh(wb.repr)
      invariant forall k :: 0 <= k < i ==> Shallow(vs[k], 0)
    {
      var ok := PackOne(wb, vs[i], 0);
      if !ok { return None; }
      PackAllNext(vs, i);
      i := i + 1;
    }
    assert vs[..i] == vs;
    var buffer := wb.Seri();
    r := Some(buffer);
  }

  // ---- Unpacking -----------------------------------------------------------------------------

  /** `struct read_block`: `len` bytes are left from place `ptr` on. */
  class ReadBlock {
    const buffer: array<byte>
    var len: nat
    var ptr: nat

    ghost predicate Valid()
      reads this
    {
      ptr + len == buffer.Length
    }

    ghost function Left(): seq<byte>
      requires Valid()
      reads this, buffer
    {
      buffer[ptr..]
    }

    /** `rball_init`. */
    constructor (buffer: array<byte>)
      ensures Valid() && this.buffer == buffer && Left() == buffer[..]
    {
      this.buffer := buffer;
      len, ptr := buffer.Length, 0;
    }

    /** `rb_read`. */
    method Read(sz: nat) returns (r: Option<seq<byte>>)
      requires Valid()
      modifies this
      ensures Valid() && Reads(this, r, Take(old(Left()), sz)) && (r == None ==> Left() == old(Left()))
    {
      if len < sz { return None; }
      var at := ptr;
      assert buffer[at..][..sz] == buffer[at..at + sz] && buffer[at..][sz..] == buffer[at + sz..];
      ptr, len := ptr + sz, len - sz;
      r := Some(buffer[at..at + sz]);
    }
  }

  /** What a reading method does: it returns the value and leaves the rest, or fails. */
  ghost predicate Reads<T(!new)>(rb: ReadBlock, r: Option<T>, spec: Read<T>)
    requires rb.Valid()
    reads rb, rb.buffer
  {
    match spec
    case Failed => r == None
    case Got(v, rest) => r == Some(v) && rb.Left() == rest
  }

  /** `get_integer`. */
  method ReadInteger(rb: ReadBlock, cookie: nat) returns (r: Option<int>)
    requires rb.Valid()
    modifies rb
    ensures rb.Valid() && Reads(rb, r, UnpackInteger(old(rb.Left()), cookie))
  {
    if cookie == TYPE_NUMBER_ZERO { return Some(0); }
    var k, m :=
      if cookie == TYPE_NUMBER_BYTE then 1 else if cookie == TYPE_NUMBER_WORD then 2
      else if cookie == TYPE_NUMBER_DWORD then 4 else if cookie == TYPE_NUMBER_QWORD then 8 else 0,
      if cookie == TYPE_NUMBER_BYTE then 0x200 else if cookie == TYPE_NUMBER_WORD then 0x2_0000
      else if cookie == TYPE_NUMBER_DWORD then 0x1_0000_0000 else 0x1_0000_0000_0000_0000;
    if k == 0 { return None; }
    var b := rb.Read(k);
    r := if b == None then None else Some(Signed(Number(b.value), m));
  }

  /** `get_buffer`. */
  method ReadString(rb: ReadBlock, n: nat) returns (r: Option<Value>)
    requires rb.Valid()
    modifies rb
    ensures rb.Valid() && Reads(rb, r, UnpackString(old(rb.Left()), n))
  {
    var b := rb.Read(n);
    r := if b == None then None else Some(String(b.value));
  }

  method ReadLong(rb: ReadBlock, k: nat) returns (r: Option<Value>)
    requires rb.Valid()
    modifies rb
    ensures rb.Valid() && Reads(rb, r, UnpackLong(old(rb.Left()), k))
  {
    var b := rb.Read(k);
    if b == None || Number(b.value) >= 0x8000_0000 { return None; }
    r := ReadString(rb, Number(b.value));
  }

  /** `unpack_one`. */
  method UnpackOne(rb: ReadBlock) returns (r: Option<Value>)
    requires rb.Valid()
    modifies rb
    ensures rb.Valid() && Reads(rb, r, Unpack(old(rb.Left())))
    decreases rb.len, 0
  {
    var t := rb.Read(1);
    if t == None { return None; }
    var x := t.value[0] as nat;
    r := ReadValue(rb, x % 8, x / 8);
  }

  /** `push_value`. */
  method ReadValue(rb: ReadBlock, t: nat, cookie: nat) returns (r: Option<Value>)
    requires rb.Valid()
    modifies rb
    ensures rb.Valid() && Reads(rb, r, PushValue(old(rb.Left()), t, cookie))
    decreases rb.len, 3
  {
    if t == TYPE_NIL { return Some(Nil); }
    if t == TYPE_BOOLEAN { return Some(Boolean(cookie != 0)); }
    if t == TYPE_NUMBER {
      if cookie == TYPE_NUMBER_REAL {
        var b := rb.Read(8);
        return if b == None then None else Some(Real(b.value));
      }
      var n := ReadInteger(rb, cookie);
      return if n == None then None else Some(Integer(n.value));
    }
    if t == TYPE_USERDATA {
      var b := rb.Read(8);
      return if b == None then None else Some(Pointer(b.value));
    }
    if t == TYPE_SHORT_STRING {
      r := ReadString(rb, cookie);
    } else if t == TYPE_LONG_STRING {
      if cookie != 2 && cookie != 4 { return None; }
      r := ReadLong(rb, cookie);
    } else if t == TYPE_TABLE {
      r := ReadTable(rb, cookie);
    } else {
      r := None;
    }
  }

  /** The length at the head of a table. */
  method ReadLength(rb: ReadBlock, cookie: nat) returns (r: Option<int>)
    requires rb.Valid()
    modifies rb
    ensures rb.Valid() && Reads(rb, r, UnpackLength(old(rb.Left()), cookie))
  {
    if cookie != MAX_COOKIE - 1 { return Some(cookie); }
    var t := rb.Read(1);
    if t == None { return None; }
    var x := t.value[0] as nat;
    if x % 8 != TYPE_NUMBER || x / 8 == TYPE_NUMBER_REAL { return None; }
    var n := ReadInteger(rb, x / 8);
    r := if n == None then None else Some(Truncate(n.value));
  }

  /** `unpack_table`. */
  method ReadTable(rb: ReadBlock, cookie: nat) returns (r: Option<Value>)
    requires rb.Valid()
    modifies rb
    ensures rb.Valid() && Reads(rb, r, UnpackTable(old(rb.Left()), cookie))
    decreases rb.len, 2
  {
    var n := ReadLength(rb, cookie);
    if n == None { return None; }
    var items := ReadItems(rb, n.value);
    if items == None { return None; }
    var pairs := ReadPairs(rb);
    r := if pairs == None then None else Some(Table(items.value, pairs.value));
  }

  /** What is read in front of the rest. */
  function Before<T>(front: seq<T>, r: Read<seq<T>>): Read<seq<T>>
  {
    match r
    case Failed => Failed
    case Got(v, rest) => Got(front + v, rest)
  }

  lemma BeforeMore<T>(front: seq<T>, v: T, r: Read<seq<T>>)
    ensures Before([], r) == r
    ensures Before(front, Before([v], r)) == Before(front + [v], r)
  {
    if r.Got? {
      assert [] + r.value == r.value;
      assert front + ([v] + r.value) == front + [v] + r.value;
    }
  }

  method ReadItems(rb: ReadBlock, n: int) returns (r: Option<seq<Value>>)
    requires rb.Valid()
    modifies rb
    ensures rb.Valid() && Reads(rb, r, UnpackAll(old(rb.Left()), n))
    decreases rb.len, 1
  {
    ghost var all := UnpackAll(rb.Left(), n);
    var i, items: seq<Value> := 0, [];
    BeforeMore([], Nil, all);
    while i < n
      invariant 0 <= i && (i <= n || i == 0) && rb.Valid() && rb.len <= old(rb.len)
      invariant all == Before(items, UnpackAll(rb.Left(), n - i))
    {
      var v := UnpackOne(rb);
      if v == None { return None; }
      ghost var rest := UnpackAll(rb.Left(), n - i - 1);
      BeforeMore(items, v.value, rest);
      items := items + [v.value];
      i := i + 1;
    }
    assert items + [] == items;
    r := Some(items);
  }

  method ReadPairs(rb: ReadBlock) returns (r: Option<seq<Pair>>)
    requires rb.Valid()
    modifies rb
    ensures rb.Valid() && Reads(rb, r, UnpackPairs(old(rb.Left())))
    decreases rb.len, 1
  {
    ghost var all := UnpackPairs(rb.Left());
    var pairs: seq<Pair> := [];
    BeforeMore([], Pair(Nil, Nil), all);
    while true
      invariant rb.Valid() && rb.len <= old(rb.len) && all == Before(pairs, UnpackPairs(rb.Left()))
      decreases rb.len
    {
      var k := UnpackOne(rb);
      if k == None { return None; }
      if k.value == Nil {
        assert pairs + [] == pairs;
        return Some(pairs);
      }
      var v := UnpackOne(rb);
      if v == None { return None; }
      BeforeMore(pairs, Pair(k.value, v.value), UnpackPairs(rb.Left()));
      pairs := pairs + [Pair(k.value, v.value)];
    }
  }

  /** The loop of `luaseri_unpack`. */
  method ReadList(rb: ReadBlock) returns (r: Option<seq<Value>>)
    requires rb.Valid()
    modifies rb
    ensures r == UnpackList(old(rb.Left()))
  {
    ghost var all := UnpackList(rb.Left());
    var vs: seq<Value> := [];
    ListMore([], Nil, all);
    while rb.len > 0
      invariant rb.Valid() && all == ListBefore(vs, UnpackList(rb.Left()))
      decreases rb.len
    {
      ghost var left := rb.Left();
      var v := UnpackOne(rb);
      if v == None { return None; }
      assert UnpackList(left) == ListBefore([v.value], UnpackList(rb.Left()));
      ListMore(vs, v.value, UnpackList(rb.Left()));
      vs := vs + [v.value];
    }
    assert rb.Left() == [] && vs + [] == vs;
    r := Some(vs);
  }

  /** `luaseri_unpack`. */
  method SeriUnpack(buffer: array<byte>) returns (r: Option<seq<Value>>)
    ensures r == UnpackList(buffer[..])
  {
    var rb := new ReadBlock(buffer);
    r := ReadList(rb);
  }

  function ListBefore(front: seq<Value>, r: Option<seq<Value>>): Option<seq<Value>>
  {
    if r == None then None else Some(front + r.value)
  }

  lemma ListMore(front: seq<Value>, v: Value, r: Option<seq<Value>>)
    ensures ListBefore([], r) == r
    ensures ListBefore(front, ListBefore([v], r)) == ListBefore(front + [v], r)
  {
    if r.Some? {
      assert [] + r.value == r.value;
      assert front + ([v] + r.value) == front + [v] + r.value;
    }
  }

  /** What is packed and unpacked is there again: every value, but that the entries of the array
    parts are not stored twice. */
  method PackUnpack(vs: seq<Value>) returns (r: Option<seq<Value>>)
    requires forall i :: 0 <= i < |vs| ==> Proper(vs[i])
    ensures r == if forall i :: 0 <= i < |vs| ==> Shallow(vs[i], 0) then Some(StripAll(vs)) else None
  {
    var buffer := SeriPack(vs);
    if buffer == None { return None; }
    r := SeriUnpack(buffer.value);
    ListBack(vs);
  }
}
