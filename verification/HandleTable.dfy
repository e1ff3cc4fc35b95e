/** The handle registry of `skynet_handle.c`: a slot table that doubles, and a sorted name table. */
module HandleTable {
  import opened Basics

  /** Handles have 24 bits; the bits above are the harbor. */
  const SPACE: nat := 0x100_0000

  const DEFAULT_SLOT_SIZE: nat := 4

  /** A context in the table, with its handle. */
  datatype Entry = Entry(ctx: nat, handle: nat)

  function Pow2(e: nat): (n: nat)
    ensures n > 0
  {
    if e == 0 then 1 else 2 * Pow2(e - 1)
  }

  /** The table sizes: 4, 8, and so on up to 2^24. */
  ghost predicate IsSize(n: nat) { exists e: nat :: 2 <= e <= 24 && n == Pow2(e) }

  // ---- Remainders --------------------------------------------------------------------------

  lemma ModUnique(x: nat, n: nat, q: nat, r: nat)
    requires x == n * q + r && r < n
    ensures x % n == r
  {
    var q' := x / n;
    assert x == n * q' + x % n;
    if q' > q { Grows(n, q + 1, q'); } else if q' < q { Grows(n, q' + 1, q); }
  }

  lemma Grows(n: nat, q: nat, q': nat)
    requires q <= q'
    ensures n * q <= n * q' && n * q == n * (q - 1) + n
  {
  }

  lemma {:induction false} Pow2Split(e: nat, f: nat)
    ensures Pow2(e + f) == Pow2(e) * Pow2(f)
    decreases e
  {
    if e > 0 { Pow2Split(e - 1, f); }
  }

  lemma SpaceIsPow2()
    ensures Pow2(24) == SPACE
  {
    assert Pow2(8) == 256;
    Pow2Split(8, 8);
    Pow2Split(16, 8);
  }

  /** A multiple of `n` more does not change the remainder. */
  lemma ModPlus(x: nat, n: nat, k: nat)
    requires n > 0
    ensures (x + n * k) % n == x % n
  {
    ModUnique(x + n * k, n, x / n + k, x % n);
  }

  lemma SizeDivides(n: nat) returns (q: nat)
    requires IsSize(n)
    ensures n > 0 && n * q == SPACE
  {
    var e: nat :| 2 <= e <= 24 && n == Pow2(e);
    SpaceIsPow2();
    Pow2Split(e, 24 - e);
    q := Pow2(24 - e);
  }

  lemma ModParts(x: nat, n: nat, q: nat, m: nat)
    requires n > 0 && m > 0 && n * q == m
    ensures x % m % n == x % n
  {
    var d := x / m;
    assert x == m * d + x % m;
    Regroup(n, q, d);
    ModPlus(x % m, n, q * d);
  }

  lemma Regroup(n: nat, q: nat, d: nat)
    ensures n * q * d == n * (q * d)
  {
  }

  /** The slot of a handle depends on its last bits only. */
  lemma ModSpace(x: nat, n: nat)
    requires IsSize(n)
    ensures n > 0 && x % SPACE % n == x % n
  {
    var q := SizeDivides(n);
    ModParts(x, n, q, SPACE);
  }

  /** Handles in different slots of a table are in different slots of the doubled table. */
  lemma ModDouble(x: nat, n: nat)
    requires n > 0
    ensures x % (2 * n) % n == x % n && (x % (2 * n) == x % n || x % (2 * n) == x % n + n)
  {
    var y := x % (2 * n);
    assert x == y + n * (2 * (x / (2 * n)));
    ModPlus(y, n, 2 * (x / (2 * n)));
    if y >= n { ModUnique(y, n, 1, y - n); } else { ModUnique(y, n, 0, y); }
  }

  /** Among `n` indices in a row every slot occurs. */
  lemma EverySlot(start: nat, n: nat, h: nat) returns (k: nat)
    requires h < n
    ensures start <= k < start + n && k % n == h
  {
    var r := start % n;
    k := start + if r <= h then h - r else h + n - r;
    var q := start / n;
    assert start == n * q + r;
    if r <= h { ModUnique(k, n, q, h); } else { assert k == n * (q + 1) + h; ModUnique(k, n, q + 1, h); }
  }

  lemma DoubleSize(n: nat)
    requires IsSize(n) && 2 * n <= SPACE
    ensures IsSize(2 * n)
  {
    var e: nat :| 2 <= e <= 24 && n == Pow2(e);
    SpaceIsPow2();
    assert e < 24 && 2 * n == Pow2(e + 1);
  }

  // ---- Names -------------------------------------------------------------------------------

  datatype Name = Name(name: string, handle: nat)

  /** `strcmp(x, y) < 0`. */
  predicate Before(x: string, y: string)
  {
    y != [] && (x == [] || x[0] < y[0] || (x[0] == y[0] && Before(x[1..], y[1..])))
  }

  lemma {:induction false} BeforeTotal(x: string, y: string)
    ensures x == y || Before(x, y) || Before(y, x)
    ensures !(Before(x, y) && Before(y, x)) && !Before(x, x)
    decreases |x|
  {
    if x != [] {
      BeforeTotal(x[1..], x[1..]);
      if y != [] && x[0] == y[0] {
        BeforeTotal(x[1..], y[1..]);
        assert x == [x[0]] + x[1..] && y == [y[0]] + y[1..];
      }
    }
  }

  lemma {:induction false} BeforeTransitive(x: string, y: string, z: string)
    requires Before(x, y) && Before(y, z)
    ensures Before(x, z)
    decreases |x|
  {
    if x != [] && x[0] == y[0] && y[0] == z[0] { BeforeTransitive(x[1..], y[1..], z[1..]); }
  }

  /** Strictly sorted, so that no name occurs twice. */
  ghost predicate Sorted(names: seq<Name>)
  {
    forall i, j :: 0 <= i < j < |names| ==> Before(names[i].name, names[j].name)
  }

  /** Where `name` is, or where it belongs. */
  ghost predicate Position(names: seq<Name>, name: string, k: int, found: bool)
  {
    && 0 <= k <= |names|
    && (found ==> k < |names| && names[k].name == name)
    && (!found ==> forall i :: 0 <= i < k ==> Before(names[i].name, name))
    && (!found ==> forall i :: k <= i < |names| ==> Before(name, names[i].name))
  }

  lemma OnlyThere(names: seq<Name>, name: string, k: int, found: bool, i: nat)
    requires Sorted(names) && Position(names, name, k, found) && i < |names|
    ensures names[i].name == name <==> found && i == k
  {
    BeforeTotal(names[i].name, name);
    if found { BeforeTotal(names[i].name, names[k].name); }
  }

  /** The binary search of `skynet_handle_findname` and `_insert_name`. */
  method Search(names: seq<Name>, name: string) returns (k: nat, found: bool)
    requires Sorted(names)
    ensures Position(names, name, k, found)
  {
    var begin, end := 0, |names| - 1;
    while begin <= end
      invariant 0 <= begin <= end + 1 <= |names|
      invariant forall i :: 0 <= i < begin ==> Before(names[i].name, name)
      invariant forall i :: end < i < |names| ==> Before(name, names[i].name)
    {
      var mid := (begin + end) / 2;
      var n := names[mid].name;
      if n == name {
        return mid, true;
      }
      BeforeTotal(n, name);
      if Before(n, name) {
        forall i | 0 <= i < mid ensures Before(names[i].name, name) { BeforeTransitive(names[i].name, n, name); }
        begin := mid + 1;
      } else {
        forall i | mid < i < |names| ensures Before(name, names[i].name) { BeforeTransitive(name, n, names[i].name); }
        end := mid - 1;
      }
    }
    return begin, false;
  }

  /** The names of the other handles, in order. */
  function Without(names: seq<Name>, handle: nat): (r: seq<Name>)
  {
    if names == [] then [] else
    var init, last := names[..|names| - 1], names[|names| - 1];
    Without(init, handle) + if last.handle == handle then [] else [last]
  }

  lemma {:induction false} WithoutExactly(names: seq<Name>, handle: nat)
    ensures forall n :: n in Without(names, handle) <==> n in names && n.handle != handle
  {
    if names != [] { WithoutExactly(names[..|names| - 1], handle); }
  }

  lemma {:induction false} WithoutSorted(names: seq<Name>, handle: nat)
    requires Sorted(names)
    ensures Sorted(Without(names, handle))
  {
    if names != [] {
      var init, last := names[..|names| - 1], names[|names| - 1];
      WithoutSorted(init, handle);
      WithoutExactly(init, handle);
      var rest := Without(init, handle);
      forall k | 0 <= k < |rest| ensures Before(rest[k].name, last.name) {
        assert rest[k] in rest && rest[k] in init;
      }
    }
  }

  lemma WithoutNext(names: seq<Name>, i: nat, handle: nat)
    requires i < |names|
    ensures Without(names[..i + 1], handle)
      == Without(names[..i], handle) + if names[i].handle == handle then [] else [names[i]]
  {
    assert names[..i + 1][..i] == names[..i];
  }

  // ---- The registry ------------------------------------------------------------------------

  /** The `i`th handle counted from the start; the index wraps after 24 bits. */
  function HandleOf(harbor: nat, k: nat): (h: nat) { harbor * SPACE + k % SPACE }

  /** Two places of the index give the same handle exactly when they are a multiple of 2^24 apart. */
  lemma SameHandle(harbor: nat, k: nat, k': nat)
    requires k <= k'
    ensures HandleOf(harbor, k) == HandleOf(harbor, k') <==> (k' - k) % SPACE == 0
  {
  }

  /** The places at which handles were issued, one after the other, when each search went over at
    most `n` slots. */
  ghost predicate Issued(ks: seq<nat>, n: nat)
  {
    forall m :: 0 <= m < |ks| - 1 ==> ks[m] < ks[m + 1] <= ks[m] + n
  }

  lemma {:induction false} IssuedApart(ks: seq<nat>, n: nat, i: nat, j: nat)
    requires Issued(ks, n) && i < j < |ks|
    ensures ks[i] < ks[j] <= ks[i] + n * (j - i)
    decreases j
  {
    if i + 1 < j {
      IssuedApart(ks, n, i, j - 1);
      assert ks[j - 1] < ks[j - 1 + 1] <= ks[j - 1] + n;
      Grows(n, 0, j - i);
    }
  }

  /** With a table of `n` slots no handle is issued again within `2^24 / n` registrations. */
  lemma NoReissue(harbor: nat, ks: seq<nat>, n: nat, i: nat, j: nat)
    requires Issued(ks, n) && i < j < |ks| && n * (j - i) < SPACE
    ensures HandleOf(harbor, ks[i]) != HandleOf(harbor, ks[j])
  {
    IssuedApart(ks, n, i, j);
    SameHandle(harbor, ks[i], ks[j]);
  }

  type Slots = seq<Option<Entry>>

  /** What a slot holds belongs there and is registered. */
  ghost predicate SlotOk(slots: Slots, table: map<nat, nat>, i: int)
  {
    0 <= i < |slots| && slots[i].Some? ==>
      var e := slots[i].value;
      e.handle % |slots| == i && e.handle in table && table[e.handle] == e.ctx
  }

  /** A registered context is in the slot given by the last bits of its handle. */
  ghost predicate HandleOk(slots: Slots, table: map<nat, nat>, harbor: nat, h: nat)
  {
    h in table ==> |slots| > 0 && h / SPACE == harbor && slots[h % |slots|] == Some(Entry(table[h], h))
  }

  ghost predicate Held(slots: Slots, table: map<nat, nat>, harbor: nat)
  {
    (forall i :: SlotOk(slots, table, i)) && forall h :: HandleOk(slots, table, harbor, h)
  }

  /** What the doubled table holds in slot `x` when the first `i` slots have been moved. */
  ghost function Moved(slots: Slots, i: nat, x: nat): Option<Entry>
    requires |slots| > 0
  {
    var e := slots[x % |slots|];
    if x % |slots| < i && e.Some? && e.value.handle % (2 * |slots|) == x then e else None
  }

  /** No registered handle is in the slot of place `k`. */
  ghost predicate FreeAt(table: map<nat, nat>, n: nat, k: nat)
  {
    n > 0 && forall h :: h in table ==> h % n != k % n
  }

  /** The first place from `from` on whose slot is free. */
  ghost predicate FirstFree(table: map<nat, nat>, n: nat, from: nat, k: nat)
  {
    from <= k && FreeAt(table, n, k) && forall j :: from <= j < k ==> !FreeAt(table, n, j)
  }

  ghost predicate Full(table: map<nat, nat>, n: nat) { forall k :: !FreeAt(table, n, k) }

  lemma SlotFree(slots: Slots, table: map<nat, nat>, harbor: nat, k: nat)
    requires Held(slots, table, harbor) && |slots| > 0
    ensures slots[k % |slots|] == None <==> FreeAt(table, |slots|, k)
  {
    if slots[k % |slots|] == None {
      forall h | h in table ensures h % |slots| != k % |slots| { assert HandleOk(slots, table, harbor, h); }
    } else {
      assert SlotOk(slots, table, k % |slots|);
    }
  }

  /** The multiple of 2^24 at or next behind `from`. */
  function NextZero(from: nat): (z: nat)
    ensures from <= z < from + SPACE && z % SPACE == 0
  {
    if from % SPACE == 0 then from else from + SPACE - from % SPACE
  }

  lemma ZerosApart(z: nat, k: nat)
    requires z % SPACE == 0 && k % SPACE == 0 && z < k
    ensures k >= z + SPACE
  {
  }

  lemma SameSlot(z: nat, n: nat)
    requires IsSize(n) && z % SPACE == 0
    ensures n > 0 && z % n == 0
  {
    ModSpace(z, n);
    assert 0 % n == 0;
  }

  /** Handle 0 is meant for the system, and the index starts at 1; still 0 is issued: exactly when
    slot 0 is free and those of all places up to the next multiple of 2^24 are taken. */
  lemma ZeroReturns(table: map<nat, nat>, n: nat, from: nat, k: nat, harbor: nat)
    requires IsSize(n) && FirstFree(table, n, from, k)
    ensures HandleOf(harbor, k) % SPACE == 0 <==>
      FreeAt(table, n, 0) && forall j :: from <= j < NextZero(from) ==> !FreeAt(table, n, j)
  {
    HarborBits(harbor, k % SPACE);
    var z := NextZero(from);
    SameSlot(z, n);
    assert FreeAt(table, n, z) <==> FreeAt(table, n, 0);
    if k % SPACE == 0 {
      SameSlot(k, n);
      assert FreeAt(table, n, z);
      if k < z { ZerosApart(k, z); }
    }
  }

  lemma HeldGrow(slots: Slots, bigger: Slots, table: map<nat, nat>, harbor: nat)
    requires Held(slots, table, harbor) && |slots| > 0 && |bigger| == 2 * |slots|
    requires forall x: nat :: x < |bigger| ==> bigger[x] == Moved(slots, |slots|, x)
    ensures Held(bigger, table, harbor)
  {
    forall x ensures SlotOk(bigger, table, x) {
      if 0 <= x < |bigger| {
        var y: nat := x;
        assert bigger[y] == Moved(slots, |slots|, y);
        assert SlotOk(slots, table, y % |slots|);
      }
    }
    forall h: nat ensures HandleOk(bigger, table, harbor, h) {
      assert HandleOk(slots, table, harbor, h);
      ModDouble(h, |slots|);
      assert bigger[h % |bigger|] == Moved(slots, |slots|, h % |bigger|);
    }
  }

  lemma HeldEnter(slots: Slots, table: map<nat, nat>, harbor: nat, ctx: nat, h: nat)
    requires Held(slots, table, harbor) && |slots| > 0 && h / SPACE == harbor && slots[h % |slots|] == None
    ensures h !in table && Held(slots[h % |slots| := Some(Entry(ctx, h))], table[h := ctx], harbor)
  {
    var slots', table' := slots[h % |slots| := Some(Entry(ctx, h))], table[h := ctx];
    assert HandleOk(slots, table, harbor, h);
    forall k ensures HandleOk(slots', table', harbor, k) { assert HandleOk(slots, table, harbor, k); }
    forall i ensures SlotOk(slots', table', i) { assert SlotOk(slots, table, i); }
  }

  lemma HeldRetire(slots: Slots, table: map<nat, nat>, harbor: nat, h: nat)
    requires Held(slots, table, harbor) && h in table
    ensures |slots| > 0 && Held(slots[h % |slots| := None], table - {h}, harbor)
  {
    assert HandleOk(slots, table, harbor, h);
    var slots', table' := slots[h % |slots| := None], table - {h};
    forall k ensures HandleOk(slots', table', harbor, k) {
      assert HandleOk(slots, table, harbor, k);
    }
    forall i ensures SlotOk(slots', table', i) { assert SlotOk(slots, table, i); }
  }

  /** The slot of the `j`th handle from `index` on is taken. */
  predicate Taken(slots: Slots, index: nat, j: nat) { |slots| > 0 && slots[(j + index) % SPACE % |slots|].Some? }

  /** When the loop of `skynet_handle_register` finds no free slot there is none. */
  lemma AllTaken(slots: Slots, index: nat)
    requires IsSize(|slots|) && forall j :: 0 <= j < |slots| ==> Taken(slots, index, j)
    ensures forall h :: 0 <= h < |slots| ==> slots[h].Some?
  {
    forall h | 0 <= h < |slots| ensures slots[h].Some? {
      var k := EverySlot(index, |slots|, h);
      ModSpace(k, |slots|);
      var j := k - index;
      assert Taken(slots, index, j) && j + index == k;
    }
  }

  lemma SameIndex(next: nat, index: nat, i: nat)
    requires index % SPACE == next % SPACE
    ensures (i + index) % SPACE == (next + i) % SPACE
  {
  }

  lemma NextIndex(k: nat, handle: nat)
    requires handle == k % SPACE
    ensures (handle + 1) % SPACE == (k + 1) % SPACE
  {
  }

  lemma FullHandle(harbor: nat, handle: nat, n: nat)
    requires handle < SPACE && IsSize(n)
    ensures n > 0 && (handle + harbor * SPACE) % n == handle % n && (handle + harbor * SPACE) / SPACE == harbor
  {
    var full := handle + harbor * SPACE;
    HarborBits(harbor, handle);
    ModSpace(full, n);
  }

  lemma HarborBits(harbor: nat, handle: nat)
    requires handle < SPACE
    ensures (handle + harbor * SPACE) % SPACE == handle && (handle + harbor * SPACE) / SPACE == harbor
  {
  }

  /** Of the slots `x` and `x + n` of the doubled table one is free. */
  lemma OneFree(slots: Slots)
    requires |slots| > 0
    ensures Moved(slots, |slots|, 0) == None || Moved(slots, |slots|, |slots|) == None
  {
    ModUnique(|slots|, |slots|, 1, 0);
  }

  lemma FullSlots(slots: Slots, table: map<nat, nat>, harbor: nat)
    requires Held(slots, table, harbor) && |slots| > 0 && forall i :: 0 <= i < |slots| ==> slots[i].Some?
    ensures Full(table, |slots|)
  {
    forall k ensures !FreeAt(table, |slots|, k) { SlotFree(slots, table, harbor, k); }
  }

  lemma FreeSlot(slots: Slots, table: map<nat, nat>, harbor: nat)
    requires Held(slots, table, harbor) && exists i :: 0 <= i < |slots| && slots[i] == None
    ensures !Full(table, |slots|)
  {
    var i: nat :| i < |slots| && slots[i] == None;
    ModUnique(i, |slots|, 0, i);
    SlotFree(slots, table, harbor, i);
  }

  /** The slot of the `i`th handle from the index on is free, those before are taken. */
  lemma FirstPlace(slots: Slots, table: map<nat, nat>, harbor: nat, index: nat, next: nat, i: nat)
    requires Held(slots, table, harbor) && IsSize(|slots|) && index % SPACE == next % SPACE
    requires |slots| > 0 && slots[(i + index) % SPACE % |slots|] == None
    requires forall j :: 0 <= j < i ==> Taken(slots, index, j)
    ensures FirstFree(table, |slots|, next, next + i)
  {
    PlaceSlot(slots, index, next, i);
    SlotFree(slots, table, harbor, next + i);
    forall k | next <= k < next + i ensures !FreeAt(table, |slots|, k) {
      var j := k - next;
      assert Taken(slots, index, j);
      PlaceSlot(slots, index, next, j);
      SlotFree(slots, table, harbor, k);
    }
  }

  lemma PlaceSlot(slots: Slots, index: nat, next: nat, j: nat)
    requires IsSize(|slots|) && index % SPACE == next % SPACE
    ensures |slots| > 0 && (j + index) % SPACE % |slots| == (next + j) % |slots|
  {
    SameIndex(next, index, j);
    ModSpace(next + j, |slots|);
  }

  class HandleStorage {
    const harbor: nat
    var handleIndex: nat
    var slotSize: nat
    var slot: array<Option<Entry>>
    var name: array<Name>
    var nameCount: nat
    /** The contexts registered, and the number of the next handle, not wrapped. */
    ghost var table: map<nat, nat>
    ghost var next: nat

    ghost predicate Valid()
      reads this, slot, name
    {
      && slotSize == slot.Length && IsSize(slotSize) && slotSize > 0
      && handleIndex % SPACE == next % SPACE && Held(slot[..], table, harbor)
      && nameCount <= name.Length && name.Length > 0 && Sorted(Names())
    }

    /** The names in use, sorted. */
    ghost function Names(): seq<Name>
      requires nameCount <= name.Length
      reads this, name
    {
      name[..nameCount]
    }

    /** `skynet_handle_init`. */
    constructor (h: nat)
      ensures Valid() && harbor == h && table == map[] && next == 1 && Names() == [] && slotSize == DEFAULT_SLOT_SIZE
      ensures fresh(slot) && fresh(name)
    {
      harbor := h;
      handleIndex := 1;
      slotSize := DEFAULT_SLOT_SIZE;
      slot := new Option<Entry>[DEFAULT_SLOT_SIZE](_ => None);
      name := new Name[2](_ => Name("", 0));
      nameCount := 0;
      table := map[];
      next := 1;
      new;
      assert Pow2(2) == 4;
    }

    /** `skynet_handle_grab`: finds exactly the contexts that are registered. */
    method Grab(h: nat) returns (ctx: Option<nat>)
      requires Valid()
      ensures ctx == if h in table then Some(table[h]) else None
    {
      var e := slot[h % slotSize];
      assert HandleOk(slot[..], table, harbor, h) && SlotOk(slot[..], table, h % slotSize);
      ctx := if e.Some? && e.value.handle == h then Some(e.value.ctx) else None;
    }

    /** The doubling in `skynet_handle_register`: no two contexts get into one slot. */
    method Grow()
      requires Valid() && 2 * slotSize <= SPACE && forall i :: 0 <= i < slot.Length ==> slot[i].Some?
      modifies `slot, `slotSize
      ensures Valid() && slotSize == 2 * old(slotSize) && fresh(slot)
      ensures exists x :: 0 <= x < slot.Length && slot[x] == None
    {
      var n := slotSize;
      ghost var slots := slot[..];
      var bigger := new Option<Entry>[2 * n](_ => None);
      var i := 0;
      while i < n
        invariant 0 <= i <= n
        invariant forall x: nat :: x < 2 * n ==> bigger[x] == Moved(slots, i, x)
        modifies bigger
      {
        var hash := slot[i].value.handle % (2 * n);
        assert SlotOk(slots, table, i);
        ModDouble(slot[i].value.handle, n);
        assert bigger[hash] == None;
        bigger[hash] := slot[i];
        i := i + 1;
      }
      DoubleSize(n);
      OneFree(slots);
      slot := bigger;
      slotSize := 2 * n;
      HeldGrow(slots, slot[..], table, harbor);
    }

    /** `skynet_handle_register`: the first place from the current index on whose slot is free, in the
      table or, when that is full, in the doubled one. There is none only when the table can grow no
      more, which the source asserts not to happen. */
    method Register(ctx: nat) returns (r: Option<nat>)
      requires Valid()
      modifies this, slot
      ensures Valid() && Names() == old(Names()) && name == old(name) && (slot == old(slot) || fresh(slot))
      ensures r == None <==> Full(old(table), old(slotSize)) && 2 * old(slotSize) > SPACE
      ensures slotSize == if Full(old(table), old(slotSize)) && r.Some? then 2 * old(slotSize) else old(slotSize)
      ensures r.Some? ==> old(next) < next <= old(next) + slotSize
      ensures r.Some? ==> FirstFree(old(table), slotSize, old(next), next - 1)
      ensures r.Some? ==> r.value == HandleOf(harbor, next - 1) && r.value !in old(table)
      ensures table == if r.Some? then old(table)[r.value := ctx] else old(table)
    {
      r := Find(ctx);
      if r == None {
        FullSlots(slot[..], table, harbor);
        if 2 * slotSize <= SPACE {
          r := FindGrown(ctx);
        }
      } else {
        assert FreeAt(old(table), slotSize, next - 1);
      }
    }

    /** The table is full and doubled. */
    method FindGrown(ctx: nat) returns (r: Option<nat>)
      requires Valid() && 2 * slotSize <= SPACE && forall i :: 0 <= i < slot.Length ==> slot[i].Some?
      modifies this, slot
      ensures Valid() && Names() == old(Names()) && name == old(name) && fresh(slot) && slotSize == 2 * old(slotSize)
      ensures r.Some? && old(next) < next <= old(next) + slotSize
      ensures FirstFree(old(table), slotSize, old(next), next - 1)
      ensures r.value == HandleOf(harbor, next - 1) && r.value !in old(table) && table == old(table)[r.value := ctx]
    {
      Grow();
      FreeSlot(slot[..], table, harbor);
      r := Find(ctx);
      if r == None { FullSlots(slot[..], table, harbor); }
    }

    /** The loop of `skynet_handle_register` over the slots. */
    method Find(ctx: nat) returns (r: Option<nat>)
      requires Valid()
      modifies this, slot
      ensures Valid() && Names() == old(Names()) && name == old(name)
      ensures slot == old(slot) && slotSize == old(slotSize)
      ensures r.Some? ==> old(next) < next <= old(next) + slotSize
      ensures r.Some? ==> FirstFree(old(table), slotSize, old(next), next - 1)
      ensures r.Some? ==> r.value == HandleOf(harbor, next - 1) && r.value !in old(table)
      ensures r.Some? ==> table == old(table)[r.value := ctx]
      ensures r == None ==> table == old(table) && next == old(next)
      ensures r == None ==> forall i :: 0 <= i < slot.Length ==> slot[i].Some?
    {
      var i := 0;
      while i < slotSize
        invariant 0 <= i <= slotSize
        invariant forall j :: 0 <= j < i ==> Taken(slot[..], handleIndex, j)
      {
        var handle := (i + handleIndex) % SPACE;
        var hash := handle % slotSize;
        if slot[hash] == None {
          FirstPlace(slot[..], table, harbor, handleIndex, next, i);
          r := Enter(ctx, i, handle, hash);
          return;
        }
        i := i + 1;
      }
      AllTaken(slot[..], handleIndex);
      assert forall h :: 0 <= h < slot.Length ==> slot[h] == slot[..][h];
      r := None;
    }

    /** The free slot `hash` is taken by the context. */
    method Enter(ctx: nat, i: nat, handle: nat, hash: nat) returns (r: Option<nat>)
      requires Valid() && handle == (i + handleIndex) % SPACE && hash == handle % slotSize && slot[hash] == None
      modifies this, slot
      ensures Valid() && Names() == old(Names()) && name == old(name)
      ensures slot == old(slot) && slotSize == old(slotSize)
      ensures r.Some? && next == old(next) + i + 1 && r.value == HandleOf(harbor, next - 1)
      ensures r.value !in old(table) && table == old(table)[r.value := ctx]
    {
      var full := handle + harbor * SPACE;
      ghost var k := next + i;
      SameIndex(next, handleIndex, i);
      FullHandle(harbor, handle, slotSize);
      HeldEnter(slot[..], table, harbor, ctx, full);
      ghost var slots := slot[..][hash := Some(Entry(ctx, full))];
      slot[hash] := Some(Entry(ctx, full));
      assert slot[..] == slots;
      handleIndex := handle + 1;
      NextIndex(k, handle);
      table := table[full := ctx];
      next := k + 1;
      r := Some(full);
    }

    /** `skynet_handle_retire`: the context leaves the table, with its names. */
    method Retire(handle: nat) returns (ctx: Option<nat>)
      requires Valid()
      modifies this, slot, name
      ensures Valid() && slot == old(slot) && name == old(name) && next == old(next) && slotSize == old(slotSize)
      ensures ctx == if handle in old(table) then Some(old(table)[handle]) else None
      ensures table == old(table) - {handle}
      ensures Names() == if handle in old(table) then Without(old(Names()), handle) else old(Names())
    {
      ctx := Clear(handle);
      if ctx.Some? {
        ghost var slots := slot[..];
        RemoveNames(handle);
        assert slot[..] == slots;
      }
    }

    /** The slot of the handle is cleared. */
    method Clear(handle: nat) returns (ctx: Option<nat>)
      requires Valid()
      modifies `table, slot
      ensures Valid() && Names() == old(Names()) && table == old(table) - {handle}
      ensures ctx == if handle in old(table) then Some(old(table)[handle]) else None
    {
      var hash := handle % slotSize;
      var e := slot[hash];
      assert HandleOk(slot[..], table, harbor, handle) && SlotOk(slot[..], table, hash);
      if e.Some? && e.value.handle == handle {
        ctx := Some(e.value.ctx);
        HeldRetire(slot[..], table, harbor, handle);
        ghost var slots := slot[..][hash := None];
        slot[hash] := None;
        assert slot[..] == slots;
        table := table - {handle};
      } else {
        ctx := None;
        assert table - {handle} == table;
      }
    }

    method RemoveNames(handle: nat)
      requires nameCount <= name.Length && Sorted(Names())
      modifies `nameCount, name
      ensures nameCount <= name.Length && Sorted(Names()) && Names() == Without(old(Names()), handle)
    {
      WithoutSorted(Names(), handle);
      TakeOut(handle);
    }

    /** The names of the handle are taken out and the others move up. */
    method TakeOut(handle: nat)
      requires nameCount <= name.Length
      modifies `nameCount, name
      ensures nameCount <= name.Length && Names() == Without(old(Names()), handle)
    {
      ghost var before := Names();
      var i, j := 0, 0;
      while i < nameCount
        invariant 0 <= j <= i <= nameCount == |before| && name[..j] == Without(before[..i], handle)
        invariant name[i..nameCount] == before[i..]
      {
        WithoutNext(before, i, handle);
        assert name[i] == name[i..nameCount][0] == before[i];
        assert name[i + 1..nameCount] == name[i..nameCount][1..] == before[i + 1..];
        if name[i].handle != handle {
          MoveUp(i, j);
          j := j + 1;
        }
        i := i + 1;
      }
      assert before[..i] == before;
      nameCount := j;
    }

    method MoveUp(i: nat, j: nat)
      requires j <= i < nameCount <= name.Length
      modifies name
      ensures name[..j + 1] == old(name[..j]) + [old(name[i])]
      ensures name[i + 1..nameCount] == old(name[i + 1..nameCount])
    {
      if i != j {
        name[j] := name[i];
      }
    }

    /** `skynet_handle_findname`: the binary search finds a name exactly when it is there. */
    method FindName(wanted: string) returns (handle: nat)
      requires Valid()
      ensures forall n :: n in Names() && n.name == wanted ==> handle == n.handle
      ensures (forall n :: n in Names() ==> n.name != wanted) ==> handle == 0
    {
      var k, found := Search(name[..nameCount], wanted);
      handle := if found then name[k].handle else 0;
      forall i | 0 <= i < nameCount ensures Names()[i].name == wanted <==> found && i == k {
        OnlyThere(Names(), wanted, k, found, i);
      }
    }

    /** `skynet_handle_namehandle`: a new name goes where it belongs; an old one stays. */
    method NameHandle(handle: nat, wanted: string) returns (ok: bool)
      requires Valid()
      modifies `name, `nameCount, name
      ensures Valid() && (name == old(name) || fresh(name))
      ensures ok <==> forall n :: n in old(Names()) ==> n.name != wanted
      ensures !ok ==> Names() == old(Names())
      ensures ok ==>
        exists k :: (0 <= k <= |old(Names())|
                     && Names() == old(Names())[..k] + [Name(wanted, handle)] + old(Names())[k..])
    {
      ghost var slots := slot[..];
      var k, found := Search(name[..nameCount], wanted);
      ok := !found;
      if found {
        assert Names()[k] in Names();
      } else {
        forall i | 0 <= i < nameCount ensures Names()[i].name != wanted {
          OnlyThere(Names(), wanted, k, found, i);
        }
        InsertSorted(Names(), wanted, handle, k);
        InsertBefore(Name(wanted, handle), k);
        assert slot[..] == slots;
      }
    }

    /** `_insert_name_before`: when the array is full, into one twice as large, else in place. */
    method InsertBefore(n: Name, before: nat)
      requires before <= nameCount <= name.Length && name.Length > 0
      modifies `name, `nameCount, name
      ensures nameCount == old(nameCount) + 1 <= name.Length && (name == old(name) || fresh(name))
      ensures Names() == old(Names())[..before] + [n] + old(Names())[before..]
    {
      if nameCount >= name.Length {
        InsertGrown(n, before);
      } else {
        InsertInPlace(n, before);
      }
    }

    method InsertGrown(n: Name, before: nat)
      requires before <= nameCount == name.Length && name.Length > 0
      modifies `name, `nameCount
      ensures nameCount == old(nameCount) + 1 <= name.Length && fresh(name)
      ensures Names() == old(Names())[..before] + [n] + old(Names())[before..]
    {
      ghost var names := Names();
      var bigger := new Name[2 * name.Length](_ => n);
      var i := 0;
      while i < before
        invariant 0 <= i <= before && forall k :: 0 <= k < i ==> bigger[k] == names[k]
        modifies bigger
      {
        bigger[i] := name[i];
        i := i + 1;
      }
      while i < nameCount
        invariant before <= i <= nameCount && forall k :: 0 <= k < before ==> bigger[k] == names[k]
        invariant forall k :: before <= k < i ==> bigger[k + 1] == names[k]
        modifies bigger
      {
        bigger[i + 1] := name[i];
        i := i + 1;
      }
      bigger[before] := n;
      Inserted(names, bigger[..nameCount + 1], n, before);
      name := bigger;
      nameCount := nameCount + 1;
    }

    method InsertInPlace(n: Name, before: nat)
      requires before <= nameCount < name.Length
      modifies `nameCount, name
      ensures nameCount == old(nameCount) + 1 <= name.Length
      ensures Names() == old(Names())[..before] + [n] + old(Names())[before..]
    {
      ghost var names := Names();
      var i := nameCount;
      while i > before
        invariant before <= i <= nameCount == |names|
        invariant forall k :: 0 <= k < i ==> name[k] == names[k]
        invariant forall k :: i <= k < nameCount ==> name[k + 1] == names[k]
      {
        name[i] := name[i - 1];
        i := i - 1;
      }
      name[before] := n;
      Inserted(names, name[..nameCount + 1], n, before);
      nameCount := nameCount + 1;
    }
  }

  lemma Inserted(names: seq<Name>, longer: seq<Name>, n: Name, before: nat)
    requires before <= |names| && |longer| == |names| + 1 && longer[before] == n
    requires forall k :: 0 <= k < before ==> longer[k] == names[k]
    requires forall k :: before <= k < |names| ==> longer[k + 1] == names[k]
    ensures longer == names[..before] + [n] + names[before..]
  {
    forall k | 0 <= k < |longer| ensures longer[k] == (names[..before] + [n] + names[before..])[k] {
      if k > before { assert longer[k - 1 + 1] == names[k - 1]; }
    }
  }

  lemma InsertSorted(names: seq<Name>, name: string, handle: nat, k: nat)
    requires Sorted(names) && Position(names, name, k, false)
    ensures Sorted(names[..k] + [Name(name, handle)] + names[k..])
  {
  }

  /** A run in which handle 0 is issued: a service is launched and killed 2^24 - 1 times. */
  method ZeroIssued() returns (h: HandleStorage, r: Option<nat>)
    ensures h.Valid() && r == Some(0) && 0 in h.table
  {
    h := new HandleStorage(0);
    var k := 1;
    while k < SPACE
      invariant 1 <= k <= SPACE && fresh(h) && fresh(h.slot) && fresh(h.name)
      invariant h.Valid() && h.harbor == 0 && h.table == map[] && h.next == k
    {
      OnlyFirst(h.slotSize, k);
      r := h.Register(k);
      var _ := h.Retire(r.value);
      k := k + 1;
    }
    OnlyFirst(h.slotSize, SPACE);
    r := h.Register(k);
  }

  /** In an empty table every slot is free. */
  lemma OnlyFirst(n: nat, from: nat)
    requires n > 0
    ensures !Full(map[], n) && forall k :: FirstFree(map[], n, from, k) ==> k == from
  {
    assert FreeAt(map[], n, from);
  }
}
