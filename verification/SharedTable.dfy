/** `lua-sharedata.c`: a table is frozen into an array part and a hash part with exactly as many
  slots as it has other keys. */
module SharedTable {
  import opened Basics
  import opened FiniteSets

  /** `countsize` lets a table be a key, too. */
  datatype Key = IntegerKey(n: int) | StringKey(s: seq<byte>) | TableKey(t: nat)

  datatype Value = Nil | Integer(d: int) | Real(r: real) | Text(s: seq<byte>) | Boolean(b: bool) | Table(t: nat)

  datatype Entry = Entry(key: Key, value: Value)

  // ---- The source table --------------------------------------------------------------------

  /** What the table holds at a key; `lua_next` goes over its entries in an order of its own. */
  function ValueOf(entries: seq<Entry>, k: Key): Value
  {
    if entries == [] then Nil else
      var n := |entries| - 1;
      if entries[n].key == k then entries[n].value else ValueOf(entries[..n], k)
  }

  /** A key as an `int` holds it. */
  function Truncate(n: int): (r: int)
    ensures -0x8000_0000 <= r < 0x8000_0000 && (r - n) % 0x1_0000_0000 == 0
    ensures -0x8000_0000 <= n < 0x8000_0000 ==> r == n
  {
    (n + 0x8000_0000) % 0x1_0000_0000 - 0x8000_0000
  }

  /** The key that `ishashkey` reads: an integer is cut to an `int`, a table has no text. */
  function TruncateKey(k: Key): Key
  {
    match k
    case IntegerKey(n) => IntegerKey(Truncate(n))
    case StringKey(_) => k
    case TableKey(_) => StringKey([])
  }

  /** All keys fit in an `int`. */
  ghost predicate Trimmed(entries: seq<Entry>)
  {
    forall k :: 0 <= k < |entries| ==> entries[k].value != Nil && TruncateKey(entries[k].key) == entries[k].key
  }

  ghost predicate Proper(entries: seq<Entry>)
  {
    Trimmed(entries) && (forall j, k :: 0 <= j < k < |entries| ==> entries[j].key != entries[k].key)
  }

  lemma {:induction false} ValueAt(entries: seq<Entry>, k: nat)
    requires Proper(entries) && k < |entries|
    ensures ValueOf(entries, entries[k].key) == entries[k].value
  {
    if k < |entries| - 1 { ValueAt(entries[..|entries| - 1], k); }
  }

  lemma {:induction false} ValueSomewhere(entries: seq<Entry>, k: Key) returns (i: nat)
    requires ValueOf(entries, k) != Nil
    ensures i < |entries| && entries[i].key == k
  {
    i := |entries| - 1;
    if entries[i].key != k { i := ValueSomewhere(entries[..i], k); }
  }

  lemma {:induction false} ValueNowhere(entries: seq<Entry>, k: Key)
    requires forall i :: 0 <= i < |entries| ==> entries[i].key != k
    ensures ValueOf(entries, k) == Nil
  {
    if entries != [] { ValueNowhere(entries[..|entries| - 1], k); }
  }

  // ---- Keys that do not fit in an int ----------------------------------------------------------

  /** The entries with their keys as `ishashkey` reads them. */
  function CutEntries(entries: seq<Entry>): (r: seq<Entry>)
    ensures |r| == |entries|
    ensures forall i :: 0 <= i < |r| ==> r[i] == Entry(TruncateKey(entries[i].key), entries[i].value)
  {
    seq(|entries|, i requires 0 <= i < |entries| => Entry(TruncateKey(entries[i].key), entries[i].value))
  }

  /** A table of Lua, with integer keys of any size, strings and tables as keys. */
  ghost predicate Wide(entries: seq<Entry>)
  {
    && (forall k :: 0 <= k < |entries| ==> entries[k].value != Nil)
    && (forall j, k :: 0 <= j < k < |entries| ==> entries[j].key != entries[k].key)
  }

  lemma TruncateTwice(k: Key)
    ensures TruncateKey(TruncateKey(k)) == TruncateKey(k)
  {
  }

  lemma {:induction false} WideAt(entries: seq<Entry>, k: nat)
    requires Wide(entries) && k < |entries|
    ensures ValueOf(entries, entries[k].key) == entries[k].value
  {
    if k < |entries| - 1 { WideAt(entries[..|entries| - 1], k); }
  }

  lemma CutTrimmed(entries: seq<Entry>)
    requires Wide(entries)
    ensures Trimmed(CutEntries(entries))
  {
    forall k | 0 <= k < |entries| ensures TruncateKey(CutEntries(entries)[k].key) == CutEntries(entries)[k].key {
      TruncateTwice(entries[k].key);
    }
  }

  ghost predicate NoneAlike(entries: seq<Entry>)
  {
    forall j, k :: 0 <= j < k < |entries| ==> TruncateKey(entries[j].key) != TruncateKey(entries[k].key)
  }

  lemma CutProper(entries: seq<Entry>)
    requires Wide(entries)
    ensures Proper(CutEntries(entries)) <==> NoneAlike(entries)
  {
    CutTrimmed(entries);
    var cut := CutEntries(entries);
    if Proper(cut) {
      forall j, k | 0 <= j < k < |entries| ensures TruncateKey(entries[j].key) != TruncateKey(entries[k].key) {
        assert cut[j].key != cut[k].key;
      }
    }
  }

  /** An index is looked up as it is cut to an `int`. When no two keys are cut to the same that gives the
    source's answer exactly for the keys of the source and those that no key is cut to alike. */
  lemma LongIndex(entries: seq<Entry>, k: Key)
    requires Wide(entries) && NoneAlike(entries) && !k.TableKey?
    ensures ValueOf(CutEntries(entries), TruncateKey(k)) == ValueOf(entries, k) <==>
      || (exists i :: 0 <= i < |entries| && entries[i].key == k)
      || (forall i :: 0 <= i < |entries| ==> TruncateKey(entries[i].key) != TruncateKey(k))
  {
    var cut := CutEntries(entries);
    CutProper(entries);
    if i :| 0 <= i < |entries| && entries[i].key == k {
      WideAt(entries, i);
      ValueAt(cut, i);
    } else {
      ValueNowhere(entries, k);
      if i :| 0 <= i < |entries| && TruncateKey(entries[i].key) == TruncateKey(k) {
        ValueAt(cut, i);
      } else {
        ValueNowhere(cut, TruncateKey(k));
      }
    }
  }

  /** Such an index: 5 and 2^32 + 5 are cut to the same. */
  lemma LongIndexFound()
    ensures var e, long := [Entry(IntegerKey(5), Boolean(true))], IntegerKey(0x1_0000_0005);
      && Wide(e) && NoneAlike(e) && ValueOf(e, long) == Nil
      && ValueOf(CutEntries(e), TruncateKey(long)) == Boolean(true)
  {
    var e := [Entry(IntegerKey(5), Boolean(true))];
    assert CutEntries(e) == e && e[..0] == [];
  }

  /** The keys are strings, and integers that fit in an `int`. */
  ghost predicate Ordinary(entries: seq<Entry>) { forall i :: 0 <= i < |entries| ==> OrdinaryKey(entries[i].key) }

  predicate OrdinaryKey(k: Key)
  {
    match k
    case IntegerKey(n) => -0x8000_0000 <= n < 0x8000_0000
    case StringKey(_) => true
    case TableKey(_) => false
  }

  /** Such keys are read as they are. */
  lemma OrdinaryCut(entries: seq<Entry>, sizearray: nat)
    requires Wide(entries) && Ordinary(entries)
    ensures CutEntries(entries) == entries && NoneAlike(entries) && NoneCutIn(entries, sizearray)
  {
    forall i | 0 <= i < |entries| ensures TruncateKey(entries[i].key) == entries[i].key {
      assert OrdinaryKey(entries[i].key);
    }
  }

  // ---- Hashes --------------------------------------------------------------------------------

  function HashStep(str: seq<byte>, l1: nat, step: nat, h: bv32): bv32
    requires l1 <= |str| && step > 0
    decreases l1
  {
    if l1 < step then h
    else HashStep(str, l1 - step, step, h ^ ((h << 5) + (h >> 2) + (str[l1 - 1] as bv32)))
  }

  /** `calchash`. */
  function CalcHash(str: seq<byte>): nat
  {
    HashStep(str, |str|, |str| / 32 + 1, (|str| % 0x1_0000_0000) as bv32) as nat
  }

  function KeyHash(k: Key): nat
  {
    match k
    case IntegerKey(n) => n % 0x1_0000_0000
    case StringKey(s) => CalcHash(s)
    case TableKey(_) => CalcHash([])
  }

  /** `ishashkey`. */
  predicate IsHashKey(k: Key, sizearray: nat) { !(k.IntegerKey? && 0 < k.n <= sizearray) }

  // ---- The hash part -------------------------------------------------------------------------

  /** A slot; it is free as long as its value is `Nil`. */
  datatype Node = Node(v: Value, key: Key, next: int, keyhash: nat, nocolliding: bool)

  predicate Used(n: Node) { n.v != Nil }

  function Home(n: Node, size: nat): nat
    requires size > 0
  {
    n.keyhash % size
  }

  /** Slot `c[k]` of the chain of slot `p`. */
  ghost predicate Link(nodes: seq<Node>, c: seq<nat>, p: nat, k: nat)
    requires k < |c|
  {
    && c[k] < |nodes| && Used(nodes[c[k]]) && Home(nodes[c[k]], |nodes|) == p && (k > 0 ==> c[k] != p)
    && nodes[c[k]].next == if k + 1 < |c| then c[k + 1] else -1
  }

  ghost predicate Chain(nodes: seq<Node>, c: seq<nat>, p: nat)
  {
    && (c != [] ==> c[0] == p < |nodes| && (nodes[p].nocolliding ==> |c| == 1))
    && forall k :: 0 <= k < |c| ==> Link(nodes, c, p, k)
  }

  ghost predicate Chained(nodes: seq<Node>, chains: seq<seq<nat>>, i: nat)
    requires i < |nodes| == |chains|
  {
    Used(nodes[i]) ==> nodes[i].keyhash == KeyHash(nodes[i].key) && i in chains[Home(nodes[i], |nodes|)]
  }

  /** Every used slot is in the chain of its main position, each chain is a list of slots with
    that main position, and no key is there twice. */
  ghost predicate Linked(nodes: seq<Node>, chains: seq<seq<nat>>)
  {
    && |nodes| == |chains|
    && (forall p :: 0 <= p < |nodes| ==> Chain(nodes, chains[p], p))
    && (forall i :: 0 <= i < |nodes| ==> Chained(nodes, chains, i))
    && Distinct(nodes)
  }

  ghost predicate Distinct(nodes: seq<Node>)
  {
    forall i, j :: 0 <= i < j < |nodes| && Used(nodes[i]) && Used(nodes[j]) ==> nodes[i].key != nodes[j].key
  }

  ghost predicate Absent(nodes: seq<Node>, k: Key)
  {
    forall i :: 0 <= i < |nodes| && Used(nodes[i]) ==> nodes[i].key != k
  }

  function MainNode(key: Key, v: Value): Node { Node(v, key, -1, KeyHash(key), true) }

  /** `fillnocolliding` takes a free main position. */
  lemma PutMain(nodes: seq<Node>, chains: seq<seq<nat>>, p: nat, key: Key, v: Value)
    requires Linked(nodes, chains) && p < |nodes| && KeyHash(key) % |nodes| == p && !Used(nodes[p]) && v != Nil
    requires Absent(nodes, key)
    ensures Linked(nodes[p := MainNode(key, v)], chains[p := [p]])
  {
    var nodes', chains' := nodes[p := MainNode(key, v)], chains[p := [p]];
    assert chains[p] != [] ==> Link(nodes, chains[p], p, 0);
    assert chains[p] == [];
    forall q | 0 <= q < |nodes| ensures Chain(nodes', chains'[q], q) {
      assert Chain(nodes, chains[q], q);
      forall k | 0 <= k < |chains'[q]| ensures Link(nodes', chains'[q], q, k) {
        if q != p { assert Link(nodes, chains[q], q, k); }
      }
    }
    forall i | 0 <= i < |nodes| ensures Chained(nodes', chains', i) {
      assert Chained(nodes, chains, i);
    }
  }

  function Collided(nodes: seq<Node>, p: nat, i: nat, key: Key, v: Value): seq<Node>
    requires p < |nodes| && i < |nodes|
  {
    nodes[i := Node(v, key, nodes[p].next, KeyHash(key), false)][p := nodes[p].(next := i, nocolliding := false)]
  }

  /** `fillcolliding` puts a key into a free slot and links that behind the main position. */
  lemma PutColliding(nodes: seq<Node>, chains: seq<seq<nat>>, p: nat, i: nat, key: Key, v: Value)
    requires Linked(nodes, chains) && p < |nodes| && i < |nodes| && KeyHash(key) % |nodes| == p && v != Nil
    requires Used(nodes[p]) && Home(nodes[p], |nodes|) == p && !Used(nodes[i]) && Absent(nodes, key)
    ensures chains[p] != [] && Linked(Collided(nodes, p, i, key, v), chains[p := [p, i] + chains[p][1..]])
  {
    assert Chained(nodes, chains, p) && Chain(nodes, chains[p], p);
    var c := chains[p];
    var c' := [p, i] + c[1..];
    var nodes', chains' := Collided(nodes, p, i, key, v), chains[p := c'];
    assert Link(nodes, c, p, 0);
    forall q | 0 <= q < |nodes| ensures Chain(nodes', chains'[q], q) {
      assert Chain(nodes, chains[q], q);
      forall k | 0 <= k < |chains'[q]| ensures Link(nodes', chains'[q], q, k) {
        if q != p {
          assert Link(nodes, chains[q], q, k);
        } else if k >= 2 {
          assert Link(nodes, c, p, k - 1) && c'[k] == c[k - 1];
        }
      }
    }
    forall j | 0 <= j < |nodes| ensures Chained(nodes', chains', j) {
      assert Chained(nodes, chains, j);
      if Used(nodes[j]) && Home(nodes[j], |nodes|) == p && j != p {
        assert j in c;
        var k :| 0 <= k < |c| && c[k] == j;
        assert c'[k + 1] == j;
      }
    }
  }

  // ---- Counting slots -------------------------------------------------------------------------

  /** The keys in the slots that are used. */
  function UsedKeys(nodes: seq<Node>): (r: seq<Key>)
    ensures |r| <= |nodes| && (|r| == |nodes| ==> forall i :: 0 <= i < |nodes| ==> Used(nodes[i]))
    ensures forall k :: k in r <==> exists i :: 0 <= i < |nodes| && Used(nodes[i]) && nodes[i].key == k
    ensures (forall i :: 0 <= i < |nodes| ==> Used(nodes[i])) ==> |r| == |nodes|
  {
    if nodes == [] then [] else
      var n := |nodes| - 1;
      assert nodes == nodes[..n] + [nodes[n]];
      UsedKeys(nodes[..n]) + if Used(nodes[n]) then [nodes[n].key] else []
  }

  lemma {:induction false} UsedOnce(nodes: seq<Node>)
    requires Distinct(nodes)
    ensures AllDiffer(UsedKeys(nodes))
  {
    if nodes != [] {
      var n := |nodes| - 1;
      UsedOnce(nodes[..n]);
      assert forall i :: 0 <= i < n ==> nodes[..n][i] == nodes[i];
      if Used(nodes[n]) { assert nodes[n].key !in UsedKeys(nodes[..n]); }
    }
  }

  /** When all keys are in, there is none. */
  lemma AllUsed(nodes: seq<Node>, keys: seq<Key>)
    requires |nodes| == |keys| && AllDiffer(keys)
    requires forall k :: k in keys ==> !Absent(nodes, k)
    ensures forall i :: 0 <= i < |nodes| ==> Used(nodes[i])
  {
    var used := UsedKeys(nodes);
    ElementsSize(used);
    ElementsSize(keys);
    SubsetSize(Elements(keys), Elements(used));
  }

  // ---- What the filling keeps -----------------------------------------------------------------

  /** The keys of the hash part. */
  function HashKeys(entries: seq<Entry>, sizearray: nat): (r: seq<Key>)
    ensures forall k :: k in r <==> IsHashKey(k, sizearray) && exists i :: 0 <= i < |entries| && entries[i].key == k
  {
    if entries == [] then [] else
      var n := |entries| - 1;
      assert entries == entries[..n] + [entries[n]];
      HashKeys(entries[..n], sizearray) + if IsHashKey(entries[n].key, sizearray) then [entries[n].key] else []
  }

  /** No key of the hash part is there twice. */
  ghost predicate HashDiffer(entries: seq<Entry>, sizearray: nat)
  {
    forall j, k :: 0 <= j < k < |entries| && IsHashKey(entries[j].key, sizearray) ==> entries[j].key != entries[k].key
  }

  lemma HashDifferLast(entries: seq<Entry>, sizearray: nat)
    requires entries != []
    ensures var rest, k := entries[..|entries| - 1], entries[|entries| - 1].key;
      HashDiffer(entries, sizearray) <==>
        HashDiffer(rest, sizearray) && !(IsHashKey(k, sizearray) && k in HashKeys(rest, sizearray))
  {
    var n := |entries| - 1;
    var rest, k := entries[..n], entries[n].key;
    assert forall i :: 0 <= i < n ==> rest[i] == entries[i];
    if HashDiffer(rest, sizearray) && !(IsHashKey(k, sizearray) && k in HashKeys(rest, sizearray)) {
      forall i, j | 0 <= i < j < |entries| && IsHashKey(entries[i].key, sizearray)
        ensures entries[i].key != entries[j].key
      {
        if j == n {
          assert rest[i].key in HashKeys(rest, sizearray);
        } else {
          assert rest[i].key != rest[j].key;
        }
      }
    }
  }

  lemma {:induction false} HashKeysOnce(entries: seq<Entry>, sizearray: nat)
    ensures AllDiffer(HashKeys(entries, sizearray)) <==> HashDiffer(entries, sizearray)
  {
    if entries != [] {
      var n := |entries| - 1;
      HashKeysOnce(entries[..n], sizearray);
      HashDifferLast(entries, sizearray);
      var keys := HashKeys(entries[..n], sizearray);
      AllDifferPush(keys, entries[n].key);
      assert HashKeys(entries, sizearray)
        == if IsHashKey(entries[n].key, sizearray) then keys + [entries[n].key] else keys;
    }
  }

  /** A key that `countsize` counts as one of the hash part is cut to one of the array part. */
  predicate CutIn(k: Key, sizearray: nat) { IsHashKey(k, sizearray) && !IsHashKey(TruncateKey(k), sizearray) }

  ghost predicate NoneCutIn(entries: seq<Entry>, sizearray: nat)
  {
    forall i :: 0 <= i < |entries| ==> !CutIn(entries[i].key, sizearray)
  }

  function CountOne(k: Key, sizearray: nat): nat { if IsHashKey(k, sizearray) then 1 else 0 }

  lemma CountLast(entries: seq<Entry>, sizearray: nat)
    requires entries != []
    ensures var n := |entries| - 1;
      |HashKeys(entries, sizearray)| == |HashKeys(entries[..n], sizearray)| + CountOne(entries[n].key, sizearray)
  {
  }

  lemma CutLast(entries: seq<Entry>)
    requires entries != []
    ensures CutEntries(entries)[..|entries| - 1] == CutEntries(entries[..|entries| - 1])
  {
  }

  lemma NoneCutLast(entries: seq<Entry>, sizearray: nat)
    requires entries != []
    ensures var n := |entries| - 1;
      NoneCutIn(entries, sizearray) <==> NoneCutIn(entries[..n], sizearray) && !CutIn(entries[n].key, sizearray)
  {
    var n := |entries| - 1;
    assert forall i :: 0 <= i < n ==> entries[..n][i] == entries[i];
    if NoneCutIn(entries[..n], sizearray) && !CutIn(entries[n].key, sizearray) {
      forall i | 0 <= i < |entries| ensures !CutIn(entries[i].key, sizearray) {
        if i < n { assert !CutIn(entries[..n][i].key, sizearray); }
      }
    }
  }

  lemma CutOne(k: Key, sizearray: nat)
    requires sizearray < 0x8000_0000
    ensures CountOne(k, sizearray) == CountOne(TruncateKey(k), sizearray) + if CutIn(k, sizearray) then 1 else 0
  {
  }

  /** The slots are counted by the keys, and taken by the keys as they are cut: a slot stays free if and
    only if a key is cut to one of the array part. */
  lemma {:induction false} SlotsCounted(entries: seq<Entry>, sizearray: nat)
    requires sizearray < 0x8000_0000
    ensures var taken, counted := |HashKeys(CutEntries(entries), sizearray)|, |HashKeys(entries, sizearray)|;
      taken <= counted && (taken == counted <==> NoneCutIn(entries, sizearray))
  {
    if entries != [] {
      var n := |entries| - 1;
      SlotsCounted(entries[..n], sizearray);
      CountLast(entries, sizearray);
      CountLast(CutEntries(entries), sizearray);
      CutLast(entries);
      NoneCutLast(entries, sizearray);
      CutOne(entries[n].key, sizearray);
    }
  }

  lemma CutDiffer(entries: seq<Entry>, sizearray: nat)
    requires Wide(entries) && NoneCutIn(entries, sizearray) && sizearray < 0x8000_0000
    ensures HashDiffer(CutEntries(entries), sizearray) <==> Proper(CutEntries(entries))
  {
    var cut := CutEntries(entries);
    CutTrimmed(entries);
    if HashDiffer(cut, sizearray) {
      forall j, k | 0 <= j < k < |cut| ensures cut[j].key != cut[k].key {
        assert !CutIn(entries[j].key, sizearray) && !CutIn(entries[k].key, sizearray);
        assert entries[j].key != entries[k].key;
      }
    }
  }

  /** As many slots as are counted are filled with different keys if and only if no two keys are cut to the
    same and none to one of the array part. */
  lemma CutFits(entries: seq<Entry>, sizearray: nat)
    requires Wide(entries) && sizearray < 0x8000_0000
    ensures var taken := HashKeys(CutEntries(entries), sizearray);
      && |Elements(taken)| <= |taken| <= |HashKeys(entries, sizearray)|
      && (|Elements(taken)| == |HashKeys(entries, sizearray)| <==>
          NoneAlike(entries) && NoneCutIn(entries, sizearray))
  {
    CutProper(entries);
    var cut := CutEntries(entries);
    SlotsCounted(entries, sizearray);
    HashKeysOnce(cut, sizearray);
    ElementsSize(HashKeys(cut, sizearray));
    if NoneCutIn(entries, sizearray) { CutDiffer(entries, sizearray); }
  }

  /** Key 1 and key 2^32 + 1, read after it. */
  function Overwriting(): seq<Entry>
  {
    [Entry(IntegerKey(1), Boolean(true)), Entry(IntegerKey(0x1_0000_0001), Boolean(false))]
  }

  lemma LongKeyCutIn()
    ensures Wide(Overwriting()) && !NoneCutIn(Overwriting(), 1)
    ensures ValueOf(Overwriting(), IntegerKey(1)) == Boolean(true)
    ensures ValueOf(CutEntries(Overwriting()), IntegerKey(1)) == Boolean(false)
  {
    var e := Overwriting();
    assert CutIn(e[1].key, 1);
    WideAt(e, 0);
    var cut := CutEntries(e);
    assert cut[1] == Entry(IntegerKey(1), Boolean(false));
  }

  /** Key 5 and key 2^32 + 5. */
  function CutAlike(): seq<Entry>
  {
    [Entry(IntegerKey(5), Boolean(true)), Entry(IntegerKey(0x1_0000_0005), Boolean(false))]
  }

  /** Two tables as keys. */
  function TablesAlike(): seq<Entry> { [Entry(TableKey(0), Boolean(true)), Entry(TableKey(1), Boolean(false))] }

  lemma TwoHashKeys(keys: seq<Entry>)
    requires |keys| == 2 && IsHashKey(keys[0].key, 0) && IsHashKey(keys[1].key, 0)
    ensures |HashKeys(keys, 0)| == 2
  {
    assert keys[..1][..0] == [];
    CountLast(keys, 0);
    CountLast(keys[..1], 0);
  }

  lemma KeysCutAlike(keys: seq<Entry>)
    requires keys == CutAlike() || keys == TablesAlike()
    ensures Wide(keys) && NoneCutIn(keys, 0) && !NoneAlike(keys) && |HashKeys(keys, 0)| == 2
  {
    assert TruncateKey(keys[0].key) == TruncateKey(keys[1].key);
    TwoHashKeys(keys);
  }

  // ---- The run on any table ---------------------------------------------------------------------

  /** Each used slot was taken by an entry of its own, at its main position unless that is one of the
    first `n`. */
  ghost predicate Owned(nodes: seq<Node>, owner: seq<nat>, entries: seq<Entry>, sizearray: nat, n: nat)
  {
    && |owner| == |nodes|
    && (forall i :: 0 <= i < |nodes| && Used(nodes[i]) ==> OwnedBy(nodes, i, owner[i], entries, sizearray, n))
    && (forall i, j :: 0 <= i < j < |nodes| && Used(nodes[i]) && Used(nodes[j]) ==> owner[i] != owner[j])
  }

  ghost predicate OwnedBy(nodes: seq<Node>, i: nat, m: nat, entries: seq<Entry>, sizearray: nat, n: nat)
    requires i < |nodes|
  {
    && m < |entries| && nodes[i].key == entries[m].key && IsHashKey(nodes[i].key, sizearray)
    && nodes[i].keyhash == KeyHash(nodes[i].key) && (m >= n ==> Home(nodes[i], |nodes|) == i)
  }

  /** The entries that belong to the hash part. */
  function HashPlaces(entries: seq<Entry>, sizearray: nat): (r: set<nat>)
    ensures forall m: nat :: m in r <==> m < |entries| && IsHashKey(entries[m].key, sizearray)
  {
    if entries == [] then {} else
      var n := |entries| - 1;
      assert entries == entries[..n] + [entries[n]];
      HashPlaces(entries[..n], sizearray) + if IsHashKey(entries[n].key, sizearray) then {n} else {}
  }

  lemma {:induction false} HashPlacesSize(entries: seq<Entry>, sizearray: nat)
    ensures |HashPlaces(entries, sizearray)| == |HashKeys(entries, sizearray)|
  {
    if entries != [] {
      var n := |entries| - 1;
      HashPlacesSize(entries[..n], sizearray);
      CountLast(entries, sizearray);
      assert n !in HashPlaces(entries[..n], sizearray);
    }
  }

  /** Places that are all different, and leave one out. */
  lemma OneLeft(owner: seq<nat>, places: set<nat>, n: nat)
    requires AllDiffer(owner) && n in places && forall i :: 0 <= i < |owner| ==> owner[i] in places && owner[i] != n
    ensures |owner| < |places|
  {
    ElementsSize(owner);
    SubsetSize(Elements(owner), places - {n});
  }

  /** As long as an entry of the hash part has no slot, a slot is free. */
  lemma FreeForOwner(nodes: seq<Node>, owner: seq<nat>, entries: seq<Entry>, sizearray: nat, n: nat)
    requires Owned(nodes, owner, entries, sizearray, n) && |nodes| >= |HashKeys(entries, sizearray)|
    requires n < |entries| && IsHashKey(entries[n].key, sizearray) && |nodes| > 0
    requires nodes[MainOf(entries[n].key, |nodes|)].key != entries[n].key
    ensures exists i :: 0 <= i < |nodes| && !Used(nodes[i])
  {
    if forall i :: 0 <= i < |nodes| ==> Used(nodes[i]) {
      var places := HashPlaces(entries, sizearray);
      forall i | 0 <= i < |nodes| ensures owner[i] in places && owner[i] != n {
        assert OwnedBy(nodes, i, owner[i], entries, sizearray, n);
      }
      HashPlacesSize(entries, sizearray);
      OneLeft(owner, places, n);
    }
  }

  /** Where the loop of `fillnocolliding` is on any table. */
  ghost predicate Took(nodes: seq<Node>, owner: seq<nat>, entries: seq<Entry>, sizearray: nat, n: nat)
  {
    forall h :: Look(h) ==>
      && Owned(nodes, owner, entries, sizearray, 0) && MainsUsed(nodes, entries, sizearray, n)
      && forall i :: 0 <= i < |nodes| && Used(nodes[i]) ==> owner[i] < n
  }

  lemma TookMain(nodes: seq<Node>, owner: seq<nat>, entries: seq<Entry>, sizearray: nat, n: nat)
    requires Took(nodes, owner, entries, sizearray, n) && |nodes| == |owner| > 0
    requires Trimmed(entries) && n < |entries| && IsHashKey(entries[n].key, sizearray)
    requires !Used(nodes[MainOf(entries[n].key, |nodes|)])
    ensures var e, p := entries[n], MainOf(entries[n].key, |nodes|);
      Took(nodes[p := MainNode(e.key, e.value)], owner[p := n], entries, sizearray, n + 1)
  {
    assert Look(0);
    var e, p := entries[n], MainOf(entries[n].key, |nodes|);
    var nodes', owner' := nodes[p := MainNode(e.key, e.value)], owner[p := n];
    forall i | 0 <= i < |nodes| && Used(nodes'[i]) ensures OwnedBy(nodes', i, owner'[i], entries, sizearray, 0) {
      if i != p { assert OwnedBy(nodes, i, owner[i], entries, sizearray, 0); }
    }
  }

  lemma TookNone(nodes: seq<Node>, owner: seq<nat>, entries: seq<Entry>, sizearray: nat, n: nat)
    requires Took(nodes, owner, entries, sizearray, n) && n < |entries| && |nodes| > 0
    requires IsHashKey(entries[n].key, sizearray) ==> Used(nodes[MainOf(entries[n].key, |nodes|)])
    ensures Took(nodes, owner, entries, sizearray, n + 1)
  {
    assert Look(0);
  }

  /** Where the loop of `fillcolliding` is. */
  ghost predicate Takes(nodes: seq<Node>, owner: seq<nat>, entries: seq<Entry>, sizearray: nat, n: nat)
  {
    forall h :: Look(h) ==>
      Owned(nodes, owner, entries, sizearray, n) && MainsUsed(nodes, entries, sizearray, |entries|)
  }

  lemma TakesFirst(nodes: seq<Node>, owner: seq<nat>, entries: seq<Entry>, sizearray: nat)
    requires Took(nodes, owner, entries, sizearray, |entries|)
    ensures Takes(nodes, owner, entries, sizearray, 0)
  {
    assert Look(0);
  }

  lemma TakesNone(nodes: seq<Node>, owner: seq<nat>, entries: seq<Entry>, sizearray: nat, n: nat)
    requires Takes(nodes, owner, entries, sizearray, n)
    ensures Takes(nodes, owner, entries, sizearray, n + 1)
  {
    assert Look(0);
    forall i | 0 <= i < |nodes| && Used(nodes[i]) ensures OwnedBy(nodes, i, owner[i], entries, sizearray, n + 1) {
      assert OwnedBy(nodes, i, owner[i], entries, sizearray, n);
    }
  }

  lemma OwnColliding(nodes: seq<Node>, owner: seq<nat>, entries: seq<Entry>, sizearray: nat, n: nat, p: nat, i: nat,
                     v: Value)
    requires Owned(nodes, owner, entries, sizearray, n) && i < |nodes| && !Used(nodes[i])
    requires n < |entries| && IsHashKey(entries[n].key, sizearray) && p == MainOf(entries[n].key, |nodes|)
    requires nodes[p].key != entries[n].key && Used(nodes[p])
    ensures Owned(Collided(nodes, p, i, entries[n].key, v), owner[i := n], entries, sizearray, n + 1)
  {
    var nodes', owner' := Collided(nodes, p, i, entries[n].key, v), owner[i := n];
    forall j | 0 <= j < |nodes| && Used(nodes'[j])
      ensures OwnedBy(nodes', j, owner'[j], entries, sizearray, n + 1) && (j != i ==> Used(nodes[j]) && owner[j] != n)
    {
      if j != i { assert OwnedBy(nodes, j, owner[j], entries, sizearray, n); }
    }
  }

  lemma MainsColliding(nodes: seq<Node>, entries: seq<Entry>, sizearray: nat, p: nat, i: nat, k: Key, v: Value)
    requires MainsUsed(nodes, entries, sizearray, |entries|) && p < |nodes| && i < |nodes| && v != Nil && i != p
    ensures MainsUsed(Collided(nodes, p, i, k, v), entries, sizearray, |entries|)
  {
    var nodes' := Collided(nodes, p, i, k, v);
    assert forall j :: 0 <= j < |nodes| && Used(nodes[j]) ==> Used(nodes'[j]);
  }

  lemma TakesColliding(nodes: seq<Node>, owner: seq<nat>, entries: seq<Entry>, sizearray: nat, n: nat, i: nat)
    requires Takes(nodes, owner, entries, sizearray, n) && Trimmed(entries) && i < |nodes| == |owner| && !Used(nodes[i])
    requires n < |entries| && IsHashKey(entries[n].key, sizearray)
    requires nodes[MainOf(entries[n].key, |nodes|)].key != entries[n].key
    ensures var e, p := entries[n], MainOf(entries[n].key, |nodes|);
      Takes(Collided(nodes, p, i, e.key, e.value), owner[i := n], entries, sizearray, n + 1)
  {
    var e, p := entries[n], MainOf(entries[n].key, |nodes|);
    TakesOwned(nodes, owner, entries, sizearray, n);
    OwnColliding(nodes, owner, entries, sizearray, n, p, i, e.value);
    MainsColliding(nodes, entries, sizearray, p, i, e.key, e.value);
  }

  lemma TakesOwned(nodes: seq<Node>, owner: seq<nat>, entries: seq<Entry>, sizearray: nat, n: nat)
    requires Takes(nodes, owner, entries, sizearray, n)
    ensures Owned(nodes, owner, entries, sizearray, n) && MainsUsed(nodes, entries, sizearray, |entries|)
  {
    assert Look(0);
  }

  lemma FreeSlotFor(nodes: seq<Node>, owner: seq<nat>, entries: seq<Entry>, sizearray: nat, n: nat)
    requires Takes(nodes, owner, entries, sizearray, n) && |nodes| >= |HashKeys(entries, sizearray)|
    requires n < |entries| && IsHashKey(entries[n].key, sizearray) && |nodes| > 0
    requires nodes[MainOf(entries[n].key, |nodes|)].key != entries[n].key
    ensures exists i :: 0 <= i < |nodes| && !Used(nodes[i])
  {
    TakesOwned(nodes, owner, entries, sizearray, n);
    FreeForOwner(nodes, owner, entries, sizearray, n);
  }

  /** The main positions of all entries of the hash part are taken. */
  ghost predicate MainsUsed(nodes: seq<Node>, entries: seq<Entry>, sizearray: nat, n: nat)
  {
    forall m :: 0 <= m < n <= |entries| && IsHashKey(entries[m].key, sizearray) && |nodes| > 0 ==>
      Used(nodes[MainOf(entries[m].key, |nodes|)])
  }

  /** Every slot is used, and no key is there twice. */
  ghost predicate Complete(nodes: seq<Node>)
  {
    (forall i :: 0 <= i < |nodes| ==> Used(nodes[i])) && Distinct(nodes)
  }

  /** Then there are as many different keys as slots. */
  lemma CompleteFits(nodes: seq<Node>, owner: seq<nat>, entries: seq<Entry>, sizearray: nat, n: nat)
    requires Takes(nodes, owner, entries, sizearray, n) && Complete(nodes)
    ensures |nodes| <= |Elements(HashKeys(entries, sizearray))|
  {
    assert Look(0);
    var keys := NodeKeys(nodes);
    ElementsSize(keys);
    forall i | 0 <= i < |nodes| ensures keys[i] in HashKeys(entries, sizearray) {
      assert OwnedBy(nodes, i, owner[i], entries, sizearray, n);
    }
    SubsetSize(Elements(keys), Elements(HashKeys(entries, sizearray)));
  }

  /** What is in the slots is what the table holds. */
  ghost predicate FromSource(nodes: seq<Node>, entries: seq<Entry>, sizearray: nat)
  {
    forall i :: 0 <= i < |nodes| && Used(nodes[i]) ==>
      ValueOf(entries, nodes[i].key) == nodes[i].v && IsHashKey(nodes[i].key, sizearray)
  }

  function MainOf(k: Key, size: nat): nat
    requires size > 0
  {
    KeyHash(k) % size
  }

  /** The main positions of the first `n` entries hold keys that belong there. */
  ghost predicate MainsTaken(nodes: seq<Node>, entries: seq<Entry>, sizearray: nat, n: nat)
  {
    forall m :: 0 <= m < n <= |entries| && IsHashKey(entries[m].key, sizearray) && |nodes| > 0 ==>
      var h := MainOf(entries[m].key, |nodes|); Used(nodes[h]) && Home(nodes[h], |nodes|) == h
  }

  ghost predicate AtHome(nodes: seq<Node>)
  {
    forall i :: 0 <= i < |nodes| && Used(nodes[i]) ==> Home(nodes[i], |nodes|) == i
  }

  /** Keys away from their main positions are among the first `n` entries. */
  ghost predicate Away(nodes: seq<Node>, entries: seq<Entry>, n: nat)
  {
    forall i :: 0 <= i < |nodes| && Used(nodes[i]) && Home(nodes[i], |nodes|) != i ==>
      exists m :: 0 <= m < n <= |entries| && entries[m].key == nodes[i].key
  }

  /** The first `n` entries are in the hash part, as far as they belong there. */
  ghost predicate Placed(nodes: seq<Node>, entries: seq<Entry>, sizearray: nat, n: nat)
  {
    forall m :: 0 <= m < n <= |entries| && IsHashKey(entries[m].key, sizearray) ==> !Absent(nodes, entries[m].key)
  }

  ghost predicate Arrayed(a: seq<Value>, entries: seq<Entry>)
  {
    forall i :: 0 <= i < |a| ==> a[i] == ValueOf(entries, IntegerKey(i + 1))
  }

  lemma ArrayStep(a: seq<Value>, entries: seq<Entry>, n: nat)
    requires n < |entries| && Arrayed(a, entries[..n])
    ensures IsHashKey(entries[n].key, |a|) ==> Arrayed(a, entries[..n + 1])
    ensures !IsHashKey(entries[n].key, |a|) ==> Arrayed(a[entries[n].key.n - 1 := entries[n].value], entries[..n + 1])
  {
    assert entries[..n + 1][..n] == entries[..n];
  }

  lemma MainStep(nodes: seq<Node>, chains: seq<seq<nat>>, entries: seq<Entry>, sizearray: nat, n: nat)
    returns (nodes': seq<Node>, chains': seq<seq<nat>>)
    requires Proper(entries) && n < |entries| && IsHashKey(entries[n].key, sizearray) && |nodes| > 0
    requires Linked(nodes, chains) && FromSource(nodes, entries, sizearray) && AtHome(nodes)
             && MainsTaken(nodes, entries, sizearray, n)
    ensures var p := MainOf(entries[n].key, |nodes|);
      if Used(nodes[p]) then nodes' == nodes && chains' == chains
      else nodes' == nodes[p := MainNode(entries[n].key, entries[n].value)] && chains' == chains[p := [p]]
    ensures Linked(nodes', chains') && FromSource(nodes', entries, sizearray) && AtHome(nodes')
            && MainsTaken(nodes', entries, sizearray, n + 1)
  {
    var e := entries[n];
    var p := MainOf(e.key, |nodes|);
    nodes', chains' := nodes, chains;
    ValueAt(entries, n);
    if !Used(nodes[p]) {
      assert Absent(nodes, e.key) by {
        forall i | 0 <= i < |nodes| && Used(nodes[i]) ensures nodes[i].key != e.key {
          assert Chained(nodes, chains, i);
        }
      }
      PutMain(nodes, chains, p, e.key, e.value);
      nodes', chains' := nodes[p := MainNode(e.key, e.value)], chains[p := [p]];
    }
  }

  lemma NotYet(nodes: seq<Node>, chains: seq<seq<nat>>, entries: seq<Entry>, n: nat)
    requires Proper(entries) && n < |entries| && |nodes| > 0 && Linked(nodes, chains) && Away(nodes, entries, n)
    requires nodes[MainOf(entries[n].key, |nodes|)].key != entries[n].key
    ensures Absent(nodes, entries[n].key)
  {
    forall i | 0 <= i < |nodes| && Used(nodes[i]) ensures nodes[i].key != entries[n].key {
      assert Chained(nodes, chains, i);
    }
  }

  lemma PlacedColliding(nodes: seq<Node>, entries: seq<Entry>, sizearray: nat, n: nat, p: nat, i: nat)
    requires n < |entries| && p < |nodes| && i < |nodes| && !Used(nodes[i]) && Used(nodes[p]) && entries[n].value != Nil
    requires Placed(nodes, entries, sizearray, n)
    ensures Placed(Collided(nodes, p, i, entries[n].key, entries[n].value), entries, sizearray, n + 1)
  {
    var nodes' := Collided(nodes, p, i, entries[n].key, entries[n].value);
    forall m | 0 <= m < n + 1 && IsHashKey(entries[m].key, sizearray) ensures !Absent(nodes', entries[m].key) {
      if m == n {
        assert Used(nodes'[i]) && nodes'[i].key == entries[n].key;
      } else {
        var j :| 0 <= j < |nodes| && Used(nodes[j]) && nodes[j].key == entries[m].key;
        assert Used(nodes'[j]) && nodes'[j].key == entries[m].key;
      }
    }
  }

  lemma AwayColliding(nodes: seq<Node>, entries: seq<Entry>, n: nat, p: nat, i: nat)
    requires n < |entries| && p < |nodes| && i < |nodes| && i != p && Away(nodes, entries, n)
    ensures Away(Collided(nodes, p, i, entries[n].key, entries[n].value), entries, n + 1)
  {
    var nodes' := Collided(nodes, p, i, entries[n].key, entries[n].value);
    forall j | 0 <= j < |nodes| && Used(nodes'[j]) && Home(nodes'[j], |nodes|) != j
      ensures exists m :: 0 <= m < n + 1 && entries[m].key == nodes'[j].key
    {
      if j == i {
        assert entries[n].key == nodes'[j].key;
      } else {
        assert Used(nodes[j]) && Home(nodes[j], |nodes|) != j && nodes'[j].key == nodes[j].key;
      }
    }
  }

  lemma CollidingStep(nodes: seq<Node>, chains: seq<seq<nat>>, entries: seq<Entry>, sizearray: nat, n: nat, i: nat)
    returns (nodes': seq<Node>, chains': seq<seq<nat>>)
    requires Proper(entries) && n < |entries| && IsHashKey(entries[n].key, sizearray) && i < |nodes| && !Used(nodes[i])
    requires Linked(nodes, chains) && FromSource(nodes, entries, sizearray)
             && MainsTaken(nodes, entries, sizearray, |entries|)
    requires Away(nodes, entries, n) && Placed(nodes, entries, sizearray, n)
    requires nodes[MainOf(entries[n].key, |nodes|)].key != entries[n].key
    ensures nodes' == Collided(nodes, MainOf(entries[n].key, |nodes|), i, entries[n].key, entries[n].value)
    ensures Linked(nodes', chains') && FromSource(nodes', entries, sizearray)
            && MainsTaken(nodes', entries, sizearray, |entries|)
    ensures Away(nodes', entries, n + 1) && Placed(nodes', entries, sizearray, n + 1)
  {
    var e := entries[n];
    var p := MainOf(e.key, |nodes|);
    ValueAt(entries, n);
    NotYet(nodes, chains, entries, n);
    PutColliding(nodes, chains, p, i, e.key, e.value);
    nodes', chains' := Collided(nodes, p, i, e.key, e.value), chains[p := [p, i] + chains[p][1..]];
    PlacedColliding(nodes, entries, sizearray, n, p, i);
    AwayColliding(nodes, entries, n, p, i);
  }

  /** Where the loop of `fillcolliding` is. */
  ghost predicate Filling(nodes: seq<Node>, chains: seq<seq<nat>>, entries: seq<Entry>, sizearray: nat, n: nat)
  {
    forall h :: Look(h) ==>
      && Linked(nodes, chains) && FromSource(nodes, entries, sizearray)
      && MainsTaken(nodes, entries, sizearray, |entries|)
      && Away(nodes, entries, n) && Placed(nodes, entries, sizearray, n)
  }

  /** Where the loop of `fillnocolliding` is. */
  ghost predicate Homed(nodes: seq<Node>, chains: seq<seq<nat>>, entries: seq<Entry>, sizearray: nat, n: nat)
  {
    forall h :: Look(h) ==>
      && Linked(nodes, chains) && FromSource(nodes, entries, sizearray) && AtHome(nodes)
      && MainsTaken(nodes, entries, sizearray, n)
  }

  lemma HomedStep(nodes: seq<Node>, chains: seq<seq<nat>>, entries: seq<Entry>, sizearray: nat, n: nat)
    requires Homed(nodes, chains, entries, sizearray, n) && Proper(entries) && n < |entries| && |nodes| == |chains| > 0
    ensures var e, p := entries[n], MainOf(entries[n].key, |nodes|);
      if IsHashKey(e.key, sizearray) && !Used(nodes[p])
      then Homed(nodes[p := MainNode(e.key, e.value)], chains[p := [p]], entries, sizearray, n + 1)
      else Homed(nodes, chains, entries, sizearray, n + 1)
  {
    assert Look(0);
    if IsHashKey(entries[n].key, sizearray) {
      var nodes', chains' := MainStep(nodes, chains, entries, sizearray, n);
    }
  }

  lemma FillingFirst(nodes: seq<Node>, chains: seq<seq<nat>>, entries: seq<Entry>, sizearray: nat)
    requires Homed(nodes, chains, entries, sizearray, |entries|)
    ensures Filling(nodes, chains, entries, sizearray, 0)
  {
    assert Look(0);
  }

  lemma FillingStep(nodes: seq<Node>, chains: seq<seq<nat>>, entries: seq<Entry>, sizearray: nat, n: nat, i: nat)
    returns (chains': seq<seq<nat>>)
    requires Filling(nodes, chains, entries, sizearray, n) && Proper(entries) && n < |entries|
    requires IsHashKey(entries[n].key, sizearray) && i < |nodes| && !Used(nodes[i])
    requires nodes[MainOf(entries[n].key, |nodes|)].key != entries[n].key
    ensures var nodes' := Collided(nodes, MainOf(entries[n].key, |nodes|), i, entries[n].key, entries[n].value);
      Filling(nodes', chains', entries, sizearray, n + 1)
  {
    assert Look(0);
    var nodes', chains1 := CollidingStep(nodes, chains, entries, sizearray, n, i);
    chains' := chains1;
  }

  lemma Skip(nodes: seq<Node>, chains: seq<seq<nat>>, entries: seq<Entry>, sizearray: nat, n: nat)
    requires Filling(nodes, chains, entries, sizearray, n) && n < |entries| && |nodes| > 0
    requires IsHashKey(entries[n].key, sizearray) ==> nodes[MainOf(entries[n].key, |nodes|)].key == entries[n].key
    ensures Filling(nodes, chains, entries, sizearray, n + 1)
  {
    assert Look(0);
    if IsHashKey(entries[n].key, sizearray) {
      var h := MainOf(entries[n].key, |nodes|);
      assert Used(nodes[h]) && nodes[h].key == entries[n].key;
    }
  }

  // ---- The frozen table ------------------------------------------------------------------------

  /** The array part's keys from place `i` on. */
  function ArrayKeys(a: seq<Value>, i: nat): seq<Key>
    requires i <= |a|
    decreases |a| - i
  {
    if i == |a| then [] else (if a[i] == Nil then [] else [IntegerKey(i + 1)]) + ArrayKeys(a, i + 1)
  }

  function NodeKeys(nodes: seq<Node>): (r: seq<Key>)
    ensures |r| == |nodes| && forall i :: 0 <= i < |r| ==> r[i] == nodes[i].key
  {
    seq(|nodes|, i requires 0 <= i < |nodes| => nodes[i].key)
  }

  function Head(keys: seq<Key>): Option<Key> { if keys == [] then None else Some(keys[0]) }

  function At(keys: seq<Key>, j: nat): Option<Key> { if j < |keys| then Some(keys[j]) else None }

  /** The answer for each key of the order is the one behind it. */
  ghost predicate Follows(order: seq<Key>, k: Option<Key>, r: Option<Key>)
  {
    forall n :: Look(n) ==> forall j :: 0 <= j < |order| && k == Some(order[j]) ==> r == At(order, j + 1)
  }

  lemma PrefixNext(order: seq<Key>, j: nat)
    requires j < |order|
    ensures order[..j + 1] == order[..j] + [order[j]]
  {
  }

  lemma FollowsAt(order: seq<Key>, r: Option<Key>, j: nat)
    requires j < |order| && Follows(order, Some(order[j]), r)
    ensures r == At(order, j + 1)
  {
    assert Look(0);
  }

  class Frozen {
    var sizearray: nat
    var sizehash: nat
    var items: array<Value>
    var hash: array<Node>
    ghost var chains: seq<seq<nat>>

    /** The table is what the entries were. */
    ghost predicate Holds(entries: seq<Entry>)
      reads this, items, hash
    {
      forall n :: Look(n) ==> Built(entries)
    }

    ghost predicate Built(entries: seq<Entry>)
      reads this, items, hash
    {
      && items.Length == sizearray && hash.Length == sizehash
      && Proper(entries) && Arrayed(items[..], entries)
      && Linked(hash[..], chains) && FromSource(hash[..], entries, sizearray)
      && Placed(hash[..], entries, sizearray, |entries|)
      && forall i :: 0 <= i < sizehash ==> Used(hash[i])
    }

    /** `countsize`. */
    static method CountSize(entries: seq<Entry>, sizearray: nat) returns (n: nat)
      ensures n == |HashKeys(entries, sizearray)|
    {
      var i := 0;
      n := 0;
      while i < |entries|
        invariant 0 <= i <= |entries| && n == |HashKeys(entries[..i], sizearray)|
      {
        assert entries[..i + 1][..i] == entries[..i];
        var k := entries[i].key;
        n := n + 1;
        if k.IntegerKey? && k.n > 0 && k.n <= sizearray { n := n - 1; }
        i := i + 1;
      }
      assert entries[..i] == entries;
    }

    /** `fillnocolliding`. */
    method FillNoColliding(entries: seq<Entry>) returns (ghost owner: seq<nat>)
      requires Trimmed(entries) && items.Length == sizearray && hash.Length == sizehash > 0
      requires Arrayed(items[..], []) && Linked(hash[..], chains)
      requires forall i :: 0 <= i < hash.Length ==> !Used(hash[i])
      modifies items, hash, `chains
      ensures Arrayed(items[..], entries)
      ensures |owner| == hash.Length && Took(hash[..], owner, entries, sizearray, |entries|)
      ensures Proper(entries) ==> Homed(hash[..], chains, entries, sizearray, |entries|)
    {
      var i := 0;
      owner := seq(sizehash, _ => 0);
      while i < |entries|
        invariant 0 <= i <= |entries| && Arrayed(items[..], entries[..i])
        invariant |owner| == |chains| == hash.Length && Took(hash[..], owner, entries, sizearray, i)
        invariant Proper(entries) ==> Homed(hash[..], chains, entries, sizearray, i)
      {
        var k, v := TruncateKey(entries[i].key), entries[i].value;
        if IsHashKey(k, sizearray) {
          ArrayStep(items[..], entries, i);
          owner := PutMainly(entries, i, k, v, owner);
        } else {
          TookNone(hash[..], owner, entries, sizearray, i);
          if Proper(entries) { HomedStep(hash[..], chains, entries, sizearray, i); }
          SetArray(entries, i, k.n, v);
        }
        i := i + 1;
      }
      assert entries[..i] == entries;
    }

    /** `setarray`. */
    method SetArray(entries: seq<Entry>, n: nat, key: int, v: Value)
      requires items.Length == sizearray && 0 < key <= sizearray && n < |entries|
      requires Arrayed(items[..], entries[..n]) && entries[n] == Entry(IntegerKey(key), v)
      modifies items
      ensures Arrayed(items[..], entries[..n + 1])
    {
      ArrayStep(items[..], entries, n);
      items[key - 1] := v;
    }

    /** What `fillnocolliding` does with a key of the hash part. */
    method PutMainly(entries: seq<Entry>, n: nat, k: Key, v: Value, ghost owner: seq<nat>)
      returns (ghost owner': seq<nat>)
      requires Trimmed(entries) && |owner| == |chains| == hash.Length == sizehash > 0
      requires Took(hash[..], owner, entries, sizearray, n)
      requires n < |entries| && entries[n] == Entry(k, v) && IsHashKey(k, sizearray)
      requires Proper(entries) ==> Homed(hash[..], chains, entries, sizearray, n)
      modifies hash, `chains
      ensures Took(hash[..], owner', entries, sizearray, n + 1) && |owner'| == |chains| == hash.Length
      ensures Proper(entries) ==> Homed(hash[..], chains, entries, sizearray, n + 1)
    {
      ghost var nodes := hash[..];
      if Proper(entries) { HomedStep(nodes, chains, entries, sizearray, n); }
      var h := KeyHash(k) % sizehash;
      owner' := owner;
      if hash[h].v == Nil {
        TookMain(nodes, owner, entries, sizearray, n);
        hash[h] := Node(v, k, -1, KeyHash(k), true);
        chains, owner' := chains[h := [h]], owner[h := n];
        assert hash[..] == nodes[h := MainNode(k, v)];
      } else {
        TookNone(nodes, owner, entries, sizearray, n);
      }
    }

    /** `fillcolliding`. */
    method FillColliding(entries: seq<Entry>, ghost first: seq<nat>) returns (ghost owner: seq<nat>)
      requires Trimmed(entries) && hash.Length == sizehash >= |HashKeys(entries, sizearray)| && sizehash > 0
      requires |first| == hash.Length && Took(hash[..], first, entries, sizearray, |entries|)
      requires Proper(entries) ==> Homed(hash[..], chains, entries, sizearray, |entries|)
      modifies hash, `chains
      ensures Takes(hash[..], owner, entries, sizearray, |entries|)
      ensures Proper(entries) ==> Filling(hash[..], chains, entries, sizearray, |entries|)
    {
      var n := 0;
      owner := first;
      TakesFirst(hash[..], first, entries, sizearray);
      if Proper(entries) { FillingFirst(hash[..], chains, entries, sizearray); }
      while n < |entries|
        invariant 0 <= n <= |entries| && |owner| == hash.Length && Takes(hash[..], owner, entries, sizearray, n)
        invariant Proper(entries) ==> Filling(hash[..], chains, entries, sizearray, n)
      {
        var k, v := TruncateKey(entries[n].key), entries[n].value;
        ghost var nodes, links := hash[..], chains;
        if IsHashKey(k, sizearray) && hash[KeyHash(k) % sizehash].key != k {
          owner := PutAway(entries, n, k, v, owner);
        } else {
          TakesNone(nodes, owner, entries, sizearray, n);
          if Proper(entries) { Skip(nodes, links, entries, sizearray, n); }
        }
        n := n + 1;
      }
    }

    /** What `fillcolliding` does with a key that is not at its main position. */
    method PutAway(entries: seq<Entry>, n: nat, k: Key, v: Value, ghost owner: seq<nat>)
      returns (ghost owner': seq<nat>)
      requires Trimmed(entries) && |owner| == hash.Length == sizehash >= |HashKeys(entries, sizearray)| && sizehash > 0
      requires Takes(hash[..], owner, entries, sizearray, n)
      requires n < |entries| && entries[n] == Entry(k, v) && IsHashKey(k, sizearray)
               && hash[KeyHash(k) % sizehash].key != k
      requires Proper(entries) ==> Filling(hash[..], chains, entries, sizearray, n)
      modifies hash, `chains
      ensures |owner'| == hash.Length && Takes(hash[..], owner', entries, sizearray, n + 1)
      ensures Proper(entries) ==> Filling(hash[..], chains, entries, sizearray, n + 1)
    {
      ghost var nodes, links := hash[..], chains;
      FreeSlotFor(nodes, owner, entries, sizearray, n);
      var i := FindFree();
      TakesColliding(nodes, owner, entries, sizearray, n, i);
      if Proper(entries) { links := FillingStep(nodes, links, entries, sizearray, n, i); }
      LinkBehind(KeyHash(k) % sizehash, i, k, v);
      chains, owner' := links, owner[i := n];
    }

    /** The slot is filled, and linked behind the main position. */
    method LinkBehind(h: nat, i: nat, k: Key, v: Value)
      requires h < hash.Length && i < hash.Length
      modifies hash
      ensures hash[..] == Collided(old(hash[..]), h, i, k, v)
    {
      var next := hash[h].next;
      var main := hash[h].(next := i, nocolliding := false);
      hash[i] := Node(v, k, next, KeyHash(k), false);
      hash[h] := main;
    }

    /** The search of `fillcolliding` for a free slot, which ends with one, as its assertion says. */
    method FindFree() returns (i: nat)
      requires exists i :: 0 <= i < hash.Length && !Used(hash[..][i])
      ensures i < hash.Length && !Used(hash[i])
    {
      i := 0;
      while Used(hash[i])
        invariant i < hash.Length && forall j :: 0 <= j < i ==> Used(hash[j])
        decreases hash.Length - i
      {
        i := i + 1;
      }
    }

    /** The rest of `convtable` for a table without a hash part. */
    method FillArray(entries: seq<Entry>)
      requires items.Length == sizearray
      modifies items
      ensures Arrayed(items[..], entries)
    {
      var i := 1;
      while i <= sizearray
        invariant 1 <= i <= sizearray + 1
        invariant forall j :: 0 <= j < i - 1 ==> items[j] == ValueOf(entries, IntegerKey(j + 1))
      {
        items[i - 1] := ValueOf(entries, IntegerKey(i));
        i := i + 1;
      }
    }

    constructor ()
      ensures sizearray == 0 && sizehash == 0
    {
      sizearray, sizehash, chains := 0, 0, [];
      items := new Value[0];
      hash := new Node[0];
    }

    /** The allocations of `convtable`. */
    method Allocate(n: nat, rawlen: nat)
      modifies this
      ensures sizearray == rawlen == items.Length && sizehash == n == hash.Length && fresh(items) && fresh(hash)
      ensures Arrayed(items[..], []) && Linked(hash[..], chains) && forall i :: 0 <= i < hash.Length ==> !Used(hash[i])
    {
      sizearray := rawlen;
      items := new Value[rawlen](i => Nil);
      hash := new Node[n](i => Node(Nil, IntegerKey(0), 0, 0, false));
      sizehash := n;
      chains := seq(n, i => []);
    }

    /** `convtable`: `rawlen` is what `lua_rawlen` says, the length of the table, which need not
      be the number of its positive keys. Keys are counted as they are and read as they are cut. The
      slots are all used, by different keys, exactly when no two keys are cut to the same and none to
      one of the array part; otherwise `lookup_key` can come to a slot that was never written. */
    method ConvTable(entries: seq<Entry>, rawlen: nat)
      requires Wide(entries) && rawlen < 0x8000_0000
      modifies this
      ensures sizearray == rawlen == items.Length && sizehash == hash.Length && fresh(items) && fresh(hash)
      ensures sizehash == |HashKeys(entries, rawlen)| && Arrayed(items[..], CutEntries(entries))
      ensures Complete(hash[..]) <==> NoneAlike(entries) && NoneCutIn(entries, rawlen)
      ensures Complete(hash[..]) ==> Holds(CutEntries(entries))
    {
      var n := CountSize(entries, rawlen);
      CutFits(entries, rawlen);
      Allocate(n, rawlen);
      CutTrimmed(entries);
      CutProper(entries);
      if n > 0 { ConvHash(CutEntries(entries), n, rawlen); } else { ConvArray(entries, rawlen); }
    }

    /** The rest of `convtable`. */
    method ConvHash(entries: seq<Entry>, n: nat, rawlen: nat)
      requires Trimmed(entries) && n >= |HashKeys(entries, rawlen)| && n > 0
      requires sizearray == rawlen == items.Length && sizehash == n == hash.Length
      requires Arrayed(items[..], []) && Linked(hash[..], chains)
      requires forall i :: 0 <= i < hash.Length ==> !Used(hash[i])
      modifies items, hash, `chains
      ensures Arrayed(items[..], entries)
      ensures Complete(hash[..]) ==> n <= |Elements(HashKeys(entries, rawlen))|
      ensures Proper(entries) && n == |HashKeys(entries, rawlen)| ==> Complete(hash[..]) && Holds(entries)
    {
      ghost var owner := FillNoColliding(entries);
      owner := FillColliding(entries, owner);
      ghost var nodes := hash[..];
      if Complete(nodes) { CompleteFits(nodes, owner, entries, rawlen, |entries|); }
      assert Look(0);
      if Proper(entries) && n == |HashKeys(entries, rawlen)| {
        HashKeysOnce(entries, rawlen);
        forall k | k in HashKeys(entries, rawlen) ensures !Absent(nodes, k) {
          var m :| 0 <= m < |entries| && entries[m].key == k;
        }
        AllUsed(nodes, HashKeys(entries, rawlen));
        assert Built(entries);
      }
    }

    /** A table that has no key for the hash part. */
    method ConvArray(entries: seq<Entry>, rawlen: nat)
      requires Wide(entries) && |HashKeys(entries, rawlen)| == 0 && rawlen < 0x8000_0000
      requires sizearray == rawlen == items.Length && sizehash == 0 == hash.Length && chains == []
      modifies items
      ensures Arrayed(items[..], CutEntries(entries)) && Holds(CutEntries(entries)) && Complete(hash[..])
      ensures Proper(CutEntries(entries)) && NoneCutIn(entries, rawlen)
    {
      forall m | 0 <= m < |entries| ensures !IsHashKey(entries[m].key, rawlen) {
        assert entries[m].key !in HashKeys(entries, rawlen);
      }
      assert CutEntries(entries) == entries;
      FillArray(entries);
      assert hash[..] == [];
      assert Built(entries);
    }

    /** The loop of `lookup_key`, along a chain. */
    method Follow(k: Key, start: nat, ghost c: seq<nat>, ghost p: nat, ghost from: nat) returns (r: int)
      requires Linked(hash[..], chains) && hash.Length == sizehash && Chain(hash[..], c, p) && from < |c|
               && c[from] == start
      ensures 0 <= r ==> r < sizehash && hash[r].key == k
      ensures r < 0 ==> NotIn(hash[..], c, from, |c|, k)
    {
      ghost var nodes, pos := hash[..], from;
      var i := start;
      assert Link(nodes, c, p, pos);
      while true
        invariant from <= pos < |c| && i == c[pos] < sizehash && NotIn(nodes, c, from, pos, k)
        decreases |c| - pos
      {
        assert Link(nodes, c, p, pos) && Chained(nodes, chains, i);
        if KeyHash(k) == hash[i].keyhash {
          if hash[i].key == k { return i; }
        }
        if hash[i].next < 0 { return -1; }
        i, pos := hash[i].next, pos + 1;
        assert Link(nodes, c, p, pos);
      }
    }

    /** `lookup_key`: the slot of a key, or -1 when no slot has it. */
    method LookupKey(k: Key) returns (r: int)
      requires Linked(hash[..], chains) && hash.Length == sizehash && forall i :: 0 <= i < sizehash ==> Used(hash[i])
      ensures 0 <= r ==> r < sizehash && hash[r].key == k
      ensures r < 0 ==> Absent(hash[..], k)
    {
      if sizehash == 0 { return -1; }
      ghost var nodes := hash[..];
      var i := KeyHash(k) % sizehash;
      ghost var p := if chains[i] != [] then i else Home(nodes[i], sizehash);
      ghost var c := chains[p];
      assert Chained(nodes, chains, i) && Chain(nodes, chains[i], i) && Chain(nodes, c, p);
      if KeyHash(k) != hash[i].keyhash && hash[i].nocolliding {
        assert chains[i] != [] ==> Link(nodes, c, i, 0);
        OnlyInChain(nodes, chains, k);
        return -1;
      }
      ghost var from := if chains[i] != [] then 0 else PlaceIn(c, i);
      r := Follow(k, i, c, p, from);
      if r < 0 { OnlyInChain(nodes, chains, k); }
    }

    /** `lindexconf`: the index, an integer or a string, is cut to an `int` first. */
    method IndexConf(k0: Key, ghost entries: seq<Entry>) returns (v: Value)
      requires Holds(entries) && !k0.TableKey?
      ensures v == ValueOf(entries, TruncateKey(k0))
    {
      assert Look(0);
      var k := TruncateKey(k0);
      if !IsHashKey(k, sizearray) { return items[k.n - 1]; }
      var i := LookupKey(k);
      if i >= 0 {
        v := hash[i].v;
      } else {
        v := Nil;
        HoldsNothing(entries, hash[..], sizearray, k);
      }
    }

    /** The keys in the order of `lnextkey`. */
    ghost function Order(): seq<Key>
      reads this, items, hash
    {
      ArrayKeys(items[..], 0) + NodeKeys(hash[..])
    }

    /** The search of `lnextkey` in the array part, from place `from` on. */
    method NextInArray(from: nat) returns (r: Option<Key>)
      requires items.Length == sizearray && hash.Length == sizehash && from <= sizearray
      ensures r == Head(ArrayKeys(items[..], from) + NodeKeys(hash[..]))
    {
      var i := from;
      while i < sizearray
        invariant from <= i <= sizearray && ArrayKeys(items[..], from) == ArrayKeys(items[..], i)
      {
        if items[i] != Nil { return Some(IntegerKey(i + 1)); }
        i := i + 1;
      }
      if sizehash > 0 { return Some(hash[0].key); }
      r := None;
    }

    /** `lnextkey` for a key: the one behind it, `None` if that was the last or it is not there. */
    method NextKey(k0: Option<Key>, ghost entries: seq<Entry>) returns (r: Option<Key>)
      requires Holds(entries) && (k0.Some? ==> !k0.value.TableKey?)
      ensures k0 == None ==> r == Head(Order())
      ensures Follows(Order(), k0, r)
    {
      assert Look(0);
      if k0 == None {
        r := NextInArray(0);
        return;
      }
      var k := TruncateKey(k0.value);
      ghost var a, nodes := items[..], hash[..];
      ghost var order := Order();
      if !IsHashKey(k, sizearray) {
        r := NextInArray(k.n);
        forall j | 0 <= j < |order| && k0 == Some(order[j]) ensures r == Head(order[j + 1..]) {
          SourceKey(entries, a, nodes, j);
          BehindArrayKey(entries, a, nodes, j);
        }
        return;
      }
      var n := LookupKey(k);
      if n < 0 {
        r := None;
      } else if n + 1 == sizehash {
        r := None;
      } else {
        r := Some(hash[n + 1].key);
      }
      forall j | 0 <= j < |order| && k0 == Some(order[j]) ensures r == Head(order[j + 1..]) {
        BehindHashKey(entries, a, nodes, j, n);
      }
    }

    /** Asking for one key after the other gives each of them once. */
    method Enumerate(ghost entries: seq<Entry>) returns (keys: seq<Key>)
      requires Holds(entries)
      ensures keys == Order() && AllDiffer(keys)
      ensures forall k :: k in keys <==> ValueOf(entries, k) != Nil
    {
      assert Look(0);
      ghost var order := Order();
      keys := [];
      var k := NextKey(None, entries);
      while k.Some?
        invariant |keys| <= |order| && keys == order[..|keys|] && k == At(order, |keys|)
        decreases |order| - |keys|
      {
        ghost var j := |keys|;
        PrefixNext(order, j);
        keys := keys + [k.value];
        OrderKey(entries, items[..], hash[..], j);
        k := NextKey(k, entries);
        FollowsAt(order, k, j);
      }
      assert keys == order;
      OrderComplete(entries, items[..], hash[..]);
    }
  }

  /** Converting a table with such keys and indexing it with any of them gives what the table holds there. */
  method ConvertAndIndex(entries: seq<Entry>, rawlen: nat, k: Key) returns (v: Value)
    requires Wide(entries) && Ordinary(entries) && OrdinaryKey(k) && rawlen < 0x8000_0000
    ensures v == ValueOf(entries, k)
    ensures (exists i :: 0 <= i < |entries| && entries[i] == Entry(k, v)) ||
      (v == Nil && forall i :: 0 <= i < |entries| ==> entries[i].key != k)
  {
    var t := new Frozen();
    OrdinaryCut(entries, rawlen);
    t.ConvTable(entries, rawlen);
    v := t.IndexConf(k, entries);
    if i :| 0 <= i < |entries| && entries[i].key == k {
      WideAt(entries, i);
      assert entries[i] == Entry(k, v);
    } else {
      ValueNowhere(entries, k);
    }
  }

  /** Converting it and going from key to key gives each of its keys once. */
  method ConvertAndEnumerate(entries: seq<Entry>, rawlen: nat) returns (keys: seq<Key>)
    requires Wide(entries) && Ordinary(entries) && rawlen < 0x8000_0000
    ensures AllDiffer(keys) && forall k :: k in keys <==> exists i :: 0 <= i < |entries| && entries[i].key == k
  {
    var t := new Frozen();
    OrdinaryCut(entries, rawlen);
    t.ConvTable(entries, rawlen);
    keys := t.Enumerate(entries);
    forall k ensures k in keys <==> exists i :: 0 <= i < |entries| && entries[i].key == k {
      if i :| 0 <= i < |entries| && entries[i].key == k { WideAt(entries, i); } else { ValueNowhere(entries, k); }
    }
  }

  /** A conversion in which a key overwrites another: the source has true at 1. */
  method LongKeyOverwrites() returns (t: Frozen)
    ensures Wide(Overwriting()) && ValueOf(Overwriting(), IntegerKey(1)) == Boolean(true)
    ensures t.items.Length == 1 && t.items[0] == Boolean(false) && !Complete(t.hash[..])
  {
    t := new Frozen();
    LongKeyCutIn();
    t.ConvTable(Overwriting(), 1);
  }

  /** A conversion in which two keys of the hash part are cut to the same: a slot is not used, or both hold
    the same key. */
  method AlikeKeysFail(keys: seq<Entry>) returns (t: Frozen)
    requires keys == CutAlike() || keys == TablesAlike()
    ensures Wide(keys) && NoneCutIn(keys, 0) && t.hash.Length == 2 && !Complete(t.hash[..])
  {
    t := new Frozen();
    KeysCutAlike(keys);
    t.ConvTable(keys, 0);
  }

  /** What is in no slot, and not for the array part, the source table does not have. */
  lemma HoldsNothing(entries: seq<Entry>, nodes: seq<Node>, sizearray: nat, k: Key)
    requires Proper(entries) && Placed(nodes, entries, sizearray, |entries|) && Absent(nodes, k)
             && IsHashKey(k, sizearray)
    ensures ValueOf(entries, k) == Nil
  {
    if ValueOf(entries, k) != Nil {
      var i := ValueSomewhere(entries, k);
    }
  }

  lemma {:induction false} ArrayKeysAre(a: seq<Value>, i: nat)
    requires i <= |a|
    ensures forall k :: k in ArrayKeys(a, i) <==> k.IntegerKey? && i < k.n <= |a| && a[k.n - 1] != Nil
    ensures AllDiffer(ArrayKeys(a, i))
    decreases |a| - i
  {
    if i < |a| { ArrayKeysAre(a, i + 1); }
  }

  /** Behind an array key come those of the higher places. */
  lemma {:induction false} ArrayKeysBehind(a: seq<Value>, i: nat, j: nat)
    requires i <= |a| && j < |ArrayKeys(a, i)|
    ensures var k := ArrayKeys(a, i)[j];
      k.IntegerKey? && i < k.n <= |a| && ArrayKeys(a, i)[j + 1..] == ArrayKeys(a, k.n)
    decreases |a| - i
  {
    if a[i] == Nil {
      ArrayKeysBehind(a, i + 1, j);
    } else if j > 0 {
      ArrayKeysBehind(a, i + 1, j - 1);
    }
  }

  lemma BehindArrayKey(entries: seq<Entry>, a: seq<Value>, nodes: seq<Node>, j: nat)
    requires FromSource(nodes, entries, |a|) && (forall i :: 0 <= i < |nodes| ==> Used(nodes[i]))
    requires j < |ArrayKeys(a, 0) + NodeKeys(nodes)| && !IsHashKey((ArrayKeys(a, 0) + NodeKeys(nodes))[j], |a|)
    ensures var order := ArrayKeys(a, 0) + NodeKeys(nodes);
      order[j + 1..] == ArrayKeys(a, order[j].n) + NodeKeys(nodes)
  {
    var front, back := ArrayKeys(a, 0), NodeKeys(nodes);
    assert forall i :: 0 <= i < |back| ==> Used(nodes[i]) && IsHashKey(back[i], |a|);
    assert j < |front|;
    ArrayKeysBehind(a, 0, j);
  }

  function PlaceIn(c: seq<nat>, i: nat): (r: nat)
    requires i in c
    ensures r < |c| && c[r] == i
  {
    if c[0] == i then 0 else 1 + PlaceIn(c[1..], i)
  }

  ghost predicate NotIn(nodes: seq<Node>, c: seq<nat>, from: nat, to: nat, k: Key)
  {
    forall q :: from <= q < to <= |c| ==> c[q] < |nodes| && nodes[c[q]].key != k
  }

  /** A key that is not in the chain of its main position is nowhere. */
  lemma OnlyInChain(nodes: seq<Node>, chains: seq<seq<nat>>, k: Key)
    requires Linked(nodes, chains) && |nodes| > 0
    requires var c := chains[MainOf(k, |nodes|)]; NotIn(nodes, c, 0, |c|, k)
    ensures Absent(nodes, k)
  {
    forall i | 0 <= i < |nodes| && Used(nodes[i]) ensures nodes[i].key != k {
      assert Chained(nodes, chains, i);
      var c := chains[Home(nodes[i], |nodes|)];
      var q := PlaceIn(c, i);
      assert c[q] == i;
    }
  }

  lemma BehindHashKey(entries: seq<Entry>, a: seq<Value>, nodes: seq<Node>, j: nat, n: int)
    requires Proper(entries) && Arrayed(a, entries) && FromSource(nodes, entries, |a|) && Distinct(nodes)
    requires forall i :: 0 <= i < |nodes| ==> Used(nodes[i])
    requires j < |ArrayKeys(a, 0) + NodeKeys(nodes)|
             && IsHashKey(TruncateKey((ArrayKeys(a, 0) + NodeKeys(nodes))[j]), |a|)
    requires var k := TruncateKey((ArrayKeys(a, 0) + NodeKeys(nodes))[j]);
      if n < 0 then Absent(nodes, k) else n < |nodes| && nodes[n].key == k
    ensures var order := ArrayKeys(a, 0) + NodeKeys(nodes);
      0 <= n && order[j + 1..] == NodeKeys(nodes)[n + 1..]
  {
    var front, back := ArrayKeys(a, 0), NodeKeys(nodes);
    var k := (front + back)[j];
    SourceKey(entries, a, nodes, j);
    ArrayKeysAre(a, 0);
    assert j < |front| ==> k in front;
    assert j >= |front| ==> k == nodes[j - |front|].key && n == j - |front|;
  }

  /** The keys of the frozen table are keys of the source. */
  lemma SourceKey(entries: seq<Entry>, a: seq<Value>, nodes: seq<Node>, j: nat)
    requires Proper(entries) && Arrayed(a, entries) && FromSource(nodes, entries, |a|)
    requires forall i :: 0 <= i < |nodes| ==> Used(nodes[i])
    requires j < |ArrayKeys(a, 0) + NodeKeys(nodes)|
    ensures var k := (ArrayKeys(a, 0) + NodeKeys(nodes))[j]; ValueOf(entries, k) != Nil && TruncateKey(k) == k
  {
    var front, back := ArrayKeys(a, 0), NodeKeys(nodes);
    var k := (front + back)[j];
    if j < |front| {
      ArrayKeysAre(a, 0);
      assert k in front;
    } else {
      assert k == nodes[j - |front|].key;
    }
    var i := ValueSomewhere(entries, k);
  }

  lemma OrderKey(entries: seq<Entry>, a: seq<Value>, nodes: seq<Node>, j: nat)
    requires Proper(entries) && Arrayed(a, entries) && FromSource(nodes, entries, |a|)
    requires forall i :: 0 <= i < |nodes| ==> Used(nodes[i])
    requires j < |ArrayKeys(a, 0) + NodeKeys(nodes)|
    ensures !(ArrayKeys(a, 0) + NodeKeys(nodes))[j].TableKey?
  {
    SourceKey(entries, a, nodes, j);
  }

  /** The order goes over each key of the source once, and over no other. */
  lemma OrderComplete(entries: seq<Entry>, a: seq<Value>, nodes: seq<Node>)
    requires Proper(entries) && Arrayed(a, entries) && FromSource(nodes, entries, |a|) && Distinct(nodes)
    requires Placed(nodes, entries, |a|, |entries|) && forall i :: 0 <= i < |nodes| ==> Used(nodes[i])
    ensures AllDiffer(ArrayKeys(a, 0) + NodeKeys(nodes))
    ensures forall k :: k in ArrayKeys(a, 0) + NodeKeys(nodes) <==> ValueOf(entries, k) != Nil
  {
    var front, back := ArrayKeys(a, 0), NodeKeys(nodes);
    ArrayKeysAre(a, 0);
    assert forall i :: 0 <= i < |back| ==> IsHashKey(back[i], |a|);
    assert forall k :: k in front ==> !IsHashKey(k, |a|);
    forall k ensures k in front + back <==> ValueOf(entries, k) != Nil {
      if k in back {
        var i :| 0 <= i < |back| && back[i] == k;
        assert Used(nodes[i]) && nodes[i].key == k;
      } else if IsHashKey(k, |a|) {
        forall i | 0 <= i < |nodes| ensures nodes[i].key != k { assert back[i] in back; }
        HoldsNothing(entries, nodes, |a|, k);
      }
    }
  }
}
