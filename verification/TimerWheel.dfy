/** Where `skynet_timer.c` keeps its nodes, and how that changes with the clock. */
module TimerWheel {
  import opened TimerSpec

  /** The lists of the wheel: 256 near ones, and four levels of 64. */
  datatype Bucket = Near(idx: nat) | Level(i: nat, idx: nat)

  predicate IsBucket(b: Bucket)
  {
    match b
    case Near(idx) => idx < TIME_NEAR
    case Level(i, idx) => i < 4 && idx < TIME_LEVEL
  }

  /** The number of ticks after which the block of level `i` changes. */
  function Block(i: nat): (n: nat)
    ensures n > 0
  {
    if i == 0 then 0x4000 else if i == 1 then 0x10_0000 else if i == 2 then 0x400_0000 else WORD
  }

  /** The index of `x` in level `i`. */
  function Digit(x: nat, i: nat): (d: nat)
    ensures d < TIME_LEVEL
  {
    (if i == 0 then x / 0x100 else if i == 1 then x / 0x4000 else if i == 2 then x / 0x10_0000 else x / 0x400_0000) % 64
  }

  /** `add_node`: the list for a node expiring at `x` when the clock shows `t`. */
  function Place(x: nat, t: nat): (b: Bucket)
    ensures IsBucket(b)
  {
    if x / 256 == t / 256 then Near(x % 256)
    else if x / Block(0) == t / Block(0) then Level(0, Digit(x, 0))
    else if x / Block(1) == t / Block(1) then Level(1, Digit(x, 1))
    else if x / Block(2) == t / Block(2) then Level(2, Digit(x, 2))
    else Level(3, Digit(x, 3))
  }

  /** What the clock shows after `n` ticks: it wraps around at 2^32. */
  function Clock(n: nat): (t: nat)
    ensures t < WORD
    decreases n
  {
    if n < WORD then n else Clock(n - WORD)
  }

  /** The list of the pending entry `e` after `n` ticks. */
  function PlaceOf(e: Entry, n: nat): Bucket { Place(Clock(e.due), Clock(n)) }

  /** What `timer_shift` moves when the clock becomes `ct`. */
  datatype Move = Nothing | List(level: nat, idx: nat)

  function MoveAt(ct: nat): (m: Move)
    ensures m.List? ==> IsBucket(Level(m.level, m.idx))
    requires ct < WORD
  {
    if ct == 0 then List(3, 0)
    else if ct % 256 != 0 then Nothing
    else if Digit(ct, 0) != 0 then List(0, Digit(ct, 0))
    else if Digit(ct, 1) != 0 then List(1, Digit(ct, 1))
    else if Digit(ct, 2) != 0 then List(2, Digit(ct, 2))
    else List(3, Digit(ct, 3))
  }

  /** The list is below the level that is being moved. */
  predicate Below(b: Bucket, level: nat) { b.Near? || b.i < level }

  /** The clock `t` will show `x` within the longest delay. */
  predicate Ahead(x: nat, t: nat)
  {
    x < WORD && t < WORD && (t < x || x + WORD <= t + MAX_DELAY)
  }

  function NextClock(t: nat): nat { if t + 1 == WORD then 0 else t + 1 }

  lemma {:induction false} EntryAhead(e: Entry, n: nat)
    requires n < e.due <= n + MAX_DELAY
    ensures Ahead(Clock(e.due), Clock(n)) && Clock(n + 1) == NextClock(Clock(n))
    decreases n
  {
    if n >= WORD { EntryAhead(e.(due := e.due - WORD), n - WORD); }
  }

  lemma {:induction false} ClockPlus(n: nat, d: nat)
    requires d <= MAX_DELAY
    ensures (d + Clock(n)) % WORD == Clock(n + d)
    decreases n
  {
    if n >= WORD { ClockPlus(n - WORD, d); }
  }

  /** The blocks of one level are the blocks of the next, cut in 64. */
  lemma Nested(x: nat)
    ensures x / 0x4000 == x / 256 / 64 && x / 0x10_0000 == x / 0x4000 / 64 && x / 0x400_0000 == x / 0x10_0000 / 64
  {
  }

  /** Inside a near block nothing moves. */
  lemma NoCarry(x: nat, t: nat)
    requires t < WORD && t % 256 != 255
    ensures NextClock(t) == t + 1 && MoveAt(t + 1) == Nothing && Place(x, t + 1) == Place(x, t)
  {
    assert (t + 1) / 256 == t / 256;
    Nested(t);
    Nested(t + 1);
    assert t / WORD == 0 && (t + 1) / WORD == 0;
  }

  /** What a tick does to the node `x`: only the nodes of the moved list get a new place, further
    down, and the lists down there were empty. */
  predicate Settles(x: nat, t: nat)
    requires t < WORD
  {
    var c := NextClock(t);
    var m := MoveAt(c);
    if m == Nothing then Place(x, c) == Place(x, t)
    else
      && !Below(Place(x, t), m.level)
      && if Place(x, t) == Level(m.level, m.idx) then Below(Place(x, c), m.level) else Place(x, c) == Place(x, t)
  }

  /** At the end of a near block nothing is left in it. */
  lemma NearPast(x: nat, t: nat)
    requires Ahead(x, t) && t % 256 == 255
    ensures x / 256 != t / 256
    ensures t / 256 % 64 == 63 ==> x / 0x4000 != t / 0x4000
    ensures t / 256 % 64 == 63 && t / 0x4000 % 64 == 63 ==> x / 0x10_0000 != t / 0x10_0000
    ensures t / 256 % 64 == 63 && t / 0x4000 % 64 == 63 && t / 0x10_0000 % 64 == 63 ==> x / 0x400_0000 != t / 0x400_0000
  {
    Nested(t);
    Nested(x);
  }

  lemma CarryOnce(t: nat)
    requires t % 256 == 255 && t / 256 % 64 != 63
    ensures (t + 1) % 256 == 0 && (t + 1) / 256 == t / 256 + 1 && (t + 1) / 0x4000 == t / 0x4000
  {
  }

  lemma Carry0(x: nat, t: nat)
    requires Ahead(x, t) && t % 256 == 255 && t / 256 % 64 != 63
    ensures Settles(x, t)
  {
    var c := t + 1;
    NearPast(x, t);
    Nested(x);
    Nested(t);
    Nested(c);
    CarryOnce(t);
    assert MoveAt(c) == List(0, c / 256 % 64);
  }

  lemma Carry1(x: nat, t: nat)
    requires Ahead(x, t) && t % 256 == 255 && t / 256 % 64 == 63 && t / 0x4000 % 64 != 63
    ensures Settles(x, t)
  {
    var c := t + 1;
    NearPast(x, t);
    Nested(x);
    Nested(t);
    Nested(c);
    assert c / 256 == t / 256 + 1 && c / 0x4000 == t / 0x4000 + 1;
    assert c / 0x10_0000 == t / 0x10_0000;
    assert MoveAt(c) == List(1, c / 0x4000 % 64);
  }

  lemma Carry2(x: nat, t: nat)
    requires Ahead(x, t) && t % 256 == 255 && t / 256 % 64 == 63 && t / 0x4000 % 64 == 63 && t / 0x10_0000 % 64 != 63
    ensures Settles(x, t)
  {
    var c := t + 1;
    NearPast(x, t);
    Nested(x);
    Nested(t);
    Nested(c);
    assert c / 256 == t / 256 + 1 && c / 0x4000 == t / 0x4000 + 1 && c / 0x10_0000 == t / 0x10_0000 + 1;
    assert c / 0x400_0000 == t / 0x400_0000;
    assert MoveAt(c) == List(2, c / 0x10_0000 % 64);
  }

  lemma Carry3(x: nat, t: nat)
    requires Ahead(x, t) && t % 256 == 255 && t / 256 % 64 == 63 && t / 0x4000 % 64 == 63 && t / 0x10_0000 % 64 == 63
    ensures Settles(x, t)
  {
    var c := NextClock(t);
    NearPast(x, t);
    Nested(x);
    Nested(t);
    Nested(c);
    if c != 0 {
      assert c / 256 == t / 256 + 1 && c / 0x4000 == t / 0x4000 + 1 && c / 0x10_0000 == t / 0x10_0000 + 1;
      assert c / 0x400_0000 == t / 0x400_0000 + 1;
    }
    assert x / 0x400_0000 < 64 && c / 0x400_0000 < 64;
    assert MoveAt(c) == List(3, c / 0x400_0000 % 64);
  }

  /** A tick changes the place of no pending entry but those of the moved list, which go further
    down, into lists that were empty. */
  lemma TickMoves(e: Entry, n: nat)
    requires n < e.due <= n + MAX_DELAY
    ensures Clock(n + 1) == NextClock(Clock(n)) && Settles(Clock(e.due), Clock(n))
  {
    EntryAhead(e, n);
    var x, t := Clock(e.due), Clock(n);
    if t % 256 != 255 { NoCarry(x, t); }
    else if t / 256 % 64 != 63 { Carry0(x, t); }
    else if t / 0x4000 % 64 != 63 { Carry1(x, t); }
    else if t / 0x10_0000 % 64 != 63 { Carry2(x, t); }
    else { Carry3(x, t); }
  }

  // ---- The contents of the lists -----------------------------------------------------------

  function NodeOf(e: Entry): Node { Node(e.event, Clock(e.due)) }

  function NodesOf(es: seq<Entry>): (r: seq<Node>)
    ensures |r| == |es| && forall k :: 0 <= k < |es| ==> r[k] == NodeOf(es[k])
  {
    seq(|es|, k requires 0 <= k < |es| => NodeOf(es[k]))
  }

  /** The nodes whose place, according to `q`, is `b`. */
  function Select(nodes: seq<Node>, q: nat -> Bucket, b: Bucket): (r: seq<Node>)
    ensures |r| <= |nodes|
  {
    if nodes == [] then [] else (if q(nodes[0].expire) == b then [nodes[0]] else []) + Select(nodes[1..], q, b)
  }

  /** Places as `add_node` finds them when the clock shows `t`. */
  function PlacesAt(t: nat): nat -> Bucket { (x: nat) => Place(x, t) }

  /** The nodes of the pending entries whose place is `b`, oldest first. */
  function InBucket(es: seq<Entry>, n: nat, b: Bucket): (r: seq<Node>)
  {
    Select(NodesOf(es), PlacesAt(Clock(n)), b)
  }

  function EventsOf(nodes: seq<Node>): (r: seq<Event>)
    ensures |r| == |nodes|
  {
    if nodes == [] then [] else [nodes[0].event] + EventsOf(nodes[1..])
  }

  lemma {:induction false} SelectConcat(x: seq<Node>, y: seq<Node>, q: nat -> Bucket, b: Bucket)
    ensures Select(x + y, q, b) == Select(x, q, b) + Select(y, q, b)
  {
    if x == [] {
      assert x + y == y;
    } else {
      var z := x + y;
      assert z[1..] == x[1..] + y && z[0] == x[0];
      SelectConcat(x[1..], y, q, b);
      var first := if q(x[0].expire) == b then [x[0]] else [];
      assert Select(z, q, b) == first + Select(z[1..], q, b);
      assert Select(x, q, b) == first + Select(x[1..], q, b);
      assert first + (Select(x[1..], q, b) + Select(y, q, b)) == first + Select(x[1..], q, b) + Select(y, q, b);
    }
  }

  lemma {:induction false} SelectSame(nodes: seq<Node>, q: nat -> Bucket, q': nat -> Bucket, b: Bucket)
    requires forall k :: 0 <= k < |nodes| ==> q(nodes[k].expire) == q'(nodes[k].expire)
    ensures Select(nodes, q, b) == Select(nodes, q', b)
  {
    if nodes != [] { SelectSame(nodes[1..], q, q', b); }
  }

  /** Moving the list `src`, when its nodes go to lists below it and those are empty. */
  lemma SelectMovedOne(x: Node, rest: seq<Node>, q: nat -> Bucket, q': nat -> Bucket, src: Bucket, b: Bucket)
    requires q(x.expire) != src ==> q'(x.expire) == q(x.expire)
    ensures Select([x] + rest, q', b) == (if q'(x.expire) == b then [x] else []) + Select(rest, q', b)
    ensures Select([x] + rest, q, b) == (if q(x.expire) == b then [x] else []) + Select(rest, q, b)
    ensures Select(Select([x] + rest, q, src), q', b) ==
      (if q(x.expire) == src && q'(x.expire) == b then [x] else []) + Select(Select(rest, q, src), q', b)
  {
    assert ([x] + rest)[1..] == rest;
    var first := if q(x.expire) == src then [x] else [];
    SelectConcat(first, Select(rest, q, src), q', b);
    assert Select([], q', b) == [] && Select([x], q', b) == if q'(x.expire) == b then [x] else [];
  }

  lemma {:induction false} SelectMoved(nodes: seq<Node>,
                                       q: nat -> Bucket, q': nat -> Bucket, level: nat, src: Bucket, b: Bucket)
    requires !Below(src, level)
    requires forall k :: 0 <= k < |nodes| ==> var x := nodes[k].expire;
               && !Below(q(x), level)
               && if q(x) == src then Below(q'(x), level) else q'(x) == q(x)
    ensures Select(nodes, q', b)
            == (if b == src then [] else Select(nodes, q, b)) + Select(Select(nodes, q, src), q', b)
    ensures if Below(b, level) then Select(nodes, q, b) == [] else Select(Select(nodes, q, src), q', b) == []
  {
    if nodes != [] {
      SelectMoved(nodes[1..], q, q', level, src, b);
      SelectMovedOne(nodes[0], nodes[1..], q, q', src, b);
      assert nodes == [nodes[0]] + nodes[1..];
    }
  }

  ghost predicate Soon(es: seq<Entry>, n: nat) { forall k :: 0 <= k < |es| ==> n < es[k].due <= n + MAX_DELAY }

  /** When no list is moved, a tick leaves every list as it should be. */
  lemma QuietTick(es: seq<Entry>, n: nat, b: Bucket)
    requires Soon(es, n) && MoveAt(Clock(n + 1)) == Nothing
    ensures InBucket(es, n + 1, b) == InBucket(es, n, b)
  {
    var nodes, q, q' := NodesOf(es), PlacesAt(Clock(n)), PlacesAt(Clock(n + 1));
    forall k | 0 <= k < |nodes| ensures q(nodes[k].expire) == q'(nodes[k].expire) {
      TickMoves(es[k], n);
    }
    SelectSame(nodes, q, q', b);
  }

  /** Adding the nodes of the moved list again leaves every list as it should be after the tick. */
  lemma MovingTick(es: seq<Entry>, n: nat, b: Bucket, level: nat, idx: nat)
    requires Soon(es, n) && MoveAt(Clock(n + 1)) == List(level, idx)
    ensures var src := Level(level, idx);
            InBucket(es, n + 1, b)
            == (if b == src then [] else InBucket(es, n, b)) + Select(InBucket(es, n, src), PlacesAt(Clock(n + 1)), b)
  {
    var nodes, q, q' := NodesOf(es), PlacesAt(Clock(n)), PlacesAt(Clock(n + 1));
    forall k | 0 <= k < |nodes|
      ensures var x := nodes[k].expire;
              !Below(q(x), level) && if q(x) == Level(level, idx) then Below(q'(x), level) else q'(x) == q(x)
    {
      TickMoves(es[k], n);
    }
    SelectMoved(nodes, q, q', level, Level(level, idx), b);
  }

  /** The near list of the current tick holds exactly the entries that are due now. */
  lemma DueNow(e: Entry, n: nat)
    requires n <= e.due <= n + MAX_DELAY
    ensures PlaceOf(e, n) == Near(Clock(n) % 256) <==> e.due == n
  {
    if e.due != n { EntryAhead(e, n); }
  }

  /** The nodes whose place is not `b`. */
  function Others(nodes: seq<Node>, q: nat -> Bucket, b: Bucket): (r: seq<Node>)
  {
    if nodes == [] then [] else (if q(nodes[0].expire) == b then [] else [nodes[0]]) + Others(nodes[1..], q, b)
  }

  lemma {:induction false} SelectOthers(nodes: seq<Node>, q: nat -> Bucket, now: Bucket, b: Bucket)
    ensures Select(Others(nodes, q, now), q, b) == if b == now then [] else Select(nodes, q, b)
  {
    if nodes != [] {
      SelectOthers(nodes[1..], q, now, b);
      SelectConcat(if q(nodes[0].expire) == now then [] else [nodes[0]], Others(nodes[1..], q, now), q, b);
    }
  }

  ghost predicate DueExactly(e: Entry, x: Node, n: nat, q: nat -> Bucket, now: Bucket)
  {
    e.event == x.event && n <= e.due && (q(x.expire) == now <==> e.due == n)
  }

  lemma {:induction false} EventsDue(es: seq<Entry>, nodes: seq<Node>, n: nat, q: nat -> Bucket, now: Bucket)
    requires |nodes| == |es| && forall k :: 0 <= k < |es| ==> DueExactly(es[k], nodes[k], n, q, now)
    ensures EventsOf(Select(nodes, q, now)) == DueAt(es, n)
  {
    if es != [] {
      assert DueExactly(es[0], nodes[0], n, q, now);
      EventsDue(es[1..], nodes[1..], n, q, now);
      var rest := Select(nodes[1..], q, now);
      assert ([nodes[0]] + rest)[1..] == rest && [] + rest == rest;
    }
  }

  lemma NodesOfConcat(x: seq<Entry>, y: seq<Entry>)
    ensures NodesOf(x + y) == NodesOf(x) + NodesOf(y)
  {
  }

  lemma {:induction false} OthersAfter(es: seq<Entry>, n: nat, q: nat -> Bucket, now: Bucket)
    requires forall k :: 0 <= k < |es| ==> DueExactly(es[k], NodeOf(es[k]), n, q, now)
    ensures NodesOf(DueAfter(es, n)) == Others(NodesOf(es), q, now)
  {
    if es != [] {
      assert DueExactly(es[0], NodeOf(es[0]), n, q, now);
      OthersAfter(es[1..], n, q, now);
      assert NodesOf(es)[1..] == NodesOf(es[1..]);
      NodesOfConcat(if es[0].due > n then [es[0]] else [], DueAfter(es[1..], n));
    }
  }

  /** Dispatching that list dispatches the entries that are due, in order, and leaves the others. */
  lemma DispatchDue(es: seq<Entry>, n: nat, b: Bucket)
    requires forall k :: 0 <= k < |es| ==> n <= es[k].due <= n + MAX_DELAY
    ensures var now := Near(Clock(n) % 256);
            && EventsOf(InBucket(es, n, now)) == DueAt(es, n)
            && InBucket(DueAfter(es, n), n, b) == if b == now then [] else InBucket(es, n, b)
  {
    var q, now := PlacesAt(Clock(n)), Near(Clock(n) % 256);
    forall k | 0 <= k < |es| ensures DueExactly(es[k], NodeOf(es[k]), n, q, now) {
      DueNow(es[k], n);
    }
    EventsDue(es, NodesOf(es), n, q, now);
    OthersAfter(es, n, q, now);
    SelectOthers(NodesOf(es), q, now, b);
  }
}
