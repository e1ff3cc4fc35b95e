/** `struct timer` and the functions that change it. A bucket's linked list is a sequence. */
module SkynetTimer {
  import opened Basics
  import opened TimerSpec
  import opened TimerWheel

  /** The contents of all lists. */
  type Lists = imap<Bucket, seq<Node>>

  ghost predicate Complete(w: Lists) { forall b :: b in w <==> IsBucket(b) }

  /** The lists when every entry is where it belongs after `n` ticks, oldest first. */
  ghost function ListsOf(es: seq<Entry>, n: nat): (w: Lists)
    ensures Complete(w)
  {
    imap b | IsBucket(b) :: InBucket(es, n, b)
  }

  function Linked(w: Lists, b: Bucket, node: Node): (r: Lists)
    requires b in w
  {
    w[b := w[b] + [node]]
  }

  /** The nodes are added one after the other when the clock shows `t`. */
  ghost function Added(w: Lists, nodes: seq<Node>, t: nat): (r: Lists)
    requires Complete(w)
    ensures Complete(r)
  {
    if nodes == [] then w else
    var last := nodes[|nodes| - 1];
    Linked(Added(w, nodes[..|nodes| - 1], t), Place(last.expire, t), last)
  }

  ghost predicate AllLegal(ops: seq<Op>) { forall k :: 0 <= k < |ops| ==> Legal(ops[k]) }

  /** The operations were legal, led to this agenda and dispatched this. */
  ghost predicate Recorded(ops: seq<Op>, a: Agenda, log: seq<seq<Event>>)
  {
    forall n :: Look(n) ==> AllLegal(ops) && a == After(ops) && Consistent(a) && log == Log(ops)
  }

  /** `timer_shift` on the lists, when the clock has become `ct`. */
  ghost function Shifted(w: Lists, ct: nat): (r: Lists)
    requires Complete(w) && ct < WORD
  {
    match MoveAt(ct)
    case Nothing => w
    case List(level, idx) => Added(w[Level(level, idx) := []], w[Level(level, idx)], ct)
  }

  /** Every list holds the pending entries that belong there, in the order they were added. */
  ghost predicate InOrder(w: Lists, a: Agenda)
  {
    forall n :: Look(n) ==> w == ListsOf(a.pending, a.now)
  }

  /** `w'` is `w` with the node added where it belongs when the clock shows `t`. */
  ghost predicate IsAdded(w: Lists, node: Node, t: nat, w': Lists)
    requires Complete(w)
  {
    forall n :: Look(n) ==> w' == Linked(w, Place(node.expire, t), node)
  }

  ghost predicate IsShifted(w: Lists, ct: nat, w': Lists)
    requires Complete(w) && ct < WORD
  {
    forall n :: Look(n) ==> w' == Shifted(w, ct)
  }

  ghost predicate Words(nodes: seq<Node>) { forall k :: 0 <= k < |nodes| ==> nodes[k].expire < WORD }

  ghost predicate SmallAt(w: Lists, b: Bucket) { b in w ==> Words(w[b]) }

  /** All expiry times are 32-bit words. */
  ghost predicate Small(w: Lists) { forall b :: SmallAt(w, b) }

  class Timer {
    const near: array<seq<Node>>
    const levels: array2<seq<Node>>
    var time: nat
    var current: nat
    var currentPoint: nat
    /** What was done to the timer since it was created. */
    ghost var ops: seq<Op>

    /** What is still to come, and what each tick dispatched. */
    ghost var agenda: Agenda
    ghost var log: seq<seq<Event>>
    /** What the lists hold. */
    ghost var wheel: Lists

    ghost predicate Shape()
    {
      near.Length == TIME_NEAR && levels.Length0 == 4 && levels.Length1 == TIME_LEVEL
    }

    ghost predicate ShownAt(b: Bucket)
      requires Shape()
      reads `wheel, near, levels
    {
      if IsBucket(b)
      then b in wheel && wheel[b] == (match b case Near(idx) => near[idx] case Level(i, idx) => levels[i, idx])
      else b !in wheel
    }

    ghost predicate Shown()
      reads `wheel, near, levels
    {
      Shape() && Complete(wheel) && forall b :: ShownAt(b)
    }

    ghost predicate Valid()
      reads this, near, levels
    {
      && Recorded(ops, agenda, log)
      && Shown()
      && time == Clock(agenda.now)
      && InOrder(wheel, agenda)
    }

    /** `timer_create_timer`. */
    constructor (start: nat, point: nat)
      ensures Valid() && ops == [] && current == start && currentPoint == point && fresh(near) && fresh(levels)
    {
      near := new seq<Node>[TIME_NEAR](_ => []);
      levels := new seq<Node>[4, TIME_LEVEL]((_, _) => []);
      time := 0;
      current := start;
      currentPoint := point;
      ops := [];
      agenda := Agenda(0, []);
      log := [];
      wheel := ListsOf([], 0);
    }

    /** `link`. */
    method Link(b: Bucket, node: Node)
      requires Shown() && IsBucket(b)
      modifies `wheel, near, levels
      ensures Shown() && wheel == Linked(old(wheel), b, node)
    {
      assert ShownAt(b);
      match b {
        case Near(idx) => near[idx] := near[idx] + [node];
        case Level(i, idx) => levels[i, idx] := levels[i, idx] + [node];
      }
      wheel := Linked(wheel, b, node);
      forall b' ensures ShownAt(b') {
        assert old(ShownAt(b'));
      }
    }

    /** `link_clear`. */
    method LinkClear(b: Bucket) returns (nodes: seq<Node>)
      requires Shown() && IsBucket(b)
      modifies `wheel, near, levels
      ensures Shown() && nodes == old(wheel)[b] && wheel == old(wheel)[b := []]
    {
      assert ShownAt(b);
      match b {
        case Near(idx) => nodes := near[idx]; near[idx] := [];
        case Level(i, idx) => nodes := levels[i, idx]; levels[i, idx] := [];
      }
      wheel := wheel[b := []];
      forall b' ensures ShownAt(b') {
        assert old(ShownAt(b'));
      }
    }

    /** `add_node`. */
    method AddNode(node: Node)
      requires Shown() && time < WORD && node.expire < WORD
      modifies `wheel, near, levels
      ensures Shown() && IsAdded(old(wheel), node, time, wheel)
    {
      var x := node.expire;
      if x / TIME_NEAR == time / TIME_NEAR {
        Link(Near(x % TIME_NEAR), node);
      } else {
        var i := 0;
        var mask := TIME_NEAR * TIME_LEVEL;
        while i < 3
          invariant 0 <= i <= 3 && (i < 3 ==> mask == Block(i))
          invariant forall j :: 0 <= j < i ==> x / Block(j) != time / Block(j)
        {
          assert x / mask == x / Block(i) && time / mask == time / Block(i);
          if x / mask == time / mask {
            break;
          }
          mask := mask * TIME_LEVEL;
          i := i + 1;
        }
        var idx := Digit(x, i);
        assert Place(x, time) == Level(i, idx);
        Link(Level(i, idx), node);
      }
    }

    /** `timer_add`. */
    method TimerAdd(event: Event, delay: nat)
      requires Valid() && 1 <= delay <= MAX_DELAY
      modifies `ops, `agenda, `log, `wheel, near, levels
      ensures Valid() && ops == old(ops) + [Add(event, delay)] && log == old(log)
    {
      var node := Node(event, (delay + time) % WORD);
      AddNode(node);
      AddOne(ops, agenda, log, old(wheel), wheel, event, delay, node);
      ops := ops + [Add(event, delay)];
      agenda := Schedule(agenda, event, delay);
    }

    /** `move_list`. */
    method MoveList(level: nat, idx: nat)
      requires Shown() && time < WORD && IsBucket(Level(level, idx)) && Small(wheel)
      modifies `wheel, near, levels
      ensures var src := Level(level, idx);
              Shown() && wheel == Added(old(wheel)[src := []], old(wheel)[src], time)
    {
      ghost var cleared: Lists := wheel[Level(level, idx) := []];
      assert SmallAt(wheel, Level(level, idx));
      var moved := LinkClear(Level(level, idx));
      var k := 0;
      while k < |moved|
        invariant 0 <= k <= |moved| && Shown() && wheel == Added(cleared, moved[..k], time)
      {
        ghost var before := wheel;
        AddNode(moved[k]);
        AddedNext(cleared, moved, k, time, before, wheel);
        k := k + 1;
      }
      assert moved[..k] == moved;
    }

    /** `timer_shift`: the clock goes on by one, and the list whose time has come is moved. */
    method TimerShift()
      requires Shown() && time < WORD && Small(wheel)
      modifies `time, `wheel, near, levels
      ensures Shown() && time == NextClock(old(time)) && IsShifted(old(wheel), time, wheel)
    {
      time := (time + 1) % WORD;
      var ct := time;
      if ct == 0 {
        MoveList(3, 0);
      } else {
        var mask: nat := TIME_NEAR;
        var t: nat := ct / TIME_NEAR;
        var i: nat := 0;
        while ct % mask == 0
          invariant time == ct && Scanning(ct, i, mask, t) && Shown() && wheel == old(wheel)
          decreases 4 - i
        {
          NextDigit(ct, i);
          var idx := t % TIME_LEVEL;
          if idx != 0 {
            MoveList(i, idx);
            return;
          }
          mask := mask * TIME_LEVEL;
          t := t / TIME_LEVEL;
          i := i + 1;
        }
        assert MoveAt(ct) == Nothing;
      }
    }

    /** What other threads add while the lock is free. */
    method OtherAdds(others: seq<Op>)
      requires Shown() && time < WORD && Adds(others)
      modifies `wheel, near, levels
      ensures Shown() && wheel == Added(old(wheel), NodesAt(others, time), time)
    {
      ghost var nodes, before := NodesAt(others, time), wheel;
      var k := 0;
      while k < |others|
        invariant 0 <= k <= |others| && Shown() && wheel == Added(before, nodes[..k], time)
      {
        ghost var w := wheel;
        AddNode(NodeAt(others[k], time));
        AddedNext(before, nodes, k, time, w, wheel);
        k := k + 1;
      }
      assert nodes[..k] == nodes;
    }

    /** `timer_execute`: dispatch the near list of the current tick. The lock is free while that
      goes on, and other threads may add events then. */
    method TimerExecute(others: seq<Op>) returns (out: seq<Event>)
      requires Shown() && time < WORD && Adds(others)
      modifies `wheel, near, levels
      ensures Shown() && out == EventsOf(old(wheel)[Near(time % TIME_NEAR)])
      ensures wheel == Executed(old(wheel), time, others)
    {
      var idx := time % TIME_NEAR;
      ghost var now, before := Near(idx), wheel;
      out := [];
      assert ShownAt(now);
      if near[idx] == [] { assert before[now := []] == before; }
      ghost var done := false;
      while near[idx] != []
        invariant Shown() && near[idx] == wheel[now]
        invariant !done ==> out == [] && wheel == before
        invariant done ==> near[idx] == [] && out == EventsOf(before[now]) && wheel == Executed(before, time, others)
        decreases |near[idx]|
      {
        var nodes := LinkClear(Near(idx));
        out := out + EventsOf(nodes);
        OtherAdds(others);
        NowStays(before[now := []], others, time);
        assert ShownAt(now);
        done := true;
      }
    }

    /** The body of `timer_update`, on a wheel that has nothing left for the current tick. */
    method Turn(others: seq<Op>) returns (out: seq<Event>, ghost shifted: Lists)
      requires Shown() && time < WORD && Small(wheel) && Adds(others)
      requires EventsOf(wheel[Near(time % TIME_NEAR)]) == [] && Executed(wheel, time, []) == wheel
      modifies `time, `wheel, near, levels
      ensures Shown() && time == NextClock(old(time)) && Complete(shifted) && IsShifted(old(wheel), time, shifted)
      ensures out == EventsOf(shifted[Near(time % TIME_NEAR)]) && wheel == Executed(shifted, time, others)
    {
      var rare := TimerExecute([]);
      TimerShift();
      shifted := wheel;
      var due := TimerExecute(others);
      out := rare + due;
      assert out == due;
    }

    /** `timer_update`: one tick. It dispatches the events that were scheduled for it, in the order
      in which they were scheduled, and nothing else. What other threads add while it dispatches
      counts as added after it. */
    method TimerUpdate(others: seq<Op>) returns (out: seq<Event>)
      requires Valid() && Adds(others)
      modifies `time, `ops, `agenda, `log, `wheel, near, levels
      ensures Valid() && ops == old(ops) + TickOps(out, others) && agenda.now == old(agenda.now) + 1
      ensures out == DueAt(Scheduled(ops), agenda.now) && log == old(log) + [out]
    {
      IdleExecute(agenda, ops, log, wheel);
      ghost var w, shifted := wheel, wheel;
      out, shifted := Turn(others);
      agenda := WholeTick(ops, agenda, log, w, shifted, wheel, time, others, out);
      ops := ops + TickOps(out, others);
      log := log + [out];
    }

    /** `skynet_timeout`: a message at once, or an event later. */
    method Timeout(handle: nat, delay: int, session: int) returns (pushed: seq<Event>)
      requires Valid() && delay <= MAX_DELAY
      modifies `ops, `agenda, `log, `wheel, near, levels
      ensures Valid()
      ensures log == old(log)
      ensures if delay <= 0 then pushed == [Event(handle, session)] && ops == old(ops)
              else pushed == [] && ops == old(ops) + [Add(Event(handle, session), delay)]
    {
      if delay <= 0 {
        pushed := [Event(handle, session)];
      } else {
        pushed := [];
        TimerAdd(Event(handle, session), delay);
      }
    }

    /** `skynet_updatetime`: one tick for every unit of time that went by. `others(i)` is what other
      threads add while tick `i` dispatches, `after(i)` what they add behind it. */
    method UpdateTime(cp: nat, others: nat -> seq<Op>, after: nat -> seq<Op>) returns (outs: seq<seq<Event>>)
      requires Valid() && forall i :: Adds(others(i)) && Adds(after(i))
      modifies this, near, levels
      ensures Valid() && currentPoint == cp
      ensures var diff := if cp < old(currentPoint) then 0 else (cp - old(currentPoint)) % WORD;
              current == old(current) + diff && |outs| == diff && ops == old(ops) + TicksOps(outs, others, after)
      ensures log == old(log) + outs
    {
      outs := [];
      if cp < currentPoint {
        currentPoint := cp;
        assert ops + [] == ops;
      } else if cp != currentPoint {
        var diff := (cp - currentPoint) % WORD;
        currentPoint := cp;
        current := current + diff;
        outs := RunTicks(diff, others, after);
      } else {
        assert ops + [] == ops;
      }
    }

    /** The loop of `skynet_updatetime`. */
    method RunTicks(diff: nat, others: nat -> seq<Op>, after: nat -> seq<Op>) returns (outs: seq<seq<Event>>)
      requires Valid() && forall i :: Adds(others(i)) && Adds(after(i))
      modifies `time, `ops, `agenda, `log, `wheel, near, levels
      ensures Valid() && |outs| == diff && ops == old(ops) + TicksOps(outs, others, after) && log == old(log) + outs
    {
      outs := [];
      assert ops + [] == ops && log + [] == log;
      while |outs| < diff
        invariant |outs| <= diff && Valid() && ops == old(ops) + TicksOps(outs, others, after)
        invariant log == old(log) + outs
      {
        var i := |outs|;
        var out := TimerUpdate(others(i));
        AddAll(after(i));
        TicksNext(old(ops), outs, out, others, after);
        outs := outs + [out];
      }
    }

    /** Other threads add events one by one. */
    method AddAll(adds: seq<Op>)
      requires Valid() && Adds(adds)
      modifies `ops, `agenda, `log, `wheel, near, levels
      ensures Valid() && ops == old(ops) + adds && log == old(log)
    {
      var k := 0;
      while k < |adds|
        invariant 0 <= k <= |adds| && Valid() && ops == old(ops) + adds[..k] && log == old(log)
      {
        TimerAdd(adds[k].event, adds[k].delay);
        assert adds[..k + 1] == adds[..k] + [adds[k]];
        k := k + 1;
      }
      assert adds[..k] == adds;
    }
  }

  // ---- Ticks and what is added meanwhile -----------------------------------------------------

  /** The operations are adds. */
  ghost predicate Adds(ops: seq<Op>) { forall k :: 0 <= k < |ops| ==> ops[k].Add? && Legal(ops[k]) }

  function NodeAt(op: Op, t: nat): Node
    requires op.Add?
  {
    Node(op.event, (op.delay + t) % WORD)
  }

  ghost function NodesAt(ops: seq<Op>, t: nat): (r: seq<Node>)
    requires Adds(ops)
    ensures |r| == |ops| && forall k :: 0 <= k < |r| ==> r[k] == NodeAt(ops[k], t)
  {
    seq(|ops|, k requires 0 <= k < |ops| => NodeAt(ops[k], t))
  }

  /** The lists after `timer_execute`. */
  ghost function Executed(w: Lists, t: nat, others: seq<Op>): Lists
    requires Complete(w) && Adds(others)
  {
    var now := Near(t % TIME_NEAR);
    if w[now] == [] then w else Added(w[now := []], NodesAt(others, t), t)
  }

  /** A tick, and what was added while it dispatched. */
  function TickOps(out: seq<Event>, others: seq<Op>): seq<Op> { [Tick] + if out == [] then [] else others }

  function TicksOps(outs: seq<seq<Event>>, others: nat -> seq<Op>, after: nat -> seq<Op>): seq<Op>
  {
    if outs == [] then [] else
      var n := |outs| - 1;
      TicksOps(outs[..n], others, after) + TickOps(outs[n], others(n)) + after(n)
  }

  /** What is added now is not due now. */
  lemma {:induction false} NotNow(ops: seq<Op>, nodes: seq<Node>, t: nat)
    requires Adds(ops) && t < WORD && |nodes| == |ops| && forall k :: 0 <= k < |nodes| ==> nodes[k] == NodeAt(ops[k], t)
    ensures Select(nodes, PlacesAt(t), Near(t % TIME_NEAR)) == []
  {
    if nodes != [] {
      NotNow(ops[1..], nodes[1..], t);
      assert Legal(ops[0]);
      LaterPlace(ops[0].delay, t);
    }
  }

  lemma LaterPlace(delay: nat, t: nat)
    requires t < WORD && 1 <= delay <= MAX_DELAY
    ensures Place((delay + t) % WORD, t) != Near(t % TIME_NEAR)
  {
    var x := (delay + t) % WORD;
    assert x != t;
    assert x == TIME_NEAR * (x / TIME_NEAR) + x % TIME_NEAR && t == TIME_NEAR * (t / TIME_NEAR) + t % TIME_NEAR;
  }

  lemma NowStays(w: Lists, others: seq<Op>, t: nat)
    requires Complete(w) && Adds(others) && t < WORD
    ensures var now := Near(t % TIME_NEAR); Added(w, NodesAt(others, t), t)[now] == w[now]
  {
    AddedAt(w, NodesAt(others, t), t, Near(t % TIME_NEAR));
    NotNow(others, NodesAt(others, t), t);
  }

  /** Before the clock goes on there is nothing to execute. */
  lemma IdleExecute(a: Agenda, ops: seq<Op>, log: seq<seq<Event>>, w: Lists)
    requires Recorded(ops, a, log) && InOrder(w, a) && Complete(w)
    ensures EventsOf(w[Near(Clock(a.now) % TIME_NEAR)]) == [] && Executed(w, Clock(a.now), []) == w && Small(w)
  {
    IdleTick(a, ops, log, w);
  }

  function ScheduleAll(a: Agenda, ops: seq<Op>): (r: Agenda)
    requires forall k :: 0 <= k < |ops| ==> ops[k].Add?
    ensures r.now == a.now
  {
    if ops == [] then a else
      var n := |ops| - 1;
      Schedule(ScheduleAll(a, ops[..n]), ops[n].event, ops[n].delay)
  }

  /** Adding the nodes is scheduling the events. */
  lemma {:induction false} AddMany(ops: seq<Op>, a: Agenda, log: seq<seq<Event>>, w: Lists, adds: seq<Op>)
    requires Recorded(ops, a, log) && InOrder(w, a) && Complete(w) && Adds(adds)
    ensures Recorded(ops + adds, ScheduleAll(a, adds), log)
    ensures InOrder(Added(w, NodesAt(adds, Clock(a.now)), Clock(a.now)), ScheduleAll(a, adds))
    decreases |adds|
  {
    if adds == [] {
      assert ops + adds == ops;
    } else {
      var n := |adds| - 1;
      var init, last, t := adds[..n], adds[n], Clock(a.now);
      AddMany(ops, a, log, w, init);
      var nodes := NodesAt(adds, t);
      assert nodes[..n] == NodesAt(init, t) && ops + adds == (ops + init) + [last];
      var w1 := Added(w, NodesAt(init, t), t);
      assert Legal(last) && last == Add(last.event, last.delay);
      AddOne(ops + init, ScheduleAll(a, init), log, w1, Added(w, nodes, t), last.event, last.delay, NodeAt(last, t));
    }
  }

  /** A tick of the wheel is a tick of the agenda. */
  lemma WholeTick(ops: seq<Op>, a: Agenda, log: seq<seq<Event>>, w: Lists, w1: Lists, w2: Lists, ct: nat,
                  others: seq<Op>, out: seq<Event>) returns (b: Agenda)
    requires Recorded(ops, a, log) && InOrder(w, a) && Complete(w) && Complete(w1) && Adds(others) && ct < WORD
    requires ct == NextClock(Clock(a.now)) && IsShifted(w, ct, w1)
    requires w2 == Executed(w1, ct, others) && out == EventsOf(w1[Near(ct % TIME_NEAR)])
    ensures b.now == a.now + 1 && ct == Clock(b.now) && InOrder(w2, b)
    ensures Recorded(ops + TickOps(out, others), b, log + [out])
    ensures out == DueAt(Scheduled(ops + TickOps(out, others)), b.now)
  {
    BusyTick(a, ops, log, w, w1, ct);
    OneTick(ops, a, log, out);
    b := Advance(a);
    var now := Near(ct % TIME_NEAR);
    if out != [] {
      AddMany(ops + [Tick], b, log + [out], w1[now := []], others);
      b := ScheduleAll(b, others);
      assert (ops + [Tick]) + others == ops + TickOps(out, others);
    } else {
      assert w1[now := []] == w1;
      assert ops + [Tick] == ops + TickOps(out, others);
    }
    LastTick(ops + TickOps(out, others), b, log + [out], out);
  }

  lemma JoinOps(a: seq<Op>, b: seq<Op>, c: seq<Op>, d: seq<Op>)
    ensures ((a + b) + c) + d == a + ((b + c) + d)
  {
  }

  lemma TicksNext(ops: seq<Op>, outs: seq<seq<Event>>, out: seq<Event>, others: nat -> seq<Op>, after: nat -> seq<Op>)
    ensures (ops + TicksOps(outs, others, after)) + TickOps(out, others(|outs|)) + after(|outs|)
      == ops + TicksOps(outs + [out], others, after)
  {
    assert (outs + [out])[..|outs|] == outs;
    JoinOps(ops, TicksOps(outs, others, after), TickOps(out, others(|outs|)), after(|outs|));
  }

  lemma LastTick(ops: seq<Op>, a: Agenda, log: seq<seq<Event>>, out: seq<Event>)
    requires Recorded(ops, a, log) && a.now > 0 && |log| > 0 && log[|log| - 1] == out
    ensures out == DueAt(Scheduled(ops), a.now)
  {
    assert Look(0);
    RunsOnTime(ops, a.now);
  }

  // ---- What the operations do to the lists -------------------------------------------------

  lemma PendingSoon(a: Agenda)
    requires Consistent(a)
    ensures Soon(a.pending, a.now)
  {
    forall k | 0 <= k < |a.pending| ensures a.now < a.pending[k].due <= a.now + MAX_DELAY {
      assert InTime(a, a.pending[k]);
    }
  }

  /** Scheduling an event is adding its node. */
  lemma AddOne(ops: seq<Op>, a: Agenda, log: seq<seq<Event>>, w: Lists, w': Lists, event: Event, delay: nat, node: Node)
    requires Recorded(ops, a, log) && InOrder(w, a) && Complete(w) && 1 <= delay <= MAX_DELAY
    requires node == Node(event, (delay + Clock(a.now)) % WORD) && IsAdded(w, node, Clock(a.now), w')
    ensures Recorded(ops + [Add(event, delay)], Schedule(a, event, delay), log)
    ensures InOrder(w', Schedule(a, event, delay))
  {
    RecordOne(ops, a, log, Add(event, delay));
    ListsOne(a, w, w', event, delay, node);
  }

  lemma ListsOne(a: Agenda, w: Lists, w': Lists, event: Event, delay: nat, node: Node)
    requires InOrder(w, a) && Complete(w) && 1 <= delay <= MAX_DELAY
    requires node == Node(event, (delay + Clock(a.now)) % WORD) && IsAdded(w, node, Clock(a.now), w')
    ensures InOrder(w', Schedule(a, event, delay))
  {
    assert Look(0);
    var e := Entry(event, a.now + delay);
    ClockPlus(a.now, delay);
    assert NodeOf(e) == node;
    ListsAdd(a.pending, e, a.now);
  }

  lemma RecordOne(ops: seq<Op>, a: Agenda, log: seq<seq<Event>>, op: Op)
    requires Recorded(ops, a, log) && op.Add? && Legal(op)
    ensures Recorded(ops + [op], Schedule(a, op.event, op.delay), log)
  {
    assert Look(0);
    var ops' := ops + [op];
    assert ops'[..|ops|] == ops;
    PerformConsistent(a, op);
  }

  lemma ListsAdd(es: seq<Entry>, e: Entry, n: nat)
    ensures ListsOf(es + [e], n) == Linked(ListsOf(es, n), PlaceOf(e, n), NodeOf(e))
  {
    var q, node := PlacesAt(Clock(n)), NodeOf(e);
    assert NodesOf(es + [e]) == NodesOf(es) + [node];
    forall b | IsBucket(b) ensures InBucket(es + [e], n, b) == Linked(ListsOf(es, n), PlaceOf(e, n), node)[b] {
      SelectConcat(NodesOf(es), [node], q, b);
      assert Select([], q, b) == [];
    }
  }

  lemma AddedNext(w: Lists, nodes: seq<Node>, k: nat, t: nat, w1: Lists, w2: Lists)
    requires Complete(w) && k < |nodes| && w1 == Added(w, nodes[..k], t) && IsAdded(w1, nodes[k], t, w2)
    ensures w2 == Added(w, nodes[..k + 1], t)
  {
    assert Look(0);
    assert nodes[..k + 1][..k] == nodes[..k];
  }

  lemma {:induction false} AddedAt(w: Lists, nodes: seq<Node>, t: nat, b: Bucket)
    requires Complete(w) && IsBucket(b)
    ensures Added(w, nodes, t)[b] == w[b] + Select(nodes, PlacesAt(t), b)
  {
    if nodes != [] {
      var init, last := nodes[..|nodes| - 1], nodes[|nodes| - 1];
      AddedAt(w, init, t, b);
      SelectConcat(init, [last], PlacesAt(t), b);
      assert nodes == init + [last];
      assert Select([], PlacesAt(t), b) == [];
    }
  }

  /** What `timer_shift` moves puts every list in order for the next tick. */
  lemma ListsTick(es: seq<Entry>, n: nat)
    requires Soon(es, n)
    ensures Small(ListsOf(es, n))
    ensures ListsOf(es, n + 1) == Shifted(ListsOf(es, n), Clock(n + 1))
  {
    var m := MoveAt(Clock(n + 1));
    forall b ensures SmallAt(ListsOf(es, n), b) {
      if IsBucket(b) { SelectWords(NodesOf(es), PlacesAt(Clock(n)), b); }
    }
    if m == Nothing {
      forall b | IsBucket(b) ensures InBucket(es, n + 1, b) == InBucket(es, n, b) { QuietTick(es, n, b); }
    } else {
      var src := Level(m.level, m.idx);
      var w := ListsOf(es, n);
      forall b | IsBucket(b) ensures InBucket(es, n + 1, b) == Added(w[src := []], w[src], Clock(n + 1))[b] {
        MovingTick(es, n, b, m.level, m.idx);
        AddedAt(w[src := []], w[src], Clock(n + 1), b);
      }
    }
  }

  lemma {:induction false} SelectWords(nodes: seq<Node>, q: nat -> Bucket, b: Bucket)
    requires Words(nodes)
    ensures Words(Select(nodes, q, b))
  {
    if nodes != [] { SelectWords(nodes[1..], q, b); }
  }

  /** Clearing the near list of the current tick leaves the lists of what is due later. */
  lemma ListsDispatch(es: seq<Entry>, n: nat)
    requires forall k :: 0 <= k < |es| ==> n <= es[k].due <= n + MAX_DELAY
    ensures var now := Near(Clock(n) % TIME_NEAR);
            EventsOf(ListsOf(es, n)[now]) == DueAt(es, n) && ListsOf(DueAfter(es, n), n) == ListsOf(es, n)[now := []]
  {
    var now := Near(Clock(n) % TIME_NEAR);
    DispatchDue(es, n, now);
    forall b | IsBucket(b) ensures InBucket(DueAfter(es, n), n, b) == ListsOf(es, n)[now := []][b] {
      DispatchDue(es, n, b);
    }
  }

  lemma {:induction false} NoneDue(es: seq<Entry>, n: nat)
    requires Soon(es, n)
    ensures DueAt(es, n) == [] && DueAfter(es, n) == es
  {
    if es != [] { NoneDue(es[1..], n); }
  }

  /** Before the clock goes on nothing is due. */
  lemma IdleTick(a: Agenda, ops: seq<Op>, log: seq<seq<Event>>, w: Lists)
    requires Recorded(ops, a, log) && InOrder(w, a) && Complete(w)
    ensures var now := Near(Clock(a.now) % TIME_NEAR); EventsOf(w[now]) == [] && w[now := []] == w
    ensures Small(w)
  {
    assert Look(0);
    PendingSoon(a);
    NoneDue(a.pending, a.now);
    ListsDispatch(a.pending, a.now);
    ListsTick(a.pending, a.now);
  }

  lemma {:induction false} ClockNext(n: nat)
    ensures Clock(n + 1) == NextClock(Clock(n))
    decreases n
  {
    if n >= WORD { ClockNext(n - WORD); }
  }

  /** After it went on, clearing the near list leaves what is due later. */
  lemma BusyTick(a: Agenda, ops: seq<Op>, log: seq<seq<Event>>, w: Lists, w': Lists, ct: nat)
    requires Recorded(ops, a, log) && InOrder(w, a) && Complete(w) && Complete(w')
    requires ct == NextClock(Clock(a.now)) && ct < WORD && IsShifted(w, ct, w')
    ensures ct == Clock(Advance(a).now)
    ensures var now := Near(ct % TIME_NEAR);
            EventsOf(w'[now]) == DueAt(a.pending, a.now + 1) && InOrder(w'[now := []], Advance(a))
  {
    assert Look(0);
    PendingSoon(a);
    ClockNext(a.now);
    ListsTick(a.pending, a.now);
    ListsDispatch(a.pending, a.now + 1);
  }

  lemma OneTick(ops: seq<Op>, a: Agenda, log: seq<seq<Event>>, due: seq<Event>)
    requires Recorded(ops, a, log) && due == DueAt(a.pending, a.now + 1)
    ensures var ops' := ops + [Tick];
            Recorded(ops', Advance(a), log + [due]) && DueAt(Scheduled(ops'), Advance(a).now) == due
  {
    assert Look(0);
    var ops' := ops + [Tick];
    assert ops'[..|ops|] == ops;
    PerformConsistent(a, Tick);
    RunsOnTime(ops', a.now + 1);
  }

  // ---- How `timer_shift` looks for the list ------------------------------------------------

  /** The number of ticks that one index of level `i` stands for. */
  function Unit(i: nat): (n: nat)
    ensures n > 0
  {
    if i == 0 then TIME_NEAR else Block(i - 1)
  }

  predicate LowDigitsZero(ct: nat, i: nat) { i > 0 ==> ct % 256 == 0 && forall j: nat :: j < i ==> Digit(ct, j) == 0 }

  /** Where the loop is: all lower indices of the clock are 0. */
  predicate Scanning(ct: nat, i: nat, mask: nat, t: nat)
  {
    i < 4 && mask == Unit(i) && t == ct / mask && LowDigitsZero(ct, i) && (i > 0 ==> ct % mask == 0)
  }

  /** How the loop goes from one level to the next. */
  lemma NextDigit(ct: nat, i: nat)
    requires 0 < ct < WORD && i < 4 && ct % Unit(i) == 0 && LowDigitsZero(ct, i)
    ensures ct / Unit(i) % 64 != 0 ==> MoveAt(ct) == List(i, ct / Unit(i) % 64)
    ensures ct / Unit(i) % 64 == 0 ==> Scanning(ct, i + 1, Unit(i) * TIME_LEVEL, ct / Unit(i) / 64)
  {
    assert i == 0 || i == 1 || i == 2 || i == 3;
    assert i > 0 ==> Digit(ct, 0) == 0;
    assert i > 1 ==> Digit(ct, 1) == 0;
    assert i > 2 ==> Digit(ct, 2) == 0;
    Nested(ct);
  }
}
