/** The hierarchical timing wheel of `skynet_timer.c`: what it should do, where its nodes belong,
  and how a clock tick changes that. */
module TimerSpec {

  /** The clock and the expiry times are 32-bit words. */
  const WORD: nat := 0x1_0000_0000

  /** `skynet_timeout` passes a positive `int` as the delay. */
  const MAX_DELAY: nat := 0x7fff_ffff

  const TIME_NEAR := 256

  const TIME_LEVEL := 64

  datatype Event = Event(handle: nat, session: int)

  /** `struct timer_node`: what the wheel stores. */
  datatype Node = Node(event: Event, expire: nat)

  // ---- What a timer is for -----------------------------------------------------------------

  /** An event and the number of the tick it is due at, counted from the creation of the timer. */
  datatype Entry = Entry(event: Event, due: nat)

  /** The simple timer: a tick counter and the events still to come, oldest first. */
  datatype Agenda = Agenda(now: nat, pending: seq<Entry>)

  predicate InTime(a: Agenda, e: Entry) { a.now < e.due <= a.now + MAX_DELAY }

  ghost predicate Consistent(a: Agenda) { forall k :: 0 <= k < |a.pending| ==> InTime(a, a.pending[k]) }

  /** The events of the entries that are due at `n`, in order. */
  function DueAt(es: seq<Entry>, n: nat): (r: seq<Event>)
  {
    if es == [] then [] else (if es[0].due == n then [es[0].event] else []) + DueAt(es[1..], n)
  }

  /** The entries that are due after `n`, in order. */
  function DueAfter(es: seq<Entry>, n: nat): (r: seq<Entry>)
  {
    if es == [] then [] else (if es[0].due > n then [es[0]] else []) + DueAfter(es[1..], n)
  }

  function Schedule(a: Agenda, event: Event, delay: nat): Agenda
  {
    a.(pending := a.pending + [Entry(event, a.now + delay)])
  }

  function Advance(a: Agenda): Agenda { Agenda(a.now + 1, DueAfter(a.pending, a.now + 1)) }

  // ---- Whole runs of the simple timer ------------------------------------------------------

  datatype Op = Add(event: Event, delay: nat) | Tick

  predicate Legal(op: Op) { op.Add? ==> 1 <= op.delay <= MAX_DELAY }

  function Perform(a: Agenda, op: Op): Agenda
  {
    match op
    case Add(event, delay) => Schedule(a, event, delay)
    case Tick => Advance(a)
  }

  function After(ops: seq<Op>): (a: Agenda)
  {
    if ops == [] then Agenda(0, []) else Perform(After(ops[..|ops| - 1]), ops[|ops| - 1])
  }

  /** Everything that was ever scheduled, oldest first. */
  function Scheduled(ops: seq<Op>): (es: seq<Entry>)
  {
    if ops == [] then [] else
    var init, last := ops[..|ops| - 1], ops[|ops| - 1];
    Scheduled(init) + if last.Add? then [Entry(last.event, After(init).now + last.delay)] else []
  }

  /** What each tick dispatched. */
  function Log(ops: seq<Op>): (log: seq<seq<Event>>)
    ensures |log| == After(ops).now
  {
    if ops == [] then [] else
    var init, last := ops[..|ops| - 1], ops[|ops| - 1];
    Log(init) + if last.Tick? then [DueAt(After(init).pending, After(init).now + 1)] else []
  }

  lemma {:induction false} DueAtConcat(x: seq<Entry>, y: seq<Entry>, n: nat)
    ensures DueAt(x + y, n) == DueAt(x, n) + DueAt(y, n)
  {
    if x == [] {
      assert x + y == y;
    } else {
      assert (x + y)[1..] == x[1..] + y;
      DueAtConcat(x[1..], y, n);
    }
  }

  lemma {:induction false} DueAfterConcat(x: seq<Entry>, y: seq<Entry>, n: nat)
    ensures DueAfter(x + y, n) == DueAfter(x, n) + DueAfter(y, n)
  {
    if x == [] {
      assert x + y == y;
    } else {
      assert (x + y)[1..] == x[1..] + y;
      DueAfterConcat(x[1..], y, n);
    }
  }

  lemma {:induction false} DueAfterTwice(es: seq<Entry>, n: nat, m: nat)
    requires n <= m
    ensures DueAfter(DueAfter(es, n), m) == DueAfter(es, m)
    ensures n < m ==> DueAt(DueAfter(es, n), m) == DueAt(es, m)
  {
    if es != [] {
      DueAfterTwice(es[1..], n, m);
      var first := if es[0].due > n then [es[0]] else [];
      DueAfterConcat(first, DueAfter(es[1..], n), m);
      DueAtConcat(first, DueAfter(es[1..], n), m);
    }
  }

  lemma {:induction false} DueAfterAll(es: seq<Entry>, n: nat)
    ensures forall k :: 0 <= k < |DueAfter(es, n)| ==> DueAfter(es, n)[k].due > n && DueAfter(es, n)[k] in es
  {
    if es != [] { DueAfterAll(es[1..], n); }
  }

  /** Legal operations keep every pending event within the delay that was asked for. */
  lemma {:induction false} PerformConsistent(a: Agenda, op: Op)
    requires Consistent(a) && Legal(op)
    ensures Consistent(Perform(a, op))
  {
    if op.Tick? {
      DueAfterAll(a.pending, a.now + 1);
      var b := Advance(a);
      forall k | 0 <= k < |b.pending| ensures InTime(b, b.pending[k]) {
        assert b.pending[k] in a.pending;
      }
    }
  }

  /** In every run, tick number `n` dispatches exactly the events that were scheduled for it, in
    the order in which they were scheduled; the others are still pending. So every event is
    dispatched once, when the clock reaches the time it was scheduled for. */
  lemma {:induction false} RunsOnTime(ops: seq<Op>, n: nat)
    requires forall k :: 0 <= k < |ops| ==> Legal(ops[k])
    ensures 1 <= n <= After(ops).now ==> Log(ops)[n - 1] == DueAt(Scheduled(ops), n)
    ensures After(ops).pending == DueAfter(Scheduled(ops), After(ops).now)
    decreases |ops|
  {
    if ops != [] {
      var init, last := ops[..|ops| - 1], ops[|ops| - 1];
      RunsOnTime(init, n);
      var a := After(init);
      if last.Add? {
        var e := Entry(last.event, a.now + last.delay);
        DueAtConcat(Scheduled(init), [e], n);
        DueAfterConcat(Scheduled(init), [e], a.now);
        assert Legal(last);
        assert DueAfter([e], a.now) == [e] && DueAt([], n) == [];
      } else {
        DueAfterTwice(Scheduled(init), a.now, a.now + 1);
        assert Scheduled(ops) == Scheduled(init);
      }
    }
  }
}
