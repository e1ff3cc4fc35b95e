/** The message queue of a service and the global queue of `skynet_mq.c`. */
module MessageQueues {
  import opened Basics

  datatype Message = Message(source: nat, session: int, data: nat)

  // ---- Queues as values --------------------------------------------------------------------

  /** What a message queue is to its users. `inGlobal` is the flag, not whether the queue really is
    in the global list. */
  datatype Mailbox = Mailbox(messages: seq<Message>, inGlobal: bool, release: bool)

  /** `skynet_mq_push`. The global list gets the queue when the flag was clear. */
  function Pushed(q: Mailbox, m: Message): Mailbox { q.(messages := q.messages + [m], inGlobal := true) }

  /** `skynet_mq_pop`: an empty queue gives up its place in the global list. */
  function Popped(q: Mailbox): Mailbox
  {
    if q.messages == [] then q.(inGlobal := false) else q.(messages := q.messages[1..])
  }

  // ---- The ring buffer ---------------------------------------------------------------------

  const DEFAULT_QUEUE_SIZE: nat := 64

  const MQ_OVERLOAD: nat := 1024

  /** The threshold is doubled until the queue is no longer than it. */
  function Raised(threshold: nat, length: nat): (r: nat)
    requires threshold > 0
    decreases length - threshold
  {
    if length > threshold then Raised(threshold * 2, length) else threshold
  }

  function Power2(k: nat): (p: nat) { if k == 0 then 1 else 2 * Power2(k - 1) }

  lemma Twice(threshold: nat, k: nat)
    ensures threshold * 2 * Power2(k) == threshold * Power2(k + 1)
  {
    var p := Power2(k);
    assert Power2(k + 1) == 2 * p;
  }

  /** It is the least double that the queue fits in. */
  lemma {:induction false} RaisedLeast(threshold: nat, length: nat) returns (k: nat)
    requires threshold > 0
    ensures Raised(threshold, length) == threshold * Power2(k) >= length
    ensures k > 0 ==> threshold * Power2(k - 1) < length
    decreases length - threshold
  {
    k := 0;
    if length > threshold {
      k := RaisedLeast(threshold * 2, length);
      Twice(threshold, k);
      if k > 0 { Twice(threshold, k - 1); }
      k := k + 1;
    }
  }

  /** The elements of the ring from `head` to `tail`. */
  function Between(ring: seq<Message>, head: nat, tail: nat): (r: seq<Message>)
    requires head < |ring| && tail < |ring|
    ensures |r| == if head <= tail then tail - head else tail + |ring| - head
  {
    if head <= tail then ring[head..tail] else ring[head..] + ring[..tail]
  }

  /** `struct global_queue`: the queues waiting for a worker, by handle. */
  class GlobalQueue {
    var waiting: seq<nat>

    constructor ()
      ensures waiting == []
    {
      waiting := [];
    }

    /** `skynet_globalmq_push`. */
    method Push(handle: nat)
      modifies this
      ensures waiting == old(waiting) + [handle]
    {
      waiting := waiting + [handle];
    }

    /** `skynet_globalmq_pop`. */
    method Pop() returns (r: Option<nat>)
      modifies this
      ensures if old(waiting) == [] then r == None && waiting == []
              else r == Some(old(waiting)[0]) && waiting == old(waiting)[1..]
    {
      if waiting == [] {
        r := None;
      } else {
        r := Some(waiting[0]);
        waiting := waiting[1..];
      }
    }
  }

  /** `struct message_queue`: a ring buffer with one free element. */
  class MessageQueue {
    const handle: nat
    var cap: nat
    var head: nat
    var tail: nat
    var release: bool
    var inGlobal: bool
    var overload: nat
    var overloadThreshold: nat
    var queue: array<Message>
    /** The messages in the ring, oldest first. */
    ghost var messages: seq<Message>

    ghost predicate Valid()
      reads this, queue
    {
      && cap == queue.Length && head < cap && tail < cap && overloadThreshold > 0
      && forall n :: Look(n) ==> messages == Between(queue[..], head, tail)
    }

    ghost function Contents(): (q: Mailbox)
      reads `messages, `inGlobal, `release
    {
      Mailbox(messages, inGlobal, release)
    }

    /** `skynet_mq_create`: the flag is set, so that nobody puts the queue into the global list
      before its service is initialised. */
    constructor (h: nat)
      ensures Valid() && handle == h && Contents() == Mailbox([], true, false) && fresh(queue)
      ensures overload == 0 && overloadThreshold == MQ_OVERLOAD
    {
      handle := h;
      cap := DEFAULT_QUEUE_SIZE;
      head := 0;
      tail := 0;
      release := false;
      inGlobal := true;
      overload := 0;
      overloadThreshold := MQ_OVERLOAD;
      messages := [];
      queue := new Message[DEFAULT_QUEUE_SIZE](_ => Message(0, 0, 0));
    }

    /** `skynet_mq_length`. */
    method Length() returns (n: int)
      requires Valid()
      ensures n == |Contents().messages|
    {
      assert Look(0);
      if head <= tail {
        n := tail - head;
      } else {
        n := tail + cap - head;
      }
    }

    /** `skynet_mq_overload`: the length that was noted, once. */
    method Overload() returns (n: nat)
      modifies `overload
      ensures n == old(overload) && overload == 0
    {
      n := overload;
      if overload != 0 {
        overload := 0;
      }
    }

    /** `expand_queue`, called when the ring is full, which looks like empty. */
    method ExpandQueue()
      requires cap == queue.Length && head == tail < cap && overloadThreshold > 0
      requires messages == queue[head..] + queue[..head]
      modifies `cap, `head, `tail, `queue
      ensures Valid() && fresh(queue) && cap == 2 * old(cap)
    {
      var bigger := new Message[cap * 2](_ => Message(0, 0, 0));
      ghost var full := messages;
      var i := 0;
      while i < cap
        invariant 0 <= i <= cap && forall j :: 0 <= j < i ==> bigger[j] == full[j]
        invariant queue[..] == old(queue[..])
        modifies bigger
      {
        RingIndex(queue[..], head, i);
        bigger[i] := queue[(head + i) % cap];
        i := i + 1;
      }
      head := 0;
      tail := cap;
      cap := cap * 2;
      queue := bigger;
      assert queue[..][0..tail] == full;
    }

    /** The message is written at the tail. When the ring is full then, head and tail meet. */
    method WriteLast(m: Message)
      requires Valid()
      modifies `tail, `messages, queue
      ensures queue == old(queue) && messages == old(messages) + [m] && head < cap && tail < cap
      ensures if head == tail then messages == queue[head..] + queue[..head] else Valid()
    {
      assert Look(0);
      ghost var ring := queue[..];
      queue[tail] := m;
      assert queue[..] == ring[tail := m];
      PushedBetween(ring, head, tail, m);
      tail := tail + 1;
      if tail >= cap {
        tail := 0;
      }
      messages := messages + [m];
    }

    /** `skynet_mq_push`. */
    method Push(m: Message, g: GlobalQueue)
      requires Valid()
      modifies this, queue, g
      ensures Valid() && (queue == old(queue) || fresh(queue))
      ensures overload == old(overload) && overloadThreshold == old(overloadThreshold)
      ensures Contents() == Pushed(old(Contents()), m)
      ensures g.waiting == if old(inGlobal) then old(g.waiting) else old(g.waiting) + [handle]
    {
      WriteLast(m);
      if head == tail {
        ExpandQueue();
      }
      if !inGlobal {
        inGlobal := true;
        g.Push(handle);
      }
    }

    /** The loop of `skynet_mq_pop`: a queue longer than the threshold is noted, and the threshold doubled. */
    method NoteLength(length: nat)
      requires overloadThreshold > 0
      modifies `overload, `overloadThreshold
      ensures overloadThreshold == Raised(old(overloadThreshold), length) > 0
      ensures overload == if length > old(overloadThreshold) then length else old(overload)
    {
      while length > overloadThreshold
        invariant overloadThreshold >= old(overloadThreshold)
        invariant Raised(overloadThreshold, length) == Raised(old(overloadThreshold), length)
        invariant overload == if overloadThreshold > old(overloadThreshold) then length else old(overload)
        invariant overloadThreshold > old(overloadThreshold) ==> length > old(overloadThreshold)
        decreases length - overloadThreshold
      {
        overload := length;
        overloadThreshold := overloadThreshold * 2;
      }
    }

    /** `skynet_mq_pop`. */
    method Pop() returns (m: Option<Message>)
      requires Valid()
      modifies this
      ensures Valid() && queue == old(queue) && Contents() == Popped(old(Contents()))
      ensures m == if old(Contents()).messages == [] then None else Some(old(Contents()).messages[0])
      ensures m.Some? ==> overloadThreshold == Raised(old(overloadThreshold), |Contents().messages|)
      ensures overload == if m.Some? && |Contents().messages| > old(overloadThreshold) then |Contents().messages|
                          else old(overload)
      ensures m == None ==> overloadThreshold == MQ_OVERLOAD
    {
      assert Look(0);
      if head != tail {
        m := Some(queue[head]);
        PoppedBetween(queue[..], head, tail);
        head := head + 1;
        if head >= cap {
          head := 0;
        }
        messages := messages[1..];
        var length := tail - head;
        if length < 0 {
          length := length + cap;
        }
        NoteLength(length);
      } else {
        m := None;
        overloadThreshold := MQ_OVERLOAD;
        inGlobal := false;
      }
    }

    /** `skynet_mq_mark_release`: a parked queue goes back to the workers, to be dropped. The flag
      stays as it is. */
    method MarkRelease(g: GlobalQueue)
      requires Valid() && !release
      modifies `release, g
      ensures Valid() && Contents() == old(Contents()).(release := true)
      ensures g.waiting == if inGlobal then old(g.waiting) else old(g.waiting) + [handle]
    {
      release := true;
      if !inGlobal {
        g.Push(handle);
      }
    }

    /** `skynet_mq_release`: drop every message, or pass the queue on. */
    method Release(g: GlobalQueue) returns (dropped: seq<Message>, freed: bool)
      requires Valid()
      modifies this, g
      ensures Valid() && freed == old(release)
      ensures if old(release)
              then dropped == old(Contents()).messages && Contents().messages == [] && g.waiting == old(g.waiting)
              else dropped == [] && Contents() == old(Contents()) && g.waiting == old(g.waiting) + [handle]
    {
      dropped := [];
      freed := release;
      if release {
        var m := Pop();
        while m.Some?
          invariant Valid()
          invariant old(messages) == dropped + ListOf(m) + messages
          invariant m == None ==> messages == []
          decreases |messages|, m.Some?
          modifies this
        {
          dropped := dropped + [m.value];
          ghost var rest := messages;
          m := Pop();
          assert rest == ListOf(m) + messages;
          assert dropped + (ListOf(m) + messages) == dropped + ListOf(m) + messages;
        }
      } else {
        g.Push(handle);
      }
    }
  }

  function ListOf(m: Option<Message>): seq<Message>
  {
    match m
    case None => []
    case Some(x) => [x]
  }

  lemma RingIndex(ring: seq<Message>, head: nat, i: nat)
    requires head < |ring| && i < |ring|
    ensures (ring[head..] + ring[..head])[i] == ring[(head + i) % |ring|]
  {
    Wrap(head + i, |ring|);
  }

  lemma Wrap(x: nat, n: nat)
    requires x < 2 * n
    ensures x % n == if x < n then x else x - n
  {
    var q := x / n;
    assert x == n * q + x % n;
    assert q >= 2 ==> n * q >= n * 2;
    assert q == 1 ==> n * q == n;
  }

  /** Moving `head` on takes the first message away. */
  lemma PoppedBetween(ring: seq<Message>, head: nat, tail: nat)
    requires head < |ring| && tail < |ring| && head != tail
    ensures var next := if head + 1 >= |ring| then 0 else head + 1;
            Between(ring, head, tail) == [ring[head]] + Between(ring, next, tail)
  {
    if head <= tail {
      assert ring[head..tail] == [ring[head]] + ring[head + 1..tail];
    } else {
      assert ring[head..] == [ring[head]] + ring[head + 1..];
      Join3([ring[head]], ring[head + 1..], ring[..tail]);
    }
  }

  lemma Join3<T>(a: seq<T>, b: seq<T>, c: seq<T>)
    ensures a + b + c == a + (b + c)
  {
  }

  /** Writing at `tail` and moving it on appends to the ring, or fills it. */
  lemma PushedBetween(ring: seq<Message>, head: nat, tail: nat, m: Message)
    requires head < |ring| && tail < |ring|
    ensures var filled, next := ring[tail := m], if tail + 1 >= |ring| then 0 else tail + 1;
            if head == next then filled[head..] + filled[..head] == Between(ring, head, tail) + [m]
            else Between(filled, head, next) == Between(ring, head, tail) + [m]
  {
  }
}
