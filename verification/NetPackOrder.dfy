/** The order in which the packets of a stream reach the caller, by returns of `filter` and by `pop`. */
module NetPackOrder {
  import opened Basics
  import opened NetPack

  /** The `n`th packet of a stream. */
  datatype Mark = Mark(fd: int, n: nat)

  /** What is in the queue and what was handed to the caller, in the order of time. `clean`: no call has
    returned a packet of a stream of which packets were still in the queue. */
  datatype Track = Track(queue: seq<Mark>, out: seq<Mark>, clean: bool)

  function Marks(fd: int, from: nat, n: nat): (r: seq<Mark>)
    ensures |r| == n && forall k :: 0 <= k < n ==> r[k] == Mark(fd, from + k)
  {
    seq(n, k requires 0 <= k < n => Mark(fd, from + k))
  }

  predicate Waiting(queue: seq<Mark>, fd: int) { exists k :: 0 <= k < |queue| && queue[k].fd == fd }

  /** The chunk completes one packet and nothing more, which is then returned. */
  predicate Direct(chunks: seq<Chunk>, c: Chunk)
  {
    var all := Rest(StreamOf(chunks, c.fd)) + c.bytes;
    |Frames(all)| == 1 && Rest(all) == []
  }

  function NextTrack(t: Track, chunks: seq<Chunk>, e: Event): Track
  {
    match e
    case TakeOne => if t.queue == [] then t else Track(t.queue[1..], t.out + [t.queue[0]], t.clean)
    case Arrive(c) =>
      var from := |Frames(StreamOf(chunks, c.fd))|;
      if Direct(chunks, c) then Track(t.queue, t.out + [Mark(c.fd, from)], t.clean && !Waiting(t.queue, c.fd))
      else Track(t.queue + Marks(c.fd, from, |Frames(Rest(StreamOf(chunks, c.fd)) + c.bytes)|), t.out, t.clean)
  }

  function TrackOf(events: seq<Event>): Track
  {
    if events == [] then Track([], [], true) else
      var n := |events| - 1;
      NextTrack(TrackOf(events[..n]), ChunksOf(events[..n]), events[n])
  }

  /** The numbers of the packets of `fd`. */
  function NumbersOf(ms: seq<Mark>, fd: int): seq<nat>
  {
    if ms == [] then [] else
      var n := |ms| - 1;
      NumbersOf(ms[..n], fd) + if ms[n].fd == fd then [ms[n].n] else []
  }

  function Upto(n: nat): (r: seq<nat>)
    ensures |r| == n && forall k :: 0 <= k < n ==> r[k] == k
  {
    seq(n, k requires 0 <= k < n => k)
  }

  /** Of each stream the caller has the first packets, in their order. */
  ghost predicate InOrder(out: seq<Mark>)
  {
    forall fd :: NumbersOf(out, fd) == Upto(|NumbersOf(out, fd)|)
  }

  lemma {:induction false} NumbersConcat(a: seq<Mark>, b: seq<Mark>, fd: int)
    ensures NumbersOf(a + b, fd) == NumbersOf(a, fd) + NumbersOf(b, fd)
  {
    if b == [] {
      assert a + b == a;
    } else {
      var n := |b| - 1;
      NumbersConcat(a, b[..n], fd);
      assert (a + b)[..|a| + n] == a + b[..n];
    }
  }

  lemma {:induction false} NumbersOfMarks(g: int, from: nat, n: nat, fd: int)
    ensures NumbersOf(Marks(g, from, n), fd) == if g == fd then seq(n, k requires 0 <= k < n => from + k) else []
    decreases n
  {
    if n > 0 {
      NumbersOfMarks(g, from, n - 1, fd);
      assert Marks(g, from, n)[..n - 1] == Marks(g, from, n - 1);
    }
  }

  lemma NumbersOne(m: Mark, fd: int)
    ensures NumbersOf([m], fd) == if m.fd == fd then [m.n] else []
  {
    assert [m][..0] == [];
  }

  lemma {:induction false} NotWaiting(queue: seq<Mark>, fd: int)
    ensures NumbersOf(queue, fd) == [] <==> !Waiting(queue, fd)
  {
    if queue != [] {
      var n := |queue| - 1;
      NotWaiting(queue[..n], fd);
      if Waiting(queue, fd) && queue[n].fd != fd {
        var k :| 0 <= k < |queue| && queue[k].fd == fd;
        assert queue[..n][k].fd == fd;
      }
    }
  }

  // ---- The order is kept exactly while no return overtakes -------------------------------------

  function CountOf(chunks: seq<Chunk>, fd: int): nat { |Frames(StreamOf(chunks, fd))| }

  /** Every packet is in the queue or handed on; both in order while `clean`, and else the latter not. */
  ghost predicate TrackOk(t: Track, chunks: seq<Chunk>)
  {
    && (forall fd :: |NumbersOf(t.out, fd)| + |NumbersOf(t.queue, fd)| == CountOf(chunks, fd))
    && (t.clean ==> forall fd :: NumbersOf(t.out, fd) + NumbersOf(t.queue, fd) == Upto(CountOf(chunks, fd)))
    && (!t.clean ==> !InOrder(t.out))
  }

  lemma CleanInOrder(t: Track, chunks: seq<Chunk>)
    requires TrackOk(t, chunks)
    ensures InOrder(t.out) <==> t.clean
  {
    if t.clean {
      forall fd ensures NumbersOf(t.out, fd) == Upto(|NumbersOf(t.out, fd)|) {
        var ns, qs := NumbersOf(t.out, fd), NumbersOf(t.queue, fd);
        assert ns + qs == Upto(CountOf(chunks, fd));
        assert forall k :: 0 <= k < |ns| ==> ns[k] == (ns + qs)[k];
      }
    }
  }

  lemma StreamNext(chunks: seq<Chunk>, c: Chunk, fd: int)
    ensures var s := StreamOf(chunks, fd);
      StreamOf(chunks + [c], fd) == (if c.fd == fd then s + c.bytes else s)
      && Frames(StreamOf(chunks + [c], fd)) == Frames(s) + (if c.fd == fd then Frames(Rest(s) + c.bytes) else [])
  {
    assert (chunks + [c])[..|chunks|] == chunks;
    FramesAppend(StreamOf(chunks, fd), c.bytes);
    assert StreamOf(chunks, fd) + [] == StreamOf(chunks, fd);
    assert Frames(StreamOf(chunks, fd)) + [] == Frames(StreamOf(chunks, fd));
  }

  /** What is not in order does not become so. */
  lemma StaysOutOfOrder(out: seq<Mark>, m: Mark)
    requires !InOrder(out)
    ensures !InOrder(out + [m])
  {
    var fd :| NumbersOf(out, fd) != Upto(|NumbersOf(out, fd)|);
    NumbersConcat(out, [m], fd);
    var ns, all := NumbersOf(out, fd), NumbersOf(out + [m], fd);
    var k :| 0 <= k < |ns| && ns[k] != k;
    assert all[k] == ns[k];
  }

  /** The numbers of `fd` in what was handed on and in the queue. */
  ghost predicate TrackAt(t: Track, chunks: seq<Chunk>, fd: int)
  {
    && |NumbersOf(t.out, fd)| + |NumbersOf(t.queue, fd)| == CountOf(chunks, fd)
    && (t.clean ==> NumbersOf(t.out, fd) + NumbersOf(t.queue, fd) == Upto(CountOf(chunks, fd)))
  }

  lemma UptoMore(n: nat, k: nat)
    ensures Upto(n + k) == Upto(n) + seq(k, i requires 0 <= i < k => n + i)
  {
  }

  lemma CountNext(chunks: seq<Chunk>, c: Chunk, fd: int)
    ensures CountOf(chunks + [c], fd)
      == CountOf(chunks, fd) + if c.fd == fd then |Frames(Rest(StreamOf(chunks, fd)) + c.bytes)| else 0
  {
    StreamNext(chunks, c, fd);
  }

  /** The number of the packet that is returned follows those handed on when none is in the queue. */
  lemma NextNumber(ns: seq<nat>, queued: seq<nat>, count: nat)
    requires ns + queued == Upto(count) && queued == []
    ensures ns + [count] + queued == Upto(count + 1)
  {
    assert ns + queued == ns;
    UptoMore(count, 1);
  }

  lemma DirectAt(t: Track, chunks: seq<Chunk>, c: Chunk, fd: int)
    requires TrackAt(t, chunks, fd) && Direct(chunks, c)
    ensures TrackAt(NextTrack(t, chunks, Arrive(c)), chunks + [c], fd)
  {
    var count := CountOf(chunks, c.fd);
    var m := Mark(c.fd, count);
    CountNext(chunks, c, fd);
    assert NextTrack(t, chunks, Arrive(c)) == Track(t.queue, t.out + [m], t.clean && !Waiting(t.queue, c.fd));
    NumbersConcat(t.out, [m], fd);
    NumbersOne(m, fd);
    NotWaiting(t.queue, c.fd);
    if fd != c.fd {
      assert NumbersOf(t.out, fd) + [] == NumbersOf(t.out, fd);
    } else if t.clean && !Waiting(t.queue, c.fd) {
      NextNumber(NumbersOf(t.out, fd), NumbersOf(t.queue, fd), count);
    }
  }

  /** The numbers of packets that are queued follow those before. */
  lemma MoreNumbers(a: seq<nat>, b: seq<nat>, more: seq<nat>, count: nat, n: nat)
    requires more == seq(n, k requires 0 <= k < n => count + k)
    ensures |a| + |b| == count ==> |a| + |b + more| == count + n
    ensures a + b == Upto(count) ==> a + (b + more) == Upto(count + n)
  {
    assert a + (b + more) == (a + b) + more;
    UptoMore(count, n);
  }

  lemma QueuedAt(t: Track, chunks: seq<Chunk>, c: Chunk, fd: int)
    requires TrackAt(t, chunks, fd) && !Direct(chunks, c)
    ensures TrackAt(NextTrack(t, chunks, Arrive(c)), chunks + [c], fd)
  {
    var from, n := CountOf(chunks, c.fd), |Frames(Rest(StreamOf(chunks, c.fd)) + c.bytes)|;
    CountNext(chunks, c, fd);
    assert NextTrack(t, chunks, Arrive(c)) == Track(t.queue + Marks(c.fd, from, n), t.out, t.clean);
    NumbersConcat(t.queue, Marks(c.fd, from, n), fd);
    NumbersOfMarks(c.fd, from, n, fd);
    if fd == c.fd {
      MoreNumbers(NumbersOf(t.out, fd), NumbersOf(t.queue, fd), NumbersOf(Marks(c.fd, from, n), fd), from, n);
    } else {
      assert NumbersOf(t.queue, fd) + [] == NumbersOf(t.queue, fd);
    }
  }

  lemma AllAt(t: Track, chunks: seq<Chunk>)
    requires forall fd :: TrackAt(t, chunks, fd)
    requires !t.clean ==> !InOrder(t.out)
    ensures TrackOk(t, chunks)
  {
    forall fd ensures |NumbersOf(t.out, fd)| + |NumbersOf(t.queue, fd)| == CountOf(chunks, fd) {
      assert TrackAt(t, chunks, fd);
    }
    forall fd ensures t.clean ==> NumbersOf(t.out, fd) + NumbersOf(t.queue, fd) == Upto(CountOf(chunks, fd)) {
      assert TrackAt(t, chunks, fd);
    }
  }

  /** A packet that is returned before one that is still in the queue breaks the order. */
  lemma Overtakes(t: Track, chunks: seq<Chunk>, c: Chunk)
    requires TrackAt(t, chunks, c.fd) && Waiting(t.queue, c.fd)
    ensures !InOrder(t.out + [Mark(c.fd, CountOf(chunks, c.fd))])
  {
    var m := Mark(c.fd, CountOf(chunks, c.fd));
    NotWaiting(t.queue, c.fd);
    NumbersConcat(t.out, [m], c.fd);
    NumbersOne(m, c.fd);
    var ns := NumbersOf(t.out, c.fd);
    assert NumbersOf(t.out + [m], c.fd)[|ns|] == m.n > |ns|;
  }

  /** A chunk comes. */
  lemma ArriveOk(t: Track, chunks: seq<Chunk>, c: Chunk)
    requires TrackOk(t, chunks)
    ensures TrackOk(NextTrack(t, chunks, Arrive(c)), chunks + [c])
  {
    var t' := NextTrack(t, chunks, Arrive(c));
    forall fd ensures TrackAt(t', chunks + [c], fd) {
      assert TrackAt(t, chunks, fd);
      if Direct(chunks, c) { DirectAt(t, chunks, c, fd); } else { QueuedAt(t, chunks, c, fd); }
    }
    if Direct(chunks, c) && !t'.clean {
      if t.clean {
        assert TrackAt(t, chunks, c.fd);
        Overtakes(t, chunks, c);
      } else {
        StaysOutOfOrder(t.out, Mark(c.fd, CountOf(chunks, c.fd)));
      }
    }
    AllAt(t', chunks + [c]);
  }

  lemma TakenOk(t: Track, chunks: seq<Chunk>)
    requires TrackOk(t, chunks)
    ensures TrackOk(NextTrack(t, chunks, TakeOne), chunks)
  {
    if t.queue != [] {
      var m, rest := t.queue[0], t.queue[1..];
      assert t.queue == [m] + rest;
      forall fd
        ensures NumbersOf(t.out + [m], fd) + NumbersOf(rest, fd) == NumbersOf(t.out, fd) + NumbersOf(t.queue, fd)
      {
        NumbersConcat([m], rest, fd);
        NumbersConcat(t.out, [m], fd);
      }
      forall fd ensures |NumbersOf(t.out + [m], fd)| + |NumbersOf(rest, fd)| == CountOf(chunks, fd) {
        assert |NumbersOf(t.out + [m], fd) + NumbersOf(rest, fd)|
          == |NumbersOf(t.out, fd) + NumbersOf(t.queue, fd)|;
      }
      if !t.clean { StaysOutOfOrder(t.out, m); }
    }
  }

  lemma {:induction false} TracksOk(events: seq<Event>)
    ensures TrackOk(TrackOf(events), ChunksOf(events))
  {
    if events == [] {
      forall fd ensures CountOf([], fd) == 0 { assert !Whole([]); }
    } else {
      var n := |events| - 1;
      var before, t := events[..n], TrackOf(events[..n]);
      TracksOk(before);
      assert events == before + [events[n]];
      ChunksNext(before, events[n]);
      match events[n] {
        case TakeOne =>
          assert ChunksOf(before) + [] == ChunksOf(before);
          TakenOk(t, ChunksOf(before));
        case Arrive(c) =>
          ArriveOk(t, ChunksOf(before), c);
      }
    }
  }

  /** In any run the caller gets the packets of each stream in their order if and only if no call
    returned a packet of a stream of which packets were still in the queue. */
  lemma OrderExactly(events: seq<Event>)
    ensures InOrder(TrackOf(events).out) <==> TrackOf(events).clean
  {
    TracksOk(events);
    CleanInOrder(TrackOf(events), ChunksOf(events));
  }

  /** So a caller that looks at the queue before it passes on a chunk can tell whether the order is
    kept. */
  lemma OrderKept(events: seq<Event>, e: Event)
    requires InOrder(TrackOf(events).out)
    ensures InOrder(TrackOf(events + [e]).out) <==>
      !(e.Arrive? && Direct(ChunksOf(events), e.chunk) && Waiting(TrackOf(events).queue, e.chunk.fd))
  {
    assert (events + [e])[..|events|] == events;
    OrderExactly(events);
    OrderExactly(events + [e]);
  }

  // ---- The packets themselves ------------------------------------------------------------------

  ghost predicate CarriesAt(chunks: seq<Chunk>, ms: seq<Mark>, ps: seq<Packet>, k: int)
  {
    0 <= k < |ms| && k < |ps| ==>
      var frames := Frames(StreamOf(chunks, ms[k].fd));
      ps[k].id == ms[k].fd && ms[k].n < |frames| && ps[k].data == frames[ms[k].n]
  }

  /** The packets are those with these numbers. */
  ghost predicate Carries(chunks: seq<Chunk>, ms: seq<Mark>, ps: seq<Packet>)
  {
    |ms| == |ps| && forall k :: CarriesAt(chunks, ms, ps, k)
  }

  lemma FrameStays(chunks: seq<Chunk>, c: Chunk, fd: int, n: nat)
    requires n < |Frames(StreamOf(chunks, fd))|
    ensures n < |Frames(StreamOf(chunks + [c], fd))|
    ensures Frames(StreamOf(chunks + [c], fd))[n] == Frames(StreamOf(chunks, fd))[n]
  {
    StreamNext(chunks, c, fd);
  }

  lemma CarriesMore(chunks: seq<Chunk>, c: Chunk, ms: seq<Mark>, ps: seq<Packet>)
    requires Carries(chunks, ms, ps)
    ensures Carries(chunks + [c], ms, ps)
  {
    forall k ensures CarriesAt(chunks + [c], ms, ps, k) {
      if 0 <= k < |ms| {
        assert CarriesAt(chunks, ms, ps, k);
        FrameStays(chunks, c, ms[k].fd, ms[k].n);
      }
    }
  }

  lemma CarriesConcat(chunks: seq<Chunk>, ms: seq<Mark>, ps: seq<Packet>, ms': seq<Mark>, ps': seq<Packet>)
    requires Carries(chunks, ms, ps) && Carries(chunks, ms', ps')
    ensures Carries(chunks, ms + ms', ps + ps')
  {
    forall k ensures CarriesAt(chunks, ms + ms', ps + ps', k) {
      assert CarriesAt(chunks, ms, ps, k) && CarriesAt(chunks, ms', ps', k - |ms|);
    }
  }

  lemma CarriesSplit(chunks: seq<Chunk>, ms: seq<Mark>, ps: seq<Packet>)
    requires Carries(chunks, ms, ps) && ms != []
    ensures Carries(chunks, [ms[0]], [ps[0]]) && Carries(chunks, ms[1..], ps[1..])
  {
    forall k ensures CarriesAt(chunks, [ms[0]], [ps[0]], k) { assert CarriesAt(chunks, ms, ps, 0); }
    forall k ensures CarriesAt(chunks, ms[1..], ps[1..], k) { assert CarriesAt(chunks, ms, ps, k + 1); }
  }

  lemma {:induction false} TaggedAt(fd: int, ps: seq<seq<byte>>, k: nat)
    requires k < |ps|
    ensures Tagged(fd, ps)[k] == Packet(fd, ps[k])
    decreases k
  {
    if k > 0 { TaggedAt(fd, ps[1..], k - 1); }
  }

  /** What a chunk completes. */
  lemma CarriesNew(chunks: seq<Chunk>, c: Chunk)
    ensures var frames := Frames(Rest(StreamOf(chunks, c.fd)) + c.bytes);
      Carries(chunks + [c], Marks(c.fd, CountOf(chunks, c.fd), |frames|), Tagged(c.fd, frames))
  {
    var from, frames := CountOf(chunks, c.fd), Frames(Rest(StreamOf(chunks, c.fd)) + c.bytes);
    StreamNext(chunks, c, c.fd);
    forall k ensures CarriesAt(chunks + [c], Marks(c.fd, from, |frames|), Tagged(c.fd, frames), k) {
      if 0 <= k < |frames| { TaggedAt(c.fd, frames, k); }
    }
  }

  /** A run so far: the packets handed on, those in the queue, and the bytes held. */
  ghost predicate Handed(events: seq<Event>, delivered: seq<Packet>, q: Queue)
    reads q, q.ring, q.hash
  {
    q.RingValid() && q.HashValid() && forall n :: Look(n) ==>
      var chunks, t := ChunksOf(events), TrackOf(events);
      && Carries(chunks, t.out, delivered) && Carries(chunks, t.queue, q.Queued())
      && forall fd :: q.Pending(fd) == Rest(StreamOf(chunks, fd))
  }

  lemma TrackNext(events: seq<Event>, e: Event)
    ensures TrackOf(events + [e]) == NextTrack(TrackOf(events), ChunksOf(events), e)
  {
    assert (events + [e])[..|events|] == events;
  }

  /** What the call emits and what the track says are the same packets. */
  lemma HandedChunk(chunks: seq<Chunk>, c: Chunk, t: Track, delivered: seq<Packet>, queue: seq<Packet>, e: Emission)
    requires Carries(chunks, t.out, delivered) && Carries(chunks, t.queue, queue)
    requires Answer(c.fd, Rest(StreamOf(chunks, c.fd)) + c.bytes, e)
    ensures var t' := NextTrack(t, chunks, Arrive(c));
      && Carries(chunks + [c], t'.out, if e.Data? then delivered + [e.packet] else delivered)
      && Carries(chunks + [c], t'.queue,
                 queue + if e == More then Tagged(c.fd, Frames(Rest(StreamOf(chunks, c.fd)) + c.bytes)) else [])
  {
    var frames := Frames(Rest(StreamOf(chunks, c.fd)) + c.bytes);
    var marks := Marks(c.fd, CountOf(chunks, c.fd), |frames|);
    CarriesMore(chunks, c, t.out, delivered);
    CarriesMore(chunks, c, t.queue, queue);
    CarriesNew(chunks, c);
    match e {
      case Nothing => assert t.queue + marks == t.queue && queue + [] == queue;
      case Data(p) =>
        TaggedOne(c.fd, frames);
        assert marks == [Mark(c.fd, CountOf(chunks, c.fd))] && queue + [] == queue;
        CarriesConcat(chunks + [c], t.out, delivered, marks, [p]);
      case More => CarriesConcat(chunks + [c], t.queue, queue, marks, Tagged(c.fd, frames));
    }
  }

  /** A chunk comes. A packet that is returned overtakes others exactly when the queue has packets of
    its stream. */
  method HandChunk(q: Queue, c: Chunk, ghost events: seq<Event>, delivered: seq<Packet>)
    returns (delivered': seq<Packet>, e: Emission)
    requires Handed(events, delivered, q) && c.bytes != []
    modifies q`cap, q`head, q`tail, q`ring, q.ring, q.hash
    ensures Handed(events + [Arrive(c)], delivered', q) && (q.ring == old(q.ring) || fresh(q.ring))
    ensures delivered' == if e.Data? then delivered + [e.packet] else delivered
    ensures InOrder(TrackOf(events).out) ==>
      (InOrder(TrackOf(events + [Arrive(c)]).out) <==>
        !(e.Data? && exists k :: 0 <= k < |old(q.Queued())| && old(q.Queued())[k].id == c.fd))
  {
    assert Look(0);
    ChunksNext(events, Arrive(c));
    TrackNext(events, Arrive(c));
    ghost var chunks, t, queue := ChunksOf(events), TrackOf(events), q.Queued();
    e := q.FilterData(c.fd, c.bytes);
    delivered' := if e.Data? then delivered + [e.packet] else delivered;
    HandedChunk(chunks, c, t, delivered, queue, e);
    forall fd ensures q.Pending(fd) == Rest(StreamOf(chunks + [c], fd)) {
      StreamNext(chunks, c, fd);
      FramesAppend(StreamOf(chunks, fd), c.bytes);
    }
    WaitingPackets(chunks, t.queue, queue, c.fd);
    if InOrder(t.out) { OrderKept(events, Arrive(c)); }
  }

  lemma WaitingPackets(chunks: seq<Chunk>, ms: seq<Mark>, ps: seq<Packet>, fd: int)
    requires Carries(chunks, ms, ps)
    ensures Waiting(ms, fd) <==> exists k :: 0 <= k < |ps| && ps[k].id == fd
  {
    assert forall k :: 0 <= k < |ms| ==> CarriesAt(chunks, ms, ps, k) && ps[k].id == ms[k].fd;
    if Waiting(ms, fd) {
      var k :| 0 <= k < |ms| && ms[k].fd == fd;
      assert ps[k].id == fd;
    }
  }

  /** A packet is taken. */
  method HandPop(q: Queue, ghost events: seq<Event>, delivered: seq<Packet>) returns (delivered': seq<Packet>)
    requires Handed(events, delivered, q)
    modifies q`head
    ensures Handed(events + [TakeOne], delivered', q)
  {
    assert Look(0);
    ChunksNext(events, TakeOne);
    TrackNext(events, TakeOne);
    ghost var chunks, t := ChunksOf(events), TrackOf(events);
    assert chunks + [] == chunks;
    var r := q.Pop();
    delivered' := delivered;
    if r.Some? {
      CarriesSplit(chunks, t.queue, old(q.Queued()));
      CarriesConcat(chunks, t.out, delivered, [t.queue[0]], [r.value]);
      delivered' := delivered + [r.value];
    }
  }

  ghost predicate Picks(ds: seq<seq<byte>>, frames: seq<seq<byte>>, ns: seq<nat>)
  {
    |ds| == |ns| && forall k :: 0 <= k < |ns| ==> ns[k] < |frames| && ds[k] == frames[ns[k]]
  }

  /** Of what the packets are: those of `fd` are the packets of its stream with these numbers. */
  lemma {:induction false} DataCarried(chunks: seq<Chunk>, ms: seq<Mark>, ps: seq<Packet>, fd: int,
                                       frames: seq<seq<byte>>)
    requires Carries(chunks, ms, ps) && frames == Frames(StreamOf(chunks, fd))
    ensures Picks(DataOf(ps, fd), frames, NumbersOf(ms, fd))
    decreases |ms|
  {
    if ms != [] {
      var n := |ms| - 1;
      forall k ensures CarriesAt(chunks, ms[..n], ps[..n], k) { assert CarriesAt(chunks, ms, ps, k); }
      DataCarried(chunks, ms[..n], ps[..n], fd, frames);
      assert CarriesAt(chunks, ms, ps, n);
      assert ms[n].fd == fd ==> Picks([ps[n].data], frames, [ms[n].n]);
      PicksMore(DataOf(ps[..n], fd), frames, NumbersOf(ms[..n], fd), if ms[n].fd == fd then [ps[n].data] else [],
                if ms[n].fd == fd then [ms[n].n] else []);
    }
  }

  lemma PicksMore(ds: seq<seq<byte>>, frames: seq<seq<byte>>, ns: seq<nat>, ds': seq<seq<byte>>, ns': seq<nat>)
    requires Picks(ds, frames, ns) && Picks(ds', frames, ns')
    ensures Picks(ds + ds', frames, ns + ns')
  {
  }

  /** Picked in order, they are the first ones; and picked as the first ones, in order if all differ. */
  lemma PicksPrefix(ds: seq<seq<byte>>, frames: seq<seq<byte>>, ns: seq<nat>)
    requires Picks(ds, frames, ns)
    ensures ns == Upto(|ns|) ==> ds <= frames
    ensures Different(frames) && ds <= frames ==> ns == Upto(|ns|)
  {
    if ns == Upto(|ns|) && ns != [] { assert ns[|ns| - 1] < |frames|; }
    if Different(frames) && ds <= frames {
      forall k | 0 <= k < |ns| ensures ns[k] == k {
        assert frames[k] == ds[k] == frames[ns[k]];
      }
    }
  }

  ghost predicate Different<T(!new)>(s: seq<T>) { forall i, j :: 0 <= i < j < |s| ==> s[i] != s[j] }

  /** No two packets of a stream are alike. */
  ghost predicate AllDifferent(chunks: seq<Chunk>)
  {
    forall fd :: Different(Frames(StreamOf(chunks, fd)))
  }

  /** The packets of each stream that the caller has so far are its first ones. */
  ghost predicate Prefixes(chunks: seq<Chunk>, ps: seq<Packet>)
  {
    forall fd :: DataOf(ps, fd) <= Frames(StreamOf(chunks, fd))
  }

  lemma InOrderPrefixes(chunks: seq<Chunk>, ms: seq<Mark>, ps: seq<Packet>)
    requires Carries(chunks, ms, ps)
    ensures InOrder(ms) ==> Prefixes(chunks, ps)
    ensures AllDifferent(chunks) && Prefixes(chunks, ps) ==> InOrder(ms)
  {
    forall fd
      ensures InOrder(ms) ==> DataOf(ps, fd) <= Frames(StreamOf(chunks, fd))
      ensures Different(Frames(StreamOf(chunks, fd))) && Prefixes(chunks, ps) ==>
        NumbersOf(ms, fd) == Upto(|NumbersOf(ms, fd)|)
    {
      DataCarried(chunks, ms, ps, fd, Frames(StreamOf(chunks, fd)));
      PicksPrefix(DataOf(ps, fd), Frames(StreamOf(chunks, fd)), NumbersOf(ms, fd));
      if InOrder(ms) { assert NumbersOf(ms, fd) == Upto(|NumbersOf(ms, fd)|); }
      if Prefixes(chunks, ps) { assert DataOf(ps, fd) <= Frames(StreamOf(chunks, fd)); }
    }
  }

  /** Any run of chunks and pops: the caller gets the first packets of each stream in their order if,
    and when the packets of each stream differ only if, no call returned a packet of a stream of which
    packets were still in the queue. */
  method Deliver(events: seq<Event>) returns (delivered: seq<Packet>, q: Queue)
    requires forall k :: 0 <= k < |events| && events[k].Arrive? ==> events[k].chunk.bytes != []
    ensures Handed(events, delivered, q)
    ensures TrackOf(events).clean ==> Prefixes(ChunksOf(events), delivered)
    ensures AllDifferent(ChunksOf(events)) && Prefixes(ChunksOf(events), delivered) ==> TrackOf(events).clean
  {
    q := new Queue();
    delivered := [];
    var i := 0;
    assert events[..0] == [];
    while i < |events|
      invariant 0 <= i <= |events| && fresh(q) && fresh(q.ring) && fresh(q.hash)
      invariant Handed(events[..i], delivered, q)
    {
      assert events[..i + 1] == events[..i] + [events[i]];
      match events[i] {
        case Arrive(c) => var e; delivered, e := HandChunk(q, c, events[..i], delivered);
        case TakeOne => delivered := HandPop(q, events[..i], delivered);
      }
      i := i + 1;
    }
    assert events[..i] == events;
    assert Look(0);
    OrderExactly(events);
    InOrderPrefixes(ChunksOf(events), TrackOf(events).out, delivered);
  }

  lemma TrackOfTwo(c1: Chunk, c2: Chunk)
    ensures var events := [Arrive(c1), Arrive(c2)];
      && ChunksOf(events) == [c1, c2]
      && TrackOf(events) == NextTrack(NextTrack(Track([], [], true), [], Arrive(c1)), [c1], Arrive(c2))
  {
    var events := [Arrive(c1), Arrive(c2)];
    assert events[..1] == [Arrive(c1)] && [Arrive(c1)][..0] == [];
    assert ChunksOf([Arrive(c1)]) == [] + [c1] == [c1];
    assert ChunksOf(events) == [c1] + [c2];
    assert TrackOf([Arrive(c1)]) == NextTrack(TrackOf([]), ChunksOf([]), Arrive(c1));
  }

  lemma StreamOfTwo(c1: Chunk, c2: Chunk)
    requires c1.fd == c2.fd && Rest(c1.bytes) == []
    ensures StreamOf([], c1.fd) == [] && StreamOf([c1], c1.fd) == c1.bytes
    ensures Frames(StreamOf([c1, c2], c1.fd)) == Frames(c1.bytes) + Frames(c2.bytes)
  {
    StreamNext([], c1, c1.fd);
    StreamNext([c1], c2, c1.fd);
    assert [] + [c1] == [c1] && [c1] + [c2] == [c1, c2];
    assert [] + c1.bytes == c1.bytes && [] + c2.bytes == c2.bytes;
  }

  lemma TwoThenOne(c1: Chunk, c2: Chunk)
    requires c1.fd == c2.fd && |Frames(c1.bytes)| == 2 && |Frames(c2.bytes)| == 1
    requires Rest(c1.bytes) == [] && Rest(c2.bytes) == []
    ensures var t := TrackOf([Arrive(c1), Arrive(c2)]); t.out == [Mark(c1.fd, 2)] && !t.clean
  {
    var fd := c1.fd;
    TrackOfTwo(c1, c2);
    StreamOfTwo(c1, c2);
    assert Rest([]) == [] && Frames([]) == [] && [] + c1.bytes == c1.bytes && [] + c2.bytes == c2.bytes;
    assert !Direct([], c1) && Direct([c1], c2);
    var t := NextTrack(Track([], [], true), [], Arrive(c1));
    assert t == Track([] + Marks(fd, 0, 2), [], true) && t.queue[0].fd == fd;
  }

  lemma OnePrefix(chunks: seq<Chunk>, p: Packet)
    requires |Frames(StreamOf(chunks, p.id))| > 0 && Frames(StreamOf(chunks, p.id))[0] == p.data
    ensures Prefixes(chunks, [p])
  {
    forall fd ensures DataOf([p], fd) <= Frames(StreamOf(chunks, fd)) {
      assert [p][..0] == [];
      assert DataOf([p], fd) == if fd == p.id then [p.data] else [];
    }
  }

  /** When packets of a stream are alike, the caller may not notice that one was overtaken: here two
    are in the queue and the third is returned. */
  lemma AlikeUnnoticed(c1: Chunk, c2: Chunk, x: seq<byte>)
    requires c1.fd == c2.fd && Frames(c1.bytes) == [x, x] && Frames(c2.bytes) == [x]
    requires Rest(c1.bytes) == [] && Rest(c2.bytes) == []
    ensures var events, p := [Arrive(c1), Arrive(c2)], Packet(c1.fd, x);
      Carries(ChunksOf(events), TrackOf(events).out, [p]) && Prefixes(ChunksOf(events), [p]) && !TrackOf(events).clean
  {
    TrackOfTwo(c1, c2);
    StreamOfTwo(c1, c2);
    TwoThenOne(c1, c2);
    var frames := Frames(StreamOf([c1, c2], c1.fd));
    assert frames == [x, x] + [x];
    forall k ensures CarriesAt([c1, c2], [Mark(c1.fd, 2)], [Packet(c1.fd, x)], k) { }
    OnePrefix([c1, c2], Packet(c1.fd, x));
  }
}
