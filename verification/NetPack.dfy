/** `lua-netpack.c`: byte streams, cut into chunks anywhere, put back together into packets. A
  packet is its length in two bytes, the high one first, and then its bytes. */
module NetPack {
  import opened Basics

  const QUEUESIZE: nat := 1024

  const HASHSIZE: nat := 4096

  // ---- The packets of a stream -------------------------------------------------------------

  function ReadSize(s: seq<byte>): nat
    requires |s| >= 2
  {
    (s[0] as nat) * 256 + (s[1] as nat)
  }

  /** A whole packet is at the front. */
  predicate Whole(s: seq<byte>) { |s| >= 2 && |s| - 2 >= ReadSize(s) }

  function First(s: seq<byte>): seq<byte>
    requires Whole(s)
  {
    s[2..2 + ReadSize(s)]
  }

  function After(s: seq<byte>): (r: seq<byte>)
    requires Whole(s)
    ensures |r| < |s|
  {
    s[2 + ReadSize(s)..]
  }

  /** The whole packets at the front of a stream. */
  function Frames(s: seq<byte>): seq<seq<byte>>
    decreases |s|
  {
    if Whole(s) then [First(s)] + Frames(After(s)) else []
  }

  /** What follows them. */
  function Rest(s: seq<byte>): (r: seq<byte>)
    decreases |s|
  {
    if Whole(s) then Rest(After(s)) else s
  }

  lemma WholeFront(s: seq<byte>, t: seq<byte>)
    requires Whole(s)
    ensures Whole(s + t) && First(s + t) == First(s) && After(s + t) == After(s) + t
  {
  }

  /** Taking the packets off early changes nothing. */
  lemma {:induction false} FramesAppend(s: seq<byte>, t: seq<byte>)
    ensures Frames(s + t) == Frames(s) + Frames(Rest(s) + t)
    ensures Rest(s + t) == Rest(Rest(s) + t)
    decreases |s|
  {
    if Whole(s) {
      FramesAppend(After(s), t);
      WholeFront(s, t);
      assert ([First(s)] + Frames(After(s))) + Frames(Rest(s) + t)
        == [First(s)] + (Frames(After(s)) + Frames(Rest(s) + t));
    }
  }

  /** Sending packets one behind the other and reading them back. */
  function Framed(ps: seq<seq<byte>>): seq<byte>
    requires forall k :: 0 <= k < |ps| ==> |ps[k]| < 65536
  {
    if ps == [] then [] else [|ps[0]| / 256, |ps[0]| % 256] + ps[0] + Framed(ps[1..])
  }

  lemma {:induction false} FramesOfFramed(ps: seq<seq<byte>>)
    requires forall k :: 0 <= k < |ps| ==> |ps[k]| < 65536
    ensures Frames(Framed(ps)) == ps && Rest(Framed(ps)) == []
  {
    if ps != [] {
      var s, p, tail := Framed(ps), ps[0], Framed(ps[1..]);
      assert s == [|p| / 256, |p| % 256] + p + tail;
      assert ReadSize(s) == |p| && First(s) == p && After(s) == tail;
      FramesOfFramed(ps[1..]);
      assert ps == [p] + ps[1..];
    }
  }

  // ---- Partial packets ----------------------------------------------------------------------

  /** A partial packet: `read` bytes of `size` are there, or it is -1, and then only the first
    byte of the length is. */
  datatype Uncomplete = Uncomplete(id: int, read: int, header: byte, size: nat, buffer: seq<byte>)

  predicate Partial(uc: Uncomplete)
  {
    if uc.read < 0 then uc.read == -1 else uc.read == |uc.buffer| < uc.size < 65536
  }

  /** The bytes of the stream that a partial packet stands for. */
  function Raw(uc: Uncomplete): seq<byte>
    requires Partial(uc)
  {
    if uc.read < 0 then [uc.header] else [uc.size / 256, uc.size % 256] + uc.buffer
  }

  function HashFd(fd: int): (h: nat)
    ensures h < HASHSIZE
  {
    (fd / 0x100_0000 + fd / 0x1000 + fd) % HASHSIZE
  }

  ghost predicate Chain(c: seq<Uncomplete>, h: nat)
  {
    && (forall k :: 0 <= k < |c| ==> Partial(c[k]) && HashFd(c[k].id) == h)
    && (forall j, k :: 0 <= j < k < |c| ==> c[j].id != c[k].id)
  }

  ghost predicate Absent(c: seq<Uncomplete>, fd: int) { forall k :: 0 <= k < |c| ==> c[k].id != fd }

  /** The bytes that a chain holds of a stream. */
  ghost function Held(c: seq<Uncomplete>, fd: int): seq<byte>
  {
    if c == [] then [] else if c[0].id == fd && Partial(c[0]) then Raw(c[0]) else Held(c[1..], fd)
  }

  lemma {:induction false} HeldAt(c: seq<Uncomplete>, k: nat, h: nat)
    requires Chain(c, h) && k < |c|
    ensures Held(c, c[k].id) == Raw(c[k])
  {
    if k > 0 {
      assert c[1..][k - 1] == c[k];
      HeldAt(c[1..], k - 1, h);
    }
  }

  lemma {:induction false} HeldNone(c: seq<Uncomplete>, fd: int)
    requires Absent(c, fd)
    ensures Held(c, fd) == []
  {
    if c != [] { HeldNone(c[1..], fd); }
  }

  lemma {:induction false} HeldOther(c: seq<Uncomplete>, k: nat, fd: int)
    requires k < |c| && c[k].id != fd
    ensures Held(c[..k] + c[k + 1..], fd) == Held(c, fd)
  {
    var d := c[..k] + c[k + 1..];
    if k == 0 {
      assert d == c[1..];
    } else {
      HeldOther(c[1..], k - 1, fd);
      assert d[0] == c[0] && d[1..] == c[1..][..k - 1] + c[1..][k..];
    }
  }

  /** The front of a stream in pieces: the length's two bytes are the size. */
  lemma SizeBytes(n: nat, s: seq<byte>)
    requires n < 65536
    ensures n / 256 < 256 && ReadSize([n / 256, n % 256] + s) == n
    ensures |s| < n ==> !Whole([n / 256, n % 256] + s)
    ensures |s| >= n ==>
      Whole([n / 256, n % 256] + s) && First([n / 256, n % 256] + s) == s[..n]
      && After([n / 256, n % 256] + s) == s[n..]
  {
    var t: seq<byte> := [n / 256, n % 256] + s;
    assert t[0] == n / 256 && t[1] == n % 256 && t[2..] == s;
    if |s| >= n { assert t[2..2 + n] == s[..n] && t[2 + n..] == s[n..]; }
  }

  // ---- The queue ----------------------------------------------------------------------------

  datatype Packet = Packet(id: int, data: seq<byte>)

  function Tagged(fd: int, ps: seq<seq<byte>>): (r: seq<Packet>)
    ensures |r| == |ps|
  {
    if ps == [] then [] else [Packet(fd, ps[0])] + Tagged(fd, ps[1..])
  }

  lemma TaggedNext(fd: int, p: seq<byte>, ps: seq<seq<byte>>, before: seq<Packet>)
    ensures before + Tagged(fd, [p] + ps) == (before + [Packet(fd, p)]) + Tagged(fd, ps)
  {
    assert ([p] + ps)[1..] == ps;
  }

  /** What `filter` hands to its caller: nothing, one packet, or word that there are more in the
    queue. */
  datatype Emission = Nothing | Data(packet: Packet) | More

  function Ring<T>(a: seq<T>, head: nat, tail: nat): seq<T>
    requires head < |a| && tail < |a|
  {
    if head <= tail then a[head..tail] else a[head..] + a[..tail]
  }

  lemma WrapIndex(head: nat, i: nat, cap: nat)
    requires head < cap && i < cap
    ensures (head + i) % cap == if head + i < cap then head + i else head + i - cap
  {
    if head + i >= cap { assert head + i == cap + (head + i - cap); }
  }

  class Queue {
    var cap: nat
    var head: nat
    var tail: nat
    var ring: array<Packet>
    var hash: array<seq<Uncomplete>>

    ghost predicate RingValid()
      reads this`cap, this`head, this`tail, this`ring
    {
      ring.Length == cap && head < cap && tail < cap
    }

    ghost predicate HashValid()
      reads this`hash, hash
    {
      hash.Length == HASHSIZE && forall h :: 0 <= h < HASHSIZE ==> Chain(hash[h], h)
    }

    ghost function Queued(): seq<Packet>
      requires RingValid()
      reads this`cap, this`head, this`tail, this`ring, ring
    {
      Ring(ring[..], head, tail)
    }

    /** What is held of the stream of `fd`. */
    ghost function Pending(fd: int): seq<byte>
      requires HashValid()
      reads this`hash, hash
    {
      Held(hash[HashFd(fd)], fd)
    }

    ghost predicate NoneOf(fd: int)
      requires HashValid()
      reads this`hash, hash
    {
      Absent(hash[HashFd(fd)], fd)
    }

    constructor ()
      ensures RingValid() && HashValid() && fresh(ring) && fresh(hash)
      ensures Queued() == [] && forall fd :: Pending(fd) == []
    {
      cap, head, tail := QUEUESIZE, 0, 0;
      ring := new Packet[QUEUESIZE];
      hash := new seq<Uncomplete>[HASHSIZE](i => []);
    }

    /** `expand_queue`: what wrapped around is straightened out into a larger ring. */
    method Expand()
      requires RingValid() && head == tail
      modifies this`cap, this`head, this`tail, this`ring
      ensures RingValid() && fresh(ring) && cap == old(cap) + QUEUESIZE
      ensures Queued() == old(ring[head..] + ring[..head])
    {
      ghost var all := ring[head..] + ring[..head];
      var nq := new Packet[cap + QUEUESIZE];
      var i := 0;
      while i < cap
        invariant 0 <= i <= cap && nq[..i] == all[..i]
        modifies nq
      {
        WrapIndex(head, i, cap);
        var idx := (head + i) % cap;
        assert ring[idx] == all[i];
        nq[i] := ring[idx];
        i := i + 1;
      }
      ring, head, tail, cap := nq, 0, cap, cap + QUEUESIZE;
      assert all[..i] == all;
    }

    /** `push_data`. */
    method PushData(fd: int, data: seq<byte>)
      requires RingValid()
      modifies this`cap, this`head, this`tail, this`ring, ring
      ensures RingValid() && (ring == old(ring) || fresh(ring))
      ensures Queued() == old(Queued()) + [Packet(fd, data)]
    {
      ghost var before := Queued();
      ring[tail] := Packet(fd, data);
      tail := tail + 1;
      if tail >= cap { tail := tail - cap; }
      if head == tail {
        assert ring[head..] + ring[..head] == before + [Packet(fd, data)];
        Expand();
      }
    }

    /** `lpop`. */
    method Pop() returns (r: Option<Packet>)
      requires RingValid()
      modifies this`head
      ensures RingValid()
      ensures if old(Queued()) == [] then r == None && Queued() == []
              else r == Some(old(Queued())[0]) && Queued() == old(Queued())[1..]
    {
      if head == tail { return None; }
      r := Some(ring[head]);
      head := head + 1;
      if head >= cap { head := 0; }
    }

    /** `find_uncomplete`: what is found is taken out of its chain. */
    method FindUncomplete(fd: int) returns (r: Option<Uncomplete>)
      requires HashValid()
      modifies hash
      ensures HashValid() && NoneOf(fd) && forall g :: g != fd ==> Pending(g) == old(Pending(g))
      ensures if r.Some? then Partial(r.value) && r.value.id == fd && Raw(r.value) == old(Pending(fd))
              else old(Pending(fd)) == []
    {
      var h := HashFd(fd);
      var c := hash[h];
      var i := 0;
      while i < |c|
        invariant 0 <= i <= |c| && forall k :: 0 <= k < i ==> c[k].id != fd
      {
        if c[i].id == fd {
          HeldAt(c, i, h);
          hash[h] := c[..i] + c[i + 1..];
          forall g | g != fd ensures Pending(g) == old(Pending(g)) { HeldOther(c, i, g); }
          return Some(c[i]);
        }
        i := i + 1;
      }
      HeldNone(c, fd);
      r := None;
    }

    /** `save_uncomplete`, and putting a partial packet back. */
    method Save(uc: Uncomplete)
      requires HashValid() && NoneOf(uc.id) && Partial(uc)
      modifies hash
      ensures HashValid() && Pending(uc.id) == Raw(uc) && forall g :: g != uc.id ==> Pending(g) == old(Pending(g))
    {
      var h := HashFd(uc.id);
      hash[h] := [uc] + hash[h];
      assert hash[h][1..] == old(hash[h]);
    }

    /** `push_more`: the chunk begins with a packet. */
    method PushMore(fd: int, s: seq<byte>)
      requires RingValid() && HashValid() && NoneOf(fd) && s != []
      modifies this`cap, this`head, this`tail, this`ring, ring, hash
      ensures RingValid() && HashValid() && (ring == old(ring) || fresh(ring))
      ensures Queued() == old(Queued()) + Tagged(fd, Frames(s))
      ensures Pending(fd) == Rest(s) && forall g :: g != fd ==> Pending(g) == old(Pending(g))
      decreases |s|
    {
      if |s| == 1 {
        Save(Uncomplete(fd, -1, s[0], 0, []));
        return;
      }
      var size, t := ReadSize(s), s[2..];
      SizeBytes(size, t);
      assert s == [size / 256, size % 256] + t;
      if |t| < size {
        Save(Uncomplete(fd, |t|, 0, size, t));
        return;
      }
      ghost var before := Queued();
      PushData(fd, t[..size]);
      TaggedNext(fd, t[..size], Frames(t[size..]), before);
      t := t[size..];
      if |t| > 0 { PushMore(fd, t); } else { HeldNone(hash[HashFd(fd)], fd); }
    }

    /** `filter_data_`: the chunk comes after what is held of the stream. A single packet that
      nothing follows is returned; otherwise the packets go into the queue. */
    method FilterData(fd: int, s: seq<byte>) returns (e: Emission)
      requires RingValid() && HashValid() && s != []
      modifies this`cap, this`head, this`tail, this`ring, ring, hash
      ensures RingValid() && HashValid() && (ring == old(ring) || fresh(ring))
      ensures var all := old(Pending(fd)) + s;
        && Pending(fd) == Rest(all) && Answer(fd, all, e)
        && Queued() == old(Queued()) + (if e == More then Tagged(fd, Frames(all)) else [])
      ensures forall g :: g != fd ==> Pending(g) == old(Pending(g))
    {
      var found := FindUncomplete(fd);
      ghost var all := old(Pending(fd)) + s;
      if found == None {
        assert all == s;
        e := FilterFirst(fd, s);
        return;
      }
      var uc, t := found.value, s;
      if uc.read < 0 {
        var size := (s[0] as nat) + (uc.header as nat) * 256;
        uc, t := uc.(size := size, buffer := [], read := 0), s[1..];
        assert size / 256 == uc.header && size % 256 == s[0];
      }
      e := FilterRest(fd, uc, t, all);
    }

    /** The branch of `filter_data_` that completes a packet. */
    method FilterRest(fd: int, uc: Uncomplete, s: seq<byte>, ghost all: seq<byte>) returns (e: Emission)
      requires RingValid() && HashValid() && NoneOf(fd) && uc.id == fd && uc.read == |uc.buffer| <= uc.size < 65536
      requires all == [uc.size / 256, uc.size % 256] + uc.buffer + s
      modifies this`cap, this`head, this`tail, this`ring, ring, hash
      ensures RingValid() && HashValid() && (ring == old(ring) || fresh(ring))
      ensures Pending(fd) == Rest(all) && Answer(fd, all, e)
      ensures Queued() == old(Queued()) + (if e == More then Tagged(fd, Frames(all)) else [])
      ensures forall g :: g != fd ==> Pending(g) == old(Pending(g))
    {
      SizeBytes(uc.size, uc.buffer + s);
      assert all == [uc.size / 256, uc.size % 256] + (uc.buffer + s);
      var need := uc.size - uc.read;
      if |s| < need {
        Save(uc.(buffer := uc.buffer + s, read := uc.read + |s|));
        return Nothing;
      }
      var data, t := uc.buffer + s[..need], s[need..];
      assert First(all) == data && After(all) == t;
      e := Hand(fd, data, t, all);
    }

    /** The branch of `filter_data_` for a chunk at the start of a packet. */
    method FilterFirst(fd: int, s: seq<byte>) returns (e: Emission)
      requires RingValid() && HashValid() && NoneOf(fd) && s != []
      modifies this`cap, this`head, this`tail, this`ring, ring, hash
      ensures RingValid() && HashValid() && (ring == old(ring) || fresh(ring))
      ensures Pending(fd) == Rest(s) && Answer(fd, s, e)
      ensures Queued() == old(Queued()) + (if e == More then Tagged(fd, Frames(s)) else [])
      ensures forall g :: g != fd ==> Pending(g) == old(Pending(g))
    {
      if |s| == 1 {
        Save(Uncomplete(fd, -1, s[0], 0, []));
        return Nothing;
      }
      var size, t := ReadSize(s), s[2..];
      SizeBytes(size, t);
      assert s == [size / 256, size % 256] + t;
      if |t| < size {
        Save(Uncomplete(fd, |t|, 0, size, t));
        return Nothing;
      }
      e := Hand(fd, t[..size], t[size..], s);
    }

    /** A packet is complete: it is returned, or queued with what follows. */
    method Hand(fd: int, data: seq<byte>, t: seq<byte>, ghost all: seq<byte>) returns (e: Emission)
      requires RingValid() && HashValid() && NoneOf(fd) && Whole(all) && First(all) == data && After(all) == t
      modifies this`cap, this`head, this`tail, this`ring, ring, hash
      ensures RingValid() && HashValid() && (ring == old(ring) || fresh(ring))
      ensures Pending(fd) == Rest(all) && Answer(fd, all, e)
      ensures Queued() == old(Queued()) + (if e == More then Tagged(fd, Frames(all)) else [])
      ensures forall g :: g != fd ==> Pending(g) == old(Pending(g))
    {
      assert Frames(all) == [data] + Frames(t) && Rest(all) == Rest(t);
      if t == [] {
        HeldNone(hash[HashFd(fd)], fd);
        return Data(Packet(fd, data));
      }
      PushData(fd, data);
      PushMore(fd, t);
      assert Tagged(fd, [data] + Frames(t)) == [Packet(fd, data)] + Tagged(fd, Frames(t));
      e := More;
    }

    /** `close_uncomplete`. */
    method Close(fd: int)
      requires HashValid()
      modifies hash
      ensures HashValid() && Pending(fd) == [] && forall g :: g != fd ==> Pending(g) == old(Pending(g))
    {
      var _ := FindUncomplete(fd);
      HeldNone(hash[HashFd(fd)], fd);
    }
  }

  /** What the caller is told of the packets that the bytes make. */
  ghost predicate Answer(fd: int, all: seq<byte>, e: Emission)
  {
    e == if Frames(all) == [] then Nothing
         else if |Frames(all)| == 1 && Rest(all) == [] then Data(Packet(fd, Frames(all)[0])) else More
  }

  // ---- Whole runs ---------------------------------------------------------------------------

  datatype Chunk = Chunk(fd: int, bytes: seq<byte>)

  /** The stream of `fd`. */
  function StreamOf(chunks: seq<Chunk>, fd: int): seq<byte>
  {
    if chunks == [] then [] else
      var n := |chunks| - 1;
      StreamOf(chunks[..n], fd) + if chunks[n].fd == fd then chunks[n].bytes else []
  }

  /** The packets of `fd` in what was handed on. */
  function DataOf(log: seq<Packet>, fd: int): seq<seq<byte>>
  {
    if log == [] then [] else
      var n := |log| - 1;
      DataOf(log[..n], fd) + if log[n].id == fd then [log[n].data] else []
  }

  lemma {:induction false} DataOfConcat(log: seq<Packet>, more: seq<Packet>, fd: int)
    ensures DataOf(log + more, fd) == DataOf(log, fd) + DataOf(more, fd)
  {
    if more == [] {
      assert log + more == log;
    } else {
      var n := |more| - 1;
      DataOfConcat(log, more[..n], fd);
      assert (log + more)[..|log| + n] == log + more[..n];
    }
  }

  lemma {:induction false} DataOfTagged(g: int, ps: seq<seq<byte>>, fd: int)
    ensures DataOf(Tagged(g, ps), fd) == if g == fd then ps else []
  {
    if ps != [] {
      DataOfTagged(g, ps[1..], fd);
      DataOfConcat([Packet(g, ps[0])], Tagged(g, ps[1..]), fd);
      assert DataOf([Packet(g, ps[0])], fd) == (if g == fd then [ps[0]] else []) by {
        assert [Packet(g, ps[0])][..0] == [];
      }
    }
  }

  /** What one chunk adds to the packets of a stream. */
  lemma ChunkAdds(chunks: seq<Chunk>, i: nat, log: seq<Packet>, fd: int)
    requires i < |chunks|
    requires DataOf(log, fd) == Frames(StreamOf(chunks[..i], fd))
    ensures var c, held := chunks[i], Rest(StreamOf(chunks[..i], chunks[i].fd));
      && DataOf(log + Tagged(c.fd, Frames(held + c.bytes)), fd) == Frames(StreamOf(chunks[..i + 1], fd))
      && Rest(StreamOf(chunks[..i + 1], fd))
        == if c.fd == fd then Rest(held + c.bytes) else Rest(StreamOf(chunks[..i], fd))
  {
    var c, s := chunks[i], StreamOf(chunks[..i], fd);
    var held := Rest(StreamOf(chunks[..i], c.fd));
    assert chunks[..i + 1][..i] == chunks[..i];
    FramesAppend(s, c.bytes);
    DataOfTagged(c.fd, Frames(held + c.bytes), fd);
    DataOfConcat(log, Tagged(c.fd, Frames(held + c.bytes)), fd);
    assert s + [] == s;
  }

  lemma FirstOver<T>(front: seq<T>, rest: seq<T>)
    requires rest != []
    ensures (front + [rest[0]]) + rest[1..] == front + rest
  {
  }

  /** Emptying the queue, as its users do. */
  method PopAll(q: Queue) returns (log: seq<Packet>)
    requires q.RingValid()
    modifies q`head
    ensures q.RingValid() && q.Queued() == [] && log == old(q.Queued())
  {
    log := [];
    ghost var rest := q.Queued();
    while true
      invariant q.RingValid() && q.Queued() == rest && log + rest == old(q.Queued())
      decreases |rest|
    {
      var r := q.Pop();
      if r == None { return; }
      FirstOver(log, rest);
      log, rest := log + [r.value], rest[1..];
    }
  }

  /** One chunk, with the queue emptied after it. */
  method Take(q: Queue, c: Chunk) returns (ps: seq<Packet>)
    requires q.RingValid() && q.HashValid() && q.Queued() == [] && c.bytes != []
    modifies q`cap, q`head, q`tail, q`ring, q.ring, q.hash
    ensures q.RingValid() && q.HashValid() && q.Queued() == [] && (q.ring == old(q.ring) || fresh(q.ring))
    ensures ps == Tagged(c.fd, Frames(old(q.Pending(c.fd)) + c.bytes))
    ensures q.Pending(c.fd) == Rest(old(q.Pending(c.fd)) + c.bytes)
    ensures forall g :: g != c.fd ==> q.Pending(g) == old(q.Pending(g))
  {
    ghost var all := q.Pending(c.fd) + c.bytes;
    var e := q.FilterData(c.fd, c.bytes);
    match e {
      case Nothing => ps := [];
      case Data(p) =>
        ps := [p];
        assert Frames(all) == [p.data] && Tagged(c.fd, [p.data]) == [p] + Tagged(c.fd, [p.data][1..]);
      case More => ps := PopAll(q);
    }
  }

  /** However the streams are cut into chunks, and however those of different streams alternate:
    what is handed on of each stream are the packets that its bytes make, and what is held is the
    rest of it. */
  method Filter(chunks: seq<Chunk>) returns (log: seq<Packet>, q: Queue)
    requires forall k :: 0 <= k < |chunks| ==> chunks[k].bytes != []
    ensures q.RingValid() && q.HashValid() && q.Queued() == []
    ensures forall fd :: DataOf(log, fd) == Frames(StreamOf(chunks, fd))
    ensures forall fd :: q.Pending(fd) == Rest(StreamOf(chunks, fd))
  {
    q := new Queue();
    log := [];
    var i := 0;
    while i < |chunks|
      invariant 0 <= i <= |chunks| && fresh(q) && fresh(q.ring) && fresh(q.hash)
      invariant q.RingValid() && q.HashValid() && q.Queued() == []
      invariant forall fd :: DataOf(log, fd) == Frames(StreamOf(chunks[..i], fd))
      invariant forall fd :: q.Pending(fd) == Rest(StreamOf(chunks[..i], fd))
    {
      ghost var before := log;
      var ps := Take(q, chunks[i]);
      log := log + ps;
      forall fd ensures DataOf(log, fd) == Frames(StreamOf(chunks[..i + 1], fd))
                ensures q.Pending(fd) == Rest(StreamOf(chunks[..i + 1], fd)) {
        ChunkAdds(chunks, i, before, fd);
      }
      i := i + 1;
    }
    assert chunks[..i] == chunks;
  }

  // ---- Any order of chunks and pops ---------------------------------------------------------

  datatype Event = Arrive(chunk: Chunk) | TakeOne

  /** The chunks among the events. */
  function ChunksOf(events: seq<Event>): seq<Chunk>
  {
    if events == [] then [] else
      var n := |events| - 1;
      ChunksOf(events[..n]) + if events[n].Arrive? then [events[n].chunk] else []
  }

  /** `c` takes its elements from `a` and `b`, those of each in order. */
  ghost predicate Merged<T>(a: seq<T>, b: seq<T>, c: seq<T>)
    decreases |c|
  {
    if c == [] then a == [] && b == [] else
      var n := |c| - 1;
      || (a != [] && a[|a| - 1] == c[n] && Merged(a[..|a| - 1], b, c[..n]))
      || (b != [] && b[|b| - 1] == c[n] && Merged(a, b[..|b| - 1], c[..n]))
  }

  lemma MergedOne<T>(a: seq<T>, b: seq<T>, c: seq<T>, x: T)
    requires Merged(a, b, c)
    ensures Merged(a + [x], b, c + [x]) && Merged(a, b + [x], c + [x])
  {
    assert (a + [x])[..|a|] == a && (b + [x])[..|b|] == b && (c + [x])[..|c|] == c;
  }

  lemma {:induction false} MergedMore<T>(a: seq<T>, b: seq<T>, c: seq<T>, more: seq<T>)
    requires Merged(a, b, c)
    ensures Merged(a, b + more, c + more)
  {
    if more == [] {
      assert b + more == b && c + more == c;
    } else {
      var n := |more| - 1;
      MergedMore(a, b, c, more[..n]);
      MergedOne(a, b + more[..n], c + more[..n], more[n]);
      assert b + more == b + more[..n] + [more[n]] && c + more == c + more[..n] + [more[n]];
    }
  }

  /** What the events have emitted of each stream so far. */
  ghost predicate Emitted(chunks: seq<Chunk>, log: seq<Packet>, q: Queue)
    requires q.HashValid()
    reads q`hash, q.hash
  {
    && (forall fd :: DataOf(log, fd) == Frames(StreamOf(chunks, fd)))
    && (forall fd :: q.Pending(fd) == Rest(StreamOf(chunks, fd)))
  }

  lemma EmittedMore(chunks: seq<Chunk>, c: Chunk, log: seq<Packet>, held: seq<byte>, ps: seq<Packet>, fd: int)
    requires DataOf(log, fd) == Frames(StreamOf(chunks, fd)) && held == Rest(StreamOf(chunks, c.fd))
    requires ps == Tagged(c.fd, Frames(held + c.bytes))
    ensures DataOf(log + ps, fd) == Frames(StreamOf(chunks + [c], fd))
    ensures Rest(StreamOf(chunks + [c], fd)) == if c.fd == fd then Rest(held + c.bytes) else Rest(StreamOf(chunks, fd))
  {
    var all := chunks + [c];
    assert all[..|chunks|] == chunks && all[..|chunks| + 1] == all && all[|chunks|] == c;
    ChunkAdds(all, |chunks|, log, fd);
  }

  /** One more chunk: what it emits, whichever way. */
  method Filtered(q: Queue, c: Chunk, ghost chunks: seq<Chunk>, ghost log: seq<Packet>)
    returns (e: Emission, ghost ps: seq<Packet>)
    requires q.RingValid() && q.HashValid() && c.bytes != [] && Emitted(chunks, log, q)
    modifies q`cap, q`head, q`tail, q`ring, q.ring, q.hash
    ensures q.RingValid() && q.HashValid() && (q.ring == old(q.ring) || fresh(q.ring))
    ensures Emitted(chunks + [c], log + ps, q)
    ensures q.Queued() == old(q.Queued()) + if e == More then ps else []
    ensures e == Nothing ==> ps == []
    ensures e.Data? ==> ps == [e.packet]
  {
    ghost var held := q.Pending(c.fd);
    e := q.FilterData(c.fd, c.bytes);
    ps := Tagged(c.fd, Frames(held + c.bytes));
    if e.Data? { TaggedOne(c.fd, Frames(held + c.bytes)); }
    forall fd ensures DataOf(log + ps, fd) == Frames(StreamOf(chunks + [c], fd))
              ensures q.Pending(fd) == Rest(StreamOf(chunks + [c], fd)) {
      EmittedMore(chunks, c, log, held, ps, fd);
    }
  }

  lemma TaggedOne(fd: int, ps: seq<seq<byte>>)
    requires |ps| == 1
    ensures Tagged(fd, ps) == [Packet(fd, ps[0])]
  {
    assert Tagged(fd, ps[1..]) == [];
  }

  /** A run so far: what the calls emitted of each stream are its packets in order; each of them was
    returned, or popped, or is still in the queue, and these two in order. */
  ghost predicate Served(events: seq<Event>, direct: seq<Packet>, popped: seq<Packet>, log: seq<Packet>, q: Queue)
    reads q, q.ring, q.hash
  {
    q.RingValid() && q.HashValid() && forall n :: Look(n) ==>
      Emitted(ChunksOf(events), log, q) && Merged(direct, popped + q.Queued(), log)
  }

  lemma ChunksNext(events: seq<Event>, e: Event)
    ensures ChunksOf(events + [e]) == ChunksOf(events) + if e.Arrive? then [e.chunk] else []
  {
    assert (events + [e])[..|events|] == events;
  }

  /** A chunk comes. */
  method ServeChunk(q: Queue, c: Chunk, ghost events: seq<Event>, direct: seq<Packet>, ghost popped: seq<Packet>,
                    ghost log: seq<Packet>)
    returns (direct': seq<Packet>, ghost log': seq<Packet>)
    requires Served(events, direct, popped, log, q) && c.bytes != []
    modifies q`cap, q`head, q`tail, q`ring, q.ring, q.hash
    ensures Served(events + [Arrive(c)], direct', popped, log', q) && (q.ring == old(q.ring) || fresh(q.ring))
  {
    assert Look(0);
    ChunksNext(events, Arrive(c));
    ghost var queue := q.Queued();
    ghost var ps;
    var e;
    e, ps := Filtered(q, c, ChunksOf(events), log);
    log' := log + ps;
    direct' := if e.Data? then direct + [e.packet] else direct;
    MergedStep(direct, popped, queue, log, e, ps);
  }

  lemma MergedStep(direct: seq<Packet>, popped: seq<Packet>, queue: seq<Packet>, log: seq<Packet>, e: Emission,
                   ps: seq<Packet>)
    requires Merged(direct, popped + queue, log)
    requires (e == Nothing ==> ps == []) && (e.Data? ==> ps == [e.packet])
    ensures Merged(if e.Data? then direct + [e.packet] else direct,
                   popped + (queue + if e == More then ps else []), log + ps)
  {
    match e {
      case Nothing => assert queue + [] == queue && log + [] == log;
      case Data(p) =>
        MergedOne(direct, popped + queue, log, p);
        assert queue + [] == queue;
      case More =>
        MergedMore(direct, popped + queue, log, ps);
        assert (popped + queue) + ps == popped + (queue + ps);
    }
  }

  /** A packet is taken. */
  method ServePop(q: Queue, ghost events: seq<Event>, ghost direct: seq<Packet>, popped: seq<Packet>,
                  ghost log: seq<Packet>)
    returns (popped': seq<Packet>)
    requires Served(events, direct, popped, log, q)
    modifies q`head
    ensures Served(events + [TakeOne], direct, popped', log, q)
  {
    assert Look(0);
    ChunksNext(events, TakeOne);
    ghost var queue := q.Queued();
    var r := q.Pop();
    popped' := popped;
    if r.Some? {
      FirstOver(popped, queue);
      popped' := popped + [r.value];
    }
    assert ChunksOf(events) + [] == ChunksOf(events);
  }

  /** Any run of chunks and pops. */
  method Serve(events: seq<Event>) returns (direct: seq<Packet>, popped: seq<Packet>, q: Queue, ghost log: seq<Packet>)
    requires forall k :: 0 <= k < |events| && events[k].Arrive? ==> events[k].chunk.bytes != []
    ensures Served(events, direct, popped, log, q)
  {
    q := new Queue();
    direct, popped, log := [], [], [];
    var i := 0;
    assert events[..0] == [];
    while i < |events|
      invariant 0 <= i <= |events| && fresh(q) && fresh(q.ring) && fresh(q.hash)
      invariant Served(events[..i], direct, popped, log, q)
    {
      assert events[..i + 1] == events[..i] + [events[i]];
      match events[i] {
        case Arrive(c) => direct, log := ServeChunk(q, c, events[..i], direct, popped, log);
        case TakeOne => popped := ServePop(q, events[..i], direct, popped, log);
      }
      i := i + 1;
    }
    assert events[..i] == events;
  }

  lemma OnePacket(x: byte, t: seq<byte>)
    ensures Frames([0, 1, x] + t) == [[x]] + Frames(t) && Rest([0, 1, x] + t) == Rest(t)
  {
    var s: seq<byte> := [0, 1, x] + t;
    assert ReadSize(s) == 1 && First(s) == [x] && After(s) == t;
  }

  /** A chunk with two packets. */
  method TwoQueued() returns (q: Queue)
    ensures q.RingValid() && q.HashValid() && q.Queued() == [Packet(7, [1]), Packet(7, [2])] && q.Pending(7) == []
    ensures fresh(q) && fresh(q.ring) && fresh(q.hash)
  {
    q := new Queue();
    var s: seq<byte> := [0, 1, 1, 0, 1, 2];
    OnePacket(2, []);
    OnePacket(1, [0, 1, 2]);
    assert s == [0, 1, 1] + [0, 1, 2] && [0, 1, 2] == [0, 1, 2] + [] && [] + s == s;
    assert Frames(s) == [[1], [2]] && Rest(s) == [];
    TaggedOne(7, [[2]]);
    assert [[1], [2]][1..] == [[2]];
    assert Tagged(7, Frames(s)) == [Packet(7, [1]), Packet(7, [2])];
    var _ := q.FilterData(7, s);
  }

  /** The order of a stream's packets is only that of the calls: with the two packets of the first
    chunk in the queue, the one of the next is returned before them. */
  method Overtaken() returns (q: Queue, e: Emission)
    ensures q.RingValid() && e == Data(Packet(7, [3])) && q.Queued() == [Packet(7, [1]), Packet(7, [2])]
  {
    q := TwoQueued();
    ghost var two := q.Queued();
    var t: seq<byte> := [0, 1, 3];
    OnePacket(3, []);
    assert t == [0, 1, 3] + [] && [] + t == t;
    e := q.FilterData(7, t);
    assert two + [] == two;
  }
}
