/** Actors on any number of threads: contexts, their queues and the global list of queues
  (`skynet_server.c`, `skynet_mq.c`, `skynet_handle.c`) as a step system.

  A step is one locked section or one atomic access. An activity is whatever a thread is in the
  middle of; a callback that sends, kills or creates is an activity beside others. Memory is
  sequentially consistent, and a handle is not issued again. */
module Scheduler {
  import opened Basics
  import opened MessageQueues

  type Handle = nat

  type Thread = nat

  /** `Dying`: the last reference is gone and `delete_context` is on its way; `Marked`: it has marked
    the queue; `Gone`: it has freed the context. */
  datatype Phase = Alive | Dying | Marked | Gone

  datatype Fate = Dispatched | Dropped

  /** A context and its queue. `slotted`: the handle table refers to the context. `pushed`, `taken`,
    `fates` and `replies` only record what happened to the messages, and for which of those dropped
    an error was sent to the sender. */
  datatype Service = Service(
    ref: int, slotted: bool, init: bool, phase: Phase,
    queue: Mailbox, freed: bool,
    pushed: seq<Message>, taken: seq<Message>, fates: seq<Fate>, replies: seq<Message>)

  /** What a thread is in the middle of. */
  datatype Activity =
    | Idle
    // skynet_context_push: the context was grabbed; the message was pushed (or nothing is to do but
    // to release the context)
    | Sending(h: Handle, m: Message)
    | Leaving(h: Handle)
    // skynet_context_message_dispatch
    | Holding(h: Handle)
    | Refused(h: Handle)
    | Serving(h: Handle)
    | Running(h: Handle, m: Message)
    | Ending(h: Handle)
    | Swapping(h: Handle, q: Handle)
    | Ended(h: Handle, q: Handle)
    // skynet_mq_release of a queue whose context is gone
    | Dropping(h: Handle)
    | Emptied(h: Handle)
    // drop_message: an error is to be sent for `m`, was grabbed a context for, was pushed there
    | Replying(h: Handle, m: Message)
    | Posting(h: Handle, q: Handle, m: Message)
    | Posted(h: Handle, q: Handle)
    // skynet_context_new
    | Creating(h: Handle)
    | Created(h: Handle)
    | Live(h: Handle)
    | Launching(h: Handle, alive: bool)
    | Announcing(h: Handle)
    | Failing(h: Handle)
    | Failed(h: Handle)
    | Retired(h: Handle)

  /** The activity counts in the context's `ref`. */
  predicate Holds(a: Activity, h: Handle)
  {
    match a
    case Sending(k, _) => k == h
    case Leaving(k) => k == h
    case Serving(k) => k == h
    case Running(k, _) => k == h
    case Ending(k) => k == h
    case Swapping(k, _) => k == h
    case Ended(k, _) => k == h
    case Posting(k, _, _) => k == h
    case Posted(k, _) => k == h
    case Creating(k) => k == h
    case Created(k) => k == h
    case Failing(k) => k == h
    case Retired(k) => k == h
    case _ => false
  }

  /** The activity has the queue to itself. */
  predicate Owns(a: Activity, h: Handle)
  {
    match a
    case Holding(k) => k == h
    case Refused(k) => k == h
    case Serving(k) => k == h
    case Running(k, _) => k == h
    case Ending(k) => k == h
    case Swapping(k, q) => k == h || q == h
    case Ended(_, q) => q == h
    case Dropping(k) => k == h
    case Emptied(k) => k == h
    case Replying(k, _) => k == h
    case Posting(_, q, _) => q == h
    case Posted(_, q) => q == h
    case Creating(k) => k == h
    case Created(k) => k == h
    case Live(k) => k == h
    case Launching(k, _) => k == h
    case Failing(k) => k == h
    case Failed(k) => k == h
    case Retired(k) => k == h
    case _ => false
  }

  datatype State = State(services: map<Handle, Service>, acts: map<Thread, Activity>, global: seq<Handle>)

  function Start(threads: set<Thread>): State { State(map[], map t | t in threads :: Idle, []) }

  datatype Step =
    | Send(t: Thread, h: Handle, m: Message)
    | Visit(t: Thread, h: Handle)
    | Push(t: Thread)
    | Release(t: Thread)
    | Kill(t: Thread, h: Handle)
    | PopGlobal(t: Thread)
    | GrabQueue(t: Thread)
    | HandBack(t: Thread)
    | PopMessage(t: Thread)
    | EndCallback(t: Thread, more: bool)
    | TakeNext(t: Thread)
    | PutBack(t: Thread)
    | DropOne(t: Thread)
    | Reply(t: Thread)
    | Free(t: Thread)
    | Create(t: Thread, h: Handle)
    | InitReturns(t: Thread, ok: bool)
    | WriteInit(t: Thread)
    | Launch(t: Thread)
    | Announce(t: Thread)
    | RetireFailed(t: Thread)
    | MarkRelease(h: Handle)
    | FreeContext(h: Handle)

  /** The steps of `delete_context`, whoever gave up the last reference. */
  predicate Deletes(step: Step) { step.MarkRelease? || step.FreeContext? }

  /** What the thread does after the release that ends its activity. `last`: it was the last
    reference. */
  function AfterRelease(a: Activity, last: bool): Activity
  {
    match a
    case Ended(_, q) => Holding(q)
    case Posted(_, q) => Dropping(q)
    case Created(h) => if last then Launching(h, false) else Live(h)
    case Failing(h) => Failed(h)
    case Retired(h) => Refused(h)
    case _ => Idle
  }

  /** The activity has nothing left to do with the context but to release it. */
  predicate Releasing(a: Activity)
  {
    a.Leaving? || a.Ended? || a.Posted? || a.Created? || a.Failing? || a.Retired?
  }

  predicate Enabled(s: State, step: Step)
  {
    if step.MarkRelease? then step.h in s.services && s.services[step.h].phase == Dying
    else if step.FreeContext? then step.h in s.services && s.services[step.h].phase == Marked
    else
      step.t in s.acts && var a := s.acts[step.t];
      match step
      case Send(_, h, _) => a == Idle
      case Visit(_, h) => a == Idle
      case Kill(_, h) => a == Idle
      case Create(_, h) => a == Idle && h !in s.services
      case PopGlobal(_) => a == Idle && s.global != []
      case Push(_) => a.Sending? || a.Posting?
      case Release(_) => Releasing(a)
      case GrabQueue(_) => a.Holding?
      case HandBack(_) => a.Refused?
      case PopMessage(_) => a.Serving?
      case EndCallback(_, _) => a.Running?
      case TakeNext(_) => a.Ending?
      case PutBack(_) => a.Swapping?
      case DropOne(_) => a.Dropping?
      case Reply(_) => a.Replying?
      case Free(_) => a.Emptied?
      case InitReturns(_, _) => a.Creating?
      case WriteInit(_) => a.Live?
      case Launch(_) => a.Launching?
      case Announce(_) => a.Announcing?
      case RetireFailed(_) => a.Failed?
  }

  /** `skynet_handle_grab` finds the context. */
  predicate Found(s: State, h: Handle) { h in s.services && s.services[h].slotted }

  /** The state with service `h` and thread `t` changed. */
  function Set(s: State, h: Handle, v: Service, t: Thread, a: Activity): State
  {
    s.(services := s.services[h := v], acts := s.acts[t := a])
  }

  function Become(s: State, t: Thread, a: Activity): State { s.(acts := s.acts[t := a]) }

  /** `skynet_context_release`. */
  function Unref(v: Service): Service { v.(ref := v.ref - 1, phase := if v.ref == 1 then Dying else v.phase) }

  function Grab(v: Service): Service { v.(ref := v.ref + 1) }

  /** `skynet_globalmq_push`. */
  function Listed(s: State, h: Handle): State { s.(global := s.global + [h]) }

  function Of(s: State, h: Handle): Service
  {
    if h in s.services then s.services[h]
    else Service(0, false, false, Gone, Mailbox([], false, false), false, [], [], [], [])
  }

  /** `skynet_context_new` up to the call of the module's `init`. */
  function Newborn(): Service
  {
    Service(2, true, false, Alive, Mailbox([], true, false), false, [], [], [], [])
  }

  /** The queue's first message is taken. */
  function TakeMessage(v: Service, fate: Fate): Service
    requires v.queue.messages != []
  {
    v.(queue := Popped(v.queue), taken := v.taken + [v.queue.messages[0]], fates := v.fates + [fate])
  }

  const PTYPE_ERROR: nat := 7

  /** What `drop_message` sends to the sender of a message for the service `h`. */
  function ErrorFrom(h: Handle): Message { Message(h, 0, PTYPE_ERROR) }

  /** What the step does. */
  function Next(s: State, step: Step): (r: State)
    requires Enabled(s, step)
  {
    match step
    case MarkRelease(h) =>
      // mark the queue, and give it to the workers if it is parked
      var v := Of(s, h);
      var s1 := s.(services := s.services[h := v.(phase := Marked, queue := v.queue.(release := true))]);
      if v.queue.inGlobal then s1 else Listed(s1, h)
    case FreeContext(h) => s.(services := s.services[h := Of(s, h).(phase := Gone)])
    case Send(t, h, m) => if Found(s, h) then Set(s, h, Grab(Of(s, h)), t, Sending(h, m)) else s
    case Visit(t, h) => if Found(s, h) then Set(s, h, Grab(Of(s, h)), t, Leaving(h)) else s
    case Kill(t, h) =>
      // skynet_handle_retire: the slot's reference is now the activity's
      if Found(s, h) then Set(s, h, Of(s, h).(slotted := false), t, Leaving(h)) else s
    case Create(t, h) => Set(s, h, Newborn(), t, Creating(h))
    case PopGlobal(t) => Become(s, t, Holding(s.global[0])).(global := s.global[1..])
    case _ => NextOf(s, step, step.t, s.acts[step.t])
  }

  /** The steps that go on with the activity `a` of thread `t`. */
  function NextOf(s: State, step: Step, t: Thread, a: Activity): (r: State)
    requires Enabled(s, step) && !a.Idle?
  {
    var h := a.h;
    var v := Of(s, h);
    match a
    case Sending(_, m) =>
      var s1 := Set(s, h, v.(queue := Pushed(v.queue, m), pushed := v.pushed + [m]), t, Leaving(h));
      if v.queue.inGlobal then s1 else Listed(s1, h)
    case Posting(_, q, m) =>
      var s1 := Set(s, h, v.(queue := Pushed(v.queue, m), pushed := v.pushed + [m]), t, Posted(h, q));
      if v.queue.inGlobal then s1 else Listed(s1, h)
    case Leaving(_) => Set(s, h, Unref(v), t, AfterRelease(a, v.ref == 1))
    case Ended(_, _) => Set(s, h, Unref(v), t, AfterRelease(a, v.ref == 1))
    case Posted(_, _) => Set(s, h, Unref(v), t, AfterRelease(a, v.ref == 1))
    case Created(_) => Set(s, h, Unref(v), t, AfterRelease(a, v.ref == 1))
    case Failing(_) => Set(s, h, Unref(v), t, AfterRelease(a, v.ref == 1))
    case Retired(_) => Set(s, h, Unref(v), t, AfterRelease(a, v.ref == 1))
    case Holding(_) => if v.slotted then Set(s, h, Grab(v), t, Serving(h)) else Become(s, t, Refused(h))
    case Refused(_) =>
      if v.queue.release then Become(s, t, Dropping(h)) else Listed(Become(s, t, Idle), h)
    case Serving(_) =>
      if v.queue.messages == [] then Set(s, h, v.(queue := Popped(v.queue)), t, Leaving(h))
      else Set(s, h, TakeMessage(v, Dispatched), t, Running(h, v.queue.messages[0]))
    case Running(_, _) => Become(s, t, if step.EndCallback? && step.more then Serving(h) else Ending(h))
    case Ending(_) =>
      if s.global == [] then Become(s, t, Ended(h, h))
      else Become(s, t, Swapping(h, s.global[0])).(global := s.global[1..])
    case Swapping(_, q) => Listed(Become(s, t, Ended(h, q)), h)
    case Dropping(_) =>
      if v.queue.messages == [] then Set(s, h, v.(queue := Popped(v.queue)), t, Emptied(h))
      else Set(s, h, TakeMessage(v, Dropped), t, Replying(h, v.queue.messages[0]))
    case Replying(_, m) =>
      var s1 := Set(s, h, v.(replies := v.replies + [m]), t, Dropping(h));
      if Found(s, m.source) then Set(s1, m.source, Grab(Of(s1, m.source)), t, Posting(m.source, h, ErrorFrom(h)))
      else s1
    case Emptied(_) => Set(s, h, v.(freed := true), t, Idle)
    case Creating(_) => Become(s, t, if step.InitReturns? && step.ok then Created(h) else Failing(h))
    case Live(_) =>
      // the creator has given up its reference: the context may be gone
      Set(s, h, if v.phase == Gone then v else v.(init := true), t, Launching(h, true))
    case Launching(_, alive) => Listed(Become(s, t, if alive then Announcing(h) else Idle), h)
    case Announcing(_) => Become(s, t, Idle)
    case Failed(_) =>
      if v.slotted then Set(s, h, v.(slotted := false), t, Retired(h)) else Become(s, t, Refused(h))
  }

  // ---- What every run keeps ----------------------------------------------------------------

  function Holders(s: State, h: Handle): set<Thread> { set t | t in s.acts && Holds(s.acts[t], h) }

  ghost predicate OwnedBy(s: State, h: Handle, t: Thread) { t in s.acts && Owns(s.acts[t], h) }

  ghost predicate Owned(s: State, h: Handle) { exists t :: OwnedBy(s, h, t) }

  /** Nobody has the queue: it is neither waiting for a worker nor held. */
  ghost predicate Parked(s: State, h: Handle) { h !in s.global && !Owned(s, h) }

  /** The creator has not yet set `init`. */
  predicate Unborn(a: Activity, h: Handle)
  {
    match a
    case Creating(k) => k == h
    case Created(k) => k == h
    case Live(k) => k == h
    case Failing(k) => k == h
    case Failed(k) => k == h
    case _ => false
  }

  /** `ref` counts the slot and the activities that grabbed the context, and the context lives
    until it is 0. */
  ghost predicate Counted(s: State, h: Handle, v: Service)
  {
    && v.ref == |Holders(s, h)| + (if v.slotted then 1 else 0)
    && (v.phase == Alive <==> v.ref > 0)
    && (v.phase == Marked || v.phase == Gone <==> v.queue.release)
  }

  predicate AtMostOnce(global: seq<Handle>, h: Handle)
  {
    forall i, j :: 0 <= i < j < |global| && global[i] == h ==> global[j] != h
  }

  /** The queue is in one place: in the global list once, held by one activity, parked, or freed. A
    parked queue is empty, its flag is clear, and it is not marked. */
  ghost predicate Placed(s: State, h: Handle, v: Service)
  {
    && (forall t, t' :: OwnedBy(s, h, t) && OwnedBy(s, h, t') ==> t == t')
    && AtMostOnce(s.global, h)
    && !(h in s.global && Owned(s, h))
    && (v.freed ==> Parked(s, h) && v.queue.release && v.queue.messages == [])
    && (!v.freed && Parked(s, h) ==> v.queue == Mailbox([], false, false))
    && (!Parked(s, h) && !v.queue.release ==> v.queue.inGlobal)
  }

  /** What single activities rely on. */
  ghost predicate ActOk(s: State, t: Thread, h: Handle, v: Service)
  {
    t in s.acts ==>
      var a := s.acts[t];
      && (a == Dropping(h) || a == Emptied(h) || (a.Replying? && a.h == h) ==> v.queue.release)
      && ((a.Posting? || a.Posted?) && a.q == h ==> v.queue.release)
      && (a == Emptied(h) ==> v.queue.messages == [])
      && a != Swapping(h, h)
      && (a.Serving? || a.Running? || a.Ending? || a.Swapping? ==> a.h == h ==> v.init)
      && (a == Refused(h) || a == Retired(h) || a == Launching(h, false) ==> !v.slotted)
  }

  /** A context that can be found has been initialised, unless its creator still has the queue. */
  ghost predicate Born(s: State, h: Handle, v: Service)
  {
    v.slotted && !v.init ==> exists t :: OwnedBy(s, h, t) && Unborn(s.acts[t], h)
  }

  /** Every message pushed is in the ring, or was taken, in order, and met one fate. */
  ghost predicate Accounted(v: Service)
  {
    v.pushed == v.taken + v.queue.messages && |v.fates| == |v.taken|
  }

  /** The messages that were dropped. */
  function DroppedOf(taken: seq<Message>, fates: seq<Fate>): seq<Message>
  {
    if taken == [] || |taken| != |fates| then [] else
      var n := |taken| - 1;
      DroppedOf(taken[..n], fates[..n]) + if fates[n] == Dropped then [taken[n]] else []
  }

  lemma DroppedNext(taken: seq<Message>, fates: seq<Fate>, m: Message, fate: Fate)
    requires |taken| == |fates|
    ensures DroppedOf(taken + [m], fates + [fate]) == DroppedOf(taken, fates) + if fate == Dropped then [m] else []
  {
    assert (taken + [m])[..|taken|] == taken && (fates + [fate])[..|taken|] == fates;
  }

  /** A reply was sent for every message dropped, in their order, but for one that is just being
    dropped. */
  ghost predicate Replied(s: State, h: Handle, v: Service)
  {
    && (forall t, m :: OwnedBy(s, h, t) && s.acts[t] == Replying(h, m) ==>
          DroppedOf(v.taken, v.fates) == v.replies + [m])
    && ((forall t :: OwnedBy(s, h, t) ==> !s.acts[t].Replying?) ==> DroppedOf(v.taken, v.fates) == v.replies)
  }

  ghost predicate ServiceOk(s: State, h: Handle)
  {
    h in s.services ==>
      var v := s.services[h];
      && Counted(s, h, v) && Placed(s, h, v) && (forall t :: ActOk(s, t, h, v)) && Born(s, h, v)
      && Accounted(v) && Replied(s, h, v)
  }

  /** Activities and the global list only name services. */
  ghost predicate Known(s: State, h: Handle)
  {
    h !in s.services ==>
      && h !in s.global && !Owned(s, h) && Holders(s, h) == {}
      && forall t :: t in s.acts ==> s.acts[t] != Announcing(h)
  }

  ghost predicate Fine(s: State, h: Handle) { ServiceOk(s, h) && Known(s, h) }

  ghost predicate Inv(s: State) { forall h :: Fine(s, h) }

  // ---- The invariant is kept ---------------------------------------------------------------

  lemma OnceAppend(global: seq<Handle>, k: Handle, h: Handle)
    requires AtMostOnce(global, h) && (k == h ==> h !in global)
    ensures AtMostOnce(global + [k], h) && (h in global + [k] <==> h in global || h == k)
  {
  }

  lemma OnceTail(global: seq<Handle>, h: Handle)
    requires global != [] && AtMostOnce(global, h)
    ensures AtMostOnce(global[1..], h) && (h in global[1..] <==> h in global && h != global[0])
  {
    assert global == [global[0]] + global[1..];
  }

  /** How the holders of a context change with one activity. */
  lemma HoldersChange(s: State, s': State, t: Thread, b: Activity, h: Handle)
    requires t in s.acts && s'.acts == s.acts[t := b]
    ensures |Holders(s', h)|
            == |Holders(s, h)| - (if Holds(s.acts[t], h) then 1 else 0) + (if Holds(b, h) then 1 else 0)
    ensures Holders(s, h) == {} && !Holds(b, h) ==> Holders(s', h) == {}
  {
    var rest := Holders(s, h) - {t};
    assert Holders(s', h) == if Holds(b, h) then rest + {t} else rest;
    assert Holders(s, h) == if Holds(s.acts[t], h) then rest + {t} else rest;
  }

  predicate Far(a: Activity, h: Handle) { !Holds(a, h) && !Owns(a, h) && a != Announcing(h) }

  /** A service that neither the old nor the new activity has to do with. */
  lemma FarAway(s: State, s': State, t: Thread, b: Activity, h: Handle)
    requires ServiceOk(s, h) && Known(s, h)
    requires t in s.acts && s'.acts == s.acts[t := b] && Far(s.acts[t], h) && Far(b, h)
    requires (h in s'.services <==> h in s.services) && (h in s.services ==> s'.services[h] == s.services[h])
    requires AtMostOnce(s.global, h) ==> AtMostOnce(s'.global, h)
    requires h in s'.global <==> h in s.global
    ensures ServiceOk(s', h) && Known(s', h)
  {
    HoldersChange(s, s', t, b, h);
    assert forall u :: OwnedBy(s', h, u) <==> OwnedBy(s, h, u);
    if h in s.services {
      var v := s.services[h];
      forall u ensures ActOk(s', u, h, v) {
        assert ActOk(s, u, h, v);
      }
    }
  }

  /** Only the services `k` and `k'` are concerned. */
  lemma Concerned(s: State, s': State, t: Thread, b: Activity, k: Handle, k': Handle)
    requires Inv(s) && Fine(s', k) && Fine(s', k')
    requires t in s.acts && s'.acts == s.acts[t := b]
    requires forall h :: h != k && h != k' ==> Far(s.acts[t], h) && Far(b, h)
    requires forall h :: h != k && h != k' ==> (h in s'.services <==> h in s.services)
    requires forall h :: h != k && h != k' && h in s.services ==> s'.services[h] == s.services[h]
    requires || s'.global == s.global || s'.global == s.global + [k]
             || (s.global != [] && s.global[0] == k' && s'.global == s.global[1..])
    ensures Inv(s')
  {
    forall h ensures Fine(s', h) {
      assert Fine(s, h);
      if h != k && h != k' {
        if AtMostOnce(s.global, h) {
          OnceAppend(s.global, k, h);
          if s.global != [] { OnceTail(s.global, h); }
        }
        if s.global != [] && h !in s.global && s'.global == s.global[1..] {
          assert forall x :: x in s'.global ==> x in s.global;
        }
        FarAway(s, s', t, b, h);
      }
    }
  }

  /** What an activity of thread `t` changes for service `h`. */
  lemma Local(s: State, s': State, t: Thread, b: Activity, h: Handle)
    requires Inv(s) && t in s.acts && s'.acts == s.acts[t := b]
    ensures Fine(s, h)
    ensures |Holders(s', h)| ==
      |Holders(s, h)| - (if Holds(s.acts[t], h) then 1 else 0) + (if Holds(b, h) then 1 else 0)
    ensures Holders(s, h) == {} && !Holds(b, h) ==> Holders(s', h) == {}
    ensures t in Holders(s, h) <==> Holds(s.acts[t], h)
    ensures OwnedBy(s, h, t) <==> Owns(s.acts[t], h)
    ensures OwnedBy(s', h, t) <==> Owns(b, h)
    ensures forall u :: u != t ==> (OwnedBy(s', h, u) <==> OwnedBy(s, h, u))
    ensures forall u :: ActOk(s, u, h, Of(s, h)) || h !in s.services
  {
    HoldersChange(s, s', t, b, h);
    assert Fine(s, h);
  }

  lemma KeepSend(s: State, t: Thread, h: Handle, b: Activity)
    requires Inv(s) && t in s.acts && s.acts[t] == Idle && Found(s, h) && (b.Sending? || b.Leaving?) && b.h == h
    ensures Inv(Set(s, h, Grab(Of(s, h)), t, b))
  {
    var s' := Set(s, h, Grab(Of(s, h)), t, b);
    Local(s, s', t, b, h);
    forall u ensures ActOk(s', u, h, s'.services[h]) { assert ActOk(s, u, h, s.services[h]); }
    Concerned(s, s', t, b, h, h);
  }

  lemma KeepPush(s: State, t: Thread)
    requires Inv(s) && Enabled(s, Push(t)) && s.acts[t].Sending?
    ensures Inv(Next(s, Push(t)))
  {
    var s' := Next(s, Push(t));
    var h, b := s.acts[t].h, s'.acts[t];
    Local(s, s', t, b, h);
    if !Of(s, h).queue.inGlobal { OnceAppend(s.global, h, h); }
    forall u ensures ActOk(s', u, h, s'.services[h]) { assert ActOk(s, u, h, s.services[h]); }
    Concerned(s, s', t, b, h, h);
  }

  lemma KeepKill(s: State, t: Thread, h: Handle)
    requires Inv(s) && Enabled(s, Kill(t, h)) && Found(s, h)
    ensures Inv(Next(s, Kill(t, h)))
  {
    var s' := Next(s, Kill(t, h));
    var b := s'.acts[t];
    Local(s, s', t, b, h);
    forall u ensures ActOk(s', u, h, s'.services[h]) { assert ActOk(s, u, h, s.services[h]); }
    Concerned(s, s', t, b, h, h);
  }

  lemma KeepGrabQueue(s: State, t: Thread)
    requires Inv(s) && Enabled(s, GrabQueue(t))
    ensures Inv(Next(s, GrabQueue(t)))
  {
    var s' := Next(s, GrabQueue(t));
    var h, b := s.acts[t].h, s'.acts[t];
    Local(s, s', t, b, h);
    forall u ensures ActOk(s', u, h, s'.services[h]) { assert ActOk(s, u, h, s.services[h]); }
    Concerned(s, s', t, b, h, h);
  }

  lemma KeepHandBack(s: State, t: Thread)
    requires Inv(s) && Enabled(s, HandBack(t))
    ensures Inv(Next(s, HandBack(t)))
  {
    var s' := Next(s, HandBack(t));
    var h, b := s.acts[t].h, s'.acts[t];
    Local(s, s', t, b, h);
    if !Of(s, h).queue.release { OnceAppend(s.global, h, h); }
    forall u ensures ActOk(s', u, h, s'.services[h]) { assert ActOk(s, u, h, s.services[h]); }
    Concerned(s, s', t, b, h, h);
  }

  lemma KeepTaken(s: State, t: Thread, h: Handle)
    requires Inv(s) && t in s.acts && s.acts[t] == Serving(h) && h in s.services && s.services[h].queue.messages != []
    ensures var v := s.services[h]; Inv(Set(s, h, TakeMessage(v, Dispatched), t, Running(h, v.queue.messages[0])))
  {
    var v := s.services[h];
    var b := Running(h, v.queue.messages[0]);
    var s' := Set(s, h, TakeMessage(v, Dispatched), t, b);
    Local(s, s', t, b, h);
    DroppedNext(v.taken, v.fates, v.queue.messages[0], Dispatched);
    forall u ensures ActOk(s', u, h, s'.services[h]) { assert ActOk(s, u, h, v); }
    Concerned(s, s', t, b, h, h);
  }

  lemma KeepUnlisted(s: State, t: Thread, h: Handle)
    requires Inv(s) && t in s.acts && s.acts[t] == Serving(h) && h in s.services && s.services[h].queue.messages == []
    ensures Inv(Set(s, h, s.services[h].(queue := Popped(s.services[h].queue)), t, Leaving(h)))
  {
    var v := s.services[h];
    var s' := Set(s, h, v.(queue := Popped(v.queue)), t, Leaving(h));
    Local(s, s', t, Leaving(h), h);
    forall u ensures ActOk(s', u, h, s'.services[h]) { assert ActOk(s, u, h, v); }
    Concerned(s, s', t, Leaving(h), h, h);
  }

  lemma KeepPopMessage(s: State, t: Thread)
    requires Inv(s) && Enabled(s, PopMessage(t))
    ensures Inv(Next(s, PopMessage(t)))
  {
    var h := s.acts[t].h;
    assert Fine(s, h) && OwnedBy(s, h, t);
    if Of(s, h).queue.messages == [] { KeepUnlisted(s, t, h); } else { KeepTaken(s, t, h); }
  }

  lemma KeepEndCallback(s: State, t: Thread, more: bool)
    requires Inv(s) && Enabled(s, EndCallback(t, more))
    ensures Inv(Next(s, EndCallback(t, more)))
  {
    var s' := Next(s, EndCallback(t, more));
    var h, b := s.acts[t].h, s'.acts[t];
    Local(s, s', t, b, h);
    forall u ensures ActOk(s', u, h, s'.services[h]) { assert ActOk(s, u, h, s.services[h]); }
    Concerned(s, s', t, b, h, h);
  }

  lemma KeepDrop(s: State, t: Thread, h: Handle)
    requires Inv(s) && t in s.acts && s.acts[t] == Dropping(h) && h in s.services && s.services[h].queue.messages != []
    ensures var v := s.services[h]; Inv(Set(s, h, TakeMessage(v, Dropped), t, Replying(h, v.queue.messages[0])))
  {
    var v := s.services[h];
    var b := Replying(h, v.queue.messages[0]);
    var s' := Set(s, h, TakeMessage(v, Dropped), t, b);
    Local(s, s', t, b, h);
    assert ActOk(s, t, h, v);
    DroppedNext(v.taken, v.fates, v.queue.messages[0], Dropped);
    forall u ensures ActOk(s', u, h, s'.services[h]) { assert ActOk(s, u, h, v); }
    Concerned(s, s', t, b, h, h);
  }

  lemma KeepEmptied(s: State, t: Thread, h: Handle)
    requires Inv(s) && t in s.acts && s.acts[t] == Dropping(h) && h in s.services && s.services[h].queue.messages == []
    ensures Inv(Set(s, h, s.services[h].(queue := Popped(s.services[h].queue)), t, Emptied(h)))
  {
    var v := s.services[h];
    var s' := Set(s, h, v.(queue := Popped(v.queue)), t, Emptied(h));
    Local(s, s', t, Emptied(h), h);
    assert ActOk(s, t, h, v);
    forall u ensures ActOk(s', u, h, s'.services[h]) { assert ActOk(s, u, h, v); }
    Concerned(s, s', t, Emptied(h), h, h);
  }

  lemma KeepDropOne(s: State, t: Thread)
    requires Inv(s) && Enabled(s, DropOne(t))
    ensures Inv(Next(s, DropOne(t)))
  {
    var h := s.acts[t].h;
    assert Fine(s, h) && OwnedBy(s, h, t);
    if Of(s, h).queue.messages == [] { KeepEmptied(s, t, h); } else { KeepDrop(s, t, h); }
  }

  lemma KeepFree(s: State, t: Thread)
    requires Inv(s) && Enabled(s, Free(t))
    ensures Inv(Next(s, Free(t)))
  {
    var s' := Next(s, Free(t));
    var h, b := s.acts[t].h, s'.acts[t];
    Local(s, s', t, b, h);
    assert ActOk(s, t, h, s.services[h]);
    forall u ensures ActOk(s', u, h, s'.services[h]) { assert ActOk(s, u, h, s.services[h]); }
    Concerned(s, s', t, b, h, h);
  }

  lemma KeepInitReturns(s: State, t: Thread, ok: bool)
    requires Inv(s) && Enabled(s, InitReturns(t, ok))
    ensures Inv(Next(s, InitReturns(t, ok)))
  {
    var s' := Next(s, InitReturns(t, ok));
    var h, b := s.acts[t].h, s'.acts[t];
    Local(s, s', t, b, h);
    forall u ensures ActOk(s', u, h, s'.services[h]) { assert ActOk(s, u, h, s.services[h]); }
    Concerned(s, s', t, b, h, h);
  }

  lemma KeepWriteInit(s: State, t: Thread)
    requires Inv(s) && Enabled(s, WriteInit(t))
    ensures Inv(Next(s, WriteInit(t)))
  {
    var s' := Next(s, WriteInit(t));
    var h, b := s.acts[t].h, s'.acts[t];
    Local(s, s', t, b, h);
    forall u ensures ActOk(s', u, h, s'.services[h]) { assert ActOk(s, u, h, s.services[h]); }
    Concerned(s, s', t, b, h, h);
  }

  lemma KeepLaunch(s: State, t: Thread)
    requires Inv(s) && Enabled(s, Launch(t))
    ensures Inv(Next(s, Launch(t)))
  {
    var s' := Next(s, Launch(t));
    var h, b := s.acts[t].h, s'.acts[t];
    Local(s, s', t, b, h);
    OnceAppend(s.global, h, h);
    forall u ensures ActOk(s', u, h, s'.services[h]) { assert ActOk(s, u, h, s.services[h]); }
    Concerned(s, s', t, b, h, h);
  }

  lemma KeepAnnounce(s: State, t: Thread)
    requires Inv(s) && Enabled(s, Announce(t))
    ensures Inv(Next(s, Announce(t)))
  {
    var s' := Next(s, Announce(t));
    var h, b := s.acts[t].h, s'.acts[t];
    Local(s, s', t, b, h);
    forall u ensures ActOk(s', u, h, s'.services[h]) { assert ActOk(s, u, h, s.services[h]); }
    Concerned(s, s', t, b, h, h);
  }

  lemma KeepRetireFailed(s: State, t: Thread)
    requires Inv(s) && Enabled(s, RetireFailed(t))
    ensures Inv(Next(s, RetireFailed(t)))
  {
    var s' := Next(s, RetireFailed(t));
    var h, b := s.acts[t].h, s'.acts[t];
    Local(s, s', t, b, h);
    forall u ensures ActOk(s', u, h, s'.services[h]) { assert ActOk(s, u, h, s.services[h]); }
    Concerned(s, s', t, b, h, h);
  }

  lemma KeepUnref(s: State, t: Thread, h: Handle, b: Activity)
    requires Inv(s) && t in s.acts && Releasing(s.acts[t]) && !s.acts[t].Ended? && !s.acts[t].Posted?
    requires h == s.acts[t].h && b == AfterRelease(s.acts[t], Of(s, h).ref == 1)
    ensures Inv(Set(s, h, Unref(Of(s, h)), t, b))
  {
    var s' := Set(s, h, Unref(Of(s, h)), t, b);
    Local(s, s', t, b, h);
    forall u ensures ActOk(s', u, h, s'.services[h]) { assert ActOk(s, u, h, s.services[h]); }
    Concerned(s, s', t, b, h, h);
  }

  lemma KeepRelease(s: State, t: Thread)
    requires Inv(s) && Enabled(s, Release(t)) && !s.acts[t].Ended? && !s.acts[t].Posted?
    ensures Inv(Next(s, Release(t)))
  {
    var h := s.acts[t].h;
    KeepUnref(s, t, h, AfterRelease(s.acts[t], Of(s, h).ref == 1));
  }

  /** The state after the error `m` was pushed into the queue of `h`, while that of `q` is dropped. */
  function PostedState(s: State, t: Thread, h: Handle, q: Handle, m: Message): State
  {
    var v := Of(s, h);
    var s1 := Set(s, h, v.(queue := Pushed(v.queue, m), pushed := v.pushed + [m]), t, Posted(h, q));
    if v.queue.inGlobal then s1 else Listed(s1, h)
  }

  lemma KeepPostingTo(s: State, t: Thread, h: Handle, q: Handle, m: Message)
    requires Inv(s) && t in s.acts && s.acts[t] == Posting(h, q, m)
    ensures Fine(PostedState(s, t, h, q, m), h) && h != q
  {
    var s' := PostedState(s, t, h, q, m);
    Local(s, s', t, Posted(h, q), h);
    Local(s, s', t, Posted(h, q), q);
    assert ActOk(s, t, q, s.services[q]) && h != q;
    if !Of(s, h).queue.inGlobal { OnceAppend(s.global, h, h); }
    forall u ensures ActOk(s', u, h, s'.services[h]) { assert ActOk(s, u, h, s.services[h]); }
  }

  lemma KeepPostingFrom(s: State, t: Thread, h: Handle, q: Handle, m: Message)
    requires Inv(s) && t in s.acts && s.acts[t] == Posting(h, q, m) && h != q
    ensures Fine(PostedState(s, t, h, q, m), q)
  {
    var s' := PostedState(s, t, h, q, m);
    Local(s, s', t, Posted(h, q), q);
    if !Of(s, h).queue.inGlobal { OnceAppend(s.global, h, q); }
    forall u ensures ActOk(s', u, q, s'.services[q]) { assert ActOk(s, u, q, s.services[q]); }
  }

  lemma KeepPost(s: State, t: Thread)
    requires Inv(s) && Enabled(s, Push(t)) && s.acts[t].Posting?
    ensures Inv(Next(s, Push(t)))
  {
    var h, q, m := s.acts[t].h, s.acts[t].q, s.acts[t].m;
    KeepPostingTo(s, t, h, q, m);
    KeepPostingFrom(s, t, h, q, m);
    assert Fine(s, h);
    Concerned(s, PostedState(s, t, h, q, m), t, Posted(h, q), h, q);
  }

  lemma KeepPosted(s: State, t: Thread)
    requires Inv(s) && Enabled(s, Release(t)) && s.acts[t].Posted?
    ensures Inv(Next(s, Release(t)))
  {
    var s' := Next(s, Release(t));
    var h, q, b := s.acts[t].h, s.acts[t].q, s'.acts[t];
    Local(s, s', t, b, h);
    Local(s, s', t, b, q);
    assert ActOk(s, t, q, s.services[q]) && h != q;
    forall u ensures ActOk(s', u, h, s'.services[h]) { assert ActOk(s, u, h, s.services[h]); }
    forall u ensures ActOk(s', u, q, s'.services[q]) { assert ActOk(s, u, q, s.services[q]); }
    Concerned(s, s', t, b, h, q);
  }

  lemma KeepReplied(s: State, t: Thread, h: Handle, m: Message)
    requires Inv(s) && t in s.acts && s.acts[t] == Replying(h, m) && !Found(s, m.source)
    ensures Inv(Set(s, h, Of(s, h).(replies := Of(s, h).replies + [m]), t, Dropping(h)))
  {
    var v := Of(s, h);
    var s' := Set(s, h, v.(replies := v.replies + [m]), t, Dropping(h));
    Local(s, s', t, Dropping(h), h);
    assert ActOk(s, t, h, v);
    forall u ensures ActOk(s', u, h, s'.services[h]) { assert ActOk(s, u, h, v); }
    Concerned(s, s', t, Dropping(h), h, h);
  }

  /** The state in which the sender of `m`, which was dropped from the queue of `h`, is grabbed. */
  function RepliedState(s: State, t: Thread, h: Handle, m: Message): State
  {
    var s1 := Set(s, h, Of(s, h).(replies := Of(s, h).replies + [m]), t, Dropping(h));
    Set(s1, m.source, Grab(Of(s1, m.source)), t, Posting(m.source, h, ErrorFrom(h)))
  }

  lemma KeepReplyFrom(s: State, t: Thread, h: Handle, m: Message)
    requires Inv(s) && t in s.acts && s.acts[t] == Replying(h, m) && Found(s, m.source)
    ensures h in s.services && m.source != h && Fine(RepliedState(s, t, h, m), h)
  {
    var b := Posting(m.source, h, ErrorFrom(h));
    var s' := RepliedState(s, t, h, m);
    assert s'.acts == s.acts[t := b];
    Local(s, s', t, b, h);
    assert ActOk(s, t, h, s.services[h]) && h != m.source;
    forall u ensures ActOk(s', u, h, s'.services[h]) { assert ActOk(s, u, h, s.services[h]); }
  }

  lemma KeepReplyTo(s: State, t: Thread, h: Handle, m: Message)
    requires Inv(s) && t in s.acts && s.acts[t] == Replying(h, m) && Found(s, m.source) && m.source != h
    ensures Fine(RepliedState(s, t, h, m), m.source)
  {
    var d, b := m.source, Posting(m.source, h, ErrorFrom(h));
    var s' := RepliedState(s, t, h, m);
    assert s'.acts == s.acts[t := b];
    Local(s, s', t, b, d);
    forall u ensures ActOk(s', u, d, s'.services[d]) { assert ActOk(s, u, d, s.services[d]); }
  }

  lemma KeepReply(s: State, t: Thread)
    requires Inv(s) && Enabled(s, Reply(t))
    ensures Inv(Next(s, Reply(t)))
  {
    var h, m := s.acts[t].h, s.acts[t].m;
    if Found(s, m.source) {
      KeepReplyFrom(s, t, h, m);
      KeepReplyTo(s, t, h, m);
      var s' := RepliedState(s, t, h, m);
      assert s'.acts == s.acts[t := Posting(m.source, h, ErrorFrom(h))];
      Concerned(s, s', t, Posting(m.source, h, ErrorFrom(h)), h, m.source);
    } else {
      KeepReplied(s, t, h, m);
    }
  }

  lemma KeepEndRound(s: State, t: Thread)
    requires Inv(s) && Enabled(s, Release(t)) && s.acts[t].Ended?
    ensures Inv(Next(s, Release(t)))
  {
    var s' := Next(s, Release(t));
    var h, q := s.acts[t].h, s.acts[t].q;
    var b := Holding(q);
    Local(s, s', t, b, h);
    Local(s, s', t, b, q);
    forall u ensures ActOk(s', u, h, s'.services[h]) { assert ActOk(s, u, h, s.services[h]); }
    if q != h {
      forall u ensures ActOk(s', u, q, s'.services[q]) { assert ActOk(s, u, q, s.services[q]); }
    }
    Concerned(s, s', t, b, h, q);
  }

  lemma KeepPopGlobal(s: State, t: Thread)
    requires Inv(s) && Enabled(s, PopGlobal(t))
    ensures Inv(Next(s, PopGlobal(t)))
  {
    var s' := Next(s, PopGlobal(t));
    var h := s.global[0];
    Local(s, s', t, Holding(h), h);
    OnceTail(s.global, h);
    forall u ensures ActOk(s', u, h, s'.services[h]) { assert ActOk(s, u, h, s.services[h]); }
    Concerned(s, s', t, Holding(h), h, h);
  }

  lemma KeepTakeNext(s: State, t: Thread)
    requires Inv(s) && Enabled(s, TakeNext(t))
    ensures Inv(Next(s, TakeNext(t)))
  {
    var s' := Next(s, TakeNext(t));
    var h := s.acts[t].h;
    var b := s'.acts[t];
    var q := if s.global == [] then h else s.global[0];
    Local(s, s', t, b, h);
    Local(s, s', t, b, q);
    if s.global != [] { OnceTail(s.global, q); OnceTail(s.global, h); }
    forall u ensures ActOk(s', u, h, s'.services[h]) { assert ActOk(s, u, h, s.services[h]); }
    forall u ensures ActOk(s', u, q, s'.services[q]) { assert ActOk(s, u, q, s.services[q]); }
    Concerned(s, s', t, b, h, q);
  }

  lemma KeepPutBack(s: State, t: Thread)
    requires Inv(s) && Enabled(s, PutBack(t))
    ensures Inv(Next(s, PutBack(t)))
  {
    var s' := Next(s, PutBack(t));
    var h, q := s.acts[t].h, s.acts[t].q;
    var b := s'.acts[t];
    Local(s, s', t, b, h);
    Local(s, s', t, b, q);
    assert ActOk(s, t, h, s.services[h]);
    OnceAppend(s.global, h, h);
    OnceAppend(s.global, h, q);
    forall u ensures ActOk(s', u, h, s'.services[h]) { assert ActOk(s, u, h, s.services[h]); }
    forall u ensures ActOk(s', u, q, s'.services[q]) { assert ActOk(s, u, q, s.services[q]); }
    Concerned(s, s', t, b, h, q);
  }

  lemma KeepCreate(s: State, t: Thread, h: Handle)
    requires Inv(s) && Enabled(s, Create(t, h))
    ensures Inv(Next(s, Create(t, h)))
  {
    var s' := Next(s, Create(t, h));
    Local(s, s', t, Creating(h), h);
    assert Holders(s', h) == {t};
    forall u ensures ActOk(s', u, h, s'.services[h]) {
      assert !OwnedBy(s, h, u) && u !in Holders(s, h);
    }
    Concerned(s, s', t, Creating(h), h, h);
  }

  lemma KeepMarkRelease(s: State, h: Handle)
    requires Inv(s) && Enabled(s, MarkRelease(h))
    ensures Inv(Next(s, MarkRelease(h)))
  {
    var s' := Next(s, MarkRelease(h));
    forall k ensures Fine(s', k) {
      assert Fine(s, k) && Fine(s, h);
      assert Holders(s', k) == Holders(s, k);
      assert forall u :: OwnedBy(s', k, u) <==> OwnedBy(s, k, u);
      if AtMostOnce(s.global, k) && !s.services[h].queue.inGlobal { OnceAppend(s.global, h, k); }
      if k in s.services {
        forall u ensures ActOk(s', u, k, s'.services[k]) { assert ActOk(s, u, k, s.services[k]); }
      }
    }
  }

  lemma KeepFreeContext(s: State, h: Handle)
    requires Inv(s) && Enabled(s, FreeContext(h))
    ensures Inv(Next(s, FreeContext(h)))
  {
    var s' := Next(s, FreeContext(h));
    forall k ensures Fine(s', k) {
      assert Fine(s, k) && Fine(s, h);
      assert Holders(s', k) == Holders(s, k);
      assert forall u :: OwnedBy(s', k, u) <==> OwnedBy(s, k, u);
      if k in s.services {
        forall u ensures ActOk(s', u, k, s'.services[k]) { assert ActOk(s, u, k, s.services[k]); }
      }
    }
  }

  /** Every step keeps the invariant. */
  lemma StepKeeps(s: State, step: Step)
    requires Inv(s) && Enabled(s, step)
    ensures Inv(Next(s, step))
  {
    match step
    case Send(t, h, m) => if Found(s, h) { KeepSend(s, t, h, Sending(h, m)); }
    case Visit(t, h) => if Found(s, h) { KeepSend(s, t, h, Leaving(h)); }
    case Push(t) => if s.acts[t].Posting? { KeepPost(s, t); } else { KeepPush(s, t); }
    case Release(t) =>
      if s.acts[t].Ended? { KeepEndRound(s, t); }
      else if s.acts[t].Posted? { KeepPosted(s, t); }
      else { KeepRelease(s, t); }
    case Kill(t, h) => if Found(s, h) { KeepKill(s, t, h); }
    case PopGlobal(t) => KeepPopGlobal(s, t);
    case GrabQueue(t) => KeepGrabQueue(s, t);
    case HandBack(t) => KeepHandBack(s, t);
    case PopMessage(t) => KeepPopMessage(s, t);
    case EndCallback(t, more) => KeepEndCallback(s, t, more);
    case TakeNext(t) => KeepTakeNext(s, t);
    case PutBack(t) => KeepPutBack(s, t);
    case DropOne(t) => KeepDropOne(s, t);
    case Reply(t) => KeepReply(s, t);
    case Free(t) => KeepFree(s, t);
    case Create(t, h) => KeepCreate(s, t, h);
    case InitReturns(t, ok) => KeepInitReturns(s, t, ok);
    case WriteInit(t) => KeepWriteInit(s, t);
    case Launch(t) => KeepLaunch(s, t);
    case Announce(t) => KeepAnnounce(s, t);
    case RetireFailed(t) => KeepRetireFailed(s, t);
    case MarkRelease(h) => KeepMarkRelease(s, h);
    case FreeContext(h) => KeepFreeContext(s, h);
  }

  // ---- Whole runs --------------------------------------------------------------------------

  /** A run takes the steps that are enabled when their turn comes. */
  function After(s: State, steps: seq<Step>): State
    decreases |steps|
  {
    if steps == [] then s
    else After(if Enabled(s, steps[0]) then Next(s, steps[0]) else s, steps[1..])
  }

  lemma StartOk(threads: set<Thread>)
    ensures Inv(Start(threads))
  {
    var s := Start(threads);
    forall h ensures Fine(s, h) {
      assert Holders(s, h) == {};
    }
  }

  lemma {:induction false} RunKeeps(s: State, steps: seq<Step>)
    requires Inv(s)
    ensures Inv(After(s, steps))
    decreases |steps|
  {
    if steps != [] {
      if Enabled(s, steps[0]) { StepKeeps(s, steps[0]); }
      RunKeeps(if Enabled(s, steps[0]) then Next(s, steps[0]) else s, steps[1..]);
    }
  }

  ghost predicate Reachable(s: State) { exists threads, steps :: s == After(Start(threads), steps) }

  lemma ReachableOk(s: State)
    requires Reachable(s)
    ensures Inv(s)
  {
    var threads, steps :| s == After(Start(threads), steps);
    StartOk(threads);
    RunKeeps(Start(threads), steps);
  }

  /** A service's callback never runs on two threads at once, and only after `init` was set. */
  lemma Exclusive(s: State, t: Thread, t': Thread)
    requires Reachable(s) && t in s.acts && t' in s.acts && s.acts[t].Running? && s.acts[t'].Running?
    ensures s.acts[t].h == s.acts[t'].h ==> t == t'
    ensures s.acts[t].h in s.services && s.services[s.acts[t].h].init
  {
    ReachableOk(s);
    var h := s.acts[t].h;
    assert Fine(s, h);
    assert OwnedBy(s, h, t);
    assert OwnedBy(s, h, t') <==> s.acts[t'].h == h;
    assert ActOk(s, t, h, s.services[h]);
  }

  /** A queue that is not freed is in exactly one place: waiting in the global list, once; in the
    hands of one activity; or parked, and then it is empty and the next message will find its flag
    clear. So a message that is not yet taken is never without somebody to come for it. */
  lemma OnePlace(s: State, h: Handle)
    requires Reachable(s) && h in s.services && !s.services[h].freed
    ensures AtMostOnce(s.global, h) && forall t, t' :: OwnedBy(s, h, t) && OwnedBy(s, h, t') ==> t == t'
    ensures !(h in s.global && Owned(s, h))
    ensures Parked(s, h) ==> s.services[h].queue.messages == [] && !s.services[h].queue.inGlobal
    ensures s.services[h].queue.messages != [] ==> h in s.global || Owned(s, h)
  {
    ReachableOk(s);
    assert Fine(s, h);
  }

  /** Every message that was pushed is in the ring or was taken from it, in the order of the pushes,
    and every message taken met one fate. For each of those dropped an error was sent to its sender,
    but for the one that a thread is just dropping. */
  lemma Conserved(s: State, h: Handle)
    requires Reachable(s) && h in s.services
    ensures var v := s.services[h];
      && v.pushed == v.taken + v.queue.messages && |v.fates| == |v.taken|
      && (forall t, m :: OwnedBy(s, h, t) && s.acts[t] == Replying(h, m) ==>
            DroppedOf(v.taken, v.fates) == v.replies + [m])
      && ((forall t :: OwnedBy(s, h, t) ==> !s.acts[t].Replying?) ==> DroppedOf(v.taken, v.fates) == v.replies)
  {
    ReachableOk(s);
    assert Fine(s, h);
  }

  /** An error for a dropped message goes to its sender: if that is still registered, its context is
    grabbed and the next step of the thread pushes the error into its queue. */
  lemma ErrorSent(s: State, t: Thread)
    requires Reachable(s) && Enabled(s, Reply(t))
    ensures var h, m, s1 := s.acts[t].h, s.acts[t].m, Next(s, Reply(t));
      && h in s.services && s1.services[h].replies == s.services[h].replies + [m]
      && (Found(s, m.source) ==>
            Enabled(s1, Push(t)) && m.source in Next(s1, Push(t)).services &&
            var v, v' := s.services[m.source], Next(s1, Push(t)).services[m.source];
            var error := Message(h, 0, PTYPE_ERROR);
            v'.pushed == v.pushed + [error] && v'.queue.messages == v.queue.messages + [error])
      && (!Found(s, m.source) ==> s1.acts[t] == Dropping(h))
  {
    ReachableOk(s);
    var h := s.acts[t].h;
    assert Fine(s, h) && OwnedBy(s, h, t) && ActOk(s, t, h, s.services[h]);
  }

  /** The record of a service: nothing that happened to a message changes later. */
  ghost predicate Extends(v: Service, v': Service)
  {
    && v.pushed <= v'.pushed && v.taken <= v'.taken && v.fates <= v'.fates && v.replies <= v'.replies
    && (v.freed ==> v' == v.(phase := v'.phase))
  }

  /** What happened stays, and a freed queue is never touched again. */
  lemma HistoryGrows(s: State, step: Step, h: Handle)
    requires Inv(s) && Enabled(s, step) && h in s.services
    ensures h in Next(s, step).services && Extends(s.services[h], Next(s, step).services[h])
  {
    if Deletes(step) || s.acts[step.t].Idle? {
      HistoryNew(s, step, h);
    } else if s.acts[step.t].h == h {
      HistoryOf(s, step);
    } else {
      HistoryBeside(s, step, h);
    }
  }

  lemma HistoryNew(s: State, step: Step, h: Handle)
    requires Inv(s) && Enabled(s, step) && h in s.services && (Deletes(step) || s.acts[step.t].Idle?)
    ensures h in Next(s, step).services && Extends(s.services[h], Next(s, step).services[h])
  {
    assert Fine(s, h);
  }

  lemma HistoryOf(s: State, step: Step)
    requires Inv(s) && Enabled(s, step) && !Deletes(step) && !s.acts[step.t].Idle? && s.acts[step.t].h in s.services
    ensures var h, s' := s.acts[step.t].h, NextOf(s, step, step.t, s.acts[step.t]);
            h in s'.services && Extends(s.services[h], s'.services[h])
  {
    var h := s.acts[step.t].h;
    assert Fine(s, h);
    Involved(s, step.t, h);
  }

  lemma HistoryBeside(s: State, step: Step, h: Handle)
    requires Inv(s) && Enabled(s, step) && !Deletes(step) && !s.acts[step.t].Idle? && s.acts[step.t].h != h
    requires h in s.services
    ensures var s' := NextOf(s, step, step.t, s.acts[step.t]);
            h in s'.services && Extends(s.services[h], s'.services[h])
  {
    assert Fine(s, h);
  }

  lemma Involved(s: State, t: Thread, h: Handle)
    requires t in s.acts
    ensures OwnedBy(s, h, t) <==> Owns(s.acts[t], h)
    ensures t in Holders(s, h) <==> Holds(s.acts[t], h)
  {
  }

  lemma {:induction false} RunGrows(s: State, steps: seq<Step>, h: Handle)
    requires Inv(s) && h in s.services
    ensures h in After(s, steps).services && Extends(s.services[h], After(s, steps).services[h])
    decreases |steps|
  {
    if steps != [] {
      var s1 := if Enabled(s, steps[0]) then Next(s, steps[0]) else s;
      if Enabled(s, steps[0]) {
        HistoryGrows(s, steps[0], h);
        StepKeeps(s, steps[0]);
      }
      RunGrows(s1, steps[1..], h);
    }
  }

  /** The queues whose fields the step reads or writes, apart from their place in the list. */
  function QueuesTouched(s: State, step: Step): set<Handle>
    requires Enabled(s, step)
  {
    match step
    case MarkRelease(h) => {h}
    case PopGlobal(_) => {s.global[0]}
    case TakeNext(t) => {s.acts[t].h} + if s.global == [] then {} else {s.global[0]}
    case Push(t) => {s.acts[t].h}
    case GrabQueue(t) => {s.acts[t].h}
    case HandBack(t) => {s.acts[t].h}
    case PopMessage(t) => {s.acts[t].h}
    case PutBack(t) => {s.acts[t].h}
    case DropOne(t) => {s.acts[t].h}
    case Free(t) => {s.acts[t].h}
    case Launch(t) => {s.acts[t].h}
    case _ => {}
  }

  /** No step touches a freed queue: neither its fields nor, as a neighbour in the global list, its
    link. In particular no queue is freed twice. A queue is marked for release once. */
  lemma NoUseAfterFree(s: State, step: Step, h: Handle)
    requires Reachable(s) && Enabled(s, step)
    ensures h in QueuesTouched(s, step) || h in s.global ==> h in s.services && !s.services[h].freed
    ensures step == MarkRelease(h) ==> !s.services[h].queue.release
  {
    ReachableOk(s);
    assert Fine(s, h);
    if !Deletes(step) { Involved(s, step.t, h); }
  }

  /** A queue is freed only when the last reference to its context is gone and its context was
    marked, and when every message that was ever pushed has met its fate. */
  lemma FreedLast(s: State, h: Handle)
    requires Reachable(s) && h in s.services && s.services[h].freed
    ensures var v := s.services[h];
      && v.ref == 0 && !v.slotted && Holders(s, h) == {} && Parked(s, h) && v.queue.release
      && v.taken == v.pushed && |v.fates| == |v.pushed| && v.replies == DroppedOf(v.pushed, v.fates)
  {
    ReachableOk(s);
    assert Fine(s, h);
  }

  /** When all threads are idle and nothing is waiting, every killed service has been torn down
    completely, and the others have no message left. */
  lemma NoLeak(s: State, h: Handle)
    requires Reachable(s) && h in s.services
    requires s.global == [] && (forall t :: t in s.acts ==> s.acts[t] == Idle)
    requires s.services[h].phase != Dying && s.services[h].phase != Marked
    ensures if s.services[h].slotted then s.services[h].queue.messages == [] && !s.services[h].freed
            else s.services[h].freed && |s.services[h].fates| == |s.services[h].pushed|
  {
    ReachableOk(s);
    assert Fine(s, h);
    assert Holders(s, h) == {};
    assert !Owned(s, h);
  }

  // ---- Contexts ----------------------------------------------------------------------------

  /** The contexts whose fields the step reads or writes. */
  function ContextsTouched(s: State, step: Step): set<Handle>
    requires Enabled(s, step)
  {
    match step
    case MarkRelease(h) => {h}
    case FreeContext(h) => {h}
    case Send(_, h, _) => if Found(s, h) then {h} else {}
    case Visit(_, h) => if Found(s, h) then {h} else {}
    case Kill(_, h) => if Found(s, h) then {h} else {}
    case Create(_, h) => {}
    case PopGlobal(_) => {}
    case GrabQueue(t) => if Found(s, s.acts[t].h) then {s.acts[t].h} else {}
    case HandBack(_) => {}
    case DropOne(_) => {}
    case Reply(t) => if Found(s, s.acts[t].m.source) then {s.acts[t].m.source} else {}
    case Free(_) => {}
    case Launch(_) => {}
    case RetireFailed(t) => if Found(s, s.acts[t].h) then {s.acts[t].h} else {}
    case _ => {s.acts[step.t].h}
  }

  /** The two steps that `skynet_context_new` takes after it has given up its own reference: setting
    `init`, and reporting the launch. */
  predicate Late(step: Step) { step.WriteInit? || step.Announce? }

  /** Somebody is in the middle of `delete_context`. */
  predicate BeingDeleted(s: State, h: Handle)
  {
    h in s.services && (s.services[h].phase == Dying || s.services[h].phase == Marked)
  }

  /** Every step touches only contexts that have not been freed, but for the late ones: these are
    safe exactly as long as the context can still be found, somebody holds it, or its deletion is
    not done. */
  lemma ContextsSafe(s: State, step: Step, h: Handle)
    requires Reachable(s) && Enabled(s, step) && h in ContextsTouched(s, step)
    ensures h in s.services
    ensures !Late(step) ==> s.services[h].phase != Gone
    ensures Late(step) ==>
      (s.services[h].phase != Gone <==> Found(s, h) || Holders(s, h) != {} || BeingDeleted(s, h))
  {
    ReachableOk(s);
    assert Fine(s, h);
    if !Deletes(step) { Involved(s, step.t, h); }
  }

  /** The creator of a service, up to its report. */
  predicate Creator(a: Activity, h: Handle) { Unborn(a, h) || a == Launching(h, true) || a == Announcing(h) }

  /** A service that nobody killed can be found as long as its creator is at work. */
  ghost predicate Kept(s: State, h: Handle)
  {
    && (forall t :: t in s.acts && Creator(s.acts[t], h) ==> Found(s, h))
    && (forall t, t' :: t in s.acts && t' in s.acts && s.acts[t] == Announcing(h) ==> !Unborn(s.acts[t'], h))
  }

  lemma OneOwner(s: State, h: Handle, t: Thread, t': Thread)
    requires Inv(s) && t in s.acts && t' in s.acts && Owns(s.acts[t], h) && Owns(s.acts[t'], h)
    ensures t == t'
  {
    assert Fine(s, h);
    assert OwnedBy(s, h, t) && OwnedBy(s, h, t');
  }

  lemma KeptFrame(s: State, s': State, t: Thread, b: Activity, h: Handle)
    requires Kept(s, h) && t in s.acts && s'.acts == s.acts[t := b]
    requires forall u :: u in s'.acts && Creator(s'.acts[u], h) ==> Found(s', h)
    requires Unborn(b, h) ==> Unborn(s.acts[t], h) || forall u :: u in s.acts ==> s.acts[u] != Announcing(h)
    requires b == Announcing(h) ==> forall u :: u in s.acts && u != t ==> !Unborn(s.acts[u], h)
    ensures Kept(s', h)
  {
  }

  lemma LaunchKept(s: State, t: Thread, h: Handle)
    requires Inv(s) && Kept(s, h) && Enabled(s, Launch(t))
    ensures Kept(Next(s, Launch(t)), h)
  {
    var s' := Next(s, Launch(t));
    if s.acts[t].h == h {
      forall u | u in s.acts && u != t ensures !Unborn(s.acts[u], h) {
        if Unborn(s.acts[u], h) { OneOwner(s, h, t, u); }
      }
    }
    KeptFrame(s, s', t, s'.acts[t], h);
  }

  lemma RetireKept(s: State, t: Thread, h: Handle)
    requires Inv(s) && Kept(s, h) && Enabled(s, RetireFailed(t))
    ensures Kept(Next(s, RetireFailed(t)), h)
  {
    var s' := Next(s, RetireFailed(t));
    if s.acts[t].h == h {
      forall u | u in s'.acts && u != t ensures !Creator(s'.acts[u], h) {
        if Owns(s.acts[u], h) { OneOwner(s, h, t, u); }
      }
    }
    KeptFrame(s, s', t, s'.acts[t], h);
  }

  lemma CreateKept(s: State, t: Thread, k: Handle, h: Handle)
    requires Inv(s) && Kept(s, h) && Enabled(s, Create(t, k))
    ensures Kept(Next(s, Create(t, k)), h)
  {
    assert Fine(s, k);
    KeptFrame(s, Next(s, Create(t, k)), t, Creating(k), h);
  }

  lemma OtherKept(s: State, step: Step, h: Handle)
    requires Inv(s) && Enabled(s, step) && Kept(s, h) && !Deletes(step) && !s.acts[step.t].Idle?
    requires !step.RetireFailed? && !step.Launch? && !step.Release? && !step.Reply?
    ensures Kept(Next(s, step), h)
  {
    var s' := NextOf(s, step, step.t, s.acts[step.t]);
    assert Found(s, h) ==> Found(s', h);
    KeptFrame(s, s', step.t, s'.acts[step.t], h);
  }

  lemma ReleaseKept(s: State, step: Step, h: Handle)
    requires Enabled(s, step) && Kept(s, h) && (step.Release? || step.Reply?)
    ensures Kept(Next(s, step), h)
  {
    var s' := NextOf(s, step, step.t, s.acts[step.t]);
    assert Found(s, h) ==> Found(s', h);
    if step.Release? {
      var k := s.acts[step.t].h;
      KeptFrame(s, s', step.t, AfterRelease(s.acts[step.t], Of(s, k).ref == 1), h);
    } else {
      assert s'.acts == s.acts[step.t := s'.acts[step.t]];
      KeptFrame(s, s', step.t, s'.acts[step.t], h);
    }
  }

  lemma NewKept(s: State, step: Step, h: Handle)
    requires Inv(s) && Enabled(s, step) && Kept(s, h) && !(step.Kill? && step.h == h)
    requires step.Send? || step.Visit? || step.Kill? || step.PopGlobal?
    ensures Kept(Next(s, step), h)
  {
    var s' := Next(s, step);
    if s' != s { KeptFrame(s, s', step.t, s'.acts[step.t], h); }
  }

  lemma DeleteKept(s: State, step: Step, h: Handle)
    requires Enabled(s, step) && Kept(s, h) && Deletes(step)
    ensures Kept(Next(s, step), h)
  {
    assert forall u :: u in s.acts && Creator(s.acts[u], h) ==> Found(s, h);
  }

  lemma StaysKept(s: State, step: Step, h: Handle)
    requires Inv(s) && Enabled(s, step) && Kept(s, h) && !(step.Kill? && step.h == h)
    ensures Kept(Next(s, step), h)
  {
    if Deletes(step) { DeleteKept(s, step, h); }
    else if step.Create? { CreateKept(s, step.t, step.h, h); }
    else if step.RetireFailed? { RetireKept(s, step.t, h); }
    else if step.Launch? { LaunchKept(s, step.t, h); }
    else if s.acts[step.t].Idle? { NewKept(s, step, h); }
    else if step.Release? || step.Reply? { ReleaseKept(s, step, h); }
    else { OtherKept(s, step, h); }
  }

  ghost predicate NoKill(steps: seq<Step>, h: Handle)
  {
    forall k :: 0 <= k < |steps| ==> !(steps[k].Kill? && steps[k].h == h)
  }

  lemma {:induction false} RunKept(s: State, steps: seq<Step>, h: Handle)
    requires Inv(s) && Kept(s, h) && NoKill(steps, h)
    ensures Kept(After(s, steps), h)
    decreases |steps|
  {
    if steps != [] {
      if Enabled(s, steps[0]) {
        StepKeeps(s, steps[0]);
        StaysKept(s, steps[0], h);
      }
      assert NoKill(steps[1..], h);
      RunKept(if Enabled(s, steps[0]) then Next(s, steps[0]) else s, steps[1..], h);
    }
  }

  /** In a run in which nobody kills a service, the late steps of its creation are safe. */
  lemma LateStepsSafe(threads: set<Thread>, steps: seq<Step>, step: Step, h: Handle)
    requires var s := After(Start(threads), steps); Enabled(s, step) && Late(step) && s.acts[step.t].h == h
    requires NoKill(steps, h)
    ensures var s := After(Start(threads), steps); Found(s, h) && s.services[h].phase == Alive
  {
    var s := After(Start(threads), steps);
    StartOk(threads);
    RunKept(Start(threads), steps, h);
    RunKeeps(Start(threads), steps);
    assert Fine(s, h);
    assert Creator(s.acts[step.t], h);
  }

  // ---- A service that is killed early --------------------------------------------------------

  /** One service without messages, and two threads. */
  function Scene(ref: int, slotted: bool, init: bool, phase: Phase, global: seq<Handle>, a0: Activity,
                 a1: Activity): State
  {
    var release := phase == Marked || phase == Gone;
    var v := Service(ref, slotted, init, phase, Mailbox([], true, release), false, [], [], [], []);
    State(map[1 := v], map[0 := a0, 1 := a1], global)
  }

  lemma {:induction false} OneMore(s: State, steps: seq<Step>, step: Step)
    ensures After(s, steps + [step]) == var r := After(s, steps); if Enabled(r, step) then Next(r, step) else r
    decreases |steps|
  {
    if steps == [] {
      assert [step][1..] == [] && [] + [step] == [step];
    } else {
      assert (steps + [step])[1..] == steps[1..] + [step];
      OneMore(if Enabled(s, steps[0]) then Next(s, steps[0]) else s, steps[1..], step);
    }
  }

  lemma Reach(s: State, step: Step, s': State)
    requires Reachable(s) && Enabled(s, step) && Next(s, step) == s'
    ensures Reachable(s')
  {
    var threads, steps :| s == After(Start(threads), steps);
    OneMore(Start(threads), steps, step);
  }

  lemma Begun()
    ensures Reachable(Scene(2, true, false, Alive, [], Creating(1), Idle))
  {
    assert After(Start({0, 1}), []) == Start({0, 1});
    Reach(Start({0, 1}), Create(0, 1), Scene(2, true, false, Alive, [], Creating(1), Idle));
  }

  lemma Initialised()
    ensures Reachable(Scene(2, true, false, Alive, [], Created(1), Idle))
  {
    Begun();
    var s := Scene(2, true, false, Alive, [], Creating(1), Idle);
    Reach(s, InitReturns(0, true), Scene(2, true, false, Alive, [], Created(1), Idle));
  }

  lemma Released()
    ensures Reachable(Scene(1, true, false, Alive, [], Live(1), Idle))
  {
    Initialised();
    var s := Scene(2, true, false, Alive, [], Created(1), Idle);
    Reach(s, Release(0), Scene(1, true, false, Alive, [], Live(1), Idle));
  }

  lemma Written()
    ensures Reachable(Scene(1, true, true, Alive, [], Launching(1, true), Idle))
  {
    Released();
    var s := Scene(1, true, false, Alive, [], Live(1), Idle);
    Reach(s, WriteInit(0), Scene(1, true, true, Alive, [], Launching(1, true), Idle));
  }

  lemma Launched()
    ensures Reachable(Scene(1, true, true, Alive, [1], Announcing(1), Idle))
  {
    Written();
    var s := Scene(1, true, true, Alive, [], Launching(1, true), Idle);
    Reach(s, Launch(0), Scene(1, true, true, Alive, [1], Announcing(1), Idle));
  }

  /** The other thread kills the service. */
  lemma Killed(init: bool, global: seq<Handle>, a: Activity)
    requires Reachable(Scene(1, true, init, Alive, global, a, Idle))
    ensures Reachable(Scene(1, false, init, Alive, global, a, Leaving(1)))
  {
    var s := Scene(1, true, init, Alive, global, a, Idle);
    Reach(s, Kill(1, 1), Scene(1, false, init, Alive, global, a, Leaving(1)));
  }

  lemma LetGo(init: bool, global: seq<Handle>, a: Activity)
    requires Reachable(Scene(1, false, init, Alive, global, a, Leaving(1)))
    ensures Reachable(Scene(0, false, init, Dying, global, a, Idle))
  {
    var s := Scene(1, false, init, Alive, global, a, Leaving(1));
    Reach(s, Release(1), Scene(0, false, init, Dying, global, a, Idle));
  }

  lemma MarkedToo(init: bool, global: seq<Handle>, a: Activity)
    requires Reachable(Scene(0, false, init, Dying, global, a, Idle))
    ensures Reachable(Scene(0, false, init, Marked, global, a, Idle))
  {
    var s := Scene(0, false, init, Dying, global, a, Idle);
    Reach(s, MarkRelease(1), Scene(0, false, init, Marked, global, a, Idle));
  }

  lemma Deleted(init: bool, global: seq<Handle>, a: Activity)
    requires Reachable(Scene(0, false, init, Dying, global, a, Idle))
    ensures Reachable(Scene(0, false, init, Gone, global, a, Idle))
  {
    MarkedToo(init, global, a);
    var s := Scene(0, false, init, Marked, global, a, Idle);
    Reach(s, FreeContext(1), Scene(0, false, init, Gone, global, a, Idle));
  }

  /** A service is created and another thread kills it right after its `init` function returned:
    the creator then sets `init` in a context that has been freed. */
  lemma WritesToFreedContext() returns (s: State)
    ensures Reachable(s) && Enabled(s, WriteInit(0)) && ContextsTouched(s, WriteInit(0)) == {1}
    ensures 1 in s.services && s.services[1].phase == Gone
  {
    s := Scene(0, false, false, Gone, [], Live(1), Idle);
    Released();
    Killed(false, [], Live(1));
    LetGo(false, [], Live(1));
    Deleted(false, [], Live(1));
  }

  /** When the kill comes a little later, it is the report of the launch that reads one. */
  lemma ReportsFreedContext() returns (s: State)
    ensures Reachable(s) && Enabled(s, Announce(0)) && ContextsTouched(s, Announce(0)) == {1}
    ensures 1 in s.services && s.services[1].phase == Gone
  {
    s := Scene(0, false, true, Gone, [1], Announcing(1), Idle);
    Launched();
    Killed(true, [1], Announcing(1));
    LetGo(true, [1], Announcing(1));
    Deleted(true, [1], Announcing(1));
  }
}
