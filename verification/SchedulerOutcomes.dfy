/** What becomes of sends, kills and launches: each operation of `Scheduler`, followed to its end. */
module SchedulerOutcomes {
  import opened Basics
  import opened MessageQueues
  import opened Scheduler

  // ---- Sending -----------------------------------------------------------------------------

  /** A message sent to a service that can be found is appended to its queue by the next step of the
    sender, and somebody has that queue or will come for it; nothing else changes. A message to a service
    that cannot be found goes nowhere. */
  lemma SendDelivers(s: State, t: Thread, h: Handle, m: Message)
    requires Reachable(s) && Enabled(s, Send(t, h, m))
    ensures !Found(s, h) ==> Next(s, Send(t, h, m)) == s
    ensures Found(s, h) ==>
      var s1 := Next(s, Send(t, h, m));
      && Enabled(s1, Push(t)) && var s2 := Next(s1, Push(t));
      && h in s2.services && s2.services[h].queue.messages == s.services[h].queue.messages + [m]
      && s2.services[h].pushed == s.services[h].pushed + [m] && s2.services[h].taken == s.services[h].taken
      && (h in s2.global || Owned(s2, h))
      && forall k :: k != h && k in s.services ==> k in s2.services && s2.services[k] == s.services[k]
  {
    if Found(s, h) {
      var s1 := Next(s, Send(t, h, m));
      var s2 := Next(s1, Push(t));
      ReachableOk(s);
      StepKeeps(s, Send(t, h, m));
      StepKeeps(s1, Push(t));
      assert Fine(s2, h);
    }
  }

  /** The steps are none of thread `t`. */
  ghost predicate OfOthers(steps: seq<Step>, t: Thread)
  {
    forall k :: 0 <= k < |steps| ==> Deletes(steps[k]) || steps[k].t != t
  }

  lemma OthersKeep(s: State, step: Step, t: Thread)
    requires Enabled(s, step) && t in s.acts && (Deletes(step) || step.t != t)
    ensures t in Next(s, step).acts && Next(s, step).acts[t] == s.acts[t]
  {
    if !Deletes(step) && !s.acts[step.t].Idle? {
      assert NextOf(s, step, step.t, s.acts[step.t]).acts.Keys == s.acts.Keys;
    }
  }

  lemma {:induction false} RunOfOthers(s: State, steps: seq<Step>, t: Thread)
    requires t in s.acts && OfOthers(steps, t)
    ensures t in After(s, steps).acts && After(s, steps).acts[t] == s.acts[t]
    decreases |steps|
  {
    if steps != [] {
      if Enabled(s, steps[0]) { OthersKeep(s, steps[0], t); }
      RunOfOthers(if Enabled(s, steps[0]) then Next(s, steps[0]) else s, steps[1..], t);
    }
  }

  /** Whatever the others do before the sender goes on, and whatever happens later: the message is one
    more of those pushed to the service, and stays at its place. */
  lemma SendArrives(s: State, t: Thread, h: Handle, m: Message, before: seq<Step>, later: seq<Step>)
    requires Reachable(s) && Enabled(s, Send(t, h, m)) && Found(s, h) && OfOthers(before, t)
    ensures var s1 := After(Next(s, Send(t, h, m)), before);
      && Enabled(s1, Push(t)) && h in s1.services && s.services[h].pushed <= s1.services[h].pushed
      && var s2, n := After(Next(s1, Push(t)), later), |s1.services[h].pushed|;
      h in s2.services && |s2.services[h].pushed| > n && s2.services[h].pushed[n] == m
  {
    var s0 := Next(s, Send(t, h, m));
    var s1 := After(s0, before);
    ReachableOk(s);
    StepKeeps(s, Send(t, h, m));
    RunOfOthers(s0, before, t);
    RunGrows(s0, before, h);
    RunKeeps(s0, before);
    var s2 := Next(s1, Push(t));
    StepKeeps(s1, Push(t));
    assert s2.services[h].pushed == s1.services[h].pushed + [m];
    RunGrows(s2, later, h);
  }

  // ---- Serving -----------------------------------------------------------------------------

  /** A worker that takes the queue of a service that can be found and has a message runs the callback with
    the first one. */
  lemma WorkerServes(s: State, t: Thread)
    requires Reachable(s) && Enabled(s, PopGlobal(t)) && Found(s, s.global[0])
    requires s.services[s.global[0]].queue.messages != []
    ensures var h, s1 := s.global[0], Next(s, PopGlobal(t));
      && Enabled(s1, GrabQueue(t)) && var s2 := Next(s1, GrabQueue(t));
      && Enabled(s2, PopMessage(t)) && var s3 := Next(s2, PopMessage(t));
      && s3.acts[t] == Running(h, s.services[h].queue.messages[0]) && s3.global == s.global[1..]
      && s3.services[h].queue.messages == s.services[h].queue.messages[1..]
      && s3.services[h].taken == s.services[h].taken + [s.services[h].queue.messages[0]]
      && s3.services[h].fates == s.services[h].fates + [Dispatched]
  {
  }

  /** So does one that goes on serving; and one that finds no message lets go of the context and the queue, which
    the next message will list again. */
  lemma ServesOn(s: State, t: Thread)
    requires Reachable(s) && Enabled(s, PopMessage(t))
    ensures var h := s.acts[t].h; h in s.services && var v, s1 := s.services[h], Next(s, PopMessage(t));
      if v.queue.messages == [] then
        s1.acts[t] == Leaving(h) && !s1.services[h].queue.inGlobal && s1.services[h].queue.messages == []
        && !Owned(s1, h) && h !in s1.global
      else
        s1.acts[t] == Running(h, v.queue.messages[0]) && s1.services[h].queue.messages == v.queue.messages[1..]
        && s1.services[h].taken == v.taken + [v.queue.messages[0]]
        && s1.services[h].fates == v.fates + [Dispatched]
  {
    ReachableOk(s);
    var h, s1 := s.acts[t].h, Next(s, PopMessage(t));
    assert Fine(s, h) && OwnedBy(s, h, t);
    StepKeeps(s, PopMessage(t));
    assert Fine(s1, h);
    if s.services[h].queue.messages == [] {
      forall u ensures !OwnedBy(s1, h, u) {
        if u != t && OwnedBy(s1, h, u) { assert OwnedBy(s, h, u); }
      }
    }
  }

  /** A worker that is through with a queue goes on with the first one of the list and puts its own at the end;
    when the list is empty it keeps its own. */
  lemma TakesTurns(s: State, t: Thread)
    requires Reachable(s) && Enabled(s, TakeNext(t))
    ensures var h, s1 := s.acts[t].h, Next(s, TakeNext(t));
      if s.global == [] then
        Enabled(s1, Release(t)) && Next(s1, Release(t)).acts[t] == Holding(h) && Next(s1, Release(t)).global == []
      else
        Enabled(s1, PutBack(t)) && var s2 := Next(s1, PutBack(t));
        Enabled(s2, Release(t)) && var s3 := Next(s2, Release(t));
        s3.acts[t] == Holding(s.global[0]) && s3.global == s.global[1..] + [h]
  {
  }

  /** The queue of a service that cannot be found any more, once it is marked, loses its messages one by one, each
    with an error for its sender, and is freed. */
  lemma DropsAll(s: State, t: Thread)
    requires Reachable(s) && Enabled(s, DropOne(t))
    ensures var h := s.acts[t].h; h in s.services && var v, s1 := s.services[h], Next(s, DropOne(t));
      if v.queue.messages == [] then Enabled(s1, Free(t)) && Next(s1, Free(t)).services[h].freed
      else
        s1.acts[t] == Replying(h, v.queue.messages[0]) && s1.services[h].queue.messages == v.queue.messages[1..]
        && s1.services[h].fates == v.fates + [Dropped]
  {
    ReachableOk(s);
    var h := s.acts[t].h;
    assert Fine(s, h) && OwnedBy(s, h, t);
  }

  // ---- Being found ---------------------------------------------------------------------------

  /** What ends that a service can be found. */
  predicate Retires(s: State, step: Step, h: Handle)
    requires Enabled(s, step)
  {
    (step.Kill? && step.h == h) || (step.RetireFailed? && s.acts[step.t].h == h)
  }

  predicate FoundNext(s: State, s': State, step: Step, h: Handle)
    requires Enabled(s, step)
  {
    && (Found(s', h) <==> (Found(s, h) && !Retires(s, step, h)) || (step.Create? && step.h == h))
    && (h in s.services ==> h in s'.services)
  }

  lemma FoundIdle(s: State, step: Step, h: Handle)
    requires Enabled(s, step) && (Deletes(step) || s.acts[step.t].Idle?)
    ensures FoundNext(s, Next(s, step), step, h)
  {
  }

  lemma FoundOf(s: State, step: Step)
    requires Enabled(s, step) && !Deletes(step) && !s.acts[step.t].Idle? && s.acts[step.t].h in s.services
    ensures FoundNext(s, NextOf(s, step, step.t, s.acts[step.t]), step, s.acts[step.t].h)
  {
  }

  lemma FoundBeside(s: State, step: Step, h: Handle)
    requires Enabled(s, step) && !Deletes(step) && !s.acts[step.t].Idle? && s.acts[step.t].h != h
    requires s.acts[step.t].h in s.services
    ensures FoundNext(s, NextOf(s, step, step.t, s.acts[step.t]), step, h)
  {
  }

  /** A service can be found from its creation on until it is retired, and never again. */
  lemma FoundExactly(s: State, step: Step, h: Handle)
    requires Reachable(s) && Enabled(s, step)
    ensures Found(Next(s, step), h) <==> (Found(s, h) && !Retires(s, step, h)) || (step.Create? && step.h == h)
    ensures step.Create? && step.h == h ==> h !in s.services
    ensures h in s.services ==> h in Next(s, step).services
  {
    if Deletes(step) || s.acts[step.t].Idle? {
      FoundIdle(s, step, h);
    } else {
      ActKnown(s, step.t);
      if s.acts[step.t].h == h { FoundOf(s, step); } else { FoundBeside(s, step, h); }
    }
  }

  lemma ActKnown(s: State, t: Thread)
    requires Reachable(s) && t in s.acts && !s.acts[t].Idle?
    ensures s.acts[t].h in s.services
  {
    ReachableOk(s);
    var h := s.acts[t].h;
    assert Fine(s, h);
    Involved(s, t, h);
  }

  /** After a kill the service is not found any more, in whatever run. */
  lemma {:induction false} KilledForGood(s: State, steps: seq<Step>, h: Handle)
    requires Inv(s) && Reachable(s) && h in s.services && !Found(s, h)
    ensures !Found(After(s, steps), h)
    decreases |steps|
  {
    if steps != [] {
      var s1 := if Enabled(s, steps[0]) then Next(s, steps[0]) else s;
      if Enabled(s, steps[0]) {
        FoundExactly(s, steps[0], h);
        StepKeeps(s, steps[0]);
        Reach(s, steps[0], s1);
      }
      KilledForGood(s1, steps[1..], h);
    }
  }

  lemma CreatorCounts(s: State, t: Thread)
    requires Reachable(s) && t in s.acts && s.acts[t].Creating? && Found(s, s.acts[t].h)
    ensures s.services[s.acts[t].h].ref >= 2
  {
    ReachableOk(s);
    var h := s.acts[t].h;
    assert Fine(s, h);
    Involved(s, t, h);
    assert Holders(s, h) != {};
  }

  /** A service whose `init` function succeeds, and that nobody kills meanwhile, has `init` set and its queue in the
    list when its creator reports it. */
  lemma LaunchLists(s: State, t: Thread)
    requires Reachable(s) && t in s.acts && s.acts[t].Creating? && Found(s, s.acts[t].h)
    ensures var h, s1 := s.acts[t].h, Next(s, InitReturns(t, true));
      && Enabled(s1, Release(t)) && var s2 := Next(s1, Release(t));
      && Enabled(s2, WriteInit(t)) && var s3 := Next(s2, WriteInit(t));
      && Enabled(s3, Launch(t)) && var s4 := Next(s3, Launch(t));
      && s4.acts[t] == Announcing(h) && s4.global == s.global + [h] && Found(s4, h) && s4.services[h].init
      && s4.services[h].queue == s.services[h].queue && s4.services[h].ref == s.services[h].ref - 1
  {
    var h := s.acts[t].h;
    CreatorCounts(s, t);
    ReachableOk(s);
    assert Fine(s, h);
    var s1 := Next(s, InitReturns(t, true));
    assert s1 == Become(s, t, Created(h));
    var v := s.services[h].(ref := s.services[h].ref - 1);
    var s2 := Next(s1, Release(t));
    assert s2 == Set(s1, h, v, t, Live(h));
    var s3 := Next(s2, WriteInit(t));
    assert s3 == Set(s2, h, v.(init := true), t, Launching(h, true));
  }

  /** One whose `init` function fails is retired, and its queue is handled as one whose context is gone. */
  lemma FailureRetires(s: State, t: Thread)
    requires Reachable(s) && t in s.acts && s.acts[t].Creating? && Found(s, s.acts[t].h)
    ensures var h, s1 := s.acts[t].h, Next(s, InitReturns(t, false));
      && Enabled(s1, Release(t)) && var s2 := Next(s1, Release(t));
      && Enabled(s2, RetireFailed(t)) && var s3 := Next(s2, RetireFailed(t));
      && h in s3.services && !Found(s3, h) && Enabled(s3, Release(t)) && var s4 := Next(s3, Release(t));
      && s4.acts[t] == Refused(h) && s4.services[h].ref == s.services[h].ref - 2 && s4.global == s.global
      && s4.services[h].queue == s.services[h].queue
  {
    var h := s.acts[t].h;
    CreatorCounts(s, t);
    var s1 := Next(s, InitReturns(t, false));
    assert s1 == Become(s, t, Failing(h));
    var v := s.services[h].(ref := s.services[h].ref - 1);
    var s2 := Next(s1, Release(t));
    assert s2 == Set(s1, h, v, t, Failed(h));
    var s3 := Next(s2, RetireFailed(t));
    assert s3 == Set(s2, h, v.(slotted := false), t, Retired(h));
  }

  /** A queue whose context cannot be found goes back to the list until it is marked; then it is dropped. */
  lemma RefusedQueue(s: State, t: Thread)
    requires Reachable(s) && Enabled(s, GrabQueue(t)) && !Found(s, s.acts[t].h)
    ensures var h, s1 := s.acts[t].h, Next(s, GrabQueue(t));
      h in s.services && Enabled(s1, HandBack(t)) && var s2 := Next(s1, HandBack(t));
      if s.services[h].queue.release then s2.acts[t] == Dropping(h) && s2.global == s.global
      else s2.acts[t] == Idle && s2.global == s.global + [h]
  {
    ReachableOk(s);
    var h := s.acts[t].h;
    assert Fine(s, h) && OwnedBy(s, h, t);
  }

  /** One that was killed, and whose last reference its creator gives up, gets its queue listed all the same, but
    its creator neither sets `init` nor reports it. */
  lemma KilledLaunch(s: State, t: Thread)
    requires Reachable(s) && t in s.acts && s.acts[t].Created? && !Found(s, s.acts[t].h)
    requires Holders(s, s.acts[t].h) == {t}
    ensures var h, s1 := s.acts[t].h, Next(s, Release(t));
      && !Enabled(s1, WriteInit(t)) && Enabled(s1, Launch(t)) && var s2 := Next(s1, Launch(t));
      && s2.acts[t] == Idle && s2.global == s.global + [h] && h in s2.services && BeingDeleted(s2, h)
      && s2.services[h].init == s.services[h].init
  {
    ReachableOk(s);
    var h := s.acts[t].h;
    assert Fine(s, h);
    Involved(s, t, h);
    assert s.services[h].ref == 1;
  }

  // ---- What stays --------------------------------------------------------------------------

  predicate SameQueue(v: Service, v': Service) { v'.queue == v.queue && v'.freed == v.freed }

  predicate SameContext(v: Service, v': Service) { v'.ref == v.ref && v'.init == v.init && v'.phase == v.phase }

  /** A step changes only the queues and the contexts that it touches. */
  lemma TouchesOnly(s: State, step: Step, h: Handle)
    requires Reachable(s) && Enabled(s, step) && h in s.services
    ensures h in Next(s, step).services
    ensures h !in QueuesTouched(s, step) ==> SameQueue(s.services[h], Next(s, step).services[h])
    ensures h !in ContextsTouched(s, step) ==> SameContext(s.services[h], Next(s, step).services[h])
  {
    if !Deletes(step) && !s.acts[step.t].Idle? { TouchesOf(s, step, h); }
  }

  lemma TouchesOf(s: State, step: Step, h: Handle)
    requires Enabled(s, step) && !Deletes(step) && !s.acts[step.t].Idle? && h in s.services
    ensures var s' := NextOf(s, step, step.t, s.acts[step.t]);
      && h in s'.services && (h !in QueuesTouched(s, step) ==> SameQueue(s.services[h], s'.services[h]))
      && (h !in ContextsTouched(s, step) ==> SameContext(s.services[h], s'.services[h]))
  {
    var a := s.acts[step.t];
    if a.Replying? {
      TouchesReply(s, step, h);
    } else if a.h == h {
      TouchesOwn(s, step);
    } else {
      TouchesBeside(s, step, h);
    }
  }

  lemma TouchesReply(s: State, step: Step, h: Handle)
    requires Enabled(s, step) && !Deletes(step) && s.acts[step.t].Replying? && h in s.services
    ensures var s' := NextOf(s, step, step.t, s.acts[step.t]);
      && h in s'.services && SameQueue(s.services[h], s'.services[h])
      && (h !in ContextsTouched(s, step) ==> SameContext(s.services[h], s'.services[h]))
  {
  }

  lemma TouchesBeside(s: State, step: Step, h: Handle)
    requires Enabled(s, step) && !Deletes(step) && !s.acts[step.t].Idle? && !s.acts[step.t].Replying?
    requires h in s.services && s.acts[step.t].h != h
    ensures var s' := NextOf(s, step, step.t, s.acts[step.t]);
      h in s'.services && s'.services[h] == s.services[h]
  {
  }

  lemma TouchesOwn(s: State, step: Step)
    requires Enabled(s, step) && !Deletes(step) && !s.acts[step.t].Idle? && !s.acts[step.t].Replying?
    requires s.acts[step.t].h in s.services
    ensures var h, s' := s.acts[step.t].h, NextOf(s, step, step.t, s.acts[step.t]);
      && h in s'.services && (h !in QueuesTouched(s, step) ==> SameQueue(s.services[h], s'.services[h]))
      && (h !in ContextsTouched(s, step) ==> SameContext(s.services[h], s'.services[h]))
  {
  }
}
