/** The spinning reader-writer lock of `rwlock.h`: any number of threads, one atomic access of
  `write` or `read` at a time. */
module RwLock {
  import FiniteSets

  type Thread = nat

  /** Where a thread is. A reader has incremented `read` in `Checking`, `BackingOut` and `Reading`;
    a writer has set `write` in `Waiting` and `Writing`. */
  datatype Place = Outside | Spinning | Entering | Checking | BackingOut | Reading | Claiming | Waiting | Writing

  datatype State = State(write: bool, read: int, at: map<Thread, Place>)

  datatype Step = WantRead(t: Thread) | WantWrite(t: Thread) | Go(t: Thread)

  function Start(threads: set<Thread>): State { State(false, 0, map t | t in threads :: Outside) }

  predicate Enabled(s: State, step: Step)
  {
    step.t in s.at && (s.at[step.t] == Outside <==> !step.Go?)
  }

  function Next(s: State, step: Step): (r: State)
    requires Enabled(s, step)
  {
    var t := step.t;
    match step
    case WantRead(_) => s.(at := s.at[t := Spinning])
    case WantWrite(_) => s.(at := s.at[t := Claiming])
    case Go(_) =>
      match s.at[t]
      case Outside => s
      // rwlock_rlock
      case Spinning => if s.write then s else s.(at := s.at[t := Entering])
      case Entering => s.(read := s.read + 1, at := s.at[t := Checking])
      case Checking => s.(at := s.at[t := if s.write then BackingOut else Reading])
      case BackingOut => s.(read := s.read - 1, at := s.at[t := Spinning])
      // rwlock_runlock
      case Reading => s.(read := s.read - 1, at := s.at[t := Outside])
      // rwlock_wlock
      case Claiming => if s.write then s else s.(write := true, at := s.at[t := Waiting])
      case Waiting => if s.read != 0 then s else s.(at := s.at[t := Writing])
      // rwlock_wunlock
      case Writing => s.(write := false, at := s.at[t := Outside])
  }

  predicate Counts(p: Place) { p == Checking || p == BackingOut || p == Reading }

  predicate Claims(p: Place) { p == Waiting || p == Writing }

  function Readers(s: State): set<Thread> { set t | t in s.at && Counts(s.at[t]) }

  function Writers(s: State): set<Thread> { set t | t in s.at && Claims(s.at[t]) }

  function In(s: State, p: Place): set<Thread> { set t | t in s.at && s.at[t] == p }

  /** `read` counts the readers between increment and decrement, also those backing out; `write`
    says whether there is a writer, of which there is one at most; and a writer inside keeps
    readers out. */
  ghost predicate Inv(s: State)
  {
    && s.read == |Readers(s)|
    && (s.write <==> Writers(s) != {})
    && |Writers(s)| <= 1
    && (In(s, Writing) != {} ==> In(s, Reading) == {})
  }

  function One(b: bool): int { if b then 1 else 0 }

  lemma MovedReaders(s: State, s': State, t: Thread, p: Place)
    requires t in s.at && s'.at == s.at[t := p]
    ensures |Readers(s')| == |Readers(s)| - One(Counts(s.at[t])) + One(Counts(p))
  {
    var rest := Readers(s) - {t};
    assert Readers(s) == if Counts(s.at[t]) then rest + {t} else rest;
    assert Readers(s') == if Counts(p) then rest + {t} else rest;
  }

  lemma MovedWriters(s: State, s': State, t: Thread, p: Place)
    requires t in s.at && s'.at == s.at[t := p]
    ensures |Writers(s')| == |Writers(s)| - One(Claims(s.at[t])) + One(Claims(p))
  {
    var rest := Writers(s) - {t};
    assert Writers(s) == if Claims(s.at[t]) then rest + {t} else rest;
    assert Writers(s') == if Claims(p) then rest + {t} else rest;
  }

  lemma StepKeeps(s: State, step: Step)
    requires Inv(s) && Enabled(s, step)
    ensures Inv(Next(s, step))
  {
    var s', t := Next(s, step), step.t;
    if s'.at != s.at {
      var p := s'.at[t];
      assert s'.at == s.at[t := p];
      MovedReaders(s, s', t, p);
      MovedWriters(s, s', t, p);
      if Claims(s.at[t]) { assert t in Writers(s); }
      if Claims(p) { assert t in Writers(s'); }
      KeepsOut(s, s', t, p);
    }
  }

  /** A writer inside still keeps readers out after thread `t` has moved to `p`. */
  lemma KeepsOut(s: State, s': State, t: Thread, p: Place)
    requires Inv(s) && t in s.at && s'.at == s.at[t := p]
    requires p == Reading ==> !s.write
    requires p == Writing ==> s.read == 0
    ensures In(s', Writing) != {} ==> In(s', Reading) == {}
  {
    if w :| w in In(s', Writing) {
      assert w in Writers(s) <==> w in s.at && Claims(s.at[w]);
      assert w in In(s, Writing) <==> w in s.at && s.at[w] == Writing;
      forall r ensures r !in In(s', Reading) {
        assert r in Readers(s) <==> r in s.at && Counts(s.at[r]);
        assert r in In(s, Reading) <==> r in s.at && s.at[r] == Reading;
      }
    }
  }

  ghost predicate Path(states: seq<State>, steps: seq<Step>)
  {
    |states| == |steps| + 1
    && forall k :: 0 <= k < |steps| ==> Enabled(states[k], steps[k]) && states[k + 1] == Next(states[k], steps[k])
  }

  ghost predicate Reachable(s: State)
  {
    exists threads, states, steps :: Path(states, steps) && states[0] == Start(threads) && states[|steps|] == s
  }

  lemma {:induction false} PathKeeps(states: seq<State>, steps: seq<Step>, n: nat)
    requires Path(states, steps) && Inv(states[0]) && n <= |steps|
    ensures Inv(states[n])
    decreases n
  {
    if n > 0 {
      PathKeeps(states, steps, n - 1);
      StepKeeps(states[n - 1], steps[n - 1]);
    }
  }

  lemma ReachableOk(s: State)
    requires Reachable(s)
    ensures Inv(s)
  {
    var threads, states, steps :| Path(states, steps) && states[0] == Start(threads) && states[|steps|] == s;
    assert Readers(Start(threads)) == {} && Writers(Start(threads)) == {} && In(Start(threads), Writing) == {};
    PathKeeps(states, steps, |steps|);
  }

  /** A writer inside excludes every reader and every other writer; and `read` counts the readers. */
  lemma Excludes(s: State, t: Thread, u: Thread)
    requires Reachable(s) && t in s.at && u in s.at && s.at[t] == Writing
    ensures s.at[u] != Reading && (s.at[u] == Writing ==> u == t)
    ensures s.read == |Readers(s)|
  {
    ReachableOk(s);
    assert t in In(s, Writing) && t in Writers(s);
    assert s.at[u] == Reading ==> u in In(s, Reading);
    if s.at[u] == Writing && u != t {
      assert {t, u} <= Writers(s);
      assert |{t, u}| == 2;
      FiniteSets.SubsetSize({t, u}, Writers(s));
    }
  }

  /** The lock never blocks everybody: while a thread wants in or has to leave, the next access of
    some thread is not a vain spin. */
  lemma SomebodyMoves(s: State, t: Thread) returns (u: Thread)
    requires Reachable(s) && t in s.at && s.at[t] != Outside
    ensures u in s.at && s.at[u] != Outside && Next(s, Go(u)) != s
  {
    ReachableOk(s);
    u := t;
    if s.write && (s.at[t] == Spinning || s.at[t] == Claiming) {
      u :| u in Writers(s);
    }
    if s.at[u] == Waiting && s.read != 0 {
      assert Readers(s) != {};
      u :| u in Readers(s);
    }
    assert Next(s, Go(u)).at[u] != s.at[u];
  }

  // ---- A waiting writer gets in ------------------------------------------------------------

  /** A reader that passed the spin, or is in, moves on at its next access and not in vain. */
  predicate Passing(p: Place) { p == Entering || p == Checking || p == BackingOut || p == Reading }

  /** How many accesses readers still make before `read` is 0 for good, while a writer waits. */
  function Ahead(s: State): nat
  {
    3 * |In(s, Entering)| + 2 * |In(s, Checking)| + |In(s, BackingOut)| + |In(s, Reading)|
  }

  function Weight(p: Place): nat
  {
    match p
    case Entering => 3
    case Checking => 2
    case BackingOut => 1
    case Reading => 1
    case _ => 0
  }

  lemma MovedIn(s: State, s': State, t: Thread, p: Place, q: Place)
    requires t in s.at && s'.at == s.at[t := p]
    ensures |In(s', q)| == |In(s, q)| - One(s.at[t] == q) + One(p == q)
  {
    var rest := In(s, q) - {t};
    assert In(s, q) == if s.at[t] == q then rest + {t} else rest;
    assert In(s', q) == if p == q then rest + {t} else rest;
  }

  lemma MovedAhead(s: State, s': State, t: Thread, p: Place)
    requires t in s.at && s'.at == s.at[t := p]
    ensures Ahead(s') == Ahead(s) - Weight(s.at[t]) + Weight(p)
  {
    MovedIn(s, s', t, p, Entering);
    MovedIn(s, s', t, p, Checking);
    MovedIn(s, s', t, p, BackingOut);
    MovedIn(s, s', t, p, Reading);
  }

  /** While a writer waits no reader gets in, and each access of a passing reader is one less ahead. */
  lemma WaitShrinks(s: State, step: Step, w: Thread)
    requires Inv(s) && Enabled(s, step) && w in s.at && s.at[w] == Waiting && Next(s, step).at[w] == Waiting
    ensures In(Next(s, step), Reading) <= In(s, Reading)
    ensures Ahead(Next(s, step)) == Ahead(s) - One(Passing(s.at[step.t]))
  {
    assert w in Writers(s);
    var s', t := Next(s, step), step.t;
    if s'.at != s.at {
      assert s'.at == s.at[t := s'.at[t]];
      MovedAhead(s, s', t, s'.at[t]);
    }
  }

  /** The accesses of passing readers in a run. */
  ghost function Passed(states: seq<State>, steps: seq<Step>, n: nat): nat
    requires Path(states, steps) && n <= |steps|
  {
    if n == 0 then 0 else Passed(states, steps, n - 1) + One(Passing(states[n - 1].at[steps[n - 1].t]))
  }

  /** In any run through which a writer waits, readers make at most `Ahead` accesses that are not
    vain spins. When they have made them all, the next access of the writer lets it in: readers
    cannot starve a waiting writer. */
  lemma {:induction false} WriterGetsIn(states: seq<State>, steps: seq<Step>, n: nat, w: Thread)
    requires Path(states, steps) && Inv(states[0]) && n <= |steps|
    requires forall k :: 0 <= k <= n ==> w in states[k].at && states[k].at[w] == Waiting
    ensures Passed(states, steps, n) + Ahead(states[n]) == Ahead(states[0])
    ensures In(states[n], Reading) <= In(states[0], Reading)
    ensures Ahead(states[n]) == 0 ==> Next(states[n], Go(w)).at[w] == Writing
    decreases n
  {
    if n > 0 {
      WriterGetsIn(states, steps, n - 1, w);
      PathKeeps(states, steps, n - 1);
      assert states[n - 1 + 1] == Next(states[n - 1], steps[n - 1]);
      WaitShrinks(states[n - 1], steps[n - 1], w);
    }
    PathKeeps(states, steps, n);
    if Ahead(states[n]) == 0 { NobodyAhead(states[n]); }
  }

  lemma NobodyAhead(s: State)
    requires Inv(s) && Ahead(s) == 0
    ensures s.read == 0
  {
    assert In(s, Checking) == {} && In(s, BackingOut) == {} && In(s, Reading) == {};
    forall t ensures t !in Readers(s) {
      assert t !in In(s, Checking) && t !in In(s, BackingOut) && t !in In(s, Reading);
    }
    assert Readers(s) == {};
  }

  // ---- Readers get in, and everybody gets out ------------------------------------------------

  /** Where no writer holds or claims the lock, a reader that wants in is in after three accesses. */
  lemma ReaderGoesIn(s: State, t: Thread)
    requires Reachable(s) && t in s.at && s.at[t] == Spinning && Writers(s) == {}
    ensures var s1 := Next(s, Go(t)); var s2 := Next(s1, Go(t)); var s3 := Next(s2, Go(t));
      && s1.at[t] != Outside && s2.at[t] != Outside && s3.at == s.at[t := Reading]
      && s3.read == s.read + 1 && s3.write == s.write
  {
    ReachableOk(s);
  }

  /** How many accesses of a reader it takes to be in, while no writer is there. */
  function Needed(p: Place): nat
  {
    match p
    case Spinning => 3
    case Entering => 2
    case Checking => 1
    case _ => 0
  }

  /** The accesses of thread `t` in the first `n` steps. */
  function Accesses(steps: seq<Step>, t: Thread, n: nat): nat
    requires n <= |steps|
  {
    if n == 0 then 0 else Accesses(steps, t, n - 1) + if steps[n - 1] == Go(t) then 1 else 0
  }

  /** In any run of many threads in which no writer sets the flag, a reader that wants in is in at its third
    access, and not before, whatever the others do. */
  lemma {:induction false} ReaderGetsIn(states: seq<State>, steps: seq<Step>, n: nat, t: Thread)
    requires Path(states, steps) && n <= |steps| && t in states[0].at && states[0].at[t] == Spinning
    requires forall k :: 0 <= k <= n ==> !states[k].write
    requires Accesses(steps, t, n) <= 3
    ensures t in states[n].at && Needed(states[n].at[t]) + Accesses(steps, t, n) == 3
    ensures states[n].at[t] == Reading <==> Accesses(steps, t, n) == 3
    ensures states[n].at[t] in {Spinning, Entering, Checking, Reading}
    decreases n
  {
    if n > 0 {
      ReaderGetsIn(states, steps, n - 1, t);
      assert states[n - 1 + 1] == Next(states[n - 1], steps[n - 1]);
    }
  }

  /** A thread leaves only from inside, at its next access, and gives up what it held. */
  lemma LeavesFromInside(s: State, t: Thread)
    requires t in s.at && s.at[t] != Outside
    ensures Next(s, Go(t)).at[t] == Outside <==> s.at[t] == Reading || s.at[t] == Writing
    ensures s.at[t] == Reading ==> Next(s, Go(t)) == State(s.write, s.read - 1, s.at[t := Outside])
    ensures s.at[t] == Writing ==> Next(s, Go(t)) == State(false, s.read, s.at[t := Outside])
  {
  }

  /** A thread that wants to read is on its way in as a reader, one that wants to write as a writer, and neither
    becomes the other. */
  lemma StaysWhatItIs(s: State, step: Step)
    requires Enabled(s, step)
    ensures var p, p' := s.at[step.t], Next(s, step).at[step.t];
      && (step.WantRead? ==> p' == Spinning) && (step.WantWrite? ==> p' == Claiming)
      && (p in {Spinning, Entering, Checking, BackingOut} ==> p' in {Spinning, Entering, Checking, BackingOut, Reading})
      && (p in {Claiming, Waiting} ==> p' in {Claiming, Waiting, Writing})
    ensures forall u :: u in s.at && u != step.t ==> Next(s, step).at[u] == s.at[u]
  {
  }

  /** Where nobody holds or claims the lock, a writer that wants in is in after two accesses. */
  lemma WriterGoesIn(s: State, t: Thread)
    requires Reachable(s) && t in s.at && s.at[t] == Claiming && Writers(s) == {} && Readers(s) == {}
    ensures var s1 := Next(s, Go(t)); var s2 := Next(s1, Go(t));
      s1.at[t] != Outside && s2 == State(true, 0, s.at[t := Writing])
  {
    ReachableOk(s);
  }
}
