/** `peephole`: the last pass of the compiler, and that it leaves every run with the same result. */
module PegPeephole {
  import opened PegTree
  import opened PegVm
  import opened PegCodegen
  import opened PegAnalysis
  import opened PegShapes
  import opened PegCorrect

  /** The instruction has a label that is rewritten to its final target. */
  predicate HasLabel(x: Slot)
  {
    x.IChoice? || x.ICall? || x.ICommit? || x.IPartialCommit? || x.IBackCommit?
    || x.ITestChar? || x.ITestSet? || x.ITestAny?
  }

  function WithOffset(x: Slot, offset: int): (r: Slot)
    requires HasLabel(x)
  {
    match x
    case IChoice(_) => IChoice(offset)
    case ICall(_) => ICall(offset)
    case ICommit(_) => ICommit(offset)
    case IPartialCommit(_) => IPartialCommit(offset)
    case IBackCommit(_) => IBackCommit(offset)
    case ITestChar(c, _) => ITestChar(c, offset)
    case ITestSet(cs, _) => ITestSet(cs, offset)
    case ITestAny(_) => ITestAny(offset)
  }

  /** Instructions that never go on to the next one and need no offset. */
  predicate Leaves(x: Slot) { x.IRet? || x.IFail? || x.IFailTwice? || x.IEnd? }

  predicate Commits(x: Slot) { x.ICommit? || x.IPartialCommit? || x.IBackCommit? }

  /** The label of the instruction at `i` goes to its final target. */
  function Relabel(code: Code, i: nat): (r: Code)
    requires i < |code| && HasLabel(code[i])
    ensures |r| == |code|
  {
    code[i := WithOffset(code[i], Final(code, i + code[i].offset) - i)]
  }

  /** One round of the loop of `peephole`. */
  function PeepAt(code: Code, i: nat): (r: Code)
    requires i < |code|
    ensures |r| == |code|
  {
    if HasLabel(code[i]) then Relabel(code, i)
    else if code[i].IJmp? then
      var ft := Final(code, i);
      if !(0 <= ft < |code|) then code[i := IJmp(ft - i)]
      else if Leaves(code[ft]) then
        var code1 := code[i := code[ft]];
        if i + 1 < |code| then code1[i + 1 := IAny] else code1
      else if Commits(code[ft]) then
        Relabel(code[i := WithOffset(code[ft], Final(code, ft + code[ft].offset) - i)], i)
      else code[i := IJmp(ft - i)]
    else code
  }

  function PeepFrom(code: Code, i: nat): (r: Code)
    requires i <= |code|
    ensures |r| == |code|
    decreases |code| - i
  {
    if i == |code| then code else
    var code1 := PeepAt(code, i);
    PeepFrom(code1, if i + SizeI(code1[i]) <= |code| then i + SizeI(code1[i]) else |code|)
  }

  function Peephole(code: Code): (r: Code)
    ensures |r| == |code|
  {
    PeepFrom(code, 0)
  }

  // ---- States that differ only by jumps still to be done ----------------------------------

  ghost predicate FrameJumps(code: Code, x: Frame, y: Frame)
  {
    match x
    case Return(p) => y == x
    case Backtrack(p, at, level) => y.Backtrack? && y.at == at && y.level == level && JumpsTo(code, p, y.p)
  }

  ghost predicate StackJumps(code: Code, x: Stack, y: Stack)
    decreases x
  {
    match x
    case Base => y.Base?
    case Push(rest, top) => y.Push? && FrameJumps(code, top, y.top) && StackJumps(code, rest, y.rest)
  }

  /** State `a` gets to `b` by jumps, now or when its stack entries are used. */
  ghost predicate Lags(code: Code, a: State, b: State)
  {
    match a
    case Run(p, at, stk, caps) =>
      b.Run? && JumpsTo(code, p, b.p) && b.at == at && b.caps == caps && StackJumps(code, stk, b.stack)
    case Failing(stk, caps) => b.Failing? && b.caps == caps && StackJumps(code, stk, b.stack)
    case _ => b == a
  }

  lemma JumpsSelf(code: Code, x: int)
    ensures JumpsTo(code, x, x)
  {
    assert Jumps(code, x, x, 0);
  }

  lemma {:induction false} StackJumpsSelf(code: Code, x: Stack)
    ensures StackJumps(code, x, x)
    decreases x
  {
    if x.Push? {
      StackJumpsSelf(code, x.rest);
      if x.top.Backtrack? { JumpsSelf(code, x.top.p); }
    }
  }

  lemma LagsSelf(code: Code, a: State)
    ensures Lags(code, a, a)
  {
    if a.Run? {
      JumpsSelf(code, a.p);
      StackJumpsSelf(code, a.stack);
    } else if a.Failing? {
      StackJumpsSelf(code, a.stack);
    }
  }

  /** At the same instruction, a step keeps the two states related. */
  lemma LagsStep(code: Code, s: Subject, a: State, b: State)
    requires Lags(code, a, b) && (a.Run? ==> a.p == b.p)
    ensures Lags(code, Step(code, s, a), Step(code, s, b))
  {
    var a', b' := Step(code, s, a), Step(code, s, b);
    if a'.Run? {
      JumpsSelf(code, a'.p);
    }
    if a.Run? && 0 <= a.p < |code| && code[a.p].IChoice? {
      JumpsSelf(code, a.p + code[a.p].offset);
    }
  }

  /** The later state halts no later, in the same way. */
  lemma {:induction false} LagsHalt(code: Code, s: Subject, a: State, b: State, k: nat) returns (n: nat)
    requires Lags(code, a, b) && HaltsIn(code, s, a, k) && Steps(code, s, a, k) != Bad
    ensures n <= k && HaltsIn(code, s, b, n) && Steps(code, s, b, n) == Steps(code, s, a, k)
    decreases k
  {
    if a.Halted() {
      HaltedStays(code, s, a, k);
      n := 0;
    } else if a.Run? && a.p != b.p {
      var m: nat :| Jumps(code, a.p, b.p, m);
      if a.at > |s| { HaltedStays(code, s, Bad, k - 1); }
      var a' := Step(code, s, a);
      assert Jumps(code, a'.p, b.p, m - 1);
      n := LagsHalt(code, s, a', b, k - 1);
    } else {
      LagsStep(code, s, a, b);
      n := LagsHalt(code, s, Step(code, s, a), Step(code, s, b), k - 1);
      n := n + 1;
    }
  }

  lemma {:induction false} LagsHaltBack(code: Code, s: Subject, a: State, b: State, k: nat, m: nat) returns (n: nat)
    requires Lags(code, a, b) && HaltsIn(code, s, b, k)
    requires a.Run? ==> Jumps(code, a.p, b.p, m)
    ensures HaltsIn(code, s, a, n) && Steps(code, s, a, n) == Steps(code, s, b, k)
    decreases k, m
  {
    if a.Halted() {
      n := 0;
      HaltedStays(code, s, b, k);
    } else {
      var a', b' := Step(code, s, a), Step(code, s, b);
      if a.Run? && a.at > |s| {
        HaltedStays(code, s, Bad, k - 1);
        n := 1;
        assert HaltsIn(code, s, a', 0);
      } else if a.Run? && m > 0 {
        assert Jumps(code, a'.p, b.p, m - 1);
        n := LagsHaltBack(code, s, a', b, k, m - 1);
        n := n + 1;
      } else {
        LagsStep(code, s, a, b);
        var m': nat := 0;
        if a'.Run? { m' :| Jumps(code, a'.p, b'.p, m'); }
        n := LagsHaltBack(code, s, a', b', k - 1, m');
        n := n + 1;
      }
    }
  }

  lemma LagsSame(code: Code, s: Subject, a: State, b: State)
    requires Lags(code, a, b)
    ensures Halt(code, s, a) == Halt(code, s, b) || Halt(code, s, a) == Ends(Bad)
  {
    if k: nat :| HaltsIn(code, s, a, k) {
      HaltIs(code, s, a, k);
      if Steps(code, s, a, k) != Bad {
        var n := LagsHalt(code, s, a, b, k);
        HaltIs(code, s, b, n);
      }
    } else if k: nat :| HaltsIn(code, s, b, k) {
      var m: nat := 0;
      if a.Run? { m :| Jumps(code, a.p, b.p, m); }
      var n := LagsHaltBack(code, s, a, b, k, m);
    }
  }

  // ---- One rewriting ----------------------------------------------------------------------

  lemma {:induction false} StepsSplit(code: Code, s: Subject, a: State, n: nat, k: nat)
    ensures Steps(code, s, a, n + k) == Steps(code, s, Steps(code, s, a, n), k)
    decreases n
  {
    if n > 0 { StepsSplit(code, s, Step(code, s, a), n - 1, k); }
  }

  lemma {:induction false} StepsHalt(code: Code, s: Subject, a: State, n: nat)
    ensures Halt(code, s, a) == Halt(code, s, Steps(code, s, a, n))
    decreases n
  {
    if n > 0 {
      One(code, s, a);
      StepsHalt(code, s, Step(code, s, a), n - 1);
    }
  }

  /** Some steps of the old code, at least one, do what one step of the new code does, up to jumps. */
  ghost predicate Follows(old_: Code, code: Code, s: Subject, a: State, n: nat)
  {
    n > 0 && Lags(old_, Steps(old_, s, a, n), Step(code, s, a))
  }

  /** The new code does what the old code does, wherever the old code does something. */
  ghost predicate Mimics(old_: Code, code: Code, s: Subject)
  {
    forall a: State :: !a.Halted() ==> Step(old_, s, a) == Bad || exists n: nat :: Follows(old_, code, s, a, n)
  }

  lemma {:induction false} MimicsBack(old_: Code, code: Code, s: Subject, a: State, k: nat)
    requires Mimics(old_, code, s) && HaltsIn(code, s, a, k)
    ensures Halt(old_, s, a) == Ends(Bad) || Halt(old_, s, a) == Ends(Steps(code, s, a, k))
    decreases k
  {
    if a.Halted() {
      HaltedStays(code, s, a, k);
      HaltIs(old_, s, a, 0);
    } else if Step(old_, s, a) == Bad {
      One(old_, s, a);
      HaltIs(old_, s, Bad, 0);
    } else {
      var n: nat :| Follows(old_, code, s, a, n);
      StepsHalt(old_, s, a, n);
      LagsSame(old_, s, Steps(old_, s, a, n), Step(code, s, a));
      MimicsBack(old_, code, s, Step(code, s, a), k - 1);
    }
  }

  lemma {:induction false} MimicsOn(old_: Code, code: Code, s: Subject, a: State, k: nat)
    requires Mimics(old_, code, s) && HaltsIn(old_, s, a, k) && Steps(old_, s, a, k) != Bad
    ensures Halts(code, s, a)
    decreases k
  {
    if a.Halted() {
      assert HaltsIn(code, s, a, 0);
    } else {
      if Step(old_, s, a) == Bad { HaltedStays(old_, s, Bad, k - 1); }
      var n: nat :| Follows(old_, code, s, a, n);
      var b := Steps(old_, s, a, n);
      var rest: nat := if n <= k then k - n else 0;
      if n <= k {
        StepsSplit(old_, s, a, n, k - n);
      } else {
        StepsSplit(old_, s, a, k, n - k);
        HaltedStays(old_, s, Steps(old_, s, a, k), n - k);
      }
      assert HaltsIn(old_, s, b, rest);
      var m := LagsHalt(old_, s, b, Step(code, s, a), rest);
      MimicsOn(old_, code, s, Step(code, s, a), m);
      One(code, s, a);
    }
  }

  /** Code that mimics another has its results, on every run that the other survives. */
  lemma MimicsSame(old_: Code, code: Code, s: Subject, a: State)
    requires Mimics(old_, code, s)
    ensures Halt(old_, s, a) == Ends(Bad) || Halt(code, s, a) == Halt(old_, s, a)
  {
    if k: nat :| HaltsIn(code, s, a, k) {
      MimicsBack(old_, code, s, a, k);
      HaltIs(code, s, a, k);
    } else if k: nat :| HaltsIn(old_, s, a, k) {
      HaltIs(old_, s, a, k);
      if Steps(old_, s, a, k) != Bad { MimicsOn(old_, code, s, a, k); }
    }
  }

  /** Where the two codes hold the same instruction they take the same step. */
  lemma SameStep(old_: Code, code: Code, s: Subject, a: State)
    requires |old_| == |code| && !a.Halted()
    requires a.Run? && 0 <= a.p < |code| ==> old_[a.p] == code[a.p]
    ensures Follows(old_, code, s, a, 1)
  {
    assert Steps(old_, s, a, 1) == Step(old_, s, a);
    LagsSelf(old_, Step(old_, s, a));
  }

  lemma RelabelMimics(code: Code, i: nat, s: Subject)
    requires i < |code| && HasLabel(code[i])
    ensures Mimics(code, Relabel(code, i), s)
  {
    forall a: State | !a.Halted() ensures exists n: nat :: Follows(code, Relabel(code, i), s, a, n) {
      if a.Run? && a.p == i {
        RelabelStep(code, i, s, a);
      } else {
        SameStep(code, Relabel(code, i), s, a);
      }
    }
  }

  lemma RelabelStep(code: Code, i: nat, s: Subject, a: State)
    requires i < |code| && HasLabel(code[i]) && a.Run? && a.p == i
    ensures Follows(code, Relabel(code, i), s, a, 1)
  {
    var x := i + code[i].offset;
    FinalTargetJumps(code, x, |code|);
    var b, b' := Step(code, s, a), Step(Relabel(code, i), s, a);
    assert Steps(code, s, a, 1) == b;
    LagsSelf(code, b);
  }

  // ---- A jump becomes what it jumps to ----------------------------------------------------

  lemma {:induction false} JumpsSteps(code: Code, s: Subject, x: int, y: int, m: nat, a: State)
    requires a.Run? && a.p == x && a.at <= |s| && Jumps(code, x, y, m)
    ensures Steps(code, s, a, m) == a.(p := y)
    decreases m
  {
    if m > 0 {
      JumpsSteps(code, s, x + code[x].offset, y, m - 1, a.(p := x + code[x].offset));
    }
  }

  /** A jump is at least one jump away from its final target. */
  lemma FinalBeyond(code: Code, i: nat) returns (m: nat)
    requires i < |code| && code[i].IJmp?
    ensures m > 0 && Jumps(code, i, Final(code, i), m)
  {
    var x := i + code[i].offset;
    FinalTargetJumps(code, x, |code| - 1);
    var k: nat :| Jumps(code, x, FinalTarget(code, x, |code| - 1), k);
    m := k + 1;
  }

  /** The jump at `i` is replaced by `x`, which does what the instruction at the target does. */
  ghost predicate Replaces(code: Code, i: nat, x: Slot, s: Subject)
    requires i < |code|
  {
    forall a: State :: a.Run? && a.p == i && a.at <= |s|
      ==> Lags(code, Step(code, s, a.(p := Final(code, i))), Step(code[i := x], s, a))
  }

  lemma ReplaceStep(code: Code, i: nat, x: Slot, new_: Code, s: Subject, a: State) returns (n: nat)
    requires i < |code| && code[i].IJmp? && Replaces(code, i, x, s) && |new_| == |code| && new_[i] == x
    requires a.Run? && a.p == i && a.at <= |s|
    ensures Follows(code, new_, s, a, n)
  {
    var m := FinalBeyond(code, i);
    JumpsSteps(code, s, i, Final(code, i), m, a);
    StepsSplit(code, s, a, m, 1);
    var b := a.(p := Final(code, i));
    assert Steps(code, s, b, 1) == Step(code, s, b);
    ReplacedStep(code, i, x, new_, s, a);
    n := m + 1;
  }

  /** What an instruction does, does not depend on the others. */
  lemma ReplacedStep(code: Code, i: nat, x: Slot, new_: Code, s: Subject, a: State)
    requires i < |code| && |new_| == |code| && new_[i] == x && a.Run? && a.p == i && a.at <= |s|
    ensures Step(new_, s, a) == Step(code[i := x], s, a)
  {
  }

  lemma ReplaceMimics(code: Code, i: nat, x: Slot, new_: Code, s: Subject)
    requires i < |code| && code[i].IJmp? && Replaces(code, i, x, s)
    requires new_ == code[i := x] || (At(code, i + 1, Pad) && new_ == code[i := x][i + 1 := IAny])
    ensures Mimics(code, new_, s)
  {
    forall a: State | !a.Halted() ensures Step(code, s, a) == Bad || exists n: nat :: Follows(code, new_, s, a, n) {
      if a.Run? && a.p == i && a.at <= |s| {
        var n := ReplaceStep(code, i, x, new_, s, a);
      } else if !a.Run? || !(0 <= a.p < |code|) || code[a.p] == new_[a.p] {
        SameStep(code, new_, s, a);
      }
    }
  }

  lemma LeavesReplaces(code: Code, i: nat, s: Subject)
    requires i < |code| && code[i].IJmp? && 0 <= Final(code, i) < |code| && Leaves(code[Final(code, i)])
    ensures Replaces(code, i, code[Final(code, i)], s)
  {
    forall a: State | a.Run? && a.p == i && a.at <= |s|
      ensures Lags(code, Step(code, s, a.(p := Final(code, i))), Step(code[i := code[Final(code, i)]], s, a))
    {
      LagsSelf(code, Step(code, s, a.(p := Final(code, i))));
    }
  }

  lemma CommitsReplaces(code: Code, i: nat, s: Subject)
    requires i < |code| && code[i].IJmp? && 0 <= Final(code, i) < |code| && Commits(code[Final(code, i)])
    ensures var ft := Final(code, i);
            Replaces(code, i, WithOffset(code[ft], Final(code, ft + code[ft].offset) - i), s)
  {
    var ft := Final(code, i);
    var x := WithOffset(code[ft], Final(code, ft + code[ft].offset) - i);
    FinalTargetJumps(code, ft + code[ft].offset, |code|);
    forall a: State | a.Run? && a.p == i && a.at <= |s|
      ensures Lags(code, Step(code, s, a.(p := ft)), Step(code[i := x], s, a))
    {
      LagsSelf(code, Step(code, s, a.(p := ft)));
    }
  }

  /** A jump straight to the final target. */
  lemma ShortcutMimics(code: Code, i: nat, s: Subject)
    requires i < |code| && code[i].IJmp?
    ensures Mimics(code, code[i := IJmp(Final(code, i) - i)], s)
  {
    var ft := Final(code, i);
    var new_ := code[i := IJmp(ft - i)];
    forall a: State | !a.Halted() ensures Step(code, s, a) == Bad || exists n: nat :: Follows(code, new_, s, a, n) {
      if a.Run? && a.p == i && a.at <= |s| {
        var m := FinalBeyond(code, i);
        JumpsSteps(code, s, i, ft, m, a);
        LagsSelf(code, a.(p := ft));
        assert Follows(code, new_, s, a, m);
      } else if !(a.Run? && a.p == i) {
        SameStep(code, new_, s, a);
      }
    }
  }

  // ---- The whole pass ---------------------------------------------------------------------

  /** Behind a jump there is space for its offset. */
  ghost predicate Roomy(code: Code)
  {
    forall j :: 0 <= j < |code| && code[j].IJmp? ==> At(code, j + 1, Pad)
  }

  ghost predicate SameResult(old_: Code, code: Code, s: Subject, a: State)
  {
    Halt(old_, s, a) == Ends(Bad) || Halt(code, s, a) == Halt(old_, s, a)
  }

  lemma PeepAtRoomy(code: Code, i: nat)
    requires i < |code| && Roomy(code)
    ensures Roomy(PeepAt(code, i))
  {
  }

  lemma PeepLeaves(code: Code, i: nat, s: Subject, a: State)
    requires i < |code| && Roomy(code) && code[i].IJmp? && 0 <= Final(code, i) < |code| && Leaves(code[Final(code, i)])
    ensures SameResult(code, PeepAt(code, i), s, a)
  {
    LeavesReplaces(code, i, s);
    ReplaceMimics(code, i, code[Final(code, i)], PeepAt(code, i), s);
    MimicsSame(code, PeepAt(code, i), s, a);
  }

  lemma PeepCommits(code: Code, i: nat, s: Subject, a: State)
    requires i < |code| && code[i].IJmp? && 0 <= Final(code, i) < |code| && Commits(code[Final(code, i)])
    ensures SameResult(code, PeepAt(code, i), s, a)
  {
    var ft := Final(code, i);
    var x := WithOffset(code[ft], Final(code, ft + code[ft].offset) - i);
    CommitsReplaces(code, i, s);
    ReplaceMimics(code, i, x, code[i := x], s);
    MimicsSame(code, code[i := x], s, a);
    RelabelMimics(code[i := x], i, s);
    MimicsSame(code[i := x], Relabel(code[i := x], i), s, a);
  }

  lemma PeepAtSame(code: Code, i: nat, s: Subject, a: State)
    requires i < |code| && Roomy(code)
    ensures Roomy(PeepAt(code, i)) && SameResult(code, PeepAt(code, i), s, a)
  {
    PeepAtRoomy(code, i);
    if HasLabel(code[i]) {
      RelabelMimics(code, i, s);
      MimicsSame(code, Relabel(code, i), s, a);
    } else if code[i].IJmp? {
      var ft := Final(code, i);
      if 0 <= ft < |code| && Leaves(code[ft]) {
        PeepLeaves(code, i, s, a);
      } else if 0 <= ft < |code| && Commits(code[ft]) {
        PeepCommits(code, i, s, a);
      } else {
        ShortcutMimics(code, i, s);
        MimicsSame(code, PeepAt(code, i), s, a);
      }
    }
  }

  lemma {:induction false} PeepFromSame(code: Code, i: nat, s: Subject, a: State)
    requires i <= |code| && Roomy(code)
    ensures SameResult(code, PeepFrom(code, i), s, a)
    decreases |code| - i
  {
    if i < |code| {
      PeepAtSame(code, i, s, a);
      var code1 := PeepAt(code, i);
      PeepFromSame(code1, if i + SizeI(code1[i]) <= |code| then i + SizeI(code1[i]) else |code|, s, a);
    }
  }

  /** `peephole` leaves every run with the same result, finished or not. Only a run that the
    interpreter's own assertions exclude may change. */
  lemma PeepholeSame(code: Code, s: Subject, a: State)
    requires Roomy(code)
    ensures Halt(code, s, a) == Ends(Bad) || Halt(Peephole(code), s, a) == Halt(code, s, a)
  {
    PeepFromSame(code, 0, s, a);
  }

  // ---- Generated code has space for its offsets -------------------------------------------

  /** Every instruction is followed by the elements it needs. */
  ghost predicate Spaced(code: Code)
  {
    forall j, y :: 0 <= j < |code| && j < y < j + SizeI(code[j]) ==> At(code, y, Pad)
  }

  lemma SpacedRoomy(code: Code)
    requires Spaced(code)
    ensures Roomy(code)
  {
    forall j | 0 <= j < |code| && code[j].IJmp? ensures At(code, j + 1, Pad) {
      var y := j + 1;
      assert At(code, y, Pad);
    }
  }

  lemma SpacedConcat(x: Code, y: Code)
    requires Spaced(x) && Spaced(y)
    ensures Spaced(x + y)
  {
    var z := x + y;
    forall j, k | 0 <= j < |z| && j < k < j + SizeI(z[j]) ensures At(z, k, Pad) {
      if j < |x| { assert At(x, k, Pad); } else { assert At(y, k - |x|, Pad); }
    }
  }

  lemma SpacedIns(x: Slot)
    ensures Spaced(Ins(x))
  {
  }

  lemma SpacedTest(cs: Charset, e: bool, rest: int)
    ensures Spaced(TestOver(cs, e, rest))
  {
    if !e { SpacedIns(TestInst(cs, TestSize(cs, e) + rest)); }
  }

  lemma SpacedWrap(x: Code, c: Code, y: Code)
    requires Spaced(x) && Spaced(c) && Spaced(y)
    ensures Spaced(x + c + y)
  {
    SpacedConcat(x, c);
    SpacedConcat(x + c, y);
  }

  lemma {:induction false} SpacedCorrect(code: Code, ps: seq<nat>, i: nat)
    requires i <= |code| && Spaced(code)
    ensures Spaced(CorrectCalls(code, ps, i))
    decreases |code| - i
  {
    if i < |code| {
      var code1 := CorrectCall(code, ps, i);
      forall j, y | 0 <= j < |code1| && j < y < j + SizeI(code1[j]) ensures At(code1, y, Pad) {
        assert At(code, y, Pad);
      }
      SpacedCorrect(code1, ps, i + 1);
    }
  }

  lemma {:induction false} SpacedFlatten(codes: seq<Code>)
    requires forall k :: 0 <= k < |codes| ==> Spaced(codes[k])
    ensures Spaced(Flatten(codes))
  {
    if codes != [] {
      SpacedFlatten(codes[1..]);
      SpacedConcat(codes[0], Flatten(codes[1..]));
    }
  }

  lemma SpacedRulebook(codes: seq<Code>)
    requires forall k :: 0 <= k < |codes| ==> Spaced(codes[k])
    ensures Spaced(Rulebook(codes))
  {
    SpacedFlatten(codes);
    SpacedCorrect(Flatten(codes), Positions(codes, 0), 0);
    var body := CorrectCalls(Flatten(codes), Positions(codes, 0), 0);
    SpacedIns(ICall(4));
    SpacedIns(IJmp(2 + |body|));
    SpacedWrap(Ins(ICall(4)), Ins(IJmp(2 + |body|)), body);
  }

  lemma SpacedChoiceTest(cs: Charset, c1: Code, emptyp2: bool, c2: Code)
    requires Spaced(c1) && Spaced(c2)
    ensures Spaced(ChoiceTestShape(cs, c1, emptyp2, c2))
  {
    var jmp := if emptyp2 then [] else Ins(IJmp(2 + |c2|));
    SpacedTest(cs, false, |c1| + |jmp|);
    SpacedIns(IJmp(2 + |c2|));
    SpacedWrap(TestOver(cs, false, |c1| + |jmp|), c1, jmp);
    SpacedConcat(TestOver(cs, false, |c1| + |jmp|) + c1 + jmp, c2);
  }

  lemma SpacedChoiceBack(cs: Charset, e: bool, c1: Code, c2: Code)
    requires Spaced(c1) && Spaced(c2)
    ensures Spaced(ChoiceBackShape(cs, e, c1, c2))
  {
    var test := TestOver(cs, e, |c1| + 4);
    SpacedTest(cs, e, |c1| + 4);
    SpacedIns(IChoice(|c1| + 4));
    SpacedIns(ICommit(2 + |c2|));
    SpacedWrap(test, Ins(IChoice(|c1| + 4)), c1);
    SpacedWrap(test + Ins(IChoice(|c1| + 4)) + c1, Ins(ICommit(2 + |c2|)), c2);
  }

  lemma SpacedRep(cs: Charset, e: bool, opt: bool, c: Code)
    requires Spaced(c)
    ensures Spaced(RepTestShape(cs, c)) && Spaced(RepBackShape(cs, e, opt, c))
  {
    SpacedTest(cs, false, |c| + 2);
    SpacedIns(IJmp(-(TestSize(cs, false) + |c|)));
    SpacedWrap(TestOver(cs, false, |c| + 2), c, Ins(IJmp(-(TestSize(cs, false) + |c|))));
    var first := if opt then IPartialCommit(2) else IChoice(|c| + 4);
    SpacedTest(cs, e, |c| + 4);
    SpacedIns(first);
    SpacedIns(IPartialCommit(-|c|));
    SpacedWrap(TestOver(cs, e, |c| + 4), Ins(first), c);
    SpacedConcat(TestOver(cs, e, |c| + 4) + Ins(first) + c, Ins(IPartialCommit(-|c|)));
  }

  lemma SpacedNot(cs: Charset, e: bool, c: Code)
    requires Spaced(c)
    ensures Spaced(NotTestShape(cs, e)) && Spaced(NotBackShape(cs, e, c))
  {
    SpacedTest(cs, e, 1);
    SpacedIns(IFail);
    SpacedConcat(TestOver(cs, e, 1), Ins(IFail));
    SpacedTest(cs, e, |c| + 3);
    SpacedIns(IChoice(|c| + 3));
    SpacedIns(IFailTwice);
    SpacedWrap(TestOver(cs, e, |c| + 3), Ins(IChoice(|c| + 3)), c);
    SpacedConcat(TestOver(cs, e, |c| + 3) + Ins(IChoice(|c| + 3)) + c, Ins(IFailTwice));
  }

  lemma SpacedAnd(c: Code)
    requires Spaced(c)
    ensures Spaced(AndBackShape(c))
  {
    SpacedIns(IChoice(|c| + 4));
    SpacedIns(IBackCommit(3));
    SpacedIns(IFail);
    SpacedWrap(Ins(IChoice(|c| + 4)), c, Ins(IBackCommit(3)));
    SpacedConcat(Ins(IChoice(|c| + 4)) + c + Ins(IBackCommit(3)), Ins(IFail));
  }

  lemma SpacedCharset(cs: Charset, tt: Guard)
    ensures Spaced(CodeCharset(cs, tt))
  {
    SpacedIns(CodeCharset(cs, tt)[0]);
  }

  lemma {:induction false} SpacedGen(g: Rules, t: Tree, opt: bool, tt: Guard, fl: Charset, b: nat)
    ensures Spaced(Gen(g, t, opt, tt, fl, b))
    decreases t, 1
  {
    match t
    case Char(_) =>
    case Set(cs) => SpacedCharset(cs, tt);
    case Any =>
    case True =>
    case False =>
    case Call(k) => SpacedIns(IOpenCall(k));
    case Behind(_, _) => SpacedGenBehind(g, t, opt, tt, fl, b);
    case Seq(_, _) => SpacedGenSeq(g, t, opt, tt, fl, b);
    case Choice(_, _) => SpacedGenChoice(g, t, opt, tt, fl, b);
    case Rep(_) => SpacedGenRep(g, t, opt, tt, fl, b);
    case Not(_) => SpacedGenNot(g, t, opt, tt, fl, b);
    case And(_) => SpacedGenAnd(g, t, opt, tt, fl, b);
    case Capture(_, _, _) => SpacedGenCapture(g, t, opt, tt, fl, b);
    case Grammar(_) => SpacedGenGrammar(g, t, opt, tt, fl, b);
  }

  lemma {:induction false} SpacedGenBehind(g: Rules, t: Tree, opt: bool, tt: Guard, fl: Charset, b: nat)
    requires t.Behind?
    ensures Spaced(Gen(g, t, opt, tt, fl, b))
    decreases t, 0
  {
    var c := Gen(g, t.p, false, NoGuard, Full(), b);
    SpacedGen(g, t.p, false, NoGuard, Full(), b);
    SpacedConcat(GoBack(t.n), c);
  }

  lemma {:induction false} SpacedGenSeq(g: Rules, t: Tree, opt: bool, tt: Guard, fl: Charset, b: nat)
    requires t.Seq?
    ensures Spaced(Gen(g, t, opt, tt, fl, b))
    decreases t, 0
  {
    var fl1 := if NeedFollow(t.p1) then GetFirst(g, t.p2, fl, b).0 else Full();
    var tt2 := if FixedLen(g, t.p1, b) == 0 then tt else NoGuard;
    SpacedGen(g, t.p1, false, tt, fl1, b);
    SpacedGen(g, t.p2, opt, tt2, fl, b);
    SpacedConcat(Gen(g, t.p1, false, tt, fl1, b), Gen(g, t.p2, opt, tt2, fl, b));
  }

  lemma {:induction false} SpacedGenRep(g: Rules, t: Tree, opt: bool, tt: Guard, fl: Charset, b: nat)
    requires t.Rep?
    ensures Spaced(Gen(g, t, opt, tt, fl, b))
    decreases t, 0
  {
    var (cs, e) := GetFirst(g, t.p, Full(), b);
    if ToCharset(t.p) != [] {
      SpacedIns(ISpan(ToCharset(t.p)[0]));
    } else {
      var tt1 := if RepByTest(g, t.p, fl, b) then GuardOf(cs) else NoGuard;
      SpacedGen(g, t.p, false, tt1, Full(), b);
      SpacedRep(cs, e, opt, Gen(g, t.p, false, tt1, Full(), b));
    }
  }

  lemma {:induction false} SpacedGenNot(g: Rules, t: Tree, opt: bool, tt: Guard, fl: Charset, b: nat)
    requires t.Not?
    ensures Spaced(Gen(g, t, opt, tt, fl, b))
    decreases t, 0
  {
    var (cs, e) := GetFirst(g, t.p, Full(), b);
    SpacedGen(g, t.p, false, NoGuard, Full(), b);
    SpacedNot(cs, e, Gen(g, t.p, false, NoGuard, Full(), b));
  }

  lemma {:induction false} SpacedGenAnd(g: Rules, t: Tree, opt: bool, tt: Guard, fl: Charset, b: nat)
    requires t.And?
    ensures Spaced(Gen(g, t, opt, tt, fl, b))
    decreases t, 0
  {
    var c := Gen(g, t.p, false, tt, Full(), b);
    SpacedGen(g, t.p, false, tt, Full(), b);
    SpacedAnd(c);
    if FixedLen(g, t.p, b) >= 0 { SpacedConcat(c, GoBack(FixedLen(g, t.p, b))); }
  }

  lemma {:induction false} SpacedGenCapture(g: Rules, t: Tree, opt: bool, tt: Guard, fl: Charset, b: nat)
    requires t.Capture?
    ensures Spaced(Gen(g, t, opt, tt, fl, b))
    decreases t, 0
  {
    var c := Gen(g, t.p, false, tt, fl, b);
    SpacedGen(g, t.p, false, tt, fl, b);
    SpacedWrap(Ins(IOpenCapture(t.kind, t.key)), c, Ins(ICloseCapture));
    if FixedLen(g, t.p, b) >= 0 { SpacedConcat(c, Ins(IFullCapture(t.kind, t.key, FixedLen(g, t.p, b)))); }
  }

  lemma {:induction false} SpacedGenGrammar(g: Rules, t: Tree, opt: bool, tt: Guard, fl: Charset, b: nat)
    requires t.Grammar?
    ensures Spaced(Gen(g, t, opt, tt, fl, b))
    decreases t, 0
  {
    GrammarCode(g, t.rules, opt, tt, fl, b);
    var codes := RuleCodes(t.rules, b);
    forall k | 0 <= k < |codes| ensures Spaced(codes[k]) {
      var c := Gen(t.rules, t.rules[k], false, NoGuard, Full(), b);
      SpacedGen(t.rules, t.rules[k], false, NoGuard, Full(), b);
      SpacedConcat(c, Ins(IRet));
    }
    SpacedRulebook(codes);
  }

  lemma {:induction false} SpacedGenChoice(g: Rules, t: Tree, opt: bool, tt: Guard, fl: Charset, b: nat)
    requires t.Choice?
    ensures Spaced(Gen(g, t, opt, tt, fl, b))
    decreases t, 0
  {
    var (cs, e) := GetFirst(g, t.p1, Full(), b);
    SpacedGen(g, t.p2, opt, NoGuard, fl, b);
    var c2 := Gen(g, t.p2, opt, NoGuard, fl, b);
    if ChoiceByTest(g, t.p1, t.p2, fl, b) {
      SpacedGen(g, t.p1, false, GuardOf(cs), fl, b);
      SpacedChoiceTest(cs, Gen(g, t.p1, false, GuardOf(cs), fl, b), t.p2.True?, c2);
    } else if opt && t.p2.True? {
      SpacedGen(g, t.p1, true, NoGuard, Full(), b);
      SpacedConcat(Ins(IPartialCommit(2)), Gen(g, t.p1, true, NoGuard, Full(), b));
    } else {
      var tt1 := if e then NoGuard else GuardOf(cs);
      SpacedGen(g, t.p1, t.p2.True?, tt1, Full(), b);
      SpacedChoiceBack(cs, e, Gen(g, t.p1, t.p2.True?, tt1, Full(), b), c2);
    }
  }

  // ---- The compiler -----------------------------------------------------------------------

  /** `compile`. */
  function Compile(t: Tree, b: nat): Code { Peephole(Emit(t, b)) }

  /** The compiler preserves meaning: matching with the compiled code ends where the pattern
    matches, with the pattern's captures, and gives up where the pattern fails. */
  lemma CompileCorrect(t: Tree, b: nat, s: Subject, i: nat, fuel: nat)
    requires WellFormed([], t, b) && i <= |s| && Parse([], t, s, i, fuel) != Stuck
    ensures Answers(Halt(Compile(t, b), s, Run(0, i, Base, [])), Parse([], t, s, i, fuel))
  {
    EmitCorrect(t, b, s, i, fuel);
    CompileSame(t, b, s, Run(0, i, Base, []));
  }

  lemma CompileSame(t: Tree, b: nat, s: Subject, a: State)
    ensures Halt(Emit(t, b), s, a) == Ends(Bad) || Halt(Compile(t, b), s, a) == Halt(Emit(t, b), s, a)
  {
    SpacedGen([], t, false, NoGuard, Full(), b);
    SpacedIns(IEnd);
    SpacedConcat(Gen([], t, false, NoGuard, Full(), b), Ins(IEnd));
    SpacedRoomy(Emit(t, b));
    PeepholeSame(Emit(t, b), s, a);
  }
}
