/** The generated code does what the pattern means: a forward simulation of `PegTree.Parse` by
  `PegVm.Step` on the code of `PegCodegen.Gen`, one lemma for each code shape. */
module PegShapes {
  import opened PegTree
  import opened PegAnalysis
  import opened PegVm
  import opened PegCodegen

  /** `m` jumps lead from `x` to `y`. */
  ghost predicate Jumps(code: Code, x: int, y: int, m: nat)
    decreases m
  {
    if m == 0 then x == y
    else 0 <= x < |code| && code[x].IJmp? && Jumps(code, x + code[x].offset, y, m - 1)
  }

  ghost predicate JumpsTo(code: Code, x: int, y: int) { exists m: nat :: Jumps(code, x, y, m) }

  lemma {:induction false} JumpsHalt(code: Code, s: Subject, x: int, y: int, m: nat, i: nat, stk: Stack, caps: seq<Cap>)
    requires Jumps(code, x, y, m) && i <= |s|
    ensures Halt(code, s, Run(x, i, stk, caps)) == Halt(code, s, Run(y, i, stk, caps))
    decreases m
  {
    if m > 0 {
      One(code, s, Run(x, i, stk, caps));
      JumpsHalt(code, s, x + code[x].offset, y, m - 1, i, stk, caps);
    }
  }

  lemma {:induction false} FinalTargetJumps(code: Code, x: int, fuel: nat)
    ensures JumpsTo(code, x, FinalTarget(code, x, fuel))
    decreases fuel
  {
    if fuel > 0 && 0 <= x < |code| && code[x].IJmp? {
      FinalTargetJumps(code, x + code[x].offset, fuel - 1);
      var m: nat :| Jumps(code, x + code[x].offset, FinalTarget(code, x, fuel), m);
      assert Jumps(code, x, FinalTarget(code, x, fuel), m + 1);
    } else {
      assert Jumps(code, x, x, 0);
    }
  }

  /** A subject, the whole code, and the rules of the enclosing grammar with their positions. */
  datatype Ctx = Ctx(code: Code, s: Subject, g: Rules, pos: seq<int>, b: nat)

  /** Element `y` of the code holds `x`; an open call of a rule has become a call or a tail call. */
  ghost predicate Holds(c: Ctx, y: int, x: Slot)
  {
    if x.IOpenCall? then
      x.rule < |c.pos| ==>
        || At(c.code, y, ICall(c.pos[x.rule] - y))
        || (At(c.code, y, IJmp(c.pos[x.rule] - y)) && exists r :: JumpsTo(c.code, y + 2, r) && At(c.code, r, IRet))
    else At(c.code, y, x)
  }

  ghost predicate HoldsAt(c: Ctx, p: int, frag: Code, x: int)
  {
    0 <= x < |frag| ==> Holds(c, p + x, frag[x])
  }

  /** The code holds `frag` at `p`. */
  ghost predicate Fits(c: Ctx, p: int, frag: Code)
  {
    0 <= p && p + |frag| <= |c.code| && forall x :: HoldsAt(c, p, frag, x)
  }

  lemma FitsSplit(c: Ctx, p: int, x: Code, y: Code)
    requires Fits(c, p, x + y)
    ensures Fits(c, p, x) && Fits(c, p + |x|, y)
  {
    forall k ensures HoldsAt(c, p, x, k) {
      assert HoldsAt(c, p, x + y, k);
    }
    var q := p + |x|;
    forall k ensures HoldsAt(c, q, y, k) {
      assert HoldsAt(c, p, x + y, |x| + k);
    }
  }

  lemma FitsSplit3(c: Ctx, p: int, x: Code, y: Code, z: Code)
    requires Fits(c, p, x + y + z)
    ensures Fits(c, p, x) && Fits(c, p + |x|, y) && Fits(c, p + |x| + |y|, z)
  {
    FitsSplit(c, p, x + y, z);
    FitsSplit(c, p, x, y);
  }

  lemma FitsSplit4(c: Ctx, p: int, w: Code, x: Code, y: Code, z: Code)
    requires Fits(c, p, w + x + y + z)
    ensures Fits(c, p, w) && Fits(c, p + |w|, x) && Fits(c, p + |w| + |x|, y) && Fits(c, p + |w| + |x| + |y|, z)
    ensures |w + x + y + z| == |w| + |x| + |y| + |z|
  {
    FitsSplit(c, p, w + x + y, z);
    FitsSplit3(c, p, w, x, y);
  }

  lemma FitsSplit5(c: Ctx, p: int, v: Code, w: Code, x: Code, y: Code, z: Code)
    requires Fits(c, p, v + w + x + y + z)
    ensures Fits(c, p, v) && Fits(c, p + |v|, w) && Fits(c, p + |v| + |w|, x)
    ensures Fits(c, p + |v| + |w| + |x|, y) && Fits(c, p + |v| + |w| + |x| + |y|, z)
    ensures |v + w + x + y + z| == |v| + |w| + |x| + |y| + |z|
  {
    FitsSplit(c, p, v + w + x + y, z);
    FitsSplit4(c, p, v, w, x, y);
  }

  lemma FitsIns(c: Ctx, p: int, x: Slot)
    requires Fits(c, p, Ins(x)) && !x.IOpenCall?
    ensures At(c.code, p, x)
  {
    assert HoldsAt(c, p, Ins(x), 0);
  }

  lemma ChoiceTestFits(c: Ctx, p: int, cs: Charset, c1: Code, emptyp2: bool, c2: Code)
    requires Fits(c, p, ChoiceTestShape(cs, c1, emptyp2, c2)) && (emptyp2 ==> c2 == [])
    ensures var j := if emptyp2 then 0 else 2;
            && Fits(c, p, TestOver(cs, false, |c1| + j)) && Fits(c, p + TestSize(cs, false), c1)
            && (!emptyp2 ==> Fits(c, p + TestSize(cs, false) + |c1|, Ins(IJmp(2 + |c2|))))
            && Fits(c, p + TestSize(cs, false) + |c1| + j, c2)
            && |ChoiceTestShape(cs, c1, emptyp2, c2)| == TestSize(cs, false) + |c1| + j + |c2|
  {
    var jmp := if emptyp2 then [] else Ins(IJmp(2 + |c2|));
    FitsSplit4(c, p, TestOver(cs, false, |c1| + |jmp|), c1, jmp, c2);
  }

  lemma ChoiceBackFits(c: Ctx, p: int, cs: Charset, e: bool, c1: Code, c2: Code)
    requires Fits(c, p, ChoiceBackShape(cs, e, c1, c2))
    ensures Fits(c, p, TestOver(cs, e, |c1| + 4)) && Fits(c, p + TestSize(cs, e), Ins(IChoice(|c1| + 4)))
    ensures Fits(c, p + TestSize(cs, e) + 2, c1) && Fits(c, p + TestSize(cs, e) + 2 + |c1|, Ins(ICommit(2 + |c2|)))
    ensures Fits(c, p + TestSize(cs, e) + |c1| + 4, c2)
    ensures |ChoiceBackShape(cs, e, c1, c2)| == TestSize(cs, e) + |c1| + 4 + |c2|
  {
    FitsSplit5(c, p, TestOver(cs, e, |c1| + 4), Ins(IChoice(|c1| + 4)), c1, Ins(ICommit(2 + |c2|)), c2);
    assert p + TestSize(cs, e) + 2 + |c1| + 2 == p + TestSize(cs, e) + |c1| + 4;
  }

  /** The parts of a repetition without backtracking. */
  ghost predicate RepTestParts(c: Ctx, p: int, cs: Charset, c1: Code)
  {
    && Fits(c, p, TestOver(cs, false, |c1| + 2)) && Fits(c, p + TestSize(cs, false), c1)
    && Fits(c, p + TestSize(cs, false) + |c1|, Ins(IJmp(-(TestSize(cs, false) + |c1|))))
  }

  lemma RepTestFits(c: Ctx, p: int, cs: Charset, c1: Code)
    requires Fits(c, p, RepTestShape(cs, c1))
    ensures RepTestParts(c, p, cs, c1)
    ensures |RepTestShape(cs, c1)| == TestSize(cs, false) + |c1| + 2
  {
    FitsSplit3(c, p, TestOver(cs, false, |c1| + 2), c1, Ins(IJmp(-(TestSize(cs, false) + |c1|))));
  }

  /** The parts of a general repetition behind its test. */
  ghost predicate RepBackParts(c: Ctx, p: int, opt: bool, c1: Code)
  {
    && Fits(c, p, Ins(if opt then IPartialCommit(2) else IChoice(|c1| + 4)))
    && Fits(c, p + 2, c1) && Fits(c, p + 2 + |c1|, Ins(IPartialCommit(-|c1|)))
  }

  lemma RepBackFits(c: Ctx, p: int, cs: Charset, e: bool, opt: bool, c1: Code)
    requires Fits(c, p, RepBackShape(cs, e, opt, c1))
    ensures Fits(c, p, TestOver(cs, e, |c1| + 4)) && RepBackParts(c, p + TestSize(cs, e), opt, c1)
    ensures |RepBackShape(cs, e, opt, c1)| == TestSize(cs, e) + |c1| + 4
  {
    FitsSplit4(c, p, TestOver(cs, e, |c1| + 4), Ins(if opt then IPartialCommit(2) else IChoice(|c1| + 4)), c1,
               Ins(IPartialCommit(-|c1|)));
  }

  lemma NotBackFits(c: Ctx, p: int, cs: Charset, e: bool, c1: Code)
    requires Fits(c, p, NotBackShape(cs, e, c1))
    ensures Fits(c, p, TestOver(cs, e, |c1| + 3)) && Fits(c, p + TestSize(cs, e), Ins(IChoice(|c1| + 3)))
    ensures Fits(c, p + TestSize(cs, e) + 2, c1) && Fits(c, p + TestSize(cs, e) + 2 + |c1|, Ins(IFailTwice))
    ensures |NotBackShape(cs, e, c1)| == TestSize(cs, e) + |c1| + 3
  {
    FitsSplit4(c, p, TestOver(cs, e, |c1| + 3), Ins(IChoice(|c1| + 3)), c1, Ins(IFailTwice));
  }

  lemma AndBackFits(c: Ctx, p: int, c1: Code)
    requires Fits(c, p, AndBackShape(c1))
    ensures Fits(c, p, Ins(IChoice(|c1| + 4))) && Fits(c, p + 2, c1)
    ensures Fits(c, p + 2 + |c1|, Ins(IBackCommit(3))) && Fits(c, p + |c1| + 4, Ins(IFail))
    ensures |AndBackShape(c1)| == |c1| + 5
  {
    FitsSplit4(c, p, Ins(IChoice(|c1| + 4)), c1, Ins(IBackCommit(3)), Ins(IFail));
    assert p + 2 + |c1| + 2 == p + |c1| + 4;
  }

  // ---- Single instructions ---------------------------------------------------------------

  lemma ExecJmp(c: Ctx, off: int, p: int, i: nat, stk: Stack, caps: seq<Cap>)
    requires Fits(c, p, Ins(IJmp(off))) && i <= |c.s|
    ensures Halt(c.code, c.s, Run(p, i, stk, caps)) == Halt(c.code, c.s, Run(p + off, i, stk, caps))
  {
    FitsIns(c, p, IJmp(off));
    One(c.code, c.s, Run(p, i, stk, caps));
  }

  lemma ExecChoice(c: Ctx, off: int, p: int, i: nat, stk: Stack, caps: seq<Cap>)
    requires Fits(c, p, Ins(IChoice(off))) && i <= |c.s|
    ensures Halt(c.code, c.s, Run(p, i, stk, caps))
         == Halt(c.code, c.s, Run(p + 2, i, Push(stk, Backtrack(p + off, i, |caps|)), caps))
  {
    FitsIns(c, p, IChoice(off));
    One(c.code, c.s, Run(p, i, stk, caps));
  }

  lemma ExecCommit(c: Ctx, off: int, p: int, i: nat, stk: Stack, caps: seq<Cap>)
    requires Fits(c, p, Ins(ICommit(off))) && i <= |c.s| && stk.Push? && stk.top.Backtrack?
    ensures Halt(c.code, c.s, Run(p, i, stk, caps)) == Halt(c.code, c.s, Run(p + off, i, stk.rest, caps))
  {
    FitsIns(c, p, ICommit(off));
    One(c.code, c.s, Run(p, i, stk, caps));
  }

  lemma ExecPartialCommit(c: Ctx, off: int, p: int, i: nat, stk: Stack, caps: seq<Cap>)
    requires Fits(c, p, Ins(IPartialCommit(off))) && i <= |c.s| && stk.Push? && stk.top.Backtrack?
    ensures Halt(c.code, c.s, Run(p, i, stk, caps))
         == Halt(c.code, c.s, Run(p + off, i, Push(stk.rest, Backtrack(stk.top.p, i, |caps|)), caps))
  {
    FitsIns(c, p, IPartialCommit(off));
    One(c.code, c.s, Run(p, i, stk, caps));
  }

  lemma ExecBackCommit(c: Ctx, off: int, p: int, i: nat, j: nat, l: int, stk: Stack, caps: seq<Cap>, later: seq<Cap>)
    requires Fits(c, p, Ins(IBackCommit(off))) && i <= |c.s| && caps <= later
    ensures Halt(c.code, c.s, Run(p, i, Push(stk, Backtrack(l, j, |caps|)), later))
         == Halt(c.code, c.s, Run(p + off, j, stk, caps))
  {
    FitsIns(c, p, IBackCommit(off));
    assert later[..|caps|] == caps;
    One(c.code, c.s, Run(p, i, Push(stk, Backtrack(l, j, |caps|)), later));
  }

  lemma ExecFail(c: Ctx, p: int, i: nat, stk: Stack, caps: seq<Cap>)
    requires Fits(c, p, Ins(IFail)) && i <= |c.s|
    ensures Halt(c.code, c.s, Run(p, i, stk, caps)) == Halt(c.code, c.s, Failing(stk, caps))
  {
    FitsIns(c, p, IFail);
    One(c.code, c.s, Run(p, i, stk, caps));
  }

  lemma ExecFailTwice(c: Ctx, p: int, i: nat, stk: Stack, caps: seq<Cap>)
    requires Fits(c, p, Ins(IFailTwice)) && i <= |c.s| && stk.Push?
    ensures Halt(c.code, c.s, Run(p, i, stk, caps)) == Halt(c.code, c.s, Failing(stk.rest, caps))
  {
    FitsIns(c, p, IFailTwice);
    One(c.code, c.s, Run(p, i, stk, caps));
  }

  lemma ExecRet(c: Ctx, p: int, i: nat, stk: Stack, caps: seq<Cap>)
    requires Fits(c, p, Ins(IRet)) && i <= |c.s| && stk.Push? && stk.top.Return?
    ensures Halt(c.code, c.s, Run(p, i, stk, caps)) == Halt(c.code, c.s, Run(stk.top.p, i, stk.rest, caps))
  {
    FitsIns(c, p, IRet);
    One(c.code, c.s, Run(p, i, stk, caps));
  }

  lemma ExecBehind(c: Ctx, n: nat, p: int, i: nat, stk: Stack, caps: seq<Cap>)
    requires Fits(c, p, GoBack(n)) && i <= |c.s|
    ensures Halt(c.code, c.s, Run(p, i, stk, caps))
         == Halt(c.code, c.s, if n > i then Failing(stk, caps) else Run(if n > 0 then p + 1 else p, i - n, stk, caps))
  {
    if n > 0 {
      FitsIns(c, p, IBehind(n));
      One(c.code, c.s, Run(p, i, stk, caps));
    }
  }

  // ---- What a run of the code of a pattern may lead to -----------------------------------

  /** The capture list grew by entries standing for `ev`, the last of them closed. */
  ghost predicate Grown(old_: seq<Cap>, caps: seq<Cap>, ev: seq<Event>)
  {
    old_ <= caps && Events(caps[|old_|..]) == ev && (|caps| == |old_| || !caps[|caps| - 1].OpenCap?)
  }

  lemma GrownBy0(caps: seq<Cap>)
    ensures Grown(caps, caps, [])
  {
    assert caps[|caps|..] == [] && Events([]) == [];
  }

  lemma GrownTrans(a: seq<Cap>, b: seq<Cap>, c: seq<Cap>, ev1: seq<Event>, ev2: seq<Event>)
    requires Grown(a, b, ev1) && Grown(b, c, ev2)
    ensures Grown(a, c, ev1 + ev2)
  {
    EventsConcat(b[|a|..], c[|b|..]);
    assert c[|a|..] == b[|a|..] + c[|b|..];
  }

  /** `x` is a state the code of a pattern may lead to from `stk` and `caps`, when it ends at
    `q` and the pattern's outcome is `o`. In front of a character outside the follow set it may
    fail although the pattern matches. Under `opt` it may also have replaced the top entry of
    the stack, or have left through it. */
  ghost predicate Accept(s: Subject, o: Outcome, opt: bool, fl: Charset, q: int, stk: Stack, caps: seq<Cap>, x: State)
  {
    match o
    case Stuck => true
    case Fail => x.Failing? && x.stack == stk && caps <= x.caps
    case Ok(j, ev) =>
      || (x.Failing? && x.stack == stk && caps <= x.caps && j < |s| && s[j] !in fl)
      || (x.Run? && x.at == j && Grown(caps, x.caps, ev) &&
          if !opt then x.p == q && x.stack == stk
          else stk.Push? && stk.top.Backtrack? &&
               (|| (x.p == q && x.stack.Push? && x.stack.top.Backtrack? && x.stack.rest == stk.rest)
                || (x.p == stk.top.p && x.stack == stk.rest)))
  }

  /** What a dominating test promises about the next character. */
  ghost predicate GuardOk(tt: Guard, s: Subject, i: nat)
  {
    match tt
    case NoGuard => true
    case CharGuard(c) => i < |s| && s[i] == c
    case SetGuard(cs) => i < |s| && s[i] in cs
  }

  predicate Sees(s: Subject, i: nat, cs: Charset) { i < |s| && s[i] in cs }

  /** A test instruction goes on when the next character is in the set and jumps otherwise. */
  lemma SimTest(c: Ctx, p: int, cs: Charset, e: bool, rest: int, i: nat, stk: Stack, caps: seq<Cap>)
    requires Fits(c, p, TestOver(cs, e, rest)) && i <= |c.s|
    ensures var to := p + TestSize(cs, e) + (if e || Sees(c.s, i, cs) then 0 else rest);
            Halt(c.code, c.s, Run(p, i, stk, caps)) == Halt(c.code, c.s, Run(to, i, stk, caps))
    ensures Sees(c.s, i, cs) ==> GuardOk(GuardOf(cs), c.s, i)
  {
    if !e {
      FitsIns(c, p, TestInst(cs, TestSize(cs, e) + rest));
      One(c.code, c.s, Run(p, i, stk, caps));
    }
  }

  /** Failing returns to the entry that was pushed. */
  lemma Resume(c: Ctx, p: int, i: nat, stk: Stack, caps: seq<Cap>, later: seq<Cap>)
    requires caps <= later
    ensures Halt(c.code, c.s, Failing(Push(stk, Backtrack(p, i, |caps|)), later))
            == Halt(c.code, c.s, Run(p, i, stk, caps))
  {
    assert later[..|caps|] == caps;
    One(c.code, c.s, Failing(Push(stk, Backtrack(p, i, |caps|)), later));
  }

  /** What a pattern means at every position of the subject. */
  type Table = seq<Outcome>

  /** The meaning of a pattern, the code generated for it, and the arguments it was generated with. */
  datatype Job = Job(o: Table, code: Code, opt: bool, tt: Guard, fl: Charset)

  /** State `a` stands at the start of the code of the job. */
  ghost predicate Ready(c: Ctx, w: Job, a: State)
  {
    && a.Run? && a.at <= |c.s| && a.at < |w.o| && w.o[a.at] != Stuck && GuardOk(w.tt, c.s, a.at) && Fits(c, a.p, w.code)
    && (w.opt ==> w.fl == Full() && a.stack.Push? && a.stack.top.Backtrack?)
  }

  ghost predicate Leads(c: Ctx, w: Job, a: State, x: State)
  {
    && a.Run? && a.at < |w.o| && Halt(c.code, c.s, a) == Halt(c.code, c.s, x)
    && Accept(c.s, w.o[a.at], w.opt, w.fl, a.p + |w.code|, a.stack, a.caps, x)
  }

  /** The code of the job does what the pattern means. */
  ghost predicate Simulates(c: Ctx, w: Job)
  {
    && (forall i :: 0 <= i < |w.o| && w.o[i].Ok? ==> w.o[i].pos <= |c.s| < |w.o|)
    && forall a :: Ready(c, w, a) ==> exists x :: Leads(c, w, a, x)
  }

  lemma Use(c: Ctx, w: Job, a: State) returns (x: State)
    requires Simulates(c, w) && Ready(c, w, a)
    ensures Leads(c, w, a, x)
  {
    x :| Leads(c, w, a, x);
  }

  /** A character test. */
  lemma CharsetAt(c: Ctx, w: Job, cs: Charset, a: State) returns (x: State)
    requires Ready(c, w, a) && w.o[a.at] == ParseSet(cs, c.s, a.at)
    requires w.code == CodeCharset(cs, w.tt)
    ensures Leads(c, w, a, x)
  {
    var ins := w.code[0];
    assert w.code == Ins(ins);
    FitsIns(c, a.p, ins);
    One(c.code, c.s, a);
    x := Step(c.code, c.s, a);
    GrownBy0(a.caps);
  }

  // ---- Sequences -------------------------------------------------------------------------

  function SeqOutcome(o1: Outcome, o2: Table): Outcome
  {
    match o1
    case Ok(j, ev1) =>
      if j >= |o2| then Stuck else
      (match o2[j]
       case Ok(k, ev2) => Ok(k, ev1 + ev2)
       case o => o)
    case o => o
  }

  /** `cs` holds every character in front of which the pattern can match, or can match nothing
    and be followed by a character of `fl`. */
  ghost predicate IsFirst(s: Subject, o: Table, fl: Charset, cs: Charset)
  {
    forall i :: 0 <= i < |s| && i < |o| && s[i] !in cs && o[i].Ok? ==> o[i].pos == i && s[i] !in fl
  }

  lemma SeqAt(c: Ctx, w: Job, w1: Job, w2: Job, a: State) returns (x: State)
    requires Simulates(c, w1) && Simulates(c, w2) && |w.o| == |w1.o| == |w2.o|
    requires Ready(c, w, a) && w.o[a.at] == SeqOutcome(w1.o[a.at], w2.o)
    requires w.code == w1.code + w2.code
    requires !w1.opt && w1.tt == w.tt && (w1.fl == Full() || IsFirst(c.s, w2.o, w.fl, w1.fl))
    requires w2.opt == w.opt && w2.fl == w.fl
    requires w2.tt == NoGuard || (w2.tt == w.tt && (w1.o[a.at].Ok? ==> w1.o[a.at].pos == a.at))
    ensures Leads(c, w, a, x)
  {
    FitsSplit(c, a.p, w1.code, w2.code);
    x := Use(c, w1, a);
    if w1.o[a.at].Ok? && x.Run? {
      var mid := x;
      x := Use(c, w2, mid);
      if w2.o[mid.at].Ok? && x.Run? {
        GrownTrans(a.caps, mid.caps, x.caps, w1.o[a.at].events, w2.o[mid.at].events);
      }
    }
  }

  // ---- Choices ---------------------------------------------------------------------------

  /** Outside `cs` the pattern does not match. */
  ghost predicate TurnsAway(s: Subject, o: Table, cs: Charset)
  {
    forall i :: 0 <= i < |o| && !Sees(s, i, cs) ==> !o[i].Ok?
  }

  function ChoiceOutcome(o1: Outcome, o2: Outcome): Outcome
  {
    if o1.Fail? then o2 else o1
  }

  /** Choice without backtracking: test, p1, jump, p2. */
  lemma ChoiceTestAt(c: Ctx, w: Job, w1: Job, w2: Job, cs: Charset, emptyp2: bool, a: State) returns (x: State)
    requires Simulates(c, w1) && Simulates(c, w2) && |w.o| == |w1.o| == |w2.o|
    requires Ready(c, w, a) && w.o[a.at] == ChoiceOutcome(w1.o[a.at], w2.o[a.at])
    requires w.code == ChoiceTestShape(cs, w1.code, emptyp2, w2.code) && (emptyp2 ==> w2.code == [])
    requires !w1.opt && w1.tt == GuardOf(cs) && w1.fl == w.fl
    requires w2.opt == w.opt && w2.tt == NoGuard && w2.fl == w.fl
    requires TurnsAway(c.s, w1.o, cs)
    requires Sees(c.s, a.at, cs) && w1.o[a.at].Fail? && w2.o[a.at].Ok? ==> w2.o[a.at].pos == a.at && c.s[a.at] !in w.fl
    ensures Leads(c, w, a, x)
  {
    ChoiceTestFits(c, a.p, cs, w1.code, emptyp2, w2.code);
    x := ChoiceDecided(c, w1, w2, cs, emptyp2, w.o[a.at], a);
  }

  lemma ChoiceDecided(c: Ctx, w1: Job, w2: Job, cs: Charset, emptyp2: bool, o: Outcome, a: State) returns (x: State)
    requires Simulates(c, w1) && Simulates(c, w2) && |w1.o| == |w2.o|
    requires a.Run? && a.at <= |c.s| && a.at < |w1.o| && o != Stuck && o == ChoiceOutcome(w1.o[a.at], w2.o[a.at])
    requires var j := if emptyp2 then 0 else 2;
             && Fits(c, a.p, TestOver(cs, false, |w1.code| + j)) && Fits(c, a.p + TestSize(cs, false), w1.code)
             && (!emptyp2 ==> Fits(c, a.p + TestSize(cs, false) + |w1.code|, Ins(IJmp(2 + |w2.code|))))
             && Fits(c, a.p + TestSize(cs, false) + |w1.code| + j, w2.code)
    requires !w1.opt && w1.tt == GuardOf(cs) && w1.fl == w2.fl && w2.tt == NoGuard && (emptyp2 ==> w2.code == [])
    requires w2.opt ==> w2.fl == Full() && a.stack.Push? && a.stack.top.Backtrack?
    requires TurnsAway(c.s, w1.o, cs)
    requires Sees(c.s, a.at, cs) && w1.o[a.at].Fail? && w2.o[a.at].Ok? ==> w2.o[a.at].pos == a.at && c.s[a.at] !in w2.fl
    ensures Halt(c.code, c.s, a) == Halt(c.code, c.s, x)
    ensures Accept(c.s, o, w2.opt, w2.fl,
                   a.p + TestSize(cs, false) + |w1.code| + (if emptyp2 then 0 else 2) + |w2.code|, a.stack, a.caps, x)
  {
    var j := if emptyp2 then 0 else 2;
    SimTest(c, a.p, cs, false, |w1.code| + j, a.at, a.stack, a.caps);
    if !Sees(c.s, a.at, cs) {
      x := Use(c, w2, a.(p := a.p + TestSize(cs, false) + |w1.code| + j));
    } else {
      x := Use(c, w1, a.(p := a.p + TestSize(cs, false)));
      if x.Run? && !emptyp2 {
        ExecJmp(c, 2 + |w2.code|, x.p, x.at, x.stack, x.caps);
        x := x.(p := x.p + 2 + |w2.code|);
      }
    }
  }

  /** An option inside an option reuses the entry in place. */
  lemma ChoicePartialAt(c: Ctx, w: Job, w1: Job, a: State) returns (x: State)
    requires Simulates(c, w1) && |w.o| == |w1.o|
    requires Ready(c, w, a) && w.o[a.at] == ChoiceOutcome(w1.o[a.at], Ok(a.at, []))
    requires w.code == ChoicePartialShape(w1.code) && w.opt
    requires w1.opt && w1.tt == NoGuard && w1.fl == Full()
    ensures Leads(c, w, a, x)
  {
    FitsSplit(c, a.p, Ins(IPartialCommit(2)), w1.code);
    ExecPartialCommit(c, 2, a.p, a.at, a.stack, a.caps);
    var stk := Push(a.stack.rest, Backtrack(a.stack.top.p, a.at, |a.caps|));
    x := Use(c, w1, a.(p := a.p + 2, stack := stk));
    if w1.o[a.at].Fail? {
      Resume(c, a.stack.top.p, a.at, a.stack.rest, a.caps, x.caps);
      x := Run(a.stack.top.p, a.at, a.stack.rest, a.caps);
    }
  }

  /** The general choice: test, choice, p1, commit, p2. */
  lemma ChoiceBackAt(c: Ctx, w: Job, w1: Job, w2: Job, cs: Charset, e: bool, a: State) returns (x: State)
    requires Simulates(c, w1) && Simulates(c, w2) && |w.o| == |w1.o| == |w2.o|
    requires Ready(c, w, a) && w.o[a.at] == ChoiceOutcome(w1.o[a.at], w2.o[a.at])
    requires w.code == ChoiceBackShape(cs, e, w1.code, w2.code)
    requires w1.opt ==> w2.code == [] && !w.opt
    requires w1.tt == (if e then NoGuard else GuardOf(cs)) && w1.fl == Full()
    requires w2.opt == w.opt && w2.tt == NoGuard && w2.fl == w.fl
    requires e || TurnsAway(c.s, w1.o, cs)
    ensures Leads(c, w, a, x)
  {
    ChoiceBackFits(c, a.p, cs, e, w1.code, w2.code);
    x := ChoiceGuarded(c, w1, w2, cs, e, w.o[a.at], a);
  }

  lemma ChoiceGuarded(c: Ctx, w1: Job, w2: Job, cs: Charset, e: bool, o: Outcome, a: State) returns (x: State)
    requires Simulates(c, w1) && Simulates(c, w2) && |w1.o| == |w2.o|
    requires a.Run? && a.at <= |c.s| && a.at < |w1.o| && o != Stuck && o == ChoiceOutcome(w1.o[a.at], w2.o[a.at])
    requires Fits(c, a.p, TestOver(cs, e, |w1.code| + 4))
    requires Fits(c, a.p + TestSize(cs, e), Ins(IChoice(|w1.code| + 4))) && Fits(c, a.p + TestSize(cs, e) + 2, w1.code)
    requires Fits(c, a.p + TestSize(cs, e) + 2 + |w1.code|, Ins(ICommit(2 + |w2.code|)))
    requires Fits(c, a.p + TestSize(cs, e) + |w1.code| + 4, w2.code)
    requires w1.opt ==> w2.code == [] && !w2.opt
    requires w2.opt ==> w2.fl == Full() && a.stack.Push? && a.stack.top.Backtrack?
    requires w1.tt == (if e then NoGuard else GuardOf(cs)) && w1.fl == Full() && w2.tt == NoGuard
    requires e || TurnsAway(c.s, w1.o, cs)
    ensures Halt(c.code, c.s, a) == Halt(c.code, c.s, x)
    ensures Accept(c.s, o, w2.opt, w2.fl, a.p + TestSize(cs, e) + |w1.code| + 4 + |w2.code|, a.stack, a.caps, x)
  {
    SimTest(c, a.p, cs, e, |w1.code| + 4, a.at, a.stack, a.caps);
    if !e && !Sees(c.s, a.at, cs) {
      x := Use(c, w2, a.(p := a.p + TestSize(cs, e) + |w1.code| + 4));
    } else {
      x := ChoiceEntered(c, w1, w2, o, a.(p := a.p + TestSize(cs, e)));
    }
  }

  /** The general choice behind its test. */
  lemma ChoiceEntered(c: Ctx, w1: Job, w2: Job, o: Outcome, a: State) returns (x: State)
    requires Simulates(c, w1) && Simulates(c, w2) && |w1.o| == |w2.o|
    requires a.Run? && a.at <= |c.s| && a.at < |w1.o| && o != Stuck && o == ChoiceOutcome(w1.o[a.at], w2.o[a.at])
    requires Fits(c, a.p, Ins(IChoice(|w1.code| + 4))) && Fits(c, a.p + 2, w1.code)
    requires Fits(c, a.p + 2 + |w1.code|, Ins(ICommit(2 + |w2.code|))) && Fits(c, a.p + |w1.code| + 4, w2.code)
    requires w1.opt ==> w2.code == [] && !w2.opt
    requires w2.opt ==> w2.fl == Full() && a.stack.Push? && a.stack.top.Backtrack?
    requires GuardOk(w1.tt, c.s, a.at) && w1.fl == Full() && w2.tt == NoGuard
    ensures Halt(c.code, c.s, a) == Halt(c.code, c.s, x)
    ensures Accept(c.s, o, w2.opt, w2.fl, a.p + |w1.code| + 4 + |w2.code|, a.stack, a.caps, x)
  {
    var n1, n2 := |w1.code|, |w2.code|;
    var l1 := a.p + n1 + 4;
    ExecChoice(c, n1 + 4, a.p, a.at, a.stack, a.caps);
    x := Use(c, w1, Run(a.p + 2, a.at, Push(a.stack, Backtrack(l1, a.at, |a.caps|)), a.caps));
    if w1.o[a.at].Fail? {
      Resume(c, l1, a.at, a.stack, a.caps, x.caps);
      x := Use(c, w2, a.(p := l1));
    } else if !(w1.opt && x.stack == a.stack) {
      ExecCommit(c, 2 + n2, x.p, x.at, x.stack, x.caps);
      x := Run(l1 + n2, x.at, a.stack, x.caps);
    }
  }

  // ---- Repetitions -----------------------------------------------------------------------

  /** `n` matches of the pattern from position `i`, and then a failure, give the outcome `o`. */
  ghost predicate Repeats(o1: Table, i: nat, n: nat, o: Outcome)
    decreases n
  {
    i < |o1| &&
    if n == 0 then o1[i].Fail? && o == Ok(i, [])
    else
      && o1[i].Ok? && o.Ok?
      && exists ev :: o.events == o1[i].events + ev && Repeats(o1, o1[i].pos, n - 1, Ok(o.pos, ev))
  }

  lemma RepSpanAt(c: Ctx, w: Job, cs: Charset, a: State) returns (x: State)
    requires Ready(c, w, a) && w.o[a.at] == Ok(SpanEnd(cs, c.s, a.at), [])
    requires w.code == Ins(ISpan(cs))
    ensures Leads(c, w, a, x)
  {
    FitsIns(c, a.p, ISpan(cs));
    One(c.code, c.s, a);
    x := a.(p := a.p + CHARSET_INST_SIZE, at := SpanEnd(cs, c.s, a.at));
    GrownBy0(a.caps);
  }

  /** Repetition without backtracking: test, p, jump back to the test. */
  lemma RepTestAt(c: Ctx, w: Job, w1: Job, cs: Charset, n: nat, a: State) returns (x: State)
    requires Simulates(c, w1) && |w.o| == |w1.o|
    requires Ready(c, w, a) && Repeats(w1.o, a.at, n, w.o[a.at])
    requires w.code == RepTestShape(cs, w1.code)
    requires !w1.opt && w1.tt == GuardOf(cs) && w1.fl == Full()
    requires TurnsAway(c.s, w1.o, cs)
    requires forall i :: 0 <= i < |w1.o| && Sees(c.s, i, cs) && w1.o[i].Fail? ==> c.s[i] !in w.fl
    ensures Leads(c, w, a, x)
  {
    RepTestFits(c, a.p, cs, w1.code);
    x := RepTestLoop(c, w1, w.fl, cs, n, w.o[a.at], a);
  }

  /** What is accepted behind a first part is accepted for the whole. */
  lemma AcceptLater(s: Subject, o: Outcome, ev1: seq<Event>, ev2: seq<Event>, fl: Charset, q: int, stk: Stack,
                    caps: seq<Cap>, mid: seq<Cap>, x: State)
    requires o.Ok? && o.events == ev1 + ev2 && Grown(caps, mid, ev1)
    requires Accept(s, Ok(o.pos, ev2), false, fl, q, stk, mid, x)
    ensures Accept(s, o, false, fl, q, stk, caps, x)
  {
    if x.Run? {
      GrownTrans(caps, mid, x.caps, ev1, ev2);
    }
  }

  lemma {:induction false} RepTestLoop(c: Ctx, w1: Job, fl: Charset, cs: Charset, n: nat, o: Outcome, a: State)
    returns (x: State)
    requires Simulates(c, w1)
    requires a.Run? && a.at <= |c.s| && Repeats(w1.o, a.at, n, o)
    requires RepTestParts(c, a.p, cs, w1.code)
    requires !w1.opt && w1.tt == GuardOf(cs) && w1.fl == Full()
    requires TurnsAway(c.s, w1.o, cs)
    requires forall i :: 0 <= i < |w1.o| && Sees(c.s, i, cs) && w1.o[i].Fail? ==> c.s[i] !in fl
    ensures Halt(c.code, c.s, a) == Halt(c.code, c.s, x)
    ensures Accept(c.s, o, false, fl, a.p + TestSize(cs, false) + |w1.code| + 2, a.stack, a.caps, x)
    decreases n
  {
    if !Sees(c.s, a.at, cs) || n == 0 {
      x := RepTestEnd(c, w1, fl, cs, o, a);
    } else {
      SimTest(c, a.p, cs, false, |w1.code| + 2, a.at, a.stack, a.caps);
      var o1 := w1.o[a.at];
      var ev :| o.events == o1.events + ev && Repeats(w1.o, o1.pos, n - 1, Ok(o.pos, ev));
      var mid := RepTestRound(c, w1, cs, a);
      x := RepTestLoop(c, w1, fl, cs, n - 1, Ok(o.pos, ev), mid);
      AcceptLater(c.s, o, o1.events, ev, fl, a.p + TestSize(cs, false) + |w1.code| + 2, a.stack, a.caps, mid.caps, x);
    }
  }

  /** The repetition ends: at the test, or because p fails. */
  lemma RepTestEnd(c: Ctx, w1: Job, fl: Charset, cs: Charset, o: Outcome, a: State) returns (x: State)
    requires Simulates(c, w1)
    requires a.Run? && a.at <= |c.s| && a.at < |w1.o| && w1.o[a.at].Fail? && o == Ok(a.at, [])
    requires RepTestParts(c, a.p, cs, w1.code)
    requires !w1.opt && w1.tt == GuardOf(cs) && w1.fl == Full()
    requires Sees(c.s, a.at, cs) ==> c.s[a.at] !in fl
    ensures Halt(c.code, c.s, a) == Halt(c.code, c.s, x)
    ensures Accept(c.s, o, false, fl, a.p + TestSize(cs, false) + |w1.code| + 2, a.stack, a.caps, x)
  {
    SimTest(c, a.p, cs, false, |w1.code| + 2, a.at, a.stack, a.caps);
    if !Sees(c.s, a.at, cs) {
      x := a.(p := a.p + TestSize(cs, false) + |w1.code| + 2);
      GrownBy0(a.caps);
    } else {
      x := Use(c, w1, a.(p := a.p + TestSize(cs, false)));
    }
  }

  /** One round: p, jump back to the test. */
  lemma RepTestRound(c: Ctx, w1: Job, cs: Charset, a: State) returns (x: State)
    requires Simulates(c, w1)
    requires a.Run? && a.at < |w1.o| && w1.o[a.at].Ok? && Sees(c.s, a.at, cs)
    requires RepTestParts(c, a.p, cs, w1.code)
    requires !w1.opt && GuardOk(w1.tt, c.s, a.at) && w1.fl == Full()
    ensures Halt(c.code, c.s, a.(p := a.p + TestSize(cs, false))) == Halt(c.code, c.s, x)
    ensures x.Run? && x == Run(a.p, w1.o[a.at].pos, a.stack, x.caps) && Grown(a.caps, x.caps, w1.o[a.at].events)
    ensures x.at <= |c.s|
  {
    x := Use(c, w1, a.(p := a.p + TestSize(cs, false)));
    ExecJmp(c, -(TestSize(cs, false) + |w1.code|), x.p, x.at, x.stack, x.caps);
    x := x.(p := a.p);
  }

  /** The loop p, partial commit: left through the entry on the stack when p fails. */
  lemma {:induction false} RepLoop(c: Ctx, w1: Job, o: Outcome, n: nat, l: int, stk: Stack, a: State) returns (x: State)
    requires Simulates(c, w1)
    requires a.Run? && a.at <= |c.s| && Repeats(w1.o, a.at, n, o)
    requires a.stack == Push(stk, Backtrack(l, a.at, |a.caps|))
    requires Fits(c, a.p, w1.code) && Fits(c, a.p + |w1.code|, Ins(IPartialCommit(-|w1.code|)))
    requires !w1.opt && w1.tt == NoGuard && w1.fl == Full()
    ensures Halt(c.code, c.s, a) == Halt(c.code, c.s, x)
    ensures x.Run? && x == Run(l, o.pos, stk, x.caps) && Grown(a.caps, x.caps, o.events)
    decreases n
  {
    x := Use(c, w1, a);
    if n == 0 {
      Resume(c, l, a.at, stk, a.caps, x.caps);
      x := Run(l, a.at, stk, a.caps);
      GrownBy0(a.caps);
    } else {
      var o1 := w1.o[a.at];
      var ev :| o.events == o1.events + ev && Repeats(w1.o, o1.pos, n - 1, Ok(o.pos, ev));
      ExecPartialCommit(c, -|w1.code|, x.p, x.at, x.stack, x.caps);
      var mid := Run(a.p, o1.pos, Push(stk, Backtrack(l, o1.pos, |x.caps|)), x.caps);
      x := RepLoop(c, w1, Ok(o.pos, ev), n - 1, l, stk, mid);
      GrownTrans(a.caps, mid.caps, x.caps, o1.events, ev);
    }
  }

  /** The general repetition: test, choice (or the entry in place), p, partial commit. */
  lemma RepBackAt(c: Ctx, w: Job, w1: Job, cs: Charset, e: bool, n: nat, a: State) returns (x: State)
    requires Simulates(c, w1) && |w.o| == |w1.o|
    requires Ready(c, w, a) && Repeats(w1.o, a.at, n, w.o[a.at])
    requires w.code == RepBackShape(cs, e, w.opt, w1.code)
    requires !w1.opt && w1.tt == NoGuard && w1.fl == Full()
    requires e || TurnsAway(c.s, w1.o, cs)
    ensures Leads(c, w, a, x)
  {
    RepBackFits(c, a.p, cs, e, w.opt, w1.code);
    x := RepGuarded(c, w1, w.opt, w.fl, cs, e, n, w.o[a.at], a);
  }

  lemma RepGuarded(c: Ctx, w1: Job, opt: bool, fl: Charset, cs: Charset, e: bool, n: nat, o: Outcome, a: State)
    returns (x: State)
    requires Simulates(c, w1)
    requires a.Run? && a.at <= |c.s| && Repeats(w1.o, a.at, n, o)
    requires opt ==> a.stack.Push? && a.stack.top.Backtrack?
    requires Fits(c, a.p, TestOver(cs, e, |w1.code| + 4)) && RepBackParts(c, a.p + TestSize(cs, e), opt, w1.code)
    requires !w1.opt && w1.tt == NoGuard && w1.fl == Full()
    requires e || TurnsAway(c.s, w1.o, cs)
    ensures Halt(c.code, c.s, a) == Halt(c.code, c.s, x)
    ensures Accept(c.s, o, opt, fl, a.p + TestSize(cs, e) + |w1.code| + 4, a.stack, a.caps, x)
  {
    SimTest(c, a.p, cs, e, |w1.code| + 4, a.at, a.stack, a.caps);
    if !e && !Sees(c.s, a.at, cs) {
      x := a.(p := a.p + TestSize(cs, e) + |w1.code| + 4);
      GrownBy0(a.caps);
    } else {
      x := RepEntered(c, w1, opt, fl, n, o, a.(p := a.p + TestSize(cs, e)));
    }
  }

  /** The general repetition behind its test. */
  lemma RepEntered(c: Ctx, w1: Job, opt: bool, fl: Charset, n: nat, o: Outcome, a: State) returns (x: State)
    requires Simulates(c, w1)
    requires a.Run? && a.at <= |c.s| && Repeats(w1.o, a.at, n, o)
    requires opt ==> a.stack.Push? && a.stack.top.Backtrack?
    requires RepBackParts(c, a.p, opt, w1.code)
    requires !w1.opt && w1.tt == NoGuard && w1.fl == Full()
    ensures Halt(c.code, c.s, a) == Halt(c.code, c.s, x)
    ensures Accept(c.s, o, opt, fl, a.p + |w1.code| + 4, a.stack, a.caps, x)
  {
    var l, stk := a.p + |w1.code| + 4, a.stack;
    if opt {
      l, stk := a.stack.top.p, a.stack.rest;
      ExecPartialCommit(c, 2, a.p, a.at, a.stack, a.caps);
    } else {
      ExecChoice(c, |w1.code| + 4, a.p, a.at, a.stack, a.caps);
    }
    x := RepLoop(c, w1, o, n, l, stk, Run(a.p + 2, a.at, Push(stk, Backtrack(l, a.at, |a.caps|)), a.caps));
  }

  // ---- Predicates ------------------------------------------------------------------------

  function NotOutcome(o1: Outcome, i: nat): Outcome
  {
    match o1
    case Stuck => Stuck
    case Fail => Ok(i, [])
    case Ok(_, _) => Fail
  }

  /** Not, for a head-fail pattern: test, fail. */
  lemma NotTestAt(c: Ctx, w: Job, o1: Table, cs: Charset, a: State) returns (x: State)
    requires |w.o| == |o1| && Ready(c, w, a) && w.o[a.at] == NotOutcome(o1[a.at], a.at)
    requires w.code == NotTestShape(cs, false)
    requires forall i :: 0 <= i < |o1| ==> if Sees(c.s, i, cs) then !o1[i].Fail? else !o1[i].Ok?
    ensures Leads(c, w, a, x)
  {
    FitsSplit(c, a.p, TestOver(cs, false, 1), Ins(IFail));
    SimTest(c, a.p, cs, false, 1, a.at, a.stack, a.caps);
    if Sees(c.s, a.at, cs) {
      ExecFail(c, a.p + TestSize(cs, false), a.at, a.stack, a.caps);
      x := Failing(a.stack, a.caps);
    } else {
      x := a.(p := a.p + TestSize(cs, false) + 1);
      GrownBy0(a.caps);
    }
  }

  /** Not: test, choice, p, fail twice. */
  lemma NotBackAt(c: Ctx, w: Job, w1: Job, cs: Charset, e: bool, a: State) returns (x: State)
    requires Simulates(c, w1) && |w.o| == |w1.o|
    requires Ready(c, w, a) && w.o[a.at] == NotOutcome(w1.o[a.at], a.at)
    requires w.code == NotBackShape(cs, e, w1.code)
    requires !w1.opt && w1.tt == NoGuard && w1.fl == Full()
    requires e || TurnsAway(c.s, w1.o, cs)
    ensures Leads(c, w, a, x)
  {
    NotBackFits(c, a.p, cs, e, w1.code);
    SimTest(c, a.p, cs, e, |w1.code| + 3, a.at, a.stack, a.caps);
    if !e && !Sees(c.s, a.at, cs) {
      x := a.(p := a.p + TestSize(cs, e) + |w1.code| + 3);
      GrownBy0(a.caps);
    } else {
      x := NotEntered(c, w1, a.(p := a.p + TestSize(cs, e)));
      AcceptPlain(c.s, w.o[a.at], w.opt, w.fl, a.p + |w.code|, a.stack, a.caps, x);
    }
  }

  /** What is accepted without an entry on the stack to use and leaves the stack is accepted in any case. */
  lemma AcceptPlain(s: Subject, o: Outcome, opt: bool, fl: Charset, q: int, stk: Stack, caps: seq<Cap>, x: State)
    requires Accept(s, o, false, Full(), q, stk, caps, x) && (x.Run? ==> x.stack == stk)
    requires opt ==> fl == Full() && stk.Push? && stk.top.Backtrack?
    ensures Accept(s, o, opt, fl, q, stk, caps, x)
  {
  }

  lemma NotEntered(c: Ctx, w1: Job, a: State) returns (x: State)
    requires Simulates(c, w1)
    requires a.Run? && a.at <= |c.s| && a.at < |w1.o| && w1.o[a.at] != Stuck
    requires Fits(c, a.p, Ins(IChoice(|w1.code| + 3))) && Fits(c, a.p + 2, w1.code)
    requires Fits(c, a.p + 2 + |w1.code|, Ins(IFailTwice))
    requires !w1.opt && w1.tt == NoGuard && w1.fl == Full()
    ensures Halt(c.code, c.s, a) == Halt(c.code, c.s, x)
    ensures Accept(c.s, NotOutcome(w1.o[a.at], a.at), false, Full(), a.p + |w1.code| + 3, a.stack, a.caps, x)
    ensures x.Run? ==> x.stack == a.stack
  {
    var l := a.p + |w1.code| + 3;
    ExecChoice(c, |w1.code| + 3, a.p, a.at, a.stack, a.caps);
    x := Use(c, w1, Run(a.p + 2, a.at, Push(a.stack, Backtrack(l, a.at, |a.caps|)), a.caps));
    if x.Failing? {
      Resume(c, l, a.at, a.stack, a.caps, x.caps);
      x := a.(p := l);
      GrownBy0(a.caps);
    } else {
      ExecFailTwice(c, x.p, x.at, x.stack, x.caps);
      x := Failing(a.stack, x.caps);
    }
  }

  function AndOutcome(o1: Outcome, i: nat): Outcome
  {
    if o1.Ok? then Ok(i, []) else o1
  }

  /** And, for a pattern of fixed length: p, behind. */
  lemma AndBehindAt(c: Ctx, w: Job, w1: Job, n: nat, a: State) returns (x: State)
    requires Simulates(c, w1) && |w.o| == |w1.o|
    requires Ready(c, w, a) && w.o[a.at] == AndOutcome(w1.o[a.at], a.at)
    requires w1.o[a.at].Ok? ==> w1.o[a.at] == Ok(a.at + n, [])
    requires w.code == w1.code + GoBack(n)
    requires !w1.opt && w1.tt == w.tt && w1.fl == Full()
    ensures Leads(c, w, a, x)
  {
    FitsSplit(c, a.p, w1.code, GoBack(n));
    x := Use(c, w1, a);
    if x.Run? {
      ExecBehind(c, n, x.p, x.at, x.stack, x.caps);
      x := Run(a.p + |w.code|, a.at, a.stack, x.caps);
    }
  }

  /** And: choice, p, back commit, fail. */
  lemma AndBackAt(c: Ctx, w: Job, w1: Job, a: State) returns (x: State)
    requires Simulates(c, w1) && |w.o| == |w1.o|
    requires Ready(c, w, a) && w.o[a.at] == AndOutcome(w1.o[a.at], a.at)
    requires w.code == AndBackShape(w1.code)
    requires !w1.opt && w1.tt == w.tt && w1.fl == Full()
    ensures Leads(c, w, a, x)
  {
    var n1 := |w1.code|;
    AndBackFits(c, a.p, w1.code);
    ExecChoice(c, n1 + 4, a.p, a.at, a.stack, a.caps);
    var l := a.p + n1 + 4;
    x := Use(c, w1, Run(a.p + 2, a.at, Push(a.stack, Backtrack(l, a.at, |a.caps|)), a.caps));
    if x.Failing? {
      Resume(c, l, a.at, a.stack, a.caps, x.caps);
      ExecFail(c, l, a.at, a.stack, a.caps);
      x := Failing(a.stack, a.caps);
    } else {
      ExecBackCommit(c, 3, x.p, x.at, a.at, l, a.stack, a.caps, x.caps);
      x := Run(l + 1, a.at, a.stack, a.caps);
      GrownBy0(a.caps);
    }
  }

  /** Look-behind: go back, p. */
  lemma BehindAt(c: Ctx, w: Job, w1: Job, n: nat, a: State) returns (x: State)
    requires Simulates(c, w1) && |w.o| == |w1.o|
    requires Ready(c, w, a) && w.o[a.at] == (if n > a.at then Fail else AndOutcome(w1.o[a.at - n], a.at))
    requires n <= a.at && w1.o[a.at - n].Ok? ==> w1.o[a.at - n] == Ok(a.at, [])
    requires w.code == GoBack(n) + w1.code
    requires !w1.opt && w1.tt == NoGuard && w1.fl == Full()
    ensures Leads(c, w, a, x)
  {
    FitsSplit(c, a.p, GoBack(n), w1.code);
    ExecBehind(c, n, a.p, a.at, a.stack, a.caps);
    if n > a.at {
      x := Failing(a.stack, a.caps);
    } else {
      x := Use(c, w1, a.(p := if n > 0 then a.p + 1 else a.p, at := a.at - n));
    }
  }

  // ---- Captures --------------------------------------------------------------------------

  function CaptureOutcome(o1: Outcome, kind: nat, key: nat, i: nat): Outcome
  {
    match o1
    case Ok(j, ev) => Ok(j, [Open(kind, key, i)] + ev + [Close(j)])
    case o => o
  }

  /** Capture of a fixed length: p, full capture. */
  lemma CaptureFullAt(c: Ctx, w: Job, w1: Job, kind: nat, key: nat, n: nat, a: State) returns (x: State)
    requires Simulates(c, w1) && |w.o| == |w1.o|
    requires Ready(c, w, a) && w.o[a.at] == CaptureOutcome(w1.o[a.at], kind, key, a.at)
    requires w1.o[a.at].Ok? ==> w1.o[a.at] == Ok(a.at + n, [])
    requires w.code == w1.code + Ins(IFullCapture(kind, key, n))
    requires !w1.opt && w1.tt == w.tt && w1.fl == w.fl
    ensures Leads(c, w, a, x)
  {
    FitsSplit(c, a.p, w1.code, Ins(IFullCapture(kind, key, n)));
    x := Use(c, w1, a);
    if x.Run? {
      FitsIns(c, x.p, IFullCapture(kind, key, n));
      One(c.code, c.s, x);
      var cap := FullCap(kind, key, a.at, n);
      var mid := x;
      x := Run(a.p + |w.code|, mid.at, a.stack, mid.caps + [cap]);
      FullGrows(a.caps, mid.caps, cap);
    }
  }

  lemma FullGrows(caps: seq<Cap>, mid: seq<Cap>, cap: Cap)
    requires Grown(caps, mid, []) && cap.FullCap?
    ensures Grown(caps, mid + [cap], [Open(cap.kind, cap.key, cap.at), Close(cap.at + cap.len)])
  {
    assert (mid + [cap])[|mid|..] == [cap];
    assert Events([cap]) == [Open(cap.kind, cap.key, cap.at), Close(cap.at + cap.len)] + Events([]);
    GrownTrans(caps, mid, mid + [cap], [], Events([cap]));
  }

  /** Closing the capture withOpen in front of `mid`. */
  lemma CloseGrows(caps: seq<Cap>, open: Cap, mid: seq<Cap>, ev: seq<Event>, j: nat)
    requires open.OpenCap? && open.at <= j && Grown(caps + [open], mid, ev)
    ensures Grown(caps, CloseCapture(mid, j), [Open(open.kind, open.key, open.at)] + ev + [Close(j)])
  {
    var withOpen := caps + [open];
    if |mid| == |withOpen| {
      assert mid == withOpen && ev == [];
      assert withOpen[..|withOpen| - 1] == caps;
      GrownBy0(caps);
      if j - open.at < UCHAR_MAX {
        FullGrows(caps, caps, FullCap(open.kind, open.key, open.at, j - open.at));
      } else {
        assert (withOpen + [CloseCap(j)])[|caps|..] == [open, CloseCap(j)];
        assert Events([open, CloseCap(j)]) == [Open(open.kind, open.key, open.at)] + Events([CloseCap(j)]);
        assert Events([CloseCap(j)]) == [Close(j)] + Events([]);
      }
    } else {
      var d := mid[|withOpen|..];
      assert (mid + [CloseCap(j)])[|caps|..] == [open] + d + [CloseCap(j)];
      EventsConcat([open] + d, [CloseCap(j)]);
      EventsConcat([open], d);
      assert Events([open]) == [Open(open.kind, open.key, open.at)] + Events([]);
      assert Events([CloseCap(j)]) == [Close(j)] + Events([]);
    }
  }

  /** Capture: open, p, close. */
  lemma CaptureOpenAt(c: Ctx, w: Job, w1: Job, kind: nat, key: nat, a: State) returns (x: State)
    requires Simulates(c, w1) && |w.o| == |w1.o|
    requires Ready(c, w, a) && w.o[a.at] == CaptureOutcome(w1.o[a.at], kind, key, a.at)
    requires w1.o[a.at].Ok? ==> a.at <= w1.o[a.at].pos
    requires w.code == CaptureOpenShape(kind, key, w1.code)
    requires !w1.opt && w1.tt == w.tt && w1.fl == w.fl
    ensures Leads(c, w, a, x)
  {
    FitsSplit3(c, a.p, Ins(IOpenCapture(kind, key)), w1.code, Ins(ICloseCapture));
    FitsIns(c, a.p, IOpenCapture(kind, key));
    One(c.code, c.s, a);
    var open := OpenCap(kind, key, a.at);
    x := Use(c, w1, a.(p := a.p + 1, caps := a.caps + [open]));
    if x.Run? {
      FitsIns(c, x.p, ICloseCapture);
      One(c.code, c.s, x);
      CloseGrows(a.caps, open, x.caps, w1.o[a.at].events, x.at);
      x := Run(a.p + |w.code|, x.at, a.stack, CloseCapture(x.caps, x.at));
    }
  }

  // ---- Calls -----------------------------------------------------------------------------

  /** A call of a rule, or a tail call. */
  lemma CallAt(c: Ctx, w: Job, w1: Job, k: nat, a: State) returns (x: State)
    requires Simulates(c, w1) && |w.o| == |w1.o|
    requires Ready(c, w, a) && w.o[a.at] == w1.o[a.at]
    requires w.code == Ins(IOpenCall(k)) && k < |c.pos|
    requires !w1.opt && w1.tt == NoGuard && w1.fl == Full()
    requires Fits(c, c.pos[k], w1.code + Ins(IRet))
    ensures Leads(c, w, a, x)
  {
    FitsSplit(c, c.pos[k], w1.code, Ins(IRet));
    assert HoldsAt(c, a.p, w.code, 0);
    One(c.code, c.s, a);
    if At(c.code, a.p, ICall(c.pos[k] - a.p)) {
      x := Use(c, w1, a.(p := c.pos[k], stack := Push(a.stack, Return(a.p + 2))));
      if x.Run? {
        ExecRet(c, x.p, x.at, x.stack, x.caps);
        x := Run(a.p + 2, x.at, a.stack, x.caps);
      } else {
        One(c.code, c.s, x);
        x := Failing(a.stack, x.caps);
      }
    } else {
      x := Use(c, w1, a.(p := c.pos[k]));
      if x.Run? {
        var r :| JumpsTo(c.code, a.p + 2, r) && At(c.code, r, IRet);
        var m: nat :| Jumps(c.code, a.p + 2, r, m);
        JumpsHalt(c.code, c.s, a.p + 2, r, m, x.at, x.stack, x.caps);
        FitsIns(c, x.p, IRet);
        SameReturn(c, x.p, r, x.at, x.stack, x.caps);
        x := x.(p := a.p + 2);
      }
    }
  }

  /** All returns are alike. */
  lemma SameReturn(c: Ctx, p: int, q: int, i: nat, stk: Stack, caps: seq<Cap>)
    requires At(c.code, p, IRet) && At(c.code, q, IRet)
    ensures Halt(c.code, c.s, Run(p, i, stk, caps)) == Halt(c.code, c.s, Run(q, i, stk, caps))
  {
    One(c.code, c.s, Run(p, i, stk, caps));
    One(c.code, c.s, Run(q, i, stk, caps));
  }

  /** A grammar: call the first rule, jump behind the rules. `in_` is the context of its rules. */
  lemma GrammarAt(c: Ctx, w: Job, in_: Ctx, w1: Job, n: nat, a: State) returns (x: State)
    requires in_.code == c.code && in_.s == c.s && |in_.pos| > 0
    requires Simulates(in_, w1) && |w.o| == |w1.o|
    requires Ready(c, w, a) && w.o[a.at] == w1.o[a.at]
    requires |w.code| == 4 + n && Fits(c, a.p, Ins(ICall(4))) && Fits(c, a.p + 2, Ins(IJmp(2 + n)))
    requires in_.pos[0] == a.p + 4 && Fits(in_, a.p + 4, w1.code + Ins(IRet))
    requires !w1.opt && w1.tt == NoGuard && w1.fl == Full()
    ensures Leads(c, w, a, x)
  {
    FitsSplit(in_, a.p + 4, w1.code, Ins(IRet));
    FitsIns(c, a.p, ICall(4));
    One(c.code, c.s, a);
    x := Use(in_, w1, a.(p := a.p + 4, stack := Push(a.stack, Return(a.p + 2))));
    if x.Run? {
      ExecRet(in_, x.p, x.at, x.stack, x.caps);
      ExecJmp(c, 2 + n, a.p + 2, x.at, a.stack, x.caps);
      x := Run(a.p + |w.code|, x.at, a.stack, x.caps);
    } else {
      One(c.code, c.s, x);
      x := Failing(a.stack, x.caps);
    }
  }
}
