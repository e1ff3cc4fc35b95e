/** Following jumps to their final target (`finaltarget` of `lpcode.c`) ends in the code of every
  pattern whose checks passed, so the compiler itself terminates. */
module PegSettle {
  import opened Basics
  import opened PegTree
  import opened PegAnalysis
  import opened PegVm
  import opened PegCodegen
  import opened PegShapes
  import opened PegGrammar
  import opened PegCorrect
  import opened PegVerify
  import FiniteSets

  predicate IsJump(code: Code, x: int) { 0 <= x < |code| && code[x].IJmp? }

  ghost predicate SettlesAt(code: Code, x: int, y: int) { JumpsTo(code, x, y) && !IsJump(code, y) }

  /** The chain of jumps from `x` ends. */
  ghost predicate Settles(code: Code, x: int) { exists y :: SettlesAt(code, x, y) }

  lemma SettlesNow(code: Code, x: int)
    requires !IsJump(code, x)
    ensures Settles(code, x)
  {
    assert Jumps(code, x, x, 0);
    assert SettlesAt(code, x, x);
  }

  lemma SettlesNext(code: Code, x: int, y: int)
    requires IsJump(code, x) && x + code[x].offset == y && Settles(code, y)
    ensures Settles(code, x)
  {
    var z :| SettlesAt(code, y, z);
    var m: nat :| Jumps(code, y, z, m);
    assert Jumps(code, x, z, m + 1);
    assert SettlesAt(code, x, z);
  }

  // ---- A chain that ends has at most as many jumps as the code has elements ----------------

  lemma {:induction false} JumpsOnce(code: Code, x: int, y: int, y': int, m: nat, m': nat)
    requires Jumps(code, x, y, m) && !IsJump(code, y) && Jumps(code, x, y', m')
    ensures m' <= m && Jumps(code, y', y, m - m')
    decreases m
  {
    if m' > 0 { JumpsOnce(code, x + code[x].offset, y, y', m - 1, m' - 1); }
  }

  /** The positions on the way. */
  ghost function Visited(code: Code, x: int, m: nat): (s: set<int>)
    decreases m
  {
    if m == 0 || !IsJump(code, x) then {} else {x} + Visited(code, x + code[x].offset, m - 1)
  }

  ghost predicate Before(code: Code, z: int, y: int, m: nat) { exists k: nat :: 0 < k <= m && Jumps(code, z, y, k) }

  lemma {:induction false} VisitedBefore(code: Code, x: int, y: int, m: nat, z: int)
    requires Jumps(code, x, y, m) && z in Visited(code, x, m)
    ensures 0 <= z < |code| && Before(code, z, y, m)
    decreases m
  {
    if z != x {
      VisitedBefore(code, x + code[x].offset, y, m - 1, z);
      var k: nat :| 0 < k <= m - 1 && Jumps(code, z, y, k);
      assert 0 < k <= m && Jumps(code, z, y, k);
    } else {
      assert 0 < m <= m && Jumps(code, z, y, m);
    }
  }

  lemma {:induction false} VisitedDistinct(code: Code, x: int, y: int, m: nat)
    requires Jumps(code, x, y, m) && !IsJump(code, y)
    ensures |Visited(code, x, m)| == m
    decreases m
  {
    if m > 0 {
      var x' := x + code[x].offset;
      VisitedDistinct(code, x', y, m - 1);
      if x in Visited(code, x', m - 1) {
        VisitedBefore(code, x', y, m - 1, x);
        var k: nat :| 0 < k <= m - 1 && Jumps(code, x, y, k);
        JumpsOnce(code, x, y, y, k, m);
      }
    }
  }

  function Upto(n: nat): (s: set<int>)
    ensures |s| == n && forall x :: x in s <==> 0 <= x < n
  {
    if n == 0 then {} else Upto(n - 1) + {n - 1}
  }

  lemma {:induction false} FinalOf(code: Code, x: int, y: int, m: nat, fuel: nat)
    requires Jumps(code, x, y, m) && !IsJump(code, y) && m <= fuel
    ensures FinalTarget(code, x, fuel) == y
    decreases m
  {
    if m > 0 { FinalOf(code, x + code[x].offset, y, m - 1, fuel - 1); }
  }

  lemma ShortChain(code: Code, x: int) returns (y: int, m: nat)
    requires Settles(code, x)
    ensures Jumps(code, x, y, m) && !IsJump(code, y) && m <= |code|
  {
    y :| SettlesAt(code, x, y);
    m :| Jumps(code, x, y, m);
    VisitedDistinct(code, x, y, m);
    forall z | z in Visited(code, x, m) ensures z in Upto(|code|) { VisitedBefore(code, x, y, m, z); }
    FiniteSets.SubsetSize(Visited(code, x, m), Upto(|code|));
  }

  /** `Final` is where a chain of jumps ends, when it ends. */
  lemma FinalSettles(code: Code, x: int)
    requires Settles(code, x)
    ensures SettlesAt(code, x, Final(code, x))
  {
    var y, m := ShortChain(code, x);
    FinalOf(code, x, y, m, |code|);
  }

  /** `finaltarget`: the loop of the source, which ends when the chain does. */
  method FindFinalTarget(code: Code, x: int) returns (y: int)
    requires Settles(code, x)
    ensures y == Final(code, x) && !IsJump(code, y)
  {
    FinalSettles(code, x);
    ghost var m: nat :| Jumps(code, x, Final(code, x), m);
    y := x;
    while 0 <= y < |code| && code[y].IJmp?
      invariant Jumps(code, y, Final(code, x), m)
      decreases m
    {
      y := y + code[y].offset;
      m := m - 1;
    }
  }

  // ---- Regions of the code -----------------------------------------------------------------

  /** Every chain that starts in the region ends. */
  ghost predicate Region(code: Code, lo: int, hi: int)
  {
    forall n :: Look(n) ==> forall x :: lo <= x < hi ==> Settles(code, x)
  }

  lemma StartSettles(code: Code, lo: int, hi: int)
    requires Region(code, lo, hi) && Settles(code, hi) && lo <= hi
    ensures Settles(code, lo)
  {
    assert Look(0);
  }

  lemma InRegion(code: Code, lo: int, hi: int, x: int)
    requires Region(code, lo, hi) && lo <= x < hi
    ensures Settles(code, x)
  {
    assert Look(0);
  }

  lemma RegionJoin(code: Code, lo: int, mid: int, hi: int)
    requires Region(code, lo, mid) && Region(code, mid, hi)
    ensures Region(code, lo, hi)
  {
    assert Look(0);
  }

  /** If the chain behind the part ends, so do those inside it. */
  ghost predicate Inside(c: Ctx, p: int, n: nat) { Settles(c.code, p + n) ==> Region(c.code, p, p + n) }

  /** An instruction without a jump. */
  lemma RegionIns(c: Ctx, p: int, x: Slot)
    requires Fits(c, p, Ins(x)) && !x.IJmp? && !x.IOpenCall?
    ensures Region(c.code, p, p + SizeI(x))
  {
    assert Look(0);
    forall y | p <= y < p + SizeI(x) ensures Settles(c.code, y) {
      assert HoldsAt(c, p, Ins(x), y - p);
      SettlesNow(c.code, y);
    }
  }

  lemma RegionJmp(c: Ctx, p: int, off: int)
    requires Fits(c, p, Ins(IJmp(off))) && Settles(c.code, p + off)
    ensures Region(c.code, p, p + 2)
  {
    assert Look(0);
    assert HoldsAt(c, p, Ins(IJmp(off)), 0) && HoldsAt(c, p, Ins(IJmp(off)), 1);
    SettlesNext(c.code, p, p + off);
    SettlesNow(c.code, p + 1);
  }

  /** A test, which jumps for sure when the set is empty. */
  lemma RegionTest(c: Ctx, p: int, cs: Charset, e: bool, rest: int)
    requires Fits(c, p, TestOver(cs, e, rest)) && Settles(c.code, p + TestSize(cs, e) + rest)
    ensures Region(c.code, p, p + TestSize(cs, e))
  {
    assert Look(0);
    if !e {
      var x := TestInst(cs, TestSize(cs, e) + rest);
      if x.IJmp? { RegionJmp(c, p, x.offset); } else { RegionIns(c, p, x); }
    }
  }

  lemma RegionCall(c: Ctx, p: int, k: nat)
    requires Fits(c, p, Ins(IOpenCall(k))) && k < |c.pos| && Settles(c.code, c.pos[k])
    ensures Region(c.code, p, p + 2)
  {
    assert Look(0);
    assert HoldsAt(c, p, Ins(IOpenCall(k)), 0) && HoldsAt(c, p, Ins(IOpenCall(k)), 1);
    if IsJump(c.code, p) { SettlesNext(c.code, p, c.pos[k]); } else { SettlesNow(c.code, p); }
    SettlesNow(c.code, p + 1);
  }

  // ---- The start of a rule -----------------------------------------------------------------

  /** A run that jumps for ever does not halt. */
  lemma {:induction false} EndlessJumps(code: Code, s: Subject, x: int, stk: Stack, caps: seq<Cap>, k: nat)
    requires !Settles(code, x)
    ensures !HaltsIn(code, s, Run(x, 0, stk, caps), k)
    decreases k
  {
    if !IsJump(code, x) { SettlesNow(code, x); }
    if k > 0 {
      var y := x + code[x].offset;
      if Settles(code, y) { SettlesNext(code, x, y); }
      EndlessJumps(code, s, y, stk, caps, k - 1);
    }
  }

  /** The code of a rule, run on the empty subject, halts if the rule has an answer. */
  lemma RuleHalts(c: Ctx, k: nat, fuel: nat)
    requires CtxOk(c) && k < |c.g| && c.s == [] && Answered(c.g, c.g[k], [], 0, fuel)
    ensures k < |c.pos| && Halts(c.code, c.s, Run(c.pos[k], 0, Base, []))
  {
    var x := RuleLeads(c, k, fuel);
    One(c.code, c.s, x);
    HaltIs(c.code, c.s, Step(c.code, c.s, x), 0);
  }

  /** The rule fails, or its return finds nothing to return to. */
  lemma RuleLeads(c: Ctx, k: nat, fuel: nat) returns (x: State)
    requires CtxOk(c) && k < |c.g| && c.s == [] && Answered(c.g, c.g[k], [], 0, fuel)
    ensures k < |c.pos| && Halt(c.code, c.s, Run(c.pos[k], 0, Base, [])) == Halt(c.code, c.s, x)
    ensures if x.Run? then x.stack == Base && At(c.code, x.p, IRet) else x.Failing? && x.stack == Base
  {
    var w := RuleSimulates(c, k, fuel);
    var o := AnswerAt(c, c.g[k], w, fuel);
    x := RuleEnds(c, w, c.pos[k], o);
  }

  lemma RuleSimulates(c: Ctx, k: nat, fuel: nat) returns (w: Job)
    requires CtxOk(c) && k < |c.g|
    ensures Simulates(c, w) && Means(c, c.g[k], fuel, w) && !w.opt && w.tt == NoGuard && w.fl == Full()
    ensures k < |c.pos| && Fits(c, c.pos[k], w.code) && Fits(c, c.pos[k] + |w.code|, Ins(IRet))
  {
    w := RuleJob(c, k, fuel);
    Sim(c, c.g[k], w, fuel);
  }

  lemma AnswerAt(c: Ctx, t: Tree, w: Job, fuel: nat) returns (o: Outcome)
    requires Means(c, t, fuel, w) && c.s == [] && Answered(c.g, t, [], 0, fuel)
    ensures |w.o| > 0 && w.o[0] == o != Stuck
  {
    o := Parse(c.g, t, [], 0, fuel);
  }

  lemma RuleEnds(c: Ctx, w: Job, p: int, o: Outcome) returns (x: State)
    requires Simulates(c, w) && !w.opt && w.tt == NoGuard && w.fl == Full() && |w.o| > 0 && w.o[0] == o != Stuck
    requires Fits(c, p, w.code) && Fits(c, p + |w.code|, Ins(IRet))
    ensures Halt(c.code, c.s, Run(p, 0, Base, [])) == Halt(c.code, c.s, x)
    ensures if x.Run? then x.stack == Base && At(c.code, x.p, IRet) else x.Failing? && x.stack == Base
  {
    x := Use(c, w, Run(p, 0, Base, []));
    if x.Run? { FitsIns(c, x.p, IRet); }
  }

  lemma RuleJob(c: Ctx, k: nat, fuel: nat) returns (w: Job)
    requires CtxOk(c) && k < |c.g|
    ensures Generated(c, c.g[k], w) && Means(c, c.g[k], fuel, w) && !w.opt && w.tt == NoGuard && w.fl == Full()
    ensures k < |c.pos| && Fits(c, c.pos[k], w.code) && Fits(c, c.pos[k] + |w.code|, Ins(IRet))
    ensures |RuleCode(c.g, c.g[k], c.b)| == |w.code| + 1
  {
    assert RuleOk(c, k);
    var code := Gen(c.g, c.g[k], false, NoGuard, Full(), c.b);
    w := JobFor(c, c.g[k], false, NoGuard, Full(), fuel, code);
    FitsSplit(c, c.pos[k], code, Ins(IRet));
  }

  /** The start of a rule that has an answer on the empty subject: were it to jump for ever, the
    run of its code would have no end. */
  lemma RuleStartSettles(c: Ctx, k: nat, fuel: nat)
    requires CtxOk(c) && k < |c.g| && c.s == [] && Answered(c.g, c.g[k], [], 0, fuel)
    ensures k < |c.pos| && Settles(c.code, c.pos[k])
  {
    RuleHalts(c, k, fuel);
    var n: nat :| HaltsIn(c.code, c.s, Run(c.pos[k], 0, Base, []), n);
    if !Settles(c.code, c.pos[k]) { EndlessJumps(c.code, c.s, c.pos[k], Base, [], n); }
  }

  /** Every rule that is called has an answer on the empty subject. */
  lemma UsedRuleAnswers(rs: Rules, k: nat, b: nat) returns (fuel: nat)
    requires Verified(Grammar(rs), b) && Safe(Grammar(rs), b) && k in UsedRules(rs)
    ensures k < |rs| && Answered(rs, rs[k], [], 0, fuel)
  {
    var used, d := UsedRules(rs), DepthAll(rs);
    forall j | j in used ensures RuleChecked(rs, used, d, b, j) {
    }
    assert RuleChecked(rs, used, d, b, k);
    fuel := Terminates(rs, used, rs[k], [], 0, MAXRULES, d, b);
  }

  // ---- The code of a pattern ---------------------------------------------------------------

  ghost predicate CallSettles(c: Ctx, k: nat) { k < |c.pos| && Settles(c.code, c.pos[k]) }

  /** The checks of the pattern passed, and the starts of all rules it calls settle. */
  ghost predicate Sound(c: Ctx, t: Tree)
  {
    c.s == [] && forall n :: Look(n) ==>
      Verified(t, c.b) && Safe(t, c.b) && forall k :: k in CallsOf(t) ==> CallSettles(c, k)
  }

  lemma ChildSound(c: Ctx, t: Tree, p: Tree)
    requires Sound(c, t) && Child(t, p)
    ensures Sound(c, p)
  {
    assert Look(0);
    forall k | k in CallsOf(p) ensures CallSettles(c, k) {
      assert k in CallsOf(t);
    }
  }

  lemma RegionLeaf(c: Ctx, p: int, cs: Charset, tt: Guard)
    requires Fits(c, p, CodeCharset(cs, tt))
    ensures Region(c.code, p, p + |CodeCharset(cs, tt)|)
  {
    assert Look(0);
    RegionIns(c, p, CodeCharset(cs, tt)[0]);
  }

  lemma RegionChoiceTest(c: Ctx, p: int, cs: Charset, c1: Code, emptyp2: bool, c2: Code)
    requires Fits(c, p, ChoiceTestShape(cs, c1, emptyp2, c2)) && (emptyp2 ==> c2 == [])
    requires var e := p + |ChoiceTestShape(cs, c1, emptyp2, c2)|;
             var l1 := p + TestSize(cs, false) + |c1| + (if emptyp2 then 0 else 2);
             && Settles(c.code, e) && Region(c.code, l1, l1 + |c2|)
             && Inside(c, p + TestSize(cs, false), |c1|)
    ensures Region(c.code, p, p + |ChoiceTestShape(cs, c1, emptyp2, c2)|)
  {
    assert Look(0);
    ChoiceTestFits(c, p, cs, c1, emptyp2, c2);
    var t := p + TestSize(cs, false);
    var j := if emptyp2 then 0 else 2;
    var l1 := t + |c1| + j;
    StartSettles(c.code, l1, l1 + |c2|);
    if !emptyp2 { RegionJmp(c, t + |c1|, 2 + |c2|); }
    RegionTest(c, p, cs, false, |c1| + j);
  }

  /** The optional test and the choice. */
  lemma RegionEntry(c: Ctx, p: int, cs: Charset, e: bool, n: nat)
    requires Fits(c, p, TestOver(cs, e, n)) && Fits(c, p + TestSize(cs, e), Ins(IChoice(n)))
    requires Settles(c.code, p + TestSize(cs, e) + n)
    ensures Region(c.code, p, p + TestSize(cs, e) + 2)
  {
    var t := p + TestSize(cs, e);
    RegionIns(c, t, IChoice(n));
    RegionTest(c, p, cs, e, n);
    RegionJoin(c.code, p, t, t + 2);
  }

  lemma RegionChoiceBack(c: Ctx, p: int, cs: Charset, e: bool, c1: Code, c2: Code)
    requires Fits(c, p, ChoiceBackShape(cs, e, c1, c2))
    requires var l1 := p + TestSize(cs, e) + |c1| + 4;
             && Settles(c.code, p + |ChoiceBackShape(cs, e, c1, c2)|) && Region(c.code, l1, l1 + |c2|)
             && Inside(c, p + TestSize(cs, e) + 2, |c1|)
    ensures Region(c.code, p, p + |ChoiceBackShape(cs, e, c1, c2)|)
  {
    ChoiceBackFits(c, p, cs, e, c1, c2);
    var t := p + TestSize(cs, e);
    var q := t + 2 + |c1|;
    StartSettles(c.code, q + 2, q + 2 + |c2|);
    RegionIns(c, q, ICommit(2 + |c2|));
    InRegion(c.code, q, q + 2, q);
    RegionEntry(c, p, cs, e, |c1| + 4);
    RegionJoin(c.code, p, t + 2, q);
    RegionJoin(c.code, p, q, q + 2);
    RegionJoin(c.code, p, q + 2, q + 2 + |c2|);
  }

  lemma RegionRepTest(c: Ctx, p: int, cs: Charset, c1: Code)
    requires Fits(c, p, RepTestShape(cs, c1))
    requires && Settles(c.code, p + |RepTestShape(cs, c1)|)
             && Inside(c, p + TestSize(cs, false), |c1|)
    ensures Region(c.code, p, p + |RepTestShape(cs, c1)|)
  {
    assert Look(0);
    RepTestFits(c, p, cs, c1);
    var t := p + TestSize(cs, false);
    RegionTest(c, p, cs, false, |c1| + 2);
    RegionJmp(c, t + |c1|, -(TestSize(cs, false) + |c1|));
  }

  lemma RegionRepBack(c: Ctx, p: int, cs: Charset, e: bool, opt: bool, c1: Code)
    requires Fits(c, p, RepBackShape(cs, e, opt, c1))
    requires && Settles(c.code, p + |RepBackShape(cs, e, opt, c1)|)
             && Inside(c, p + TestSize(cs, e) + 2, |c1|)
    ensures Region(c.code, p, p + |RepBackShape(cs, e, opt, c1)|)
  {
    assert Look(0);
    RepBackFits(c, p, cs, e, opt, c1);
    var t := p + TestSize(cs, e);
    RegionTest(c, p, cs, e, |c1| + 4);
    RegionIns(c, t, if opt then IPartialCommit(2) else IChoice(|c1| + 4));
    RegionIns(c, t + 2 + |c1|, IPartialCommit(-|c1|));
  }

  lemma RegionNotTest(c: Ctx, p: int, cs: Charset, e: bool)
    requires Fits(c, p, NotTestShape(cs, e)) && Settles(c.code, p + |NotTestShape(cs, e)|)
    ensures Region(c.code, p, p + |NotTestShape(cs, e)|)
  {
    assert Look(0);
    FitsSplit(c, p, TestOver(cs, e, 1), Ins(IFail));
    RegionTest(c, p, cs, e, 1);
    RegionIns(c, p + TestSize(cs, e), IFail);
  }

  lemma RegionNotBack(c: Ctx, p: int, cs: Charset, e: bool, c1: Code)
    requires Fits(c, p, NotBackShape(cs, e, c1))
    requires && Settles(c.code, p + |NotBackShape(cs, e, c1)|)
             && Inside(c, p + TestSize(cs, e) + 2, |c1|)
    ensures Region(c.code, p, p + |NotBackShape(cs, e, c1)|)
  {
    assert Look(0);
    NotBackFits(c, p, cs, e, c1);
    var t := p + TestSize(cs, e);
    RegionTest(c, p, cs, e, |c1| + 3);
    RegionIns(c, t, IChoice(|c1| + 3));
    RegionIns(c, t + 2 + |c1|, IFailTwice);
  }

  lemma RegionAndBack(c: Ctx, p: int, c1: Code)
    requires Fits(c, p, AndBackShape(c1))
    requires Inside(c, p + 2, |c1|)
    ensures Region(c.code, p, p + |AndBackShape(c1)|)
  {
    assert Look(0);
    AndBackFits(c, p, c1);
    RegionIns(c, p, IChoice(|c1| + 4));
    RegionIns(c, p + 2 + |c1|, IBackCommit(3));
    RegionIns(c, p + |c1| + 4, IFail);
  }

  lemma RegionGoBack(c: Ctx, p: int, n: nat)
    requires Fits(c, p, GoBack(n))
    ensures Region(c.code, p, p + |GoBack(n)|)
  {
    assert Look(0);
    if n > 0 { RegionIns(c, p, IBehind(n)); }
  }

  lemma RegionCapture(c: Ctx, p: int, kind: nat, key: nat, c1: Code)
    requires Fits(c, p, CaptureOpenShape(kind, key, c1))
    requires Inside(c, p + 1, |c1|)
    ensures Region(c.code, p, p + |CaptureOpenShape(kind, key, c1)|)
  {
    assert Look(0);
    FitsSplit3(c, p, Ins(IOpenCapture(kind, key)), c1, Ins(ICloseCapture));
    RegionIns(c, p, IOpenCapture(kind, key));
    RegionIns(c, p + 1 + |c1|, ICloseCapture);
  }

  /** The code of the pattern stands at `p`, behind it and in the rules it calls no chain is
    endless, and its checks passed. */
  ghost predicate Placed(c: Ctx, t: Tree, w: Job, p: int)
  {
    Generated(c, t, w) && Fits(c, p, w.code) && Settles(c.code, p + |w.code|) && Sound(c, t)
  }

  lemma {:induction false} SettleSeq(c: Ctx, t: Tree, w: Job, p: int)
    requires t.Seq? && Placed(c, t, w, p)
    ensures Region(c.code, p, p + |w.code|)
    decreases t, 0
  {
    ChildSound(c, t, t.p1);
    ChildSound(c, t, t.p2);
    var w1, w2 := SeqJobs(c, t, w, 0);
    FitsSplit(c, p, w1.code, w2.code);
    SettleGen(c, t.p2, w2, p + |w1.code|);
    StartSettles(c.code, p + |w1.code|, p + |w.code|);
    SettleGen(c, t.p1, w1, p);
    RegionJoin(c.code, p, p + |w1.code|, p + |w.code|);
  }

  lemma {:induction false} SettleChoice(c: Ctx, t: Tree, w: Job, p: int)
    requires t.Choice? && Placed(c, t, w, p)
    ensures Region(c.code, p, p + |w.code|)
    decreases t, 1
  {
    if ChoiceByTest(c.g, t.p1, t.p2, w.fl, c.b) { SettleChoiceTest(c, t, w, p); }
    else if w.opt && t.p2.True? { SettleChoicePartial(c, t, w, p); }
    else { SettleChoiceBack(c, t, w, p); }
  }

  ghost predicate IsTest(code: Code, cs: Charset, c1: Code, emptyp2: bool, c2: Code)
  {
    forall n :: Look(n) ==> code == ChoiceTestShape(cs, c1, emptyp2, c2) && (emptyp2 ==> c2 == [])
  }

  lemma TestJobs(c: Ctx, t: Tree, w: Job) returns (w1: Job, w2: Job, cs: Charset)
    requires t.Choice? && Generated(c, t, w) && ChoiceByTest(c.g, t.p1, t.p2, w.fl, c.b)
    ensures Generated(c, t.p1, w1) && Generated(c, t.p2, w2) && IsTest(w.code, cs, w1.code, t.p2.True?, w2.code)
  {
    w1, w2 := ChoiceTestJobs(c, t, w, 0);
    cs := GetFirst(c.g, t.p1, Full(), c.b).0;
  }

  lemma TestPlaces(c: Ctx, p: int, code: Code, cs: Charset, c1: Code, emptyp2: bool, c2: Code)
    requires IsTest(code, cs, c1, emptyp2, c2) && Fits(c, p, code)
    ensures var j := if emptyp2 then 0 else 2;
            && Fits(c, p + TestSize(cs, false), c1) && Fits(c, p + TestSize(cs, false) + |c1| + j, c2)
            && |code| == TestSize(cs, false) + |c1| + j + |c2|
  {
    assert Look(0);
    ChoiceTestFits(c, p, cs, c1, emptyp2, c2);
  }

  lemma TestRegion(c: Ctx, p: int, code: Code, cs: Charset, c1: Code, emptyp2: bool, c2: Code)
    requires IsTest(code, cs, c1, emptyp2, c2) && Fits(c, p, code) && Settles(c.code, p + |code|)
    requires Inside(c, p + TestSize(cs, false), |c1|)
    requires var l1 := p + TestSize(cs, false) + |c1| + (if emptyp2 then 0 else 2); Region(c.code, l1, l1 + |c2|)
    ensures Region(c.code, p, p + |code|)
  {
    assert Look(0);
    RegionChoiceTest(c, p, cs, c1, emptyp2, c2);
  }

  lemma {:induction false} SettleChoiceTest(c: Ctx, t: Tree, w: Job, p: int)
    requires t.Choice? && Placed(c, t, w, p) && ChoiceByTest(c.g, t.p1, t.p2, w.fl, c.b)
    ensures Region(c.code, p, p + |w.code|)
    decreases t, 0
  {
    ChildSound(c, t, t.p1);
    ChildSound(c, t, t.p2);
    var w1, w2, cs := TestJobs(c, t, w);
    TestPlaces(c, p, w.code, cs, w1.code, t.p2.True?, w2.code);
    var t1 := p + TestSize(cs, false);
    SettleGen(c, t.p2, w2, t1 + |w1.code| + if t.p2.True? then 0 else 2);
    SettleInside(c, t.p1, w1, t1);
    TestRegion(c, p, w.code, cs, w1.code, t.p2.True?, w2.code);
  }

  lemma {:induction false} SettleChoicePartial(c: Ctx, t: Tree, w: Job, p: int)
    requires t.Choice? && Placed(c, t, w, p) && !ChoiceByTest(c.g, t.p1, t.p2, w.fl, c.b) && w.opt && t.p2.True?
    ensures Region(c.code, p, p + |w.code|)
    decreases t, 0
  {
    ChildSound(c, t, t.p1);
    var w1 := ChoicePartialJob(c, t, w, 0);
    FitsSplit(c, p, Ins(IPartialCommit(2)), w1.code);
    SettleGen(c, t.p1, w1, p + 2);
    RegionIns(c, p, IPartialCommit(2));
    RegionJoin(c.code, p, p + 2, p + |w.code|);
  }

  ghost predicate IsBack(code: Code, cs: Charset, e: bool, c1: Code, c2: Code)
  {
    forall n :: Look(n) ==> code == ChoiceBackShape(cs, e, c1, c2)
  }

  lemma BackJobs(c: Ctx, t: Tree, w: Job, cs: Charset, e: bool) returns (w1: Job, w2: Job)
    requires t.Choice? && Generated(c, t, w) && !ChoiceByTest(c.g, t.p1, t.p2, w.fl, c.b) && !(w.opt && t.p2.True?)
    requires (cs, e) == GetFirst(c.g, t.p1, Full(), c.b)
    ensures Generated(c, t.p1, w1) && Generated(c, t.p2, w2) && IsBack(w.code, cs, e, w1.code, w2.code)
  {
    w1, w2 := ChoiceBackJobs(c, t, w, 0, cs, e);
  }

  lemma BackPlaces(c: Ctx, p: int, code: Code, cs: Charset, e: bool, c1: Code, c2: Code)
    requires IsBack(code, cs, e, c1, c2) && Fits(c, p, code)
    ensures Fits(c, p + TestSize(cs, e) + 2, c1) && Fits(c, p + TestSize(cs, e) + |c1| + 4, c2)
    ensures |code| == TestSize(cs, e) + |c1| + 4 + |c2|
  {
    assert Look(0);
    ChoiceBackFits(c, p, cs, e, c1, c2);
  }

  lemma BackRegion(c: Ctx, p: int, code: Code, cs: Charset, e: bool, c1: Code, c2: Code)
    requires IsBack(code, cs, e, c1, c2) && Fits(c, p, code) && Settles(c.code, p + |code|)
    requires Inside(c, p + TestSize(cs, e) + 2, |c1|) && |code| == TestSize(cs, e) + |c1| + 4 + |c2|
    requires Region(c.code, p + TestSize(cs, e) + |c1| + 4, p + TestSize(cs, e) + |c1| + 4 + |c2|)
    ensures Region(c.code, p, p + |code|)
  {
    assert Look(0);
    RegionChoiceBack(c, p, cs, e, c1, c2);
  }

  lemma {:induction false} SettleChoiceBack(c: Ctx, t: Tree, w: Job, p: int)
    requires t.Choice? && Placed(c, t, w, p) && !ChoiceByTest(c.g, t.p1, t.p2, w.fl, c.b) && !(w.opt && t.p2.True?)
    ensures Region(c.code, p, p + |w.code|)
    decreases t, 0
  {
    ChildSound(c, t, t.p1);
    ChildSound(c, t, t.p2);
    var (cs, e) := GetFirst(c.g, t.p1, Full(), c.b);
    var w1, w2 := BackJobs(c, t, w, cs, e);
    BackPlaces(c, p, w.code, cs, e, w1.code, w2.code);
    SettleGen(c, t.p2, w2, p + TestSize(cs, e) + |w1.code| + 4);
    SettleInside(c, t.p1, w1, p + TestSize(cs, e) + 2);
    BackRegion(c, p, w.code, cs, e, w1.code, w2.code);
  }

  lemma {:induction false} SettleRep(c: Ctx, t: Tree, w: Job, p: int)
    requires t.Rep? && Placed(c, t, w, p)
    ensures Region(c.code, p, p + |w.code|)
    decreases t, 2
  {
    if ToCharset(t.p) != [] {
      assert Look(0);
      RegionIns(c, p, ISpan(ToCharset(t.p)[0]));
    } else {
      SettleRepLoop(c, t, w, p);
    }
  }

  ghost predicate IsRep(code: Code, test: bool, cs: Charset, e: bool, opt: bool, c1: Code)
  {
    forall n :: Look(n) ==> code == if test then RepTestShape(cs, c1) else RepBackShape(cs, e, opt, c1)
  }

  /** Where the repeated pattern stands. */
  function RepAt(p: int, test: bool, cs: Charset, e: bool): int
  {
    if test then p + TestSize(cs, false) else p + TestSize(cs, e) + 2
  }

  lemma RepShaped(c: Ctx, t: Tree, w: Job, cs: Charset, e: bool) returns (w1: Job)
    requires t.Rep? && Generated(c, t, w) && ToCharset(t.p) == [] && (cs, e) == GetFirst(c.g, t.p, Full(), c.b)
    ensures Generated(c, t.p, w1) && IsRep(w.code, RepByTest(c.g, t.p, w.fl, c.b), cs, e, w.opt, w1.code)
  {
    w1 := RepJob(c, t, w, 0, cs, e);
  }

  lemma RepPlace(c: Ctx, p: int, code: Code, test: bool, cs: Charset, e: bool, opt: bool, c1: Code)
    requires IsRep(code, test, cs, e, opt, c1) && Fits(c, p, code)
    ensures Fits(c, RepAt(p, test, cs, e), c1)
  {
    assert Look(0);
    if test { RepTestFits(c, p, cs, c1); } else { RepBackFits(c, p, cs, e, opt, c1); }
  }

  lemma RepRegion(c: Ctx, p: int, code: Code, test: bool, cs: Charset, e: bool, opt: bool, c1: Code)
    requires IsRep(code, test, cs, e, opt, c1) && Fits(c, p, code) && Settles(c.code, p + |code|)
    requires Inside(c, RepAt(p, test, cs, e), |c1|)
    ensures Region(c.code, p, p + |code|)
  {
    assert Look(0);
    if test { RegionRepTest(c, p, cs, c1); } else { RegionRepBack(c, p, cs, e, opt, c1); }
  }

  lemma {:induction false} SettleRepLoop(c: Ctx, t: Tree, w: Job, p: int)
    requires t.Rep? && Placed(c, t, w, p) && ToCharset(t.p) == []
    ensures Region(c.code, p, p + |w.code|)
    decreases t, 1
  {
    ChildSound(c, t, t.p);
    var (cs, e) := GetFirst(c.g, t.p, Full(), c.b);
    var test := RepByTest(c.g, t.p, w.fl, c.b);
    var w1 := RepShaped(c, t, w, cs, e);
    RepPlace(c, p, w.code, test, cs, e, w.opt, w1.code);
    SettleInside(c, t.p, w1, RepAt(p, test, cs, e));
    RepRegion(c, p, w.code, test, cs, e, w.opt, w1.code);
  }

  lemma {:induction false} SettleInside(c: Ctx, t: Tree, w: Job, p: int)
    requires Generated(c, t, w) && Fits(c, p, w.code) && Sound(c, t)
    ensures Inside(c, p, |w.code|)
    decreases t, 4
  {
    if Settles(c.code, p + |w.code|) { SettleGen(c, t, w, p); }
  }

  ghost predicate IsNot(code: Code, head: bool, cs: Charset, e: bool, c1: Code)
  {
    forall n :: Look(n) ==> code == if head then NotTestShape(cs, e) else NotBackShape(cs, e, c1)
  }

  lemma NotShaped(c: Ctx, t: Tree, w: Job, cs: Charset, e: bool) returns (w1: Job)
    requires t.Not? && Generated(c, t, w) && (cs, e) == GetFirst(c.g, t.p, Full(), c.b)
    ensures HeadFail(c.g, t.p, c.b) || Generated(c, t.p, w1)
    ensures IsNot(w.code, HeadFail(c.g, t.p, c.b), cs, e, w1.code)
  {
    w1 := NotJob(c, t, w, 0, cs, e);
  }

  lemma NotPlace(c: Ctx, p: int, code: Code, cs: Charset, e: bool, c1: Code)
    requires IsNot(code, false, cs, e, c1) && Fits(c, p, code)
    ensures Fits(c, p + TestSize(cs, e) + 2, c1)
  {
    assert Look(0);
    NotBackFits(c, p, cs, e, c1);
  }

  lemma NotRegion(c: Ctx, p: int, code: Code, head: bool, cs: Charset, e: bool, c1: Code)
    requires IsNot(code, head, cs, e, c1) && Fits(c, p, code) && Settles(c.code, p + |code|)
    requires head || Inside(c, p + TestSize(cs, e) + 2, |c1|)
    ensures Region(c.code, p, p + |code|)
  {
    assert Look(0);
    if head { RegionNotTest(c, p, cs, e); } else { RegionNotBack(c, p, cs, e, c1); }
  }

  lemma {:induction false} SettleNot(c: Ctx, t: Tree, w: Job, p: int)
    requires t.Not? && Placed(c, t, w, p)
    ensures Region(c.code, p, p + |w.code|)
    decreases t, 0
  {
    ChildSound(c, t, t.p);
    var (cs, e) := GetFirst(c.g, t.p, Full(), c.b);
    var w1 := NotShaped(c, t, w, cs, e);
    if !HeadFail(c.g, t.p, c.b) {
      NotPlace(c, p, w.code, cs, e, w1.code);
      SettleInside(c, t.p, w1, p + TestSize(cs, e) + 2);
    }
    NotRegion(c, p, w.code, HeadFail(c.g, t.p, c.b), cs, e, w1.code);
  }

  ghost predicate IsAnd(code: Code, plain: bool, n: int, c1: Code)
  {
    forall h :: Look(h) ==> if plain then n >= 0 && code == c1 + GoBack(n) else code == AndBackShape(c1)
  }

  lemma AndShaped(c: Ctx, t: Tree, w: Job) returns (w1: Job, plain: bool, n: int)
    requires t.And? && Generated(c, t, w)
    ensures Generated(c, t.p, w1) && IsAnd(w.code, plain, n, w1.code)
  {
    w1 := AndJob(c, t, w, 0);
    n := FixedLen(c.g, t.p, c.b);
    plain := 0 <= n <= MAXBEHIND && !HasCaptures(c.g, t.p, {}, c.b);
  }

  lemma AndPlainPlace(c: Ctx, p: int, code: Code, n: int, c1: Code)
    requires IsAnd(code, true, n, c1) && Fits(c, p, code) && Settles(c.code, p + |code|)
    ensures |c1| <= |code| && Fits(c, p, c1) && Settles(c.code, p + |c1|) && Region(c.code, p + |c1|, p + |code|)
  {
    assert Look(0);
    FitsSplit(c, p, c1, GoBack(n));
    RegionGoBack(c, p + |c1|, n);
    StartSettles(c.code, p + |c1|, p + |code|);
  }

  lemma AndBackPlace(c: Ctx, p: int, code: Code, n: int, c1: Code)
    requires IsAnd(code, false, n, c1) && Fits(c, p, code)
    ensures Fits(c, p + 2, c1)
    ensures Inside(c, p + 2, |c1|) ==> Region(c.code, p, p + |code|)
  {
    assert Look(0);
    AndBackFits(c, p, c1);
    if Inside(c, p + 2, |c1|) { RegionAndBack(c, p, c1); }
  }

  lemma {:induction false} SettleAnd(c: Ctx, t: Tree, w: Job, p: int)
    requires t.And? && Placed(c, t, w, p)
    ensures Region(c.code, p, p + |w.code|)
    decreases t, 0
  {
    ChildSound(c, t, t.p);
    var w1, plain, n := AndShaped(c, t, w);
    if plain { SettleAndPlain(c, t, w1, n, p, w.code); } else { SettleAndBack(c, t, w1, n, p, w.code); }
  }

  lemma {:induction false} SettleAndPlain(c: Ctx, t: Tree, w1: Job, n: int, p: int, code: Code)
    requires t.And? && Sound(c, t.p) && Generated(c, t.p, w1) && IsAnd(code, true, n, w1.code)
    requires Fits(c, p, code) && Settles(c.code, p + |code|)
    ensures Region(c.code, p, p + |code|)
    decreases t, -1
  {
    AndPlainPlace(c, p, code, n, w1.code);
    SettleGen(c, t.p, w1, p);
    RegionJoin(c.code, p, p + |w1.code|, p + |code|);
  }

  lemma {:induction false} SettleAndBack(c: Ctx, t: Tree, w1: Job, n: int, p: int, code: Code)
    requires t.And? && Sound(c, t.p) && Generated(c, t.p, w1) && IsAnd(code, false, n, w1.code) && Fits(c, p, code)
    ensures Region(c.code, p, p + |code|)
    decreases t, -1
  {
    AndBackPlace(c, p, code, n, w1.code);
    SettleInside(c, t.p, w1, p + 2);
  }

  lemma {:induction false} SettleBehind(c: Ctx, t: Tree, w: Job, p: int)
    requires t.Behind? && Placed(c, t, w, p)
    ensures Region(c.code, p, p + |w.code|)
    decreases t, 0
  {
    ChildSound(c, t, t.p);
    var w1 := BehindJob(c, t, w, 0);
    FitsSplit(c, p, GoBack(t.n), w1.code);
    RegionGoBack(c, p, t.n);
    SettleGen(c, t.p, w1, p + |GoBack(t.n)|);
    RegionJoin(c.code, p, p + |GoBack(t.n)|, p + |w.code|);
  }

  ghost predicate IsCapture(code: Code, full: bool, t: Tree, n: int, c1: Code)
  {
    forall h :: Look(h) ==> (t.Capture? &&
      if full then n >= 0 && code == c1 + Ins(IFullCapture(t.kind, t.key, n))
      else code == CaptureOpenShape(t.kind, t.key, c1))
  }

  lemma CaptureShaped(c: Ctx, t: Tree, w: Job, n: int, full: bool) returns (w1: Job)
    requires t.Capture? && Generated(c, t, w) && n == FixedLen(c.g, t.p, c.b)
    requires full == (0 <= n <= MAXOFF && !HasCaptures(c.g, t.p, {}, c.b))
    ensures Generated(c, t.p, w1) && IsCapture(w.code, full, t, n, w1.code)
  {
    w1 := CaptureJob(c, t, w, 0);
  }

  lemma CapturePlace(c: Ctx, p: int, code: Code, full: bool, t: Tree, n: int, c1: Code)
    requires IsCapture(code, full, t, n, c1) && Fits(c, p, code) && Settles(c.code, p + |code|)
    ensures |code| == |c1| + (if full then 1 else 2) && Fits(c, if full then p else p + 1, c1)
    ensures full ==> Settles(c.code, p + |c1|) && Region(c.code, p + |c1|, p + |code|)
  {
    assert Look(0);
    if full {
      var x := IFullCapture(t.kind, t.key, n);
      FitsSplit(c, p, c1, Ins(x));
      RegionIns(c, p + |c1|, x);
      StartSettles(c.code, p + |c1|, p + |code|);
    } else {
      FitsSplit3(c, p, Ins(IOpenCapture(t.kind, t.key)), c1, Ins(ICloseCapture));
    }
  }

  lemma CaptureRegion(c: Ctx, p: int, code: Code, t: Tree, n: int, c1: Code)
    requires IsCapture(code, false, t, n, c1) && Fits(c, p, code) && Inside(c, p + 1, |c1|)
    ensures Region(c.code, p, p + |code|)
  {
    assert Look(0);
    RegionCapture(c, p, t.kind, t.key, c1);
  }

  lemma {:induction false} SettleCapture(c: Ctx, t: Tree, w: Job, p: int)
    requires t.Capture? && Placed(c, t, w, p)
    ensures Region(c.code, p, p + |w.code|)
    decreases t, 0
  {
    ChildSound(c, t, t.p);
    var n := FixedLen(c.g, t.p, c.b);
    var full := 0 <= n <= MAXOFF && !HasCaptures(c.g, t.p, {}, c.b);
    var w1 := CaptureShaped(c, t, w, n, full);
    CapturePlace(c, p, w.code, full, t, n, w1.code);
    if full {
      SettleGen(c, t.p, w1, p);
      RegionJoin(c.code, p, p + |w1.code|, p + |w.code|);
    } else {
      SettleInside(c, t.p, w1, p + 1);
      CaptureRegion(c, p, w.code, t, n, w1.code);
    }
  }

  lemma {:induction false} Covered(codes: seq<Code>, start: nat, x: nat) returns (k: nat)
    requires start <= x < start + |Flatten(codes)|
    ensures k < |codes| && Positions(codes, start)[k] <= x < Positions(codes, start)[k] + |codes[k]|
    decreases codes
  {
    if x < start + |codes[0]| {
      k := 0;
    } else {
      k := Covered(codes[1..], start + |codes[0]|, x);
      k := k + 1;
    }
  }

  lemma GrammarSound(c: Ctx, t: Tree)
    requires Sound(c, t)
    ensures Verified(t, c.b) && Safe(t, c.b)
  {
    assert Look(0);
  }

  lemma InnerSound(in_: Ctx, rs: Rules, k: nat)
    requires CtxOk(in_) && in_.g == rs && in_.s == [] && k < |rs|
    requires Verified(Grammar(rs), in_.b) && Safe(Grammar(rs), in_.b)
    ensures Sound(in_, rs[k])
  {
    assert Look(0);
    forall j | j in CallsOf(rs[k]) ensures CallSettles(in_, j) {
      var fuel := UsedRuleAnswers(rs, j, in_.b);
      RuleStartSettles(in_, j, fuel);
    }
  }

  lemma {:induction false} SettleRule(in_: Ctx, rs: Rules, k: nat)
    requires CtxOk(in_) && in_.g == rs && in_.s == [] && k < |rs|
    requires Verified(Grammar(rs), in_.b) && Safe(Grammar(rs), in_.b)
    ensures k < |in_.pos| && Region(in_.code, in_.pos[k], in_.pos[k] + |RuleCode(rs, rs[k], in_.b)|)
    decreases Grammar(rs), 0
  {
    var w := RuleJob(in_, k, 0);
    RegionIns(in_, in_.pos[k] + |w.code|, IRet);
    InRegion(in_.code, in_.pos[k] + |w.code|, in_.pos[k] + |w.code| + 1, in_.pos[k] + |w.code|);
    InnerSound(in_, rs, k);
    SettleGen(in_, rs[k], w, in_.pos[k]);
  }

  lemma {:induction false} SettleRules(in_: Ctx, rs: Rules, p: int, n: nat)
    requires CtxOk(in_) && in_.g == rs && in_.s == [] && n == |Flatten(RuleCodes(rs, in_.b))|
    requires Verified(Grammar(rs), in_.b) && Safe(Grammar(rs), in_.b)
    requires forall k :: 0 <= k < |rs| ==> in_.pos[k] == p + Positions(RuleCodes(rs, in_.b), 0)[k]
    ensures Region(in_.code, p, p + n)
    decreases Grammar(rs), 1
  {
    forall x | p <= x < p + n ensures Settles(in_.code, x) {
      var k := Covered(RuleCodes(rs, in_.b), 0, x - p);
      SettleRule(in_, rs, k);
      InRegion(in_.code, in_.pos[k], in_.pos[k] + |RuleCode(rs, rs[k], in_.b)|, x);
    }
  }

  /** The call of the first rule and the jump behind the rules. */
  lemma BookEntry(c: Ctx, p: int, codes: seq<Code>)
    requires Fits(c, p, Rulebook(codes)) && Settles(c.code, p + |Rulebook(codes)|)
    ensures |Rulebook(codes)| == 4 + |Flatten(codes)| && Region(c.code, p, p + 4)
  {
    var body := CorrectCalls(Flatten(codes), Positions(codes, 0), 0);
    FitsSplit3(c, p, Ins(ICall(4)), Ins(IJmp(2 + |body|)), body);
    RegionIns(c, p, ICall(4));
    RegionJmp(c, p + 2, 2 + |body|);
    RegionJoin(c.code, p, p + 2, p + 4);
  }

  lemma InnerPlaces(c: Ctx, p: int, rs: Rules, codes: seq<Code>)
    requires codes == RuleCodes(rs, c.b)
    ensures var in_ := Inner(c, p, rs, codes);
      in_.code == c.code && in_.s == c.s && in_.g == rs && in_.b == c.b && |in_.pos| == |rs|
      && forall k :: 0 <= k < |rs| ==> in_.pos[k] == p + 4 + Positions(codes, 0)[k]
  {
  }

  lemma {:induction false} SettleGrammar(c: Ctx, t: Tree, w: Job, p: int)
    requires t.Grammar? && Placed(c, t, w, p)
    ensures Region(c.code, p, p + |w.code|)
    decreases t, 2
  {
    var codes, in_, w1 := GrammarJob(c, t, w, p, 0);
    BookEntry(c, p, codes);
    InnerPlaces(c, p, t.rules, codes);
    GrammarSound(c, t);
    SettleRules(in_, t.rules, p + 4, |Flatten(codes)|);
    RegionJoin(c.code, p, p + 4, p + |w.code|);
  }

  /** In the code of a pattern no chain of jumps is endless. */
  lemma {:induction false} SettleGen(c: Ctx, t: Tree, w: Job, p: int)
    requires Placed(c, t, w, p)
    ensures Region(c.code, p, p + |w.code|)
    decreases t, 3
  {
    match t
    case Seq(_, _) => SettleSeq(c, t, w, p);
    case Choice(_, _) => SettleChoice(c, t, w, p);
    case Rep(_) => SettleRep(c, t, w, p);
    case Not(_) => SettleNot(c, t, w, p);
    case And(_) => SettleAnd(c, t, w, p);
    case Behind(_, _) => SettleBehind(c, t, w, p);
    case Capture(_, _, _) => SettleCapture(c, t, w, p);
    case Grammar(_) => SettleGrammar(c, t, w, p);
    case Call(k) =>
      assert Look(0);
      assert k in CallsOf(t) && CallSettles(c, k);
      RegionCall(c, p, k);
    case True =>
      assert Look(0);
    case False =>
      assert Look(0);
      RegionIns(c, p, IFail);
    case Char(ch) =>
      assert Look(0);
      RegionLeaf(c, p, {ch}, w.tt);
    case Set(cs) =>
      assert Look(0);
      RegionLeaf(c, p, cs, w.tt);
    case Any =>
      assert Look(0);
      RegionIns(c, p, IAny);
  }

  lemma WholePlaced(t: Tree, b: nat) returns (c: Ctx, w: Job)
    requires WellFormed([], t, b) && CallsOf(t) == {} && Verified(t, b) && Safe(t, b)
    ensures c.code == Emit(t, b) && |c.code| == |w.code| + 1 && Placed(c, t, w, 0) && Settles(c.code, |w.code|)
  {
    c := Ctx(Emit(t, b), [], [], [], b);
    WholeFits(c.code, [], b);
    var gen := Gen([], t, false, NoGuard, Full(), b);
    EndSettles(c, gen);
    w := JobFor(c, t, false, NoGuard, Full(), 0, gen);
  }

  lemma EndSettles(c: Ctx, gen: Code)
    requires Fits(c, 0, gen + Ins(IEnd))
    ensures Fits(c, 0, gen) && Settles(c.code, |gen|)
  {
    FitsSplit(c, 0, gen, Ins(IEnd));
    RegionIns(c, |gen|, IEnd);
    InRegion(c.code, |gen|, |gen| + 1, |gen|);
  }

  /** For every pattern whose checks passed, every chain of jumps in its code ends. */
  lemma EmitSettles(t: Tree, b: nat, x: int)
    requires WellFormed([], t, b) && CallsOf(t) == {} && Verified(t, b) && Safe(t, b)
    ensures Settles(Emit(t, b), x)
  {
    var c, w := WholePlaced(t, b);
    SettleGen(c, t, w, 0);
    if 0 <= x < |w.code| {
      InRegion(c.code, 0, |w.code|, x);
    } else if x != |w.code| {
      SettlesNow(c.code, x);
    }
  }
}
