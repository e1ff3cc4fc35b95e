/** Accepted patterns on which the compiler does not end, or that have no answer although their code
  ends. */
module PegEndless {
  import opened Basics
  import opened PegTree
  import opened PegAnalysis
  import opened PegVm
  import opened PegCodegen
  import opened PegShapes
  import opened PegGrammar
  import opened PegCorrect
  import opened PegVerify
  import opened PegSettle
  import opened PegEnding
  import opened PegPasses
  import opened PegPeephole
  import opened PegCompiler

  // ---- Grammars with one rule ------------------------------------------------------------------

  lemma FlattenOne(c: Code)
    ensures Flatten([c]) == c && Positions([c], 0) == [0]
  {
    assert [c][1..] == [] && c + [] == c;
    assert Flatten([c]) == [c][0] + Flatten([c][1..]);
    assert Positions([c], 0) == [0] + Positions([c][1..], |c|);
  }

  lemma BookOfOne(c: Code)
    ensures var f := CorrectCalls(c, [0], 0); Rulebook([c]) == Ins(ICall(4)) + Ins(IJmp(2 + |f|)) + f
  {
    FlattenOne(c);
  }

  lemma GenGrammarOne(g: Rules, t: Tree, opt: bool, tt: Guard, fl: Charset, b: nat)
    ensures Gen(g, Grammar([t]), opt, tt, fl, b) == Rulebook([Gen([t], t, false, NoGuard, Full(), b) + Ins(IRet)])
  {
    var rs := [t];
    var codes := seq(|rs|, k requires 0 <= k < |rs| => Gen(rs, rs[k], false, NoGuard, Full(), b) + Ins(IRet));
    assert codes == [Gen([t], t, false, NoGuard, Full(), b) + Ins(IRet)];
  }

  /** The code of a grammar with one rule, whose code is `c`, with its calls corrected `f`. */
  lemma GrammarOfOne(g: Rules, t: Tree, opt: bool, tt: Guard, fl: Charset, b: nat, c: Code, f: Code)
    requires c == Gen([t], t, false, NoGuard, Full(), b) + Ins(IRet) && f == CorrectCalls(c, [0], 0)
    ensures Gen(g, Grammar([t]), opt, tt, fl, b) == Ins(ICall(4)) + Ins(IJmp(2 + |f|)) + f
  {
    GenGrammarOne(g, t, opt, tt, fl, b);
    BookOfOne(c);
  }

  lemma {:induction false} NoCallsBefore(code: Code, ps: seq<nat>, i: nat, n: nat)
    requires i <= n <= |code| && forall x :: i <= x < n ==> !code[x].IOpenCall?
    ensures CorrectCalls(code, ps, i) == CorrectCalls(code, ps, n)
    decreases n - i
  {
    if i < n { NoCallsBefore(code, ps, i + 1, n); }
  }

  /** The only call of the rule is a tail call, at `n`: it becomes a jump. */
  lemma OneTailCall(code: Code, n: int)
    requires 0 <= n && n + 3 == |code| && code[n] == IOpenCall(0) && code[n + 1] == Pad && code[n + 2] == IRet
    requires forall x :: 0 <= x < n ==> !code[x].IOpenCall?
    ensures CorrectCalls(code, [0], 0) == code[n := IJmp(-n)]
  {
    NoCallsBefore(code, [0], 0, n);
    assert Final(code, n + 2) == n + 2;
    var code1 := CorrectCall(code, [0], n);
    assert code1 == code[n := IJmp(-n)];
    NoCallsBefore(code1, [0], n + 1, |code|);
  }

  /** Every jump leads to something else, after one more jump at most. */
  lemma ShortJumps(code: Code)
    requires |code| >= 2
    requires forall x :: IsJump(code, x) ==>
      var y := x + code[x].offset; IsJump(code, y) ==> !IsJump(code, y + code[y].offset)
    ensures AllReach(code)
  {
    forall x ensures Reaches(code, x) {
      if IsJump(code, x) {
        var y := x + code[x].offset;
        assert Final(code, x) == FinalTarget(code, y, |code| - 1);
        if IsJump(code, y) {
          var z := y + code[y].offset;
          assert FinalTarget(code, y, |code| - 1) == FinalTarget(code, z, |code| - 2) == z;
        }
      }
    }
  }

  // ---- A <- -S A -------------------------------------------------------------------------------

  /** `A <- -S A`, where `S` is a grammar of its own that matches `p`. */
  function Looping(p: Tree): Tree { Grammar([LoopingBody(p)]) }

  function LoopingBody(p: Tree): Tree { Seq(Not(Grammar([p])), Call(0)) }

  /** `p` is nothing but a test on the set. */
  ghost predicate TestsFor(p: Tree, cs: Charset)
  {
    (p == False && cs == {}) || (p == Char(97) && cs == {97})
  }

  lemma InnerFirst(g: Rules, p: Tree, cs: Charset, fl: Charset, b: nat)
    requires TestsFor(p, cs)
    ensures HeadFail(g, Grammar([p]), b) && GetFirst(g, Grammar([p]), fl, b) == (cs, false)
    ensures Stops(g, Grammar([p]), First, b) && Stops(g, Grammar([p]), Head, b)
    ensures Stops(g, Grammar([p]), Aux(false), b) && !Nullable(g, Grammar([p]), b)
  {
    assert HeadFail([p], p, b) && HeadIn([p], p, b) == Some(true);
    assert GetFirst([p], p, fl, b) == (cs, false) && FirstIn([p], p, Full(), b).Some?;
    assert AuxIn([p], p, false, b) == Some(false) && !Nullable([p], p, b);
  }

  /** The code of the rule, with its call still open; the test of the predicate is `x`. */
  function LoopingRule(x: Slot): Code { [x, Pad, IFail, IOpenCall(0), Pad, IRet] }

  function LoopingTest(cs: Charset): Slot { TestInst(cs, 3) }

  lemma KindOfTest(p: Tree, cs: Charset)
    requires TestsFor(p, cs)
    ensures LoopingTest(cs) == (if cs == {} then IJmp(3) else ITestChar(97, 3)) && SizeI(TestInst(cs, 0)) == 2
  {
    if cs == {97} {
      assert 97 in cs && 0 !in cs && 0 in Full();
      assert KindOf(cs) == SingleChar(97);
    } else {
      assert KindOf(cs) == EmptySet;
    }
  }

  lemma NotGen(g: Rules, p: Tree, cs: Charset, fl: Charset, b: nat)
    requires TestsFor(p, cs)
    ensures Gen(g, Not(Grammar([p])), false, NoGuard, fl, b) == Ins(LoopingTest(cs)) + Ins(IFail)
  {
    InnerFirst(g, p, cs, Full(), b);
    KindOfTest(p, cs);
  }

  lemma NotThen(g: Rules, t: Tree, b: nat, c1: Code, c2: Code, c: Code)
    requires t.Seq? && t.p1.Not? && c == Gen(g, t, false, NoGuard, Full(), b)
    requires c1 == Gen(g, t.p1, false, NoGuard, Full(), b) && c2 == Gen(g, t.p2, false, NoGuard, Full(), b)
    ensures c == c1 + c2
  {
    assert !NeedFollow(t.p1) && FixedLen(g, t.p1, b) == 0;
  }

  lemma LoopingRuleIs(x: Slot)
    requires SizeI(x) == 2
    ensures Ins(x) + Ins(IFail) + Ins(IOpenCall(0)) + Ins(IRet) == LoopingRule(x)
  {
  }

  lemma LoopingGen(g: Rules, t: Tree, p: Tree, cs: Charset, b: nat, x: Slot, c: Code)
    requires t.Seq? && t.p1 == Not(Grammar([p])) && t.p2 == Call(0) && c == Gen(g, t, false, NoGuard, Full(), b)
    requires TestsFor(p, cs) && x == LoopingTest(cs)
    ensures c == Ins(x) + Ins(IFail) + Ins(IOpenCall(0))
  {
    NotGen(g, p, cs, Full(), b);
    NotThen(g, t, b, Ins(x) + Ins(IFail), Ins(IOpenCall(0)), c);
  }

  /** The code of the grammar: the call is a jump back to the test. */
  function LoopingCode(x: Slot): Code { [ICall(4), Pad, IJmp(8), Pad, x, Pad, IFail, IJmp(-3), Pad, IRet] }

  lemma LoopingCorrected(x: Slot) returns (f: Code)
    requires !x.IOpenCall?
    ensures f == CorrectCalls(LoopingRule(x), [0], 0)
    ensures Ins(ICall(4)) + Ins(IJmp(2 + |f|)) + f == LoopingCode(x)
  {
    var c := LoopingRule(x);
    OneTailCall(c, 3);
    f := c[3 := IJmp(-3)];
  }

  lemma LoopingIs(g: Rules, p: Tree, cs: Charset, opt: bool, tt: Guard, fl: Charset, b: nat, x: Slot)
    requires TestsFor(p, cs) && x == LoopingTest(cs) && SizeI(x) == 2 && !x.IOpenCall?
    ensures Gen(g, Looping(p), opt, tt, fl, b) == LoopingCode(x)
  {
    var rs := [LoopingBody(p)];
    LoopingGen(rs, LoopingBody(p), p, cs, b, x, Gen(rs, LoopingBody(p), false, NoGuard, Full(), b));
    LoopingRuleIs(x);
    var f := LoopingCorrected(x);
    GrammarOfOne(g, LoopingBody(p), opt, tt, fl, b, LoopingRule(x), f);
  }

  lemma InnerAccepted(g: Rules, p: Tree, cs: Charset, b: nat)
    requires TestsFor(p, cs)
    ensures Verified(Grammar([p]), b) && ChecksEnd(Grammar([p]), b) && WellFormed(g, Grammar([p]), b)
  {
    UsedBySelf(p);
    assert VerifyGrammar([p], b) && Verified(p, b);
    assert VerdictEnds([p], p, MAXRULES, b) && LoopsEnd([p], p, b) && ChecksEnd(p, b);
    assert WellFormed([p], p, b);
  }

  /** `verifyrule` loses the verdict of the predicate, and does not go on to the call. */
  lemma LoopingAccepted(g: Rules, p: Tree, cs: Charset, b: nat)
    requires TestsFor(p, cs)
    ensures WellFormed(g, Looping(p), b) && Verified(Looping(p), b) && ChecksEnd(Looping(p), b)
    ensures AnalysesEnd(g, Looping(p), b)
  {
    var rs, inner := [LoopingBody(p)], Grammar([p]);
    UsedBySelf(LoopingBody(p));
    InnerFirst(rs, p, cs, Full(), b);
    InnerAccepted(rs, p, cs, b);
    assert LoopingBody(p).p1 == Not(inner) && LoopingBody(p).p2 == Call(0);
    assert VerifyRule(rs, inner, MAXRULES, true, b) == Passes(false);
    assert VerifyRule(rs, Not(inner), MAXRULES, false, b) == Passes(false);
    assert VerifyRule(rs, rs[0], MAXRULES, false, b) == Passes(false);
    assert VerdictEnds(rs, Not(inner), MAXRULES, b) && VerdictEnds(rs, rs[0], MAXRULES, b);
    assert !CheckLoops(rs, inner, b) && !CheckLoops(rs, Not(inner), b) && !CheckLoops(rs, Call(0), b);
    assert !CheckLoops(rs, rs[0], b);
    assert LoopsEnd(rs, Not(inner), b) && LoopsEnd(rs, Call(0), b);
    assert LoopsEnd(rs, rs[0], b);
    assert VerifyGrammar(rs, b);
    assert Verified(Not(inner), b) && Verified(Call(0), b) && Verified(rs[0], b);
    assert ChecksEnd(Not(inner), b) && ChecksEnd(Call(0), b) && ChecksEnd(rs[0], b);
    assert WellFormed(rs, Not(inner), b) && WellFormed(rs, Call(0), b) && WellFormed(rs, rs[0], b);
    assert AnalysesEnd(rs, Not(inner), b) && AnalysesEnd(rs, Call(0), b) && AnalysesEnd(rs, rs[0], b);
  }

  // ---- Jumps without end -------------------------------------------------------------------------

  lemma {:induction false} Cycle(code: Code, x: int, y: int, n: nat)
    requires IsJump(code, x) && IsJump(code, y) && x + code[x].offset == y && y + code[y].offset == x
    ensures IsJump(code, FinalTarget(code, x, n)) && IsJump(code, FinalTarget(code, y, n))
    decreases n
  {
    if n > 0 { Cycle(code, x, y, n - 1); }
  }

  /** `S` always fails. */
  function Hanging(): Tree { Looping(False) }

  lemma HangingCode(b: nat)
    ensures Emit(Hanging(), b) == LoopingCode(IJmp(3)) + Ins(IEnd)
  {
    KindOfTest(False, {});
    LoopingIs([], False, {}, false, NoGuard, Full(), b, IJmp(3));
  }

  lemma HangingCycles(code: Code, n: nat)
    requires code == LoopingCode(IJmp(3)) + Ins(IEnd)
    ensures IsJump(code, FinalTarget(code, 4, n)) && !AllReach(code)
  {
    assert code[4] == IJmp(3) && code[7] == IJmp(-3);
    Cycle(code, 4, 7, n);
    Cycle(code, 4, 7, |code|);
    assert !Reaches(code, 4);
  }

  /** The grammar is accepted and all analyses end, but the test never succeeds, so that it is a jump to the
    call, which is a jump back: when `peephole` looks for the final target of its first call,
    `finaltarget` follows jumps for ever. */
  lemma CompilerHangs(b: nat, n: nat)
    requires b > 0
    ensures WellFormed([], Hanging(), b) && CallsOf(Hanging()) == {} && ChecksEnd(Hanging(), b)
    ensures Verified(Hanging(), b) && !CheckLoops([], Hanging(), b)
    ensures IsJump(Emit(Hanging(), b), FinalTarget(Emit(Hanging(), b), 4, n))
    ensures AnalysesEnd([], Hanging(), b) && !AllReach(Emit(Hanging(), b)) && !CompileEnds(Hanging(), b)
  {
    LoopingAccepted([], False, {}, b);
    HangingCode(b);
    HangingCycles(Emit(Hanging(), b), n);
    CompilerEnds(Hanging(), b);
  }

  // ---- Analyses without end ------------------------------------------------------------------------

  /** The code of the repetition in the rule of `LostVerdict`. */
  function LostRepeat(): Code { [ITestChar(97, 10), Pad, ICall(4), Pad, IJmp(4), Pad, IChar(97), IRet, IJmp(-8), Pad] }

  function LostRule(): Code { LostRepeat() + [IOpenCall(0), Pad, IRet] }

  lemma LostInner(g: Rules, tt: Guard, b: nat)
    ensures Gen(g, Grammar([Char(97)]), false, tt, Full(), b) == [ICall(4), Pad, IJmp(4), Pad, IChar(97), IRet]
  {
    var c := [IChar(97), IRet];
    assert Gen([Char(97)], Char(97), false, NoGuard, Full(), b) + Ins(IRet) == c;
    NoCallsBefore(c, [0], 0, 2);
    GrammarOfOne(g, Char(97), false, tt, Full(), b, c, c);
  }

  lemma LostShape(c: Code)
    requires c == [ICall(4), Pad, IJmp(4), Pad, IChar(97), IRet]
    ensures RepTestShape({97}, c) == LostRepeat()
  {
    KindOfTest(Char(97), {97});
    assert RepTestShape({97}, c) == Ins(ITestChar(97, 10)) + c + Ins(IJmp(-8));
  }

  lemma LostRep(g: Rules, t: Tree, fl: Charset, b: nat, c: Code)
    requires t == Grammar([Char(97)]) && c == Gen(g, Rep(t), false, NoGuard, fl, b)
    ensures c == RepTestShape({97}, Gen(g, t, false, GuardOf({97}), Full(), b))
  {
    InnerFirst(g, Char(97), {97}, Full(), b);
  }

  lemma RepThen(g: Rules, t: Tree, b: nat, c1: Code, c2: Code, c: Code)
    requires t.Seq? && t.p1.Rep? && c == Gen(g, t, false, NoGuard, Full(), b)
    requires c1 == Gen(g, t.p1, false, NoGuard, GetFirst(g, t.p2, Full(), b).0, b)
    requires c2 == Gen(g, t.p2, false, NoGuard, Full(), b)
    ensures c == c1 + c2
  {
  }

  lemma LostRepIs(g: Rules, fl: Charset, b: nat)
    ensures Gen(g, Rep(Grammar([Char(97)])), false, NoGuard, fl, b) == LostRepeat()
  {
    var inner := Grammar([Char(97)]);
    LostInner(g, GuardOf({97}), b);
    LostShape(Gen(g, inner, false, GuardOf({97}), Full(), b));
    LostRep(g, inner, fl, b, Gen(g, Rep(inner), false, NoGuard, fl, b));
  }

  lemma LostGen(g: Rules, t: Tree, b: nat, c: Code)
    requires t.Seq? && t.p1 == Rep(Grammar([Char(97)])) && t.p2 == Call(0) && c == Gen(g, t, false, NoGuard, Full(), b)
    ensures c == LostRepeat() + Ins(IOpenCall(0))
  {
    LostRepIs(g, GetFirst(g, t.p2, Full(), b).0, b);
    RepThen(g, t, b, LostRepeat(), Ins(IOpenCall(0)), c);
  }

  /** All of the code. */
  function LostCode(): Code
  {
    [ICall(4), Pad, IJmp(15), Pad] + LostRepeat() + [IJmp(-10), Pad, IRet, IEnd]
  }

  lemma LostCorrected() returns (f: Code)
    ensures f == CorrectCalls(LostRule(), [0], 0)
    ensures Ins(ICall(4)) + Ins(IJmp(2 + |f|)) + f + Ins(IEnd) == LostCode()
  {
    OneTailCall(LostRule(), 10);
    f := LostRule()[10 := IJmp(-10)];
    assert f == LostRepeat() + [IJmp(-10), Pad, IRet];
  }

  lemma LostRuleIs()
    ensures LostRepeat() + Ins(IOpenCall(0)) + Ins(IRet) == LostRule()
  {
  }

  lemma LostIs(b: nat)
    ensures Emit(LostVerdict(), b) == LostCode()
  {
    var g := [LostBody()];
    LostGen(g, LostBody(), b, Gen(g, LostBody(), false, NoGuard, Full(), b));
    LostRuleIs();
    var f := LostCorrected();
    GrammarOfOne([], LostBody(), false, NoGuard, Full(), b, LostRule(), f);
  }

  lemma LostReach()
    ensures AllReach(LostCode())
  {
    ShortJumps(LostCode());
  }

  /** The first set of the call is that of the call. */
  lemma {:induction false} LostFirst(fl: Charset, b: nat)
    ensures FirstIn([LostBody()], Call(0), fl, b) == None
    decreases b
  {
    if b > 0 {
      var g := [LostBody()];
      LostFirst(fl, b - 1);
      assert g[0] == LostBody() && AuxIn(g, LostBody().p1, false, b - 1) == Some(true);
      assert FirstIn(g, LostBody(), fl, b - 1) == None;
    }
  }

  /** No chain of jumps is endless in the code for this accepted grammar, but the compiler does not come to
    it: the follow set of the repetition is the first set of the call, which `getfirst` looks for without
    end. */
  lemma AnalysesHang(b: nat)
    requires b > 0
    ensures WellFormed([], LostVerdict(), b) && CallsOf(LostVerdict()) == {} && ChecksEnd(LostVerdict(), b)
    ensures Verified(LostVerdict(), b) && !CheckLoops([], LostVerdict(), b)
    ensures AllReach(Emit(LostVerdict(), b)) && !AnalysesEnd([], LostVerdict(), b) && !CompileEnds(LostVerdict(), b)
  {
    LostVerdictDiverges(b, 0);
    LostChecks(b);
    LostFirst(Full(), b);
    assert !Stops([LostBody()], Call(0), First, b) && [LostBody()][0] == LostBody();
    assert !AnalysesEnd([LostBody()], LostBody(), b);
    LostIs(b);
    LostReach();
    CompilerEnds(LostVerdict(), b);
  }

  lemma LostChecks(b: nat)
    ensures WellFormed([], LostVerdict(), b) && ChecksEnd(LostVerdict(), b)
  {
    var rs, rep := [LostBody()], Rep(Grammar([Char(97)]));
    assert rs[0] == LostBody() && LostBody().p1 == rep && LostBody().p2 == Call(0);
    InnerFirst(rs, Char(97), {97}, Full(), b);
    InnerAccepted(rs, Char(97), {97}, b);
    UsedBySelf(LostBody());
    assert VerifyRule(rs, rep, MAXRULES, false, b) == Passes(false);
    assert VerdictEnds(rs, rep, MAXRULES, b) && VerdictEnds(rs, rs[0], MAXRULES, b);
    assert LoopsEnd(rs, rep, b) && LoopsEnd(rs, Call(0), b);
    assert LoopsEnd(rs, rs[0], b);
    assert ChecksEnd(rep, b) && ChecksEnd(Call(0), b) && ChecksEnd(rs[0], b);
    assert WellFormed(rs, rep, b) && WellFormed(rs, Call(0), b) && WellFormed(rs, rs[0], b);
  }

  // ---- Code that ends where the pattern has no answer ------------------------------------------

  /** `(&('a' L) 'b')^-1`, where `L` is `L <- -'a' L`: after an `a` it has no answer, but no match begins with
    both an `a` and a `b`. */
  function Skipped(): Tree { Choice(SkippedPart(), True) }

  function SkippedPart(): Tree { Seq(And(SkippedBody()), Char(98)) }

  function SkippedBody(): Tree { Seq(Char(97), Looping(Char(97))) }

  lemma SkippedFirst(b: nat)
    ensures GetFirst([], SkippedPart(), Full(), b) == ({}, false) && !HeadFail([], SkippedPart(), b)
    ensures Stops([], SkippedPart(), First, b) && Stops([], SkippedPart(), Head, b)
  {
    assert !Nullable([], Char(97), b) && AuxIn([], Char(97), false, b) == Some(false);
    assert GetFirst([], SkippedBody(), {98}, b) == ({97}, false);
    assert FirstIn([], SkippedBody(), {98}, b) == Some(({97}, false));
    var none: Charset := {};
    assert {97} * {98} == none;
    assert Nullable([], And(SkippedBody()), b) && AuxIn([], And(SkippedBody()), false, b) == Some(true);
    assert GetFirst([], And(SkippedBody()), {98}, b) == ({}, false);
    assert FirstIn([], And(SkippedBody()), {98}, b) == Some(({}, false));
    assert FirstIn([], Char(98), Full(), b) == Some(({98}, false));
    assert !Nofail([], Char(98), b) && AuxIn([], Char(98), true, b) == Some(false);
  }

  lemma {:induction false} LoopingLen(p: Tree, b: nat)
    ensures FixedLen([LoopingBody(p)], Call(0), b) == -1
    decreases b
  {
    if b > 0 {
      LoopingLen(p, b - 1);
      assert FixedLen([LoopingBody(p)], LoopingBody(p), b - 1) == -1;
    }
  }

  lemma SkippedLen(b: nat)
    ensures FixedLen([], SkippedBody(), b) == -1
  {
    LoopingLen(Char(97), b);
    assert FixedLen([LoopingBody(Char(97))], LoopingBody(Char(97)), b) == -1;
    assert FixedLen([], Looping(Char(97)), b) == -1;
  }

  function SkippedPartCode(): Code
  {
    [IChoice(15), Pad, IChar(97)] + LoopingCode(ITestChar(97, 3)) + [IBackCommit(3), Pad, IFail, IChar(98)]
  }

  function SkippedCode(): Code { [IJmp(19), Pad] + SkippedPartCode() + [IEnd] }

  lemma SkippedBodyIs(b: nat)
    ensures Gen([], SkippedBody(), false, NoGuard, Full(), b) == [IChar(97)] + LoopingCode(ITestChar(97, 3))
  {
    KindOfTest(Char(97), {97});
    LoopingIs([], Char(97), {97}, false, NoGuard, Full(), b, ITestChar(97, 3));
    assert !NeedFollow(Char(97)) && FixedLen([], Char(97), b) == 1;
  }

  lemma AndThen(g: Rules, t: Tree, b: nat, c1: Code, c: Code)
    requires t.Seq? && t.p1.And? && t.p2 == Char(98) && FixedLen(g, t.p1.p, b) == -1
    requires c1 == Gen(g, t.p1.p, false, NoGuard, Full(), b) && c == Gen(g, t, false, NoGuard, Full(), b)
    ensures c == AndBackShape(c1) + [IChar(98)]
  {
  }

  lemma PartShape(c1: Code)
    requires c1 == [IChar(97)] + LoopingCode(ITestChar(97, 3))
    ensures AndBackShape(c1) + [IChar(98)] == SkippedPartCode()
  {
    assert AndBackShape(c1) == Ins(IChoice(15)) + c1 + Ins(IBackCommit(3)) + Ins(IFail);
  }

  lemma SkippedPartIs(b: nat)
    ensures Gen([], SkippedPart(), false, NoGuard, Full(), b) == SkippedPartCode()
  {
    SkippedLen(b);
    SkippedBodyIs(b);
    var c1 := [IChar(97)] + LoopingCode(ITestChar(97, 3));
    AndThen([], SkippedPart(), b, c1, Gen([], SkippedPart(), false, NoGuard, Full(), b));
    PartShape(c1);
  }

  lemma OptionShape(c1: Code)
    ensures ChoiceTestShape({}, c1, true, []) == [IJmp(2 + |c1|), Pad] + c1
  {
    assert KindOf({}) == EmptySet;
  }

  lemma OptionByTest(g: Rules, t: Tree, b: nat, c1: Code, c: Code)
    requires t.Choice? && t.p2 == True && GetFirst(g, t.p1, Full(), b) == ({}, false)
    requires c1 == Gen(g, t.p1, false, NoGuard, Full(), b) && c == Gen(g, t, false, NoGuard, Full(), b)
    ensures c == ChoiceTestShape({}, c1, true, [])
  {
    assert KindOf({}) == EmptySet && GuardOf({}) == NoGuard;
    assert ChoiceByTest(g, t.p1, t.p2, Full(), b);
    assert Gen(g, t.p2, false, NoGuard, Full(), b) == [];
  }

  lemma SkippedGen(t: Tree, b: nat, c: Code)
    requires t.Choice? && t.p1 == SkippedPart() && t.p2 == True && c == Gen([], t, false, NoGuard, Full(), b)
    ensures c == ChoiceTestShape({}, Gen([], SkippedPart(), false, NoGuard, Full(), b), true, [])
  {
    SkippedFirst(b);
    OptionByTest([], t, b, Gen([], SkippedPart(), false, NoGuard, Full(), b), c);
  }

  lemma SkippedWhole()
    ensures ChoiceTestShape({}, SkippedPartCode(), true, []) + Ins(IEnd) == SkippedCode()
  {
    OptionShape(SkippedPartCode());
  }

  lemma SkippedIs(b: nat)
    ensures Emit(Skipped(), b) == SkippedCode()
  {
    SkippedGen(Skipped(), b, Gen([], Skipped(), false, NoGuard, Full(), b));
    SkippedPartIs(b);
    SkippedWhole();
  }

  lemma SkippedReach()
    ensures AllReach(SkippedCode())
  {
    ShortJumps(SkippedCode());
  }

  /** The first instruction jumps to the end. */
  lemma JumpEnds(code: Code, s: Subject)
    requires |code| == 20 && code[0] == IJmp(19) && code[19] == IEnd
    ensures Halt(code, s, Run(0, 0, Base, [])) == Ends(Done(0, []))
  {
    One(code, s, Run(0, 0, Base, []));
    One(code, s, Run(19, 0, Base, []));
    HaltIs(code, s, Step(code, s, Run(19, 0, Base, [])), 0);
  }

  lemma SkippedVerified(b: nat)
    ensures Verified(Skipped(), b) && !CheckLoops([], Skipped(), b)
  {
    LoopingAccepted([], Char(97), {97}, b);
    assert Verified(Char(97), b) && Verified(SkippedBody(), b) && Verified(And(SkippedBody()), b);
    assert Verified(Char(98), b) && Verified(SkippedPart(), b) && Verified(True, b);
    assert !CheckLoops([], Char(97), b) && !CheckLoops([], Looping(Char(97)), b) && !CheckLoops([], SkippedBody(), b);
    assert !CheckLoops([], And(SkippedBody()), b) && !CheckLoops([], Char(98), b);
    assert !CheckLoops([], SkippedPart(), b) && !CheckLoops([], True, b);
  }

  lemma SkippedChecks(b: nat)
    ensures WellFormed([], Skipped(), b) && ChecksEnd(Skipped(), b)
  {
    LoopingAccepted([], Char(97), {97}, b);
    assert ChecksEnd(Char(97), b) && ChecksEnd(SkippedBody(), b) && ChecksEnd(And(SkippedBody()), b);
    assert ChecksEnd(Char(98), b) && ChecksEnd(SkippedPart(), b) && ChecksEnd(True, b);
    assert WellFormed([], Char(97), b) && WellFormed([], SkippedBody(), b) && WellFormed([], And(SkippedBody()), b);
    assert WellFormed([], Char(98), b) && WellFormed([], SkippedPart(), b) && WellFormed([], True, b);
  }

  lemma SkippedAnalyses(b: nat)
    ensures AnalysesEnd([], Skipped(), b)
  {
    LoopingAccepted([], Char(97), {97}, b);
    SkippedFirst(b);
    assert AnalysesEnd([], Char(97), b) && AnalysesEnd([], SkippedBody(), b);
    assert AnalysesEnd([], And(SkippedBody()), b) && AnalysesEnd([], Char(98), b);
    assert AnalysesEnd([], SkippedPart(), b) && AnalysesEnd([], True, b) && Stops([], True, First, b);
  }

  lemma {:induction false} LoopingStuck(fuel: nat)
    ensures Parse([LoopingBody(Char(97))], LoopingBody(Char(97)), [97], 1, fuel) == Stuck
    decreases fuel
  {
    var g, inner := [LoopingBody(Char(97))], Grammar([Char(97)]);
    if fuel > 1 {
      LoopingStuck(fuel - 2);
      assert g[0] == LoopingBody(Char(97));
      assert Parse(g, Call(0), [97], 1, fuel - 1) == Stuck;
      if fuel > 2 { assert !Parse(g, inner, [97], 1, fuel - 2).Ok?; }
      assert Parse(g, Not(inner), [97], 1, fuel - 1) == Stuck || Parse(g, Not(inner), [97], 1, fuel - 1) == Ok(1, []);
    }
  }

  lemma SkippedStuck(fuel: nat)
    ensures Parse([], Skipped(), [97], 0, fuel) == Stuck
  {
    if fuel > 4 {
      LoopingStuck(fuel - 5);
      assert Parse([], Looping(Char(97)), [97], 1, fuel - 4) == Stuck;
      assert Parse([], Char(97), [97], 0, fuel - 4) == Ok(1, []);
    }
    if fuel > 3 { assert Parse([], SkippedBody(), [97], 0, fuel - 3) == Stuck; }
    if fuel > 2 { assert Parse([], And(SkippedBody()), [97], 0, fuel - 2) == Stuck; }
    if fuel > 1 { assert Parse([], SkippedPart(), [97], 0, fuel - 1) == Stuck; }
  }

  lemma SkippedMatches(b: nat)
    ensures Halt(Compile(Skipped(), b), [97], Run(0, 0, Base, [])) == Ends(Done(0, []))
  {
    SkippedIs(b);
    JumpEnds(SkippedCode(), [97]);
    CompileSame(Skipped(), b, [97], Run(0, 0, Base, []));
  }

  lemma SkippedCompiles(b: nat)
    ensures CompileEnds(Skipped(), b)
  {
    SkippedChecks(b);
    SkippedAnalyses(b);
    SkippedIs(b);
    SkippedReach();
    CompilerEnds(Skipped(), b);
  }

  lemma SkippedCallsNothing()
    ensures CallsOf(Skipped()) == {}
  {
    assert CallsOf(SkippedBody()) == {} && CallsOf(SkippedPart()) == {};
  }

  /** So the compiled code may tell more than the pattern means: this pattern is accepted and compiled, and
    has no answer on the subject `a`; matching it succeeds there, because its test skips the part that
    has none. */
  lemma MoreThanMeant(b: nat, fuel: nat)
    ensures WellFormed([], Skipped(), b) && CallsOf(Skipped()) == {} && ChecksEnd(Skipped(), b)
    ensures Verified(Skipped(), b) && !CheckLoops([], Skipped(), b) && CompileEnds(Skipped(), b)
    ensures Parse([], Skipped(), [97], 0, fuel) == Stuck
    ensures Halt(Compile(Skipped(), b), [97], Run(0, 0, Base, [])) == Ends(Done(0, []))
  {
    SkippedCallsNothing();
    SkippedVerified(b);
    SkippedChecks(b);
    SkippedCompiles(b);
    SkippedStuck(fuel);
    SkippedMatches(b);
  }
}
