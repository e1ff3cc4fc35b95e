/** The compiler of `lpcode.c` as it works: instructions are appended to the code array and their
  offsets patched. Its result is the code of `PegCodegen`, rewritten by `PegPeephole`. */
module PegCompiler {
  import opened Basics
  import opened PegTree
  import opened PegAnalysis
  import opened PegVm
  import opened PegCodegen
  import opened PegShapes
  import opened PegGrammar
  import opened PegCorrect
  import opened PegVerify
  import opened PegPeephole
  import opened PegSettle
  import opened PegPasses
  import opened PegEnding

  const NOINST: int := -1

  /** What the instruction at `tt` promises, if there is one. */
  function GuardAt(code: Code, tt: int): Guard
  {
    if !(0 <= tt < |code|) then NoGuard else
    match code[tt]
    case ITestChar(c, _) => CharGuard(c)
    case ITestSet(cs, _) => SetGuard(cs)
    case _ => NoGuard
  }

  /** Instructions whose offset can be set. */
  predicate Patchable(x: Slot) { x.IJmp? || HasLabel(x) }

  function Patched(x: Slot, offset: int): (r: Slot)
    requires Patchable(x)
    ensures SizeI(r) == SizeI(x)
  {
    if x.IJmp? then IJmp(offset) else WithOffset(x, offset)
  }

  lemma Assoc3(a: Code, b: Code, c: Code)
    ensures a + b + c == a + (b + c)
  {
  }

  lemma Assoc4(a: Code, b: Code, c: Code, d: Code)
    ensures a + b + c + d == a + (b + c + d) && a + b + c + d == a + b + (c + d) && a + b + c + d == a + (b + (c + d))
  {
  }

  lemma Assoc5(a: Code, b: Code, c: Code, d: Code, e: Code)
    ensures a + b + c + d + e == a + (b + c + d + e) && a + b + c + d + e == a + b + (c + d + e)
    ensures a + b + c + d + e == a + b + (c + (d + e))
  {
    Assoc4(a + b, c, d, e);
    Assoc4(a, b, c, d);
    Assoc3(a, b + c + d, e);
  }

  lemma OptionJoin(pre: Code, t: Code, choice: Code, c1: Code, commit: Code)
    ensures pre + t + (choice + (c1 + commit)) == pre + (t + (choice + c1)) + commit
  {
    Assoc5(pre, t, choice, c1, commit);
    Assoc4(pre, t, choice, c1);
  }

  lemma ChoiceBackJoin(pre: Code, cs: Charset, e: bool, c1: Code, c2: Code)
    ensures pre + (TestOver(cs, e, |c1| + 4) + (Ins(IChoice(|c1| + 4)) + c1)) + Ins(ICommit(2 + |c2|)) + c2
      == pre + ChoiceBackShape(cs, e, c1, c2)
  {
    var t, choice, commit := TestOver(cs, e, |c1| + 4), Ins(IChoice(|c1| + 4)), Ins(ICommit(2 + |c2|));
    Assoc3(t, choice, c1);
    Assoc4(pre, t + choice + c1, commit, c2);
  }

  lemma ChoiceTestJoin(pre: Code, cs: Charset, c1: Code, emptyp2: bool, c2: Code)
    ensures var jmp := if emptyp2 then [] else Ins(IJmp(2 + |c2|));
      pre + (TestOver(cs, false, |c1| + |jmp|) + c1) + jmp + c2 == pre + ChoiceTestShape(cs, c1, emptyp2, c2)
  {
    var jmp := if emptyp2 then [] else Ins(IJmp(2 + |c2|));
    Assoc4(pre, TestOver(cs, false, |c1| + |jmp|) + c1, jmp, c2);
  }

  lemma RepTestJoin(pre: Code, cs: Charset, c1: Code)
    ensures pre + TestOver(cs, false, |c1| + 2) + c1 + Ins(IJmp(-(TestSize(cs, false) + |c1|))) + []
      == pre + RepTestShape(cs, c1)
  {
    var back := Ins(IJmp(-(TestSize(cs, false) + |c1|)));
    Assoc4(pre, TestOver(cs, false, |c1| + 2), c1, back);
    NothingBehind(pre + TestOver(cs, false, |c1| + 2) + c1 + back);
  }

  lemma RepBackJoin(pre: Code, cs: Charset, e: bool, opt: bool, c1: Code)
    ensures pre + TestOver(cs, e, |c1| + 4)
      + (Ins(if opt then IPartialCommit(2) else IChoice(|c1| + 4)) + (c1 + Ins(IPartialCommit(-|c1|))))
      == pre + RepBackShape(cs, e, opt, c1)
  {
    Assoc5(pre, TestOver(cs, e, |c1| + 4), Ins(if opt then IPartialCommit(2) else IChoice(|c1| + 4)), c1,
           Ins(IPartialCommit(-|c1|)));
  }

  lemma NotJoin(pre: Code, cs: Charset, e: bool, c1: Code)
    ensures pre + TestOver(cs, e, |c1| + 3) + (Ins(IChoice(|c1| + 3)) + (c1 + Ins(IFailTwice)))
      == pre + NotBackShape(cs, e, c1)
  {
    Assoc5(pre, TestOver(cs, e, |c1| + 3), Ins(IChoice(|c1| + 3)), c1, Ins(IFailTwice));
  }

  lemma EmitIs(t: Tree, b: nat, c: Code)
    requires IsGen([], t, false, NoGuard, Full(), b, c)
    ensures c + Ins(IEnd) == Emit(t, b)
  {
    GenIs([], t, false, NoGuard, Full(), b, c);
  }

  lemma IsGenOf(g: Rules, t: Tree, opt: bool, tt: Guard, fl: Charset, b: nat, c: Code)
    requires c == Gen(g, t, opt, tt, fl, b)
    ensures IsGen(g, t, opt, tt, fl, b, c)
  {
  }

  lemma GenIs(g: Rules, t: Tree, opt: bool, tt: Guard, fl: Charset, b: nat, c: Code)
    requires IsGen(g, t, opt, tt, fl, b, c)
    ensures c == Gen(g, t, opt, tt, fl, b)
  {
    assert Look(0);
  }

  lemma EmitRoomy(t: Tree, b: nat)
    ensures Roomy(Emit(t, b))
  {
    SpacedGen([], t, false, NoGuard, Full(), b);
    SpacedIns(IEnd);
    SpacedConcat(Gen([], t, false, NoGuard, Full(), b), Ins(IEnd));
    SpacedRoomy(Emit(t, b));
  }

  /** Patching an instruction in the middle of the code. */
  lemma PatchIns(pre: Code, x: Slot, x': Slot, post: Code)
    requires SizeI(x) == SizeI(x')
    ensures |pre| < |pre + Ins(x) + post|
    ensures (pre + Ins(x) + post)[|pre| := x'] == pre + Ins(x') + post
  {
  }

  /** What code generation needs: the pattern was built by the constructors, and no chain of jumps
    that `correctcalls` follows is endless. */
  ghost predicate Compilable(g: Rules, t: Tree, b: nat)
  {
    forall n :: Look(n) ==> WellFormed(g, t, b) && CallsEnd(g, t, b)
  }

  lemma ChildCompilable(g: Rules, t: Tree, p: Tree, b: nat)
    requires Compilable(g, t, b) && Child(t, p) && !(t.Not? && HeadFail(g, p, b))
    ensures Compilable(g, p, b)
  {
    assert Look(0);
  }

  lemma RuleCompilable(g: Rules, rs: Rules, k: nat, b: nat)
    requires Compilable(g, Grammar(rs), b) && k < |rs|
    ensures Compilable(rs, rs[k], b)
  {
    assert Look(0);
  }

  lemma GrammarCompilable(g: Rules, rs: Rules, b: nat, codes: seq<Code>)
    requires Compilable(g, Grammar(rs), b) && codes == RuleCodes(rs, b)
    ensures var body := Flatten(codes); forall i :: CallEnds(body, CorrectCalls(body, Positions(codes, 0), 0), i)
  {
    assert CallsEnd(g, Grammar(rs), b) by { assert Look(0); }
    assert CorrectCalls(Flatten(codes), Positions(codes, 0), 0) == CorrectedRules(rs, b);
  }

  /** The calls of the rules can be corrected, and `f` are then the rules: `rel` are their positions. */
  ghost predicate Correctable(body: Code, rel: seq<nat>, f: Code)
  {
    forall n :: Look(n) ==> Spaced(body) && f == CorrectCalls(body, rel, 0) && forall k :: CallEnds(body, f, k)
  }

  lemma CallFollowed(body: Code, rel: seq<nat>, f: Code, k: nat)
    requires Correctable(body, rel, f) && k < |body| && body[k].IOpenCall?
    ensures Settles(f, k + 2)
  {
    assert Look(0);
    assert CallEnds(body, f, k);
  }

  lemma AllToDo(body: Code, rel: seq<nat>, f: Code)
    requires Correctable(body, rel, f)
    ensures Todo(body, rel, 0, f)
  {
    assert Look(0);
  }

  lemma CorrectableRules(g: Rules, rs: Rules, b: nat, codes: seq<Code>)
    requires Compilable(g, Grammar(rs), b) && codes == RuleCodes(rs, b)
    ensures Correctable(Flatten(codes), Positions(codes, 0), CorrectCalls(Flatten(codes), Positions(codes, 0), 0))
  {
    GrammarCompilable(g, rs, b, codes);
    SpacedRules(rs, b);
  }

  /** All chains of the patterns whose checks passed end. */
  lemma {:induction false} SafeEnds(g: Rules, t: Tree, b: nat)
    requires WellFormed(g, t, b) && Verified(t, b) && Safe(t, b)
    ensures CallsEnd(g, t, b)
    decreases t
  {
    match t
    case Grammar(rs) =>
      BodySettles(g, rs, b);
      forall i ensures CallEnds(Flatten(RuleCodes(rs, b)), CorrectedRules(rs, b), i) { }
      forall k | 0 <= k < |rs| ensures CallsEnd(rs, rs[k], b) { SafeEnds(rs, rs[k], b); }
    case Rep(p) => SafeEnds(g, p, b);
    case Not(p) => SafeEnds(g, p, b);
    case And(p) => SafeEnds(g, p, b);
    case Behind(_, p) => SafeEnds(g, p, b);
    case Capture(_, _, p) => SafeEnds(g, p, b);
    case Seq(p1, p2) => SafeEnds(g, p1, b); SafeEnds(g, p2, b);
    case Choice(p1, p2) => SafeEnds(g, p1, b); SafeEnds(g, p2, b);
    case _ =>
  }

  lemma EmitCompilable(t: Tree, b: nat)
    requires WellFormed([], t, b) && AllSettle(Emit(t, b))
    ensures Compilable([], t, b)
  {
    EmitEnds(t, b);
  }

  lemma SafeCompilable(t: Tree, b: nat)
    requires WellFormed([], t, b) && CallsOf(t) == {} && Verified(t, b) && Safe(t, b)
    ensures Compilable([], t, b) && AllSettle(Emit(t, b))
  {
    SafeEnds([], t, b);
    forall x ensures Settles(Emit(t, b), x) { EmitSettles(t, b, x); }
  }

  /** The code is the one that `PegCodegen.Gen` describes. */
  ghost predicate IsGen(g: Rules, t: Tree, opt: bool, tt: Guard, fl: Charset, b: nat, c: Code)
  {
    forall n :: Look(n) ==> c == Gen(g, t, opt, tt, fl, b)
  }

  lemma GenSeq(g: Rules, p1: Tree, p2: Tree, opt: bool, tt: Guard, fl: Charset, b: nat, c1: Code, c2: Code)
    requires IsGen(g, p1, false, tt, if NeedFollow(p1) then GetFirst(g, p2, fl, b).0 else Full(), b, c1)
    requires IsGen(g, p2, opt, if FixedLen(g, p1, b) == 0 then tt else NoGuard, fl, b, c2)
    ensures IsGen(g, Seq(p1, p2), opt, tt, fl, b, c1 + c2)
  {
    assert Look(0);
  }

  lemma GenChoiceTest(g: Rules, p1: Tree, p2: Tree, opt: bool, tt: Guard, fl: Charset, b: nat, cs: Charset, c1: Code,
                      c2: Code)
    requires ChoiceByTest(g, p1, p2, fl, b) && cs == GetFirst(g, p1, Full(), b).0
    requires IsGen(g, p1, false, GuardOf(cs), fl, b, c1) && IsGen(g, p2, opt, NoGuard, fl, b, c2)
    ensures IsGen(g, Choice(p1, p2), opt, tt, fl, b, ChoiceTestShape(cs, c1, p2.True?, c2))
  {
    GenIs(g, p1, false, GuardOf(cs), fl, b, c1);
    GenIs(g, p2, opt, NoGuard, fl, b, c2);
    var c := Gen(g, Choice(p1, p2), opt, tt, fl, b);
    ChoiceTestCode(g, Choice(p1, p2), opt, tt, fl, b, cs, c1, c2, c);
    IsGenOf(g, Choice(p1, p2), opt, tt, fl, b, c);
  }

  lemma ChoiceTestCode(g: Rules, t: Tree, opt: bool, tt: Guard, fl: Charset, b: nat, cs: Charset, c1: Code, c2: Code,
                       c: Code)
    requires t.Choice?
    requires ChoiceByTest(g, t.p1, t.p2, fl, b) && cs == GetFirst(g, t.p1, Full(), b).0
    requires c1 == Gen(g, t.p1, false, GuardOf(cs), fl, b) && c2 == Gen(g, t.p2, opt, NoGuard, fl, b)
    requires c == Gen(g, t, opt, tt, fl, b)
    ensures c == ChoiceTestShape(cs, c1, t.p2.True?, c2)
  {
  }

  lemma GenChoicePartial(g: Rules, p1: Tree, p2: Tree, opt: bool, tt: Guard, fl: Charset, b: nat, c1: Code)
    requires !ChoiceByTest(g, p1, p2, fl, b) && opt && p2.True? && IsGen(g, p1, true, NoGuard, Full(), b, c1)
    ensures IsGen(g, Choice(p1, p2), opt, tt, fl, b, ChoicePartialShape(c1))
  {
    assert Look(0);
  }

  lemma GenChoiceBack(g: Rules, p1: Tree, p2: Tree, opt: bool, tt: Guard, fl: Charset, b: nat, cs: Charset, e: bool,
                      c1: Code, c2: Code)
    requires !ChoiceByTest(g, p1, p2, fl, b) && !(opt && p2.True?) && (cs, e) == GetFirst(g, p1, Full(), b)
    requires IsGen(g, p1, p2.True?, if e then NoGuard else GuardOf(cs), Full(), b, c1)
             && IsGen(g, p2, opt, NoGuard, fl, b, c2)
    ensures IsGen(g, Choice(p1, p2), opt, tt, fl, b, ChoiceBackShape(cs, e, c1, c2))
  {
    var tt1 := if e then NoGuard else GuardOf(cs);
    GenIs(g, p1, p2.True?, tt1, Full(), b, c1);
    GenIs(g, p2, opt, NoGuard, fl, b, c2);
    var c := Gen(g, Choice(p1, p2), opt, tt, fl, b);
    ChoiceBackCode(g, Choice(p1, p2), opt, tt, fl, b, cs, e, tt1, c1, c2, c);
    IsGenOf(g, Choice(p1, p2), opt, tt, fl, b, c);
  }

  lemma ChoiceBackCode(g: Rules, t: Tree, opt: bool, tt: Guard, fl: Charset, b: nat, cs: Charset, e: bool,
                       tt1: Guard, c1: Code, c2: Code, c: Code)
    requires t.Choice?
    requires !ChoiceByTest(g, t.p1, t.p2, fl, b) && !(opt && t.p2.True?) && (cs, e) == GetFirst(g, t.p1, Full(), b)
    requires tt1 == (if e then NoGuard else GuardOf(cs))
    requires c1 == Gen(g, t.p1, t.p2.True?, tt1, Full(), b) && c2 == Gen(g, t.p2, opt, NoGuard, fl, b)
    requires c == Gen(g, t, opt, tt, fl, b)
    ensures c == ChoiceBackShape(cs, e, c1, c2)
  {
  }

  lemma GenRepTest(g: Rules, p: Tree, opt: bool, tt: Guard, fl: Charset, b: nat, cs: Charset, c1: Code)
    requires ToCharset(p) == [] && cs == GetFirst(g, p, Full(), b).0 && RepByTest(g, p, fl, b)
    requires IsGen(g, p, false, GuardOf(cs), Full(), b, c1)
    ensures IsGen(g, Rep(p), opt, tt, fl, b, RepTestShape(cs, c1))
  {
    GenIs(g, p, false, GuardOf(cs), Full(), b, c1);
    var c := Gen(g, Rep(p), opt, tt, fl, b);
    RepTestCode(g, Rep(p), opt, tt, fl, b, cs, c1, c);
    IsGenOf(g, Rep(p), opt, tt, fl, b, c);
  }

  lemma RepTestCode(g: Rules, t: Tree, opt: bool, tt: Guard, fl: Charset, b: nat, cs: Charset, c1: Code, c: Code)
    requires t.Rep?
    requires ToCharset(t.p) == [] && cs == GetFirst(g, t.p, Full(), b).0 && RepByTest(g, t.p, fl, b)
    requires c1 == Gen(g, t.p, false, GuardOf(cs), Full(), b) && c == Gen(g, t, opt, tt, fl, b)
    ensures c == RepTestShape(cs, c1)
  {
  }

  lemma GenRepBack(g: Rules, p: Tree, opt: bool, tt: Guard, fl: Charset, b: nat, cs: Charset, e: bool, c1: Code)
    requires ToCharset(p) == [] && (cs, e) == GetFirst(g, p, Full(), b) && !RepByTest(g, p, fl, b)
    requires IsGen(g, p, false, NoGuard, Full(), b, c1)
    ensures IsGen(g, Rep(p), opt, tt, fl, b, RepBackShape(cs, e, opt, c1))
  {
    GenIs(g, p, false, NoGuard, Full(), b, c1);
    var c := Gen(g, Rep(p), opt, tt, fl, b);
    RepBackCode(g, Rep(p), opt, tt, fl, b, cs, e, c1, c);
    IsGenOf(g, Rep(p), opt, tt, fl, b, c);
  }

  lemma RepBackCode(g: Rules, t: Tree, opt: bool, tt: Guard, fl: Charset, b: nat, cs: Charset, e: bool, c1: Code,
                    c: Code)
    requires t.Rep?
    requires ToCharset(t.p) == [] && (cs, e) == GetFirst(g, t.p, Full(), b) && !RepByTest(g, t.p, fl, b)
    requires c1 == Gen(g, t.p, false, NoGuard, Full(), b) && c == Gen(g, t, opt, tt, fl, b)
    ensures c == RepBackShape(cs, e, opt, c1)
  {
  }

  lemma GenNotTest(g: Rules, p: Tree, opt: bool, tt: Guard, fl: Charset, b: nat, cs: Charset, e: bool)
    requires (cs, e) == GetFirst(g, p, Full(), b) && HeadFail(g, p, b)
    ensures IsGen(g, Not(p), opt, tt, fl, b, NotTestShape(cs, e))
  {
    assert Look(0);
  }

  lemma GenNotBack(g: Rules, p: Tree, opt: bool, tt: Guard, fl: Charset, b: nat, cs: Charset, e: bool, c1: Code)
    requires (cs, e) == GetFirst(g, p, Full(), b) && !HeadFail(g, p, b) && IsGen(g, p, false, NoGuard, Full(), b, c1)
    ensures IsGen(g, Not(p), opt, tt, fl, b, NotBackShape(cs, e, c1))
  {
    GenIs(g, p, false, NoGuard, Full(), b, c1);
    var c := Gen(g, Not(p), opt, tt, fl, b);
    NotBackCode(g, Not(p), opt, tt, fl, b, cs, e, c1, c);
    IsGenOf(g, Not(p), opt, tt, fl, b, c);
  }

  lemma NotBackCode(g: Rules, t: Tree, opt: bool, tt: Guard, fl: Charset, b: nat, cs: Charset, e: bool, c1: Code,
                    c: Code)
    requires t.Not?
    requires (cs, e) == GetFirst(g, t.p, Full(), b) && !HeadFail(g, t.p, b)
    requires c1 == Gen(g, t.p, false, NoGuard, Full(), b) && c == Gen(g, t, opt, tt, fl, b)
    ensures c == NotBackShape(cs, e, c1)
  {
  }

  lemma GenAndBehind(g: Rules, p: Tree, opt: bool, tt: Guard, fl: Charset, b: nat, n: nat, c1: Code)
    requires n == FixedLen(g, p, b) <= MAXBEHIND && !HasCaptures(g, p, {}, b) && IsGen(g, p, false, tt, Full(), b, c1)
    ensures IsGen(g, And(p), opt, tt, fl, b, c1 + GoBack(n))
  {
    GenIs(g, p, false, tt, Full(), b, c1);
    var c := Gen(g, And(p), opt, tt, fl, b);
    AndBehindCode(g, And(p), opt, tt, fl, b, n, c1, c);
    IsGenOf(g, And(p), opt, tt, fl, b, c);
  }

  lemma AndBehindCode(g: Rules, t: Tree, opt: bool, tt: Guard, fl: Charset, b: nat, n: nat, c1: Code, c: Code)
    requires t.And?
    requires n == FixedLen(g, t.p, b) <= MAXBEHIND && !HasCaptures(g, t.p, {}, b)
    requires c1 == Gen(g, t.p, false, tt, Full(), b) && c == Gen(g, t, opt, tt, fl, b)
    ensures c == c1 + GoBack(n)
  {
  }

  lemma GenAndBack(g: Rules, p: Tree, opt: bool, tt: Guard, fl: Charset, b: nat, c1: Code)
    requires !(0 <= FixedLen(g, p, b) <= MAXBEHIND && !HasCaptures(g, p, {}, b))
             && IsGen(g, p, false, tt, Full(), b, c1)
    ensures IsGen(g, And(p), opt, tt, fl, b, AndBackShape(c1))
  {
    GenIs(g, p, false, tt, Full(), b, c1);
    var c := Gen(g, And(p), opt, tt, fl, b);
    AndBackCode(g, And(p), opt, tt, fl, b, c1, c);
    IsGenOf(g, And(p), opt, tt, fl, b, c);
  }

  lemma AndBackCode(g: Rules, t: Tree, opt: bool, tt: Guard, fl: Charset, b: nat, c1: Code, c: Code)
    requires t.And?
    requires !(0 <= FixedLen(g, t.p, b) <= MAXBEHIND && !HasCaptures(g, t.p, {}, b))
    requires c1 == Gen(g, t.p, false, tt, Full(), b) && c == Gen(g, t, opt, tt, fl, b)
    ensures c == AndBackShape(c1)
  {
  }

  lemma GenBehind(g: Rules, n: nat, p: Tree, opt: bool, tt: Guard, fl: Charset, b: nat, c1: Code)
    requires IsGen(g, p, false, NoGuard, Full(), b, c1)
    ensures IsGen(g, Behind(n, p), opt, tt, fl, b, GoBack(n) + c1)
  {
    assert Look(0);
  }

  lemma GenCaptureFull(g: Rules, kind: nat, key: nat, p: Tree, opt: bool, tt: Guard, fl: Charset, b: nat, n: nat,
                       c1: Code)
    requires n == FixedLen(g, p, b) <= MAXOFF && !HasCaptures(g, p, {}, b) && IsGen(g, p, false, tt, fl, b, c1)
    ensures IsGen(g, Capture(kind, key, p), opt, tt, fl, b, c1 + Ins(IFullCapture(kind, key, n)))
  {
    GenIs(g, p, false, tt, fl, b, c1);
    var c := Gen(g, Capture(kind, key, p), opt, tt, fl, b);
    CaptureFullCode(g, Capture(kind, key, p), opt, tt, fl, b, n, c1, c);
    IsGenOf(g, Capture(kind, key, p), opt, tt, fl, b, c);
  }

  lemma CaptureFullCode(g: Rules, t: Tree, opt: bool, tt: Guard, fl: Charset, b: nat, n: nat, c1: Code, c: Code)
    requires t.Capture?
    requires n == FixedLen(g, t.p, b) <= MAXOFF && !HasCaptures(g, t.p, {}, b)
    requires c1 == Gen(g, t.p, false, tt, fl, b) && c == Gen(g, t, opt, tt, fl, b)
    ensures c == c1 + Ins(IFullCapture(t.kind, t.key, n))
  {
  }

  lemma GenCaptureOpen(g: Rules, kind: nat, key: nat, p: Tree, opt: bool, tt: Guard, fl: Charset, b: nat, c1: Code)
    requires !(0 <= FixedLen(g, p, b) <= MAXOFF && !HasCaptures(g, p, {}, b)) && IsGen(g, p, false, tt, fl, b, c1)
    ensures IsGen(g, Capture(kind, key, p), opt, tt, fl, b, CaptureOpenShape(kind, key, c1))
  {
    GenIs(g, p, false, tt, fl, b, c1);
    var c := Gen(g, Capture(kind, key, p), opt, tt, fl, b);
    CaptureOpenCode(g, Capture(kind, key, p), opt, tt, fl, b, c1, c);
    IsGenOf(g, Capture(kind, key, p), opt, tt, fl, b, c);
  }

  lemma CaptureOpenCode(g: Rules, t: Tree, opt: bool, tt: Guard, fl: Charset, b: nat, c1: Code, c: Code)
    requires t.Capture?
    requires !(0 <= FixedLen(g, t.p, b) <= MAXOFF && !HasCaptures(g, t.p, {}, b))
    requires c1 == Gen(g, t.p, false, tt, fl, b) && c == Gen(g, t, opt, tt, fl, b)
    ensures c == CaptureOpenShape(t.kind, t.key, c1)
  {
  }

  /** The code of a rule, with its return. */
  ghost predicate IsRule(rs: Rules, k: int, b: nat, c: Code)
  {
    forall n :: Look(n) ==> 0 <= k < |rs| && c == RuleCode(rs, rs[k], b)
  }

  ghost predicate AreRules(rs: Rules, b: nat, codes: seq<Code>)
  {
    forall k :: 0 <= k < |codes| ==> IsRule(rs, k, b, codes[k])
  }

  lemma GenRule(rs: Rules, b: nat, codes: seq<Code>, c: Code)
    requires AreRules(rs, b, codes) && |codes| < |rs| && IsGen(rs, rs[|codes|], false, NoGuard, Full(), b, c)
    ensures AreRules(rs, b, codes + [c + Ins(IRet)])
  {
    assert Look(0);
  }

  lemma GenGrammar(g: Rules, rs: Rules, opt: bool, tt: Guard, fl: Charset, b: nat, codes: seq<Code>)
    requires |codes| == |rs| && AreRules(rs, b, codes)
    ensures IsGen(g, Grammar(rs), opt, tt, fl, b, Rulebook(codes))
    ensures codes == RuleCodes(rs, b)
  {
    assert Look(0);
    GrammarCode(g, rs, opt, tt, fl, b);
    forall k | 0 <= k < |rs| ensures codes[k] == RuleCodes(rs, b)[k] {
      assert IsRule(rs, k, b, codes[k]);
    }
    assert codes == RuleCodes(rs, b);
  }

  lemma BookParts(g: Rules, rs: Rules, opt: bool, tt: Guard, fl: Charset, b: nat, codes: seq<Code>)
    returns (body: Code, rel: seq<nat>, f: Code)
    requires Compilable(g, Grammar(rs), b) && |codes| == |rs| && AreRules(rs, b, codes)
    ensures body == Flatten(codes) && rel == Positions(codes, 0) && Correctable(body, rel, f)
    ensures IsGen(g, Grammar(rs), opt, tt, fl, b, Rulebook(codes))
    ensures Rulebook(codes) == Ins(ICall(4)) + Ins(IJmp(2 + |body|)) + f
  {
    GenGrammar(g, rs, opt, tt, fl, b, codes);
    CorrectableRules(g, rs, b, codes);
    body, rel, f := BookBody(codes);
  }

  lemma BookBody(codes: seq<Code>) returns (body: Code, rel: seq<nat>, f: Code)
    ensures body == Flatten(codes) && rel == Positions(codes, 0) && f == CorrectCalls(body, rel, 0)
    ensures Rulebook(codes) == Ins(ICall(4)) + Ins(IJmp(2 + |body|)) + f
  {
    body, rel := Flatten(codes), Positions(codes, 0);
    f := CorrectCalls(body, rel, 0);
  }

  lemma GenLeaf(g: Rules, t: Tree, opt: bool, tt: Guard, fl: Charset, b: nat)
    ensures t.Char? ==> IsGen(g, t, opt, tt, fl, b, CodeChar(t.c, tt))
    ensures t.Set? ==> IsGen(g, t, opt, tt, fl, b, CodeCharset(t.cs, tt))
    ensures t.Any? ==> IsGen(g, t, opt, tt, fl, b, Ins(IAny))
    ensures t.True? ==> IsGen(g, t, opt, tt, fl, b, [])
    ensures t.False? ==> IsGen(g, t, opt, tt, fl, b, Ins(IFail))
    ensures t.Call? ==> IsGen(g, t, opt, tt, fl, b, Ins(IOpenCall(t.rule)))
    ensures t.Rep? && ToCharset(t.p) != [] ==> IsGen(g, t, opt, tt, fl, b, Ins(ISpan(ToCharset(t.p)[0])))
  {
  }

  /** `tt` is the index of an instruction that promises this, or none. */
  ghost predicate Guards(code: Code, tt: int, guard: Guard)
  {
    tt < |code| && forall n :: Look(n) ==> guard == GuardAt(code, tt)
  }

  lemma GuardStays(x: Code, y: Code, tt: int, guard: Guard)
    requires Guards(x, tt, guard)
    ensures Guards(x + y, tt, guard)
  {
    assert Look(0);
  }

  lemma Unguarded(code: Code)
    ensures Guards(code, NOINST, NoGuard)
  {
  }

  /** Moved by `n`. */
  function Shifted(ps: seq<nat>, n: nat): (r: seq<nat>)
    ensures |r| == |ps| && forall k :: 0 <= k < |ps| ==> r[k] == n + ps[k]
  {
    seq(|ps|, k requires 0 <= k < |ps| => n + ps[k])
  }

  lemma {:induction false} FlattenNext(codes: seq<Code>, c: Code, start: nat)
    ensures Flatten(codes + [c]) == Flatten(codes) + c
    ensures Positions(codes + [c], start) == Positions(codes, start) + [start + |Flatten(codes)|]
  {
    if codes == [] {
      assert [] + [c] == [c] && [c][1..] == [];
      assert Flatten([c]) == c + Flatten([]);
    } else {
      assert (codes + [c])[1..] == codes[1..] + [c];
      FlattenNext(codes[1..], c, start + |codes[0]|);
    }
  }

  lemma OneMoreRule(codes: seq<Code>, c: Code, start: nat)
    ensures Flatten(codes + [c]) == Flatten(codes) + c
    ensures Shifted(Positions(codes + [c], 0), start)
            == Shifted(Positions(codes, 0), start) + [start + |Flatten(codes)|]
  {
    FlattenNext(codes, c, 0);
  }

  lemma SpacedRules(rs: Rules, b: nat)
    ensures Spaced(Flatten(RuleCodes(rs, b)))
  {
    var codes := RuleCodes(rs, b);
    forall k | 0 <= k < |codes| ensures Spaced(codes[k]) {
      SpacedGen(rs, rs[k], false, NoGuard, Full(), b);
      SpacedIns(IRet);
      SpacedConcat(Gen(rs, rs[k], false, NoGuard, Full(), b), Ins(IRet));
    }
    SpacedFlatten(codes);
  }

  /** In the rules of a grammar, with their calls corrected, no chain of jumps is endless. */
  lemma BodySettles(g: Rules, rs: Rules, b: nat)
    requires WellFormed(g, Grammar(rs), b) && Verified(Grammar(rs), b) && Safe(Grammar(rs), b)
    ensures AllSettle(CorrectedRules(rs, b))
  {
    var f := CorrectedRules(rs, b);
    var c := Ctx(f, [], rs, Positions(RuleCodes(rs, b), 0), b);
    BodyFits(g, c);
    SettleRules(c, rs, 0, |f|);
    RegionAll(f);
  }

  lemma {:induction false} SkipPads(code: Code, ps: seq<nat>, i: nat, n: nat)
    requires i + n <= |code| && forall y :: i <= y < i + n ==> At(code, y, Pad)
    ensures CorrectCalls(code, ps, i) == CorrectCalls(code, ps, i + n)
    decreases n
  {
    if n > 0 {
      assert At(code, i, Pad);
      SkipPads(code, ps, i + 1, n - 1);
    }
  }

  /** The loop of `correctcalls` may go on behind the whole instruction. */
  lemma NextCall(code: Code, ps: seq<nat>, i: nat)
    requires i < |code| && Spaced(code)
    ensures var code1 := CorrectCall(code, ps, i);
            && Spaced(code1) && i + SizeI(code1[i]) <= |code|
            && CorrectCalls(code, ps, i) == CorrectCalls(code1, ps, i + SizeI(code1[i]))
  {
    var code1 := CorrectCall(code, ps, i);
    assert SizeI(code1[i]) == SizeI(code[i]);
    forall j, y | 0 <= j < |code1| && j < y < j + SizeI(code1[j]) ensures At(code1, y, Pad) {
      assert At(code, y, Pad);
    }
    var n := SizeI(code1[i]);
    if n > 1 { assert At(code, i + n - 1, Pad); }
    SkipPads(code1, ps, i + 1, n - 1);
  }

  lemma NothingBehind(x: Code)
    ensures x + [] == x
  {
  }

  /** The calls before `i` are corrected; correcting the others gives `f`. */
  ghost predicate Todo(part: Code, rel: seq<nat>, i: int, f: Code)
  {
    forall n :: Look(n) ==> 0 <= i <= |part| && Spaced(part) && CorrectCalls(part, rel, i) == f
  }

  /** From `r` on nothing has changed. */
  ghost predicate Untouched(part: Code, body: Code, r: nat)
  {
    forall n :: Look(n) ==> |part| == |body| && forall k :: r <= k < |part| ==> part[k] == body[k]
  }

  lemma UntouchedAt(part: Code, body: Code, r: nat)
    requires Untouched(part, body, r)
    ensures |part| == |body| && (r < |part| ==> part[r] == body[r])
  {
    assert Look(0);
  }

  lemma UntouchedNext(part: Code, body: Code, r: nat, next: nat)
    requires Untouched(part, body, r) && r <= next
    ensures Untouched(part, body, next)
  {
    assert Look(0);
  }

  lemma UntouchedCall(part: Code, body: Code, r: nat, x: Slot)
    requires Untouched(part, body, r) && r < |part|
    ensures Untouched(part[r := x], body, r + 2)
  {
    assert Look(0);
  }

  lemma UntouchedStart(body: Code)
    ensures Untouched(body, body, 0)
  {
  }

  lemma NothingToDo(part: Code, rel: seq<nat>, f: Code)
    requires Todo(part, rel, |part|, f)
    ensures part == f
  {
    assert Look(0);
  }

  lemma ChainEnds(part: Code, rel: seq<nat>, i: nat, f: Code)
    requires Todo(part, rel, i, f) && Settles(f, i + 2)
    ensures Settles(part, i + 2)
  {
    assert Look(0);
    CorrectCallsKeeps(part, rel, i);
    KeptSettles(part, f, i + 2);
  }

  lemma Advance(part: Code, rel: seq<nat>, i: nat, f: Code)
    requires Todo(part, rel, i, f) && i < |part| && !(part[i].IOpenCall? && part[i].rule < |rel|)
    ensures i + SizeI(part[i]) <= |part| && Todo(part, rel, i + SizeI(part[i]), f)
  {
    assert Look(0);
    NextCall(part, rel, i);
  }

  lemma AdvanceCall(part: Code, rel: seq<nat>, i: nat, f: Code, x: Slot) returns (part1: Code)
    requires Todo(part, rel, i, f) && i < |part| && part[i].IOpenCall? && part[i].rule < |rel|
    requires var offset := rel[part[i].rule] - i;
             x == if At(part, Final(part, i + 2), IRet) then IJmp(offset) else ICall(offset)
    ensures part1 == part[i := x] && i + 2 <= |part| && Todo(part1, rel, i + 2, f)
  {
    assert Look(0);
    part1 := part[i := x];
    assert CorrectCall(part, rel, i) == part1;
    NextCall(part, rel, i);
  }

  /** What a call becomes: a tail call, if nothing but a return follows. */
  method CorrectedCall(code: Code, i: nat, offset: int) returns (x: Slot)
    requires Settles(code, i + 2)
    ensures x == if At(code, Final(code, i + 2), IRet) then IJmp(offset) else ICall(offset)
  {
    var ft := FindFinalTarget(code, i + 2);
    x := if At(code, ft, IRet) then IJmp(offset) else ICall(offset);
  }

  lemma UpdateBehind(x: Code, y: Code, r: nat, z: Slot)
    requires r < |y|
    ensures (x + y)[|x| + r := z] == x + y[r := z]
  {
  }

  lemma TwoParts(x: Code, y: Code)
    ensures (x + y)[..|x|] == x && (x + y)[|x|..] == y
  {
  }

  class CompileState {
    var code: Code

    constructor ()
      ensures code == []
    {
      code := [];
    }

    /** `addinstruction`. */
    method AddInstruction(x: Slot) returns (i: nat)
      modifies this
      ensures i == |old(code)| && code == old(code) + [x]
    {
      i := |code|;
      code := code + [x];
    }

    /** `addoffsetinst`. */
    method AddOffsetInst(x: Slot) returns (i: nat)
      modifies this
      ensures i == |old(code)| && code == old(code) + [x, Pad]
      ensures SizeI(x) == 2 ==> code == old(code) + Ins(x)
    {
      assert SizeI(x) == 2 ==> Ins(x) == [x, Pad];
      i := AddInstruction(x);
      var space := AddInstruction(Pad);
    }

    /** `addcharset`: space for the set, which the model keeps in the instruction. */
    method AddCharset()
      modifies this
      ensures code == old(code) + seq(CHARSET_INST_SIZE - 1, _ => Pad)
    {
      var k := 0;
      while k < CHARSET_INST_SIZE - 1
        invariant 0 <= k <= CHARSET_INST_SIZE - 1 && code == old(code) + seq(k, _ => Pad)
      {
        code := code + [Pad];
        k := k + 1;
      }
    }

    /** `jumptothere`. The instruction `x` stands between `pre` and `post`. */
    method JumpToThere(i: int, target: int, ghost pre: Code, ghost x: Slot, ghost post: Code)
      requires i == NOINST || (i == |pre| && code == pre + Ins(x) + post && Patchable(x))
      modifies this
      ensures code == if i == NOINST then old(code) else pre + Ins(Patched(x, target - i)) + post
    {
      if i >= 0 {
        PatchIns(pre, x, Patched(x, target - i), post);
        code := code[i := Patched(code[i], target - i)];
      }
    }

    /** `jumptohere`. */
    method JumpToHere(i: int, ghost pre: Code, ghost x: Slot, ghost post: Code)
      requires i == NOINST || (i == |pre| && code == pre + Ins(x) + post && Patchable(x))
      modifies this
      ensures code == if i == NOINST then old(code) else pre + Ins(Patched(x, |old(code)| - i)) + post
    {
      JumpToThere(i, |code|, pre, x, post);
    }

    /** Setting the offset of the instruction at `i` during `peephole`. */
    method SetOffset(i: nat, offset: int)
      requires i < |code| && Patchable(code[i])
      modifies this
      ensures code == old(code)[i := Patched(old(code)[i], offset)]
    {
      code := code[i := Patched(code[i], offset)];
    }

    /** `codechar`. */
    method EmitChar(c: Byte, tt: int, ghost guard: Guard)
      requires Guards(code, tt, guard)
      modifies this
      ensures code == old(code) + CodeChar(c, guard)
    {
      assert Look(0);
      var x := if 0 <= tt < |code| && code[tt].ITestChar? && code[tt].c == c then IAny else IChar(c);
      var i := AddInstruction(x);
    }

    /** `codecharset`. */
    method EmitCharset(cs: Charset, tt: int, ghost guard: Guard)
      requires Guards(code, tt, guard)
      modifies this
      ensures code == old(code) + CodeCharset(cs, guard)
    {
      assert Look(0);
      match KindOf(cs) {
        case SingleChar(c) => EmitChar(c, tt, guard);
        case Generic =>
          if 0 <= tt < |code| && code[tt].ITestSet? && code[tt].cs == cs {
            var i := AddInstruction(IAny);
          } else {
            var i := AddInstruction(ISet(cs));
            AddCharset();
          }
        case EmptySet => var i := AddInstruction(IFail);
        case FullSet => var i := AddInstruction(IAny);
      }
    }

    /** `codetestset`: the index of the test, if there is one, whose offset is still open. */
    method EmitTestSet(cs: Charset, e: bool) returns (test: int)
      modifies this
      ensures if e then test == NOINST && code == old(code)
              else test == |old(code)| && code == old(code) + Ins(TestInst(cs, 0))
      ensures Guards(code, test, if e then NoGuard else GuardOf(cs))
    {
      if e {
        test := NOINST;
      } else {
        test := AddOffsetInst(TestInst(cs, 0));
        if KindOf(cs) == Generic {
          AddCharset();
        }
      }
    }

    /** `codegen`. */
    method CodeGen(g: Rules, t: Tree, opt: bool, tt: int, fl: Charset, b: nat, ghost guard: Guard)
      returns (ghost c: Code)
      requires Compilable(g, t, b) && Guards(code, tt, guard)
      modifies this
      ensures code == old(code) + c && IsGen(g, t, opt, guard, fl, b, c)
      decreases t, 3
    {
      GenLeaf(g, t, opt, guard, fl, b);
      match t {
        case Char(ch) => c := CodeChar(ch, guard); EmitChar(ch, tt, guard);
        case Any => c := Ins(IAny); var i := AddInstruction(IAny);
        case Set(cs) => c := CodeCharset(cs, guard); EmitCharset(cs, tt, guard);
        case True => c := [];
        case False => c := Ins(IFail); var i := AddInstruction(IFail);
        case Call(k) => c := Ins(IOpenCall(k)); var i := AddOffsetInst(IOpenCall(k));
        case Choice(p1, p2) => c := EmitChoice(g, p1, p2, opt, fl, b, guard);
        case Rep(p) => c := EmitRep(g, p, opt, fl, b, guard);
        case Behind(n, p) => c := EmitBehind(g, n, p, opt, fl, b, guard);
        case Not(p) => c := EmitNot(g, p, opt, fl, b, guard);
        case And(p) => c := EmitAnd(g, p, opt, tt, fl, b, guard);
        case Capture(kind, key, p) => c := EmitCapture(g, kind, key, p, opt, tt, fl, b, guard);
        case Grammar(rs) => c := EmitGrammar(g, rs, opt, fl, b, guard);
        case Seq(p1, p2) => c := EmitSeq(g, p1, p2, opt, tt, fl, b, guard);
      }
    }

    /** `codeseq1`, and the second pattern. */
    method EmitSeq(g: Rules, p1: Tree, p2: Tree, opt: bool, tt: int, fl: Charset, b: nat, ghost guard: Guard)
      returns (ghost c: Code)
      requires Compilable(g, Seq(p1, p2), b) && Guards(code, tt, guard)
      modifies this
      ensures code == old(code) + c && IsGen(g, Seq(p1, p2), opt, guard, fl, b, c)
      decreases Seq(p1, p2), 1
    {
      ChildCompilable(g, Seq(p1, p2), p1, b);
      ChildCompilable(g, Seq(p1, p2), p2, b);
      var fl1 := Full();
      if NeedFollow(p1) {
        fl1 := GetFirst(g, p2, fl, b).0;
      }
      ghost var c1 := CodeGen(g, p1, false, tt, fl1, b, guard);
      var tt2 := tt;
      if FixedLen(g, p1, b) != 0 {
        tt2 := NOINST;
      }
      GuardStays(old(code), c1, tt, guard);
      Unguarded(code);
      ghost var c2 := CodeGen(g, p2, opt, tt2, fl, b, if FixedLen(g, p1, b) == 0 then guard else NoGuard);
      c := c1 + c2;
      assert old(code) + c1 + c2 == old(code) + c;
      GenSeq(g, p1, p2, opt, guard, fl, b, c1, c2);
    }

    /** `codechoice`. */
    method EmitChoice(g: Rules, p1: Tree, p2: Tree, opt: bool, fl: Charset, b: nat, ghost guard: Guard)
      returns (ghost c: Code)
      requires Compilable(g, Choice(p1, p2), b)
      modifies this
      ensures code == old(code) + c && IsGen(g, Choice(p1, p2), opt, guard, fl, b, c)
      decreases Choice(p1, p2), 1
    {
      ChildCompilable(g, Choice(p1, p2), p1, b);
      ChildCompilable(g, Choice(p1, p2), p2, b);
      var (cs1, e1) := GetFirst(g, p1, Full(), b);
      if HeadFail(g, p1, b) || (!e1 && cs1 !! GetFirst(g, p2, fl, b).0) {
        ghost var c1, c2 := EmitChoiceTest(g, p1, p2, opt, cs1, fl, b);
        GenChoiceTest(g, p1, p2, opt, guard, fl, b, cs1, c1, c2);
        c := ChoiceTestShape(cs1, c1, p2.True?, c2);
      } else if opt && p2.True? {
        var i := AddOffsetInst(IPartialCommit(0));
        NothingBehind(old(code) + Ins(IPartialCommit(0)));
        JumpToHere(i, old(code), IPartialCommit(0), []);
        NothingBehind(old(code) + Ins(IPartialCommit(2)));
        Unguarded(code);
        ghost var c1 := CodeGen(g, p1, true, NOINST, Full(), b, NoGuard);
        GenChoicePartial(g, p1, p2, opt, guard, fl, b, c1);
        c := ChoicePartialShape(c1);
        Assoc3(old(code), Ins(IPartialCommit(2)), c1);
      } else {
        ghost var c1, c2 := EmitChoiceBack(g, p1, p2, opt, cs1, e1, fl, b);
        GenChoiceBack(g, p1, p2, opt, guard, fl, b, cs1, e1, c1, c2);
        c := ChoiceBackShape(cs1, e1, c1, c2);
      }
    }

    /** `codechoice`, when the next character decides. */
    method EmitChoiceTest(g: Rules, p1: Tree, p2: Tree, opt: bool, cs: Charset, fl: Charset, b: nat)
      returns (ghost c1: Code, ghost c2: Code)
      requires Compilable(g, p1, b) && Compilable(g, p2, b)
      modifies this
      ensures code == old(code) + ChoiceTestShape(cs, c1, p2.True?, c2)
      ensures IsGen(g, p1, false, GuardOf(cs), fl, b, c1) && IsGen(g, p2, opt, NoGuard, fl, b, c2)
      decreases Choice(p1, p2), 0
    {
      ghost var pre := code;
      var jmp;
      c1, jmp := EmitFirstOption(g, p1, p2, cs, fl, b);
      Unguarded(code);
      c2 := CodeGen(g, p2, opt, NOINST, fl, b, NoGuard);
      ghost var j := if p2.True? then 0 else 2;
      ghost var front := pre + (TestOver(cs, false, |c1| + j) + c1);
      JumpToHere(jmp, front, IJmp(0), c2);
      ChoiceTestJoin(pre, cs, c1, p2.True?, c2);
    }

    /** The test, the first option, and the jump over the second, still open, if there is one. */
    method EmitFirstOption(g: Rules, p1: Tree, p2: Tree, cs: Charset, fl: Charset, b: nat)
      returns (ghost c1: Code, jmp: int)
      requires Compilable(g, p1, b)
      modifies this
      ensures var j := if p2.True? then 0 else 2;
        && code == old(code) + (TestOver(cs, false, |c1| + j) + c1) + (if p2.True? then [] else Ins(IJmp(0)))
        && jmp == if p2.True? then NOINST else |code| - 2
      ensures IsGen(g, p1, false, GuardOf(cs), fl, b, c1)
      decreases p1, 4
    {
      ghost var pre := code;
      var test := EmitTestSet(cs, false);
      c1 := CodeGen(g, p1, false, test, fl, b, GuardOf(cs));
      jmp := NOINST;
      ghost var j0: Code := [];
      if !p2.True? {
        jmp := AddOffsetInst(IJmp(0));
        j0 := Ins(IJmp(0));
      }
      Assoc4(pre, Ins(TestInst(cs, 0)), c1, j0);
      NothingBehind(pre + Ins(TestInst(cs, 0)) + c1);
      CloseTest(test, pre, cs, false, c1 + j0);
      Assoc4(pre, TestOver(cs, false, |c1| + |j0|), c1, j0);
      Assoc3(pre, TestOver(cs, false, |c1| + |j0|), c1);
    }

    /** `codechoice`, in general. */
    method EmitChoiceBack(g: Rules, p1: Tree, p2: Tree, opt: bool, cs: Charset, e: bool, fl: Charset, b: nat)
      returns (ghost c1: Code, ghost c2: Code)
      requires Compilable(g, p1, b) && Compilable(g, p2, b)
      modifies this
      ensures code == old(code) + ChoiceBackShape(cs, e, c1, c2)
      ensures IsGen(g, p1, p2.True?, if e then NoGuard else GuardOf(cs), Full(), b, c1)
              && IsGen(g, p2, opt, NoGuard, fl, b, c2)
      decreases Choice(p1, p2), 0
    {
      ghost var pre := code;
      var pcommit;
      c1, pcommit := EmitTestedOption(g, p1, p2, cs, e, b);
      ghost var front := pre + (TestOver(cs, e, |c1| + 4) + (Ins(IChoice(|c1| + 4)) + c1));
      Unguarded(code);
      c2 := CodeGen(g, p2, opt, NOINST, fl, b, NoGuard);
      JumpToHere(pcommit, front, ICommit(0), c2);
      ChoiceBackJoin(pre, cs, e, c1, c2);
    }

    /** The test and the first option, with its commit still open. */
    method EmitTestedOption(g: Rules, p1: Tree, p2: Tree, cs: Charset, e: bool, b: nat)
      returns (ghost c1: Code, pcommit: int)
      requires Compilable(g, p1, b)
      modifies this
      ensures code == old(code) + (TestOver(cs, e, |c1| + 4) + (Ins(IChoice(|c1| + 4)) + c1)) + Ins(ICommit(0))
      ensures pcommit == |code| - 2 && IsGen(g, p1, p2.True?, if e then NoGuard else GuardOf(cs), Full(), b, c1)
      decreases p1, 5
    {
      ghost var pre, guard := code, if e then NoGuard else GuardOf(cs);
      var test := EmitTestSet(cs, e);
      c1, pcommit := EmitOption(g, p1, p2, test, b, guard);
      CloseTest(test, pre, cs, e, Ins(IChoice(|c1| + 4)) + (c1 + Ins(ICommit(0))));
      OptionJoin(pre, TestOver(cs, e, |c1| + 4), Ins(IChoice(|c1| + 4)), c1, Ins(ICommit(0)));
    }

    /** The first option of `codechoice`, with its choice, and its commit still open. */
    method EmitOption(g: Rules, p1: Tree, p2: Tree, test: int, b: nat, ghost guard: Guard)
      returns (ghost c1: Code, pcommit: int)
      requires Compilable(g, p1, b) && Guards(code, test, guard)
      modifies this
      ensures code == old(code) + (Ins(IChoice(|c1| + 4)) + (c1 + Ins(ICommit(0)))) && pcommit == |code| - 2
      ensures IsGen(g, p1, p2.True?, guard, Full(), b, c1)
      decreases p1, 4
    {
      ghost var pre := code;
      var pchoice := AddOffsetInst(IChoice(0));
      GuardStays(pre, Ins(IChoice(0)), test, guard);
      c1 := CodeGen(g, p1, p2.True?, test, Full(), b, guard);
      pcommit := AddOffsetInst(ICommit(0));
      Assoc4(pre, Ins(IChoice(0)), c1, Ins(ICommit(0)));
      JumpToHere(pchoice, pre, IChoice(0), c1 + Ins(ICommit(0)));
      Assoc3(pre, Ins(IChoice(|c1| + 4)), c1 + Ins(ICommit(0)));
    }

    /** `jumptohere(test)`, behind the code that the test protects. */
    method CloseTest(test: int, ghost pre: Code, ghost cs: Charset, ghost e: bool, ghost rest: Code)
      requires test == if e then NOINST else |pre|
      requires code == pre + (if e then [] else Ins(TestInst(cs, 0))) + rest
      modifies this
      ensures code == pre + TestOver(cs, e, |rest|) + rest
    {
      JumpToHere(test, pre, TestInst(cs, 0), rest);
    }

    /** `coderep`. */
    method EmitRep(g: Rules, p: Tree, opt: bool, fl: Charset, b: nat, ghost guard: Guard) returns (ghost c: Code)
      requires Compilable(g, Rep(p), b)
      modifies this
      ensures code == old(code) + c && IsGen(g, Rep(p), opt, guard, fl, b, c)
      decreases Rep(p), 2
    {
      ChildCompilable(g, Rep(p), p, b);
      if ToCharset(p) != [] {
        GenLeaf(g, Rep(p), opt, guard, fl, b);
        c := Ins(ISpan(ToCharset(p)[0]));
        var i := AddInstruction(ISpan(ToCharset(p)[0]));
        AddCharset();
      } else {
        var (st, e1) := GetFirst(g, p, Full(), b);
        if HeadFail(g, p, b) || (!e1 && st !! fl) {
          ghost var c1 := EmitRepTest(g, p, st, b);
          c := RepTestShape(st, c1);
          GenRepTest(g, p, opt, guard, fl, b, st, c1);
        } else {
          ghost var c1 := EmitRepBack(g, p, opt, st, e1, b);
          c := RepBackShape(st, e1, opt, c1);
          GenRepBack(g, p, opt, guard, fl, b, st, e1, c1);
        }
      }
    }

    method EmitRepTest(g: Rules, p: Tree, cs: Charset, b: nat) returns (ghost c1: Code)
      requires Compilable(g, p, b)
      modifies this
      ensures code == old(code) + RepTestShape(cs, c1) && IsGen(g, p, false, GuardOf(cs), Full(), b, c1)
      decreases Rep(p), 1
    {
      ghost var pre := code;
      var test, jmp;
      c1, test, jmp := EmitTested(g, p, cs, b);
      ghost var front := pre + TestOver(cs, false, |c1| + 2) + c1;
      NothingBehind(front + Ins(IJmp(0)));
      JumpToThere(jmp, test, front, IJmp(0), []);
      RepTestJoin(pre, cs, c1);
    }

    /** The test, the pattern and the jump back, which is still open. */
    method EmitTested(g: Rules, p: Tree, cs: Charset, b: nat) returns (ghost c1: Code, test: int, jmp: int)
      requires Compilable(g, p, b)
      modifies this
      ensures code == old(code) + TestOver(cs, false, |c1| + 2) + c1 + Ins(IJmp(0))
      ensures test == |old(code)| && jmp == |code| - 2 && IsGen(g, p, false, GuardOf(cs), Full(), b, c1)
      decreases Rep(p), 0
    {
      ghost var pre := code;
      test := EmitTestSet(cs, false);
      c1 := CodeGen(g, p, false, test, Full(), b, GuardOf(cs));
      jmp := AddOffsetInst(IJmp(0));
      Assoc4(pre, Ins(TestInst(cs, 0)), c1, Ins(IJmp(0)));
      CloseTest(test, pre, cs, false, c1 + Ins(IJmp(0)));
      Assoc4(pre, TestOver(cs, false, |c1| + 2), c1, Ins(IJmp(0)));
    }

    method EmitRepBack(g: Rules, p: Tree, opt: bool, cs: Charset, e: bool, b: nat) returns (ghost c1: Code)
      requires Compilable(g, p, b)
      modifies this
      ensures code == old(code) + RepBackShape(cs, e, opt, c1) && IsGen(g, p, false, NoGuard, Full(), b, c1)
      decreases Rep(p), 1
    {
      ghost var pre := code;
      var test := EmitTestSet(cs, e);
      c1 := EmitRepLoop(g, p, opt, b);
      ghost var first, last := Ins(if opt then IPartialCommit(2) else IChoice(|c1| + 4)), Ins(IPartialCommit(-|c1|));
      CloseTest(test, pre, cs, e, first + (c1 + last));
      RepBackJoin(pre, cs, e, opt, c1);
    }

    /** The part of `coderep` behind the test. */
    method EmitRepLoop(g: Rules, p: Tree, opt: bool, b: nat) returns (ghost c1: Code)
      requires Compilable(g, p, b)
      modifies this
      ensures code == old(code) + (Ins(if opt then IPartialCommit(2) else IChoice(|c1| + 4))
                                   + (c1 + Ins(IPartialCommit(-|c1|))))
      ensures IsGen(g, p, false, NoGuard, Full(), b, c1)
      decreases p, 6
    {
      if opt {
        c1 := EmitRepPartial(g, p, b);
      } else {
        c1 := EmitRepChoice(g, p, b);
      }
    }

    method EmitRepPartial(g: Rules, p: Tree, b: nat) returns (ghost c1: Code)
      requires Compilable(g, p, b)
      modifies this
      ensures code == old(code) + (Ins(IPartialCommit(2)) + (c1 + Ins(IPartialCommit(-|c1|))))
      ensures IsGen(g, p, false, NoGuard, Full(), b, c1)
      decreases p, 5
    {
      ghost var pre := code;
      var i := AddOffsetInst(IPartialCommit(0));
      NothingBehind(pre + Ins(IPartialCommit(0)));
      JumpToHere(i, pre, IPartialCommit(0), []);
      NothingBehind(pre + Ins(IPartialCommit(2)));
      c1 := EmitRepBody(g, p, b);
      Assoc3(pre, Ins(IPartialCommit(2)), c1 + Ins(IPartialCommit(-|c1|)));
    }

    method EmitRepChoice(g: Rules, p: Tree, b: nat) returns (ghost c1: Code)
      requires Compilable(g, p, b)
      modifies this
      ensures code == old(code) + (Ins(IChoice(|c1| + 4)) + (c1 + Ins(IPartialCommit(-|c1|))))
      ensures IsGen(g, p, false, NoGuard, Full(), b, c1)
      decreases p, 5
    {
      ghost var pre := code;
      var pchoice := AddOffsetInst(IChoice(0));
      c1 := EmitRepBody(g, p, b);
      JumpToHere(pchoice, pre, IChoice(0), c1 + Ins(IPartialCommit(-|c1|)));
      Assoc3(pre, Ins(IChoice(|c1| + 4)), c1 + Ins(IPartialCommit(-|c1|)));
    }

    /** The pattern and the jump back to it. */
    method EmitRepBody(g: Rules, p: Tree, b: nat) returns (ghost c1: Code)
      requires Compilable(g, p, b)
      modifies this
      ensures code == old(code) + (c1 + Ins(IPartialCommit(-|c1|))) && IsGen(g, p, false, NoGuard, Full(), b, c1)
      decreases p, 4
    {
      ghost var pre := code;
      var l2 := |code|;
      Unguarded(code);
      c1 := CodeGen(g, p, false, NOINST, Full(), b, NoGuard);
      var commit := AddOffsetInst(IPartialCommit(0));
      NothingBehind(pre + c1 + Ins(IPartialCommit(0)));
      JumpToThere(commit, l2, pre + c1, IPartialCommit(0), []);
      NothingBehind(pre + c1 + Ins(IPartialCommit(-|c1|)));
      Assoc3(pre, c1, Ins(IPartialCommit(-|c1|)));
    }

    /** `codebehind`. */
    method EmitBehind(g: Rules, n: nat, p: Tree, ghost opt: bool, ghost fl: Charset, b: nat, ghost guard: Guard)
      returns (ghost c: Code)
      requires Compilable(g, Behind(n, p), b)
      modifies this
      ensures code == old(code) + c && IsGen(g, Behind(n, p), opt, guard, fl, b, c)
      decreases Behind(n, p), 1
    {
      ChildCompilable(g, Behind(n, p), p, b);
      if n > 0 {
        var i := AddInstruction(IBehind(n));
      }
      assert code == old(code) + GoBack(n);
      Unguarded(code);
      ghost var c1 := CodeGen(g, p, false, NOINST, Full(), b, NoGuard);
      c := GoBack(n) + c1;
      assert old(code) + GoBack(n) + c1 == old(code) + c;
      GenBehind(g, n, p, opt, guard, fl, b, c1);
    }

    /** `codenot`. */
    method EmitNot(g: Rules, p: Tree, ghost opt: bool, ghost fl: Charset, b: nat, ghost guard: Guard)
      returns (ghost c: Code)
      requires Compilable(g, Not(p), b)
      modifies this
      ensures code == old(code) + c && IsGen(g, Not(p), opt, guard, fl, b, c)
      decreases Not(p), 2
    {
      var (cs, e) := GetFirst(g, p, Full(), b);
      if HeadFail(g, p, b) {
        EmitNotTest(cs, e);
        c := NotTestShape(cs, e);
        GenNotTest(g, p, opt, guard, fl, b, cs, e);
      } else {
        ChildCompilable(g, Not(p), p, b);
        ghost var c1 := EmitNotBack(g, p, cs, e, b);
        c := NotBackShape(cs, e, c1);
        GenNotBack(g, p, opt, guard, fl, b, cs, e, c1);
      }
    }

    method EmitNotTest(cs: Charset, e: bool)
      modifies this
      ensures code == old(code) + NotTestShape(cs, e)
    {
      ghost var pre := code;
      var test := EmitTestSet(cs, e);
      var i := AddInstruction(IFail);
      CloseTest(test, pre, cs, e, Ins(IFail));
      Assoc3(pre, TestOver(cs, e, 1), Ins(IFail));
    }

    method EmitNotBack(g: Rules, p: Tree, cs: Charset, e: bool, b: nat) returns (ghost c1: Code)
      requires Compilable(g, p, b)
      modifies this
      ensures code == old(code) + NotBackShape(cs, e, c1) && IsGen(g, p, false, NoGuard, Full(), b, c1)
      decreases Not(p), 1
    {
      ghost var pre := code;
      var test := EmitTestSet(cs, e);
      c1 := EmitNotBody(g, p, b);
      CloseTest(test, pre, cs, e, Ins(IChoice(|c1| + 3)) + (c1 + Ins(IFailTwice)));
      NotJoin(pre, cs, e, c1);
    }

    /** The part of `codenot` behind the test. */
    method EmitNotBody(g: Rules, p: Tree, b: nat) returns (ghost c1: Code)
      requires Compilable(g, p, b)
      modifies this
      ensures code == old(code) + (Ins(IChoice(|c1| + 3)) + (c1 + Ins(IFailTwice)))
              && IsGen(g, p, false, NoGuard, Full(), b, c1)
      decreases Not(p), 0
    {
      ghost var pre := code;
      var pchoice := AddOffsetInst(IChoice(0));
      Unguarded(code);
      c1 := CodeGen(g, p, false, NOINST, Full(), b, NoGuard);
      var i := AddInstruction(IFailTwice);
      Assoc4(pre, Ins(IChoice(0)), c1, Ins(IFailTwice));
      JumpToHere(pchoice, pre, IChoice(0), c1 + Ins(IFailTwice));
      Assoc3(pre, Ins(IChoice(|c1| + 3)), c1 + Ins(IFailTwice));
    }

    /** `codeand`. */
    method EmitAnd(g: Rules, p: Tree, ghost opt: bool, tt: int, ghost fl: Charset, b: nat, ghost guard: Guard)
      returns (ghost c: Code)
      requires Compilable(g, And(p), b) && Guards(code, tt, guard)
      modifies this
      ensures code == old(code) + c && IsGen(g, And(p), opt, guard, fl, b, c)
      decreases And(p), 1
    {
      ghost var pre := code;
      ChildCompilable(g, And(p), p, b);
      var n := FixedLen(g, p, b);
      if 0 <= n <= MAXBEHIND && !HasCaptures(g, p, {}, b) {
        ghost var c1 := CodeGen(g, p, false, tt, Full(), b, guard);
        if n > 0 {
          var i := AddInstruction(IBehind(n));
        }
        c := c1 + GoBack(n);
        GenAndBehind(g, p, opt, guard, fl, b, n, c1);
      } else {
        ghost var c1 := EmitAndBack(g, p, tt, b, guard);
        c := AndBackShape(c1);
        GenAndBack(g, p, opt, guard, fl, b, c1);
      }
    }

    method EmitAndBack(g: Rules, p: Tree, tt: int, b: nat, ghost guard: Guard) returns (ghost c1: Code)
      requires Compilable(g, p, b) && Guards(code, tt, guard)
      modifies this
      ensures code == old(code) + AndBackShape(c1) && IsGen(g, p, false, guard, Full(), b, c1)
      decreases And(p), 0
    {
      ghost var pre := code;
      var pchoice := AddOffsetInst(IChoice(0));
      GuardStays(pre, Ins(IChoice(0)), tt, guard);
      c1 := CodeGen(g, p, false, tt, Full(), b, guard);
      var pcommit := AddOffsetInst(IBackCommit(0));
      Assoc4(pre, Ins(IChoice(0)), c1, Ins(IBackCommit(0)));
      JumpToHere(pchoice, pre, IChoice(0), c1 + Ins(IBackCommit(0)));
      Assoc4(pre, Ins(IChoice(|c1| + 4)), c1, Ins(IBackCommit(0)));
      EmitAndFail(pcommit, pre, c1);
    }

    /** The end of `codeand`, in general. */
    method EmitAndFail(pcommit: int, ghost pre: Code, ghost c1: Code)
      requires code == pre + Ins(IChoice(|c1| + 4)) + c1 + Ins(IBackCommit(0)) && pcommit == |code| - 2
      modifies this
      ensures code == pre + AndBackShape(c1)
    {
      ghost var front := pre + Ins(IChoice(|c1| + 4)) + c1;
      var i := AddInstruction(IFail);
      JumpToHere(pcommit, front, IBackCommit(0), Ins(IFail));
      Assoc5(pre, Ins(IChoice(|c1| + 4)), c1, Ins(IBackCommit(3)), Ins(IFail));
    }

    /** `codecapture`. */
    method EmitCapture(g: Rules, kind: nat, key: nat, p: Tree, ghost opt: bool, tt: int, fl: Charset, b: nat,
                       ghost guard: Guard) returns (ghost c: Code)
      requires Compilable(g, Capture(kind, key, p), b) && Guards(code, tt, guard)
      modifies this
      ensures code == old(code) + c && IsGen(g, Capture(kind, key, p), opt, guard, fl, b, c)
      decreases Capture(kind, key, p), 1
    {
      ghost var pre := code;
      ChildCompilable(g, Capture(kind, key, p), p, b);
      var len := FixedLen(g, p, b);
      if 0 <= len <= MAXOFF && !HasCaptures(g, p, {}, b) {
        ghost var c1 := CodeGen(g, p, false, tt, fl, b, guard);
        var i := AddInstruction(IFullCapture(kind, key, len));
        c := c1 + Ins(IFullCapture(kind, key, len));
        GenCaptureFull(g, kind, key, p, opt, guard, fl, b, len, c1);
      } else {
        var i := AddInstruction(IOpenCapture(kind, key));
        GuardStays(pre, [IOpenCapture(kind, key)], tt, guard);
        ghost var c1 := CodeGen(g, p, false, tt, fl, b, guard);
        var j := AddInstruction(ICloseCapture);
        c := CaptureOpenShape(kind, key, c1);
        assert code == pre + c;
        GenCaptureOpen(g, kind, key, p, opt, guard, fl, b, c1);
      }
    }

    /** The rules of `codegrammar`, one behind the other. */
    method EmitRules(g: Rules, rs: Rules, b: nat) returns (positions: seq<nat>, ghost codes: seq<Code>)
      requires Compilable(g, Grammar(rs), b)
      modifies this
      ensures |codes| == |rs| && AreRules(rs, b, codes)
      ensures code == old(code) + Flatten(codes) && positions == Shifted(Positions(codes, 0), |old(code)|)
      decreases Grammar(rs), 0
    {
      positions := [];
      codes := [];
      var k := 0;
      while k < |rs|
        invariant 0 <= k <= |rs| && |codes| == k && code == old(code) + Flatten(codes)
        invariant AreRules(rs, b, codes)
        invariant positions == Shifted(Positions(codes, 0), |old(code)|)
      {
        RuleCompilable(g, rs, k, b);
        positions := positions + [|code|];
        Unguarded(code);
        ghost var c := CodeGen(rs, rs[k], false, NOINST, Full(), b, NoGuard);
        var ret := AddInstruction(IRet);
        ghost var rule := c + Ins(IRet);
        GenRule(rs, b, codes, c);
        OneMoreRule(codes, rule, |old(code)|);
        Assoc4(old(code), Flatten(codes), c, Ins(IRet));
        codes := codes + [rule];
        k := k + 1;
      }
    }

    /** `codegrammar`. */
    method EmitGrammar(g: Rules, rs: Rules, ghost opt: bool, ghost fl: Charset, b: nat, ghost guard: Guard)
      returns (ghost c: Code)
      requires Compilable(g, Grammar(rs), b)
      modifies this
      ensures code == old(code) + c && IsGen(g, Grammar(rs), opt, guard, fl, b, c)
      decreases Grammar(rs), 2
    {
      ghost var pre := code;
      var start := |code| + 4;
      var positions;
      ghost var codes;
      positions, codes := EmitRulebook(g, rs, b);
      ghost var body, rel, f := BookParts(g, rs, opt, guard, fl, b, codes);
      c := Rulebook(codes);
      FixCalls(positions, start, pre + Ins(ICall(4)) + Ins(IJmp(2 + |body|)), body, rel, f);
      Assoc4(pre, Ins(ICall(4)), Ins(IJmp(2 + |body|)), f);
    }

    /** `codegrammar` up to the correction of the calls. */
    method EmitRulebook(g: Rules, rs: Rules, b: nat) returns (positions: seq<nat>, ghost codes: seq<Code>)
      requires Compilable(g, Grammar(rs), b)
      modifies this
      ensures |codes| == |rs| && AreRules(rs, b, codes)
      ensures code == old(code) + Ins(ICall(4)) + Ins(IJmp(2 + |Flatten(codes)|)) + Flatten(codes)
      ensures positions == Shifted(Positions(codes, 0), |old(code)| + 4)
      decreases Grammar(rs), 1
    {
      ghost var pre := code;
      var firstcall := AddOffsetInst(ICall(0));
      var jumptoend := AddOffsetInst(IJmp(0));
      JumpToHere(firstcall, pre, ICall(0), Ins(IJmp(0)));
      positions, codes := EmitRules(g, rs, b);
      JumpToHere(jumptoend, pre + Ins(ICall(4)), IJmp(0), Flatten(codes));
    }

    /** `correctcalls`, from `from` to the end. Jumps do not leave the rules, so that their chains are
      followed in this part of the code. */
    method FixCalls(positions: seq<nat>, from: nat, ghost front: Code, ghost body: Code, ghost rel: seq<nat>,
                    ghost f: Code)
      requires code == front + body && from == |front| && positions == Shifted(rel, from) && Correctable(body, rel, f)
      modifies this
      ensures code == front + f
    {
      AllToDo(body, rel, f);
      UntouchedStart(body);
      ghost var part := body;
      var i := from;
      ghost var r: nat := 0;
      while i < |code|
        invariant i == from + r <= |code| && code == front + part && Todo(part, rel, r, f) && Untouched(part, body, r)
        decreases |code| - i
      {
        i, part, r := FixNext(positions, i, from, front, part, r, f, rel, body);
      }
      NothingToDo(part, rel, f);
    }

    /** One round of the loop. */
    method FixNext(positions: seq<nat>, i: nat, from: nat, ghost front: Code, ghost part: Code, ghost r: nat,
                   ghost f: Code, ghost rel: seq<nat>, ghost body: Code)
      returns (i1: nat, ghost part1: Code, ghost r1: nat)
      requires code == front + part && from == |front| && i == from + r < |code| && positions == Shifted(rel, from)
      requires Todo(part, rel, r, f) && Untouched(part, body, r) && Correctable(body, rel, f)
      modifies this
      ensures |code| == |old(code)| && i < i1 == from + r1 <= |code| && code == front + part1
      ensures Todo(part1, rel, r1, f) && Untouched(part1, body, r1)
    {
      assert code[i] == part[r];
      UntouchedAt(part, body, r);
      if code[i].IOpenCall? && code[i].rule < |positions| {
        CallFollowed(body, rel, f, r);
        part1 := FixCall(positions, i, from, front, part, r, f, rel, body);
        r1 := r + 2;
        i1 := i + 2;
      } else {
        Advance(part, rel, r, f);
        part1, r1 := part, r + SizeI(part[r]);
        UntouchedNext(part, body, r, r1);
        i1 := i + SizeI(code[i]);
      }
    }

    /** One call of `correctcalls`. */
    method FixCall(positions: seq<nat>, i: nat, from: nat, ghost front: Code, ghost part: Code, ghost r: nat,
                   ghost f: Code, ghost rel: seq<nat>, ghost body: Code) returns (ghost part1: Code)
      requires code == front + part && from == |front| && i == from + r < |code| && positions == Shifted(rel, from)
      requires code[i].IOpenCall? && code[i].rule < |positions|
      requires Todo(part, rel, r, f) && Settles(f, r + 2) && Untouched(part, body, r)
      modifies this
      ensures code == front + part1 && |code| == |old(code)| && i + 2 <= |code| && Todo(part1, rel, r + 2, f)
      ensures Untouched(part1, body, r + 2)
    {
      TwoParts(front, part);
      ChainEnds(part, rel, r, f);
      var x := CorrectedCall(code[from..], i - from, positions[code[i].rule] - i);
      UpdateBehind(front, part, r, x);
      code := code[i := x];
      part1 := AdvanceCall(part, rel, r, f, x);
      UntouchedCall(part, body, r, x);
    }

    /** One round of `peephole`. */
    method OptimizeAt(i: nat)
      requires i < |code| && AllSettle(code)
      modifies this
      ensures code == PeepAt(old(code), i)
    {
      if HasLabel(code[i]) {
        assert Settles(code, i + code[i].offset);
        var target := FindFinalTarget(code, i + code[i].offset);
        SetOffset(i, target - i);
      } else if code[i].IJmp? {
        assert Settles(code, i);
        var ft := FindFinalTarget(code, i);
        if 0 <= ft < |code| && Leaves(code[ft]) {
          code := code[i := code[ft]];
          if i + 1 < |code| {
            code := code[i + 1 := IAny];
          }
        } else if 0 <= ft < |code| && Commits(code[ft]) {
          CopyCommit(i, ft);
        } else {
          SetOffset(i, ft - i);
        }
      }
    }

    /** A jump to a commit becomes that commit, which is then looked at again. */
    method CopyCommit(i: nat, ft: nat)
      requires i < |code| && AllSettle(code) && code[i].IJmp? && ft < |code| && Commits(code[ft])
               && ft == Final(code, i)
      modifies this
      ensures code == PeepAt(old(code), i)
    {
      assert Settles(code, ft + code[ft].offset);
      var fft := FindFinalTarget(code, ft + code[ft].offset);
      ghost var before := code;
      code := code[i := code[ft]];
      SetOffset(i, fft - i);
      ShorterSettles(before, code);
      assert Settles(code, i + code[i].offset);
      var target := FindFinalTarget(code, i + code[i].offset);
      SetOffset(i, target - i);
    }

    /** `peephole`. */
    method Optimize()
      requires Roomy(code) && AllSettle(code)
      modifies this
      ensures code == Peephole(old(code))
    {
      var i := 0;
      while i < |code|
        invariant 0 <= i <= |code| && Roomy(code) && AllSettle(code)
        invariant PeepFrom(code, i) == Peephole(old(code))
        decreases |code| - i
      {
        PeepAtSettles(code, i);
        PeepAtRoomy(code, i);
        OptimizeAt(i);
        i := if i + SizeI(code[i]) <= |code| then i + SizeI(code[i]) else |code|;
      }
    }

    /** `compile` up to `peephole`. */
    method EmitPattern(t: Tree, b: nat)
      requires code == [] && Compilable([], t, b)
      modifies this
      ensures code == Emit(t, b)
    {
      Unguarded(code);
      ghost var c := CodeGen([], t, false, NOINST, Full(), b, NoGuard);
      var end := AddInstruction(IEnd);
      EmitIs(t, b, c);
    }

    /** `compile`: when the analyses end and no chain of jumps is endless it ends, with the code that
      matches the pattern, whatever the bound. Only then, see `PegPasses.CompilerDecided`. */
    method CompilePattern(t: Tree, b: nat)
      requires code == [] && WellFormed([], t, b) && Limit(t) <= b
      requires AnalysesEnd([], t, b) && AllReach(Emit(t, b))
      modifies this
      ensures code == Compile(t, b) && CompileEnds(t, b)
      ensures forall x :: x >= b ==> code == Compile(t, x)
    {
      CompilerEnds(t, b);
      AllDecided(Emit(t, b));
      forall x | x >= b ensures Emit(t, b) == Emit(t, x) { EmitSame(t, b, x); }
      EmitCompilable(t, b);
      EmitPattern(t, b);
      EmitRoomy(t, b);
      Optimize();
    }
  }
}
