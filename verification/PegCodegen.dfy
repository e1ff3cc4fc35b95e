/** The code `lpcode.c` generates for a pattern, as a function.

  All offsets are relative, so the code of a pattern does not depend on where it is placed. `tt`
  is what the dominating test, if there is one, says about the next character. */
module PegCodegen {
  import opened PegTree
  import opened PegAnalysis
  import opened PegVm

  const MAXBEHIND := 255

  const MAXOFF := 15

  /** `charsettype`. */
  datatype SetKind = EmptySet | SingleChar(c: Byte) | FullSet | Generic

  function KindOf(cs: Charset): (k: SetKind)
    ensures k == EmptySet <==> cs == {}
    ensures k.SingleChar? ==> cs == {k.c}
    ensures k.FullSet? <==> cs == Full()
  {
    assert 0 in Full() && 1 in Full();
    if cs == {} then EmptySet
    else if exists c :: c in cs && cs == {c} then var c :| c in cs && cs == {c}; SingleChar(c)
    else if cs == Full() then FullSet
    else Generic
  }

  /** What the instruction at `tt` tests, as far as code generation can use it. */
  datatype Guard = NoGuard | CharGuard(c: Byte) | SetGuard(cs: Charset)

  function GuardOf(cs: Charset): Guard
  {
    match KindOf(cs)
    case SingleChar(c) => CharGuard(c)
    case Generic => SetGuard(cs)
    case _ => NoGuard
  }

  /** An instruction with the elements it needs. */
  function Ins(x: Slot): (code: Code)
    ensures |code| == SizeI(x) && code[0] == x
    ensures forall k :: 1 <= k < |code| ==> code[k] == Pad
  {
    [x] + seq(SizeI(x) - 1, _ => Pad)
  }

  function CodeChar(c: Byte, tt: Guard): Code
  {
    if tt == CharGuard(c) then Ins(IAny) else Ins(IChar(c))
  }

  function CodeCharset(cs: Charset, tt: Guard): Code
  {
    match KindOf(cs)
    case SingleChar(c) => CodeChar(c, tt)
    case Generic => if tt == SetGuard(cs) then Ins(IAny) else Ins(ISet(cs))
    case EmptySet => Ins(IFail)
    case FullSet => Ins(IAny)
  }

  /** The test instruction for a first set, jumping by `offset` when the test fails. */
  function TestInst(cs: Charset, offset: int): Slot
  {
    match KindOf(cs)
    case EmptySet => IJmp(offset)
    case FullSet => ITestAny(offset)
    case SingleChar(c) => ITestChar(c, offset)
    case Generic => ITestSet(cs, offset)
  }

  /** `codetestset`: no test at all when the pattern accepts the empty subject. */
  function TestSize(cs: Charset, e: bool): (n: nat)
  {
    if e then 0 else SizeI(TestInst(cs, 0))
  }

  /** A test over the following `rest` elements of code. */
  function TestOver(cs: Charset, e: bool, rest: int): (code: Code)
    ensures |code| == TestSize(cs, e)
  {
    if e then [] else Ins(TestInst(cs, TestSize(cs, e) + rest))
  }

  /** Where the jumps starting at `i` lead, following at most `fuel` of them. */
  function FinalTarget(code: Code, i: int, fuel: nat): (t: int)
    decreases fuel
  {
    if fuel > 0 && 0 <= i < |code| && code[i].IJmp? then FinalTarget(code, i + code[i].offset, fuel - 1) else i
  }

  /** `finaltarget`; a chain of distinct jumps has at most as many jumps as the code has elements. */
  function Final(code: Code, i: int): int { FinalTarget(code, i, |code|) }

  predicate At(code: Code, i: int, x: Slot) { 0 <= i < |code| && code[i] == x }

  /** `correctcalls` on element `i`: an open call becomes a call, or a jump if it is a tail call. */
  function CorrectCall(code: Code, positions: seq<nat>, i: nat): (r: Code)
    requires i < |code|
    ensures |r| == |code|
  {
    if code[i].IOpenCall? && code[i].rule < |positions| then
      var offset := positions[code[i].rule] - i;
      code[i := if At(code, Final(code, i + 2), IRet) then IJmp(offset) else ICall(offset)]
    else code
  }

  function CorrectCalls(code: Code, positions: seq<nat>, i: nat): (r: Code)
    requires i <= |code|
    ensures |r| == |code|
    decreases |code| - i
  {
    if i == |code| then code else CorrectCalls(CorrectCall(code, positions, i), positions, i + 1)
  }

  /** The positions of the rules, given their code. */
  function Positions(codes: seq<Code>, start: nat): (ps: seq<nat>)
    ensures |ps| == |codes|
  {
    if codes == [] then [] else [start] + Positions(codes[1..], start + |codes[0]|)
  }

  function Flatten(codes: seq<Code>): Code
  {
    if codes == [] then [] else codes[0] + Flatten(codes[1..])
  }

  /** `codegrammar`: call the first rule, jump behind the rules; then the rules. */
  function Rulebook(codes: seq<Code>): (code: Code)
  {
    var body := CorrectCalls(Flatten(codes), Positions(codes, 0), 0);
    Ins(ICall(4)) + Ins(IJmp(2 + |body|)) + body
  }

  // ---- Code shapes -----------------------------------------------------------------------

  /** `codechoice`, no backtracking needed: test -> L1; p1; jmp L2; L1: p2; L2. */
  function ChoiceTestShape(cs: Charset, c1: Code, emptyp2: bool, c2: Code): Code
  {
    var jmp := if emptyp2 then [] else Ins(IJmp(2 + |c2|));
    TestOver(cs, false, |c1| + |jmp|) + c1 + jmp + c2
  }

  /** `codechoice`, an option at the end of an option: partial commit; p1. */
  function ChoicePartialShape(c1: Code): Code
  {
    Ins(IPartialCommit(2)) + c1
  }

  /** `codechoice`, in general: test -> L1; choice L1; p1; commit L2; L1: p2; L2. */
  function ChoiceBackShape(cs: Charset, e: bool, c1: Code, c2: Code): Code
  {
    TestOver(cs, e, |c1| + 4) + Ins(IChoice(|c1| + 4)) + c1 + Ins(ICommit(2 + |c2|)) + c2
  }

  /** `coderep`, no backtracking needed: L1: test -> L2; p; jmp L1; L2. */
  function RepTestShape(cs: Charset, c: Code): Code
  {
    TestOver(cs, false, |c| + 2) + c + Ins(IJmp(-(TestSize(cs, false) + |c|)))
  }

  /** `coderep`, in general: test -> L2; choice L2 (or partial commit); L1: p; partial commit L1; L2. */
  function RepBackShape(cs: Charset, e: bool, opt: bool, c: Code): Code
  {
    TestOver(cs, e, |c| + 4) + Ins(if opt then IPartialCommit(2) else IChoice(|c| + 4)) + c + Ins(IPartialCommit(-|c|))
  }

  /** `codenot`, head-fail pattern: test -> L1; fail; L1. */
  function NotTestShape(cs: Charset, e: bool): Code
  {
    TestOver(cs, e, 1) + Ins(IFail)
  }

  /** `codenot`, in general: test -> L1; choice L1; p; fail twice; L1. */
  function NotBackShape(cs: Charset, e: bool, c: Code): Code
  {
    TestOver(cs, e, |c| + 3) + Ins(IChoice(|c| + 3)) + c + Ins(IFailTwice)
  }

  function GoBack(n: nat): Code
  {
    if n > 0 then Ins(IBehind(n)) else []
  }

  /** `codeand`, in general: choice L1; p; back commit L2; L1: fail; L2. */
  function AndBackShape(c: Code): Code
  {
    Ins(IChoice(|c| + 4)) + c + Ins(IBackCommit(3)) + Ins(IFail)
  }

  function CaptureOpenShape(kind: nat, key: nat, c: Code): Code
  {
    Ins(IOpenCapture(kind, key)) + c + Ins(ICloseCapture)
  }

  /** The choice needs no backtracking: the next character decides. */
  predicate ChoiceByTest(g: Rules, p1: Tree, p2: Tree, fl: Charset, b: nat)
  {
    var (cs1, e1) := GetFirst(g, p1, Full(), b);
    HeadFail(g, p1, b) || (!e1 && cs1 !! GetFirst(g, p2, fl, b).0)
  }

  /** The repetition needs no backtracking. */
  predicate RepByTest(g: Rules, p: Tree, fl: Charset, b: nat)
  {
    var (st, e1) := GetFirst(g, p, Full(), b);
    HeadFail(g, p, b) || (!e1 && st !! fl)
  }

  /** `codegen`. `opt`: the code is the last thing in an optional pattern whose entry is on top of
    the stack; `fl`: the follow set. */
  function Gen(g: Rules, t: Tree, opt: bool, tt: Guard, fl: Charset, b: nat): (code: Code)
    decreases t
  {
    match t
    case Char(c) => CodeChar(c, tt)
    case Any => Ins(IAny)
    case Set(cs) => CodeCharset(cs, tt)
    case True => []
    case False => Ins(IFail)
    case Choice(p1, p2) =>
      var (cs, e) := GetFirst(g, p1, Full(), b);
      if ChoiceByTest(g, p1, p2, fl, b) then
        ChoiceTestShape(cs, Gen(g, p1, false, GuardOf(cs), fl, b), p2.True?, Gen(g, p2, opt, NoGuard, fl, b))
      else if opt && p2.True? then
        ChoicePartialShape(Gen(g, p1, true, NoGuard, Full(), b))
      else
        ChoiceBackShape(cs, e, Gen(g, p1, p2.True?, if e then NoGuard else GuardOf(cs), Full(), b),
                        Gen(g, p2, opt, NoGuard, fl, b))
    case Rep(p) =>
      var (cs, e) := GetFirst(g, p, Full(), b);
      if ToCharset(p) != [] then Ins(ISpan(ToCharset(p)[0]))
      else if RepByTest(g, p, fl, b) then RepTestShape(cs, Gen(g, p, false, GuardOf(cs), Full(), b))
      else RepBackShape(cs, e, opt, Gen(g, p, false, NoGuard, Full(), b))
    case Behind(n, p) => GoBack(n) + Gen(g, p, false, NoGuard, Full(), b)
    case Not(p) =>
      var (cs, e) := GetFirst(g, p, Full(), b);
      if HeadFail(g, p, b) then NotTestShape(cs, e) else NotBackShape(cs, e, Gen(g, p, false, NoGuard, Full(), b))
    case And(p) =>
      var n := FixedLen(g, p, b);
      var c := Gen(g, p, false, tt, Full(), b);
      if 0 <= n <= MAXBEHIND && !HasCaptures(g, p, {}, b) then c + GoBack(n) else AndBackShape(c)
    case Capture(kind, key, p) =>
      var n := FixedLen(g, p, b);
      var c := Gen(g, p, false, tt, fl, b);
      if 0 <= n <= MAXOFF && !HasCaptures(g, p, {}, b) then c + Ins(IFullCapture(kind, key, n))
      else CaptureOpenShape(kind, key, c)
    case Grammar(rs) =>
      Rulebook(seq(|rs|, k requires 0 <= k < |rs| => Gen(rs, rs[k], false, NoGuard, Full(), b) + Ins(IRet)))
    case Call(k) => Ins(IOpenCall(k))
    case Seq(p1, p2) =>
      var fl1 := if NeedFollow(p1) then GetFirst(g, p2, fl, b).0 else Full();
      var tt2 := if FixedLen(g, p1, b) == 0 then tt else NoGuard;
      Gen(g, p1, false, tt, fl1, b) + Gen(g, p2, opt, tt2, fl, b)
  }

  /** `compile` before `peephole`. */
  function Emit(t: Tree, b: nat): Code
  {
    Gen([], t, false, NoGuard, Full(), b) + Ins(IEnd)
  }
}
