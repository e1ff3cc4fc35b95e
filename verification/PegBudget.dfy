/** For accepted patterns the analyses end.

  The analyses of `lpcode.c` follow calls without a bound: `checkaux`, `getfirst` and `headfail` rely
  on `verifygrammar`. Here it is shown that for an accepted pattern they end, and so do those that the
  checks themselves start: `Budget` calls on a path are enough for all of them. Every larger bound
  gives the same analyses, the same verdicts and the same code. */
module PegBudget {
  import opened Basics
  import opened PegTree
  import opened PegAnalysis
  import opened PegCodegen
  import opened PegVerify
  import opened PegEnding
  import opened PegCorrect
  import opened PegPeephole

  // ---- The way `verifyrule` went -------------------------------------------------------------

  /** `verifyrule` went through `t` with `left` rules left to enter, or `t` may start afresh. */
  ghost predicate InPath(g: Rules, used: set<nat>, t: Tree, left: nat, d: nat, b: nat)
  {
    && RulesChecked(g, used, d, b) && CallsOf(t) <= used && Verified(t, b) && Safe(t, b) && Depth(t) <= d
    && Passed(g, t, left, b)
  }

  lemma PathChild(g: Rules, used: set<nat>, t: Tree, p: Tree, left: nat, d: nat, b: nat)
    requires InPath(g, used, t, left, d, b) && Child(t, p)
    requires left == MAXRULES + 1 || (!t.Behind? && (t.Seq? ==> p == t.p1))
    ensures InPath(g, used, p, left, d, b) && p < t
  {
    if left <= MAXRULES { ChildPassed(g, t, p, left, b); }
  }

  lemma PathCall(g: Rules, used: set<nat>, k: nat, left: nat, d: nat, b: nat)
    requires InPath(g, used, Call(k), left, d, b)
    ensures k < |g| && left > 0 && InPath(g, used, g[k], left - 1, d, b)
  {
    assert RuleChecked(g, used, d, b, k);
  }

  lemma PathRule(g: Rules, used: set<nat>, rs: Rules, k: nat, left: nat, d: nat, b: nat)
    requires InPath(g, used, Grammar(rs), left, d, b) && k < |rs|
    ensures d > 0 && InPath(rs, UsedRules(rs), rs[k], MAXRULES + 1, d - 1, b)
  {
    var inner := UsedRules(rs);
    forall j | j in inner ensures RuleChecked(rs, inner, d - 1, b, j) {
    }
  }

  lemma PathFirst(g: Rules, used: set<nat>, rs: Rules, left: nat, d: nat, b: nat)
    requires InPath(g, used, Grammar(rs), left, d, b)
    ensures d > 0 && rs != [] && InPath(rs, UsedRules(rs), rs[0], MAXRULES, d - 1, b)
  {
    assert 0 in UsedRules(rs);
    PathRule(g, used, rs, 0, left, d, b);
    assert RuleChecked(rs, UsedRules(rs), d - 1, b, 0);
  }

  lemma PathSecond(g: Rules, used: set<nat>, p1: Tree, p2: Tree, left: nat, d: nat, b: nat)
    requires InPath(g, used, Seq(p1, p2), left, d, b)
    requires left <= MAXRULES ==> VerifyKept(g, p1, left, false, b) == Passes(true)
    ensures InPath(g, used, p2, left, d, b)
  {
  }

  /** Enough calls may be followed from a place with `left` rules left to enter, with grammars nested
    `d` deep inside. */
  predicate Enough(left: nat, d: nat, x: nat) { x >= left + 252 * d }

  // ---- Nullable, nofail ------------------------------------------------------------------------

  /** What `nullable` accepts has the verdict true. */
  lemma {:induction false} VerdictNullable(g: Rules, used: set<nat>, t: Tree, left: nat, nb: bool, d: nat, b: nat,
                                           x: nat)
    requires InPath(g, used, t, left, d, b) && left <= MAXRULES && Enough(left, d, x) && Enough(MAXRULES, d, b)
    requires VerifyKept(g, t, left, nb, b).Passes? && Nullable(g, t, x)
    ensures VerifyKept(g, t, left, nb, b) == Passes(true)
    decreases d, left, t, 0
  {
    match t
    case Not(p) => KeptNb(g, p, left, b);
    case And(p) => KeptNb(g, p, left, b);
    case Rep(p) => KeptNb(g, p, left, b);
    case Capture(_, _, p) =>
      PathChild(g, used, t, p, left, d, b);
      VerdictNullable(g, used, p, left, nb, d, b, x);
    case Call(k) =>
      PathCall(g, used, k, left, d, b);
      VerdictNullable(g, used, g[k], left - 1, nb, d, b, x - 1);
    case Seq(p1, p2) =>
      PathChild(g, used, t, p1, left, d, b);
      VerdictNullable(g, used, p1, left, false, d, b, x);
      PathSecond(g, used, p1, p2, left, d, b);
      VerdictNullable(g, used, p2, left, nb, d, b, x);
    case Choice(p1, p2) => VerdictChoice(g, used, p1, p2, left, nb, d, b, x);
    case Grammar(rs) =>
      PathFirst(g, used, rs, left, d, b);
      AuxEnds(rs, UsedRules(rs), rs[0], false, MAXRULES, d - 1, b, x);
      AuxEnds(rs, UsedRules(rs), rs[0], false, MAXRULES, d - 1, b, b);
      AuxAgree(rs, rs[0], false, b, x);
    case _ =>
  }

  lemma {:induction false} VerdictChoice(g: Rules, used: set<nat>, p1: Tree, p2: Tree, left: nat, nb: bool, d: nat,
                                         b: nat, x: nat)
    requires InPath(g, used, Choice(p1, p2), left, d, b) && left <= MAXRULES && Enough(left, d, x)
             && Enough(MAXRULES, d, b)
    requires VerifyKept(g, Choice(p1, p2), left, nb, b).Passes? && Nullable(g, Choice(p1, p2), x)
    ensures VerifyKept(g, Choice(p1, p2), left, nb, b) == Passes(true)
    decreases d, left, Choice(p1, p2), -1
  {
    var t := Choice(p1, p2);
    PathChild(g, used, t, p1, left, d, b);
    PathChild(g, used, t, p2, left, d, b);
    KeptNb(g, p1, left, b);
    KeptNb(g, p2, left, b);
    if Nullable(g, p1, x) {
      VerdictNullable(g, used, p1, left, nb, d, b, x);
    } else {
      VerdictNullable(g, used, p2, left, VerifyKept(g, p1, left, nb, b).nb, d, b, x);
    }
  }

  lemma AuxAgree(g: Rules, t: Tree, nofail: bool, x: nat, y: nat)
    requires Stops(g, t, Aux(nofail), x) && Stops(g, t, Aux(nofail), y)
    ensures CheckAux(g, t, nofail, x) == CheckAux(g, t, nofail, y)
  {
    AuxMore(g, t, nofail, x, Max(x, y));
    AuxMore(g, t, nofail, y, Max(x, y));
  }

  /** `checkaux` ends. */
  lemma {:induction false} AuxEnds(g: Rules, used: set<nat>, t: Tree, nofail: bool, left: nat, d: nat, b: nat, x: nat)
    requires InPath(g, used, t, left, d, b) && Enough(left, d, x) && Enough(MAXRULES, d, b)
    ensures Stops(g, t, Aux(nofail), x)
    decreases d, left, t, 1
  {
    match t
    case And(p) =>
      PathChild(g, used, t, p, left, d, b);
      AuxEnds(g, used, p, nofail, left, d, b, x);
    case Capture(_, _, p) =>
      PathChild(g, used, t, p, left, d, b);
      AuxEnds(g, used, p, nofail, left, d, b, x);
    case Call(k) =>
      PathCall(g, used, k, left, d, b);
      AuxEnds(g, used, g[k], nofail, left - 1, d, b, x - 1);
    case Choice(p1, p2) =>
      PathChild(g, used, t, p1, left, d, b);
      PathChild(g, used, t, p2, left, d, b);
      AuxEnds(g, used, p1, nofail, left, d, b, x);
      AuxEnds(g, used, p2, nofail, left, d, b, x);
    case Seq(p1, p2) =>
      PathChild(g, used, t, p1, left, d, b);
      AuxEnds(g, used, p1, nofail, left, d, b, x);
      AuxMore(g, p1, nofail, x, x);
      if CheckAux(g, p1, nofail, x) {
        if nofail { NofailNullable(g, p1, x); }
        NullablePath(g, used, p1, p2, left, d, b, x);
        AuxEnds(g, used, p2, nofail, left, d, b, x);
      }
    case Grammar(rs) =>
      PathFirst(g, used, rs, left, d, b);
      AuxEnds(rs, UsedRules(rs), rs[0], nofail, MAXRULES, d - 1, b, x);
    case _ =>
  }

  /** Behind a nullable pattern `verifyrule` went on. */
  lemma {:induction false} NullablePath(g: Rules, used: set<nat>, p1: Tree, p2: Tree, left: nat, d: nat, b: nat, x: nat)
    requires InPath(g, used, Seq(p1, p2), left, d, b) && Enough(left, d, x) && Enough(MAXRULES, d, b)
             && Nullable(g, p1, x)
    ensures InPath(g, used, p2, left, d, b)
    decreases d, left, p1, 1
  {
    PathChild(g, used, Seq(p1, p2), p1, left, d, b);
    if left <= MAXRULES { VerdictNullable(g, used, p1, left, false, d, b, x); }
    PathSecond(g, used, p1, p2, left, d, b);
  }

  // ---- First sets, headfail ----------------------------------------------------------------------

  lemma FreshPath(g: Rules, used: set<nat>, t: Tree, left: nat, d: nat, b: nat)
    requires InPath(g, used, t, left, d, b)
    ensures InPath(g, used, t, MAXRULES + 1, d, b)
  {
  }

  /** A pattern that calls nothing may only start afresh in grammars of its own. */
  ghost predicate Free(g: Rules, used: set<nat>, t: Tree, d: nat, b: nat)
  {
    CallsOf(t) == {} && InPath(g, used, t, MAXRULES + 1, d, b)
  }

  lemma FreeChild(g: Rules, used: set<nat>, t: Tree, p: Tree, d: nat, b: nat)
    requires Free(g, used, t, d, b) && Child(t, p)
    ensures Free(g, used, p, d, b) && p < t
  {
    PathChild(g, used, t, p, MAXRULES + 1, d, b);
  }

  lemma {:induction false} AuxFree(g: Rules, used: set<nat>, t: Tree, nofail: bool, d: nat, b: nat, x: nat)
    requires Free(g, used, t, d, b) && Enough(0, d, x) && Enough(MAXRULES, d, b)
    ensures Stops(g, t, Aux(nofail), x)
    decreases t
  {
    match t
    case And(p) => FreeChild(g, used, t, p, d, b); AuxFree(g, used, p, nofail, d, b, x);
    case Capture(_, _, p) => FreeChild(g, used, t, p, d, b); AuxFree(g, used, p, nofail, d, b, x);
    case Choice(p1, p2) =>
      FreeChild(g, used, t, p1, d, b);
      FreeChild(g, used, t, p2, d, b);
      AuxFree(g, used, p1, nofail, d, b, x);
      AuxFree(g, used, p2, nofail, d, b, x);
    case Seq(p1, p2) =>
      FreeChild(g, used, t, p1, d, b);
      FreeChild(g, used, t, p2, d, b);
      AuxFree(g, used, p1, nofail, d, b, x);
      AuxFree(g, used, p2, nofail, d, b, x);
    case Grammar(rs) =>
      PathFirst(g, used, rs, MAXRULES + 1, d, b);
      AuxEnds(rs, UsedRules(rs), rs[0], nofail, MAXRULES, d - 1, b, x);
    case _ =>
  }

  /** `getfirst` of what calls nothing, like the body of a look-behind, ends. */
  lemma {:induction false} FirstFree(g: Rules, used: set<nat>, t: Tree, d: nat, b: nat, x: nat)
    requires Free(g, used, t, d, b) && Enough(0, d, x) && Enough(MAXRULES, d, b)
    ensures Stops(g, t, First, x)
    decreases d, 0, t, 0
  {
    match t
    case Choice(p1, p2) =>
      FreeChild(g, used, t, p1, d, b);
      FreeChild(g, used, t, p2, d, b);
      FirstFree(g, used, p1, d, b, x);
      FirstFree(g, used, p2, d, b, x);
    case Seq(p1, p2) =>
      FreeChild(g, used, t, p1, d, b);
      FreeChild(g, used, t, p2, d, b);
      AuxFree(g, used, p1, false, d, b, x);
      FirstFree(g, used, p1, d, b, x);
      FirstFree(g, used, p2, d, b, x);
      FirstSeq(g, p1, p2, x);
    case Grammar(rs) =>
      PathFirst(g, used, rs, MAXRULES + 1, d, b);
      FirstEnds(rs, UsedRules(rs), rs[0], MAXRULES, d - 1, b, x);
    case Rep(p) => FreeChild(g, used, t, p, d, b); FirstFree(g, used, p, d, b, x);
    case Capture(_, _, p) => FreeChild(g, used, t, p, d, b); FirstFree(g, used, p, d, b, x);
    case And(p) => FreeChild(g, used, t, p, d, b); FirstFree(g, used, p, d, b, x);
    case Not(p) => FreeChild(g, used, t, p, d, b); FirstFree(g, used, p, d, b, x);
    case Behind(_, p) => FreeChild(g, used, t, p, d, b); FirstFree(g, used, p, d, b, x);
    case _ =>
  }

  /** `getfirst` ends. */
  lemma {:induction false} FirstEnds(g: Rules, used: set<nat>, t: Tree, left: nat, d: nat, b: nat, x: nat)
    requires InPath(g, used, t, left, d, b) && Enough(left, d, x) && Enough(MAXRULES, d, b)
    ensures Stops(g, t, First, x)
    decreases d, left, t, 1
  {
    match t
    case And(p) => PathChild(g, used, t, p, left, d, b); FirstEnds(g, used, p, left, d, b, x);
    case Not(p) => PathChild(g, used, t, p, left, d, b); FirstEnds(g, used, p, left, d, b, x);
    case Rep(p) => PathChild(g, used, t, p, left, d, b); FirstEnds(g, used, p, left, d, b, x);
    case Capture(_, _, p) => PathChild(g, used, t, p, left, d, b); FirstEnds(g, used, p, left, d, b, x);
    case Behind(_, p) =>
      FreshPath(g, used, t, left, d, b);
      PathChild(g, used, t, p, MAXRULES + 1, d, b);
      FirstFree(g, used, p, d, b, x);
    case Call(k) =>
      PathCall(g, used, k, left, d, b);
      FirstEnds(g, used, g[k], left - 1, d, b, x - 1);
    case Choice(p1, p2) =>
      PathChild(g, used, t, p1, left, d, b);
      PathChild(g, used, t, p2, left, d, b);
      FirstEnds(g, used, p1, left, d, b, x);
      FirstEnds(g, used, p2, left, d, b, x);
    case Seq(p1, p2) =>
      PathChild(g, used, t, p1, left, d, b);
      AuxEnds(g, used, p1, false, left, d, b, x);
      AuxMore(g, p1, false, x, x);
      FirstEnds(g, used, p1, left, d, b, x);
      if Nullable(g, p1, x) {
        NullablePath(g, used, p1, p2, left, d, b, x);
        FirstEnds(g, used, p2, left, d, b, x);
      }
      FirstSeq(g, p1, p2, x);
    case Grammar(rs) =>
      PathFirst(g, used, rs, left, d, b);
      FirstEnds(rs, UsedRules(rs), rs[0], MAXRULES, d - 1, b, x);
    case _ =>
  }

  /** `headfail` ends. */
  lemma {:induction false} HeadEnds(g: Rules, used: set<nat>, t: Tree, left: nat, d: nat, b: nat, x: nat)
    requires InPath(g, used, t, left, d, b) && Enough(left, d + 1, x) && Enough(MAXRULES, d, b)
    ensures Stops(g, t, Head, x)
    decreases d, left, t
  {
    match t
    case And(p) => PathChild(g, used, t, p, left, d, b); HeadEnds(g, used, p, left, d, b, x);
    case Capture(_, _, p) => PathChild(g, used, t, p, left, d, b); HeadEnds(g, used, p, left, d, b, x);
    case Call(k) =>
      PathCall(g, used, k, left, d, b);
      HeadEnds(g, used, g[k], left - 1, d, b, x - 1);
    case Choice(p1, p2) =>
      PathChild(g, used, t, p1, left, d, b);
      PathChild(g, used, t, p2, left, d, b);
      HeadEnds(g, used, p1, left, d, b, x);
      HeadEnds(g, used, p2, left, d, b, x);
    case Seq(p1, p2) =>
      PathChild(g, used, t, p1, left, d, b);
      HeadEnds(g, used, p1, left, d, b, x);
      FreshPath(g, used, t, left, d, b);
      PathChild(g, used, t, p2, MAXRULES + 1, d, b);
      AuxEnds(g, used, p2, true, MAXRULES + 1, d, b, x);
    case Grammar(rs) =>
      PathFirst(g, used, rs, left, d, b);
      HeadEnds(rs, UsedRules(rs), rs[0], MAXRULES, d - 1, b, x);
    case _ =>
  }

  // ---- Code generation -------------------------------------------------------------------------

  /** With `x` calls followed all analyses of `t`, a pattern of an accepted grammar, end. */
  ghost predicate Ample(g: Rules, used: set<nat>, t: Tree, d: nat, b: nat, x: nat)
  {
    forall n :: Look(n) ==>
      InPath(g, used, t, MAXRULES + 1, d, b) && Enough(MAXRULES, d, b) && Enough(MAXRULES + 1, d + 1, x)
  }

  lemma AmpleChild(g: Rules, used: set<nat>, t: Tree, p: Tree, d: nat, b: nat, x: nat)
    requires Ample(g, used, t, d, b, x) && Child(t, p)
    ensures Ample(g, used, p, d, b, x) && p < t && Stops(g, p, First, x) && Stops(g, p, Head, x)
  {
    assert Look(0);
    PathChild(g, used, t, p, MAXRULES + 1, d, b);
    FirstEnds(g, used, p, MAXRULES + 1, d, b, x);
    HeadEnds(g, used, p, MAXRULES + 1, d, b, x);
  }

  lemma AmpleRule(g: Rules, used: set<nat>, rs: Rules, k: nat, d: nat, b: nat, x: nat)
    requires Ample(g, used, Grammar(rs), d, b, x) && k < |rs|
    ensures d > 0 && Ample(rs, UsedRules(rs), rs[k], d - 1, b, x)
  {
    assert Look(0);
    PathRule(g, used, rs, k, MAXRULES + 1, d, b);
  }

  /** So do all that code generation starts. */
  lemma {:induction false} AmpleEnds(g: Rules, used: set<nat>, t: Tree, d: nat, b: nat, x: nat)
    requires Ample(g, used, t, d, b, x)
    ensures AnalysesEnd(g, t, x)
    decreases t
  {
    match t
    case Seq(p1, p2) =>
      AmpleChild(g, used, t, p1, d, b, x);
      AmpleChild(g, used, t, p2, d, b, x);
      AmpleEnds(g, used, p1, d, b, x);
      AmpleEnds(g, used, p2, d, b, x);
    case Choice(p1, p2) =>
      AmpleChild(g, used, t, p1, d, b, x);
      AmpleChild(g, used, t, p2, d, b, x);
      AmpleEnds(g, used, p1, d, b, x);
      AmpleEnds(g, used, p2, d, b, x);
    case Rep(p) => AmpleChild(g, used, t, p, d, b, x); AmpleEnds(g, used, p, d, b, x);
    case Not(p) => AmpleChild(g, used, t, p, d, b, x); AmpleEnds(g, used, p, d, b, x);
    case And(p) => AmpleChild(g, used, t, p, d, b, x); AmpleEnds(g, used, p, d, b, x);
    case Behind(_, p) => AmpleChild(g, used, t, p, d, b, x); AmpleEnds(g, used, p, d, b, x);
    case Capture(_, _, p) => AmpleChild(g, used, t, p, d, b, x); AmpleEnds(g, used, p, d, b, x);
    case Grammar(rs) =>
      forall k | 0 <= k < |rs| ensures AnalysesEnd(rs, rs[k], x) {
        AmpleRule(g, used, rs, k, d, b, x);
        AmpleEnds(rs, UsedRules(rs), rs[k], d - 1, b, x);
      }
    case _ =>
  }

  /** So many calls are enough for every analysis of the pattern. */
  function Budget(t: Tree): nat { 252 * (Depth(t) + 2) + 4 * RulesIn(t) }

  /** When a pattern that passed the checks is compiled, all analyses end. */
  lemma CompileAnalyses(t: Tree, b: nat, x: nat)
    requires CallsOf(t) == {} && Verified(t, b) && Safe(t, b) && Budget(t) <= b && Budget(t) <= x
    ensures AnalysesEnd([], t, x)
  {
    AmpleEnds([], {}, t, Depth(t), b, x);
  }

  /** And every bound of at least `Budget` gives the same code. */
  lemma CompileStable(t: Tree, b: nat, x: nat)
    requires CallsOf(t) == {} && Verified(t, b) && Safe(t, b) && Budget(t) <= b && Budget(t) <= x
    ensures Compile(t, x) == Compile(t, b)
  {
    CompileAnalyses(t, b, x);
    CompileAnalyses(t, b, b);
    if x <= b { EmitSame(t, x, b); } else { EmitSame(t, b, x); }
  }

  // ---- Verdicts ----------------------------------------------------------------------------------

  ghost predicate SameVerdicts(g: Rules, t: Tree, left: nat, x: nat, y: nat)
  {
    forall nb :: VerifyKept(g, t, left, nb, x) == VerifyKept(g, t, left, nb, y)
  }

  lemma VerdictsShell(g: Rules, t: Tree, left: nat, x: nat, y: nat)
    requires (t.Rep? || t.Not? || t.And? || t.Capture?) && SameVerdicts(g, t.p, left, x, y)
    ensures SameVerdicts(g, t, left, x, y)
  {
  }

  lemma VerdictsSeq(g: Rules, p1: Tree, p2: Tree, left: nat, x: nat, y: nat)
    requires SameVerdicts(g, p1, left, x, y) && SameVerdicts(g, p2, left, x, y)
    ensures SameVerdicts(g, Seq(p1, p2), left, x, y)
  {
  }

  lemma VerdictsChoice(g: Rules, p1: Tree, p2: Tree, left: nat, x: nat, y: nat)
    requires SameVerdicts(g, p1, left, x, y) && SameVerdicts(g, p2, left, x, y)
    ensures SameVerdicts(g, Choice(p1, p2), left, x, y)
  {
  }

  lemma {:induction false} VerdictStable(g: Rules, used: set<nat>, t: Tree, left: nat, d: nat, b: nat, x: nat)
    requires InPath(g, used, t, MAXRULES + 1, d, b) && Enough(MAXRULES + 1, d, b) && Enough(MAXRULES + 1, d, x)
    ensures SameVerdicts(g, t, left, x, b)
    decreases left, t
  {
    match t
    case Seq(p1, p2) =>
      PathChild(g, used, t, p1, MAXRULES + 1, d, b);
      PathChild(g, used, t, p2, MAXRULES + 1, d, b);
      VerdictStable(g, used, p1, left, d, b, x);
      VerdictStable(g, used, p2, left, d, b, x);
      VerdictsSeq(g, p1, p2, left, x, b);
    case Choice(p1, p2) =>
      PathChild(g, used, t, p1, MAXRULES + 1, d, b);
      PathChild(g, used, t, p2, MAXRULES + 1, d, b);
      VerdictStable(g, used, p1, left, d, b, x);
      VerdictStable(g, used, p2, left, d, b, x);
      VerdictsChoice(g, p1, p2, left, x, b);
    case Call(k) =>
      if left > 0 {
        PathCall(g, used, k, MAXRULES + 1, d, b);
        FreshPath(g, used, g[k], MAXRULES, d, b);
        VerdictStable(g, used, g[k], left - 1, d, b, x);
      }
    case Grammar(_) =>
      AuxEnds(g, used, t, false, MAXRULES + 1, d, b, x);
      AuxEnds(g, used, t, false, MAXRULES + 1, d, b, b);
      AuxAgree(g, t, false, x, b);
    case Char(_) =>
    case Set(_) =>
    case Any =>
    case True =>
    case False =>
    case Behind(_, _) =>
    case _ =>
      PathChild(g, used, t, t.p, MAXRULES + 1, d, b);
      VerdictStable(g, used, t.p, left, d, b, x);
      VerdictsShell(g, t, left, x, b);
  }

  lemma {:induction false} LoopsStable(g: Rules, used: set<nat>, t: Tree, d: nat, b: nat, x: nat)
    requires InPath(g, used, t, MAXRULES + 1, d, b) && Enough(MAXRULES + 1, d, b) && Enough(MAXRULES + 1, d, x)
    ensures CheckLoops(g, t, x) == CheckLoops(g, t, b)
    decreases t, 1
  {
    match t
    case Rep(p) =>
      LoopsChild(g, used, t, p, d, b, x);
      PathChild(g, used, t, p, MAXRULES + 1, d, b);
      AuxEnds(g, used, p, false, MAXRULES + 1, d, b, x);
      AuxEnds(g, used, p, false, MAXRULES + 1, d, b, b);
      AuxAgree(g, p, false, x, b);
    case Not(p) => LoopsChild(g, used, t, p, d, b, x);
    case And(p) => LoopsChild(g, used, t, p, d, b, x);
    case Behind(_, p) => LoopsChild(g, used, t, p, d, b, x);
    case Capture(_, _, p) => LoopsChild(g, used, t, p, d, b, x);
    case Seq(p1, p2) => LoopsChild(g, used, t, p1, d, b, x); LoopsChild(g, used, t, p2, d, b, x);
    case Choice(p1, p2) => LoopsChild(g, used, t, p1, d, b, x); LoopsChild(g, used, t, p2, d, b, x);
    case _ =>
  }

  lemma {:induction false} LoopsChild(g: Rules, used: set<nat>, t: Tree, p: Tree, d: nat, b: nat, x: nat)
    requires InPath(g, used, t, MAXRULES + 1, d, b) && Enough(MAXRULES + 1, d, b) && Enough(MAXRULES + 1, d, x)
    requires Child(t, p)
    ensures CheckLoops(g, p, x) == CheckLoops(g, p, b)
    decreases t, 0
  {
    PathChild(g, used, t, p, MAXRULES + 1, d, b);
    LoopsStable(g, used, p, d, b, x);
  }

  /** What passed the checks with one bound passes them with the other. */
  lemma {:induction false} ChecksStable(g: Rules, used: set<nat>, t: Tree, d: nat, b: nat, x: nat)
    requires InPath(g, used, t, MAXRULES + 1, d, b) && Enough(MAXRULES + 1, d, b) && Enough(MAXRULES + 1, d, x)
    ensures Verified(t, x) && Safe(t, x)
    decreases t, 1
  {
    match t
    case Grammar(rs) =>
      var inner := UsedRules(rs);
      forall k | 0 <= k < |rs|
        ensures Verified(rs[k], x) && Safe(rs[k], x)
        ensures SameVerdicts(rs, rs[k], MAXRULES, x, b)
        ensures VerifyKept(rs, rs[k], MAXRULES, false, x).Passes? ==> VerifyRule(rs, rs[k], MAXRULES, false, x).Passes?
        ensures CheckLoops(rs, rs[k], x) == CheckLoops(rs, rs[k], b)
      {
        PathRule(g, used, rs, k, MAXRULES + 1, d, b);
        ChecksStable(rs, inner, rs[k], d - 1, b, x);
        VerdictStable(rs, inner, rs[k], MAXRULES, d - 1, b, x);
        LoopsStable(rs, inner, rs[k], d - 1, b, x);
        KeptPasses(rs, rs[k], MAXRULES, false, x);
      }
    case Rep(p) => ChecksChild(g, used, t, p, d, b, x);
    case Not(p) => ChecksChild(g, used, t, p, d, b, x);
    case And(p) => ChecksChild(g, used, t, p, d, b, x);
    case Behind(_, p) => ChecksChild(g, used, t, p, d, b, x);
    case Capture(_, _, p) => ChecksChild(g, used, t, p, d, b, x);
    case Seq(p1, p2) => ChecksChild(g, used, t, p1, d, b, x); ChecksChild(g, used, t, p2, d, b, x);
    case Choice(p1, p2) => ChecksChild(g, used, t, p1, d, b, x); ChecksChild(g, used, t, p2, d, b, x);
    case _ =>
  }

  lemma {:induction false} ChecksChild(g: Rules, used: set<nat>, t: Tree, p: Tree, d: nat, b: nat, x: nat)
    requires InPath(g, used, t, MAXRULES + 1, d, b) && Enough(MAXRULES + 1, d, b) && Enough(MAXRULES + 1, d, x)
    requires Child(t, p)
    ensures Verified(p, x) && Safe(p, x)
    decreases t, 0
  {
    PathChild(g, used, t, p, MAXRULES + 1, d, b);
    ChecksStable(g, used, p, d, b, x);
  }

  /** The analyses that the checks start end. */
  lemma {:induction false} VerdictsEnd(g: Rules, used: set<nat>, t: Tree, left: nat, d: nat, b: nat, x: nat)
    requires InPath(g, used, t, MAXRULES + 1, d, b) && Enough(MAXRULES + 1, d, b) && Enough(MAXRULES + 1, d, x)
    ensures VerdictEnds(g, t, left, x)
    decreases left, t
  {
    match t
    case Seq(p1, p2) =>
      PathChild(g, used, t, p1, MAXRULES + 1, d, b);
      PathChild(g, used, t, p2, MAXRULES + 1, d, b);
      VerdictsEnd(g, used, p1, left, d, b, x);
      VerdictsEnd(g, used, p2, left, d, b, x);
    case Choice(p1, p2) =>
      PathChild(g, used, t, p1, MAXRULES + 1, d, b);
      PathChild(g, used, t, p2, MAXRULES + 1, d, b);
      VerdictsEnd(g, used, p1, left, d, b, x);
      VerdictsEnd(g, used, p2, left, d, b, x);
    case Call(k) =>
      if left > 0 {
        PathCall(g, used, k, MAXRULES + 1, d, b);
        FreshPath(g, used, g[k], MAXRULES, d, b);
        VerdictsEnd(g, used, g[k], left - 1, d, b, x);
      }
    case Grammar(_) => AuxEnds(g, used, t, false, MAXRULES + 1, d, b, x);
    case Not(p) => PathChild(g, used, t, p, MAXRULES + 1, d, b); VerdictsEnd(g, used, p, left, d, b, x);
    case And(p) => PathChild(g, used, t, p, MAXRULES + 1, d, b); VerdictsEnd(g, used, p, left, d, b, x);
    case Rep(p) => PathChild(g, used, t, p, MAXRULES + 1, d, b); VerdictsEnd(g, used, p, left, d, b, x);
    case Capture(_, _, p) => PathChild(g, used, t, p, MAXRULES + 1, d, b); VerdictsEnd(g, used, p, left, d, b, x);
    case _ =>
  }

  lemma {:induction false} LoopsEnded(g: Rules, used: set<nat>, t: Tree, d: nat, b: nat, x: nat)
    requires InPath(g, used, t, MAXRULES + 1, d, b) && Enough(MAXRULES + 1, d, b) && Enough(MAXRULES + 1, d, x)
    ensures LoopsEnd(g, t, x)
    decreases t
  {
    match t
    case Rep(p) =>
      PathChild(g, used, t, p, MAXRULES + 1, d, b);
      AuxEnds(g, used, p, false, MAXRULES + 1, d, b, x);
      LoopsEnded(g, used, p, d, b, x);
    case Not(p) => PathChild(g, used, t, p, MAXRULES + 1, d, b); LoopsEnded(g, used, p, d, b, x);
    case And(p) => PathChild(g, used, t, p, MAXRULES + 1, d, b); LoopsEnded(g, used, p, d, b, x);
    case Behind(_, p) => PathChild(g, used, t, p, MAXRULES + 1, d, b); LoopsEnded(g, used, p, d, b, x);
    case Capture(_, _, p) => PathChild(g, used, t, p, MAXRULES + 1, d, b); LoopsEnded(g, used, p, d, b, x);
    case Seq(p1, p2) =>
      PathChild(g, used, t, p1, MAXRULES + 1, d, b);
      PathChild(g, used, t, p2, MAXRULES + 1, d, b);
      LoopsEnded(g, used, p1, d, b, x);
      LoopsEnded(g, used, p2, d, b, x);
    case Choice(p1, p2) =>
      PathChild(g, used, t, p1, MAXRULES + 1, d, b);
      PathChild(g, used, t, p2, MAXRULES + 1, d, b);
      LoopsEnded(g, used, p1, d, b, x);
      LoopsEnded(g, used, p2, d, b, x);
    case _ =>
  }

  lemma {:induction false} ChecksEnded(g: Rules, used: set<nat>, t: Tree, d: nat, b: nat, x: nat)
    requires InPath(g, used, t, MAXRULES + 1, d, b) && Enough(MAXRULES + 1, d, b) && Enough(MAXRULES + 1, d, x)
    ensures ChecksEnd(t, x)
    decreases t
  {
    match t
    case Grammar(rs) =>
      var inner := UsedRules(rs);
      forall k | 0 <= k < |rs|
        ensures VerdictEnds(rs, rs[k], MAXRULES, x) && LoopsEnd(rs, rs[k], x) && ChecksEnd(rs[k], x)
      {
        PathRule(g, used, rs, k, MAXRULES + 1, d, b);
        VerdictsEnd(rs, inner, rs[k], MAXRULES, d - 1, b, x);
        LoopsEnded(rs, inner, rs[k], d - 1, b, x);
        ChecksEnded(rs, inner, rs[k], d - 1, b, x);
      }
    case Rep(p) => PathChild(g, used, t, p, MAXRULES + 1, d, b); ChecksEnded(g, used, p, d, b, x);
    case Not(p) => PathChild(g, used, t, p, MAXRULES + 1, d, b); ChecksEnded(g, used, p, d, b, x);
    case And(p) => PathChild(g, used, t, p, MAXRULES + 1, d, b); ChecksEnded(g, used, p, d, b, x);
    case Behind(_, p) => PathChild(g, used, t, p, MAXRULES + 1, d, b); ChecksEnded(g, used, p, d, b, x);
    case Capture(_, _, p) => PathChild(g, used, t, p, MAXRULES + 1, d, b); ChecksEnded(g, used, p, d, b, x);
    case Seq(p1, p2) =>
      PathChild(g, used, t, p1, MAXRULES + 1, d, b);
      PathChild(g, used, t, p2, MAXRULES + 1, d, b);
      ChecksEnded(g, used, p1, d, b, x);
      ChecksEnded(g, used, p2, d, b, x);
    case Choice(p1, p2) =>
      PathChild(g, used, t, p1, MAXRULES + 1, d, b);
      PathChild(g, used, t, p2, MAXRULES + 1, d, b);
      ChecksEnded(g, used, p1, d, b, x);
      ChecksEnded(g, used, p2, d, b, x);
    case _ =>
  }
}
