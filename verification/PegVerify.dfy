/** The checks a grammar passes before it is compiled (`verifyrule`, `checkloops`,
  `verifygrammar` of `lptree.c`), and that matching an accepted pattern always ends. */
module PegVerify {
  import opened PegTree
  import opened PegAnalysis

  const MAXRULES: nat := 250

  /** `verifyrule` raises an error, or says whether the pattern may leave the subject in place. */
  datatype Verdict = Rejected | Passes(nb: bool)

  /** `verifyrule`. `left` is how many more rules may be entered: `MAXRULES - npassed`. */
  function VerifyRule(g: Rules, t: Tree, left: nat, nb: bool, b: nat): (r: Verdict)
    decreases left, t
  {
    match t
    case Char(_) => Passes(nb)
    case Set(_) => Passes(nb)
    case Any => Passes(nb)
    case False => Passes(nb)
    case True => Passes(true)
    case Behind(_, _) => Passes(true)
    case Not(p) => VerifyRule(g, p, left, true, b)
    case And(p) => VerifyRule(g, p, left, true, b)
    case Rep(p) => VerifyRule(g, p, left, true, b)
    case Capture(_, _, p) => VerifyRule(g, p, left, nb, b)
    case Call(k) =>
      if k >= |g| then Passes(nb)
      else if left == 0 then Rejected
      else VerifyRule(g, g[k], left - 1, nb, b)
    case Seq(p1, p2) =>
      (match VerifyRule(g, p1, left, false, b)
       case Rejected => Rejected
       case Passes(nb1) => if nb1 then VerifyRule(g, p2, left, nb, b) else Passes(nb))
    case Choice(p1, p2) =>
      (match VerifyRule(g, p1, left, nb, b)
       case Rejected => Rejected
       case Passes(nb1) => VerifyRule(g, p2, left, nb1, b))
    case Grammar(_) => Passes(Nullable(g, t, b))
  }

  /** `checkloops`: some repetition has a body that accepts the empty string. */
  predicate CheckLoops(g: Rules, t: Tree, b: nat)
  {
    match t
    case Rep(p) => Nullable(g, p, b) || CheckLoops(g, p, b)
    case Not(p) => CheckLoops(g, p, b)
    case And(p) => CheckLoops(g, p, b)
    case Behind(_, p) => CheckLoops(g, p, b)
    case Capture(_, _, p) => CheckLoops(g, p, b)
    case Seq(p1, p2) => CheckLoops(g, p1, b) || CheckLoops(g, p2, b)
    case Choice(p1, p2) => CheckLoops(g, p1, b) || CheckLoops(g, p2, b)
    case _ => false
  }

  /** The rules the pattern calls; a sub-grammar only calls its own. */
  function CallsOf(t: Tree): (ks: set<nat>)
  {
    match t
    case Call(k) => {k}
    case Rep(p) => CallsOf(p)
    case Not(p) => CallsOf(p)
    case And(p) => CallsOf(p)
    case Behind(_, p) => CallsOf(p)
    case Capture(_, _, p) => CallsOf(p)
    case Seq(p1, p2) => CallsOf(p1) + CallsOf(p2)
    case Choice(p1, p2) => CallsOf(p1) + CallsOf(p2)
    case _ => {}
  }

  function CallsOfAll(rs: Rules): (ks: set<nat>)
    ensures forall k :: 0 <= k < |rs| ==> CallsOf(rs[k]) <= ks
  {
    if rs == [] then {} else CallsOf(rs[0]) + CallsOfAll(rs[1..])
  }

  /** The rules that are checked: the others have no name because nothing refers to them. */
  function UsedRules(rs: Rules): (ks: set<nat>) { {0} + CallsOfAll(rs) }

  /** `verifygrammar`. */
  predicate VerifyGrammar(rs: Rules, b: nat)
  {
    forall k :: k in UsedRules(rs) ==>
      k < |rs| && VerifyRule(rs, rs[k], MAXRULES, false, b).Passes? && !CheckLoops(rs, rs[k], b)
  }

  /** Every sub-grammar passed `verifygrammar` when it was built. */
  predicate Verified(t: Tree, b: nat)
  {
    match t
    case Grammar(rs) => VerifyGrammar(rs, b) && forall k :: 0 <= k < |rs| ==> Verified(rs[k], b)
    case Rep(p) => Verified(p, b)
    case Not(p) => Verified(p, b)
    case And(p) => Verified(p, b)
    case Behind(_, p) => Verified(p, b)
    case Capture(_, _, p) => Verified(p, b)
    case Seq(p1, p2) => Verified(p1, b) && Verified(p2, b)
    case Choice(p1, p2) => Verified(p1, b) && Verified(p2, b)
    case _ => true
  }

  // ---- Where `verifyrule` loses track ------------------------------------------------------

  /** The traversal of `verifyrule` ends in a sub-grammar that is not nullable. */
  predicate EndsInGrammar(g: Rules, t: Tree, left: nat, b: nat)
    decreases left, t
  {
    match t
    case Grammar(_) => !Nullable(g, t, b)
    case Not(p) => EndsInGrammar(g, p, left, b)
    case And(p) => EndsInGrammar(g, p, left, b)
    case Rep(p) => EndsInGrammar(g, p, left, b)
    case Capture(_, _, p) => EndsInGrammar(g, p, left, b)
    case Call(k) => k < |g| && left > 0 && EndsInGrammar(g, g[k], left - 1, b)
    case Seq(p1, p2) => VerifyRule(g, p1, left, false, b) == Passes(true) && EndsInGrammar(g, p2, left, b)
    case Choice(p1, p2) =>
      || EndsInGrammar(g, p2, left, b)
      || (EndsInGrammar(g, p1, left, b) && VerifyRule(g, p2, left, false, b) == Passes(false))
    case _ => false
  }

  /** The comment of `verifyrule` says that it returns true when `nb` is true. That holds exactly
    when its traversal does not end in a sub-grammar that is not nullable; then `nb` is lost. */
  lemma {:induction false} KeepsNb(g: Rules, t: Tree, left: nat, b: nat)
    requires VerifyRule(g, t, left, true, b).Passes?
    ensures VerifyRule(g, t, left, true, b).nb <==> !EndsInGrammar(g, t, left, b)
    decreases left, t
  {
    match t
    case Not(p) => KeepsNb(g, p, left, b);
    case And(p) => KeepsNb(g, p, left, b);
    case Rep(p) => KeepsNb(g, p, left, b);
    case Capture(_, _, p) => KeepsNb(g, p, left, b);
    case Call(k) => if k < |g| { KeepsNb(g, g[k], left - 1, b); }
    case Seq(p1, p2) => if VerifyRule(g, p1, left, false, b) == Passes(true) { KeepsNb(g, p2, left, b); }
    case Choice(p1, p2) =>
      KeepsNb(g, p1, left, b);
      NbOnly(g, p2, left, b);
      KeepsNb(g, p2, left, b);
    case _ =>
  }

  /** `nb` does not decide whether a rule is rejected, and can only add to its verdict. */
  lemma {:induction false} NbOnly(g: Rules, t: Tree, left: nat, b: nat)
    ensures var r, r' := VerifyRule(g, t, left, false, b), VerifyRule(g, t, left, true, b);
            (r.Passes? <==> r'.Passes?) && (r == Passes(true) ==> r' == Passes(true))
    decreases left, t
  {
    match t
    case Capture(_, _, p) => NbOnly(g, p, left, b);
    case Call(k) => if k < |g| && left > 0 { NbOnly(g, g[k], left - 1, b); }
    case Seq(p1, p2) => NbOnly(g, p2, left, b);
    case Choice(p1, p2) => NbOnly(g, p1, left, b); NbOnly(g, p2, left, b);
    case _ =>
  }

  /** Nowhere in the pattern does a verdict get lost in a sub-grammar that is not nullable. */
  predicate Intact(g: Rules, t: Tree, left: nat, b: nat)
    decreases left, t
  {
    match t
    case Not(p) => !EndsInGrammar(g, p, left, b) && Intact(g, p, left, b)
    case And(p) => !EndsInGrammar(g, p, left, b) && Intact(g, p, left, b)
    case Rep(p) => !EndsInGrammar(g, p, left, b) && Intact(g, p, left, b)
    case Capture(_, _, p) => Intact(g, p, left, b)
    case Call(k) => k < |g| && left > 0 ==> Intact(g, g[k], left - 1, b)
    case Seq(p1, p2) =>
      Intact(g, p1, left, b) && (VerifyRule(g, p1, left, false, b) == Passes(true) ==> Intact(g, p2, left, b))
    case Choice(p1, p2) =>
      && Intact(g, p1, left, b) && Intact(g, p2, left, b)
      && !(VerifyRule(g, p1, left, false, b) == Passes(true) && EndsInGrammar(g, p2, left, b))
    case _ => true
  }

  // ---- A check that keeps the verdict -------------------------------------------------------

  /** `verifyrule`, corrected: a sub-grammar keeps `nb`. */
  function VerifyKept(g: Rules, t: Tree, left: nat, nb: bool, b: nat): (r: Verdict)
    decreases left, t
  {
    match t
    case Char(_) => Passes(nb)
    case Set(_) => Passes(nb)
    case Any => Passes(nb)
    case False => Passes(nb)
    case True => Passes(true)
    case Behind(_, _) => Passes(true)
    case Not(p) => VerifyKept(g, p, left, true, b)
    case And(p) => VerifyKept(g, p, left, true, b)
    case Rep(p) => VerifyKept(g, p, left, true, b)
    case Capture(_, _, p) => VerifyKept(g, p, left, nb, b)
    case Call(k) =>
      if k >= |g| then Passes(nb)
      else if left == 0 then Rejected
      else VerifyKept(g, g[k], left - 1, nb, b)
    case Seq(p1, p2) =>
      (match VerifyKept(g, p1, left, false, b)
       case Rejected => Rejected
       case Passes(nb1) => if nb1 then VerifyKept(g, p2, left, nb, b) else Passes(nb))
    case Choice(p1, p2) =>
      (match VerifyKept(g, p1, left, nb, b)
       case Rejected => Rejected
       case Passes(nb1) => VerifyKept(g, p2, left, nb1, b))
    case Grammar(_) => Passes(nb || Nullable(g, t, b))
  }

  /** Now the comment of `verifyrule` holds: a true `nb` gives a true verdict. And `nb` still has no
    part in rejecting a rule. */
  lemma {:induction false} KeptNb(g: Rules, t: Tree, left: nat, b: nat)
    ensures var r, r' := VerifyKept(g, t, left, false, b), VerifyKept(g, t, left, true, b);
            (r.Passes? <==> r'.Passes?) && (r'.Passes? ==> r'.nb)
    decreases left, t
  {
    match t
    case Not(p) => KeptNb(g, p, left, b);
    case And(p) => KeptNb(g, p, left, b);
    case Rep(p) => KeptNb(g, p, left, b);
    case Capture(_, _, p) => KeptNb(g, p, left, b);
    case Call(k) => if k < |g| && left > 0 { KeptNb(g, g[k], left - 1, b); }
    case Seq(p1, p2) => KeptNb(g, p2, left, b);
    case Choice(p1, p2) => KeptNb(g, p1, left, b); KeptNb(g, p2, left, b);
    case _ =>
  }

  /** What passes the corrected check passes `verifyrule`, with a verdict that is not truer. */
  lemma {:induction false} KeptPasses(g: Rules, t: Tree, left: nat, nb: bool, b: nat)
    ensures var r, r' := VerifyKept(g, t, left, nb, b), VerifyRule(g, t, left, nb, b);
            r.Passes? ==> r'.Passes? && (r'.nb ==> r.nb)
    decreases left, t
  {
    match t
    case Not(p) => KeptPasses(g, p, left, true, b);
    case And(p) => KeptPasses(g, p, left, true, b);
    case Rep(p) => KeptPasses(g, p, left, true, b);
    case Capture(_, _, p) => KeptPasses(g, p, left, nb, b);
    case Call(k) => if k < |g| && left > 0 { KeptPasses(g, g[k], left - 1, nb, b); }
    case Seq(p1, p2) => KeptPasses(g, p1, left, false, b); KeptPasses(g, p2, left, nb, b); KeptNb(g, p2, left, b);
    case Choice(p1, p2) =>
      KeptPasses(g, p1, left, nb, b);
      KeptPasses(g, p2, left, true, b);
      KeptPasses(g, p2, left, false, b);
      KeptNb(g, p2, left, b);
      NbOnly(g, p2, left, b);
    case _ =>
  }

  /** The two agree where no verdict is lost; and for a true `nb` exactly where `verifyrule` does not
    end in a sub-grammar that is not nullable. */
  lemma {:induction false} KeptAgrees(g: Rules, t: Tree, left: nat, b: nat)
    requires Intact(g, t, left, b)
    ensures VerifyKept(g, t, left, false, b) == VerifyRule(g, t, left, false, b)
    ensures VerifyKept(g, t, left, true, b) == VerifyRule(g, t, left, true, b) <==>
      !(VerifyRule(g, t, left, true, b).Passes? && EndsInGrammar(g, t, left, b))
    decreases left, t
  {
    NbOnly(g, t, left, b);
    KeptNb(g, t, left, b);
    if VerifyRule(g, t, left, true, b).Passes? { KeepsNb(g, t, left, b); }
    match t
    case Not(p) => KeptAgrees(g, p, left, b);
    case And(p) => KeptAgrees(g, p, left, b);
    case Rep(p) => KeptAgrees(g, p, left, b);
    case Capture(_, _, p) => KeptAgrees(g, p, left, b);
    case Call(k) => if k < |g| && left > 0 { KeptAgrees(g, g[k], left - 1, b); }
    case Seq(p1, p2) =>
      KeptAgrees(g, p1, left, b);
      if VerifyRule(g, p1, left, false, b) == Passes(true) { KeptAgrees(g, p2, left, b); }
    case Choice(p1, p2) =>
      KeptAgrees(g, p1, left, b);
      KeptAgrees(g, p2, left, b);
    case _ =>
  }

  /** A pattern that matches without consuming gets a true verdict of the corrected check. */
  lemma {:induction false} VerdictSound(g: Rules, t: Tree, left: nat, nb: bool, b: nat, s: Subject, i: nat, fuel: nat)
    requires i <= |s| && VerifyKept(g, t, left, nb, b).Passes?
    requires Parse(g, t, s, i, fuel).Ok? && Parse(g, t, s, i, fuel).pos == i
    ensures VerifyKept(g, t, left, nb, b) == Passes(true)
    decreases fuel, 0
  {
    match t
    case Not(p) => KeptNb(g, p, left, b);
    case And(p) => KeptNb(g, p, left, b);
    case Rep(p) => KeptNb(g, p, left, b);
    case Capture(_, _, p) => VerdictSound(g, p, left, nb, b, s, i, fuel - 1);
    case Call(k) => VerdictSound(g, g[k], left - 1, nb, b, s, i, fuel - 1);
    case Seq(p1, p2) =>
      VerdictSound(g, p1, left, false, b, s, i, fuel - 1);
      VerdictSound(g, p2, left, nb, b, s, i, fuel - 1);
    case Choice(p1, p2) =>
      KeptNb(g, p2, left, b);
      if Parse(g, p1, s, i, fuel - 1).Ok? {
        VerdictSound(g, p1, left, nb, b, s, i, fuel - 1);
      } else {
        VerdictSound(g, p2, left, VerifyKept(g, p1, left, nb, b).nb, b, s, i, fuel - 1);
      }
    case _ => NullableSound(g, t, b, s, i, fuel);
  }

  // ---- Matching ends -----------------------------------------------------------------------

  /** What `verifygrammar` should ask for: the corrected check, and no look-behind contains calls. */
  predicate Safe(t: Tree, b: nat)
  {
    match t
    case Grammar(rs) =>
      && (forall k :: k in UsedRules(rs) && k < |rs| ==> VerifyKept(rs, rs[k], MAXRULES, false, b).Passes?)
      && forall k :: 0 <= k < |rs| ==> Safe(rs[k], b)
    case Behind(_, p) => CallsOf(p) == {} && Safe(p, b)
    case Rep(p) => Safe(p, b)
    case Not(p) => Safe(p, b)
    case And(p) => Safe(p, b)
    case Capture(_, _, p) => Safe(p, b)
    case Seq(p1, p2) => Safe(p1, b) && Safe(p2, b)
    case Choice(p1, p2) => Safe(p1, b) && Safe(p2, b)
    case _ => true
  }

  function Max(x: nat, y: nat): nat { if x < y then y else x }

  /** How deep grammars are nested. */
  function Depth(t: Tree): (d: nat)
  {
    match t
    case Grammar(rs) => 1 + DepthAll(rs)
    case Behind(_, p) => Depth(p)
    case Rep(p) => Depth(p)
    case Not(p) => Depth(p)
    case And(p) => Depth(p)
    case Capture(_, _, p) => Depth(p)
    case Seq(p1, p2) => Max(Depth(p1), Depth(p2))
    case Choice(p1, p2) => Max(Depth(p1), Depth(p2))
    case _ => 0
  }

  function DepthAll(rs: Rules): (d: nat)
    ensures forall k :: 0 <= k < |rs| ==> Depth(rs[k]) <= d
  {
    if rs == [] then 0 else Max(Depth(rs[0]), DepthAll(rs[1..]))
  }

  /** The pattern passed every check that was made when it was built. */
  ghost predicate Checked(g: Rules, t: Tree, b: nat)
  {
    !CheckLoops(g, t, b) && Verified(t, b) && Safe(t, b)
  }

  ghost predicate RuleChecked(g: Rules, used: set<nat>, d: nat, b: nat, k: nat)
  {
    && k < |g| && VerifyKept(g, g[k], MAXRULES, false, b).Passes?
    && Checked(g, g[k], b) && Depth(g[k]) <= d && CallsOf(g[k]) <= used
  }

  ghost predicate Answered(g: Rules, t: Tree, s: Subject, i: nat, fuel: nat)
    requires i <= |s|
  {
    Parse(g, t, s, i, fuel) != Stuck
  }

  predicate Child(t: Tree, p: Tree)
  {
    match t
    case Rep(p1) => p == p1
    case Not(p1) => p == p1
    case And(p1) => p == p1
    case Behind(_, p1) => p == p1
    case Capture(_, _, p1) => p == p1
    case Seq(p1, p2) => p == p1 || p == p2
    case Choice(p1, p2) => p == p1 || p == p2
    case _ => false
  }

  lemma ChildChecked(g: Rules, t: Tree, p: Tree, b: nat)
    requires Checked(g, t, b) && Child(t, p)
    ensures Checked(g, p, b) && Depth(p) <= Depth(t) && CallsOf(p) <= CallsOf(t) && p < t
  {
  }

  // Each construct is answered once its parts are.

  lemma SeqAnswered(g: Rules, p1: Tree, p2: Tree, s: Subject, i: nat, f1: nat, f2: nat) returns (fuel: nat)
    requires i <= |s| && Answered(g, p1, s, i, f1)
    requires var o := Parse(g, p1, s, i, f1); o.Ok? ==> Answered(g, p2, s, o.pos, f2)
    ensures Answered(g, Seq(p1, p2), s, i, fuel)
  {
    fuel := Max(f1, f2) + 1;
    ParseStable(g, p1, s, i, f1, fuel - 1);
    var o := Parse(g, p1, s, i, f1);
    if o.Ok? { ParseStable(g, p2, s, o.pos, f2, fuel - 1); }
  }

  lemma ChoiceAnswered(g: Rules, p1: Tree, p2: Tree, s: Subject, i: nat, f1: nat, f2: nat) returns (fuel: nat)
    requires i <= |s| && Answered(g, p1, s, i, f1) && Answered(g, p2, s, i, f2)
    ensures Answered(g, Choice(p1, p2), s, i, fuel)
  {
    fuel := Max(f1, f2) + 1;
    ParseStable(g, p1, s, i, f1, fuel - 1);
    ParseStable(g, p2, s, i, f2, fuel - 1);
  }

  lemma RepAnswered(g: Rules, p: Tree, s: Subject, i: nat, f1: nat, f2: nat) returns (fuel: nat)
    requires i <= |s| && Answered(g, p, s, i, f1)
    requires var o := Parse(g, p, s, i, f1); o.Ok? ==> Answered(g, Rep(p), s, o.pos, f2)
    ensures Answered(g, Rep(p), s, i, fuel)
  {
    fuel := Max(f1, f2) + 1;
    ParseStable(g, p, s, i, f1, fuel - 1);
    var o := Parse(g, p, s, i, f1);
    if o.Ok? { ParseStable(g, Rep(p), s, o.pos, f2, fuel - 1); }
  }

  lemma ShellAnswered(g: Rules, t: Tree, s: Subject, i: nat, f: nat)
    requires t.Not? || t.And? || t.Capture?
    requires i <= |s| && Answered(g, t.p, s, i, f)
    ensures Answered(g, t, s, i, f + 1)
  {
  }

  /** Matching a pattern that calls no rule of the enclosing grammar ends. */
  lemma {:induction false} TerminatesFree(g: Rules, t: Tree, s: Subject, i: nat, d: nat, b: nat) returns (fuel: nat)
    requires i <= |s| && CallsOf(t) == {} && Checked(g, t, b) && Depth(t) <= d
    ensures Answered(g, t, s, i, fuel)
    decreases d, 0, t, |s| - i
  {
    match t
    case Seq(p1, p2) =>
      ChildChecked(g, t, p1, b);
      ChildChecked(g, t, p2, b);
      var f1 := TerminatesFree(g, p1, s, i, d, b);
      var f2: nat := 0;
      var o := Parse(g, p1, s, i, f1);
      if o.Ok? { f2 := TerminatesFree(g, p2, s, o.pos, d, b); }
      fuel := SeqAnswered(g, p1, p2, s, i, f1, f2);
    case Choice(p1, p2) =>
      ChildChecked(g, t, p1, b);
      ChildChecked(g, t, p2, b);
      var f1 := TerminatesFree(g, p1, s, i, d, b);
      var f2 := TerminatesFree(g, p2, s, i, d, b);
      fuel := ChoiceAnswered(g, p1, p2, s, i, f1, f2);
    case Rep(p) =>
      ChildChecked(g, t, p, b);
      var f1 := TerminatesFree(g, p, s, i, d, b);
      var f2: nat := 0;
      var o := Parse(g, p, s, i, f1);
      if o.Ok? {
        NullableSound(g, p, b, s, i, f1);
        f2 := TerminatesFree(g, t, s, o.pos, d, b);
      }
      fuel := RepAnswered(g, p, s, i, f1, f2);
    case Behind(n, p) =>
      ChildChecked(g, t, p, b);
      fuel := 1;
      if n <= i { fuel := TerminatesFree(g, p, s, i - n, d, b); fuel := fuel + 1; }
    case Grammar(rs) =>
      assert 0 in UsedRules(rs);
      fuel := TerminatesGrammar(rs, s, i, d - 1, b);
      fuel := fuel + 1;
    case Not(p) => fuel := TerminatesShell(g, t, s, i, d, b);
    case And(p) => fuel := TerminatesShell(g, t, s, i, d, b);
    case Capture(_, _, p) => fuel := TerminatesShell(g, t, s, i, d, b);
    case _ => fuel := 1;
  }

  lemma {:induction false} TerminatesShell(g: Rules, t: Tree, s: Subject, i: nat, d: nat, b: nat) returns (fuel: nat)
    requires t.Not? || t.And? || t.Capture?
    requires i <= |s| && CallsOf(t) == {} && Checked(g, t, b) && Depth(t) <= d
    ensures Answered(g, t, s, i, fuel)
    decreases d, 0, t, -1
  {
    ChildChecked(g, t, t.p, b);
    fuel := TerminatesFree(g, t.p, s, i, d, b);
    ShellAnswered(g, t, s, i, fuel);
    fuel := fuel + 1;
  }

  /** Matching an accepted grammar ends. */
  lemma {:induction false} TerminatesGrammar(rs: Rules, s: Subject, i: nat, d: nat, b: nat) returns (fuel: nat)
    requires i <= |s| && Verified(Grammar(rs), b) && Safe(Grammar(rs), b) && DepthAll(rs) <= d && rs != []
    ensures Answered(rs, rs[0], s, i, fuel)
    decreases d, 2
  {
    var used := UsedRules(rs);
    forall k | k in used ensures RuleChecked(rs, used, d, b, k) {
    }
    assert RuleChecked(rs, used, d, b, 0);
    fuel := Terminates(rs, used, rs[0], s, i, MAXRULES, d, b);
  }

  /** The corrected check passed the pattern with this many rules left to enter. A pattern that follows a
    consumed character starts afresh, with `left > MAXRULES`. */
  ghost predicate Passed(g: Rules, t: Tree, left: nat, b: nat)
  {
    left == MAXRULES + 1 || (left <= MAXRULES && VerifyKept(g, t, left, false, b).Passes?)
  }

  lemma ChildPassed(g: Rules, t: Tree, p: Tree, left: nat, b: nat)
    requires Passed(g, t, left, b) && Child(t, p) && !t.Behind? && (t.Seq? ==> p == t.p1)
    ensures Passed(g, p, left, b)
  {
    KeptNb(g, p, left, b);
  }

  lemma SecondPassed(g: Rules, p1: Tree, p2: Tree, left: nat, b: nat, s: Subject, i: nat, fuel: nat)
    requires i <= |s| && Passed(g, Seq(p1, p2), left, b)
    requires Parse(g, p1, s, i, fuel).Ok? && Parse(g, p1, s, i, fuel).pos == i
    ensures Passed(g, p2, left, b)
  {
    if left <= MAXRULES { VerdictSound(g, p1, left, false, b, s, i, fuel); }
  }

  ghost predicate RulesChecked(g: Rules, used: set<nat>, d: nat, b: nat)
  {
    forall k :: k in used ==> RuleChecked(g, used, d, b, k)
  }

  /** Matching inside an accepted grammar ends: the measure is the remaining subject, then the
    rules that may still be entered without consuming, then the pattern. */
  lemma {:induction false} Terminates(g: Rules, used: set<nat>, t: Tree, s: Subject, i: nat, left: nat, d: nat,
                                      b: nat) returns (fuel: nat)
    requires i <= |s| && RulesChecked(g, used, d, b)
    requires CallsOf(t) <= used && Checked(g, t, b) && Depth(t) <= d && Passed(g, t, left, b)
    ensures Answered(g, t, s, i, fuel)
    decreases d, 1, |s| - i, left, t, 1
  {
    if CallsOf(t) == {} {
      fuel := TerminatesFree(g, t, s, i, d, b);
    } else {
      match t
      case Call(k) =>
        assert RuleChecked(g, used, d, b, k);
        fuel := Terminates(g, used, g[k], s, i, left - 1, d, b);
        fuel := fuel + 1;
      case Not(p) =>
        ChildChecked(g, t, p, b); ChildPassed(g, t, p, left, b);
        fuel := Terminates(g, used, p, s, i, left, d, b);
        ShellAnswered(g, t, s, i, fuel); fuel := fuel + 1;
      case And(p) =>
        ChildChecked(g, t, p, b); ChildPassed(g, t, p, left, b);
        fuel := Terminates(g, used, p, s, i, left, d, b);
        ShellAnswered(g, t, s, i, fuel); fuel := fuel + 1;
      case Capture(_, _, p) =>
        ChildChecked(g, t, p, b); ChildPassed(g, t, p, left, b);
        fuel := Terminates(g, used, p, s, i, left, d, b);
        ShellAnswered(g, t, s, i, fuel); fuel := fuel + 1;
      case Choice(p1, p2) =>
        ChildChecked(g, t, p1, b); ChildPassed(g, t, p1, left, b);
        ChildChecked(g, t, p2, b); ChildPassed(g, t, p2, left, b);
        var f1 := Terminates(g, used, p1, s, i, left, d, b);
        var f2 := Terminates(g, used, p2, s, i, left, d, b);
        fuel := ChoiceAnswered(g, p1, p2, s, i, f1, f2);
      case Rep(_) => fuel := TerminatesRep(g, used, t, s, i, left, d, b);
      case Seq(_, _) => fuel := TerminatesSeq(g, used, t, s, i, left, d, b);
    }
  }

  lemma {:induction false} TerminatesRep(g: Rules, used: set<nat>, t: Tree, s: Subject, i: nat, left: nat, d: nat,
                                         b: nat) returns (fuel: nat)
    requires i <= |s| && RulesChecked(g, used, d, b) && t.Rep?
    requires CallsOf(t) <= used && Checked(g, t, b) && Depth(t) <= d && Passed(g, t, left, b)
    ensures Answered(g, t, s, i, fuel)
    decreases d, 1, |s| - i, left, t, 0
  {
    ChildChecked(g, t, t.p, b);
    ChildPassed(g, t, t.p, left, b);
    var f1 := Terminates(g, used, t.p, s, i, left, d, b);
    var f2: nat := 0;
    var o := Parse(g, t.p, s, i, f1);
    if o.Ok? {
      NullableSound(g, t.p, b, s, i, f1);
      f2 := Terminates(g, used, t, s, o.pos, MAXRULES + 1, d, b);
    }
    fuel := RepAnswered(g, t.p, s, i, f1, f2);
  }

  lemma {:induction false} TerminatesSeq(g: Rules, used: set<nat>, t: Tree, s: Subject, i: nat, left: nat, d: nat,
                                         b: nat) returns (fuel: nat)
    requires i <= |s| && RulesChecked(g, used, d, b) && t.Seq?
    requires CallsOf(t) <= used && Checked(g, t, b) && Depth(t) <= d && Passed(g, t, left, b)
    ensures Answered(g, t, s, i, fuel)
    decreases d, 1, |s| - i, left, t, 0
  {
    ChildChecked(g, t, t.p1, b);
    ChildChecked(g, t, t.p2, b);
    ChildPassed(g, t, t.p1, left, b);
    var f1 := Terminates(g, used, t.p1, s, i, left, d, b);
    var f2: nat := 0;
    var o := Parse(g, t.p1, s, i, f1);
    if o.Ok? && o.pos == i {
      SecondPassed(g, t.p1, t.p2, left, b, s, i, f1);
      f2 := Terminates(g, used, t.p2, s, i, left, d, b);
    } else if o.Ok? {
      f2 := Terminates(g, used, t.p2, s, o.pos, MAXRULES + 1, d, b);
    }
    fuel := SeqAnswered(g, t.p1, t.p2, s, i, f1, f2);
  }

  /** Every pattern whose checks passed has an answer at every position of every subject. */
  lemma AcceptedTerminates(t: Tree, s: Subject, i: nat, b: nat) returns (fuel: nat)
    requires i <= |s| && CallsOf(t) == {} && !CheckLoops([], t, b) && Verified(t, b) && Safe(t, b)
    ensures Parse([], t, s, i, fuel) != Stuck
  {
    fuel := TerminatesFree([], t, s, i, Depth(t), b);
  }

  // ---- Accepted, and yet it does not end ---------------------------------------------------

  /** `A <- ('a')^0 A`, where the repeated 'a' is a grammar of its own. */
  function LostVerdict(): Tree { Grammar([LostBody()]) }

  function LostBody(): Tree { Seq(Rep(Grammar([Char(97)])), Call(0)) }

  /** `A <- B(-A) 'x'`, where `B` looks behind by no characters. */
  function CallBehind(): Tree { Grammar([CallBehindBody()]) }

  function CallBehindBody(): Tree { Seq(Behind(0, Not(Call(0))), Char(120)) }

  lemma {:induction false} LostStuck(fuel: nat)
    ensures Parse([LostBody()], LostBody(), [], 0, fuel) == Stuck
    decreases fuel
  {
    var g := [LostBody()];
    if fuel > 1 {
      LostStuck(fuel - 2);
      assert g[0] == LostBody();
      assert Parse(g, Call(0), [], 0, fuel - 1) == Stuck;
      var inner := Grammar([Char(97)]);
      if fuel > 2 { assert !Parse(g, inner, [], 0, fuel - 2).Ok?; }
      assert Parse(g, Rep(inner), [], 0, fuel - 1) == Stuck || Parse(g, Rep(inner), [], 0, fuel - 1) == Ok(0, []);
    }
  }

  lemma {:induction false} CallBehindStuck(fuel: nat)
    ensures Parse([CallBehindBody()], CallBehindBody(), [], 0, fuel) == Stuck
    decreases fuel
  {
    var g := [CallBehindBody()];
    assert g[0] == CallBehindBody();
    if fuel > 3 {
      CallBehindStuck(fuel - 4);
      assert Parse(g, Call(0), [], 0, fuel - 3) == Stuck;
    }
    if fuel > 2 { assert Parse(g, Not(Call(0)), [], 0, fuel - 2) == Stuck; }
    if fuel > 1 { assert Parse(g, Behind(0, Not(Call(0))), [], 0, fuel - 1) == Stuck; }
  }

  lemma UsedBySelf(body: Tree)
    requires CallsOf(body) <= {0}
    ensures UsedRules([body]) == {0}
  {
    assert [body][1..] == [];
    assert CallsOfAll([body]) == CallsOf(body) + CallsOfAll([]);
  }

  /** The corrected check rejects it. */
  lemma {:induction false} LostRejected(left: nat, b: nat)
    ensures VerifyKept([LostBody()], LostBody(), left, false, b) == Rejected
    decreases left
  {
    var g := [LostBody()];
    assert g[0] == LostBody();
    assert VerifyKept(g, Grammar([Char(97)]), left, true, b) == Passes(true);
    assert VerifyKept(g, Rep(Grammar([Char(97)])), left, false, b) == Passes(true);
    if left > 0 { LostRejected(left - 1, b); }
    assert VerifyKept(g, Call(0), left, false, b) == Rejected;
  }

  /** `verifygrammar` accepts a left-recursive grammar: the sub-grammar loses the verdict of the
    repetition around it. No amount of fuel gives this pattern an answer on the empty subject. */
  lemma LostVerdictDiverges(b: nat, fuel: nat)
    requires b > 0
    ensures Verified(LostVerdict(), b) && !CheckLoops([], LostVerdict(), b) && CallsOf(LostVerdict()) == {}
    ensures !Safe(LostVerdict(), b)
    ensures Parse([], LostVerdict(), [], 0, fuel) == Stuck
  {
    var inner := Grammar([Char(97)]);
    UsedBySelf(LostBody());
    UsedBySelf(Char(97));
    var rs := [LostBody()];
    assert VerifyGrammar([Char(97)], b) && Verified(Char(97), b);
    assert Verified(inner, b) && Verified(Rep(inner), b) && Verified(Call(0), b);
    assert !Nullable([Char(97)], Char(97), b);
    assert !Nullable(rs, inner, b);
    assert VerifyRule(rs, inner, MAXRULES, true, b) == Passes(false);
    assert VerifyRule(rs, Rep(inner), MAXRULES, false, b) == Passes(false);
    assert VerifyRule(rs, rs[0], MAXRULES, false, b) == Passes(false);
    assert rs[0] == LostBody() && LostBody().p1 == Rep(inner) && LostBody().p2 == Call(0);
    assert !CheckLoops(rs, inner, b);
    assert !CheckLoops(rs, Rep(inner), b);
    assert !CheckLoops(rs, Call(0), b);
    assert !CheckLoops(rs, rs[0], b);
    assert VerifyGrammar(rs, b);
    LostRejected(MAXRULES, b);
    assert 0 in UsedRules(rs);
    if fuel > 0 { LostStuck(fuel - 1); }
  }

  /** So does a call inside a look-behind, which `verifyrule` does not enter. */
  lemma CallBehindDiverges(b: nat, fuel: nat)
    requires b > 0
    ensures Verified(CallBehind(), b) && !CheckLoops([], CallBehind(), b) && CallsOf(CallBehind()) == {}
    ensures OpenLen(Not(Call(0)), b) == 0 && !OpenCaptures(Not(Call(0)), b) && !Safe(CallBehind(), b)
    ensures Parse([], CallBehind(), [], 0, fuel) == Stuck
  {
    UsedBySelf(CallBehindBody());
    CallBehindPasses(b);
    var rs, not, behind := [CallBehindBody()], Not(Call(0)), Behind(0, Not(Call(0)));
    assert Verified(Call(0), b) && Verified(not, b) && Verified(behind, b) && Verified(Char(120), b);
    assert Verified(CallBehindBody(), b);
    assert !Safe(behind, b) && !Safe(CallBehindBody(), b);
    assert rs[0] == CallBehindBody();
    assert !HasCaptures([], Call(0), {}, b);
    if fuel > 0 { CallBehindStuck(fuel - 1); }
  }

  lemma CallBehindPasses(b: nat)
    ensures VerifyGrammar([CallBehindBody()], b)
  {
    UsedBySelf(CallBehindBody());
    var rs, not, behind := [CallBehindBody()], Not(Call(0)), Behind(0, Not(Call(0)));
    assert VerifyRule(rs, behind, MAXRULES, false, b) == Passes(true);
    assert VerifyRule(rs, Char(120), MAXRULES, false, b) == Passes(false);
    assert VerifyRule(rs, CallBehindBody(), MAXRULES, false, b) == Passes(false);
    assert !CheckLoops(rs, Call(0), b);
    assert !CheckLoops(rs, not, b);
    assert !CheckLoops(rs, behind, b);
    assert !CheckLoops(rs, Char(120), b);
    assert !CheckLoops(rs, CallBehindBody(), b);
  }

  /** `A <- ('a')^0 'b'`, where the repeated 'a' is a grammar of its own: here `verifyrule` loses a
    verdict, too, but nothing depends on it. */
  function LostHarmless(): Tree { Grammar([LostHarmlessBody()]) }

  function LostHarmlessBody(): Tree { Seq(Rep(Grammar([Char(97)])), Char(98)) }

  /** The corrected check does not reject all that loses a verdict. */
  lemma HarmlessAccepted(b: nat)
    ensures Verified(LostHarmless(), b) && Safe(LostHarmless(), b) && !CheckLoops([], LostHarmless(), b)
    ensures !Intact([LostHarmlessBody()], LostHarmlessBody(), MAXRULES, b)
  {
    var inner, rs := Grammar([Char(97)]), [LostHarmlessBody()];
    UsedBySelf(LostHarmlessBody());
    UsedBySelf(Char(97));
    assert rs[0] == LostHarmlessBody() && LostHarmlessBody().p1 == Rep(inner) && LostHarmlessBody().p2 == Char(98);
    assert VerifyGrammar([Char(97)], b) && Verified(Char(97), b) && Verified(Char(98), b);
    assert VerifyKept([Char(97)], Char(97), MAXRULES, false, b).Passes? && Safe(Char(97), b) && Safe(Char(98), b);
    assert Verified(inner, b) && Verified(Rep(inner), b) && Safe(inner, b) && Safe(Rep(inner), b);
    assert !Nullable([Char(97)], Char(97), b);
    assert !Nullable(rs, inner, b);
    assert VerifyKept(rs, inner, MAXRULES, true, b) == Passes(true);
    assert VerifyKept(rs, Rep(inner), MAXRULES, false, b) == Passes(true);
    assert VerifyKept(rs, rs[0], MAXRULES, false, b).Passes?;
    KeptPasses(rs, rs[0], MAXRULES, false, b);
    assert !CheckLoops(rs, inner, b);
    assert !CheckLoops(rs, Rep(inner), b);
    assert !CheckLoops(rs, Char(98), b);
    assert !CheckLoops(rs, rs[0], b);
    assert VerifyGrammar(rs, b) && Verified(rs[0], b) && Safe(rs[0], b);
    assert EndsInGrammar(rs, inner, MAXRULES, b);
    assert !Intact(rs, Rep(inner), MAXRULES, b);
  }
}
