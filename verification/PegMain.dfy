/** Compiling and matching together. */
module PegMain {
  import opened PegTree
  import opened PegAnalysis
  import opened PegVm
  import opened PegCodegen
  import opened PegCorrect
  import opened PegVerify
  import opened PegPeephole
  import PegBudget
  import PegEnding
  import PegPasses
  import PegCompiler
  import opened PegAccepts

  /** The pattern was accepted: its parts are well formed, and every check that is made when
    patterns are built, or should be, passed. */
  ghost predicate Accepted(t: Tree, b: nat)
  {
    WellFormed([], t, b) && CallsOf(t) == {} && !CheckLoops([], t, b) && Verified(t, b) && Safe(t, b)
  }

  /** What is asked of one node of a pattern: a look-behind has a length within the limit, no captures and no
    calls; a grammar has an initial rule, its calls name rules, no rule in use comes back to itself before
    anything is consumed, and none repeats a nullable pattern. */
  ghost predicate NodeAccepted(t: Tree, b: nat)
  {
    match t
    case Behind(n, p) =>
      && n == OpenLen(p, b) <= 255 && !OpenCaptures(p, b)
      && forall k: nat :: !Inside(p, Call(k))
    case Grammar(rs) => rs != [] && Sound(rs, b)
    case _ => true
  }

  /** A pattern is accepted exactly if it calls nothing and repeats nothing nullable outside its grammars, and
    every node inside is as it should be. `newgrammar` allows no more than 250 rules. */
  lemma AcceptedExactly(t: Tree, b: nat)
    requires forall rs :: Within(t, Grammar(rs)) ==> |rs| <= 250
    ensures Accepted(t, b) <==>
      && (forall k: nat :: !Inside(t, Call(k)))
      && (forall p :: Inside(t, Rep(p)) ==> !Nullable([], p, b))
      && (forall q :: Within(t, q) ==> NodeAccepted(q, b))
  {
    WellFormedExactly([], t, b);
    NoCalls(t);
    LoopsExactly([], t, b);
    VerifiedExactly(t, b);
    SafeExactly(t, b);
    forall q | Within(t, q)
      ensures NodeAccepted(q, b) <==>
        GoodNode(q, b) && SafeNode(q, b) && (q.Grammar? ==> VerifyGrammar(q.rules, b))
    {
      NodeExactly(q, b);
    }
    forall rs | Within(t, Grammar(rs)) && NodeAccepted(Grammar(rs), b) ensures VerifyGrammar(rs, b) {}
  }

  lemma NodeExactly(q: Tree, b: nat)
    requires q.Grammar? ==> |q.rules| <= 250
    ensures NodeAccepted(q, b) <==>
      GoodNode(q, b) && SafeNode(q, b) && (q.Grammar? ==> VerifyGrammar(q.rules, b))
  {
    match q
    case Behind(_, p) => NoCalls(p);
    case Grammar(rs) =>
      GrammarExactly(rs, b);
      if Sound(rs, b) {
        GrammarAccepted(rs, b);
        RulesFit(rs, b);
      }
    case _ =>
  }

  lemma RulesFit(rs: Rules, b: nat)
    requires Sound(rs, b)
    ensures forall i :: 0 <= i < |rs| ==> CallsFit(rs[i], |rs|)
  {
    forall i, k: nat | 0 <= i < |rs| && Inside(rs[i], Call(k)) ensures k < |rs| { UsedExactly(rs, k); }
  }

  lemma NoCalls(t: Tree)
    ensures CallsOf(t) == {} <==> forall k: nat :: !Inside(t, Call(k))
  {
    if k: nat :| Inside(t, Call(k)) {
      InsideCall(t, k);
    } else if CallsOf(t) != {} {
      var k :| k in CallsOf(t);
      CallInside(t, k);
    }
  }

  /** An accepted pattern has exactly one answer at every position of every subject, and the
    compiled code gives it. */
  lemma CompiledAnswers(t: Tree, b: nat, s: Subject, i: nat) returns (o: Outcome)
    requires Accepted(t, b) && i <= |s|
    ensures o != Stuck && Answers(Halt(Compile(t, b), s, Run(0, i, Base, [])), o)
    ensures forall fuel :: Parse([], t, s, i, fuel) == Stuck || Parse([], t, s, i, fuel) == o
    ensures exists fuel :: Parse([], t, s, i, fuel) == o
  {
    var enough := AcceptedTerminates(t, s, i, b);
    o := Parse([], t, s, i, enough);
    CompileCorrect(t, b, s, i, enough);
    forall fuel ensures Parse([], t, s, i, fuel) == Stuck || Parse([], t, s, i, fuel) == o {
      if Parse([], t, s, i, fuel) != Stuck {
        if fuel <= enough { ParseStable([], t, s, i, fuel, enough); } else { ParseStable([], t, s, i, enough, fuel); }
      }
    }
  }

  /** The source has no bound on the calls that the analyses follow, and needs none: when a pattern is
    accepted with a bound of at least `Budget`, all analyses that the checks and the compiler start end
    with that many calls, and the compiler does. Every bound accepts it and gives the same code. */
  lemma BoundNotFelt(t: Tree, b: nat, x: nat)
    requires Accepted(t, b) && PegBudget.Budget(t) <= b && PegBudget.Budget(t) <= x
    ensures Accepted(t, x) && Compile(t, x) == Compile(t, b)
    ensures PegEnding.ChecksEnd(t, x) && PegPasses.CompileEnds(t, x)
  {
    PegPasses.WellFormedStable([], t, b, x);
    PegBudget.LoopsStable([], {}, t, Depth(t), b, x);
    PegBudget.ChecksStable([], {}, t, Depth(t), b, x);
    PegBudget.CompileStable(t, b, x);
    PegBudget.ChecksEnded([], {}, t, Depth(t), b, x);
    PegBudget.CompileAnalyses(t, b, x);
    PegCompiler.SafeCompilable(t, x);
    PegPasses.AllDecided(Emit(t, x));
    PegPasses.CompilerEnds(t, x);
  }

  /** What a match tells its caller. */
  ghost predicate Tells(r: State, o: Outcome)
  {
    match o
    case Stuck => false
    case Fail => r == GaveUp
    case Ok(j, ev) => r.Done? && r.at == j && Events(r.caps) == ev
  }

  /** Compile a pattern and match it: when the compiler comes to an end and the pattern has an
    answer, the match ends and tells it. */
  method MatchPattern(t: Tree, b: nat, s: Subject, i: nat, ghost fuel: nat) returns (r: State)
    requires WellFormed([], t, b) && PegPasses.Limit(t) <= b
    requires PegEnding.AnalysesEnd([], t, b) && PegPasses.AllReach(Emit(t, b))
    requires i <= |s| && Parse([], t, s, i, fuel) != Stuck
    ensures Tells(r, Parse([], t, s, i, fuel))
  {
    var compiler := new PegCompiler.CompileState();
    compiler.CompilePattern(t, b);
    CompileCorrect(t, b, s, i, fuel);
    r := Match(compiler.code, s, i);
  }

  /** For an accepted pattern both always end. */
  method MatchAccepted(t: Tree, b: nat, s: Subject, i: nat) returns (r: State)
    requires Accepted(t, b) && PegBudget.Budget(t) <= b && i <= |s|
    ensures exists fuel :: Tells(r, Parse([], t, s, i, fuel))
  {
    PegBudget.CompileAnalyses(t, b, b);
    PegCompiler.SafeCompilable(t, b);
    PegPasses.AllDecided(Emit(t, b));
    ghost var fuel := AcceptedTerminates(t, s, i, b);
    r := MatchPattern(t, b, s, i, fuel);
  }
}
