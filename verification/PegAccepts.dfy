/** What the checks of `lptree.c` accept and reject, told without their traversals: by sub-patterns, and by
  the calls that are reached before anything is consumed. */
module PegAccepts {
  import opened FiniteSets
  import opened PegTree
  import opened PegAnalysis
  import opened PegVerify
  import opened PegEnding
  import opened PegCodegen
  import opened PegCorrect
  import opened Basics

  // ---- Sub-patterns ----------------------------------------------------------------------------

  /** A way from a pattern down to one inside it, which does not enter grammars. */
  ghost predicate Way(path: seq<Tree>)
  {
    path != [] && forall i :: 0 <= i < |path| - 1 ==> Child(path[i], path[i + 1])
  }

  ghost predicate Leads(path: seq<Tree>, t: Tree, q: Tree)
  {
    Way(path) && path[0] == t && path[|path| - 1] == q
  }

  ghost predicate Inside(t: Tree, q: Tree) { exists path :: Leads(path, t, q) }

  lemma InsideSelf(t: Tree)
    ensures Inside(t, t)
  {
    assert Leads([t], t, t);
  }

  lemma InsideDown(t: Tree, p: Tree, q: Tree)
    requires Child(t, p) && Inside(p, q)
    ensures Inside(t, q)
  {
    var path :| Leads(path, p, q);
    var longer := [t] + path;
    forall i | 0 <= i < |longer| - 1 ensures Child(longer[i], longer[i + 1]) {
      if i > 0 { assert Child(path[i - 1], path[i]); }
    }
    assert Leads(longer, t, q);
  }

  lemma InsideUp(t: Tree, q: Tree) returns (p: Tree)
    requires Inside(t, q) && t != q
    ensures Child(t, p) && Inside(p, q)
  {
    var path :| Leads(path, t, q);
    p := path[1];
    var rest := path[1..];
    forall i | 0 <= i < |rest| - 1 ensures Child(rest[i], rest[i + 1]) { assert Child(path[i + 1], path[i + 2]); }
    assert Leads(rest, p, q);
  }

  // ---- checkloops ------------------------------------------------------------------------------

  lemma {:induction false} LoopFound(g: Rules, t: Tree, b: nat) returns (p: Tree)
    requires CheckLoops(g, t, b)
    ensures Inside(t, Rep(p)) && Nullable(g, p, b)
    decreases t
  {
    match t
    case Rep(q) =>
      if Nullable(g, q, b) {
        p := q;
        InsideSelf(t);
      } else {
        p := LoopFound(g, q, b);
        InsideDown(t, q, Rep(p));
      }
    case Not(q) => p := LoopFound(g, q, b); InsideDown(t, q, Rep(p));
    case And(q) => p := LoopFound(g, q, b); InsideDown(t, q, Rep(p));
    case Behind(_, q) => p := LoopFound(g, q, b); InsideDown(t, q, Rep(p));
    case Capture(_, _, q) => p := LoopFound(g, q, b); InsideDown(t, q, Rep(p));
    case Seq(p1, p2) =>
      if CheckLoops(g, p1, b) { p := LoopFound(g, p1, b); InsideDown(t, p1, Rep(p)); }
      else { p := LoopFound(g, p2, b); InsideDown(t, p2, Rep(p)); }
    case Choice(p1, p2) =>
      if CheckLoops(g, p1, b) { p := LoopFound(g, p1, b); InsideDown(t, p1, Rep(p)); }
      else { p := LoopFound(g, p2, b); InsideDown(t, p2, Rep(p)); }
  }

  lemma {:induction false} LoopCaught(g: Rules, t: Tree, p: Tree, b: nat)
    requires Inside(t, Rep(p)) && Nullable(g, p, b)
    ensures CheckLoops(g, t, b)
    decreases t
  {
    if t != Rep(p) {
      var q := InsideUp(t, Rep(p));
      LoopCaught(g, q, p, b);
    }
  }

  /** `checkloops` finds a loop exactly if somewhere in the pattern, but not in its sub-grammars, a
    nullable pattern is repeated. */
  lemma LoopsExactly(g: Rules, t: Tree, b: nat)
    ensures CheckLoops(g, t, b) <==> exists p :: Inside(t, Rep(p)) && Nullable(g, p, b)
  {
    if CheckLoops(g, t, b) {
      var p := LoopFound(g, t, b);
    } else if p :| Inside(t, Rep(p)) && Nullable(g, p, b) {
      LoopCaught(g, t, p, b);
    }
  }

  // ---- Calls -----------------------------------------------------------------------------------

  lemma {:induction false} CallInside(t: Tree, k: nat)
    requires k in CallsOf(t)
    ensures Inside(t, Call(k))
    decreases t
  {
    match t
    case Call(_) => InsideSelf(t);
    case Rep(p) => CallInside(p, k); InsideDown(t, p, Call(k));
    case Not(p) => CallInside(p, k); InsideDown(t, p, Call(k));
    case And(p) => CallInside(p, k); InsideDown(t, p, Call(k));
    case Behind(_, p) => CallInside(p, k); InsideDown(t, p, Call(k));
    case Capture(_, _, p) => CallInside(p, k); InsideDown(t, p, Call(k));
    case Seq(p1, p2) =>
      if k in CallsOf(p1) { CallInside(p1, k); InsideDown(t, p1, Call(k)); }
      else { CallInside(p2, k); InsideDown(t, p2, Call(k)); }
    case Choice(p1, p2) =>
      if k in CallsOf(p1) { CallInside(p1, k); InsideDown(t, p1, Call(k)); }
      else { CallInside(p2, k); InsideDown(t, p2, Call(k)); }
  }

  lemma {:induction false} InsideCall(t: Tree, k: nat)
    requires Inside(t, Call(k))
    ensures k in CallsOf(t)
    decreases t
  {
    if t != Call(k) {
      var p := InsideUp(t, Call(k));
      InsideCall(p, k);
    }
  }

  lemma {:induction false} CallOfAll(rs: Rules, k: nat) returns (i: nat)
    requires k in CallsOfAll(rs)
    ensures i < |rs| && k in CallsOf(rs[i])
  {
    if k in CallsOf(rs[0]) {
      i := 0;
    } else {
      i := CallOfAll(rs[1..], k);
      i := i + 1;
    }
  }

  /** The rules that are checked are the first one and those that some rule calls. */
  lemma UsedExactly(rs: Rules, k: nat)
    ensures k in UsedRules(rs) <==> k == 0 || exists i :: 0 <= i < |rs| && Inside(rs[i], Call(k))
  {
    if k in UsedRules(rs) && k != 0 {
      var i := CallOfAll(rs, k);
      CallInside(rs[i], k);
    } else if i :| 0 <= i < |rs| && Inside(rs[i], Call(k)) {
      InsideCall(rs[i], k);
    }
  }

  // ---- Before anything is consumed -------------------------------------------------------------

  /** The pattern may be passed without consuming, as far as can be told without trying predicates and
    repetitions, which may; `n` calls are followed. */
  ghost predicate PassesIn(g: Rules, t: Tree, n: nat, b: nat)
    decreases n, t
  {
    match t
    case True => true
    case Rep(_) => true
    case Not(_) => true
    case And(_) => true
    case Behind(_, _) => true
    case Capture(_, _, p) => PassesIn(g, p, n, b)
    case Seq(p1, p2) => PassesIn(g, p1, n, b) && PassesIn(g, p2, n, b)
    case Choice(p1, p2) => PassesIn(g, p1, n, b) || PassesIn(g, p2, n, b)
    case Call(k) => k < |g| && n > 0 && PassesIn(g, g[k], n - 1, b)
    case Grammar(_) => Nullable(g, t, b)
    case _ => false
  }

  ghost predicate MayPass(g: Rules, t: Tree, b: nat) { exists n: nat :: PassesIn(g, t, n, b) }

  /** A call of rule `k` is reached before anything is consumed. */
  ghost predicate Ahead(g: Rules, t: Tree, k: nat, b: nat)
    decreases t
  {
    match t
    case Call(j) => j == k
    case Rep(p) => Ahead(g, p, k, b)
    case Not(p) => Ahead(g, p, k, b)
    case And(p) => Ahead(g, p, k, b)
    case Capture(_, _, p) => Ahead(g, p, k, b)
    case Seq(p1, p2) => Ahead(g, p1, k, b) || (MayPass(g, p1, b) && Ahead(g, p2, k, b))
    case Choice(p1, p2) => Ahead(g, p1, k, b) || Ahead(g, p2, k, b)
    case _ => false
  }

  /** `m` rules can be entered one from the other before anything is consumed. */
  ghost predicate Chain(g: Rules, t: Tree, m: nat, b: nat)
    decreases m
  {
    m == 0 || exists k :: 0 <= k < |g| && Ahead(g, t, k, b) && Chain(g, g[k], m - 1, b)
  }

  lemma {:induction false} PassesMore(g: Rules, t: Tree, n: nat, m: nat, b: nat)
    requires PassesIn(g, t, n, b) && n <= m
    ensures PassesIn(g, t, m, b)
    decreases n, t
  {
    match t
    case Capture(_, _, p) => PassesMore(g, p, n, m, b);
    case Seq(p1, p2) => PassesMore(g, p1, n, m, b); PassesMore(g, p2, n, m, b);
    case Choice(p1, p2) =>
      if PassesIn(g, p1, n, b) { PassesMore(g, p1, n, m, b); } else { PassesMore(g, p2, n, m, b); }
    case Call(k) => PassesMore(g, g[k], n - 1, m - 1, b);
    case _ =>
  }

  /** The verdict of the corrected check is whether the pattern may be passed. */
  lemma {:induction false} VerdictPasses(g: Rules, t: Tree, left: nat, nb: bool, b: nat)
    requires VerifyKept(g, t, left, nb, b) == Passes(true) && !nb
    ensures PassesIn(g, t, left, b)
    decreases left, t
  {
    match t
    case Capture(_, _, p) => VerdictPasses(g, p, left, nb, b);
    case Seq(p1, p2) => VerdictPasses(g, p1, left, false, b); VerdictPasses(g, p2, left, nb, b);
    case Choice(p1, p2) =>
      if VerifyKept(g, p1, left, nb, b) == Passes(true) {
        VerdictPasses(g, p1, left, nb, b);
      } else {
        VerdictPasses(g, p2, left, false, b);
      }
    case Call(k) => VerdictPasses(g, g[k], left - 1, nb, b);
    case _ =>
  }

  lemma {:induction false} PassesVerdict(g: Rules, t: Tree, left: nat, nb: bool, b: nat, n: nat)
    requires VerifyKept(g, t, left, nb, b).Passes? && (nb || PassesIn(g, t, n, b))
    ensures VerifyKept(g, t, left, nb, b) == Passes(true)
    decreases left, t
  {
    KeptNb(g, t, left, b);
    if !nb {
      match t
      case Capture(_, _, p) => PassesVerdict(g, p, left, nb, b, n);
      case Seq(p1, p2) => PassesVerdict(g, p1, left, false, b, n); PassesVerdict(g, p2, left, nb, b, n);
      case Choice(p1, p2) =>
        KeptNb(g, p2, left, b);
        if PassesIn(g, p1, n, b) {
          PassesVerdict(g, p1, left, nb, b, n);
        } else {
          PassesVerdict(g, p2, left, VerifyKept(g, p1, left, nb, b).nb, b, n);
        }
      case Call(k) => PassesVerdict(g, g[k], left - 1, nb, b, n - 1);
      case Not(p) => KeptNb(g, p, left, b);
      case And(p) => KeptNb(g, p, left, b);
      case Rep(p) => KeptNb(g, p, left, b);
      case _ =>
    }
  }

  lemma ChainVia(g: Rules, t: Tree, p: Tree, m: nat, b: nat)
    requires m > 0 && Chain(g, p, m, b) && forall k :: Ahead(g, p, k, b) ==> Ahead(g, t, k, b)
    ensures Chain(g, t, m, b)
  {
  }

  /** What is rejected has a chain of rules longer than the limit. */
  lemma {:induction false} RejectedChain(g: Rules, t: Tree, left: nat, nb: bool, b: nat)
    requires VerifyKept(g, t, left, nb, b) == Rejected
    ensures Chain(g, t, left + 1, b)
    decreases left, t
  {
    match t
    case Rep(p) => RejectedChain(g, p, left, true, b); ChainVia(g, t, p, left + 1, b);
    case Not(p) => RejectedChain(g, p, left, true, b); ChainVia(g, t, p, left + 1, b);
    case And(p) => RejectedChain(g, p, left, true, b); ChainVia(g, t, p, left + 1, b);
    case Capture(_, _, p) => RejectedChain(g, p, left, nb, b); ChainVia(g, t, p, left + 1, b);
    case Seq(p1, p2) =>
      if VerifyKept(g, p1, left, false, b) == Rejected {
        RejectedChain(g, p1, left, false, b);
        ChainVia(g, t, p1, left + 1, b);
      } else {
        VerdictPasses(g, p1, left, false, b);
        assert MayPass(g, p1, b);
        RejectedChain(g, p2, left, nb, b);
        ChainVia(g, t, p2, left + 1, b);
      }
    case Choice(p1, p2) =>
      if VerifyKept(g, p1, left, nb, b) == Rejected {
        RejectedChain(g, p1, left, nb, b);
        ChainVia(g, t, p1, left + 1, b);
      } else {
        RejectedChain(g, p2, left, VerifyKept(g, p1, left, nb, b).nb, b);
        ChainVia(g, t, p2, left + 1, b);
      }
    case Call(k) =>
      if left > 0 { RejectedChain(g, g[k], left - 1, nb, b); }
      assert Ahead(g, t, k, b) && Chain(g, g[k], left, b);
  }

  lemma {:induction false} ChainRejected(g: Rules, t: Tree, left: nat, nb: bool, k: nat, b: nat)
    requires k < |g| && Ahead(g, t, k, b) && Chain(g, g[k], left, b)
    ensures VerifyKept(g, t, left, nb, b) == Rejected
    decreases left, t
  {
    match t
    case Rep(p) => ChainRejected(g, p, left, true, k, b);
    case Not(p) => ChainRejected(g, p, left, true, k, b);
    case And(p) => ChainRejected(g, p, left, true, k, b);
    case Capture(_, _, p) => ChainRejected(g, p, left, nb, k, b);
    case Seq(p1, p2) =>
      if Ahead(g, p1, k, b) {
        ChainRejected(g, p1, left, false, k, b);
      } else if VerifyKept(g, p1, left, false, b).Passes? {
        var n: nat :| PassesIn(g, p1, n, b);
        PassesVerdict(g, p1, left, false, b, n);
        ChainRejected(g, p2, left, nb, k, b);
      }
    case Choice(p1, p2) =>
      if Ahead(g, p1, k, b) {
        ChainRejected(g, p1, left, nb, k, b);
      } else if VerifyKept(g, p1, left, nb, b).Passes? {
        ChainRejected(g, p2, left, VerifyKept(g, p1, left, nb, b).nb, k, b);
      }
    case Call(_) =>
      if left > 0 {
        var j :| 0 <= j < |g| && Ahead(g, g[k], j, b) && Chain(g, g[j], left - 1, b);
        ChainRejected(g, g[k], left - 1, nb, j, b);
      }
  }

  /** The corrected check rejects a pattern exactly if more rules than the limit can be entered one from
    the other before anything is consumed; else its verdict is whether the pattern may be passed. */
  lemma KeptExactly(g: Rules, t: Tree, left: nat, nb: bool, b: nat)
    ensures VerifyKept(g, t, left, nb, b) == Rejected <==> Chain(g, t, left + 1, b)
    ensures VerifyKept(g, t, left, nb, b).Passes? ==> (VerifyKept(g, t, left, nb, b).nb <==> nb || MayPass(g, t, b))
  {
    if VerifyKept(g, t, left, nb, b) == Rejected {
      RejectedChain(g, t, left, nb, b);
    } else {
      if Chain(g, t, left + 1, b) {
        var k :| 0 <= k < |g| && Ahead(g, t, k, b) && Chain(g, g[k], left, b);
        ChainRejected(g, t, left, nb, k, b);
      }
      if nb {
        PassesVerdict(g, t, left, nb, b, 0);
      } else if VerifyKept(g, t, left, nb, b).nb {
        VerdictPasses(g, t, left, nb, b);
      } else if n: nat :| PassesIn(g, t, n, b) {
        PassesVerdict(g, t, left, nb, b, n);
      }
    }
  }

  /** And `verifyrule` rejects only such a pattern. */
  lemma RejectedOnlyIf(g: Rules, t: Tree, left: nat, nb: bool, b: nat)
    requires VerifyRule(g, t, left, nb, b) == Rejected
    ensures Chain(g, t, left + 1, b)
  {
    KeptPasses(g, t, left, nb, b);
    KeptExactly(g, t, left, nb, b);
  }

  // ---- Left recursion ----------------------------------------------------------------------------

  /** Each rule of the list is entered from the one before it, before anything is consumed. */
  ghost predicate Entered(g: Rules, ks: seq<nat>, b: nat)
  {
    && (forall i :: 0 <= i < |ks| ==> ks[i] < |g|)
    && forall i :: 0 <= i < |ks| - 1 ==> Ahead(g, g[ks[i]], ks[i + 1], b)
  }

  /** Rule `k` comes back to itself before anything is consumed. */
  ghost predicate LeftRecursive(g: Rules, k: nat, b: nat)
  {
    exists ks :: |ks| > 1 && Entered(g, ks, b) && ks[0] == ks[|ks| - 1] == k
  }

  lemma {:induction false} ChainList(g: Rules, k: nat, m: nat, b: nat) returns (ks: seq<nat>)
    requires k < |g| && Chain(g, g[k], m, b)
    ensures |ks| == m + 1 && Entered(g, ks, b) && ks[0] == k
    decreases m
  {
    if m == 0 {
      ks := [k];
    } else {
      var j :| 0 <= j < |g| && Ahead(g, g[k], j, b) && Chain(g, g[j], m - 1, b);
      var rest := ChainList(g, j, m - 1, b);
      ks := [k] + rest;
      forall i | 0 <= i < |ks| - 1 ensures Ahead(g, g[ks[i]], ks[i + 1], b) {
        if i > 0 { assert Ahead(g, g[rest[i - 1]], rest[i], b); }
      }
    }
  }

  lemma {:induction false} ListChain(g: Rules, ks: seq<nat>, b: nat)
    requires ks != [] && Entered(g, ks, b)
    ensures Chain(g, g[ks[0]], |ks| - 1, b)
    decreases |ks|
  {
    if |ks| > 1 {
      assert Entered(g, ks[1..], b);
      ListChain(g, ks[1..], b);
      assert Ahead(g, g[ks[0]], ks[1], b);
    }
  }

  /** In a chain of more rules than there are some rule comes twice. */
  lemma TwiceInChain(g: Rules, ks: seq<nat>, b: nat) returns (i: nat, j: nat)
    requires Entered(g, ks, b) && |ks| > |g|
    ensures i < j < |ks| && ks[i] == ks[j] && LeftRecursive(g, ks[i], b)
  {
    ElementsSize(ks);
    SubsetSize(Elements(ks), Below(|g|));
    i, j :| 0 <= i < j < |ks| && ks[i] == ks[j];
    var loop := ks[i..j + 1];
    assert Entered(g, loop, b);
    assert loop[0] == loop[|loop| - 1] == ks[i];
  }

  /** A loop can be gone through as often as one likes. */
  lemma {:induction false} RoundAndRound(g: Rules, loop: seq<nat>, n: nat, b: nat) returns (ks: seq<nat>)
    requires |loop| > 1 && Entered(g, loop, b) && loop[0] == loop[|loop| - 1]
    ensures |ks| > n && Entered(g, ks, b) && ks[0] == loop[0]
    decreases n
  {
    if n == 0 {
      ks := loop;
    } else {
      var rest := RoundAndRound(g, loop, n - 1, b);
      ks := loop + rest[1..];
      forall i | 0 <= i < |ks| - 1 ensures Ahead(g, g[ks[i]], ks[i + 1], b) {
        if i < |loop| - 1 {
          assert Ahead(g, g[loop[i]], loop[i + 1], b);
        } else {
          var r := i - (|loop| - 1);
          assert ks[i] == rest[r] && ks[i + 1] == rest[r + 1];
        }
      }
    }
  }

  lemma {:induction false} ChainLess(g: Rules, t: Tree, m: nat, n: nat, b: nat)
    requires Chain(g, t, m, b) && n <= m
    ensures Chain(g, t, n, b)
    decreases n
  {
    if n > 0 {
      var k :| 0 <= k < |g| && Ahead(g, t, k, b) && Chain(g, g[k], m - 1, b);
      ChainLess(g, g[k], m - 1, n - 1, b);
    }
  }

  lemma LoopChain(g: Rules, k: nat, m: nat, b: nat)
    requires k < |g| && LeftRecursive(g, k, b)
    ensures Chain(g, g[k], m, b)
  {
    var loop :| |loop| > 1 && Entered(g, loop, b) && loop[0] == loop[|loop| - 1] == k;
    var ks := RoundAndRound(g, loop, m, b);
    ListChain(g, ks, b);
    ChainLess(g, g[k], |ks| - 1, m, b);
  }

  // ---- Grammars ----------------------------------------------------------------------------------

  /** What a grammar should be: calls name rules, no rule that is used comes back to itself before anything is
    consumed, and none repeats a nullable pattern. */
  ghost predicate Sound(rs: Rules, b: nat)
  {
    forall k :: k in UsedRules(rs) ==>
      && k < |rs| && !LeftRecursive(rs, k, b)
      && forall p :: Inside(rs[k], Rep(p)) ==> !Nullable(rs, p, b)
  }

  lemma {:induction false} AheadCalled(g: Rules, t: Tree, k: nat, b: nat)
    requires Ahead(g, t, k, b)
    ensures k in CallsOf(t)
    decreases t
  {
    match t
    case Call(_) =>
    case Rep(p) => AheadCalled(g, p, k, b);
    case Not(p) => AheadCalled(g, p, k, b);
    case And(p) => AheadCalled(g, p, k, b);
    case Capture(_, _, p) => AheadCalled(g, p, k, b);
    case Seq(p1, p2) => if Ahead(g, p1, k, b) { AheadCalled(g, p1, k, b); } else { AheadCalled(g, p2, k, b); }
    case Choice(p1, p2) => if Ahead(g, p1, k, b) { AheadCalled(g, p1, k, b); } else { AheadCalled(g, p2, k, b); }
  }

  lemma {:induction false} EnteredUsed(rs: Rules, ks: seq<nat>, i: nat, b: nat)
    requires Entered(rs, ks, b) && i < |ks| && ks[0] in UsedRules(rs)
    ensures ks[i] in UsedRules(rs)
    decreases i
  {
    if i > 0 {
      EnteredUsed(rs, ks, i - 1, b);
      AheadCalled(rs, rs[ks[i - 1]], ks[i], b);
    }
  }

  /** A rule is rejected by the corrected check exactly if it leads to a rule that comes back to itself. */
  lemma RuleExactly(rs: Rules, k: nat, b: nat)
    requires k in UsedRules(rs) && k < |rs| <= MAXRULES
    ensures VerifyKept(rs, rs[k], MAXRULES, false, b) == Rejected ==>
      exists j :: j in UsedRules(rs) && LeftRecursive(rs, j, b)
    ensures LeftRecursive(rs, k, b) ==> VerifyKept(rs, rs[k], MAXRULES, false, b) == Rejected
  {
    KeptExactly(rs, rs[k], MAXRULES, false, b);
    if VerifyKept(rs, rs[k], MAXRULES, false, b) == Rejected {
      var ks := ChainList(rs, k, MAXRULES + 1, b);
      var i, j := TwiceInChain(rs, ks, b);
      EnteredUsed(rs, ks, i, b);
    }
    if LeftRecursive(rs, k, b) { LoopChain(rs, k, MAXRULES + 1, b); }
  }

  /** `verifygrammar` with the corrected check. */
  ghost predicate VerifyGrammarKept(rs: Rules, b: nat)
  {
    forall k :: k in UsedRules(rs) ==>
      k < |rs| && VerifyKept(rs, rs[k], MAXRULES, false, b).Passes? && !CheckLoops(rs, rs[k], b)
  }

  /** With the corrected check `verifygrammar` accepts exactly the grammars that are as they should be. */
  lemma GrammarExactly(rs: Rules, b: nat)
    requires |rs| <= 250
    ensures VerifyGrammarKept(rs, b) <==> Sound(rs, b)
  {
    forall k | k in UsedRules(rs) && k < |rs|
      ensures !CheckLoops(rs, rs[k], b) <==> forall p :: Inside(rs[k], Rep(p)) ==> !Nullable(rs, p, b)
      ensures VerifyKept(rs, rs[k], MAXRULES, false, b) == Rejected ==>
        exists j :: j in UsedRules(rs) && LeftRecursive(rs, j, b)
      ensures LeftRecursive(rs, k, b) ==> VerifyKept(rs, rs[k], MAXRULES, false, b) == Rejected
    {
      LoopsExactly(rs, rs[k], b);
      RuleExactly(rs, k, b);
    }
  }

  /** `verifygrammar` accepts them, too. */
  lemma GrammarAccepted(rs: Rules, b: nat)
    requires |rs| <= 250 && Sound(rs, b)
    ensures VerifyGrammar(rs, b)
  {
    GrammarExactly(rs, b);
    forall k | k in UsedRules(rs) ensures VerifyRule(rs, rs[k], MAXRULES, false, b).Passes? {
      KeptPasses(rs, rs[k], MAXRULES, false, b);
    }
  }

  // ---- Patterns ----------------------------------------------------------------------------------

  /** A way down that enters grammars. */
  ghost predicate DeepWay(path: seq<Tree>)
  {
    path != [] && forall i :: 0 <= i < |path| - 1 ==> Part(path[i], path[i + 1])
  }

  ghost predicate Part(t: Tree, p: Tree) { Child(t, p) || (t.Grammar? && p in t.rules) }

  ghost predicate Within(t: Tree, q: Tree) { exists path :: DeepWay(path) && path[0] == t && path[|path| - 1] == q }

  lemma WithinSelf(t: Tree)
    ensures Within(t, t)
  {
    assert DeepWay([t]);
  }

  lemma WithinDown(t: Tree, p: Tree, q: Tree)
    requires Part(t, p) && Within(p, q)
    ensures Within(t, q)
  {
    var path :| DeepWay(path) && path[0] == p && path[|path| - 1] == q;
    var longer := [t] + path;
    forall i | 0 <= i < |longer| - 1 ensures Part(longer[i], longer[i + 1]) {
      if i > 0 { assert Part(path[i - 1], path[i]); }
    }
    assert DeepWay(longer);
  }

  lemma WithinUp(t: Tree, q: Tree) returns (p: Tree)
    requires Within(t, q) && t != q
    ensures Part(t, p) && Within(p, q) && p < t
  {
    var path :| DeepWay(path) && path[0] == t && path[|path| - 1] == q;
    p := path[1];
    assert Part(path[0], path[1]);
    var rest := path[1..];
    forall i | 0 <= i < |rest| - 1 ensures Part(rest[i], rest[i + 1]) { assert Part(path[i + 1], path[i + 2]); }
    assert DeepWay(rest);
  }

  /** All sub-grammars have passed `verifygrammar` exactly if each did. */
  lemma {:induction false} VerifiedExactly(t: Tree, b: nat)
    ensures Verified(t, b) <==> forall rs :: Within(t, Grammar(rs)) ==> VerifyGrammar(rs, b)
    decreases t
  {
    forall p | Part(t, p)
      ensures Verified(p, b) <==> forall rs :: Within(p, Grammar(rs)) ==> VerifyGrammar(rs, b)
      ensures forall rs :: Within(p, Grammar(rs)) ==> Within(t, Grammar(rs))
    {
      PartSmaller(t, p);
      VerifiedExactly(p, b);
      forall rs | Within(p, Grammar(rs)) ensures Within(t, Grammar(rs)) { WithinDown(t, p, Grammar(rs)); }
    }
    assert Verified(t, b) <==>
      (t.Grammar? ==> VerifyGrammar(t.rules, b)) && forall p :: Part(t, p) ==> Verified(p, b) by {
      VerifiedParts(t, b);
    }
    if t.Grammar? { WithinSelf(t); }
    if Verified(t, b) {
      forall rs | Within(t, Grammar(rs)) ensures VerifyGrammar(rs, b) {
        if t != Grammar(rs) { var p := WithinUp(t, Grammar(rs)); }
      }
    }
  }

  lemma PartSmaller(t: Tree, p: Tree)
    requires Part(t, p)
    ensures p < t
  {
  }

  lemma VerifiedParts(t: Tree, b: nat)
    ensures Verified(t, b) <==>
      (t.Grammar? ==> VerifyGrammar(t.rules, b)) && forall p :: Part(t, p) ==> Verified(p, b)
  {
    match t
    case Seq(p1, p2) => assert Part(t, p1) && Part(t, p2);
    case Choice(p1, p2) => assert Part(t, p1) && Part(t, p2);
    case Grammar(rs) => assert forall k :: 0 <= k < |rs| ==> Part(t, rs[k]);
    case Rep(p) => assert Part(t, p);
    case Not(p) => assert Part(t, p);
    case And(p) => assert Part(t, p);
    case Behind(_, p) => assert Part(t, p);
    case Capture(_, _, p) => assert Part(t, p);
    case _ =>
  }

  /** The part of `Safe` that is about one node. */
  ghost predicate SafeNode(t: Tree, b: nat)
  {
    && (t.Behind? ==> CallsOf(t.p) == {})
    && (t.Grammar? ==> forall k :: k in UsedRules(t.rules) && k < |t.rules| ==>
          VerifyKept(t.rules, t.rules[k], MAXRULES, false, b).Passes?)
  }

  lemma SafeParts(t: Tree, b: nat)
    ensures Safe(t, b) <==> SafeNode(t, b) && forall p :: Part(t, p) ==> Safe(p, b)
  {
    match t
    case Seq(p1, p2) => assert Part(t, p1) && Part(t, p2);
    case Choice(p1, p2) => assert Part(t, p1) && Part(t, p2);
    case Grammar(rs) => assert forall k :: 0 <= k < |rs| ==> Part(t, rs[k]);
    case Rep(p) => assert Part(t, p);
    case Not(p) => assert Part(t, p);
    case And(p) => assert Part(t, p);
    case Behind(_, p) => assert Part(t, p);
    case Capture(_, _, p) => assert Part(t, p);
    case _ =>
  }

  lemma {:induction false} SafeExactly(t: Tree, b: nat)
    ensures Safe(t, b) <==> forall q :: Within(t, q) ==> SafeNode(q, b)
    decreases t
  {
    forall p | Part(t, p)
      ensures Safe(p, b) <==> forall q :: Within(p, q) ==> SafeNode(q, b)
      ensures forall q :: Within(p, q) ==> Within(t, q)
    {
      PartSmaller(t, p);
      SafeExactly(p, b);
      forall q | Within(p, q) ensures Within(t, q) { WithinDown(t, p, q); }
    }
    SafeParts(t, b);
    WithinSelf(t);
    if Safe(t, b) {
      forall q | Within(t, q) ensures SafeNode(q, b) {
        if t != q { var p := WithinUp(t, q); }
      }
    }
  }

  /** The calls in the pattern are of one of the first `n` rules. */
  ghost predicate CallsFit(t: Tree, n: nat) { forall k: nat :: Inside(t, Call(k)) ==> k < n }

  lemma CallsFitParts(t: Tree, n: nat)
    ensures CallsFit(t, n) <==> (t.Call? ==> t.rule < n) && forall p :: Child(t, p) ==> CallsFit(p, n)
  {
    if CallsFit(t, n) {
      if t.Call? { InsideSelf(t); }
      forall p, k: nat | Child(t, p) && Inside(p, Call(k)) ensures k < n { InsideDown(t, p, Call(k)); }
    } else {
      var k: nat :| Inside(t, Call(k)) && k >= n;
      if t != Call(k) { var p := InsideUp(t, Call(k)); }
    }
  }

  /** What the constructors ask of one node: a grammar has an initial rule and its calls name rules; a
    look-behind has a length and no captures. */
  ghost predicate GoodNode(t: Tree, b: nat)
  {
    && (t.Behind? ==> t.n == OpenLen(t.p, b) && t.n <= MAXBEHIND && !OpenCaptures(t.p, b))
    && (t.Grammar? ==> t.rules != [] && forall i :: 0 <= i < |t.rules| ==> CallsFit(t.rules[i], |t.rules|))
  }

  ghost predicate GoodBelow(t: Tree, b: nat) { forall q :: Within(t, q) ==> GoodNode(q, b) }

  lemma GoodParts(t: Tree, b: nat)
    ensures GoodBelow(t, b) <==> GoodNode(t, b) && forall p :: Part(t, p) ==> GoodBelow(p, b)
  {
    if GoodBelow(t, b) {
      WithinSelf(t);
      forall p, q | Part(t, p) && Within(p, q) ensures GoodNode(q, b) { WithinDown(t, p, q); }
    } else {
      var q :| Within(t, q) && !GoodNode(q, b);
      if t != q { var p := WithinUp(t, q); }
    }
  }

  lemma WellFormedParts(g: Rules, t: Tree, b: nat)
    ensures WellFormed(g, t, b) <==>
      && (t.Call? ==> t.rule < |g|)
      && (t.Behind? ==> t.n == OpenLen(t.p, b) && t.n <= MAXBEHIND && !OpenCaptures(t.p, b))
      && (t.Grammar? ==> t.rules != [] && forall k :: 0 <= k < |t.rules| ==> WellFormed(t.rules, t.rules[k], b))
      && forall p :: Child(t, p) ==> WellFormed(g, p, b)
  {
    match t
    case Seq(p1, p2) => assert Child(t, p1) && Child(t, p2);
    case Choice(p1, p2) => assert Child(t, p1) && Child(t, p2);
    case Rep(p) => assert Child(t, p);
    case Not(p) => assert Child(t, p);
    case And(p) => assert Child(t, p);
    case Behind(_, p) => assert Child(t, p);
    case Capture(_, _, p) => assert Child(t, p);
    case _ =>
  }

  /** A pattern is well formed exactly if its calls name rules and every node inside is as the
    constructors ask. */
  lemma {:induction false} WellFormedExactly(g: Rules, t: Tree, b: nat)
    ensures WellFormed(g, t, b) <==> CallsFit(t, |g|) && forall q :: Within(t, q) ==> GoodNode(q, b)
    decreases t
  {
    WellFormedParts(g, t, b);
    CallsFitParts(t, |g|);
    GoodParts(t, b);
    forall p | Child(t, p) ensures WellFormed(g, p, b) <==> CallsFit(p, |g|) && GoodBelow(p, b) {
      assert Part(t, p);
      PartSmaller(t, p);
      WellFormedExactly(g, p, b);
    }
    if t.Grammar? {
      var rs := t.rules;
      forall k | 0 <= k < |rs| ensures WellFormed(rs, rs[k], b) <==> CallsFit(rs[k], |rs|) && GoodBelow(rs[k], b) {
        WellFormedExactly(rs, rs[k], b);
      }
      assert forall k :: 0 <= k < |rs| ==> Part(t, rs[k]);
    }
  }
}
