/** When the compiler ends: exactly when the analyses that code generation starts do, and no chain of
  jumps in the generated code is endless, which the passes `correctcalls` and `peephole` follow. */
module PegPasses {
  import opened Basics
  import opened PegTree
  import opened PegAnalysis
  import opened PegVm
  import opened PegCodegen
  import opened PegShapes
  import opened PegGrammar
  import opened PegCorrect
  import opened PegPeephole
  import opened PegSettle
  import opened PegEnding

  /** No chain of jumps is endless. */
  ghost predicate AllSettle(code: Code) { forall x :: Settles(code, x) }

  /** The rules of a grammar with their calls corrected. */
  ghost function CorrectedRules(rs: Rules, b: nat): Code
  {
    CorrectCalls(Flatten(RuleCodes(rs, b)), Positions(RuleCodes(rs, b), 0), 0)
  }

  /** What `correctcalls` follows behind the call at `i` ends. */
  ghost predicate CallEnds(body: Code, f: Code, i: int) { 0 <= i < |body| && body[i].IOpenCall? ==> Settles(f, i + 2) }

  /** What `correctcalls` follows ends, in all grammars that code is generated for. */
  ghost predicate CallsEnd(g: Rules, t: Tree, b: nat)
    decreases t
  {
    match t
    case Grammar(rs) =>
      && (forall i :: CallEnds(Flatten(RuleCodes(rs, b)), CorrectedRules(rs, b), i))
      && forall k :: 0 <= k < |rs| ==> CallsEnd(rs, rs[k], b)
    case Rep(p) => CallsEnd(g, p, b)
    case Not(p) => HeadFail(g, p, b) || CallsEnd(g, p, b)
    case And(p) => CallsEnd(g, p, b)
    case Behind(_, p) => CallsEnd(g, p, b)
    case Capture(_, _, p) => CallsEnd(g, p, b)
    case Seq(p1, p2) => CallsEnd(g, p1, b) && CallsEnd(g, p2, b)
    case Choice(p1, p2) => CallsEnd(g, p1, b) && CallsEnd(g, p2, b)
    case _ => true
  }

  lemma {:induction false} FinalReached(code: Code, x: int, n: nat)
    ensures !IsJump(code, FinalTarget(code, x, n)) ==> Settles(code, x)
    decreases n
  {
    if n == 0 || !IsJump(code, x) {
      if !IsJump(code, x) { SettlesNow(code, x); }
    } else {
      var y := x + code[x].offset;
      FinalReached(code, y, n - 1);
      if Settles(code, y) { SettlesNext(code, x, y); }
    }
  }

  /** A chain of jumps ends exactly when it has ended after as many jumps as there are elements. */
  lemma FinalDecides(code: Code, x: int)
    ensures Settles(code, x) <==> !IsJump(code, Final(code, x))
  {
    if Settles(code, x) { FinalSettles(code, x); }
    FinalReached(code, x, |code|);
  }

  /** Before all calls are corrected there are only fewer jumps. */
  lemma {:induction false} KeptChain(code: Code, f: Code, x: int, y: int, m: nat)
    requires Kept(code, f) && Jumps(f, x, y, m) && !IsJump(f, y)
    ensures Settles(code, x)
    decreases m
  {
    if !IsJump(code, x) {
      SettlesNow(code, x);
    } else {
      KeptChain(code, f, x + f[x].offset, y, m - 1);
      SettlesNext(code, x, x + code[x].offset);
    }
  }

  lemma KeptSettles(code: Code, f: Code, x: int)
    requires Kept(code, f) && Settles(f, x)
    ensures Settles(code, x)
  {
    var y :| SettlesAt(f, x, y);
    var m: nat :| Jumps(f, x, y, m);
    KeptChain(code, f, x, y, m);
  }

  /** The corrected rules of a grammar are code for each of them. */
  lemma BodyFits(g: Rules, c: Ctx)
    requires WellFormed(g, Grammar(c.g), c.b)
    requires c.code == CorrectedRules(c.g, c.b) && c.pos == Positions(RuleCodes(c.g, c.b), 0)
    ensures CtxOk(c)
  {
    var codes := RuleCodes(c.g, c.b);
    forall k ensures RuleOk(c, k) {
      if 0 <= k < |c.g| { RuleStands(c, codes, k); }
    }
  }

  lemma RegionAll(f: Code)
    requires Region(f, 0, |f|)
    ensures AllSettle(f)
  {
    forall x ensures Settles(f, x) {
      if 0 <= x < |f| { InRegion(f, 0, |f|, x); } else { SettlesNow(f, x); }
    }
  }

  /** The rules stand at their positions in the corrected code. */
  lemma RuleStands(c: Ctx, codes: seq<Code>, k: nat)
    requires k < |codes| && c.pos == Positions(codes, 0)
             && c.code == CorrectCalls(Flatten(codes), Positions(codes, 0), 0)
    ensures k < |c.pos| && Fits(c, c.pos[k], codes[k])
  {
    PositionsBound(codes, 0, k);
    forall x ensures HoldsAt(c, c.pos[k], codes[k], x) {
      if 0 <= x < |codes[k]| { RuleFitsAt(c, 0, codes, k, x); }
    }
  }

  // ---- Rewriting keeps the chains finite ---------------------------------------------------

  /** Every jump of the new code is a jump of the old one, or leads to a place that is no jump. */
  ghost predicate Shorter(code: Code, new_: Code)
  {
    forall x :: IsJump(new_, x) ==> IsJump(code, x) && (new_[x] == code[x] || !IsJump(new_, x + new_[x].offset))
  }

  lemma {:induction false} ShorterChain(code: Code, new_: Code, x: int, y: int, m: nat)
    requires Shorter(code, new_) && Jumps(code, x, y, m) && !IsJump(code, y)
    ensures Settles(new_, x)
    decreases m
  {
    if !IsJump(new_, x) {
      SettlesNow(new_, x);
    } else if !IsJump(new_, x + new_[x].offset) {
      SettlesNow(new_, x + new_[x].offset);
      SettlesNext(new_, x, x + new_[x].offset);
    } else {
      ShorterChain(code, new_, x + code[x].offset, y, m - 1);
      SettlesNext(new_, x, x + new_[x].offset);
    }
  }

  lemma ShorterSettles(code: Code, new_: Code)
    requires Shorter(code, new_) && AllSettle(code)
    ensures AllSettle(new_)
  {
    forall x ensures Settles(new_, x) {
      assert Settles(code, x);
      var y :| SettlesAt(code, x, y);
      var m: nat :| Jumps(code, x, y, m);
      ShorterChain(code, new_, x, y, m);
    }
  }

  lemma PeepAtSettles(code: Code, i: nat)
    requires i < |code| && AllSettle(code)
    ensures AllSettle(PeepAt(code, i))
  {
    if code[i].IJmp? {
      assert Settles(code, i);
      FinalSettles(code, i);
    }
    ShorterSettles(code, PeepAt(code, i));
  }

  ghost predicate Reaches(code: Code, x: int) { !IsJump(code, Final(code, x)) }

  /** From every element the jumps lead to something that is no jump, within as many jumps as there are
    elements. */
  ghost predicate AllReach(code: Code) { forall x :: Reaches(code, x) }

  // ---- The passes, as far as `fuel` lets them go -------------------------------------------

  /** The loop of `finaltarget`: where it ends, if that is after at most `fuel` rounds. */
  function FinalIn(code: Code, x: int, fuel: nat): Option<int>
    decreases fuel
  {
    if !IsJump(code, x) then Some(x)
    else if fuel == 0 then None
    else FinalIn(code, x + code[x].offset, fuel - 1)
  }

  lemma {:induction false} FinalInReached(code: Code, x: int, fuel: nat)
    requires FinalIn(code, x, fuel).Some?
    ensures var y := FinalIn(code, x, fuel).value; JumpsTo(code, x, y) && !IsJump(code, y)
    decreases fuel
  {
    if IsJump(code, x) {
      var next := x + code[x].offset;
      FinalInReached(code, next, fuel - 1);
      var y := FinalIn(code, x, fuel).value;
      var m: nat :| Jumps(code, next, y, m);
      assert Jumps(code, x, y, m + 1);
    } else {
      assert Jumps(code, x, x, 0);
    }
  }

  lemma {:induction false} FinalInEnough(code: Code, x: int, y: int, m: nat, fuel: nat)
    requires Jumps(code, x, y, m) && !IsJump(code, y) && m <= fuel
    ensures FinalIn(code, x, fuel) == Some(y)
    decreases m
  {
    if m > 0 { FinalInEnough(code, x + code[x].offset, y, m - 1, fuel - 1); }
  }

  /** As many rounds as the code has elements are enough for a chain that ends. */
  lemma FinalInSome(code: Code, x: int, fuel: nat)
    requires Settles(code, x) && fuel >= |code|
    ensures FinalIn(code, x, fuel) == Some(Final(code, x))
  {
    var y, m := ShortChain(code, x);
    FinalInEnough(code, x, y, m, fuel);
    FinalOf(code, x, y, m, |code|);
  }

  /** And the loop ends only if the chain does, at its final target. */
  lemma FinalInIs(code: Code, x: int, fuel: nat)
    requires FinalIn(code, x, fuel).Some?
    ensures Settles(code, x) && FinalIn(code, x, fuel) == Some(Final(code, x))
  {
    FinalInReached(code, x, fuel);
    var y := FinalIn(code, x, fuel).value;
    assert SettlesAt(code, x, y);
    var y', m := ShortChain(code, x);
    var m': nat :| Jumps(code, x, y, m');
    JumpsOnce(code, x, y', y, m, m');
    JumpsOnce(code, x, y, y', m', m);
    FinalOf(code, x, y', m, |code|);
  }

  function RelabelIn(code: Code, i: nat, fuel: nat): (r: Option<Code>)
    requires i < |code| && HasLabel(code[i])
  {
    match FinalIn(code, i + code[i].offset, fuel)
    case None => None
    case Some(t) => Some(code[i := WithOffset(code[i], t - i)])
  }

  function CopyIn(code: Code, i: nat, ft: nat, fuel: nat): (r: Option<Code>)
    requires i < |code| && ft < |code| && Commits(code[ft])
  {
    match FinalIn(code, ft + code[ft].offset, fuel)
    case None => None
    case Some(fft) => RelabelIn(code[i := WithOffset(code[ft], fft - i)], i, fuel)
  }

  /** One round of the loop of `peephole`. */
  function PeepAtIn(code: Code, i: nat, fuel: nat): (r: Option<Code>)
    requires i < |code|
  {
    if HasLabel(code[i]) then RelabelIn(code, i, fuel)
    else if code[i].IJmp? then
      match FinalIn(code, i, fuel)
      case None => None
      case Some(ft) =>
        if !(0 <= ft < |code|) then Some(code[i := IJmp(ft - i)])
        else if Leaves(code[ft]) then
          var code1 := code[i := code[ft]];
          Some(if i + 1 < |code| then code1[i + 1 := IAny] else code1)
        else if Commits(code[ft]) then CopyIn(code, i, ft, fuel)
        else Some(code[i := IJmp(ft - i)])
    else Some(code)
  }

  lemma RelabelInIs(code: Code, i: nat, fuel: nat)
    requires i < |code| && HasLabel(code[i])
    ensures RelabelIn(code, i, fuel).Some? ==> RelabelIn(code, i, fuel) == Some(Relabel(code, i))
    ensures AllSettle(code) && fuel >= |code| ==> RelabelIn(code, i, fuel).Some?
  {
    var x := i + code[i].offset;
    if FinalIn(code, x, fuel).Some? { FinalInIs(code, x, fuel); }
    if AllSettle(code) && fuel >= |code| {
      assert Settles(code, x);
      FinalInSome(code, x, fuel);
    }
  }

  lemma CopyInIs(code: Code, i: nat, ft: nat, fuel: nat)
    requires i < |code| && ft < |code| && Commits(code[ft]) && IsJump(code, i) && ft == Final(code, i)
    ensures CopyIn(code, i, ft, fuel).Some? ==> CopyIn(code, i, ft, fuel) == Some(PeepAt(code, i))
    ensures AllSettle(code) && fuel >= |code| ==> CopyIn(code, i, ft, fuel).Some?
  {
    var x := ft + code[ft].offset;
    if FinalIn(code, x, fuel).Some? { FinalInIs(code, x, fuel); }
    var code1 := code[i := WithOffset(code[ft], Final(code, x) - i)];
    RelabelInIs(code1, i, fuel);
    if AllSettle(code) && fuel >= |code| {
      assert Settles(code, x);
      FinalInSome(code, x, fuel);
      ShorterSettles(code, code1);
    }
  }

  /** A round that ends is the round of `PeepAt`, and ends when no chain is endless. */
  lemma PeepAtInIs(code: Code, i: nat, fuel: nat)
    requires i < |code|
    ensures PeepAtIn(code, i, fuel).Some? ==> PeepAtIn(code, i, fuel) == Some(PeepAt(code, i))
    ensures PeepAtIn(code, i, fuel).Some? && IsJump(code, i) ==> Settles(code, i)
    ensures AllSettle(code) && fuel >= |code| ==> PeepAtIn(code, i, fuel).Some?
  {
    if HasLabel(code[i]) {
      RelabelInIs(code, i, fuel);
    } else if code[i].IJmp? {
      if FinalIn(code, i, fuel).Some? { FinalInIs(code, i, fuel); }
      if AllSettle(code) && fuel >= |code| {
        assert Settles(code, i);
        FinalInSome(code, i, fuel);
      }
      var ft := Final(code, i);
      if 0 <= ft < |code| && Commits(code[ft]) { CopyInIs(code, i, ft, fuel); }
    }
  }

  /** `peephole` from `i` on. */
  function PeepFromIn(code: Code, i: nat, fuel: nat): (r: Option<Code>)
    requires i <= |code|
    decreases |code| - i
  {
    if i == |code| then Some(code) else
    match PeepAtIn(code, i, fuel)
    case None => None
    case Some(code1) =>
      if |code1| != |code| then None
      else PeepFromIn(code1, if i + SizeI(code1[i]) <= |code| then i + SizeI(code1[i]) else |code|, fuel)
  }

  /** When no chain is endless the pass ends, with the code of `PegPeephole`. */
  lemma {:induction false} PeepholeEnds(code: Code, i: nat, fuel: nat)
    requires i <= |code| && AllSettle(code) && fuel >= |code|
    ensures PeepFromIn(code, i, fuel) == Some(PeepFrom(code, i))
    decreases |code| - i
  {
    if i < |code| {
      PeepAtInIs(code, i, fuel);
      PeepAtSettles(code, i);
      var code1 := PeepAt(code, i);
      PeepholeEnds(code1, if i + SizeI(code1[i]) <= |code| then i + SizeI(code1[i]) else |code|, fuel);
    }
  }

  /** There is no jump inside an instruction. */
  ghost predicate Aligned(code: Code)
  {
    forall j, y :: 0 <= j < |code| && j < y < j + SizeI(code[j]) ==> !IsJump(code, y)
  }

  lemma PeepAtAligned(code: Code, i: nat)
    requires i < |code| && Aligned(code)
    ensures Aligned(PeepAt(code, i))
  {
    var code1 := PeepAt(code, i);
    forall j, y | 0 <= j < |code1| && j < y < j + SizeI(code1[j]) ensures !IsJump(code1, y) {
      assert IsJump(code1, y) ==> IsJump(code, y);
    }
  }

  /** Of the chains only those that come by `i` have changed, and the chain from there ended: those
    that end now ended before. */
  lemma {:induction false} PeepAtChain(code: Code, i: nat, x: int, y: int, m: nat)
    requires i < |code| && Aligned(code) && (IsJump(code, i) ==> Settles(code, i))
    requires Jumps(PeepAt(code, i), x, y, m) && !IsJump(PeepAt(code, i), y)
    ensures Settles(code, x)
    decreases m
  {
    if !IsJump(code, x) {
      SettlesNow(code, x);
    } else if x != i {
      var code1 := PeepAt(code, i);
      OtherJumps(code, i, x);
      PeepAtChain(code, i, x + code[x].offset, y, m - 1);
      SettlesNext(code, x, x + code[x].offset);
    }
  }

  /** A round does not touch other jumps. */
  lemma OtherJumps(code: Code, i: nat, x: int)
    requires i < |code| && Aligned(code) && IsJump(code, x) && x != i
    ensures IsJump(PeepAt(code, i), x) && PeepAt(code, i)[x] == code[x]
  {
    if code[i].IJmp? { assert !IsJump(code, i + 1); }
  }

  /** The pass ends only if the chains of all the jumps it comes to end: when it comes to the first
    one, no jump of that chain has been rewritten to anything but the end of its own. */
  lemma {:induction false} PeepholeStops(code: Code, i: nat, fuel: nat)
    requires i <= |code| && Aligned(code) && PeepFromIn(code, i, fuel).Some?
    ensures PeepFromIn(code, i, fuel) == Some(PeepFrom(code, i))
    ensures forall x :: x >= i && IsJump(code, x) ==> Settles(code, x)
    decreases |code| - i
  {
    if i < |code| {
      PeepAtInIs(code, i, fuel);
      PeepAtAligned(code, i);
      var code1 := PeepAt(code, i);
      var next := if i + SizeI(code1[i]) <= |code| then i + SizeI(code1[i]) else |code|;
      PeepholeStops(code1, next, fuel);
      forall x | x >= i && IsJump(code, x) ensures Settles(code, x) {
        if x != i {
          OtherJumps(code, i, x);
          assert x >= next;
          assert Settles(code1, x);
          var y, m := ShortChain(code1, x);
          PeepAtChain(code, i, x, y, m);
        }
      }
    }
  }

  ghost predicate PeepEnds(code: Code) { exists fuel: nat :: PeepFromIn(code, 0, fuel).Some? }

  /** `peephole` ends exactly when no chain of jumps is endless. */
  lemma PeepholeExactly(code: Code)
    requires Spaced(code)
    ensures PeepEnds(code) <==> AllSettle(code)
    ensures forall fuel: nat :: PeepFromIn(code, 0, fuel).Some? ==> PeepFromIn(code, 0, fuel) == Some(Peephole(code))
  {
    forall j, y | 0 <= j < |code| && j < y < j + SizeI(code[j]) ensures !IsJump(code, y) { assert At(code, y, Pad); }
    if AllSettle(code) {
      PeepholeEnds(code, 0, |code|);
      assert PeepFromIn(code, 0, |code|).Some?;
    }
    forall fuel: nat | PeepFromIn(code, 0, fuel).Some?
      ensures PeepFromIn(code, 0, fuel) == Some(Peephole(code)) && AllSettle(code)
    {
      PeepholeStops(code, 0, fuel);
      forall x ensures Settles(code, x) {
        if !IsJump(code, x) { SettlesNow(code, x); }
      }
    }
  }

  // ---- correctcalls ------------------------------------------------------------------------

  /** `correctcalls` from `i` on. */
  function CorrectIn(code: Code, ps: seq<nat>, i: nat, fuel: nat): (r: Option<Code>)
    requires i <= |code|
    decreases |code| - i
  {
    if i == |code| then Some(code)
    else if code[i].IOpenCall? && code[i].rule < |ps| then
      match FinalIn(code, i + 2, fuel)
      case None => None
      case Some(ft) =>
        var offset := ps[code[i].rule] - i;
        CorrectIn(code[i := if At(code, ft, IRet) then IJmp(offset) else ICall(offset)], ps, i + 1, fuel)
    else CorrectIn(code, ps, i + 1, fuel)
  }

  /** When it ends, it does what `CorrectCalls` says. */
  lemma {:induction false} CorrectInIs(code: Code, ps: seq<nat>, i: nat, fuel: nat)
    requires i <= |code| && CorrectIn(code, ps, i, fuel).Some?
    ensures CorrectIn(code, ps, i, fuel) == Some(CorrectCalls(code, ps, i))
    decreases |code| - i
  {
    if i < |code| {
      if code[i].IOpenCall? && code[i].rule < |ps| { FinalInIs(code, i + 2, fuel); }
      CorrectInIs(CorrectCall(code, ps, i), ps, i + 1, fuel);
    }
  }

  /** And it ends when the chains behind the calls end in the corrected code. */
  lemma {:induction false} CorrectInEnds(code: Code, ps: seq<nat>, i: nat, fuel: nat)
    requires i <= |code| <= fuel
    requires forall k :: i <= k < |code| && code[k].IOpenCall? ==> Settles(CorrectCalls(code, ps, i), k + 2)
    ensures CorrectIn(code, ps, i, fuel).Some?
    decreases |code| - i
  {
    if i < |code| {
      var code1, f := CorrectCall(code, ps, i), CorrectCalls(code, ps, i);
      if code[i].IOpenCall? && code[i].rule < |ps| {
        CorrectCallsKeeps(code, ps, i);
        KeptSettles(code, f, i + 2);
        FinalInSome(code, i + 2, fuel);
      }
      assert forall k :: i + 1 <= k < |code1| ==> code1[k] == code[k];
      CorrectInEnds(code1, ps, i + 1, fuel);
    }
  }

  // ---- The compiler ------------------------------------------------------------------------

  /** `correctcalls` ends for the rules of a grammar. */
  ghost predicate CorrectEnds(rs: Rules, b: nat)
  {
    exists fuel: nat :: CorrectIn(Flatten(RuleCodes(rs, b)), Positions(RuleCodes(rs, b), 0), 0, fuel).Some?
  }

  /** `codegen` ends: so do all analyses that it starts, and `correctcalls` for every grammar that code
    is generated for. */
  ghost predicate GenEnds(g: Rules, t: Tree, b: nat)
    decreases t
  {
    match t
    case Grammar(rs) => CorrectEnds(rs, b) && forall k :: 0 <= k < |rs| ==> GenEnds(rs, rs[k], b)
    case Rep(p) => ToCharset(p) != [] || (Stops(g, p, First, b) && Stops(g, p, Head, b) && GenEnds(g, p, b))
    case Not(p) => Stops(g, p, First, b) && Stops(g, p, Head, b) && (HeadFail(g, p, b) || GenEnds(g, p, b))
    case And(p) => GenEnds(g, p, b)
    case Behind(_, p) => GenEnds(g, p, b)
    case Capture(_, _, p) => GenEnds(g, p, b)
    case Seq(p1, p2) => (NeedFollow(p1) ==> Stops(g, p2, First, b)) && GenEnds(g, p1, b) && GenEnds(g, p2, b)
    case Choice(p1, p2) =>
      && Stops(g, p1, First, b) && Stops(g, p1, Head, b)
      && (!HeadFail(g, p1, b) && !GetFirst(g, p1, Full(), b).1 ==> Stops(g, p2, First, b))
      && GenEnds(g, p1, b) && GenEnds(g, p2, b)
    case _ => true
  }

  lemma {:induction false} GenAnalyses(g: Rules, t: Tree, b: nat)
    requires GenEnds(g, t, b)
    ensures AnalysesEnd(g, t, b)
    decreases t
  {
    match t
    case Grammar(rs) => forall k | 0 <= k < |rs| ensures AnalysesEnd(rs, rs[k], b) { GenAnalyses(rs, rs[k], b); }
    case Rep(p) => if ToCharset(p) == [] { GenAnalyses(g, p, b); }
    case Not(p) => if !HeadFail(g, p, b) { GenAnalyses(g, p, b); }
    case And(p) => GenAnalyses(g, p, b);
    case Behind(_, p) => GenAnalyses(g, p, b);
    case Capture(_, _, p) => GenAnalyses(g, p, b);
    case Seq(p1, p2) => GenAnalyses(g, p1, b); GenAnalyses(g, p2, b);
    case Choice(p1, p2) => GenAnalyses(g, p1, b); GenAnalyses(g, p2, b);
    case _ =>
  }

  /** `compile` ends. */
  ghost predicate CompileEnds(t: Tree, b: nat)
  {
    GenEnds([], t, b) && PeepEnds(Emit(t, b))
  }

  lemma RulesEnd(rs: Rules, b: nat)
    requires forall i :: CallEnds(Flatten(RuleCodes(rs, b)), CorrectedRules(rs, b), i)
    ensures CorrectEnds(rs, b)
  {
    var body, ps := Flatten(RuleCodes(rs, b)), Positions(RuleCodes(rs, b), 0);
    forall k | 0 <= k < |body| && body[k].IOpenCall? ensures Settles(CorrectCalls(body, ps, 0), k + 2) {
      assert CallEnds(body, CorrectedRules(rs, b), k);
    }
    CorrectInEnds(body, ps, 0, |body|);
  }

  lemma {:induction false} CallsGenEnds(g: Rules, t: Tree, b: nat)
    requires CallsEnd(g, t, b) && AnalysesEnd(g, t, b)
    ensures GenEnds(g, t, b)
    decreases t
  {
    match t
    case Grammar(rs) =>
      RulesEnd(rs, b);
      forall k | 0 <= k < |rs| ensures GenEnds(rs, rs[k], b) { CallsGenEnds(rs, rs[k], b); }
    case Rep(p) => if ToCharset(p) == [] { CallsGenEnds(g, p, b); }
    case Not(p) => if !HeadFail(g, p, b) { CallsGenEnds(g, p, b); }
    case And(p) => CallsGenEnds(g, p, b);
    case Behind(_, p) => CallsGenEnds(g, p, b);
    case Capture(_, _, p) => CallsGenEnds(g, p, b);
    case Seq(p1, p2) => CallsGenEnds(g, p1, b); CallsGenEnds(g, p2, b);
    case Choice(p1, p2) => CallsGenEnds(g, p1, b); CallsGenEnds(g, p2, b);
    case _ =>
  }

  // ---- What is endless in a part of the code is endless in the whole -----------------------

  lemma {:induction false} PartChain(c: Ctx, p: int, f: Code, x: int, y: int, m: nat)
    requires Fits(c, p, f) && Jumps(c.code, p + x, y, m) && !IsJump(c.code, y)
    ensures Settles(f, x)
    decreases m
  {
    if IsJump(f, x) {
      assert HoldsAt(c, p, f, x);
      assert At(c.code, p + x, f[x]);
      PartChain(c, p, f, x + f[x].offset, y, m - 1);
      SettlesNext(f, x, x + f[x].offset);
    } else {
      SettlesNow(f, x);
    }
  }

  lemma PartSettles(c: Ctx, p: int, f: Code)
    requires Fits(c, p, f) && AllSettle(c.code)
    ensures AllSettle(f)
  {
    forall x ensures Settles(f, x) {
      assert Settles(c.code, p + x);
      var y, m := ShortChain(c.code, p + x);
      PartChain(c, p, f, x, y, m);
    }
  }

  /** The corrected rules are a part of the code of their grammar. */
  lemma BookSettles(c: Ctx, p: int, rs: Rules, codes: seq<Code>)
    requires codes == RuleCodes(rs, c.b) && Fits(c, p, Rulebook(codes)) && AllSettle(c.code)
    ensures forall i :: CallEnds(Flatten(codes), CorrectedRules(rs, c.b), i)
  {
    var f := CorrectCalls(Flatten(codes), Positions(codes, 0), 0);
    FitsSplit3(c, p, Ins(ICall(4)), Ins(IJmp(2 + |f|)), f);
    PartSettles(c, p + 4, f);
    assert f == CorrectedRules(rs, c.b);
  }

  /** In code without endless chains the pattern stands at `p`. */
  ghost predicate Stands(c: Ctx, t: Tree, w: Job, p: int)
  {
    Generated(c, t, w) && Fits(c, p, w.code) && AllSettle(c.code)
  }

  lemma {:induction false} EndsChoice(c: Ctx, t: Tree, w: Job, p: int)
    requires t.Choice? && Stands(c, t, w, p)
    ensures CallsEnd(c.g, t, c.b)
    decreases t, 0
  {
    if ChoiceByTest(c.g, t.p1, t.p2, w.fl, c.b) {
      var w1, w2, cs := TestJobs(c, t, w);
      TestPlaces(c, p, w.code, cs, w1.code, t.p2.True?, w2.code);
      EndsGen(c, t.p1, w1, p + TestSize(cs, false));
      EndsGen(c, t.p2, w2, p + TestSize(cs, false) + |w1.code| + if t.p2.True? then 0 else 2);
    } else if w.opt && t.p2.True? {
      var w1 := ChoicePartialJob(c, t, w, 0);
      FitsSplit(c, p, Ins(IPartialCommit(2)), w1.code);
      EndsGen(c, t.p1, w1, p + 2);
    } else {
      var (cs, e) := GetFirst(c.g, t.p1, Full(), c.b);
      var w1, w2 := BackJobs(c, t, w, cs, e);
      BackPlaces(c, p, w.code, cs, e, w1.code, w2.code);
      EndsGen(c, t.p1, w1, p + TestSize(cs, e) + 2);
      EndsGen(c, t.p2, w2, p + TestSize(cs, e) + |w1.code| + 4);
    }
  }

  lemma {:induction false} EndsShell(c: Ctx, t: Tree, w: Job, p: int)
    requires (t.Rep? || t.Not? || t.And? || t.Capture?) && Stands(c, t, w, p)
    ensures CallsEnd(c.g, t, c.b)
    decreases t, 0
  {
    match t
    case Rep(p1) =>
      if ToCharset(p1) == [] {
        var (cs, e) := GetFirst(c.g, p1, Full(), c.b);
        var w1 := RepShaped(c, t, w, cs, e);
        RepPlace(c, p, w.code, RepByTest(c.g, p1, w.fl, c.b), cs, e, w.opt, w1.code);
        EndsGen(c, p1, w1, RepAt(p, RepByTest(c.g, p1, w.fl, c.b), cs, e));
      }
    case Not(p1) =>
      if !HeadFail(c.g, p1, c.b) {
        var (cs, e) := GetFirst(c.g, p1, Full(), c.b);
        var w1 := NotShaped(c, t, w, cs, e);
        NotPlace(c, p, w.code, cs, e, w1.code);
        EndsGen(c, p1, w1, p + TestSize(cs, e) + 2);
      }
    case And(p1) =>
      var w1, plain, n := AndShaped(c, t, w);
      assert Settles(c.code, p + |w.code|);
      if plain { AndPlainPlace(c, p, w.code, n, w1.code); } else { AndBackPlace(c, p, w.code, n, w1.code); }
      EndsGen(c, p1, w1, if plain then p else p + 2);
    case Capture(_, _, p1) =>
      var n := FixedLen(c.g, p1, c.b);
      var full := 0 <= n <= MAXOFF && !HasCaptures(c.g, p1, {}, c.b);
      var w1 := CaptureShaped(c, t, w, n, full);
      assert Settles(c.code, p + |w.code|);
      CapturePlace(c, p, w.code, full, t, n, w1.code);
      EndsGen(c, p1, w1, if full then p else p + 1);
  }

  lemma {:induction false} EndsGrammar(c: Ctx, t: Tree, w: Job, p: int)
    requires t.Grammar? && Stands(c, t, w, p)
    ensures CallsEnd(c.g, t, c.b)
    decreases t, 0
  {
    var codes, in_, w1 := GrammarJob(c, t, w, p, 0);
    BookSettles(c, p, t.rules, codes);
    forall k | 0 <= k < |t.rules| ensures CallsEnd(t.rules, t.rules[k], c.b) {
      var w2 := RuleJob(in_, k, 0);
      EndsGen(in_, t.rules[k], w2, in_.pos[k]);
    }
  }

  /** When no chain is endless in the whole code, none was that `correctcalls` followed. */
  lemma {:induction false} EndsGen(c: Ctx, t: Tree, w: Job, p: int)
    requires Stands(c, t, w, p)
    ensures CallsEnd(c.g, t, c.b)
    decreases t, 1
  {
    match t
    case Seq(_, _) =>
      var w1, w2 := SeqJobs(c, t, w, 0);
      FitsSplit(c, p, w1.code, w2.code);
      EndsGen(c, t.p1, w1, p);
      EndsGen(c, t.p2, w2, p + |w1.code|);
    case Behind(_, _) =>
      var w1 := BehindJob(c, t, w, 0);
      FitsSplit(c, p, GoBack(t.n), w1.code);
      EndsGen(c, t.p, w1, p + |GoBack(t.n)|);
    case Choice(_, _) => EndsChoice(c, t, w, p);
    case Grammar(_) => EndsGrammar(c, t, w, p);
    case Rep(_) => EndsShell(c, t, w, p);
    case Not(_) => EndsShell(c, t, w, p);
    case And(_) => EndsShell(c, t, w, p);
    case Capture(_, _, _) => EndsShell(c, t, w, p);
    case _ =>
  }

  lemma EmitEnds(t: Tree, b: nat)
    requires WellFormed([], t, b) && AllSettle(Emit(t, b))
    ensures CallsEnd([], t, b)
  {
    var c := Ctx(Emit(t, b), [], [], [], b);
    WholeFits(c.code, [], b);
    var gen := Gen([], t, false, NoGuard, Full(), b);
    FitsSplit(c, 0, gen, Ins(IEnd));
    var w := JobFor(c, t, false, NoGuard, Full(), 0, gen);
    EndsGen(c, t, w, 0);
  }

  lemma EmitGenEnds(t: Tree, b: nat)
    requires WellFormed([], t, b) && AnalysesEnd([], t, b) && AllSettle(Emit(t, b))
    ensures GenEnds([], t, b)
  {
    EmitEnds(t, b);
    CallsGenEnds([], t, b);
  }

  lemma AllDecided(code: Code)
    ensures AllSettle(code) <==> AllReach(code)
  {
    forall x ensures Settles(code, x) <==> Reaches(code, x) { FinalDecides(code, x); }
    if AllReach(code) {
      forall x ensures Settles(code, x) { assert Reaches(code, x); }
    }
  }

  lemma EmitSpaced(t: Tree, b: nat)
    ensures Spaced(Emit(t, b))
  {
    SpacedGen([], t, false, NoGuard, Full(), b);
    SpacedIns(IEnd);
    SpacedConcat(Gen([], t, false, NoGuard, Full(), b), Ins(IEnd));
  }

  /** Compiling a pattern, with at most `b` calls followed on a path, ends if and only if the analyses do
    and from every element of the code the jumps lead to something that is no jump, within as many
    jumps as there are elements. */
  lemma CompilerEnds(t: Tree, b: nat)
    requires WellFormed([], t, b)
    ensures CompileEnds(t, b) <==> AnalysesEnd([], t, b) && AllReach(Emit(t, b))
  {
    EmitSpaced(t, b);
    PeepholeExactly(Emit(t, b));
    AllDecided(Emit(t, b));
    if AnalysesEnd([], t, b) && AllSettle(Emit(t, b)) { EmitGenEnds(t, b); }
    if CompileEnds(t, b) { GenAnalyses([], t, b); }
  }

  /** Neither do look-behinds depend on the bound. */
  lemma OpenStable(t: Tree, x: nat, y: nat)
    requires RulesIn(t) < x <= y
    ensures OpenLen(t, x) == OpenLen(t, y) && OpenCaptures(t, x) == OpenCaptures(t, y)
  {
    FixedStable([], t, x, y);
    AllUnseen([]);
    CapturesStable([], t, {}, x, y);
  }

  lemma {:induction false} WellFormedStable(g: Rules, t: Tree, x: nat, y: nat)
    requires RulesIn(t) < x && RulesIn(t) < y && WellFormed(g, t, x)
    ensures WellFormed(g, t, y)
    decreases t
  {
    match t
    case Rep(p) => WellFormedStable(g, p, x, y);
    case Not(p) => WellFormedStable(g, p, x, y);
    case And(p) => WellFormedStable(g, p, x, y);
    case Behind(_, p) =>
      WellFormedStable(g, p, x, y);
      if x <= y { OpenStable(p, x, y); } else { OpenStable(p, y, x); }
    case Capture(_, _, p) => WellFormedStable(g, p, x, y);
    case Seq(p1, p2) => WellFormedStable(g, p1, x, y); WellFormedStable(g, p2, x, y);
    case Choice(p1, p2) => WellFormedStable(g, p1, x, y); WellFormedStable(g, p2, x, y);
    case Grammar(rs) =>
      forall k | 0 <= k < |rs| ensures WellFormed(rs, rs[k], y) {
        WellFormedStable(rs, rs[k], x, y);
      }
    case _ =>
  }

  /** Four times as many calls as there are rules are enough to compile any pattern that can be compiled. */
  function Limit(t: Tree): nat { 4 * RulesIn(t) + 1 }

  /** So it can be decided whether the compiler, which has no bound, ends: with the bound `Limit` it can be
    computed whether the analyses end and where the jumps lead. And no larger bound gives other code. */
  lemma CompilerDecided(t: Tree, x: nat)
    requires WellFormed([], t, Limit(t)) && x >= Limit(t)
    ensures CompileEnds(t, x) <==> AnalysesEnd([], t, Limit(t)) && AllReach(Emit(t, Limit(t)))
    ensures CompileEnds(t, x) ==> Compile(t, x) == Compile(t, Limit(t))
  {
    WellFormedStable([], t, Limit(t), x);
    CompilerEnds(t, x);
    if AnalysesEnd([], t, x) { AnalysesSoon([], t, Limit(t), x); }
    if AnalysesEnd([], t, Limit(t)) {
      AnalysesMore([], t, Limit(t), x);
      EmitSame(t, Limit(t), x);
    }
  }
}
