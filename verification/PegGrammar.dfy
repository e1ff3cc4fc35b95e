/** Placing the rules of a grammar and correcting the calls between them (`codegrammar`,
  `correctcalls`). */
module PegGrammar {
  import opened PegTree
  import opened PegAnalysis
  import opened PegVm
  import opened PegCodegen
  import opened PegShapes

  // ---- Correcting the calls --------------------------------------------------------------

  /** Only open calls were replaced. */
  ghost predicate Kept(code: Code, f: Code)
  {
    |f| == |code| && forall x :: 0 <= x < |code| && !code[x].IOpenCall? ==> f[x] == code[x]
  }

  lemma {:induction false} JumpsKept(code: Code, f: Code, x: int, y: int, m: nat)
    requires Kept(code, f) && Jumps(code, x, y, m)
    ensures Jumps(f, x, y, m)
    decreases m
  {
    if m > 0 {
      JumpsKept(code, f, x + code[x].offset, y, m - 1);
    }
  }

  lemma {:induction false} CorrectCallsKeeps(code: Code, ps: seq<nat>, i: nat)
    requires i <= |code|
    ensures Kept(code, CorrectCalls(code, ps, i))
    decreases |code| - i
  {
    if i < |code| {
      CorrectCallsKeeps(CorrectCall(code, ps, i), ps, i + 1);
    }
  }

  /** The open call at `x` became a call of its rule or a tail call of it. */
  ghost predicate Corrected(code: Code, f: Code, ps: seq<nat>, x: nat)
    requires x < |code| && code[x].IOpenCall? && code[x].rule < |ps|
  {
    || At(f, x, ICall(ps[code[x].rule] - x))
    || (At(f, x, IJmp(ps[code[x].rule] - x)) && exists r :: JumpsTo(f, x + 2, r) && At(f, r, IRet))
  }

  lemma {:induction false} CorrectCallsCorrects(code: Code, ps: seq<nat>, i: nat, x: nat)
    requires i <= x < |code| && code[x].IOpenCall? && code[x].rule < |ps|
    ensures Corrected(code, CorrectCalls(code, ps, i), ps, x)
    decreases |code| - i
  {
    var code1 := CorrectCall(code, ps, i);
    var f := CorrectCalls(code, ps, i);
    if x > i {
      CorrectCallsCorrects(code1, ps, i + 1, x);
    } else {
      CorrectCallsKeeps(code1, ps, i + 1);
      var r := Final(code, x + 2);
      assert f[x] == code1[x];
      if At(code, r, IRet) {
        assert Kept(code, f);
        FinalTargetJumps(code, x + 2, |code|);
        var m: nat :| Jumps(code, x + 2, r, m);
        JumpsKept(code, f, x + 2, r, m);
        assert JumpsTo(f, x + 2, r) && At(f, r, IRet);
      }
    }
  }

  /** Everything but open calls is found at `base`. */
  ghost predicate Stands(code: Code, base: int, f: Code)
  {
    forall z :: 0 <= z < |f| && !f[z].IOpenCall? ==> At(code, base + z, f[z])
  }

  /** A chain of jumps does not depend on where the code is placed. */
  lemma {:induction false} JumpsMove(f: Code, code: Code, base: int, x: int, y: int, m: nat)
    requires 0 <= base && base + |f| <= |code| && Stands(code, base, f)
    requires Jumps(f, x, y, m)
    ensures Jumps(code, base + x, base + y, m)
    decreases m
  {
    if m > 0 {
      assert At(code, base + x, f[x]);
      JumpsMove(f, code, base, x + f[x].offset, y, m - 1);
    }
  }

  // ---- Placing the rules -----------------------------------------------------------------

  lemma {:induction false} PositionsBound(codes: seq<Code>, start: nat, k: nat)
    requires k < |codes|
    ensures start <= Positions(codes, start)[k] && Positions(codes, start)[k] + |codes[k]| <= start + |Flatten(codes)|
    decreases k
  {
    if k > 0 {
      PositionsBound(codes[1..], start + |codes[0]|, k - 1);
    }
  }

  lemma {:induction false} FlattenAt(codes: seq<Code>, start: nat, k: nat, x: nat)
    requires k < |codes| && x < |codes[k]|
    ensures start <= Positions(codes, start)[k] && Positions(codes, start)[k] - start + x < |Flatten(codes)|
    ensures Flatten(codes)[Positions(codes, start)[k] - start + x] == codes[k][x]
    decreases k
  {
    PositionsBound(codes, start, k);
    if k > 0 {
      FlattenAt(codes[1..], start + |codes[0]|, k - 1, x);
    }
  }

  /** The context in which the rules of a grammar run, when its code stands at `p`. */
  ghost function Inner(c: Ctx, p: int, rs: Rules, codes: seq<Code>): (r: Ctx)
  {
    c.(g := rs, pos := seq(|codes|, k requires 0 <= k < |codes| => p + 4 + Positions(codes, 0)[k]))
  }

  /** Where the code of a grammar stands, each of its rules stands in the inner context. */
  lemma RuleFits(c: Ctx, p: int, rs: Rules, codes: seq<Code>, k: nat)
    requires k < |codes| && Fits(c, p, Rulebook(codes))
    ensures Fits(Inner(c, p, rs, codes), Inner(c, p, rs, codes).pos[k], codes[k])
  {
    var in_ := Inner(c, p, rs, codes);
    BodyStands(c, p, codes);
    PositionsBound(codes, 0, k);
    forall x ensures HoldsAt(in_, in_.pos[k], codes[k], x) {
      if 0 <= x < |codes[k]| { RuleFitsAt(in_, p + 4, codes, k, x); }
    }
  }

  lemma RuleFitsAt(in_: Ctx, base: nat, codes: seq<Code>, k: nat, x: nat)
    requires k < |codes| && x < |codes[k]|
    requires var ps := Positions(codes, 0);
             |in_.pos| == |ps| && forall j :: 0 <= j < |ps| ==> in_.pos[j] == base + ps[j]
    requires var f := CorrectCalls(Flatten(codes), Positions(codes, 0), 0);
             base + |f| <= |in_.code| && Stands(in_.code, base, f)
    ensures Holds(in_, in_.pos[k] + x, codes[k][x])
  {
    var body, ps := Flatten(codes), Positions(codes, 0);
    FlattenAt(codes, 0, k, x);
    SlotCorrected(in_, base, body, ps, ps[k] + x);
  }

  lemma SlotCorrected(in_: Ctx, base: nat, body: Code, ps: seq<nat>, y: nat)
    requires y < |body| && |in_.pos| == |ps| && forall j :: 0 <= j < |ps| ==> in_.pos[j] == base + ps[j]
    requires var f := CorrectCalls(body, ps, 0); base + |f| <= |in_.code| && Stands(in_.code, base, f)
    ensures Holds(in_, base + y, body[y])
  {
    CorrectCallsKeeps(body, ps, 0);
    if body[y].IOpenCall? && body[y].rule < |ps| {
      CorrectCallsCorrects(body, ps, 0, y);
    }
    RuleSlot(in_, base, body, ps, CorrectCalls(body, ps, 0), y);
  }

  lemma BodyStands(c: Ctx, p: int, codes: seq<Code>)
    requires Fits(c, p, Rulebook(codes))
    ensures var f := CorrectCalls(Flatten(codes), Positions(codes, 0), 0);
            0 <= p && p + 4 + |f| <= |c.code| && Stands(c.code, p + 4, f)
  {
    var f := CorrectCalls(Flatten(codes), Positions(codes, 0), 0);
    var base := p + 4;
    FitsSplit3(c, p, Ins(ICall(4)), Ins(IJmp(2 + |f|)), f);
    forall z | 0 <= z < |f| && !f[z].IOpenCall? ensures At(c.code, base + z, f[z]) {
      assert HoldsAt(c, base, f, z);
    }
  }

  lemma RuleSlot(in_: Ctx, base: nat, body: Code, ps: seq<nat>, f: Code, x: nat)
    requires x < |f| && |f| == |body| && |in_.pos| == |ps|
    requires if body[x].IOpenCall? then body[x].rule < |ps| ==> Corrected(body, f, ps, x) else f[x] == body[x]
    requires base + |f| <= |in_.code| && Stands(in_.code, base, f)
    requires forall k :: 0 <= k < |ps| ==> in_.pos[k] == base + ps[k]
    ensures Holds(in_, base + x, body[x])
  {
    if body[x].IOpenCall? && body[x].rule < |ps| && !At(f, x, ICall(ps[body[x].rule] - x)) {
      var r :| JumpsTo(f, x + 2, r) && At(f, r, IRet);
      var m: nat :| Jumps(f, x + 2, r, m);
      JumpsMove(f, in_.code, base, x + 2, r, m);
      assert Jumps(in_.code, base + x + 2, base + r, m);
      assert JumpsTo(in_.code, base + x + 2, base + r) && At(in_.code, base + r, IRet);
    }
  }
}
