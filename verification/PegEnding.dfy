/** When the analyses of `lpcode.c` end.

  `checkaux`, `getfirst` and `headfail` follow calls without a bound. Here each of them has a form that
  gives no result when it would have to follow more than `b` calls on one path, in the order in which
  the source looks at the parts of a pattern. `fixedlen` and `hascaptures` mark the calls they are in,
  and always end. */
module PegEnding {
  import opened Basics
  import opened FiniteSets
  import opened PegTree
  import opened PegAnalysis
  import opened PegVm
  import opened PegCodegen
  import opened PegVerify

  /** `checkaux`. */
  function AuxIn(g: Rules, t: Tree, nofail: bool, b: nat): (r: Option<bool>)
    decreases b, t
  {
    match t
    case Char(_) => Some(false)
    case Set(_) => Some(false)
    case Any => Some(false)
    case False => Some(false)
    case Rep(_) => Some(true)
    case True => Some(true)
    case Not(_) => Some(!nofail)
    case Behind(_, _) => Some(!nofail)
    case And(p) => if nofail then AuxIn(g, p, nofail, b) else Some(true)
    case Seq(p1, p2) =>
      (match AuxIn(g, p1, nofail, b)
       case None => None
       case Some(r1) => if r1 then AuxIn(g, p2, nofail, b) else Some(false))
    case Choice(p1, p2) =>
      (match AuxIn(g, p2, nofail, b)
       case None => None
       case Some(r2) => if r2 then Some(true) else AuxIn(g, p1, nofail, b))
    case Capture(_, _, p) => AuxIn(g, p, nofail, b)
    case Grammar(rs) => if rs == [] then Some(!nofail) else AuxIn(rs, rs[0], nofail, b)
    case Call(k) =>
      if k >= |g| then Some(!nofail)
      else if b == 0 then None
      else AuxIn(g, g[k], nofail, b - 1)
  }

  /** `getfirst`, which also enters the bodies of negations and look-behinds. */
  function FirstIn(g: Rules, t: Tree, follow: Charset, b: nat): (r: Option<(Charset, bool)>)
    decreases b, t
  {
    match t
    case Char(c) => Some(({c}, false))
    case Set(cs) => Some((cs, false))
    case Any => Some((Full(), false))
    case True => Some((follow, true))
    case False => Some(({}, false))
    case Choice(p1, p2) =>
      (match FirstIn(g, p1, follow, b)
       case None => None
       case Some(r1) =>
         (match FirstIn(g, p2, follow, b)
          case None => None
          case Some(r2) => Some((r1.0 + r2.0, r1.1 || r2.1))))
    case Seq(p1, p2) =>
      (match AuxIn(g, p1, false, b)
       case None => None
       case Some(nullable) =>
         if !nullable then FirstIn(g, p1, Full(), b) else
         (match FirstIn(g, p2, follow, b)
          case None => None
          case Some(r2) =>
            (match FirstIn(g, p1, r2.0, b)
             case None => None
             case Some(r1) => Some((r1.0, r1.1 && r2.1)))))
    case Rep(p) =>
      (match FirstIn(g, p, follow, b)
       case None => None
       case Some(r) => Some((r.0 + follow, true)))
    case Capture(_, _, p) => FirstIn(g, p, follow, b)
    case Grammar(rs) => if rs == [] then Some((Full(), true)) else FirstIn(rs, rs[0], follow, b)
    case Call(k) =>
      if k >= |g| then Some((Full(), true))
      else if b == 0 then None
      else FirstIn(g, g[k], follow, b - 1)
    case And(p) =>
      (match FirstIn(g, p, follow, b)
       case None => None
       case Some(r) => Some((r.0 * follow, r.1)))
    case Not(p) =>
      var cs := ToCharset(p);
      if cs != [] then Some((Full() - cs[0], true)) else
      (match FirstIn(g, p, follow, b)
       case None => None
       case Some(_) => Some((follow, true)))
    case Behind(_, p) =>
      (match FirstIn(g, p, follow, b)
       case None => None
       case Some(_) => Some((follow, true)))
  }

  /** `headfail`. */
  function HeadIn(g: Rules, t: Tree, b: nat): (r: Option<bool>)
    decreases b, t
  {
    match t
    case Char(_) => Some(true)
    case Set(_) => Some(true)
    case Any => Some(true)
    case False => Some(true)
    case Capture(_, _, p) => HeadIn(g, p, b)
    case Grammar(rs) => if rs == [] then Some(false) else HeadIn(rs, rs[0], b)
    case And(p) => HeadIn(g, p, b)
    case Call(k) =>
      if k >= |g| then Some(false)
      else if b == 0 then None
      else HeadIn(g, g[k], b - 1)
    case Seq(p1, p2) =>
      (match AuxIn(g, p2, true, b)
       case None => None
       case Some(nofail) => if nofail then HeadIn(g, p1, b) else Some(false))
    case Choice(p1, p2) =>
      (match HeadIn(g, p1, b)
       case None => None
       case Some(r1) => if r1 then HeadIn(g, p2, b) else Some(false))
    case _ => Some(false)
  }

  // ---- What ends ends with the result of the bounded analysis, whatever the bound --------------

  lemma {:induction false} AuxMore(g: Rules, t: Tree, nofail: bool, b: nat, x: nat)
    requires AuxIn(g, t, nofail, b).Some? && b <= x
    ensures AuxIn(g, t, nofail, x) == AuxIn(g, t, nofail, b) == Some(CheckAux(g, t, nofail, b))
    decreases b, t
  {
    match t
    case And(p) => if nofail { AuxMore(g, p, nofail, b, x); }
    case Seq(p1, p2) =>
      AuxMore(g, p1, nofail, b, x);
      if CheckAux(g, p1, nofail, b) { AuxMore(g, p2, nofail, b, x); }
    case Choice(p1, p2) =>
      AuxMore(g, p2, nofail, b, x);
      if !CheckAux(g, p2, nofail, b) { AuxMore(g, p1, nofail, b, x); }
    case Capture(_, _, p) => AuxMore(g, p, nofail, b, x);
    case Grammar(rs) => if rs != [] { AuxMore(rs, rs[0], nofail, b, x); }
    case Call(k) => if k < |g| { AuxMore(g, g[k], nofail, b - 1, x - 1); }
    case _ =>
  }

  lemma {:induction false} FirstMore(g: Rules, t: Tree, follow: Charset, b: nat, x: nat)
    requires FirstIn(g, t, follow, b).Some? && b <= x
    ensures FirstIn(g, t, follow, x) == FirstIn(g, t, follow, b) == Some(GetFirst(g, t, follow, b))
    decreases b, t
  {
    match t
    case Choice(p1, p2) => FirstMore(g, p1, follow, b, x); FirstMore(g, p2, follow, b, x);
    case Seq(p1, p2) =>
      AuxMore(g, p1, false, b, x);
      if Nullable(g, p1, b) {
        FirstMore(g, p2, follow, b, x);
        FirstMore(g, p1, GetFirst(g, p2, follow, b).0, b, x);
      } else {
        FirstMore(g, p1, Full(), b, x);
      }
    case Rep(p) => FirstMore(g, p, follow, b, x);
    case Capture(_, _, p) => FirstMore(g, p, follow, b, x);
    case Grammar(rs) => if rs != [] { FirstMore(rs, rs[0], follow, b, x); }
    case Call(k) => if k < |g| { FirstMore(g, g[k], follow, b - 1, x - 1); }
    case And(p) => FirstMore(g, p, follow, b, x);
    case Not(p) => if ToCharset(p) == [] { FirstMore(g, p, follow, b, x); }
    case Behind(_, p) => FirstMore(g, p, follow, b, x);
    case _ =>
  }

  lemma {:induction false} HeadMore(g: Rules, t: Tree, b: nat, x: nat)
    requires HeadIn(g, t, b).Some? && b <= x
    ensures HeadIn(g, t, x) == HeadIn(g, t, b) == Some(HeadFail(g, t, b))
    decreases b, t
  {
    match t
    case Capture(_, _, p) => HeadMore(g, p, b, x);
    case Grammar(rs) => if rs != [] { HeadMore(rs, rs[0], b, x); }
    case And(p) => HeadMore(g, p, b, x);
    case Call(k) => if k < |g| { HeadMore(g, g[k], b - 1, x - 1); }
    case Seq(p1, p2) =>
      AuxMore(g, p2, true, b, x);
      if Nofail(g, p2, b) { HeadMore(g, p1, b, x); }
    case Choice(p1, p2) =>
      HeadMore(g, p1, b, x);
      if HeadFail(g, p1, b) { HeadMore(g, p2, b, x); }
    case _ =>
  }

  /** Whether `getfirst` ends does not depend on the follow set. */
  lemma {:induction false} FirstAny(g: Rules, t: Tree, fl: Charset, fl': Charset, b: nat)
    requires FirstIn(g, t, fl, b).Some?
    ensures FirstIn(g, t, fl', b).Some?
    decreases b, t
  {
    match t
    case Choice(p1, p2) => FirstAny(g, p1, fl, fl', b); FirstAny(g, p2, fl, fl', b);
    case Seq(p1, p2) =>
      if AuxIn(g, p1, false, b) == Some(true) {
        FirstAny(g, p2, fl, fl', b);
        FirstAny(g, p1, FirstIn(g, p2, fl, b).value.0, FirstIn(g, p2, fl', b).value.0, b);
      }
    case Rep(p) => FirstAny(g, p, fl, fl', b);
    case Capture(_, _, p) => FirstAny(g, p, fl, fl', b);
    case Grammar(rs) => if rs != [] { FirstAny(rs, rs[0], fl, fl', b); }
    case Call(k) => if k < |g| { FirstAny(g, g[k], fl, fl', b - 1); }
    case And(p) => FirstAny(g, p, fl, fl', b);
    case Not(p) => if ToCharset(p) == [] { FirstAny(g, p, fl, fl', b); }
    case Behind(_, p) => FirstAny(g, p, fl, fl', b);
    case _ =>
  }

  // ---- Fixed lengths, captures -----------------------------------------------------------------

  /** How many rules there are in a grammar and those nested in it, along the longest way inwards. */
  function RulesIn(t: Tree): (n: nat)
  {
    match t
    case Grammar(rs) => |rs| + RulesInAll(rs)
    case Behind(_, p) => RulesIn(p)
    case Rep(p) => RulesIn(p)
    case Not(p) => RulesIn(p)
    case And(p) => RulesIn(p)
    case Capture(_, _, p) => RulesIn(p)
    case Seq(p1, p2) => Max(RulesIn(p1), RulesIn(p2))
    case Choice(p1, p2) => Max(RulesIn(p1), RulesIn(p2))
    case _ => 0
  }

  function RulesInAll(rs: Rules): (n: nat)
    ensures forall k :: 0 <= k < |rs| ==> RulesIn(rs[k]) <= n
  {
    if rs == [] then 0 else Max(RulesIn(rs[0]), RulesInAll(rs[1..]))
  }

  /** A length that is found is found with more calls, too. */
  lemma {:induction false} FixedGrows(g: Rules, t: Tree, b: nat)
    ensures FixedLen(g, t, b) >= 0 ==> FixedLen(g, t, b + 1) == FixedLen(g, t, b)
    decreases b, t
  {
    match t
    case Capture(_, _, p) => FixedGrows(g, p, b);
    case Grammar(rs) => if rs != [] { FixedGrows(rs, rs[0], b); }
    case Call(k) => if k < |g| && b > 0 { FixedGrows(g, g[k], b - 1); }
    case Seq(p1, p2) => FixedGrows(g, p1, b); FixedGrows(g, p2, b);
    case Choice(p1, p2) => FixedGrows(g, p1, b); FixedGrows(g, p2, b);
    case _ =>
  }

  /** One more call changes the length of no rule. */
  ghost predicate Same(g: Rules, b: nat)
  {
    forall k :: 0 <= k < |g| ==> FixedLen(g, g[k], b) == FixedLen(g, g[k], b + 1)
  }

  /** The rules with a known length. */
  function Known(g: Rules, b: nat): (ks: set<nat>)
  {
    set k: nat | k < |g| && FixedLen(g, g[k], b) >= 0
  }

  lemma KnownGrows(g: Rules, b: nat)
    ensures Known(g, b) <= Known(g, b + 1)
    ensures Same(g, b) || |Known(g, b)| < |Known(g, b + 1)|
  {
    forall k: nat | k < |g| ensures FixedLen(g, g[k], b) >= 0 ==> FixedLen(g, g[k], b + 1) == FixedLen(g, g[k], b) {
      FixedGrows(g, g[k], b);
    }
    if !Same(g, b) {
      var k: nat :| k < |g| && FixedLen(g, g[k], b) != FixedLen(g, g[k], b + 1);
      SubsetSize(Known(g, b) + {k}, Known(g, b + 1));
    }
  }

  lemma KnownSize(g: Rules, b: nat)
    ensures |Known(g, b)| <= |g|
  {
    SubsetSize(Known(g, b), Below(|g|));
  }

  /** Once one more call changes nothing, no more do. */
  lemma {:induction false} FixedNext(g: Rules, t: Tree, b: nat)
    requires Same(g, b) && RulesIn(t) <= b
    ensures FixedLen(g, t, b + 1) == FixedLen(g, t, b + 2)
    decreases t
  {
    match t
    case Capture(_, _, p) => FixedNext(g, p, b);
    case Grammar(rs) => if rs != [] { SameFrom(rs, b + 1); }
    case Seq(p1, p2) => FixedNext(g, p1, b); FixedNext(g, p2, b);
    case Choice(p1, p2) => FixedNext(g, p1, b); FixedNext(g, p2, b);
    case _ =>
  }

  lemma {:induction false} SameStays(g: Rules, b: nat, y: nat)
    requires Same(g, b) && RulesInAll(g) <= b <= y
    ensures Same(g, y)
    decreases g, 0, y
  {
    if b < y {
      SameStays(g, b, y - 1);
      forall k | 0 <= k < |g| ensures FixedLen(g, g[k], y) == FixedLen(g, g[k], y + 1) {
        FixedNext(g, g[k], y - 1);
      }
    }
  }

  /** While calls still change something, more and more lengths get known. */
  lemma {:induction false} SameOrKnown(g: Rules, n: nat)
    ensures Same(g, RulesInAll(g) + n) || |Known(g, RulesInAll(g) + n + 1)| > n
    decreases g, 1, n
  {
    var b := RulesInAll(g) + n;
    KnownGrows(g, b);
    if n > 0 {
      SameOrKnown(g, n - 1);
      if Same(g, b - 1) { SameStays(g, b - 1, b); }
    }
  }

  lemma {:induction false} SameFrom(g: Rules, b: nat)
    requires |g| + RulesInAll(g) <= b
    ensures Same(g, b)
    decreases g, 2
  {
    SameOrKnown(g, |g|);
    KnownSize(g, RulesInAll(g) + |g| + 1);
    SameStays(g, RulesInAll(g) + |g|, b);
  }

  lemma {:induction false} FixedStable(g: Rules, t: Tree, x: nat, y: nat)
    requires |g| + RulesInAll(g) < x <= y && RulesIn(t) < x
    ensures FixedLen(g, t, x) == FixedLen(g, t, y)
    decreases y
  {
    if x < y {
      FixedStable(g, t, x, y - 1);
      SameFrom(g, y - 2);
      FixedNext(g, t, y - 2);
    }
  }

  /** The rules that are not being visited. */
  function Unseen(g: Rules, seen: set<nat>): (ks: set<nat>)
  {
    Below(|g|) - seen
  }

  lemma AllUnseen(g: Rules)
    ensures Unseen(g, {}) == Below(|g|) && |Unseen(g, {})| == |g|
  {
  }

  /** As many calls as there are rules not yet visited are enough. */
  ghost predicate Visits(g: Rules, t: Tree, seen: set<nat>, x: nat)
  {
    forall n :: Look(n) ==> RulesInAll(g) + |Unseen(g, seen)| <= x && RulesIn(t) <= x
  }

  lemma VisitsChild(g: Rules, t: Tree, p: Tree, seen: set<nat>, x: nat)
    requires Visits(g, t, seen, x) && Child(t, p)
    ensures Visits(g, p, seen, x) && p < t
  {
    assert Look(0);
  }

  lemma VisitsCall(g: Rules, k: nat, seen: set<nat>, x: nat)
    requires Visits(g, Call(k), seen, x) && k < |g| && k !in seen
    ensures x > 0 && Visits(g, g[k], seen + {k}, x - 1)
  {
    assert Look(0);
    assert Unseen(g, seen + {k}) == Unseen(g, seen) - {k} && k in Unseen(g, seen);
  }

  lemma VisitsFirst(g: Rules, rs: Rules, seen: set<nat>, x: nat)
    requires Visits(g, Grammar(rs), seen, x) && rs != []
    ensures Visits(rs, rs[0], {}, x)
  {
    assert Look(0);
    AllUnseen(rs);
  }

  lemma {:induction false} CapturesStable(g: Rules, t: Tree, seen: set<nat>, x: nat, y: nat)
    requires Visits(g, t, seen, x) && Visits(g, t, seen, y)
    ensures HasCaptures(g, t, seen, x) == HasCaptures(g, t, seen, y)
    decreases x, t
  {
    match t
    case Rep(p) => CapturesChild(g, t, p, seen, x, y);
    case Not(p) => CapturesChild(g, t, p, seen, x, y);
    case And(p) => CapturesChild(g, t, p, seen, x, y);
    case Behind(_, p) => CapturesChild(g, t, p, seen, x, y);
    case Seq(p1, p2) => CapturesChild(g, t, p1, seen, x, y); CapturesChild(g, t, p2, seen, x, y);
    case Choice(p1, p2) => CapturesChild(g, t, p1, seen, x, y); CapturesChild(g, t, p2, seen, x, y);
    case Grammar(rs) =>
      if rs != [] {
        VisitsFirst(g, rs, seen, x);
        VisitsFirst(g, rs, seen, y);
        CapturesStable(rs, rs[0], {}, x, y);
      }
    case Call(k) =>
      if k < |g| && k !in seen {
        VisitsCall(g, k, seen, x);
        VisitsCall(g, k, seen, y);
        CapturesStable(g, g[k], seen + {k}, x - 1, y - 1);
      }
    case _ =>
  }

  lemma {:induction false} CapturesChild(g: Rules, t: Tree, p: Tree, seen: set<nat>, x: nat, y: nat)
    requires Visits(g, t, seen, x) && Visits(g, t, seen, y) && Child(t, p)
    ensures HasCaptures(g, p, seen, x) == HasCaptures(g, p, seen, y)
    decreases x, t, -1
  {
    VisitsChild(g, t, p, seen, x);
    VisitsChild(g, t, p, seen, y);
    CapturesStable(g, p, seen, x, y);
  }

  // ---- As many calls as there are rules decide --------------------------------------------------

  /** What is asked of a pattern. */
  datatype Analysis = Aux(nofail: bool) | First | Head

  /** It ends with at most `b` calls on a path. */
  predicate Stops(g: Rules, t: Tree, a: Analysis, b: nat)
  {
    match a
    case Aux(nofail) => AuxIn(g, t, nofail, b).Some?
    case First => FirstIn(g, t, Full(), b).Some?
    case Head => HeadIn(g, t, b).Some?
  }

  lemma EndsMore(g: Rules, t: Tree, a: Analysis, b: nat, x: nat)
    requires Stops(g, t, a, b) && b <= x
    ensures Stops(g, t, a, x)
  {
    match a
    case Aux(nofail) => AuxMore(g, t, nofail, b, x);
    case First => FirstMore(g, t, Full(), b, x);
    case Head => HeadMore(g, t, b, x);
  }

  /** `getfirst` of a sequence looks at the second pattern only behind a nullable one. */
  lemma FirstSeq(g: Rules, p1: Tree, p2: Tree, b: nat)
    ensures Stops(g, Seq(p1, p2), First, b) <==>
      && Stops(g, p1, Aux(false), b) && Stops(g, p1, First, b)
      && (AuxIn(g, p1, false, b) == Some(true) ==> Stops(g, p2, First, b))
  {
    if AuxIn(g, p1, false, b) == Some(true) && Stops(g, p2, First, b) {
      var f2 := FirstIn(g, p2, Full(), b).value.0;
      if Stops(g, p1, First, b) { FirstAny(g, p1, Full(), f2, b); }
      if FirstIn(g, p1, f2, b).Some? { FirstAny(g, p1, f2, Full(), b); }
    }
  }

  /** One more call decides no analysis of a rule. */
  ghost predicate Steady(g: Rules, b: nat)
  {
    forall k, a :: 0 <= k < |g| ==> Stops(g, g[k], a, b) == Stops(g, g[k], a, b + 1)
  }

  function Nth(i: nat): (a: Analysis)
  {
    if i == 0 then Aux(false) else if i == 1 then Aux(true) else if i == 2 then First else Head
  }

  function Place(a: Analysis): (i: nat)
    ensures i < 4 && Nth(i) == a
  {
    match a
    case Aux(nofail) => if nofail then 1 else 0
    case First => 2
    case Head => 3
  }

  /** The analyses of rules that end. */
  function Ended(g: Rules, b: nat): (js: set<nat>)
  {
    set j: nat | j < 4 * |g| && Stops(g, g[j / 4], Nth(j % 4), b)
  }

  lemma EndedGrows(g: Rules, b: nat)
    ensures Ended(g, b) <= Ended(g, b + 1)
    ensures Steady(g, b) || |Ended(g, b)| < |Ended(g, b + 1)|
  {
    forall j: nat | j in Ended(g, b) ensures j in Ended(g, b + 1) {
      EndsMore(g, g[j / 4], Nth(j % 4), b, b + 1);
    }
    if !Steady(g, b) {
      var k: nat, a :| k < |g| && Stops(g, g[k], a, b) != Stops(g, g[k], a, b + 1);
      if Stops(g, g[k], a, b) { EndsMore(g, g[k], a, b, b + 1); }
      var j := 4 * k + Place(a);
      assert j / 4 == k && j % 4 == Place(a);
      SubsetSize(Ended(g, b) + {j}, Ended(g, b + 1));
    }
  }

  /** Once one more call decides nothing, no more do. */
  lemma {:induction false} AuxNext(g: Rules, t: Tree, nofail: bool, b: nat)
    requires Steady(g, b) && 4 * RulesIn(t) <= b && Stops(g, t, Aux(nofail), b + 2)
    ensures Stops(g, t, Aux(nofail), b + 1)
    decreases t, 0
  {
    match t
    case And(p) => if nofail { AuxNext(g, p, nofail, b); }
    case Capture(_, _, p) => AuxNext(g, p, nofail, b);
    case Seq(p1, p2) =>
      AuxNext(g, p1, nofail, b);
      AuxMore(g, p1, nofail, b + 1, b + 2);
      if AuxIn(g, p1, nofail, b + 1) == Some(true) { AuxNext(g, p2, nofail, b); }
    case Choice(p1, p2) =>
      AuxNext(g, p2, nofail, b);
      AuxMore(g, p2, nofail, b + 1, b + 2);
      if AuxIn(g, p2, nofail, b + 1) == Some(false) { AuxNext(g, p1, nofail, b); }
    case Grammar(rs) => if rs != [] { SteadyAt(rs, 0, Aux(nofail), b + 1); }
    case Call(k) => if k < |g| { assert Stops(g, g[k], Aux(nofail), b) == Stops(g, g[k], Aux(nofail), b + 1); }
    case _ =>
  }

  lemma {:induction false} FirstNext(g: Rules, t: Tree, b: nat)
    requires Steady(g, b) && 4 * RulesIn(t) <= b && Stops(g, t, First, b + 2)
    ensures Stops(g, t, First, b + 1)
    decreases t, 0
  {
    match t
    case Choice(p1, p2) => FirstNext(g, p1, b); FirstNext(g, p2, b);
    case Seq(p1, p2) =>
      FirstSeq(g, p1, p2, b + 2);
      FirstSeq(g, p1, p2, b + 1);
      AuxNext(g, p1, false, b);
      AuxMore(g, p1, false, b + 1, b + 2);
      FirstNext(g, p1, b);
      if AuxIn(g, p1, false, b + 1) == Some(true) { FirstNext(g, p2, b); }
    case Rep(p) => FirstNext(g, p, b);
    case Capture(_, _, p) => FirstNext(g, p, b);
    case And(p) => FirstNext(g, p, b);
    case Not(p) => if ToCharset(p) == [] { FirstNext(g, p, b); }
    case Behind(_, p) => FirstNext(g, p, b);
    case Grammar(rs) => if rs != [] { SteadyAt(rs, 0, First, b + 1); }
    case Call(k) => if k < |g| { assert Stops(g, g[k], First, b) == Stops(g, g[k], First, b + 1); }
    case _ =>
  }

  lemma {:induction false} HeadNext(g: Rules, t: Tree, b: nat)
    requires Steady(g, b) && 4 * RulesIn(t) <= b && Stops(g, t, Head, b + 2)
    ensures Stops(g, t, Head, b + 1)
    decreases t, 0
  {
    match t
    case Capture(_, _, p) => HeadNext(g, p, b);
    case And(p) => HeadNext(g, p, b);
    case Seq(p1, p2) =>
      AuxNext(g, p2, true, b);
      AuxMore(g, p2, true, b + 1, b + 2);
      if AuxIn(g, p2, true, b + 1) == Some(true) { HeadNext(g, p1, b); }
    case Choice(p1, p2) =>
      HeadNext(g, p1, b);
      HeadMore(g, p1, b + 1, b + 2);
      if HeadIn(g, p1, b + 1) == Some(true) { HeadNext(g, p2, b); }
    case Grammar(rs) => if rs != [] { SteadyAt(rs, 0, Head, b + 1); }
    case Call(k) => if k < |g| { assert Stops(g, g[k], Head, b) == Stops(g, g[k], Head, b + 1); }
    case _ =>
  }

  lemma {:induction false} EndsNext(g: Rules, t: Tree, a: Analysis, b: nat)
    requires Steady(g, b) && 4 * RulesIn(t) <= b
    ensures Stops(g, t, a, b + 1) == Stops(g, t, a, b + 2)
    decreases t, 1
  {
    if Stops(g, t, a, b + 2) {
      match a
      case Aux(nofail) => AuxNext(g, t, nofail, b);
      case First => FirstNext(g, t, b);
      case Head => HeadNext(g, t, b);
    } else if Stops(g, t, a, b + 1) {
      EndsMore(g, t, a, b + 1, b + 2);
    }
  }

  lemma {:induction false} SteadyStays(g: Rules, b: nat, y: nat)
    requires Steady(g, b) && 4 * RulesInAll(g) <= b <= y
    ensures Steady(g, y)
    decreases g, 0, y
  {
    if b < y {
      SteadyStays(g, b, y - 1);
      forall k, a | 0 <= k < |g| ensures Stops(g, g[k], a, y) == Stops(g, g[k], a, y + 1) {
        EndsNext(g, g[k], a, y - 1);
      }
    }
  }

  /** While calls still decide something, more and more analyses end. */
  lemma {:induction false} SteadyOrEnded(g: Rules, n: nat)
    ensures Steady(g, 4 * RulesInAll(g) + n) || |Ended(g, 4 * RulesInAll(g) + n + 1)| > n
    decreases g, 1, n
  {
    var b := 4 * RulesInAll(g) + n;
    EndedGrows(g, b);
    if n > 0 {
      SteadyOrEnded(g, n - 1);
      if Steady(g, b - 1) { SteadyStays(g, b - 1, b); }
    }
  }

  lemma {:induction false} SteadyFrom(g: Rules, b: nat)
    requires 4 * |g| + 4 * RulesInAll(g) <= b
    ensures Steady(g, b)
    decreases g, 2
  {
    var n := 4 * |g|;
    SteadyOrEnded(g, n);
    SubsetSize(Ended(g, 4 * RulesInAll(g) + n + 1), Below(n));
    SteadyStays(g, 4 * RulesInAll(g) + n, b);
  }

  lemma {:induction false} SteadyAt(g: Rules, k: nat, a: Analysis, b: nat)
    requires k < |g| && 4 * |g| + 4 * RulesInAll(g) <= b
    ensures Stops(g, g[k], a, b) == Stops(g, g[k], a, b + 1)
    decreases g, 3
  {
    SteadyFrom(g, b);
  }

  /** Four times as many calls as there are rules decide whether an analysis ends at all. */
  lemma {:induction false} EndsSoon(g: Rules, t: Tree, a: Analysis, x: nat, y: nat)
    requires 4 * |g| + 4 * RulesInAll(g) < x <= y && 4 * RulesIn(t) < x
    ensures Stops(g, t, a, x) == Stops(g, t, a, y)
    decreases y
  {
    if x < y {
      EndsSoon(g, t, a, x, y - 1);
      SteadyFrom(g, y - 2);
      EndsNext(g, t, a, y - 2);
    }
  }

  // ---- The analyses that code generation starts ------------------------------------------------

  /** All analyses that `codegen` starts for the pattern end. `codechoice` asks for the first set of the
    second option only when the first one does not decide, `codeseq1` only when it is needed. */
  predicate AnalysesEnd(g: Rules, t: Tree, b: nat)
    decreases t
  {
    match t
    case Choice(p1, p2) =>
      && Stops(g, p1, First, b) && Stops(g, p1, Head, b)
      && (!HeadFail(g, p1, b) && !GetFirst(g, p1, Full(), b).1 ==> Stops(g, p2, First, b))
      && AnalysesEnd(g, p1, b) && AnalysesEnd(g, p2, b)
    case Rep(p) =>
      ToCharset(p) != [] || (Stops(g, p, First, b) && Stops(g, p, Head, b) && AnalysesEnd(g, p, b))
    case Not(p) =>
      Stops(g, p, First, b) && Stops(g, p, Head, b) && (HeadFail(g, p, b) || AnalysesEnd(g, p, b))
    case And(p) => AnalysesEnd(g, p, b)
    case Behind(_, p) => AnalysesEnd(g, p, b)
    case Capture(_, _, p) => AnalysesEnd(g, p, b)
    case Seq(p1, p2) =>
      (NeedFollow(p1) ==> Stops(g, p2, First, b)) && AnalysesEnd(g, p1, b) && AnalysesEnd(g, p2, b)
    case Grammar(rs) => forall k :: 0 <= k < |rs| ==> AnalysesEnd(rs, rs[k], b)
    case _ => true
  }

  lemma {:induction false} AnalysesMore(g: Rules, t: Tree, b: nat, x: nat)
    requires AnalysesEnd(g, t, b) && b <= x
    ensures AnalysesEnd(g, t, x)
    decreases t
  {
    match t
    case Choice(p1, p2) =>
      FirstMore(g, p1, Full(), b, x);
      HeadMore(g, p1, b, x);
      FirstMore(g, p1, Full(), x, x);
      HeadMore(g, p1, x, x);
      if Stops(g, p2, First, b) { EndsMore(g, p2, First, b, x); }
      AnalysesMore(g, p1, b, x);
      AnalysesMore(g, p2, b, x);
    case Rep(p) =>
      if ToCharset(p) == [] {
        EndsMore(g, p, First, b, x);
        EndsMore(g, p, Head, b, x);
        AnalysesMore(g, p, b, x);
      }
    case Not(p) =>
      EndsMore(g, p, First, b, x);
      HeadMore(g, p, b, x);
      HeadMore(g, p, x, x);
      if !HeadFail(g, p, b) { AnalysesMore(g, p, b, x); }
    case And(p) => AnalysesMore(g, p, b, x);
    case Behind(_, p) => AnalysesMore(g, p, b, x);
    case Capture(_, _, p) => AnalysesMore(g, p, b, x);
    case Seq(p1, p2) =>
      if NeedFollow(p1) { EndsMore(g, p2, First, b, x); }
      AnalysesMore(g, p1, b, x);
      AnalysesMore(g, p2, b, x);
    case Grammar(rs) =>
      forall k | 0 <= k < |rs| ensures AnalysesEnd(rs, rs[k], x) { AnalysesMore(rs, rs[k], b, x); }
    case _ =>
  }

  /** So many calls are enough for all that the compiler asks. */
  ghost predicate Plenty(g: Rules, t: Tree, x: nat)
  {
    4 * |g| + 4 * RulesInAll(g) < x && 4 * RulesIn(t) < x
  }

  /** If they end at all, they end within that many calls: that is the decision. */
  lemma {:induction false} AnalysesSoon(g: Rules, t: Tree, x: nat, y: nat)
    requires Plenty(g, t, x) && AnalysesEnd(g, t, y)
    ensures AnalysesEnd(g, t, x)
    decreases t
  {
    if y <= x {
      AnalysesMore(g, t, y, x);
    } else {
      match t
      case Choice(p1, p2) =>
        EndsSoon(g, p1, First, x, y);
        EndsSoon(g, p1, Head, x, y);
        FirstMore(g, p1, Full(), x, y);
        HeadMore(g, p1, x, y);
        FirstMore(g, p1, Full(), y, y);
        HeadMore(g, p1, y, y);
        EndsSoon(g, p2, First, x, y);
        AnalysesSoon(g, p1, x, y);
        AnalysesSoon(g, p2, x, y);
      case Rep(p) =>
        if ToCharset(p) == [] {
          EndsSoon(g, p, First, x, y);
          EndsSoon(g, p, Head, x, y);
          AnalysesSoon(g, p, x, y);
        }
      case Not(p) =>
        EndsSoon(g, p, First, x, y);
        EndsSoon(g, p, Head, x, y);
        HeadMore(g, p, x, y);
        HeadMore(g, p, y, y);
        if !HeadFail(g, p, y) { AnalysesSoon(g, p, x, y); }
      case And(p) => AnalysesSoon(g, p, x, y);
      case Behind(_, p) => AnalysesSoon(g, p, x, y);
      case Capture(_, _, p) => AnalysesSoon(g, p, x, y);
      case Seq(p1, p2) =>
        EndsSoon(g, p2, First, x, y);
        AnalysesSoon(g, p1, x, y);
        AnalysesSoon(g, p2, x, y);
      case Grammar(rs) =>
        forall k | 0 <= k < |rs| ensures AnalysesEnd(rs, rs[k], x) { AnalysesSoon(rs, rs[k], x, y); }
      case _ =>
    }
  }

  // ---- The analyses that the checks start -------------------------------------------------------

  /** Those of `verifyrule`, which asks whether sub-grammars are nullable. */
  predicate VerdictEnds(g: Rules, t: Tree, left: nat, b: nat)
    decreases left, t
  {
    match t
    case Grammar(_) => Stops(g, t, Aux(false), b)
    case Not(p) => VerdictEnds(g, p, left, b)
    case And(p) => VerdictEnds(g, p, left, b)
    case Rep(p) => VerdictEnds(g, p, left, b)
    case Capture(_, _, p) => VerdictEnds(g, p, left, b)
    case Call(k) => k < |g| && left > 0 ==> VerdictEnds(g, g[k], left - 1, b)
    case Seq(p1, p2) =>
      VerdictEnds(g, p1, left, b) && (VerifyRule(g, p1, left, false, b) == Passes(true) ==> VerdictEnds(g, p2, left, b))
    case Choice(p1, p2) =>
      VerdictEnds(g, p1, left, b) && (VerifyRule(g, p1, left, false, b).Passes? ==> VerdictEnds(g, p2, left, b))
    case _ => true
  }

  /** Those of `checkloops`, which stops at the first repetition whose body is nullable. */
  predicate LoopsEnd(g: Rules, t: Tree, b: nat)
  {
    match t
    case Rep(p) => Stops(g, p, Aux(false), b) && (Nullable(g, p, b) || LoopsEnd(g, p, b))
    case Not(p) => LoopsEnd(g, p, b)
    case And(p) => LoopsEnd(g, p, b)
    case Behind(_, p) => LoopsEnd(g, p, b)
    case Capture(_, _, p) => LoopsEnd(g, p, b)
    case Seq(p1, p2) => LoopsEnd(g, p1, b) && (CheckLoops(g, p1, b) || LoopsEnd(g, p2, b))
    case Choice(p1, p2) => LoopsEnd(g, p1, b) && (CheckLoops(g, p1, b) || LoopsEnd(g, p2, b))
    case _ => true
  }

  /** `verifygrammar` ends for every grammar in the pattern. */
  predicate ChecksEnd(t: Tree, b: nat)
  {
    match t
    case Grammar(rs) =>
      && (forall k :: k in UsedRules(rs) && k < |rs| ==> VerdictEnds(rs, rs[k], MAXRULES, b) && LoopsEnd(rs, rs[k], b))
      && forall k :: 0 <= k < |rs| ==> ChecksEnd(rs[k], b)
    case Rep(p) => ChecksEnd(p, b)
    case Not(p) => ChecksEnd(p, b)
    case And(p) => ChecksEnd(p, b)
    case Behind(_, p) => ChecksEnd(p, b)
    case Capture(_, _, p) => ChecksEnd(p, b)
    case Seq(p1, p2) => ChecksEnd(p1, b) && ChecksEnd(p2, b)
    case Choice(p1, p2) => ChecksEnd(p1, b) && ChecksEnd(p2, b)
    case _ => true
  }

  // ---- And then the code is that of every larger bound ------------------------------------------

  ghost predicate SameGen(g: Rules, t: Tree, x: nat, y: nat)
  {
    forall opt, tt, fl :: Gen(g, t, opt, tt, fl, x) == Gen(g, t, opt, tt, fl, y)
  }

  ghost predicate SameFirst(g: Rules, t: Tree, x: nat, y: nat)
  {
    forall fl :: GetFirst(g, t, fl, x) == GetFirst(g, t, fl, y)
  }

  lemma FirstSame(g: Rules, t: Tree, x: nat, y: nat)
    requires Stops(g, t, First, x) && x <= y
    ensures SameFirst(g, t, x, y)
  {
    forall fl ensures GetFirst(g, t, fl, x) == GetFirst(g, t, fl, y) {
      FirstAny(g, t, Full(), fl, x);
      FirstMore(g, t, fl, x, y);
      FirstMore(g, t, fl, y, y);
    }
  }

  lemma HeadSame(g: Rules, t: Tree, x: nat, y: nat)
    requires Stops(g, t, Head, x) && x <= y
    ensures HeadFail(g, t, x) == HeadFail(g, t, y)
  {
    HeadMore(g, t, x, y);
    HeadMore(g, t, y, y);
  }

  /** The length and the captures of a pattern are settled. */
  ghost predicate SameShape(g: Rules, t: Tree, x: nat, y: nat)
  {
    FixedLen(g, t, x) == FixedLen(g, t, y) && HasCaptures(g, t, {}, x) == HasCaptures(g, t, {}, y)
  }

  lemma ShapeSame(g: Rules, t: Tree, x: nat, y: nat)
    requires Plenty(g, t, x) && x <= y
    ensures SameShape(g, t, x, y)
  {
    FixedStable(g, t, x, y);
    AllUnseen(g);
    CapturesStable(g, t, {}, x, y);
  }

  lemma SameSeq(g: Rules, p1: Tree, p2: Tree, x: nat, y: nat)
    requires SameGen(g, p1, x, y) && SameGen(g, p2, x, y) && SameShape(g, p1, x, y)
    requires NeedFollow(p1) ==> SameFirst(g, p2, x, y)
    ensures SameGen(g, Seq(p1, p2), x, y)
  {
  }

  /** The choice is decided by a test with one bound exactly if it is with the other. */
  ghost predicate SameTest(g: Rules, p1: Tree, p2: Tree, x: nat, y: nat)
  {
    forall fl :: ChoiceByTest(g, p1, p2, fl, x) == ChoiceByTest(g, p1, p2, fl, y)
  }

  lemma TestSame(g: Rules, p1: Tree, p2: Tree, x: nat, y: nat)
    requires SameFirst(g, p1, x, y) && HeadFail(g, p1, x) == HeadFail(g, p1, y)
    requires !HeadFail(g, p1, x) && !GetFirst(g, p1, Full(), x).1 ==> SameFirst(g, p2, x, y)
    ensures SameTest(g, p1, p2, x, y)
  {
  }

  lemma SameChoice(g: Rules, p1: Tree, p2: Tree, x: nat, y: nat)
    requires SameGen(g, p1, x, y) && SameGen(g, p2, x, y) && SameFirst(g, p1, x, y) && SameTest(g, p1, p2, x, y)
    ensures SameGen(g, Choice(p1, p2), x, y)
  {
  }

  lemma SameRep(g: Rules, p: Tree, x: nat, y: nat)
    requires SameGen(g, p, x, y) && SameFirst(g, p, x, y) && HeadFail(g, p, x) == HeadFail(g, p, y)
    ensures SameGen(g, Rep(p), x, y)
  {
  }

  lemma SameNot(g: Rules, p: Tree, x: nat, y: nat)
    requires SameFirst(g, p, x, y) && HeadFail(g, p, x) == HeadFail(g, p, y)
    requires !HeadFail(g, p, x) ==> SameGen(g, p, x, y)
    ensures SameGen(g, Not(p), x, y)
  {
  }

  lemma SameShell(g: Rules, t: Tree, x: nat, y: nat)
    requires t.And? || t.Behind? || t.Capture?
    requires SameGen(g, t.p, x, y) && SameShape(g, t.p, x, y)
    ensures SameGen(g, t, x, y)
  {
  }

  lemma SameGrammar(g: Rules, rs: Rules, x: nat, y: nat)
    requires forall k :: 0 <= k < |rs| ==> SameGen(rs, rs[k], x, y)
    ensures SameGen(g, Grammar(rs), x, y)
  {
    var cs := seq(|rs|, k requires 0 <= k < |rs| => Gen(rs, rs[k], false, NoGuard, Full(), x) + Ins(IRet));
    var cs' := seq(|rs|, k requires 0 <= k < |rs| => Gen(rs, rs[k], false, NoGuard, Full(), y) + Ins(IRet));
    forall k | 0 <= k < |rs| ensures cs[k] == cs'[k] { assert SameGen(rs, rs[k], x, y); }
    assert cs == cs';
  }

  /** When the analyses end and lengths are settled, more calls do not change the code. */
  lemma {:induction false} GenSame(g: Rules, t: Tree, x: nat, y: nat)
    requires AnalysesEnd(g, t, x) && Plenty(g, t, x) && x <= y
    ensures SameGen(g, t, x, y)
    decreases t
  {
    match t
    case Seq(p1, p2) =>
      if NeedFollow(p1) { FirstSame(g, p2, x, y); }
      ShapeSame(g, p1, x, y);
      GenSame(g, p1, x, y);
      GenSame(g, p2, x, y);
      SameSeq(g, p1, p2, x, y);
    case Choice(p1, p2) =>
      FirstSame(g, p1, x, y);
      HeadSame(g, p1, x, y);
      if !HeadFail(g, p1, x) && !GetFirst(g, p1, Full(), x).1 { FirstSame(g, p2, x, y); }
      GenSame(g, p1, x, y);
      GenSame(g, p2, x, y);
      TestSame(g, p1, p2, x, y);
      SameChoice(g, p1, p2, x, y);
    case Rep(p) =>
      if ToCharset(p) == [] {
        FirstSame(g, p, x, y);
        HeadSame(g, p, x, y);
        GenSame(g, p, x, y);
        SameRep(g, p, x, y);
      }
    case Not(p) =>
      FirstSame(g, p, x, y);
      HeadSame(g, p, x, y);
      if !HeadFail(g, p, x) { GenSame(g, p, x, y); }
      SameNot(g, p, x, y);
    case And(p) => ShapeSame(g, p, x, y); GenSame(g, p, x, y); SameShell(g, t, x, y);
    case Behind(_, p) => ShapeSame(g, p, x, y); GenSame(g, p, x, y); SameShell(g, t, x, y);
    case Capture(_, _, p) => ShapeSame(g, p, x, y); GenSame(g, p, x, y); SameShell(g, t, x, y);
    case Grammar(rs) =>
      forall k | 0 <= k < |rs| ensures SameGen(rs, rs[k], x, y) { GenSame(rs, rs[k], x, y); }
      SameGrammar(g, rs, x, y);
    case _ =>
  }

  lemma EmitSame(t: Tree, x: nat, y: nat)
    requires AnalysesEnd([], t, x) && 4 * RulesIn(t) < x <= y
    ensures Emit(t, x) == Emit(t, y)
  {
    GenSame([], t, x, y);
    assert Gen([], t, false, NoGuard, Full(), x) == Gen([], t, false, NoGuard, Full(), y);
  }
}
