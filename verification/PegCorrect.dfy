/** Generated code does what the pattern means, for every pattern. */
module PegCorrect {
  import opened Basics
  import opened PegTree
  import opened PegAnalysis
  import opened PegVm
  import opened PegCodegen
  import opened PegShapes
  import opened PegGrammar

  /** What the pattern constructors check: calls name rules, look-behinds have a fixed length and
    no captures, grammars have an initial rule. */
  ghost predicate WellFormed(g: Rules, t: Tree, b: nat)
    decreases t
  {
    match t
    case Call(k) => k < |g|
    case Grammar(rs) => rs != [] && forall k :: 0 <= k < |rs| ==> WellFormed(rs, rs[k], b)
    case Behind(n, p) =>
      n == OpenLen(p, b) && n <= MAXBEHIND && !OpenCaptures(p, b) && WellFormed(g, p, b)
    case Rep(p) => WellFormed(g, p, b)
    case Not(p) => WellFormed(g, p, b)
    case And(p) => WellFormed(g, p, b)
    case Capture(_, _, p) => WellFormed(g, p, b)
    case Seq(p1, p2) => WellFormed(g, p1, b) && WellFormed(g, p2, b)
    case Choice(p1, p2) => WellFormed(g, p1, b) && WellFormed(g, p2, b)
    case _ => true
  }

  ghost function RuleCode(g: Rules, t: Tree, b: nat): Code
  {
    Gen(g, t, false, NoGuard, Full(), b) + Ins(IRet)
  }

  /** Rule `k` of the context is well formed and stands at its position. */
  ghost predicate RuleOk(c: Ctx, k: int)
  {
    0 <= k < |c.g| ==> WellFormed(c.g, c.g[k], c.b) && k < |c.pos| && Fits(c, c.pos[k], RuleCode(c.g, c.g[k], c.b))
  }

  ghost predicate CtxOk(c: Ctx)
  {
    |c.pos| == |c.g| && forall k :: RuleOk(c, k)
  }

  ghost function Meanings(g: Rules, t: Tree, s: Subject, fuel: nat): (o: Table)
    ensures |o| == |s| + 1
    ensures forall i :: 0 <= i <= |s| ==> o[i] == Parse(g, t, s, i, fuel)
  {
    seq(|s| + 1, i requires 0 <= i <= |s| => Parse(g, t, s, i, fuel))
  }

  /** The job is for a well-formed pattern and has the code generated for it. */
  ghost predicate Generated(c: Ctx, t: Tree, w: Job)
  {
    forall n :: Look(n) ==> WellFormed(c.g, t, c.b) && w.code == Gen(c.g, t, w.opt, w.tt, w.fl, c.b)
  }

  /** The job that code generation makes of a pattern. */
  lemma JobFor(c: Ctx, t: Tree, opt: bool, tt: Guard, fl: Charset, fuel: nat, code: Code) returns (w: Job)
    requires WellFormed(c.g, t, c.b) && code == Gen(c.g, t, opt, tt, fl, c.b)
    ensures w.opt == opt && w.tt == tt && w.fl == fl && w.code == code && Generated(c, t, w) && Means(c, t, fuel, w)
  {
    w := Job(Meanings(c.g, t, c.s, fuel), code, opt, tt, fl);
  }

  /** The job holds the meanings of the pattern, as far as this fuel shows them. */
  ghost predicate Means(c: Ctx, t: Tree, fuel: nat, w: Job) { w.o == Meanings(c.g, t, c.s, fuel) }

  lemma SimSeq(c: Ctx, p1: Tree, p2: Tree, fuel: nat, w: Job, w1: Job, w2: Job)
    requires fuel > 0 && Means(c, Seq(p1, p2), fuel, w) && Means(c, p1, fuel - 1, w1) && Means(c, p2, fuel - 1, w2)
    requires Simulates(c, w1) && Simulates(c, w2)
    requires w.code == w1.code + w2.code
    requires !w1.opt && w1.tt == w.tt && (w1.fl == Full() || w1.fl == GetFirst(c.g, p2, w.fl, c.b).0)
    requires w2.opt == w.opt && w2.fl == w.fl && w2.tt == (if FixedLen(c.g, p1, c.b) == 0 then w.tt else NoGuard)
    ensures Simulates(c, w)
  {
    FirstTable(c, p2, w.fl, fuel - 1);
    forall a | Ready(c, w, a) ensures exists x :: Leads(c, w, a, x) {
      FixedLenSound(c.g, p1, c.b, c.s, a.at, fuel - 1);
      var x := SeqAt(c, w, w1, w2, a);
    }
  }

  lemma FirstTable(c: Ctx, t: Tree, fl: Charset, fuel: nat)
    ensures IsFirst(c.s, Meanings(c.g, t, c.s, fuel), fl, GetFirst(c.g, t, fl, c.b).0)
  {
    var o := Meanings(c.g, t, c.s, fuel);
    forall i | 0 <= i < |c.s| && i < |o| && c.s[i] !in GetFirst(c.g, t, fl, c.b).0 && o[i].Ok?
      ensures o[i].pos == i && c.s[i] !in fl
    {
      FirstSound(c.g, t, fl, c.b, c.s, i, fuel);
    }
  }

  lemma TurnsAwayTable(c: Ctx, t: Tree, fuel: nat)
    requires !GetFirst(c.g, t, Full(), c.b).1
    ensures TurnsAway(c.s, Meanings(c.g, t, c.s, fuel), GetFirst(c.g, t, Full(), c.b).0)
  {
    var o, cs := Meanings(c.g, t, c.s, fuel), GetFirst(c.g, t, Full(), c.b).0;
    forall i | 0 <= i < |o| && !Sees(c.s, i, cs) ensures !o[i].Ok? {
      if i == |c.s| {
        FirstEmptySound(c.g, t, Full(), c.b, c.s, fuel);
      } else {
        FirstSound(c.g, t, Full(), c.b, c.s, i, fuel);
      }
    }
  }

  /** Where the test lets the first option begin and it fails, the second does not consume anything. */
  lemma TestedFails(c: Ctx, p1: Tree, p2: Tree, fl: Charset, fuel: nat, i: nat)
    requires ChoiceByTest(c.g, p1, p2, fl, c.b) && i < |c.s| && c.s[i] in GetFirst(c.g, p1, Full(), c.b).0
    requires Parse(c.g, p1, c.s, i, fuel).Fail?
    ensures var o2 := Parse(c.g, p2, c.s, i, fuel); o2.Ok? ==> o2.pos == i && c.s[i] !in fl
  {
    if HeadFail(c.g, p1, c.b) {
      HeadFailSound(c.g, p1, c.b, c.s, i, fuel);
    } else {
      FirstSound(c.g, p2, fl, c.b, c.s, i, fuel);
    }
  }

  lemma SimChoiceTest(c: Ctx, p1: Tree, p2: Tree, fuel: nat, w: Job, w1: Job, w2: Job, cs: Charset, emptyp2: bool)
    requires fuel > 0 && Means(c, Choice(p1, p2), fuel, w) && Means(c, p1, fuel - 1, w1) && Means(c, p2, fuel - 1, w2)
    requires Simulates(c, w1) && Simulates(c, w2)
    requires ChoiceByTest(c.g, p1, p2, w.fl, c.b) && cs == GetFirst(c.g, p1, Full(), c.b).0
    requires w.code == ChoiceTestShape(cs, w1.code, emptyp2, w2.code) && (emptyp2 ==> w2.code == [])
    requires !w1.opt && w1.tt == GuardOf(cs) && w1.fl == w.fl
    requires w2.opt == w.opt && w2.tt == NoGuard && w2.fl == w.fl
    ensures Simulates(c, w)
  {
    if HeadFail(c.g, p1, c.b) { HeadFailTest(c.g, p1, Full(), c.b); }
    TurnsAwayTable(c, p1, fuel - 1);
    forall a | Ready(c, w, a) ensures exists x :: Leads(c, w, a, x) {
      if Sees(c.s, a.at, cs) && w1.o[a.at].Fail? { TestedFails(c, p1, p2, w.fl, fuel - 1, a.at); }
      var x := ChoiceTestAt(c, w, w1, w2, cs, emptyp2, a);
    }
  }

  lemma SimChoicePartial(c: Ctx, p1: Tree, fuel: nat, w: Job, w1: Job)
    requires fuel > 0 && Means(c, Choice(p1, True), fuel, w) && Means(c, p1, fuel - 1, w1)
    requires Simulates(c, w1)
    requires w.code == ChoicePartialShape(w1.code) && w.opt
    requires w1.opt && w1.tt == NoGuard && w1.fl == Full()
    ensures Simulates(c, w)
  {
    forall a | Ready(c, w, a) ensures exists x :: Leads(c, w, a, x) {
      assert Parse(c.g, True, c.s, a.at, fuel - 1) == if fuel > 1 then Ok(a.at, []) else Stuck;
      var x := ChoicePartialAt(c, w, w1, a);
    }
  }

  lemma SimChoiceBack(c: Ctx, p1: Tree, p2: Tree, fuel: nat, w: Job, w1: Job, w2: Job, cs: Charset, e: bool)
    requires fuel > 0 && Means(c, Choice(p1, p2), fuel, w) && Means(c, p1, fuel - 1, w1) && Means(c, p2, fuel - 1, w2)
    requires Simulates(c, w1) && Simulates(c, w2)
    requires (cs, e) == GetFirst(c.g, p1, Full(), c.b)
    requires w.code == ChoiceBackShape(cs, e, w1.code, w2.code)
    requires w1.opt ==> w2.code == [] && !w.opt
    requires w1.tt == (if e then NoGuard else GuardOf(cs)) && w1.fl == Full()
    requires w2.opt == w.opt && w2.tt == NoGuard && w2.fl == w.fl
    ensures Simulates(c, w)
  {
    if !e { TurnsAwayTable(c, p1, fuel - 1); }
    forall a | Ready(c, w, a) ensures exists x :: Leads(c, w, a, x) {
      var x := ChoiceBackAt(c, w, w1, w2, cs, e, a);
    }
  }

  /** An outcome of a repetition comes from finitely many outcomes of its body. */
  lemma {:induction false} RepeatsOf(g: Rules, p: Tree, s: Subject, i: nat, fuel: nat, more: nat) returns (n: nat)
    requires i <= |s| && fuel <= more + 1 && Parse(g, Rep(p), s, i, fuel) != Stuck
    ensures Repeats(Meanings(g, p, s, more), i, n, Parse(g, Rep(p), s, i, fuel))
    decreases fuel
  {
    ParseStable(g, p, s, i, fuel - 1, more);
    var o := Parse(g, p, s, i, fuel - 1);
    n := 0;
    if o.Ok? {
      n := RepeatsOf(g, p, s, o.pos, fuel - 1, more);
      n := n + 1;
    }
  }

  lemma {:induction false} SpanOf(g: Rules, p: Tree, s: Subject, i: nat, fuel: nat)
    requires i <= |s| && ToCharset(p) != [] && Parse(g, Rep(p), s, i, fuel) != Stuck
    ensures Parse(g, Rep(p), s, i, fuel) == Ok(SpanEnd(ToCharset(p)[0], s, i), [])
    decreases fuel
  {
    assert fuel > 1 ==> Parse(g, p, s, i, fuel - 1) == ParseSet(ToCharset(p)[0], s, i);
    if i < |s| && s[i] in ToCharset(p)[0] {
      SpanOf(g, p, s, i + 1, fuel - 1);
    }
  }

  lemma SimRepSpan(c: Ctx, p: Tree, fuel: nat, w: Job)
    requires ToCharset(p) != [] && Means(c, Rep(p), fuel, w) && w.code == Ins(ISpan(ToCharset(p)[0]))
    ensures Simulates(c, w)
  {
    forall a | Ready(c, w, a) ensures exists x :: Leads(c, w, a, x) {
      SpanOf(c.g, p, c.s, a.at, fuel);
      var x := RepSpanAt(c, w, ToCharset(p)[0], a);
    }
  }

  lemma SimRepTest(c: Ctx, p: Tree, fuel: nat, w: Job, w1: Job, cs: Charset)
    requires fuel > 0 && Means(c, Rep(p), fuel, w) && Means(c, p, fuel - 1, w1) && Simulates(c, w1)
    requires RepByTest(c.g, p, w.fl, c.b) && cs == GetFirst(c.g, p, Full(), c.b).0
    requires w.code == RepTestShape(cs, w1.code)
    requires !w1.opt && w1.tt == GuardOf(cs) && w1.fl == Full()
    ensures Simulates(c, w)
  {
    if HeadFail(c.g, p, c.b) { HeadFailTest(c.g, p, Full(), c.b); }
    TurnsAwayTable(c, p, fuel - 1);
    forall i | 0 <= i < |w1.o| && Sees(c.s, i, cs) && w1.o[i].Fail? ensures c.s[i] !in w.fl {
      if HeadFail(c.g, p, c.b) {
        HeadFailSound(c.g, p, c.b, c.s, i, fuel - 1);
      }
    }
    forall a | Ready(c, w, a) ensures exists x :: Leads(c, w, a, x) {
      var n := RepeatsOf(c.g, p, c.s, a.at, fuel, fuel - 1);
      var x := RepTestAt(c, w, w1, cs, n, a);
    }
  }

  lemma SimRepBack(c: Ctx, p: Tree, fuel: nat, w: Job, w1: Job, cs: Charset, e: bool)
    requires fuel > 0 && Means(c, Rep(p), fuel, w) && Means(c, p, fuel - 1, w1) && Simulates(c, w1)
    requires (cs, e) == GetFirst(c.g, p, Full(), c.b)
    requires w.code == RepBackShape(cs, e, w.opt, w1.code)
    requires !w1.opt && w1.tt == NoGuard && w1.fl == Full()
    ensures Simulates(c, w)
  {
    if !e { TurnsAwayTable(c, p, fuel - 1); }
    forall a | Ready(c, w, a) ensures exists x :: Leads(c, w, a, x) {
      var n := RepeatsOf(c.g, p, c.s, a.at, fuel, fuel - 1);
      var x := RepBackAt(c, w, w1, cs, e, n, a);
    }
  }

  lemma SimNotTest(c: Ctx, p: Tree, fuel: nat, w: Job, cs: Charset)
    requires fuel > 0 && Means(c, Not(p), fuel, w) && HeadFail(c.g, p, c.b) && cs == GetFirst(c.g, p, Full(), c.b).0
    requires w.code == NotTestShape(cs, false)
    ensures Simulates(c, w)
  {
    var o1 := Meanings(c.g, p, c.s, fuel - 1);
    forall i | 0 <= i < |o1| ensures if Sees(c.s, i, cs) then !o1[i].Fail? else !o1[i].Ok? {
      if o1[i] != Stuck { HeadFailExact(c.g, p, c.b, c.s, i, fuel - 1); }
    }
    forall a | Ready(c, w, a) ensures exists x :: Leads(c, w, a, x) {
      var x := NotTestAt(c, w, o1, cs, a);
    }
  }

  lemma SimNotBack(c: Ctx, p: Tree, fuel: nat, w: Job, w1: Job, cs: Charset, e: bool)
    requires fuel > 0 && Means(c, Not(p), fuel, w) && Means(c, p, fuel - 1, w1) && Simulates(c, w1)
    requires (cs, e) == GetFirst(c.g, p, Full(), c.b)
    requires w.code == NotBackShape(cs, e, w1.code)
    requires !w1.opt && w1.tt == NoGuard && w1.fl == Full()
    ensures Simulates(c, w)
  {
    if !e { TurnsAwayTable(c, p, fuel - 1); }
    forall a | Ready(c, w, a) ensures exists x :: Leads(c, w, a, x) {
      var x := NotBackAt(c, w, w1, cs, e, a);
    }
  }

  /** A pattern of fixed length without captures. */
  lemma PlainAt(c: Ctx, t: Tree, i: nat, fuel: nat)
    requires i <= |c.s| && FixedLen(c.g, t, c.b) >= 0 && !HasCaptures(c.g, t, {}, c.b)
    ensures var o := Parse(c.g, t, c.s, i, fuel); o.Ok? ==> o == Ok(i + FixedLen(c.g, t, c.b), [])
  {
    FixedLenSound(c.g, t, c.b, c.s, i, fuel);
    HasCapturesSound(c.g, t, {}, c.b, c.s, i, fuel);
  }

  lemma SimAndBehind(c: Ctx, p: Tree, fuel: nat, w: Job, w1: Job, n: nat)
    requires fuel > 0 && Means(c, And(p), fuel, w) && Means(c, p, fuel - 1, w1) && Simulates(c, w1)
    requires n == FixedLen(c.g, p, c.b) && !HasCaptures(c.g, p, {}, c.b)
    requires w.code == w1.code + GoBack(n)
    requires !w1.opt && w1.tt == w.tt && w1.fl == Full()
    ensures Simulates(c, w)
  {
    forall a | Ready(c, w, a) ensures exists x :: Leads(c, w, a, x) {
      PlainAt(c, p, a.at, fuel - 1);
      var x := AndBehindAt(c, w, w1, n, a);
    }
  }

  lemma SimAndBack(c: Ctx, p: Tree, fuel: nat, w: Job, w1: Job)
    requires fuel > 0 && Means(c, And(p), fuel, w) && Means(c, p, fuel - 1, w1) && Simulates(c, w1)
    requires w.code == AndBackShape(w1.code)
    requires !w1.opt && w1.tt == w.tt && w1.fl == Full()
    ensures Simulates(c, w)
  {
    forall a | Ready(c, w, a) ensures exists x :: Leads(c, w, a, x) {
      var x := AndBackAt(c, w, w1, a);
    }
  }

  lemma BehindPlainAt(c: Ctx, t: Tree, i: nat, n: nat, fuel: nat)
    requires n <= i <= |c.s| && n == OpenLen(t, c.b) && !OpenCaptures(t, c.b)
    ensures var o := Parse(c.g, t, c.s, i - n, fuel); o.Ok? ==> o == Ok(i, [])
  {
    OpenSound(c.g, t, c.b, c.s, i - n, fuel);
  }

  lemma BehindMeaning(c: Ctx, p: Tree, i: nat, n: nat, fuel: nat, w: Job, w1: Job)
    requires fuel > 0 && Means(c, Behind(n, p), fuel, w) && Means(c, p, fuel - 1, w1) && i <= |c.s|
    requires n == OpenLen(p, c.b) && !OpenCaptures(p, c.b)
    ensures w.o[i] == if n > i then Fail else AndOutcome(w1.o[i - n], i)
    ensures n <= i && w1.o[i - n].Ok? ==> w1.o[i - n] == Ok(i, [])
  {
    BehindParse(c.g, p, c.s, i, n, fuel, w.o[i]);
    if n <= i { BehindPlainAt(c, p, i, n, fuel - 1); }
  }

  lemma BehindParse(g: Rules, p: Tree, s: Subject, i: nat, n: nat, fuel: nat, o: Outcome)
    requires fuel > 0 && i <= |s| && o == Parse(g, Behind(n, p), s, i, fuel)
    ensures o == if n > i then Fail else AndOutcome(Parse(g, p, s, i - n, fuel - 1), i)
  {
  }

  lemma SimBehind(c: Ctx, p: Tree, fuel: nat, w: Job, w1: Job, n: nat)
    requires fuel > 0 && Means(c, Behind(n, p), fuel, w) && Means(c, p, fuel - 1, w1) && Simulates(c, w1)
    requires n == OpenLen(p, c.b) && !OpenCaptures(p, c.b)
    requires w.code == GoBack(n) + w1.code
    requires !w1.opt && w1.tt == NoGuard && w1.fl == Full()
    ensures Simulates(c, w)
  {
    forall a | Ready(c, w, a) ensures exists x :: Leads(c, w, a, x) {
      var x := BehindLeads(c, p, fuel, w, w1, n, a);
    }
  }

  lemma BehindLeads(c: Ctx, p: Tree, fuel: nat, w: Job, w1: Job, n: nat, a: State) returns (x: State)
    requires fuel > 0 && Means(c, Behind(n, p), fuel, w) && Means(c, p, fuel - 1, w1) && Simulates(c, w1)
    requires n == OpenLen(p, c.b) && !OpenCaptures(p, c.b)
    requires w.code == GoBack(n) + w1.code
    requires !w1.opt && w1.tt == NoGuard && w1.fl == Full() && Ready(c, w, a)
    ensures Leads(c, w, a, x)
  {
    BehindMeaning(c, p, a.at, n, fuel, w, w1);
    x := BehindAt(c, w, w1, n, a);
  }

  lemma SimCaptureFull(c: Ctx, p: Tree, kind: nat, key: nat, fuel: nat, w: Job, w1: Job, n: nat)
    requires fuel > 0 && Means(c, Capture(kind, key, p), fuel, w) && Means(c, p, fuel - 1, w1) && Simulates(c, w1)
    requires n == FixedLen(c.g, p, c.b) && !HasCaptures(c.g, p, {}, c.b)
    requires w.code == w1.code + Ins(IFullCapture(kind, key, n))
    requires !w1.opt && w1.tt == w.tt && w1.fl == w.fl
    ensures Simulates(c, w)
  {
    forall a | Ready(c, w, a) ensures exists x :: Leads(c, w, a, x) {
      PlainAt(c, p, a.at, fuel - 1);
      var x := CaptureFullAt(c, w, w1, kind, key, n, a);
    }
  }

  lemma SimCaptureOpen(c: Ctx, p: Tree, kind: nat, key: nat, fuel: nat, w: Job, w1: Job)
    requires fuel > 0 && Means(c, Capture(kind, key, p), fuel, w) && Means(c, p, fuel - 1, w1) && Simulates(c, w1)
    requires w.code == CaptureOpenShape(kind, key, w1.code)
    requires !w1.opt && w1.tt == w.tt && w1.fl == w.fl
    ensures Simulates(c, w)
  {
    forall a | Ready(c, w, a) ensures exists x :: Leads(c, w, a, x) {
      var x := CaptureOpenAt(c, w, w1, kind, key, a);
    }
  }

  lemma SimCall(c: Ctx, k: nat, fuel: nat, w: Job, w1: Job)
    requires k < |c.g| == |c.pos| && fuel > 0 && Means(c, Call(k), fuel, w) && Means(c, c.g[k], fuel - 1, w1)
             && Simulates(c, w1)
    requires w.code == Ins(IOpenCall(k)) && Fits(c, c.pos[k], w1.code + Ins(IRet))
    requires !w1.opt && w1.tt == NoGuard && w1.fl == Full()
    ensures Simulates(c, w)
  {
    forall a | Ready(c, w, a) ensures exists x :: Leads(c, w, a, x) {
      var x := CallAt(c, w, w1, k, a);
    }
  }

  ghost function RuleCodes(rs: Rules, b: nat): (codes: seq<Code>)
    ensures |codes| == |rs| && forall k :: 0 <= k < |rs| ==> codes[k] == RuleCode(rs, rs[k], b)
  {
    seq(|rs|, k requires 0 <= k < |rs| => Gen(rs, rs[k], false, NoGuard, Full(), b) + Ins(IRet))
  }

  lemma InnerOk(c: Ctx, p: int, rs: Rules)
    requires WellFormed(c.g, Grammar(rs), c.b) && Fits(c, p, Rulebook(RuleCodes(rs, c.b)))
    ensures CtxOk(Inner(c, p, rs, RuleCodes(rs, c.b)))
  {
    var codes := RuleCodes(rs, c.b);
    forall k ensures RuleOk(Inner(c, p, rs, codes), k) {
      if 0 <= k < |rs| { RuleFits(c, p, rs, codes, k); }
    }
  }

  /** The first rule, in the context of a grammar placed at `p`, does what the grammar means. */
  lemma SimGrammarAt(c: Ctx, rs: Rules, fuel: nat, w: Job, codes: seq<Code>, w1: Job, a: State)
    requires rs != [] && |codes| == |rs|
    requires fuel > 0 && Means(c, Grammar(rs), fuel, w) && Ready(c, w, a) && w.code == Rulebook(codes)
    requires var in_ := Inner(c, a.p, rs, codes);
             Means(in_, rs[0], fuel - 1, w1) && Simulates(in_, w1) && Fits(in_, a.p + 4, w1.code + Ins(IRet))
    requires !w1.opt && w1.tt == NoGuard && w1.fl == Full()
    ensures exists x :: Leads(c, w, a, x)
  {
    var body := CorrectCalls(Flatten(codes), Positions(codes, 0), 0);
    FitsSplit3(c, a.p, Ins(ICall(4)), Ins(IJmp(2 + |body|)), body);
    var x := GrammarAt(c, w, Inner(c, a.p, rs, codes), w1, |body|, a);
  }

  lemma SimLeaf(c: Ctx, t: Tree, cs: Charset, fuel: nat, w: Job)
    requires fuel > 0 && Means(c, t, fuel, w)
    requires forall i :: 0 <= i <= |c.s| ==> Parse(c.g, t, c.s, i, fuel) == ParseSet(cs, c.s, i)
    requires w.code == CodeCharset(cs, w.tt)
    ensures Simulates(c, w)
  {
    forall a | Ready(c, w, a) ensures exists x :: Leads(c, w, a, x) {
      var x := CharsetAt(c, w, cs, a);
    }
  }

  // ---- The simulation --------------------------------------------------------------------

  lemma SeqJobs(c: Ctx, t: Tree, w: Job, fuel: nat) returns (w1: Job, w2: Job)
    requires t.Seq? && Generated(c, t, w)
    ensures Generated(c, t.p1, w1) && Generated(c, t.p2, w2) && Means(c, t.p1, fuel, w1) && Means(c, t.p2, fuel, w2)
    ensures w.code == w1.code + w2.code
    ensures !w1.opt && w1.tt == w.tt && (w1.fl == Full() || w1.fl == GetFirst(c.g, t.p2, w.fl, c.b).0)
    ensures w2.opt == w.opt && w2.fl == w.fl && w2.tt == (if FixedLen(c.g, t.p1, c.b) == 0 then w.tt else NoGuard)
  {
    assert Look(0);
    var fl1 := if NeedFollow(t.p1) then GetFirst(c.g, t.p2, w.fl, c.b).0 else Full();
    var tt2 := if FixedLen(c.g, t.p1, c.b) == 0 then w.tt else NoGuard;
    w1 := JobFor(c, t.p1, false, w.tt, fl1, fuel, Gen(c.g, t.p1, false, w.tt, fl1, c.b));
    w2 := JobFor(c, t.p2, w.opt, tt2, w.fl, fuel, Gen(c.g, t.p2, w.opt, tt2, w.fl, c.b));
  }

  lemma {:induction false} CaseSeq(c: Ctx, t: Tree, w: Job, fuel: nat)
    requires t.Seq? && CtxOk(c) && Generated(c, t, w) && Means(c, t, fuel, w) && fuel > 0
    ensures Simulates(c, w)
    decreases fuel, 0
  {
    var w1, w2 := SeqJobs(c, t, w, fuel - 1);
    Sim(c, t.p1, w1, fuel - 1);
    Sim(c, t.p2, w2, fuel - 1);
    SimSeq(c, t.p1, t.p2, fuel, w, w1, w2);
  }

  lemma ChoiceTestJobs(c: Ctx, t: Tree, w: Job, fuel: nat) returns (w1: Job, w2: Job)
    requires t.Choice? && Generated(c, t, w) && ChoiceByTest(c.g, t.p1, t.p2, w.fl, c.b)
    ensures Generated(c, t.p1, w1) && Generated(c, t.p2, w2) && Means(c, t.p1, fuel, w1) && Means(c, t.p2, fuel, w2)
    ensures w.code == ChoiceTestShape(GetFirst(c.g, t.p1, Full(), c.b).0, w1.code, t.p2.True?, w2.code)
            && (t.p2.True? ==> w2.code == [])
    ensures !w1.opt && w1.tt == GuardOf(GetFirst(c.g, t.p1, Full(), c.b).0) && w1.fl == w.fl
    ensures w2.opt == w.opt && w2.tt == NoGuard && w2.fl == w.fl
  {
    assert Look(0);
    var tt1 := GuardOf(GetFirst(c.g, t.p1, Full(), c.b).0);
    w1 := JobFor(c, t.p1, false, tt1, w.fl, fuel, Gen(c.g, t.p1, false, tt1, w.fl, c.b));
    w2 := JobFor(c, t.p2, w.opt, NoGuard, w.fl, fuel, Gen(c.g, t.p2, w.opt, NoGuard, w.fl, c.b));
  }

  lemma {:induction false} CaseChoiceTest(c: Ctx, t: Tree, w: Job, fuel: nat)
    requires t.Choice? && CtxOk(c) && Generated(c, t, w) && Means(c, t, fuel, w) && fuel > 0
    requires ChoiceByTest(c.g, t.p1, t.p2, w.fl, c.b)
    ensures Simulates(c, w)
    decreases fuel, 0
  {
    var w1, w2 := ChoiceTestJobs(c, t, w, fuel - 1);
    Sim(c, t.p1, w1, fuel - 1);
    Sim(c, t.p2, w2, fuel - 1);
    SimChoiceTest(c, t.p1, t.p2, fuel, w, w1, w2, GetFirst(c.g, t.p1, Full(), c.b).0, t.p2.True?);
  }

  lemma ChoicePartialJob(c: Ctx, t: Tree, w: Job, fuel: nat) returns (w1: Job)
    requires t.Choice? && Generated(c, t, w) && !ChoiceByTest(c.g, t.p1, t.p2, w.fl, c.b) && w.opt && t.p2.True?
    ensures Generated(c, t.p1, w1) && Means(c, t.p1, fuel, w1) && w.code == ChoicePartialShape(w1.code)
    ensures w1.opt && w1.tt == NoGuard && w1.fl == Full()
  {
    assert Look(0);
    w1 := JobFor(c, t.p1, true, NoGuard, Full(), fuel, Gen(c.g, t.p1, true, NoGuard, Full(), c.b));
  }

  lemma {:induction false} CaseChoicePartial(c: Ctx, t: Tree, w: Job, fuel: nat)
    requires t.Choice? && CtxOk(c) && Generated(c, t, w) && Means(c, t, fuel, w) && fuel > 0
    requires !ChoiceByTest(c.g, t.p1, t.p2, w.fl, c.b) && w.opt && t.p2.True?
    ensures Simulates(c, w)
    decreases fuel, 0
  {
    var w1 := ChoicePartialJob(c, t, w, fuel - 1);
    Sim(c, t.p1, w1, fuel - 1);
    SimChoicePartial(c, t.p1, fuel, w, w1);
  }

  lemma ChoiceBackJobs(c: Ctx, t: Tree, w: Job, fuel: nat, cs: Charset, e: bool) returns (w1: Job, w2: Job)
    requires t.Choice? && Generated(c, t, w) && !ChoiceByTest(c.g, t.p1, t.p2, w.fl, c.b) && !(w.opt && t.p2.True?)
    requires (cs, e) == GetFirst(c.g, t.p1, Full(), c.b)
    ensures Generated(c, t.p1, w1) && Generated(c, t.p2, w2) && Means(c, t.p1, fuel, w1) && Means(c, t.p2, fuel, w2)
    ensures w.code == ChoiceBackShape(cs, e, w1.code, w2.code) && (w1.opt ==> w2.code == [] && !w.opt)
    ensures w1.tt == (if e then NoGuard else GuardOf(cs)) && w1.fl == Full()
    ensures w2.opt == w.opt && w2.tt == NoGuard && w2.fl == w.fl
  {
    assert Look(0);
    var tt1 := if e then NoGuard else GuardOf(cs);
    w1 := JobFor(c, t.p1, t.p2.True?, tt1, Full(), fuel, Gen(c.g, t.p1, t.p2.True?, tt1, Full(), c.b));
    w2 := JobFor(c, t.p2, w.opt, NoGuard, w.fl, fuel, Gen(c.g, t.p2, w.opt, NoGuard, w.fl, c.b));
  }

  lemma {:induction false} CaseChoiceBack(c: Ctx, t: Tree, w: Job, fuel: nat)
    requires t.Choice? && CtxOk(c) && Generated(c, t, w) && Means(c, t, fuel, w) && fuel > 0
    requires !ChoiceByTest(c.g, t.p1, t.p2, w.fl, c.b) && !(w.opt && t.p2.True?)
    ensures Simulates(c, w)
    decreases fuel, 0
  {
    var (cs, e) := GetFirst(c.g, t.p1, Full(), c.b);
    var w1, w2 := ChoiceBackJobs(c, t, w, fuel - 1, cs, e);
    Sim(c, t.p1, w1, fuel - 1);
    Sim(c, t.p2, w2, fuel - 1);
    SimChoiceBack(c, t.p1, t.p2, fuel, w, w1, w2, cs, e);
  }

  lemma RepJob(c: Ctx, t: Tree, w: Job, fuel: nat, cs: Charset, e: bool) returns (w1: Job)
    requires t.Rep? && Generated(c, t, w) && ToCharset(t.p) == [] && (cs, e) == GetFirst(c.g, t.p, Full(), c.b)
    ensures Generated(c, t.p, w1) && Means(c, t.p, fuel, w1) && !w1.opt && w1.fl == Full()
    ensures if RepByTest(c.g, t.p, w.fl, c.b) then w.code == RepTestShape(cs, w1.code) && w1.tt == GuardOf(cs)
            else w.code == RepBackShape(cs, e, w.opt, w1.code) && w1.tt == NoGuard
  {
    assert Look(0);
    var tt1 := if RepByTest(c.g, t.p, w.fl, c.b) then GuardOf(cs) else NoGuard;
    w1 := JobFor(c, t.p, false, tt1, Full(), fuel, Gen(c.g, t.p, false, tt1, Full(), c.b));
  }

  lemma {:induction false} CaseRep(c: Ctx, t: Tree, w: Job, fuel: nat)
    requires t.Rep? && CtxOk(c) && Generated(c, t, w) && Means(c, t, fuel, w) && fuel > 0
    ensures Simulates(c, w)
    decreases fuel, 0
  {
    if ToCharset(t.p) != [] {
      assert Look(0);
      SimRepSpan(c, t.p, fuel, w);
    } else {
      var (cs, e) := GetFirst(c.g, t.p, Full(), c.b);
      var w1 := RepJob(c, t, w, fuel - 1, cs, e);
      Sim(c, t.p, w1, fuel - 1);
      if RepByTest(c.g, t.p, w.fl, c.b) {
        SimRepTest(c, t.p, fuel, w, w1, cs);
      } else {
        SimRepBack(c, t.p, fuel, w, w1, cs, e);
      }
    }
  }

  lemma NotJob(c: Ctx, t: Tree, w: Job, fuel: nat, cs: Charset, e: bool) returns (w1: Job)
    requires t.Not? && Generated(c, t, w) && (cs, e) == GetFirst(c.g, t.p, Full(), c.b)
    ensures if HeadFail(c.g, t.p, c.b) then w.code == NotTestShape(cs, e)
            else && Generated(c, t.p, w1) && Means(c, t.p, fuel, w1) && w.code == NotBackShape(cs, e, w1.code)
                 && !w1.opt && w1.tt == NoGuard && w1.fl == Full()
  {
    assert Look(0);
    w1 := JobFor(c, t.p, false, NoGuard, Full(), fuel, Gen(c.g, t.p, false, NoGuard, Full(), c.b));
  }

  lemma {:induction false} CaseNot(c: Ctx, t: Tree, w: Job, fuel: nat)
    requires t.Not? && CtxOk(c) && Generated(c, t, w) && Means(c, t, fuel, w) && fuel > 0
    ensures Simulates(c, w)
    decreases fuel, 0
  {
    var (cs, e) := GetFirst(c.g, t.p, Full(), c.b);
    var w1 := NotJob(c, t, w, fuel - 1, cs, e);
    if HeadFail(c.g, t.p, c.b) {
      HeadFailTest(c.g, t.p, Full(), c.b);
      SimNotTest(c, t.p, fuel, w, cs);
    } else {
      Sim(c, t.p, w1, fuel - 1);
      SimNotBack(c, t.p, fuel, w, w1, cs, e);
    }
  }

  lemma SimAnd(c: Ctx, p: Tree, fuel: nat, w: Job, w1: Job)
    requires fuel > 0 && Means(c, And(p), fuel, w) && Means(c, p, fuel - 1, w1) && Simulates(c, w1)
    requires w.code == if 0 <= FixedLen(c.g, p, c.b) <= MAXBEHIND && !HasCaptures(c.g, p, {}, c.b)
                       then w1.code + GoBack(FixedLen(c.g, p, c.b)) else AndBackShape(w1.code)
    requires !w1.opt && w1.tt == w.tt && w1.fl == Full()
    ensures Simulates(c, w)
  {
    var n := FixedLen(c.g, p, c.b);
    if 0 <= n <= MAXBEHIND && !HasCaptures(c.g, p, {}, c.b) {
      SimAndBehind(c, p, fuel, w, w1, n);
    } else {
      SimAndBack(c, p, fuel, w, w1);
    }
  }

  lemma AndJob(c: Ctx, t: Tree, w: Job, fuel: nat) returns (w1: Job)
    requires t.And? && Generated(c, t, w)
    ensures Generated(c, t.p, w1) && Means(c, t.p, fuel, w1) && !w1.opt && w1.tt == w.tt && w1.fl == Full()
    ensures w.code == if 0 <= FixedLen(c.g, t.p, c.b) <= MAXBEHIND && !HasCaptures(c.g, t.p, {}, c.b)
                      then w1.code + GoBack(FixedLen(c.g, t.p, c.b)) else AndBackShape(w1.code)
  {
    assert Look(0);
    w1 := JobFor(c, t.p, false, w.tt, Full(), fuel, Gen(c.g, t.p, false, w.tt, Full(), c.b));
  }

  lemma {:induction false} CaseAnd(c: Ctx, t: Tree, w: Job, fuel: nat)
    requires t.And? && CtxOk(c) && Generated(c, t, w) && Means(c, t, fuel, w) && fuel > 0
    ensures Simulates(c, w)
    decreases fuel, 0
  {
    var w1 := AndJob(c, t, w, fuel - 1);
    Sim(c, t.p, w1, fuel - 1);
    SimAnd(c, t.p, fuel, w, w1);
  }

  lemma BehindJob(c: Ctx, t: Tree, w: Job, fuel: nat) returns (w1: Job)
    requires t.Behind? && Generated(c, t, w)
    ensures Generated(c, t.p, w1) && Means(c, t.p, fuel, w1) && !w1.opt && w1.tt == NoGuard && w1.fl == Full()
    ensures w.code == GoBack(t.n) + w1.code && t.n == OpenLen(t.p, c.b) && !OpenCaptures(t.p, c.b)
  {
    assert Look(0);
    w1 := JobFor(c, t.p, false, NoGuard, Full(), fuel, Gen(c.g, t.p, false, NoGuard, Full(), c.b));
  }

  lemma {:induction false} CaseBehind(c: Ctx, t: Tree, w: Job, fuel: nat)
    requires t.Behind? && CtxOk(c) && Generated(c, t, w) && Means(c, t, fuel, w) && fuel > 0
    ensures Simulates(c, w)
    decreases fuel, 0
  {
    var w1 := BehindJob(c, t, w, fuel - 1);
    Sim(c, t.p, w1, fuel - 1);
    SimBehind(c, t.p, fuel, w, w1, t.n);
  }

  lemma CaptureJob(c: Ctx, t: Tree, w: Job, fuel: nat) returns (w1: Job)
    requires t.Capture? && Generated(c, t, w)
    ensures Generated(c, t.p, w1) && Means(c, t.p, fuel, w1) && !w1.opt && w1.tt == w.tt && w1.fl == w.fl
    ensures w.code == if 0 <= FixedLen(c.g, t.p, c.b) <= MAXOFF && !HasCaptures(c.g, t.p, {}, c.b)
                      then w1.code + Ins(IFullCapture(t.kind, t.key, FixedLen(c.g, t.p, c.b)))
                      else CaptureOpenShape(t.kind, t.key, w1.code)
  {
    assert Look(0);
    w1 := JobFor(c, t.p, false, w.tt, w.fl, fuel, Gen(c.g, t.p, false, w.tt, w.fl, c.b));
  }

  lemma {:induction false} CaseCapture(c: Ctx, t: Tree, w: Job, fuel: nat)
    requires t.Capture? && CtxOk(c) && Generated(c, t, w) && Means(c, t, fuel, w) && fuel > 0
    ensures Simulates(c, w)
    decreases fuel, 0
  {
    var w1 := CaptureJob(c, t, w, fuel - 1);
    Sim(c, t.p, w1, fuel - 1);
    var n := FixedLen(c.g, t.p, c.b);
    if 0 <= n <= MAXOFF && !HasCaptures(c.g, t.p, {}, c.b) {
      SimCaptureFull(c, t.p, t.kind, t.key, fuel, w, w1, n);
    } else {
      SimCaptureOpen(c, t.p, t.kind, t.key, fuel, w, w1);
    }
  }

  lemma CallJob(c: Ctx, t: Tree, w: Job, fuel: nat) returns (w1: Job)
    requires t.Call? && CtxOk(c) && Generated(c, t, w)
    ensures t.rule < |c.g| && Generated(c, c.g[t.rule], w1) && Means(c, c.g[t.rule], fuel, w1)
    ensures !w1.opt && w1.tt == NoGuard && w1.fl == Full()
    ensures w.code == Ins(IOpenCall(t.rule)) && Fits(c, c.pos[t.rule], w1.code + Ins(IRet))
  {
    assert Look(0);
    assert RuleOk(c, t.rule);
    w1 := JobFor(c, c.g[t.rule], false, NoGuard, Full(), fuel, Gen(c.g, c.g[t.rule], false, NoGuard, Full(), c.b));
  }

  lemma {:induction false} CaseCall(c: Ctx, t: Tree, w: Job, fuel: nat)
    requires t.Call? && CtxOk(c) && Generated(c, t, w) && Means(c, t, fuel, w) && fuel > 0
    ensures Simulates(c, w)
    decreases fuel, 0
  {
    var w1 := CallJob(c, t, w, fuel - 1);
    Sim(c, c.g[t.rule], w1, fuel - 1);
    SimCall(c, t.rule, fuel, w, w1);
  }

  lemma GrammarCode(g: Rules, rs: Rules, opt: bool, tt: Guard, fl: Charset, b: nat)
    ensures Gen(g, Grammar(rs), opt, tt, fl, b) == Rulebook(RuleCodes(rs, b))
  {
    assert seq(|rs|, k requires 0 <= k < |rs| => Gen(rs, rs[k], false, NoGuard, Full(), b) + Ins(IRet))
      == RuleCodes(rs, b);
  }

  lemma GrammarPlaced(c: Ctx, t: Tree, w: Job) returns (codes: seq<Code>)
    requires t.Grammar? && Generated(c, t, w)
    ensures t.rules != [] && WellFormed(c.g, t, c.b) && codes == RuleCodes(t.rules, c.b) && w.code == Rulebook(codes)
  {
    assert Look(0);
    codes := RuleCodes(t.rules, c.b);
    GrammarCode(c.g, t.rules, w.opt, w.tt, w.fl, c.b);
  }

  lemma GrammarJob(c: Ctx, t: Tree, w: Job, p: int, fuel: nat) returns (codes: seq<Code>, in_: Ctx, w1: Job)
    requires t.Grammar? && Generated(c, t, w) && Fits(c, p, w.code)
    ensures t.rules != [] && codes == RuleCodes(t.rules, c.b) && w.code == Rulebook(codes)
    ensures in_ == Inner(c, p, t.rules, codes) && CtxOk(in_)
    ensures Generated(in_, t.rules[0], w1) && Means(in_, t.rules[0], fuel, w1)
    ensures !w1.opt && w1.tt == NoGuard && w1.fl == Full() && Fits(in_, p + 4, w1.code + Ins(IRet))
  {
    codes := GrammarPlaced(c, t, w);
    in_ := Inner(c, p, t.rules, codes);
    InnerOk(c, p, t.rules);
    w1 := FirstRuleJob(in_, p, fuel);
  }

  lemma FirstRuleJob(c: Ctx, p: int, fuel: nat) returns (w1: Job)
    requires CtxOk(c) && |c.g| > 0 && c.pos[0] == p + 4
    ensures Generated(c, c.g[0], w1) && Means(c, c.g[0], fuel, w1)
    ensures !w1.opt && w1.tt == NoGuard && w1.fl == Full() && Fits(c, p + 4, w1.code + Ins(IRet))
  {
    assert RuleOk(c, 0);
    w1 := JobFor(c, c.g[0], false, NoGuard, Full(), fuel, Gen(c.g, c.g[0], false, NoGuard, Full(), c.b));
  }

  lemma {:induction false} CaseGrammar(c: Ctx, t: Tree, w: Job, fuel: nat)
    requires t.Grammar? && CtxOk(c) && Generated(c, t, w) && Means(c, t, fuel, w) && fuel > 0
    ensures Simulates(c, w)
    decreases fuel, 0
  {
    forall a | Ready(c, w, a) ensures exists x :: Leads(c, w, a, x) {
      var codes, in_, w1 := GrammarJob(c, t, w, a.p, fuel - 1);
      Sim(in_, t.rules[0], w1, fuel - 1);
      SimGrammarAt(c, t.rules, fuel, w, codes, w1, a);
    }
  }

  lemma CaseLeaf(c: Ctx, t: Tree, w: Job, fuel: nat)
    requires (t.Char? || t.Set? || t.Any? || t.True? || t.False?) && fuel > 0
    requires Generated(c, t, w) && Means(c, t, fuel, w)
    ensures Simulates(c, w)
  {
    assert Look(0);
    match t
    case True =>
      forall a | Ready(c, w, a) ensures exists x :: Leads(c, w, a, x) {
        GrownBy0(a.caps);
        assert Leads(c, w, a, a);
      }
    case False => SimLeaf(c, t, {}, fuel, w);
    case Any => SimLeaf(c, t, Full(), fuel, w);
    case Set(cs) => SimLeaf(c, t, cs, fuel, w);
    case Char(ch) => SimLeaf(c, t, {ch}, fuel, w);
  }

  /** The generated code simulates the meaning of the pattern, wherever it stands. */
  lemma {:induction false} Sim(c: Ctx, t: Tree, w: Job, fuel: nat)
    requires CtxOk(c) && Generated(c, t, w) && Means(c, t, fuel, w)
    ensures Simulates(c, w)
    decreases fuel, 1
  {
    if fuel > 0 {
      match t
      case Seq(_, _) => CaseSeq(c, t, w, fuel);
      case Choice(p1, p2) =>
        if ChoiceByTest(c.g, p1, p2, w.fl, c.b) { CaseChoiceTest(c, t, w, fuel); }
        else if w.opt && p2.True? { CaseChoicePartial(c, t, w, fuel); }
        else { CaseChoiceBack(c, t, w, fuel); }
      case Rep(_) => CaseRep(c, t, w, fuel);
      case Not(_) => CaseNot(c, t, w, fuel);
      case And(_) => CaseAnd(c, t, w, fuel);
      case Behind(_, _) => CaseBehind(c, t, w, fuel);
      case Capture(_, _, _) => CaseCapture(c, t, w, fuel);
      case Call(_) => CaseCall(c, t, w, fuel);
      case Grammar(_) => CaseGrammar(c, t, w, fuel);
      case _ => CaseLeaf(c, t, w, fuel);
    }
  }

  // ---- Whole patterns --------------------------------------------------------------------

  /** What `match` returns: the end of the match and the captures, or nothing. */
  ghost predicate Answers(r: Ending, o: Outcome)
  {
    match o
    case Stuck => true
    case Fail => r == Ends(GaveUp)
    case Ok(j, ev) => r.Ends? && r.last.Done? && r.last.at == j && Events(r.last.caps) == ev
  }

  lemma WholeFits(code: Code, s: Subject, b: nat)
    ensures Fits(Ctx(code, s, [], [], b), 0, code)
  {
    var c := Ctx(code, s, [], [], b);
    forall x ensures HoldsAt(c, 0, code, x) {
    }
  }

  /** Matching with the generated code gives the meaning of the pattern. */
  lemma EmitCorrect(t: Tree, b: nat, s: Subject, i: nat, fuel: nat)
    requires WellFormed([], t, b) && i <= |s| && Parse([], t, s, i, fuel) != Stuck
    ensures Answers(Halt(Emit(t, b), s, Run(0, i, Base, [])), Parse([], t, s, i, fuel))
  {
    var code := Emit(t, b);
    var c := Ctx(code, s, [], [], b);
    WholeFits(code, s, b);
    FitsSplit(c, 0, Gen([], t, false, NoGuard, Full(), b), Ins(IEnd));
    var w := JobFor(c, t, false, NoGuard, Full(), fuel, Gen([], t, false, NoGuard, Full(), b));
    Sim(c, t, w, fuel);
    var x := Use(c, w, Run(0, i, Base, []));
    if x.Run? {
      FitsIns(c, x.p, IEnd);
      assert x.caps[0..] == x.caps;
    }
    One(code, s, x);
    HaltIs(code, s, Step(code, s, x), 0);
  }
}
