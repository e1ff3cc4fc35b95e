/** How far the analyses of `lpcode.c` go. `PegAnalysis` shows that they never promise too much; here is that
  they promise as much as can be told without trying predicates and repetitions. */
module PegExact {
  import opened PegTree
  import opened PegAnalysis
  import opened PegVerify
  import opened PegEnding
  import opened Basics

  // ---- checkaux ----------------------------------------------------------------------------------

  /** The pattern without its predicates and repetitions. For `nullable` they all succeed. For `nofail`
    repetitions do, a lookahead does when its pattern does, and the others fail. `n` is how many rules
    can be called. The last alternative comes first, as `checkaux` takes them. */
  function Tame(n: nat, t: Tree, nofail: bool): (r: Tree)
    decreases t
  {
    match t
    case Rep(_) => True
    case Not(_) => if nofail then False else True
    case Behind(_, _) => if nofail then False else True
    case And(p) => if nofail then And(Tame(n, p, nofail)) else True
    case Seq(p1, p2) => Seq(Tame(n, p1, nofail), Tame(n, p2, nofail))
    case Choice(p1, p2) => Choice(Tame(n, p2, nofail), Tame(n, p1, nofail))
    case Capture(kind, key, p) => Capture(kind, key, Tame(n, p, nofail))
    case Grammar(rs) =>
      if rs == [] then (if nofail then False else True)
      else Grammar(seq(|rs|, i requires 0 <= i < |rs| => Tame(|rs|, rs[i], nofail)))
    case Call(k) => if k < n then t else if nofail then False else True
    case _ => t
  }

  function TameRules(rs: Rules, nofail: bool): (r: Rules)
    ensures |r| == |rs| && forall i :: 0 <= i < |rs| ==> r[i] == Tame(|rs|, rs[i], nofail)
  {
    seq(|rs|, i requires 0 <= i < |rs| => Tame(|rs|, rs[i], nofail))
  }

  /** What the tamed pattern says about the empty subject. */
  ghost function Tried(g: Rules, t: Tree, nofail: bool, fuel: nat): (o: Outcome)
  {
    Parse(TameRules(g, nofail), Tame(|g|, t, nofail), [], 0, fuel)
  }

  lemma TriedMore(g: Rules, t: Tree, nofail: bool, fuel: nat, more: nat)
    requires Tried(g, t, nofail, fuel) != Stuck && fuel <= more
    ensures Tried(g, t, nofail, more) == Tried(g, t, nofail, fuel)
  {
    ParseStable(TameRules(g, nofail), Tame(|g|, t, nofail), [], 0, fuel, more);
  }

  lemma {:induction false} AuxTried(g: Rules, t: Tree, nofail: bool, b: nat) returns (fuel: nat)
    requires AuxIn(g, t, nofail, b).Some?
    ensures Tried(g, t, nofail, fuel) != Stuck
    ensures Tried(g, t, nofail, fuel).Ok? <==> CheckAux(g, t, nofail, b)
    decreases b, t
  {
    fuel := 0;
    match t
    case And(p) =>
      if nofail {
        fuel := AuxTried(g, p, nofail, b);
      }
      fuel := fuel + 1;
    case Capture(_, _, p) =>
      fuel := AuxTried(g, p, nofail, b);
      fuel := fuel + 1;
    case Seq(p1, p2) =>
      fuel := AuxTried(g, p1, nofail, b);
      if CheckAux(g, p1, nofail, b) {
        AuxMore(g, p1, nofail, b, b);
        var f2 := AuxTried(g, p2, nofail, b);
        TriedMore(g, p1, nofail, fuel, fuel + f2);
        TriedMore(g, p2, nofail, f2, fuel + f2);
        fuel := fuel + f2;
      }
      fuel := fuel + 1;
    case Choice(p1, p2) =>
      fuel := AuxTried(g, p2, nofail, b);
      if !CheckAux(g, p2, nofail, b) {
        AuxMore(g, p2, nofail, b, b);
        var f1 := AuxTried(g, p1, nofail, b);
        TriedMore(g, p2, nofail, fuel, fuel + f1);
        TriedMore(g, p1, nofail, f1, fuel + f1);
        fuel := fuel + f1;
      }
      fuel := fuel + 1;
    case Grammar(rs) =>
      if rs != [] {
        fuel := AuxTried(rs, rs[0], nofail, b);
        assert Tame(|g|, t, nofail) == Grammar(TameRules(rs, nofail));
      }
      fuel := fuel + 1;
    case Call(k) =>
      if k < |g| {
        fuel := AuxTried(g, g[k], nofail, b - 1);
      }
      fuel := fuel + 1;
    case _ => fuel := 1;
  }

  /** When `checkaux` ends, `nullable` and `nofail` hold exactly of the patterns that match the empty
    subject once predicates and repetitions are taken for granted. */
  lemma AuxExactly(g: Rules, t: Tree, nofail: bool, b: nat)
    requires AuxIn(g, t, nofail, b).Some?
    ensures CheckAux(g, t, nofail, b) <==> exists fuel :: Tried(g, t, nofail, fuel).Ok?
    ensures !CheckAux(g, t, nofail, b) <==> exists fuel :: Tried(g, t, nofail, fuel) == Fail
  {
    var enough := AuxTried(g, t, nofail, b);
    forall fuel | Tried(g, t, nofail, fuel) != Stuck
      ensures Tried(g, t, nofail, fuel) == Tried(g, t, nofail, enough)
    {
      if fuel <= enough {
        TriedMore(g, t, nofail, fuel, enough);
      } else {
        TriedMore(g, t, nofail, enough, fuel);
      }
    }
  }

  // ---- fixedlen ----------------------------------------------------------------------------------

  /** The pattern may consume `m` characters, for all that can be told without trying it. A repetition may
    consume any number, and so may what lies beyond `b` calls or beyond the rules. */
  ghost predicate Takes(g: Rules, t: Tree, m: nat, b: nat)
    decreases b, t
  {
    match t
    case Char(_) => m == 1
    case Set(_) => m == 1
    case Any => m == 1
    case Rep(_) => true
    case Capture(_, _, p) => Takes(g, p, m, b)
    case Grammar(rs) => rs == [] || Takes(rs, rs[0], m, b)
    case Call(k) => k >= |g| || b == 0 || Takes(g, g[k], m, b - 1)
    case Seq(p1, p2) => exists m1: nat, m2: nat :: m == m1 + m2 && Takes(g, p1, m1, b) && Takes(g, p2, m2, b)
    case Choice(p1, p2) => Takes(g, p1, m, b) || Takes(g, p2, m, b)
    case _ => m == 0
  }

  lemma {:induction false} TakesSome(g: Rules, t: Tree, b: nat) returns (m: nat)
    ensures Takes(g, t, m, b)
    decreases b, t
  {
    m := 0;
    match t
    case Char(_) => m := 1;
    case Set(_) => m := 1;
    case Any => m := 1;
    case Capture(_, _, p) => m := TakesSome(g, p, b);
    case Grammar(rs) => if rs != [] { m := TakesSome(rs, rs[0], b); }
    case Call(k) => if k < |g| && b > 0 { m := TakesSome(g, g[k], b - 1); }
    case Seq(p1, p2) =>
      var m1 := TakesSome(g, p1, b);
      var m2 := TakesSome(g, p2, b);
      m := m1 + m2;
    case Choice(p1, p2) => m := TakesSome(g, p1, b);
    case _ =>
  }

  lemma {:induction false} FixedTakes(g: Rules, t: Tree, m: nat, b: nat)
    requires FixedLen(g, t, b) >= 0
    ensures Takes(g, t, m, b) <==> m == FixedLen(g, t, b)
    decreases b, t
  {
    match t
    case Capture(_, _, p) => FixedTakes(g, p, m, b);
    case Grammar(rs) => FixedTakes(rs, rs[0], m, b);
    case Call(k) => FixedTakes(g, g[k], m, b - 1);
    case Seq(p1, p2) =>
      forall m1: nat ensures Takes(g, p1, m1, b) <==> m1 == FixedLen(g, p1, b) { FixedTakes(g, p1, m1, b); }
      forall m2: nat ensures Takes(g, p2, m2, b) <==> m2 == FixedLen(g, p2, b) { FixedTakes(g, p2, m2, b); }
      assert Takes(g, p1, FixedLen(g, p1, b), b) && Takes(g, p2, FixedLen(g, p2, b), b);
    case Choice(p1, p2) => FixedTakes(g, p1, m, b); FixedTakes(g, p2, m, b);
    case _ =>
  }

  /** Without a fixed length there are two lengths to choose from. */
  lemma {:induction false} LooseTakes(g: Rules, t: Tree, b: nat) returns (m: nat, n: nat)
    requires FixedLen(g, t, b) < 0
    ensures m != n && Takes(g, t, m, b) && Takes(g, t, n, b)
    decreases b, t
  {
    match t
    case Rep(_) => m, n := 0, 1;
    case Capture(_, _, p) => m, n := LooseTakes(g, p, b);
    case Grammar(rs) => if rs == [] { m, n := 0, 1; } else { m, n := LooseTakes(rs, rs[0], b); }
    case Call(k) => if k >= |g| || b == 0 { m, n := 0, 1; } else { m, n := LooseTakes(g, g[k], b - 1); }
    case Seq(p1, p2) =>
      if FixedLen(g, p1, b) < 0 {
        m, n := LooseTakes(g, p1, b);
        var m2 := TakesSome(g, p2, b);
        m, n := m + m2, n + m2;
      } else {
        m, n := LooseTakes(g, p2, b);
        var m1 := TakesSome(g, p1, b);
        m, n := m1 + m, m1 + n;
      }
    case Choice(p1, p2) =>
      if FixedLen(g, p1, b) < 0 {
        m, n := LooseTakes(g, p1, b);
      } else if FixedLen(g, p2, b) < 0 {
        m, n := LooseTakes(g, p2, b);
      } else {
        m, n := FixedLen(g, p1, b), FixedLen(g, p2, b);
        FixedTakes(g, p1, m, b);
        FixedTakes(g, p2, n, b);
      }
  }

  /** `n` is the only length. */
  ghost predicate TakesOnly(g: Rules, t: Tree, n: nat, b: nat)
  {
    Takes(g, t, n, b) && forall m: nat :: Takes(g, t, m, b) ==> m == n
  }

  /** `fixedlen` finds a length exactly if it is the only one the pattern may consume. */
  lemma FixedExactly(g: Rules, t: Tree, n: nat, b: nat)
    ensures FixedLen(g, t, b) == n <==> TakesOnly(g, t, n, b)
  {
    if FixedLen(g, t, b) >= 0 {
      forall m: nat ensures Takes(g, t, m, b) <==> m == FixedLen(g, t, b) { FixedTakes(g, t, m, b); }
    } else {
      var m1, m2 := LooseTakes(g, t, b);
    }
  }

  // ---- hascaptures -------------------------------------------------------------------------------

  /** A pattern among its rules. */
  datatype Place = Place(g: Rules, t: Tree)

  /** From a pattern to a part of it, to the rule it calls or to its initial rule. */
  ghost predicate Step(x: Place, y: Place)
  {
    || (Child(x.t, y.t) && y.g == x.g)
    || (x.t.Call? && x.t.rule < |x.g| && y == Place(x.g, x.g[x.t.rule]))
    || (x.t.Grammar? && x.t.rules != [] && y == Place(x.t.rules, x.t.rules[0]))
  }

  ghost predicate Reaches(x: Place, path: seq<Place>)
  {
    path != [] && path[0] == x && forall i :: 0 <= i < |path| - 1 ==> Step(path[i], path[i + 1])
  }

  ghost predicate ReachesCapture(g: Rules, t: Tree)
  {
    exists path: seq<Place> :: Reaches(Place(g, t), path) && path[|path| - 1].t.Capture?
  }

  lemma StepFirst(x: Place, y: Place)
    requires Step(x, y) && ReachesCapture(y.g, y.t)
    ensures ReachesCapture(x.g, x.t)
  {
    var path: seq<Place> :| Reaches(Place(y.g, y.t), path) && path[|path| - 1].t.Capture?;
    var longer := [x] + path;
    forall i | 0 <= i < |longer| - 1 ensures Step(longer[i], longer[i + 1]) {
      if i > 0 { assert Step(path[i - 1], path[i]); }
    }
    assert Reaches(Place(x.g, x.t), longer);
  }

  /** `hascaptures` only reports what is there. */
  lemma {:induction false} CaptureFound(g: Rules, t: Tree, seen: set<nat>, b: nat)
    requires Visits(g, t, seen, b) && HasCaptures(g, t, seen, b)
    ensures ReachesCapture(g, t)
    decreases b, t
  {
    if t.Capture? {
      assert Reaches(Place(g, t), [Place(g, t)]);
    } else if t.Call? {
      VisitsCall(g, t.rule, seen, b);
      CaptureFound(g, g[t.rule], seen + {t.rule}, b - 1);
      StepFirst(Place(g, t), Place(g, g[t.rule]));
    } else if t.Grammar? {
      VisitsFirst(g, t.rules, seen, b);
      CaptureFound(t.rules, t.rules[0], {}, b);
      StepFirst(Place(g, t), Place(t.rules, t.rules[0]));
    } else {
      var p :| Child(t, p) && HasCaptures(g, p, seen, b);
      VisitsChild(g, t, p, seen, b);
      CaptureFound(g, p, seen, b);
      StepFirst(Place(g, t), Place(g, p));
    }
  }

  /** Before a grammar is entered no rule of `seen` is called. */
  ghost predicate Avoids(path: seq<Place>, seen: set<nat>)
  {
    forall j :: 0 <= j < |path| && path[j].t.Call? && path[j].t.rule in seen ==> EntersBefore(path, j)
  }

  ghost predicate EntersBefore(path: seq<Place>, j: nat)
    requires j <= |path|
  {
    exists i :: 0 <= i < j && path[i].t.Grammar?
  }

  lemma {:induction false} SameRules(x: Place, path: seq<Place>, j: nat)
    requires Reaches(x, path) && j < |path| && !EntersBefore(path, j)
    ensures path[j].g == x.g
    decreases j
  {
    if j > 0 {
      SameRules(x, path, j - 1);
      assert Step(path[j - 1], path[j - 1 + 1]);
    }
  }

  lemma SuffixReaches(x: Place, path: seq<Place>, j: nat)
    requires Reaches(x, path) && j < |path|
    ensures Reaches(path[j], path[j..])
  {
    var rest := path[j..];
    forall i | 0 <= i < |rest| - 1 ensures Step(rest[i], rest[i + 1]) { assert Step(path[j + i], path[j + i + 1]); }
  }

  /** Unless a grammar was entered before, the rest of the path still avoids what the path avoids. */
  lemma SuffixAvoids(path: seq<Place>, seen: set<nat>, j: nat)
    requires Avoids(path, seen) && j < |path| && !EntersBefore(path, j)
    ensures Avoids(path[j..], seen)
  {
    var rest := path[j..];
    forall i | 0 <= i < |rest| && rest[i].t.Call? && rest[i].t.rule in seen ensures EntersBefore(rest, i) {
      assert path[j + i] == rest[i];
      var k :| 0 <= k < j + i && path[k].t.Grammar?;
      assert rest[k - j].t.Grammar?;
    }
  }

  /** No capture that can be reached is missed: a rule that is being visited need not be entered again, since the path
    can be cut where it is called for the last time. */
  lemma {:induction false} CaptureCaught(g: Rules, t: Tree, seen: set<nat>, b: nat, path: seq<Place>)
    requires Visits(g, t, seen, b) && Reaches(Place(g, t), path) && path[|path| - 1].t.Capture? && Avoids(path, seen)
    ensures HasCaptures(g, t, seen, b)
    decreases |path|
  {
    if !t.Capture? {
      assert Step(path[0], path[0 + 1]);
      SuffixReaches(Place(g, t), path, 1);
      if t.Call? {
        CallCaught(g, t, seen, b, path);
      } else if t.Grammar? {
        VisitsFirst(g, t.rules, seen, b);
        CaptureCaught(t.rules, t.rules[0], {}, b, path[1..]);
      } else {
        var p := path[1].t;
        VisitsChild(g, t, p, seen, b);
        SuffixAvoids(path, seen, 1);
        CaptureCaught(g, p, seen, b, path[1..]);
      }
    }
  }

  lemma {:induction false} CallCaught(g: Rules, t: Tree, seen: set<nat>, b: nat, path: seq<Place>)
    requires Visits(g, t, seen, b) && Reaches(Place(g, t), path) && path[|path| - 1].t.Capture? && Avoids(path, seen)
    requires t.Call?
    ensures HasCaptures(g, t, seen, b)
    decreases |path|, -1
  {
    var k := t.rule;
    assert Step(path[0], path[0 + 1]);
    assert k !in seen by { assert !EntersBefore(path, 0); }
    if j :| 1 <= j < |path| && path[j].t == t && !EntersBefore(path, j) {
      SameRules(Place(g, t), path, j);
      SuffixReaches(Place(g, t), path, j);
      SuffixAvoids(path, seen, j);
      CaptureCaught(g, t, seen, b, path[j..]);
    } else {
      var rest := path[1..];
      VisitsCall(g, k, seen, b);
      SuffixReaches(Place(g, t), path, 1);
      SuffixAvoids(path, seen, 1);
      forall j | 0 <= j < |rest| && rest[j].t.Call? && rest[j].t.rule in seen + {k} ensures EntersBefore(rest, j) {
        assert rest[j] == path[j + 1];
        if rest[j].t.rule == k {
          var i :| 0 <= i < j + 1 && path[i].t.Grammar?;
          assert rest[i - 1].t.Grammar?;
        }
      }
      CaptureCaught(g, g[k], seen + {k}, b - 1, rest);
    }
  }

  /** `hascaptures` says exactly whether a capture can be reached, when the bound allows a call for each rule. */
  lemma CapturesExactly(g: Rules, t: Tree, b: nat)
    requires RulesInAll(g) + |g| <= b && RulesIn(t) <= b
    ensures HasCaptures(g, t, {}, b) <==> ReachesCapture(g, t)
  {
    AllUnseen(g);
    if HasCaptures(g, t, {}, b) {
      CaptureFound(g, t, {}, b);
    } else if ReachesCapture(g, t) {
      var path: seq<Place> :| Reaches(Place(g, t), path) && path[|path| - 1].t.Capture?;
      CaptureCaught(g, t, {}, b, path);
    }
  }
}
