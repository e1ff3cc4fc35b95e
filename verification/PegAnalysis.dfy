/** The static analyses of `lpcode.c` that license its optimisations, and their soundness.

  Every analysis follows calls into rules. `b` bounds how many calls are followed on one path;
  when it runs out the analysis gives its most cautious answer, so soundness holds for every
  `b`. For accepted patterns a bound that is large enough is never felt (see `PegBudget`). */
module PegAnalysis {
  import opened PegTree

  /** `tocharset`: the pattern is a single character test. */
  function ToCharset(t: Tree): (r: seq<Charset>)
  {
    match t
    case Char(c) => [{c}]
    case Set(cs) => [cs]
    case Any => [Full()]
    case _ => []
  }

  /** `checkaux`: nullable (`nofail == false`) or never failing (`nofail == true`). */
  function CheckAux(g: Rules, t: Tree, nofail: bool, b: nat): (r: bool)
    decreases b, t
  {
    match t
    case Char(_) => false
    case Set(_) => false
    case Any => false
    case False => false
    case Rep(_) => true
    case True => true
    case Not(_) => !nofail
    case Behind(_, _) => !nofail
    case And(p) => !nofail || CheckAux(g, p, nofail, b)
    case Seq(p1, p2) => CheckAux(g, p1, nofail, b) && CheckAux(g, p2, nofail, b)
    case Choice(p1, p2) => CheckAux(g, p2, nofail, b) || CheckAux(g, p1, nofail, b)
    case Capture(_, _, p) => CheckAux(g, p, nofail, b)
    case Grammar(rs) => if rs == [] then !nofail else CheckAux(rs, rs[0], nofail, b)
    case Call(k) => if k < |g| && b > 0 then CheckAux(g, g[k], nofail, b - 1) else !nofail
  }

  predicate Nullable(g: Rules, t: Tree, b: nat) { CheckAux(g, t, false, b) }

  predicate Nofail(g: Rules, t: Tree, b: nat) { CheckAux(g, t, true, b) }

  /** `fixedlen`: the number of characters every match consumes, or -1. */
  function FixedLen(g: Rules, t: Tree, b: nat): (n: int)
    ensures n >= -1
    decreases b, t
  {
    match t
    case Char(_) => 1
    case Set(_) => 1
    case Any => 1
    case False => 0
    case True => 0
    case Not(_) => 0
    case And(_) => 0
    case Behind(_, _) => 0
    case Rep(_) => -1
    case Capture(_, _, p) => FixedLen(g, p, b)
    case Grammar(rs) => if rs == [] then -1 else FixedLen(rs, rs[0], b)
    case Call(k) => if k < |g| && b > 0 then FixedLen(g, g[k], b - 1) else -1
    case Seq(p1, p2) =>
      var n1 := FixedLen(g, p1, b);
      var n2 := FixedLen(g, p2, b);
      if n1 < 0 || n2 < 0 then -1 else n1 + n2
    case Choice(p1, p2) =>
      var n1 := FixedLen(g, p1, b);
      var n2 := FixedLen(g, p2, b);
      if n1 != n2 || n1 < 0 then -1 else n1
  }

  /** `hascaptures`: `seen` holds the rules being visited, which are not entered again. */
  function HasCaptures(g: Rules, t: Tree, seen: set<nat>, b: nat): (r: bool)
    decreases b, t
  {
    match t
    case Capture(_, _, _) => true
    case Rep(p) => HasCaptures(g, p, seen, b)
    case Not(p) => HasCaptures(g, p, seen, b)
    case And(p) => HasCaptures(g, p, seen, b)
    case Behind(_, p) => HasCaptures(g, p, seen, b)
    case Seq(p1, p2) => HasCaptures(g, p1, seen, b) || HasCaptures(g, p2, seen, b)
    case Choice(p1, p2) => HasCaptures(g, p1, seen, b) || HasCaptures(g, p2, seen, b)
    case Grammar(rs) => rs != [] && HasCaptures(rs, rs[0], {}, b)
    case Call(k) =>
      if k >= |g| || k in seen then false
      else if b == 0 then true
      else HasCaptures(g, g[k], seen + {k}, b - 1)
    case _ => false
  }

  /** `fixedlen` when a pattern is built: calls are still open then, and have no fixed length. */
  function OpenLen(t: Tree, b: nat): (n: int) { FixedLen([], t, b) }

  /** `hascaptures` when a pattern is built: it sees no captures in open calls. */
  predicate OpenCaptures(t: Tree, b: nat) { HasCaptures([], t, {}, b) }

  /** `getfirst`: the first set of `t` followed by `follow`, and whether a test on that set must
    be avoided because the pattern accepts the empty subject. Going into negations and look-behinds, as the
    source does for match-time captures, only matters for whether it ends (see `PegEnding`). */
  function GetFirst(g: Rules, t: Tree, follow: Charset, b: nat): (r: (Charset, bool))
    decreases b, t
  {
    match t
    case Char(c) => ({c}, false)
    case Set(cs) => (cs, false)
    case Any => (Full(), false)
    case True => (follow, true)
    case False => ({}, false)
    case Choice(p1, p2) =>
      var (f1, e1) := GetFirst(g, p1, follow, b);
      var (f2, e2) := GetFirst(g, p2, follow, b);
      (f1 + f2, e1 || e2)
    case Seq(p1, p2) =>
      if !Nullable(g, p1, b) then GetFirst(g, p1, Full(), b)
      else
        var (f2, e2) := GetFirst(g, p2, follow, b);
        var (f1, e1) := GetFirst(g, p1, f2, b);
        (f1, e1 && e2)
    case Rep(p) =>
      var (f, _) := GetFirst(g, p, follow, b);
      (f + follow, true)
    case Capture(_, _, p) => GetFirst(g, p, follow, b)
    case Grammar(rs) => if rs == [] then (Full(), true) else GetFirst(rs, rs[0], follow, b)
    case Call(k) => if k < |g| && b > 0 then GetFirst(g, g[k], follow, b - 1) else (Full(), true)
    case And(p) =>
      var (f, e) := GetFirst(g, p, follow, b);
      (f * follow, e)
    case Not(p) =>
      var cs := ToCharset(p);
      if cs != [] then (Full() - cs[0], true) else (follow, true)
    case Behind(_, _) => (follow, true)
  }

  /** `headfail`: the pattern can fail only because of the next character. */
  predicate HeadFail(g: Rules, t: Tree, b: nat)
    decreases b, t
  {
    match t
    case Char(_) => true
    case Set(_) => true
    case Any => true
    case False => true
    case Capture(_, _, p) => HeadFail(g, p, b)
    case Grammar(rs) => rs != [] && HeadFail(rs, rs[0], b)
    case And(p) => HeadFail(g, p, b)
    case Call(k) => k < |g| && b > 0 && HeadFail(g, g[k], b - 1)
    case Seq(p1, p2) => Nofail(g, p2, b) && HeadFail(g, p1, b)
    case Choice(p1, p2) => HeadFail(g, p1, b) && HeadFail(g, p2, b)
    case _ => false
  }

  /** `needfollow`: code generation for this pattern looks at its follow set. */
  predicate NeedFollow(t: Tree)
  {
    match t
    case Choice(_, _) => true
    case Rep(_) => true
    case Capture(_, _, p) => NeedFollow(p)
    case Seq(_, p2) => NeedFollow(p2)
    case _ => false
  }

  // ---- Soundness -------------------------------------------------------------------------

  lemma {:induction false} NullableSound(g: Rules, t: Tree, b: nat, s: Subject, i: nat, fuel: nat)
    requires i <= |s|
    ensures !Nullable(g, t, b) && Parse(g, t, s, i, fuel).Ok? ==> i < Parse(g, t, s, i, fuel).pos
    decreases fuel
  {
    if fuel > 0 {
      match t
      case Seq(p1, p2) =>
        NullableSound(g, p1, b, s, i, fuel - 1);
        var o := Parse(g, p1, s, i, fuel - 1);
        if o.Ok? { NullableSound(g, p2, b, s, o.pos, fuel - 1); }
      case Choice(p1, p2) =>
        NullableSound(g, p1, b, s, i, fuel - 1);
        NullableSound(g, p2, b, s, i, fuel - 1);
      case Capture(_, _, p) => NullableSound(g, p, b, s, i, fuel - 1);
      case Grammar(rs) => if rs != [] { NullableSound(rs, rs[0], b, s, i, fuel - 1); }
      case Call(k) => if k < |g| && b > 0 { NullableSound(g, g[k], b - 1, s, i, fuel - 1); }
      case _ =>
    }
  }

  lemma {:induction false} NofailSound(g: Rules, t: Tree, b: nat, s: Subject, i: nat, fuel: nat)
    requires i <= |s|
    ensures Nofail(g, t, b) ==> Parse(g, t, s, i, fuel) != Fail
    decreases fuel
  {
    if fuel > 0 {
      match t
      case Rep(p) => RepNeverFails(g, p, s, i, fuel);
      case And(p) => NofailSound(g, p, b, s, i, fuel - 1);
      case Seq(p1, p2) =>
        NofailSound(g, p1, b, s, i, fuel - 1);
        var o := Parse(g, p1, s, i, fuel - 1);
        if o.Ok? { NofailSound(g, p2, b, s, o.pos, fuel - 1); }
      case Choice(p1, p2) =>
        NofailSound(g, p1, b, s, i, fuel - 1);
        NofailSound(g, p2, b, s, i, fuel - 1);
      case Capture(_, _, p) => NofailSound(g, p, b, s, i, fuel - 1);
      case Grammar(rs) => if rs != [] { NofailSound(rs, rs[0], b, s, i, fuel - 1); }
      case Call(k) => if k < |g| && b > 0 { NofailSound(g, g[k], b - 1, s, i, fuel - 1); }
      case _ =>
    }
  }

  /** A pattern that cannot fail accepts the empty string. */
  lemma {:induction false} NofailNullable(g: Rules, t: Tree, b: nat)
    ensures Nofail(g, t, b) ==> Nullable(g, t, b)
    decreases b, t
  {
    match t
    case Seq(p1, p2) => NofailNullable(g, p1, b); NofailNullable(g, p2, b);
    case Choice(p1, p2) => NofailNullable(g, p1, b); NofailNullable(g, p2, b);
    case Capture(_, _, p) => NofailNullable(g, p, b);
    case Grammar(rs) => if rs != [] { NofailNullable(rs, rs[0], b); }
    case Call(k) => if k < |g| && b > 0 { NofailNullable(g, g[k], b - 1); }
    case _ =>
  }

  lemma {:induction false} FixedLenSound(g: Rules, t: Tree, b: nat, s: Subject, i: nat, fuel: nat)
    requires i <= |s|
    ensures FixedLen(g, t, b) >= 0 && Parse(g, t, s, i, fuel).Ok?
            ==> Parse(g, t, s, i, fuel).pos == i + FixedLen(g, t, b)
    decreases fuel
  {
    if fuel > 0 {
      match t
      case Seq(p1, p2) =>
        FixedLenSound(g, p1, b, s, i, fuel - 1);
        var o := Parse(g, p1, s, i, fuel - 1);
        if o.Ok? { FixedLenSound(g, p2, b, s, o.pos, fuel - 1); }
      case Choice(p1, p2) =>
        FixedLenSound(g, p1, b, s, i, fuel - 1);
        FixedLenSound(g, p2, b, s, i, fuel - 1);
      case Capture(_, _, p) => FixedLenSound(g, p, b, s, i, fuel - 1);
      case Grammar(rs) => if rs != [] { FixedLenSound(rs, rs[0], b, s, i, fuel - 1); }
      case Call(k) => if k < |g| && b > 0 { FixedLenSound(g, g[k], b - 1, s, i, fuel - 1); }
      case _ =>
    }
  }

  ghost predicate SilentAt(g: Rules, t: Tree, s: Subject, i: nat, fuel: nat)
  {
    i <= |s| && Parse(g, t, s, i, fuel).Ok? ==> Parse(g, t, s, i, fuel).events == []
  }

  /** Rule `k` records no capture anywhere in `s` with less than this fuel. */
  ghost predicate Silent(g: Rules, k: nat, s: Subject, fuel: nat)
    requires k < |g|
  {
    forall i: nat, f: nat :: f < fuel ==> SilentAt(g, g[k], s, i, f)
  }

  /** A pattern without captures records none. */
  lemma {:induction false} HasCapturesSound(g: Rules, t: Tree, seen: set<nat>, b: nat, s: Subject, i: nat, fuel: nat)
    requires i <= |s|
    requires !HasCaptures(g, t, seen, b)
    requires forall k :: k in seen && k < |g| ==> Silent(g, k, s, fuel)
    ensures Parse(g, t, s, i, fuel).Ok? ==> Parse(g, t, s, i, fuel).events == []
    decreases fuel
  {
    if fuel > 0 {
      match t
      case Seq(p1, p2) =>
        HasCapturesSound(g, p1, seen, b, s, i, fuel - 1);
        var o := Parse(g, p1, s, i, fuel - 1);
        if o.Ok? { HasCapturesSound(g, p2, seen, b, s, o.pos, fuel - 1); }
      case Choice(p1, p2) =>
        HasCapturesSound(g, p1, seen, b, s, i, fuel - 1);
        HasCapturesSound(g, p2, seen, b, s, i, fuel - 1);
      case Rep(p) =>
        HasCapturesSound(g, p, seen, b, s, i, fuel - 1);
        var o := Parse(g, p, s, i, fuel - 1);
        if o.Ok? { HasCapturesSound(g, t, seen, b, s, o.pos, fuel - 1); }
      case Grammar(rs) => if rs != [] { HasCapturesSound(rs, rs[0], {}, b, s, i, fuel - 1); }
      case Call(k) =>
        if k < |g| {
          if k !in seen {
            HasCapturesRule(g, k, seen, b, s, fuel);
          }
          assert Silent(g, k, s, fuel) && SilentAt(g, g[k], s, i, fuel - 1);
        }
      case _ =>
    }
  }

  lemma {:induction false} HasCapturesRule(g: Rules, k: nat, seen: set<nat>, b: nat, s: Subject, fuel: nat)
    requires k < |g| && b > 0 && k !in seen
    requires !HasCaptures(g, g[k], seen + {k}, b - 1)
    requires forall k :: k in seen && k < |g| ==> Silent(g, k, s, fuel)
    ensures Silent(g, k, s, fuel)
    decreases fuel, 1
  {
    if fuel > 0 {
      HasCapturesRule(g, k, seen, b, s, fuel - 1);
      var f: nat := fuel - 1;
      forall i: nat ensures SilentAt(g, g[k], s, i, f) {
        if i <= |s| {
          HasCapturesSound(g, g[k], seen + {k}, b - 1, s, i, f);
        }
      }
    }
  }

  /** What `lp_behind` checks is enough although calls are still open: the match has the length that
    was found, and records no capture. */
  lemma {:induction false} OpenSound(g: Rules, t: Tree, b: nat, s: Subject, i: nat, fuel: nat)
    requires i <= |s| && OpenLen(t, b) >= 0 && !OpenCaptures(t, b)
    ensures var o := Parse(g, t, s, i, fuel); o.Ok? ==> o.pos == i + OpenLen(t, b) && o.events == []
    decreases fuel
  {
    if fuel > 0 {
      match t
      case Seq(p1, p2) =>
        OpenSound(g, p1, b, s, i, fuel - 1);
        var o := Parse(g, p1, s, i, fuel - 1);
        if o.Ok? { OpenSound(g, p2, b, s, o.pos, fuel - 1); }
      case Choice(p1, p2) =>
        OpenSound(g, p1, b, s, i, fuel - 1);
        OpenSound(g, p2, b, s, i, fuel - 1);
      case Grammar(rs) =>
        FixedLenSound(rs, rs[0], b, s, i, fuel - 1);
        HasCapturesSound(rs, rs[0], {}, b, s, i, fuel - 1);
      case _ =>
    }
  }

  /** First sets: when the next character is outside the first set, the pattern either fails or
    leaves the subject where it is, in front of a character outside `follow`. */
  lemma {:induction false} FirstSound(g: Rules, t: Tree, follow: Charset, b: nat, s: Subject, i: nat, fuel: nat)
    requires i < |s| && s[i] !in GetFirst(g, t, follow, b).0
    ensures Parse(g, t, s, i, fuel).Ok? ==> Parse(g, t, s, i, fuel).pos == i && s[i] !in follow
    decreases fuel
  {
    if fuel > 0 {
      match t
      case Char(c) => 
      case Choice(p1, p2) =>
        FirstSound(g, p1, follow, b, s, i, fuel - 1);
        FirstSound(g, p2, follow, b, s, i, fuel - 1);
      case Seq(p1, p2) =>
        if !Nullable(g, p1, b) {
          FirstSound(g, p1, Full(), b, s, i, fuel - 1);
        } else {
          FirstSound(g, p1, GetFirst(g, p2, follow, b).0, b, s, i, fuel - 1);
          if Parse(g, p1, s, i, fuel - 1).Ok? {
            FirstSound(g, p2, follow, b, s, i, fuel - 1);
          }
        }
      case Rep(p) =>
        FirstSound(g, p, follow, b, s, i, fuel - 1);
        if Parse(g, p, s, i, fuel - 1).Ok? {
          FirstSound(g, t, follow, b, s, i, fuel - 1);
        }
      case Capture(_, _, p) => FirstSound(g, p, follow, b, s, i, fuel - 1);
      case Grammar(rs) => if rs != [] { FirstSound(rs, rs[0], follow, b, s, i, fuel - 1); }
      case Call(k) => if k < |g| && b > 0 { FirstSound(g, g[k], follow, b - 1, s, i, fuel - 1); }
      case And(p) =>
        if s[i] in follow {
          FirstSound(g, p, follow, b, s, i, fuel - 1);
        }
      case Not(p) =>
        if ToCharset(p) != [] && fuel > 1 {
          assert Parse(g, p, s, i, fuel - 1) == ParseSet(ToCharset(p)[0], s, i);
        }
      case _ =>
    }
  }

  /** When a test on the first set is allowed, the pattern fails at the end of the subject. */
  lemma {:induction false} FirstEmptySound(g: Rules, t: Tree, follow: Charset, b: nat, s: Subject, fuel: nat)
    requires !GetFirst(g, t, follow, b).1
    ensures !Parse(g, t, s, |s|, fuel).Ok?
    decreases fuel
  {
    if fuel > 0 {
      match t
      case Choice(p1, p2) =>
        FirstEmptySound(g, p1, follow, b, s, fuel - 1);
        FirstEmptySound(g, p2, follow, b, s, fuel - 1);
      case Seq(p1, p2) =>
        if !Nullable(g, p1, b) {
          FirstEmptySound(g, p1, Full(), b, s, fuel - 1);
        } else {
          var (f2, e2) := GetFirst(g, p2, follow, b);
          if e2 {
            FirstEmptySound(g, p1, f2, b, s, fuel - 1);
          } else {
            FirstEmptySound(g, p2, follow, b, s, fuel - 1);
          }
        }
      case Capture(_, _, p) => FirstEmptySound(g, p, follow, b, s, fuel - 1);
      case Grammar(rs) => if rs != [] { FirstEmptySound(rs, rs[0], follow, b, s, fuel - 1); }
      case Call(k) => if k < |g| && b > 0 { FirstEmptySound(g, g[k], follow, b - 1, s, fuel - 1); }
      case And(p) => FirstEmptySound(g, p, follow, b, s, fuel - 1);
      case _ =>
    }
  }

  /** A pattern that cannot fail lets everything in `follow` through. */
  lemma {:induction false} NofailFirst(g: Rules, t: Tree, follow: Charset, b: nat)
    requires Nofail(g, t, b)
    ensures follow <= GetFirst(g, t, follow, b).0
    decreases b, t
  {
    match t
    case Seq(p1, p2) =>
      NofailNullable(g, p1, b);
      NofailFirst(g, p2, follow, b);
      NofailFirst(g, p1, GetFirst(g, p2, follow, b).0, b);
    case Choice(p1, p2) =>
      if Nofail(g, p2, b) { NofailFirst(g, p2, follow, b); } else { NofailFirst(g, p1, follow, b); }
    case And(p) => NofailFirst(g, p, follow, b);
    case Capture(_, _, p) => NofailFirst(g, p, follow, b);
    case Grammar(rs) => if rs != [] { NofailFirst(rs, rs[0], follow, b); }
    case Call(k) => NofailFirst(g, g[k], follow, b - 1);
    case _ =>
  }

  /** A head-fail pattern never asks for its test to be avoided. */
  lemma {:induction false} HeadFailTest(g: Rules, t: Tree, follow: Charset, b: nat)
    requires HeadFail(g, t, b)
    ensures !GetFirst(g, t, follow, b).1
    decreases b, t
  {
    match t
    case Seq(p1, p2) =>
      HeadFailTest(g, p1, if Nullable(g, p1, b) then GetFirst(g, p2, follow, b).0 else Full(), b);
    case Choice(p1, p2) => HeadFailTest(g, p1, follow, b); HeadFailTest(g, p2, follow, b);
    case And(p) => HeadFailTest(g, p, follow, b);
    case Capture(_, _, p) => HeadFailTest(g, p, follow, b);
    case Grammar(rs) => HeadFailTest(rs, rs[0], follow, b);
    case Call(k) => HeadFailTest(g, g[k], follow, b - 1);
    case _ =>
  }

  /** A head-fail pattern cannot fail in front of a character of its first set. */
  lemma {:induction false} HeadFailSound(g: Rules, t: Tree, b: nat, s: Subject, i: nat, fuel: nat)
    requires HeadFail(g, t, b)
    requires i < |s| && s[i] in GetFirst(g, t, Full(), b).0
    ensures Parse(g, t, s, i, fuel) != Fail
    decreases fuel
  {
    if fuel > 0 {
      match t
      case Seq(p1, p2) =>
        NofailFirst(g, p2, Full(), b);
        assert GetFirst(g, p2, Full(), b).0 == Full();
        HeadFailSound(g, p1, b, s, i, fuel - 1);
        var o := Parse(g, p1, s, i, fuel - 1);
        if o.Ok? { NofailSound(g, p2, b, s, o.pos, fuel - 1); }
      case Choice(p1, p2) =>
        if s[i] in GetFirst(g, p1, Full(), b).0 {
          HeadFailSound(g, p1, b, s, i, fuel - 1);
        } else {
          HeadFailSound(g, p2, b, s, i, fuel - 1);
        }
      case And(p) => HeadFailSound(g, p, b, s, i, fuel - 1);
      case Capture(_, _, p) => HeadFailSound(g, p, b, s, i, fuel - 1);
      case Grammar(rs) => HeadFailSound(rs, rs[0], b, s, i, fuel - 1);
      case Call(k) => HeadFailSound(g, g[k], b - 1, s, i, fuel - 1);
      case _ =>
    }
  }

  /** A head-fail pattern succeeds exactly when the next character is in its first set. */
  lemma HeadFailExact(g: Rules, t: Tree, b: nat, s: Subject, i: nat, fuel: nat)
    requires HeadFail(g, t, b) && i <= |s| && Parse(g, t, s, i, fuel) != Stuck
    ensures !GetFirst(g, t, Full(), b).1
    ensures Parse(g, t, s, i, fuel).Ok? <==> i < |s| && s[i] in GetFirst(g, t, Full(), b).0
  {
    HeadFailTest(g, t, Full(), b);
    if i == |s| {
      FirstEmptySound(g, t, Full(), b, s, fuel);
    } else if s[i] in GetFirst(g, t, Full(), b).0 {
      HeadFailSound(g, t, b, s, i, fuel);
    } else {
      FirstSound(g, t, Full(), b, s, i, fuel);
    }
  }
}
