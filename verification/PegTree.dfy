/** Pattern trees of LPeg (`lptree.h`) and what they mean.

  A call `Call(k)` names rule `k` of the innermost enclosing grammar, which is what a fixed
  `TCall` node points to. Open calls and match-time captures are not part of this model. */
module PegTree {

  type Byte = x: int | 0 <= x < 256

  type Charset = set<Byte>

  type Subject = seq<Byte>

  predicate IsByte(x: int) { 0 <= x < 256 }

  function Full(): (cs: Charset)
    ensures forall c: Byte :: c in cs
  {
    var cs := set x: Byte | IsByte(x);
    assert forall c: Byte :: IsByte(c) ==> c in cs;
    cs
  }

  datatype Tree =
    | Char(c: Byte)
    | Set(cs: Charset)
    | Any
    | True
    | False
    | Rep(p: Tree)
    | Seq(p1: Tree, p2: Tree)
    | Choice(p1: Tree, p2: Tree)
    | Not(p: Tree)
    | And(p: Tree)
    | Call(rule: nat)
    | Grammar(rules: seq<Tree>)
    | Behind(n: nat, p: Tree)
    | Capture(kind: nat, key: nat, p: Tree)

  /** The rules a `Call` may name. */
  type Rules = seq<Tree>

  /** A capture opens and closes at subject positions; only these positions are modelled. */
  datatype Event = Open(kind: nat, key: nat, at: nat) | Close(at: nat)

  /** Meaning of a pattern at a position: `Stuck` is "no answer within this much fuel". */
  datatype Outcome = Stuck | Fail | Ok(pos: nat, events: seq<Event>)

  /** The first character is consumed when it exists and belongs to `cs`. */
  function ParseSet(cs: Charset, s: Subject, i: nat): (o: Outcome)
    requires i <= |s|
  {
    if i < |s| && s[i] in cs then Ok(i + 1, []) else Fail
  }

  /** Big-step meaning of parsing expressions. `fuel` only bounds the depth of the derivation. */
  ghost function Parse(g: Rules, t: Tree, s: Subject, i: nat, fuel: nat): (o: Outcome)
    requires i <= |s|
    ensures o.Ok? ==> i <= o.pos <= |s|
    decreases fuel
  {
    if fuel == 0 then Stuck else
    match t
    case Char(c) => ParseSet({c}, s, i)
    case Set(cs) => ParseSet(cs, s, i)
    case Any => ParseSet(Full(), s, i)
    case True => Ok(i, [])
    case False => Fail
    case Seq(p1, p2) =>
      (match Parse(g, p1, s, i, fuel - 1)
       case Ok(j, ev1) =>
         (match Parse(g, p2, s, j, fuel - 1)
          case Ok(k, ev2) => Ok(k, ev1 + ev2)
          case o => o)
       case o => o)
    case Choice(p1, p2) =>
      (match Parse(g, p1, s, i, fuel - 1)
       case Fail => Parse(g, p2, s, i, fuel - 1)
       case o => o)
    case Rep(p) =>
      (match Parse(g, p, s, i, fuel - 1)
       case Stuck => Stuck
       case Fail => Ok(i, [])
       case Ok(j, ev1) =>
         (match Parse(g, t, s, j, fuel - 1)
          case Ok(k, ev2) => Ok(k, ev1 + ev2)
          case o => o))
    case Not(p) =>
      (match Parse(g, p, s, i, fuel - 1)
       case Stuck => Stuck
       case Fail => Ok(i, [])
       case Ok(_, _) => Fail)
    case And(p) =>
      (match Parse(g, p, s, i, fuel - 1)
       case Ok(_, _) => Ok(i, [])
       case o => o)
    case Call(k) => if k < |g| then Parse(g, g[k], s, i, fuel - 1) else Fail
    case Grammar(rs) => if rs != [] then Parse(rs, rs[0], s, i, fuel - 1) else Fail
    case Behind(n, p) =>
      if n > i then Fail else
      (match Parse(g, p, s, i - n, fuel - 1)
       case Ok(_, _) => Ok(i, [])
       case o => o)
    case Capture(kind, key, p) =>
      (match Parse(g, p, s, i, fuel - 1)
       case Ok(j, ev) => Ok(j, [Open(kind, key, i)] + ev + [Close(j)])
       case o => o)
  }

  /** A repetition never fails. */
  lemma {:induction false} RepNeverFails(g: Rules, p: Tree, s: Subject, i: nat, fuel: nat)
    requires i <= |s|
    ensures Parse(g, Rep(p), s, i, fuel) != Fail
    decreases fuel
  {
    if fuel > 0 {
      var o := Parse(g, p, s, i, fuel - 1);
      if o.Ok? {
        RepNeverFails(g, p, s, o.pos, fuel - 1);
      }
    }
  }

  /** More fuel never changes an answer, so a pattern has at most one meaning at a position. */
  lemma {:induction false} ParseStable(g: Rules, t: Tree, s: Subject, i: nat, fuel: nat, more: nat)
    requires i <= |s| && fuel <= more
    requires Parse(g, t, s, i, fuel) != Stuck
    ensures Parse(g, t, s, i, more) == Parse(g, t, s, i, fuel)
    decreases fuel, 1
  {
    match t
    case Seq(_, _) => ParseStable2(g, t, s, i, fuel, more);
    case Choice(_, _) => ParseStable2(g, t, s, i, fuel, more);
    case Rep(_) => ParseStable2(g, t, s, i, fuel, more);
    case Not(p) => ParseStable(g, p, s, i, fuel - 1, more - 1);
    case And(p) => ParseStable(g, p, s, i, fuel - 1, more - 1);
    case Call(k) =>
      if k < |g| {
        ParseStable(g, g[k], s, i, fuel - 1, more - 1);
      }
    case Grammar(rs) =>
      if rs != [] {
        ParseStable(rs, rs[0], s, i, fuel - 1, more - 1);
      }
    case Behind(n, p) =>
      if n <= i {
        ParseStable(g, p, s, i - n, fuel - 1, more - 1);
      }
    case Capture(_, _, p) => ParseStable(g, p, s, i, fuel - 1, more - 1);
    case _ =>
  }

  lemma {:induction false} ParseStable2(g: Rules, t: Tree, s: Subject, i: nat, fuel: nat, more: nat)
    requires t.Seq? || t.Choice? || t.Rep?
    requires i <= |s| && fuel <= more
    requires Parse(g, t, s, i, fuel) != Stuck
    ensures Parse(g, t, s, i, more) == Parse(g, t, s, i, fuel)
    decreases fuel, 0
  {
    var p := if t.Rep? then t.p else t.p1;
    var p' := if t.Rep? then t else t.p2;
    ParseStable(g, p, s, i, fuel - 1, more - 1);
    var o := Parse(g, p, s, i, fuel - 1);
    if o.Ok? && !t.Choice? {
      ParseStable(g, p', s, o.pos, fuel - 1, more - 1);
    } else if o.Fail? && t.Choice? {
      ParseStable(g, p', s, i, fuel - 1, more - 1);
    }
  }
}
