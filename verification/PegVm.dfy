/** The LPeg virtual machine (`lpvm.c`): instructions, one step, whole runs, and the
  interpreter loop. */
module PegVm {
  import opened PegTree

  /** One element of the code array. An instruction that needs several elements (a jump offset,
    a character set) carries its data in the first and is followed by `Pad` elements. */
  datatype Slot =
    | IAny
    | IChar(c: Byte)
    | ISet(cs: Charset)
    | ITestAny(offset: int)
    | ITestChar(c: Byte, offset: int)
    | ITestSet(cs: Charset, offset: int)
    | ISpan(cs: Charset)
    | IBehind(n: nat)
    | IRet
    | IEnd
    | IChoice(offset: int)
    | IJmp(offset: int)
    | ICall(offset: int)
    | IOpenCall(rule: nat)
    | ICommit(offset: int)
    | IPartialCommit(offset: int)
    | IBackCommit(offset: int)
    | IFailTwice
    | IFail
    | IFullCapture(kind: nat, key: nat, len: nat)
    | IOpenCapture(kind: nat, key: nat)
    | ICloseCapture
    | Pad

  type Code = seq<Slot>

  const CHARSET_INST_SIZE := 9

  const UCHAR_MAX := 255

  /** `sizei`: how many elements the instruction takes. */
  function SizeI(x: Slot): (n: nat)
    ensures n >= 1
  {
    match x
    case ISet(_) => CHARSET_INST_SIZE
    case ISpan(_) => CHARSET_INST_SIZE
    case ITestSet(_, _) => CHARSET_INST_SIZE + 1
    case ITestChar(_, _) => 2
    case ITestAny(_) => 2
    case IChoice(_) => 2
    case IJmp(_) => 2
    case ICall(_) => 2
    case IOpenCall(_) => 2
    case ICommit(_) => 2
    case IPartialCommit(_) => 2
    case IBackCommit(_) => 2
    case _ => 1
  }

  /** An entry of the capture list. */
  datatype Cap =
    | OpenCap(kind: nat, key: nat, at: nat)
    | FullCap(kind: nat, key: nat, at: nat, len: nat)
    | CloseCap(at: nat)

  /** A full capture stands for an opening and a closing. */
  function Events(caps: seq<Cap>): (ev: seq<Event>)
  {
    if caps == [] then [] else
    var rest := Events(caps[1..]);
    match caps[0]
    case OpenCap(kind, key, at) => [Open(kind, key, at)] + rest
    case FullCap(kind, key, at, len) => [Open(kind, key, at), Close(at + len)] + rest
    case CloseCap(at) => [Close(at)] + rest
  }

  lemma {:induction false} EventsConcat(a: seq<Cap>, b: seq<Cap>)
    ensures Events(a + b) == Events(a) + Events(b)
  {
    if a == [] {
      assert a + b == b;
    } else {
      assert (a + b)[1..] == a[1..] + b;
      EventsConcat(a[1..], b);
    }
  }

  /** An entry of the backtrack stack: a saved alternative or a return address. */
  datatype Frame = Backtrack(p: int, at: nat, level: nat) | Return(p: int)

  /** `Base` is the bottom entry, whose instruction gives up. */
  datatype Stack = Base | Push(rest: Stack, top: Frame)

  datatype State =
    | Run(p: int, at: nat, stack: Stack, caps: seq<Cap>)
    | Failing(stack: Stack, caps: seq<Cap>)
    | Done(at: nat, caps: seq<Cap>)
    | GaveUp
    | Bad
  {
    predicate Halted() { Done? || GaveUp? || Bad? }
  }

  /** Where a span of characters of `cs` starting at `i` ends. */
  function SpanEnd(cs: Charset, s: Subject, i: nat): (j: nat)
    requires i <= |s|
    ensures i <= j <= |s|
    decreases |s| - i
  {
    if i < |s| && s[i] in cs then SpanEnd(cs, s, i + 1) else i
  }

  /** The effect of `ICloseCapture` on the capture list. */
  function CloseCapture(caps: seq<Cap>, at: nat): (r: seq<Cap>)
  {
    if |caps| > 0 && caps[|caps| - 1].OpenCap? && caps[|caps| - 1].at <= at
       && at - caps[|caps| - 1].at < UCHAR_MAX
    then
      var c := caps[|caps| - 1];
      caps[..|caps| - 1] + [FullCap(c.kind, c.key, c.at, at - c.at)]
    else caps + [CloseCap(at)]
  }

  /** Jump when the test fails, otherwise go on behind an instruction of this size. */
  function Test(ok: bool, p: int, size: int, offset: int): int
  {
    if ok then p + size else p + offset
  }

  /** One round of the interpreter loop; `Bad` marks what the assertions of the loop exclude. */
  function Step(code: Code, s: Subject, a: State): (r: State)
    ensures a.Halted() ==> r == a
  {
    match a
    case Done(_, _) => a
    case GaveUp => a
    case Bad => a
    case Failing(stk, caps) =>
      (match stk
       case Base => GaveUp
       case Push(rest, Return(_)) => Failing(rest, caps)
       case Push(rest, Backtrack(p, at, level)) =>
         if level <= |caps| then Run(p, at, rest, caps[..level]) else Bad)
    case Run(p, at, stk, caps) =>
      if !(0 <= p < |code|) || at > |s| then Bad else
      match code[p]
      case IAny => if at < |s| then Run(p + 1, at + 1, stk, caps) else Failing(stk, caps)
      case IChar(c) => if at < |s| && s[at] == c then Run(p + 1, at + 1, stk, caps) else Failing(stk, caps)
      case ISet(cs) =>
        if at < |s| && s[at] in cs then Run(p + CHARSET_INST_SIZE, at + 1, stk, caps) else Failing(stk, caps)
      case ITestAny(off) => Run(Test(at < |s|, p, 2, off), at, stk, caps)
      case ITestChar(c, off) => Run(Test(at < |s| && s[at] == c, p, 2, off), at, stk, caps)
      case ITestSet(cs, off) => Run(Test(at < |s| && s[at] in cs, p, CHARSET_INST_SIZE + 1, off), at, stk, caps)
      case ISpan(cs) => Run(p + CHARSET_INST_SIZE, SpanEnd(cs, s, at), stk, caps)
      case IBehind(n) => if n > at then Failing(stk, caps) else Run(p + 1, at - n, stk, caps)
      case IRet => if stk.Push? && stk.top.Return? then Run(stk.top.p, at, stk.rest, caps) else Bad
      case IEnd => if stk.Base? then Done(at, caps) else Bad
      case IChoice(off) => Run(p + 2, at, Push(stk, Backtrack(p + off, at, |caps|)), caps)
      case IJmp(off) => Run(p + off, at, stk, caps)
      case ICall(off) => Run(p + off, at, Push(stk, Return(p + 2)), caps)
      case ICommit(off) => if stk.Push? && stk.top.Backtrack? then Run(p + off, at, stk.rest, caps) else Bad
      case IPartialCommit(off) =>
        if stk.Push? && stk.top.Backtrack?
        then Run(p + off, at, Push(stk.rest, Backtrack(stk.top.p, at, |caps|)), caps) else Bad
      case IBackCommit(off) =>
        if stk.Push? && stk.top.Backtrack? && stk.top.level <= |caps|
        then Run(p + off, stk.top.at, stk.rest, caps[..stk.top.level]) else Bad
      case IFailTwice => if stk.Push? then Failing(stk.rest, caps) else Bad
      case IFail => Failing(stk, caps)
      case IFullCapture(kind, key, len) =>
        if len <= at then Run(p + 1, at, stk, caps + [FullCap(kind, key, at - len, len)]) else Bad
      case IOpenCapture(kind, key) => Run(p + 1, at, stk, caps + [OpenCap(kind, key, at)])
      case ICloseCapture => Run(p + 1, at, stk, CloseCapture(caps, at))
      case IOpenCall(_) => Bad
      case Pad => Bad
  }

  function Steps(code: Code, s: Subject, a: State, k: nat): State
    decreases k
  {
    if k == 0 then a else Steps(code, s, Step(code, s, a), k - 1)
  }

  ghost predicate HaltsIn(code: Code, s: Subject, a: State, k: nat) { Steps(code, s, a, k).Halted() }

  ghost predicate Halts(code: Code, s: Subject, a: State) { exists k: nat :: HaltsIn(code, s, a, k) }

  /** How the run from `a` ends, if it ends. */
  datatype Ending = Never | Ends(last: State)

  ghost function Halt(code: Code, s: Subject, a: State): Ending
  {
    if Halts(code, s, a) then
      var k: nat :| HaltsIn(code, s, a, k);
      Ends(Steps(code, s, a, k))
    else Never
  }

  lemma {:induction false} HaltedStays(code: Code, s: Subject, a: State, k: nat)
    requires a.Halted()
    ensures Steps(code, s, a, k) == a
  {
    if k > 0 { HaltedStays(code, s, a, k - 1); }
  }

  lemma {:induction false} HaltsOnce(code: Code, s: Subject, a: State, k: nat, m: nat)
    requires HaltsIn(code, s, a, k) && HaltsIn(code, s, a, m)
    ensures Steps(code, s, a, k) == Steps(code, s, a, m)
    decreases k
  {
    if a.Halted() {
      HaltedStays(code, s, a, k);
      HaltedStays(code, s, a, m);
    } else {
      HaltsOnce(code, s, Step(code, s, a), k - 1, m - 1);
    }
  }

  /** The ending is the one seen after any number of steps that reaches a halt. */
  lemma HaltIs(code: Code, s: Subject, a: State, k: nat)
    requires HaltsIn(code, s, a, k)
    ensures Halt(code, s, a) == Ends(Steps(code, s, a, k))
  {
    var m: nat :| HaltsIn(code, s, a, m) && Halt(code, s, a) == Ends(Steps(code, s, a, m));
    HaltsOnce(code, s, a, k, m);
  }

  /** A step does not change the ending. */
  lemma One(code: Code, s: Subject, a: State)
    ensures Halt(code, s, a) == Halt(code, s, Step(code, s, a))
  {
    var b := Step(code, s, a);
    if k: nat :| HaltsIn(code, s, a, k) {
      HaltIs(code, s, a, k);
      if k == 0 {
        assert HaltsIn(code, s, b, 0);
        HaltIs(code, s, b, 0);
      } else {
        assert HaltsIn(code, s, b, k - 1);
        HaltIs(code, s, b, k - 1);
      }
    } else if k: nat :| HaltsIn(code, s, b, k) {
      assert HaltsIn(code, s, a, k + 1);
    }
  }

  /** The interpreter loop, run on code that halts. */
  method Match(code: Code, s: Subject, i: nat) returns (r: State)
    requires Halts(code, s, Run(0, i, Base, []))
    ensures Halt(code, s, Run(0, i, Base, [])) == Ends(r)
  {
    var a := Run(0, i, Base, []);
    ghost var start := a;
    ghost var k: nat :| HaltsIn(code, s, a, k);
    while !a.Halted()
      invariant HaltsIn(code, s, a, k)
      invariant Halt(code, s, start) == Halt(code, s, a)
      decreases k
    {
      One(code, s, a);
      a := Step(code, s, a);
      k := k - 1;
    }
    HaltIs(code, s, a, 0);
    r := a;
  }
}
