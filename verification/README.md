# Skynet, verified in part

A Dafny model of the parts of skynet whose correctness is hard to see: the LPeg pattern compiler and its
virtual machine, the actor scheduler with its queues and reference counts, the handle table, the hierarchical
timing wheel, the spinning reader-writer lock, the packet filter, the serializer, the JSON codec, the shared
table, the big integers behind number conversion, and the key exchange arithmetic. `dafny verify dfyconfig.toml` checks
everything.

## What is modelled

**LPeg** (`Peg*.dfy`). `PegTree` gives pattern trees their meaning, a big-step semantics of parsing expressions
with captures as events. `PegAnalysis` holds the static analyses and proves them sound. `PegVm` is the
instruction set, one step of the interpreter, and the interpreter loop. `PegCodegen` is the code that each
pattern gets, with every optimised shape of the source: test and jump choices, repetitions without choice,
partial commits that reuse an entry in place, tests that dominate a pattern, and-predicates by going back, full
captures, tail calls. `PegShapes`, `PegGrammar` and `PegCorrect` prove that this code does what the pattern
means, `PegPeephole` that the final rewriting changes no result, `PegVerify` that patterns whose checks passed
have an answer, `PegSettle` that their code has no endless chain of jumps, and `PegBudget` that all analyses end
for them. `PegEnding` has the analyses as the source has them, which may follow calls without end, and `PegPasses`
says exactly when the compiler ends. `PegExact` says how much the analyses find, and `PegAccepts` which grammars
the checks accept: those without left recursion and without a nullable pattern that is repeated.
`PegCompiler` is the compiler as the source has it, which appends
instructions and patches offsets; it is proved to produce the code of `PegCodegen`. `PegMain` puts the parts
together: compiling and matching an accepted pattern ends and tells its meaning. `PegEndless` has the accepted
patterns of which this is not so.

**Scheduler** (`MessageQueue.dfy`, `Scheduler*.dfy`). `MessageQueues` has the ring buffer and the global queue as
classes. `Scheduler` is a step system over any number of threads and services: every locked section or atomic
access is one step, and an activity is what a thread is in the middle of. A send, a kill or a launch from inside
a callback is an activity of its own. Deleting a context, after its last reference is given up, is two steps,
the mark on its queue and the freeing of the context, and the thread that gave it up may already go on; that only
adds interleavings. The error that is sent for each dropped message is an activity like other sends.
`SchedulerOutcomes` follows each operation to its end: a message that is sent arrives, a worker serves it, a killed
service is not found again.

**Handle table** (`HandleTable.dfy`). The open-addressed table of handles, as a class, with its doubling, the
sorted array of names, also doubled, and their binary search.

**Timer** (`Timer*.dfy`, `SkynetTimer.dfy`). `TimerSpec` is the simple timer, a tick counter and a list of
events, with its runs. `TimerWheel` says in which list of the wheel a node belongs and how a tick changes that.
`SkynetTimer` is the wheel as a class; a linked list is a sequence. While a tick dispatches, the lock is free and
other threads may add events: what they add is a parameter.

**Lock and key exchange** (`RwLock.dfy`, `ModExp.dfy`). The lock is a step system, one atomic access a step.

**Data** (`NetPack*.dfy`, `Serialize*.dfy`, `Cjson*.dfy`, `SharedTable.dfy`). `NetPack` puts packets together from
chunks, with its ring of packets and its hash of partial ones; `NetPackOrder` says when they arrive in order.
`Cjson` is JSON as it is written and read, `CjsonBuffers` the growing buffer, the scratch buffer and the recursive
parser. `CjsonTexts`, with `CjsonNumbers`, has all the ways to write a value, and `CjsonExact` shows that those are
decoded and nothing else. `Serialize` is the format of packed values, `SerializeForms` all the byte strings that are
unpacked, also those that packing never writes, and `SerializeBlocks` the chain of blocks, the writer and the reader
of it. `SharedTable` is the frozen form of a Lua table.

**Big integers** (`BigWords.dfy`, `Bigint.dfy`, `PowersOfFive.dfy`). The integers of any size in `dtoa.c`, on
arrays of 32-bit words, proved against their values.

Two idioms recur. A parameter `b` of the pattern analyses bounds how many calls of rules are followed on one
path; when it runs out the analysis gives its most cautious answer, and the theorems on what code does hold for every
`b`. Where it matters that the source has no bound, `PegEnding` has the same analyses without an answer in that case:
what ends, ends with the same answer for every larger bound. And a predicate of the form
`forall n :: Look(n) ==> ...` is a definition that stays closed in proofs until `Look`, of `Basics`, is mentioned.

## What turned out false

- `verifyrule` loses the verdict of a repetition or predicate around a sub-grammar that is not nullable, so
  `verifygrammar` accepts a left-recursive grammar (`PegVerify.LostVerdictDiverges`). The comment that a true
  `nb` makes it return true holds exactly when its traversal does not end in such a sub-grammar
  (`PegVerify.KeepsNb`). A check that keeps the verdict there (`PegVerify.VerifyKept`) is right: what passes it,
  with look-behinds that call nothing, always has an answer (`PegVerify.AcceptedTerminates`).
- `verifyrule` does not enter look-behinds because they "cannot have calls", but `lp_behind` accepts a predicate
  around a call, whose length is 0 (`PegVerify.CallBehindDiverges`); `hascaptures` has only an assertion against that,
  and assertions are off (`3rd/lpeg/lptypes.h:13`).
- For an accepted grammar the compiler need not end. When the negation of a sub-grammar that always fails stands
  before a call of the rule itself, `finaltarget` follows two jumps in a circle (`PegEndless.CompilerHangs`); when the
  first set is asked for of a left-recursive call, `getfirst` follows calls without end (`PegEndless.AnalysesHang`).
  It ends exactly when the analyses that code generation starts do and every chain of jumps in the code does
  (`PegPasses.CompilerEnds`), and both can be computed with a bound of four calls for each rule
  (`PegPasses.CompilerDecided`).
- A pattern without an answer may still match once compiled, since a test can skip the part that has none
  (`PegEndless.MoreThanMeant`).
- `skynet_context_new` gives up its reference before it sets `init` and reports the launch. A kill in between
  frees the context first (`Scheduler.WritesToFreedContext`, `Scheduler.ReportsFreedContext`). Either step is safe
  exactly as long as the context can be found, somebody holds it, or its deletion is not done
  (`Scheduler.ContextsSafe`); without a kill both always are (`Scheduler.LateStepsSafe`).
- A handle can be 0, which is meant for the system (`HandleTable.ZeroIssued`): exactly when slot 0 is free and the
  slots of all places up to the next multiple of 2^24 are taken (`HandleTable.ZeroReturns`).
- A packet that a filter call returns can be later in its stream than packets still in the queue
  (`NetPack.Overtaken`). Packets arrive in order exactly when no call returns one of a stream of which the queue
  holds packets (`NetPackOrder.OrderExactly`), which a caller can tell before the call (`NetPackOrder.HandChunk`).
- An index of a shared table that does not fit in 32 bits is looked up as another one: the answer is right exactly
  for keys of the source and those that none of them is cut to alike (`SharedTable.LongIndex`). A key of the source
  that does not fit can overwrite another (`SharedTable.LongKeyOverwrites`), and two that are cut to the same leave a
  slot unused or a key there twice, as do two tables as keys, which are both read as the empty string
  (`SharedTable.AlikeKeysFail`). All slots are used, by different keys, exactly when no two keys are cut to the same
  and none to a place of the array part (`SharedTable.Frozen.ConvTable`).
- JSON gives a value back exactly when no array in it has a hole, which becomes a null, and no table a number as key,
  which becomes a string (`Cjson.BackExactly`). Such a key can hide a field (`Cjson.HiddenField`), exactly when it
  comes behind it with another value (`Cjson.SameField`). 010 is read as 8 (`Cjson.DecodeOctal`), and an integer beyond
  64 bits as the nearest that fits (`Cjson.DecodeDigits`), though JSON has no octal numbers and no such limit.
- `quorem` need not divide: for 10 by 1 its estimate is too small by more than one
  (`BigIntegers.EstimateTooSmall`). What it leaves is less than the divisor exactly when the estimate is not
  (`BigIntegers.Quorem`), as it is for the divisors that `dtoa` makes (`BigIntegers.QuoremOfShaped`). For a divisor
  whose top word is 2^32 - 1 the source divides by zero.
- `powmodp` tests `a > P` where `a >= P` is meant: it returns `P` instead of 0 exactly for `a == P` and `b == 1`
  (`ModExp.PowModPrime`).

## Model

| member | source | states |
|---|---|---|
| PegTree.ParseStable | 3rd/lpeg/lpvm.c:149-360 | A pattern has at most one meaning at a position: more depth of derivation never changes an answer. |
| PegTree.RepNeverFails | 3rd/lpeg/lpcode.c:205-206 | A repetition never fails. |
| PegAnalysis.NullableSound | 3rd/lpeg/lpcode.c:196-230 | A pattern that is not nullable consumes whenever it matches. |
| PegAnalysis.NofailSound | 3rd/lpeg/lpcode.c:196-230 | A nofail pattern never fails, on any subject. |
| PegAnalysis.NofailNullable | 3rd/lpeg/lpcode.c:186-187 | Nofail patterns are nullable. |
| PegAnalysis.FixedLenSound | 3rd/lpeg/lpcode.c:236-273 | A pattern of fixed length n consumes n characters in every match. |
| PegAnalysis.HasCapturesSound | 3rd/lpeg/lpcode.c:152-178 | A pattern without captures records none, although recursive rules are not entered twice. |
| PegAnalysis.FirstSound | 3rd/lpeg/lpcode.c:276-373 | In front of a character outside its first set a pattern fails, or matches nothing in front of a character outside its follow set. |
| PegAnalysis.FirstEmptySound | 3rd/lpeg/lpcode.c:287-293 | When a test on the first set is allowed, the pattern fails at the end of the subject. |
| PegAnalysis.HeadFailExact | 3rd/lpeg/lpcode.c:373-400 | A head-fail pattern allows a test, and succeeds exactly when the next character is in its first set. |
| PegAnalysis.OpenSound | 3rd/lpeg/lptree.c:677-694 | What `lp_behind` checks while calls are still open is enough: a match has the length it found and records no capture, whatever the calls become. |
| PegExact.AuxExactly | 3rd/lpeg/lpcode.c:196-230 | When `checkaux` ends, `nullable` and `nofail` hold exactly of the patterns that match the empty subject once predicates and repetitions are taken for granted. |
| PegExact.FixedExactly | 3rd/lpeg/lpcode.c:236-273 | `fixedlen` finds a length exactly if it is the only one the pattern may consume; a repetition may consume any. |
| PegExact.CapturesExactly | 3rd/lpeg/lpcode.c:152-178 | `hascaptures` says exactly whether a capture can be reached through the parts of the pattern and the rules it calls, although no rule is entered twice on one path. |
| PegEnding.AuxMore | 3rd/lpeg/lpcode.c:196-230 | When `checkaux` ends it does so with the answer of the bounded analysis, for this bound and every larger one. |
| PegEnding.FirstMore | 3rd/lpeg/lpcode.c:294-366 | So for `getfirst`. |
| PegEnding.HeadMore | 3rd/lpeg/lpcode.c:373-400 | So for `headfail`. |
| PegEnding.FirstAny | 3rd/lpeg/lpcode.c:294-366 | Whether `getfirst` ends does not depend on the follow set. |
| PegEnding.EndsSoon | 3rd/lpeg/lpcode.c:196-400 | For any grammar: when an analysis does not end within four calls for each rule, it does not end. |
| PegEnding.AnalysesSoon | 3rd/lpeg/lpcode.c:682-944 | The same for all analyses that code generation starts. |
| PegEnding.GenSame | 3rd/lpeg/lpcode.c:919-944 | When those end, and lengths are settled, every larger bound gives the same code. |
| PegVm.HaltsOnce | 3rd/lpeg/lpvm.c:149-360 | A run of the machine ends in one way. |
| PegVm.Match | 3rd/lpeg/lpvm.c:149-360 | The interpreter loop returns how the run ends. |
| PegShapes.SimTest | 3rd/lpeg/lpcode.c:614-635 | A test instruction lets exactly the characters of the set through, and then what is dominated by it may rely on it. |
| PegShapes.ChoiceTestAt | 3rd/lpeg/lpcode.c:682-695 | Test and jump choice: an ordered choice, when the next character decides between the options. |
| PegShapes.ChoicePartialAt | 3rd/lpeg/lpcode.c:696-700 | A partial commit makes an option of a pattern that ends an option, reusing the entry in place. |
| PegShapes.ChoiceBackAt | 3rd/lpeg/lpcode.c:701-714 | The general choice, also when its test bypasses the first option. |
| PegShapes.RepSpanAt | 3rd/lpeg/lpcode.c:780-783 | A span repeats a character set as long as it can. |
| PegShapes.RepTestAt | 3rd/lpeg/lpcode.c:786-794 | A repetition without a choice: it may fail where the pattern matches only in front of a character outside the follow set. |
| PegShapes.RepBackAt | 3rd/lpeg/lpcode.c:795-812 | The general repetition, with its own entry or the one in place. |
| PegShapes.NotTestAt | 3rd/lpeg/lpcode.c:823-838 | Not of a head-fail pattern: a test is enough. |
| PegShapes.NotBackAt | 3rd/lpeg/lpcode.c:823-838 | Not in general: choice and fail twice. |
| PegShapes.AndBehindAt | 3rd/lpeg/lpcode.c:720-726 | And of a pattern of fixed length without captures: match it and go back. |
| PegShapes.AndBackAt | 3rd/lpeg/lpcode.c:727-736 | And in general: choice and back commit. |
| PegShapes.BehindAt | 3rd/lpeg/lpcode.c:659-663 | Look-behind: go back, then match. |
| PegShapes.CaptureFullAt | 3rd/lpeg/lpcode.c:745-751 | A capture of fixed length is one full capture. |
| PegShapes.CaptureOpenAt | 3rd/lpeg/lpcode.c:752-757 | A capture in general, whether or not closing it makes it a full capture. |
| PegShapes.CallAt | 3rd/lpeg/lpcode.c:844-862 | A call of a rule does what the rule means, also when it was turned into a tail call. |
| PegShapes.GrammarAt | 3rd/lpeg/lpcode.c:868-884 | The code of a grammar does what its first rule means. |
| PegGrammar.CorrectCallsCorrects | 3rd/lpeg/lpcode.c:844-862 | Every open call becomes a call of its rule, or a jump to it where only a return can follow. |
| PegGrammar.RuleFits | 3rd/lpeg/lpcode.c:868-884 | Every rule of a placed grammar stands at its position, with its calls corrected. |
| PegCorrect.Sim | 3rd/lpeg/lpcode.c:919-944 | The code of any pattern, generated with any option flag, guard and follow set, and placed anywhere, simulates the meaning of the pattern. |
| PegCorrect.EmitCorrect | 3rd/lpeg/lpcode.c:919-944 | Where a pattern has an answer, running its code ends at IEnd with its captures if it matches, and gives up if it fails. |
| PegPeephole.PeepholeSame | 3rd/lpeg/lpcode.c:956-995 | The peephole pass leaves every run, ending or not, with the same result, but for runs excluded by the interpreter's assertions. |
| PegPeephole.RelabelMimics | 3rd/lpeg/lpcode.c:961-966 | Sending a label to its final target changes no run. |
| PegPeephole.ReplaceMimics | 3rd/lpeg/lpcode.c:967-983 | A jump may become the instruction it leads to, with a filler in the place of its offset. |
| PegPeephole.CompileCorrect | 3rd/lpeg/lpcode.c:1001-1010 | The compiler preserves meaning where there is one: same end of match, same captures, same failures. |
| PegEndless.MoreThanMeant | 3rd/lpeg/lpcode.c:682-695 | An accepted pattern on which compiling ends, without an answer on the subject `a`, where its code ends: a test skips the part that has none, so that preservation of meaning has no converse. |
| PegVerify.KeepsNb | 3rd/lpeg/lptree.c:992-1043 | For a true `nb`, `verifyrule` returns true exactly when it does not end in a sub-grammar that is not nullable. |
| PegVerify.NbOnly | 3rd/lpeg/lptree.c:1002-1043 | `nb` has no part in rejecting a rule. |
| PegVerify.KeptNb | 3rd/lpeg/lptree.c:992-1043 | In the check that keeps the verdict of a sub-grammar a true `nb` gives a true verdict, as the comment of `verifyrule` says, and has no part in rejecting a rule. |
| PegVerify.KeptPasses | 3rd/lpeg/lptree.c:1002-1043 | What passes that corrected check passes `verifyrule`, with a verdict that is not truer. |
| PegVerify.KeptAgrees | 3rd/lpeg/lptree.c:1002-1043 | The two give the same verdict wherever none is lost; for a true `nb` exactly where `verifyrule` does not end in a sub-grammar that is not nullable. |
| PegVerify.VerdictSound | 3rd/lpeg/lptree.c:992-1043 | A pattern that matches without consuming gets a true verdict of the corrected check. |
| PegVerify.Terminates | 3rd/lpeg/lptree.c:1045-1063 | Inside a grammar that passes the corrected check, with look-behinds that call nothing, every pattern has an answer; the measure is remaining subject, rules left to enter, pattern. |
| PegVerify.AcceptedTerminates | 3rd/lpeg/lptree.c:1045-1063 | Every pattern that passes the corrected check, with look-behinds that call nothing, has an answer at every position of every subject. |
| PegVerify.LostVerdictDiverges | 3rd/lpeg/lptree.c:1038-1039 | A left-recursive grammar that is accepted and has no answer. |
| PegVerify.CallBehindDiverges | 3rd/lpeg/lptree.c:1008-1010 | A grammar with a call inside a look-behind that is accepted and has no answer. |
| PegVerify.HarmlessAccepted | 3rd/lpeg/lptree.c:1038-1039 | The corrected check does not reject all that loses a verdict: it accepts a grammar in which a lost verdict does no harm. |
| PegAccepts.LoopsExactly | 3rd/lpeg/lptree.c:952-969 | `checkloops` finds a loop exactly if somewhere inside, but not in a sub-grammar, a nullable pattern is repeated. |
| PegAccepts.UsedExactly | 3rd/lpeg/lptree.c:1045-1063 | The rules that are checked are the first and those that some rule calls. |
| PegAccepts.KeptExactly | 3rd/lpeg/lptree.c:992-1043 | The corrected check rejects a pattern exactly if more rules than the limit are entered one from the other before anything is consumed; its verdict is whether the pattern may be passed without consuming. |
| PegAccepts.RejectedOnlyIf | 3rd/lpeg/lptree.c:992-1043 | `verifyrule` rejects a pattern only if there is such a chain of more rules than the limit. |
| PegAccepts.RuleExactly | 3rd/lpeg/lptree.c:970-990 | A rule that comes back to itself before anything is consumed is rejected by the corrected check, and a rule is rejected only if it leads to one. |
| PegAccepts.GrammarExactly | 3rd/lpeg/lptree.c:1045-1063 | With the corrected check `verifygrammar` accepts a grammar of at most 250 rules exactly if its calls name rules, no rule in use comes back to itself before anything is consumed, and none repeats a nullable pattern. |
| PegAccepts.GrammarAccepted | 3rd/lpeg/lptree.c:1045-1063 | Such a grammar is accepted by `verifygrammar` as it is. |
| PegAccepts.VerifiedExactly | 3rd/lpeg/lptree.c:1080-1097 | All grammars inside a pattern have passed `verifygrammar` exactly if each did. |
| PegAccepts.WellFormedExactly | 3rd/lpeg/lptree.c:677-694 | What the constructors ask is asked of every node inside: calls name rules, grammars have one, look-behinds have a length and no captures. |
| PegMain.AcceptedExactly | 3rd/lpeg/lptree.c:1080-1097 | A pattern whose grammars have at most 250 rules is accepted exactly if it calls nothing and repeats nothing nullable outside its grammars, and inside it every grammar is free of left recursion and of loops and every look-behind has a length of at most 255, no captures and no calls. |
| PegBudget.VerdictNullable | 3rd/lpeg/lptree.c:992-1043 | What `nullable` accepts gets a true verdict of the corrected check, which has so gone wherever `nullable` goes. |
| PegBudget.AuxEnds | 3rd/lpeg/lpcode.c:196-230 | Inside an accepted grammar `checkaux` ends: it does not follow more calls on a path than `verifyrule` did, with those of nested grammars. |
| PegBudget.FirstEnds | 3rd/lpeg/lpcode.c:294-366 | So does `getfirst`, which also goes into negations and look-behinds. |
| PegBudget.HeadEnds | 3rd/lpeg/lpcode.c:373-400 | So does `headfail`. |
| PegBudget.ChecksEnded | 3rd/lpeg/lptree.c:1045-1063 | The analyses that `verifyrule` and `checkloops` start for an accepted pattern end. |
| PegBudget.CompileAnalyses | 3rd/lpeg/lpcode.c:919-944 | All analyses that code generation starts for an accepted pattern end, with `Budget` calls on a path. |
| PegEnding.FixedStable | 3rd/lpeg/lpcode.c:236-273 | For any grammar, accepted or not, following as many calls as there are rules settles `fixedlen`. |
| PegEnding.CapturesStable | 3rd/lpeg/lpcode.c:152-175 | Following each rule once settles `hascaptures`. |
| PegBudget.CompileStable | 3rd/lpeg/lpcode.c:1001-1010 | The code of an accepted pattern is the same for all bounds of at least `Budget`. |
| PegSettle.FinalSettles | 3rd/lpeg/lpcode.c:641-645 | A chain of jumps that ends has fewer jumps than the code has elements. |
| PegSettle.FindFinalTarget | 3rd/lpeg/lpcode.c:641-645 | Following a chain that ends leads to its final target. |
| PegSettle.RuleStartSettles | 3rd/lpeg/lpcode.c:844-862 | No chain starting at a rule is endless, because the rule has an answer on the empty subject. |
| PegSettle.EmitSettles | 3rd/lpeg/lpcode.c:641-653 | In the code of a pattern whose checks passed, the stronger ones of `Safe` included, every chain of jumps ends. |
| PegPasses.PeepAtSettles | 3rd/lpeg/lpcode.c:956-995 | A round of the peephole pass leaves every chain of jumps finite. |
| PegPasses.PeepholeExactly | 3rd/lpeg/lpcode.c:956-995 | With its jump chasing limited only by fuel, the peephole pass ends for some amount of it if and only if no chain of jumps is endless, and then with the same code for every amount. |
| PegPasses.CorrectInIs | 3rd/lpeg/lpcode.c:844-862 | When `correctcalls` ends it does what `PegCodegen.CorrectCalls` says. |
| PegPasses.EndsGen | 3rd/lpeg/lpcode.c:641-653 | When no chain is endless in the code of a pattern, none was that `correctcalls` followed on the way. |
| PegPasses.CompilerEnds | 3rd/lpeg/lpcode.c:1001-1010 | With a bound on the calls that are followed, compiling a pattern ends if and only if the analyses that code generation starts do and from every element of the code the jumps lead to something that is no jump. |
| PegPasses.CompilerDecided | 3rd/lpeg/lpcode.c:1001-1010 | For any well-formed pattern, whether compiling ends at all, with any bound from `Limit` on, is decided by the analyses and jumps with the bound `Limit`; and no larger bound gives other code. |
| PegEndless.CompilerHangs | 3rd/lpeg/lpcode.c:641-653 | A grammar that is accepted, all analyses of which end, and on which compiling does not end: `finaltarget` goes round two jumps. |
| PegEndless.AnalysesHang | 3rd/lpeg/lpcode.c:316-338 | A grammar that is accepted, the code of which has no endless chain of jumps, and on which compiling does not end: `getfirst` does not. |
| PegCompiler.SafeCompilable | 3rd/lpeg/lpcode.c:844-862 | For patterns whose checks passed, the stronger ones included, all the chains that the compiler follows end. |
| PegCompiler.CompileState.CodeGen | 3rd/lpeg/lpcode.c:919-944 | Whenever the chains that `correctcalls` follows end, appending and patching produces the code that `PegCodegen.Gen` describes, with the dominating test given by its index. |
| PegCompiler.CompileState.EmitChoice | 3rd/lpeg/lpcode.c:677-714 | The three forms of a choice, chosen as the source does. |
| PegCompiler.CompileState.EmitRep | 3rd/lpeg/lpcode.c:777-814 | The three forms of a repetition. |
| PegCompiler.CompileState.EmitGrammar | 3rd/lpeg/lpcode.c:868-884 | The rules behind one another, with their calls corrected, whenever the chains behind the calls end. |
| PegCompiler.CompileState.FixCalls | 3rd/lpeg/lpcode.c:844-862 | Going from instruction to instruction corrects every call. |
| PegCompiler.CompileState.Optimize | 3rd/lpeg/lpcode.c:956-995 | When no chain of jumps is endless the peephole loop ends, and computes `PegPeephole.Peephole`. |
| PegCompiler.CompileState.CompilePattern | 3rd/lpeg/lpcode.c:1001-1010 | For every pattern whose analyses end and in whose code the jumps do, and these are those for which it ends at all, compiling ends with the compiled code, which is that of every larger bound. |
| PegMain.CompiledAnswers | 3rd/lpeg/lpcode.c:1001-1010 | An accepted pattern has exactly one answer everywhere, and the compiled code gives it. |
| PegMain.BoundNotFelt | 3rd/lpeg/lpcode.c:1001-1010 | A pattern that is accepted with one bound of at least `Budget` is accepted with every other: the analyses of the checks end, compiling ends, and the code is the same. |
| PegMain.MatchPattern | 3rd/lpeg/lptree.c:1156-1182 | Whenever the analyses and the chains of jumps end and the pattern has an answer, compiling and matching ends and tells the meaning of the pattern. |
| PegMain.MatchAccepted | 3rd/lpeg/lptree.c:1156-1182 | Compiling an accepted pattern and matching it ends, and tells the meaning of the pattern. |
| MessageQueues.MessageQueue.Push | skynet-src/skynet_mq.c:190-209 | A push appends to the messages, however the ring wraps or grows, and lists the queue exactly when its flag was clear. |
| MessageQueues.MessageQueue.Pop | skynet-src/skynet_mq.c:138-172 | The oldest message leaves the ring; an empty queue clears its flag and resets the threshold. A queue that is longer than the threshold is noted with its length, and the threshold is doubled until it fits. |
| MessageQueues.RaisedLeast | skynet-src/skynet_mq.c:155-159 | The new threshold is the least double of the old one that the queue fits in. |
| MessageQueues.MessageQueue.Overload | skynet-src/skynet_mq.c:127-135 | The length that was noted is told once. |
| MessageQueues.MessageQueue.ExpandQueue | skynet-src/skynet_mq.c:175-187 | A full ring becomes a half full one with the same messages. |
| MessageQueues.MessageQueue.Length | skynet-src/skynet_mq.c:112-125 | The number of messages, from head, tail and capacity. |
| MessageQueues.MessageQueue.MarkRelease | skynet-src/skynet_mq.c:220-228 | Marking lists a queue whose flag is clear, and leaves the flag. |
| MessageQueues.MessageQueue.Release | skynet-src/skynet_mq.c:231-250 | A marked queue is emptied in order and freed; another is passed on unchanged. |
| MessageQueues.PushedBetween | skynet-src/skynet_mq.c:190-209 | Writing at the tail appends, or fills the ring. |
| Scheduler.StepKeeps | skynet-src/skynet_server.c:115-351 | Every step of every thread keeps the invariant: reference counts are exact, each queue has one place, contexts that can be found are initialised, messages are accounted for. |
| Scheduler.Exclusive | skynet-src/skynet_server.c:297-351 | A service's callback never runs on two threads at once, and only after `init` was set. |
| Scheduler.OnePlace | skynet-src/skynet_mq.c:138-209 | A live queue is listed once, held by one activity, or parked; a parked queue is empty with its flag clear, so no wake-up is lost. |
| Scheduler.Conserved | skynet-src/skynet_server.c:115-351 | In every run, every message pushed is in the ring or was taken in order and met one fate, and for every message dropped, and no other, an error was sent to its sender. |
| Scheduler.ErrorSent | skynet-src/skynet_server.c:115-123 | The error for a dropped message is pushed to its sender by the next step of the thread, if the sender is still registered. |
| SchedulerOutcomes.SendDelivers | skynet-src/skynet_server.c:230-239 | A message sent to a service that can be found is appended to its queue by the next step of the sender, and the queue is listed or held; one to another handle changes nothing. |
| SchedulerOutcomes.SendArrives | skynet-src/skynet_server.c:230-239 | Whatever other threads do before, the push of a sent message makes it one more element of those pushed to the service, and it stays at its place in every run. |
| SchedulerOutcomes.WorkerServes | skynet-src/skynet_server.c:297-345 | A worker that takes a queue with messages, of a service that can be found, runs the callback with the first one. |
| SchedulerOutcomes.ServesOn | skynet-src/skynet_server.c:312-334 | A worker that goes on runs the callback with the next message, or finds none and lets the queue go, with its flag clear. |
| SchedulerOutcomes.TakesTurns | skynet-src/skynet_server.c:338-350 | After its round a worker goes on with the first queue of the list and puts its own at the end; when the list is empty it keeps its own. |
| SchedulerOutcomes.DropsAll | skynet-src/skynet_mq.c:230-250 | The queue of a service that is gone loses its messages one by one, each answered with an error, and is freed when it is empty. |
| SchedulerOutcomes.RefusedQueue | skynet-src/skynet_server.c:306-311 | A queue whose context cannot be found goes back to the list until it is marked, and is dropped then. |
| SchedulerOutcomes.FoundExactly | skynet-src/skynet_handle.c:42-130 | A service can be found exactly from its creation until it is retired. |
| SchedulerOutcomes.KilledForGood | skynet-src/skynet_server.c:376-390 | A service that was retired is not found again in any run. |
| SchedulerOutcomes.LaunchLists | skynet-src/skynet_server.c:154-172 | A service whose `init` function succeeds, and that is not killed meanwhile, gets its queue listed, with `init` set, and stays to be found. |
| SchedulerOutcomes.KilledLaunch | skynet-src/skynet_server.c:162-172 | One that was killed in between gets its queue listed all the same, but its creator neither sets `init` nor reports it. |
| SchedulerOutcomes.FailureRetires | skynet-src/skynet_server.c:173-181 | One whose `init` function fails is retired, and all its creator held is given up. |
| SchedulerOutcomes.TouchesOnly | skynet-src/skynet_server.c:115-351 | A step changes no queue and no context but those it touches. |
| Scheduler.RunGrows | skynet-src/skynet_server.c:230-351 | What happened to a message never changes, and a freed queue stays as it is. |
| Scheduler.NoUseAfterFree | skynet-src/skynet_mq.c:220-250 | No step touches a freed queue, no queue is freed twice, and none is marked twice. |
| Scheduler.FreedLast | skynet-src/skynet_server.c:209-227 | A queue is freed only after its context was marked, nothing refers to it, all its messages met their fates and all errors were sent. |
| Scheduler.NoLeak | skynet-src/skynet_server.c:209-227 | When nothing is going on, killed services are torn down and the others have no messages. |
| Scheduler.ContextsSafe | skynet-src/skynet_server.c:154-169 | Every step touches only contexts not yet freed, but for the two of `skynet_context_new` after its release: these are safe exactly as long as the context can be found, somebody holds it, or its deletion is not done. |
| Scheduler.LateStepsSafe | skynet-src/skynet_server.c:154-169 | In a run without a kill of the service both late steps of its creation are safe. |
| Scheduler.WritesToFreedContext | skynet-src/skynet_server.c:162-166 | A run in which `init` is set in a freed context. |
| Scheduler.ReportsFreedContext | skynet-src/skynet_server.c:166-168 | A run in which the launch report reads a freed context. |
| TimerSpec.RunsOnTime | skynet-src/skynet_timer.c:172-184 | In every run of the simple timer, tick n dispatches exactly the events scheduled for it, in the order they were scheduled. |
| TimerWheel.TickMoves | skynet-src/skynet_timer.c:118-138 | A tick changes the place of no pending node but those of the moved list, which go further down into lists that were empty, also when the clock wraps. |
| TimerWheel.MovingTick | skynet-src/skynet_timer.c:108-138 | Moving the list whose time has come puts every list in order for the new time. |
| TimerWheel.QuietTick | skynet-src/skynet_timer.c:118-138 | When no list is moved every list is in order already. |
| TimerWheel.DispatchDue | skynet-src/skynet_timer.c:159-170 | The near list of the current tick holds exactly the events that are due, in order. |
| SkynetTimer.Timer.AddNode | skynet-src/skynet_timer.c:74-92 | A node goes to the list where it belongs. |
| SkynetTimer.Timer.TimerAdd | skynet-src/skynet_timer.c:95-105 | Adding an event keeps every list in order. |
| SkynetTimer.Timer.MoveList | skynet-src/skynet_timer.c:108-115 | The nodes of a list are added again, in order. |
| SkynetTimer.Timer.TimerShift | skynet-src/skynet_timer.c:118-138 | The clock goes on by one, wrapping around, and the right list is moved. |
| SkynetTimer.Timer.TimerExecute | skynet-src/skynet_timer.c:159-170 | The near list of the current tick is dispatched in order and cleared, whatever other threads add while the lock is free. |
| SkynetTimer.Timer.TimerUpdate | skynet-src/skynet_timer.c:172-184 | A tick dispatches exactly the events scheduled for it, in the order they were scheduled; what other threads add during the dispatch counts as added behind it. |
| SkynetTimer.Timer.Timeout | skynet-src/skynet_timer.c:211-231 | A delay of 0 or less is a message at once, another an event after that many ticks. |
| SkynetTimer.Timer.UpdateTime | skynet-src/skynet_timer.c:266-281 | Time going on by n is n ticks, with the events that other threads add during and between them; a clock that goes back is none. |
| SkynetTimer.ListsTick | skynet-src/skynet_timer.c:118-138 | What `timer_shift` moves is what the lists need for the next tick. |
| RwLock.StepKeeps | skynet-src/rwlock.h:17-48 | Every atomic access keeps: `read` counts the readers, backing out or not; `write` says whether there is a writer; a writer inside keeps readers out. |
| RwLock.Excludes | skynet-src/rwlock.h:17-48 | A writer inside excludes every reader and every other writer. |
| RwLock.SomebodyMoves | skynet-src/rwlock.h:17-48 | While somebody wants in or has to leave, the next access of some thread is not a vain spin. |
| RwLock.WriterGetsIn | skynet-src/rwlock.h:17-42 | Through any run in which a writer waits, no reader gets in and the accesses of readers that are not vain spins are bounded by what was ahead; when they are used up the next access lets the writer in. |
| RwLock.ReaderGoesIn | skynet-src/rwlock.h:17-30 | Where no writer holds or claims the lock, a reader that wants in is in after three accesses. |
| RwLock.ReaderGetsIn | skynet-src/rwlock.h:17-30 | In any run of many threads in which the flag stays clear, a reader is in at its third access, and not before. |
| RwLock.WriterGoesIn | skynet-src/rwlock.h:32-38 | Where nobody holds or claims the lock, a writer is in after two accesses. |
| RwLock.LeavesFromInside | skynet-src/rwlock.h:40-48 | A thread is out of the lock exactly after an access from inside, which gives up what it held. |
| RwLock.StaysWhatItIs | skynet-src/rwlock.h:17-48 | A thread on its way in as a reader or as a writer stays one, and moves nobody else. |
| ModExp.MulModP | lualib-src/lua-crypt.c:716-736 | In wrapping 64-bit arithmetic, the product modulo P. |
| ModExp.PowModP | lualib-src/lua-crypt.c:738-749 | The power modulo P, up to P standing for 0. |
| ModExp.PowModPrime | lualib-src/lua-crypt.c:752-757 | The power modulo P, exactly unless the base is P and the exponent 1. |
| ModExp.SameSecret | lualib-src/lua-crypt.c:775-809 | Both sides derive the same secret. |
| ModExp.PublicKeyAccepted | lualib-src/lua-crypt.c:775-809 | A public key is never 0, which the other side refuses. |
| ModExp.Exchange | lualib-src/lua-crypt.c:775-809 | The whole exchange, for all private keys but 0. |
| HandleTable.HandleStorage.Register | skynet-src/skynet_handle.c:35-67 | The first place from the index on whose slot is free is taken, in the table or, when that is full, in the doubled one; its handle was not in use and now stands for the context, and no other changes. There is none only when the table is full and cannot grow. |
| HandleTable.HandleStorage.Grow | skynet-src/skynet_handle.c:52-64 | Doubling a full table gets no two contexts into one slot and keeps what every handle stands for. |
| HandleTable.HeldGrow | skynet-src/skynet_handle.c:52-64 | The slots of the doubled table hold what the handle table says. |
| HandleTable.HandleStorage.Grab | skynet-src/skynet_handle.c:133-150 | Exactly the contexts that are registered are found. |
| HandleTable.HandleStorage.Retire | skynet-src/skynet_handle.c:70-106 | The handle and all its names leave the table, the other names move up in their order, and nothing else changes. |
| HandleTable.Search | skynet-src/skynet_handle.c:152-179 | The binary search finds a name exactly when it is there, and otherwise where it belongs. |
| HandleTable.HandleStorage.FindName | skynet-src/skynet_handle.c:152-179 | A name gives its handle, and one that is not there 0. |
| HandleTable.HandleStorage.NameHandle | skynet-src/skynet_handle.c:182-241 | A new name is put where it belongs, in place or in an array twice as large; a name in use is refused. |
| HandleTable.HandleStorage.InsertBefore | skynet-src/skynet_handle.c:182-205 | Both branches of the insertion, copying and shifting, put the name at its place and keep the others in order. |
| HandleTable.SameHandle | skynet-src/skynet_handle.c:40-48 | Two places of the index give the same handle exactly when they are a multiple of 2^24 apart. |
| HandleTable.NoReissue | skynet-src/skynet_handle.c:35-67 | With a table of n slots no handle is issued twice within 2^24 / n registrations. |
| HandleTable.ZeroReturns | skynet-src/skynet_handle.c:40-48 | A registration returns the handle 0 of the system exactly when slot 0 is free and those of all places up to the next multiple of 2^24 are taken. |
| HandleTable.ZeroIssued | skynet-src/skynet_handle.c:35-106 | A run of registrations and retirements that ends with handle 0 being issued. |
| NetPack.FramesAppend | lualib-src/lua-netpack.c:228-307 | Taking packets off a stream early changes neither the packets nor what is left. |
| NetPack.FramesOfFramed | lualib-src/lua-netpack.c:437-452 | A stream of packed messages is taken apart into these messages, with nothing left. |
| NetPack.Queue.Expand | lualib-src/lua-netpack.c:134-148 | What wrapped around in a full ring is straightened out, in order. |
| NetPack.Queue.FindUncomplete | lualib-src/lua-netpack.c:93-114 | A partial packet is taken out of its chain, and those of other streams stay. |
| NetPack.Queue.PushMore | lualib-src/lua-netpack.c:189-215 | The packets in a chunk are queued in order, and what is left is kept for the stream. |
| NetPack.Queue.FilterData | lualib-src/lua-netpack.c:228-307 | A chunk is taken together with what was kept of its stream: its packets are returned or queued, the rest is kept, and other streams are untouched. |
| NetPack.Filter | lualib-src/lua-netpack.c:228-307 | However streams are cut into chunks and mixed: with the queue emptied after each chunk, what is handed on of each stream are exactly the packets of its bytes, in order. |
| NetPack.Serve | lualib-src/lua-netpack.c:228-416 | In any run of chunks and pops, the packets emitted of each stream are those of its bytes, in order; the ones returned and the ones queued are an interleaving of them, and pops take the queued ones in order. |
| NetPack.Overtaken | lualib-src/lua-netpack.c:285-303 | A packet that is returned while packets of its stream are in the queue overtakes them. |
| NetPackOrder.OrderExactly | lualib-src/lua-netpack.c:228-416 | In any run of chunks and pops the caller gets the packets of each stream in their order if and only if no call returned a packet of a stream of which packets were still in the queue. |
| NetPackOrder.OrderKept | lualib-src/lua-netpack.c:228-307 | One step of that: an order kept so far stays so exactly unless the next chunk makes a packet that is returned while the queue has packets of its stream. |
| NetPackOrder.HandChunk | lualib-src/lua-netpack.c:228-307 | The same of a call of `filter_data_`, in terms of the packets in the queue before it. |
| NetPackOrder.Deliver | lualib-src/lua-netpack.c:228-416 | In any run the packets handed over are the first ones of each stream if no call overtook, and, when the packets of each stream differ, only if. |
| NetPackOrder.AlikeUnnoticed | lualib-src/lua-netpack.c:285-303 | Between packets that are alike overtaking cannot be seen in their bytes. |
| Serialize.RoundTrip | lualib-src/lua-seri.c:131-533 | A value that was packed is unpacked again, and what follows it is left. |
| Serialize.ListBack | lualib-src/lua-seri.c:556-596 | So is a list of values. |
| Serialize.SameTable | lualib-src/lua-seri.c:218-257 | A table that is unpacked has at each key what was packed. |
| SerializeForms.UnpackExactly | lualib-src/lua-seri.c:459-532 | What can be unpacked are exactly the forms: integers of any of the five widths, strings with a length of any kind, tables with a length of any kind and a nil at their end; the value is that of the form. |
| SerializeForms.UnpackListExactly | lualib-src/lua-seri.c:556-596 | A call accepts exactly the forms that stand one behind the other. |
| SerializeForms.NumberLittle | lualib-src/lua-seri.c:341-398 | Numbers are little-endian, negative ones in two's complement. |
| SerializeForms.PackedForm | lualib-src/lua-seri.c:131-340 | A value is packed in its shortest form: the fewest bytes that hold an integer or a length, and nothing in the first byte that means nothing. |
| SerializeForms.StripKeeps | lualib-src/lua-seri.c:240-256 | Of the entries of a table exactly those at the indices of its array part are not written a second time. |
| SerializeForms.FormProper | lualib-src/lua-seri.c:459-596 | Whatever was unpacked can be packed again. |
| SerializeBlocks.ShallowExactly | lualib-src/lua-seri.c:297-303 | Packing refuses a value exactly if something in it lies more than 32 tables deep. |
| SerializeBlocks.WriteBlock.Push | lualib-src/lua-seri.c:66-85 | Bytes are appended to the chain of blocks, over as many blocks as they need. |
| SerializeBlocks.WriteBlock.Seri | lualib-src/lua-seri.c:535-553 | The buffer is the chain's contents, block by block. |
| SerializeBlocks.PackOne | lualib-src/lua-seri.c:297-340 | A value is appended as `Serialize.Pack` says, and refused exactly when its tables are nested too deep. |
| SerializeBlocks.SeriPack | lualib-src/lua-seri.c:600-612 | The values of a call are packed, or none when one is too deep. |
| SerializeBlocks.UnpackOne | lualib-src/lua-seri.c:524-532 | The read cursor takes what `Serialize.Unpack` says, errors included. |
| SerializeBlocks.SeriUnpack | lualib-src/lua-seri.c:556-596 | Any buffer, well formed or not, is read as `Serialize.UnpackList` says. |
| SerializeBlocks.PackUnpack | lualib-src/lua-seri.c:556-612 | Packing into blocks, copying and unpacking gives the values back exactly when none is nested too deep. |
| SharedTable.PutColliding | lualib-src/lua-sharedata.c:238-272 | A colliding key goes into a free slot behind the main position of its chain; every chain stays complete. |
| SharedTable.AllUsed | lualib-src/lua-sharedata.c:277-325 | The table has as many slots as keys, so that at the end none is free. |
| SharedTable.SlotsCounted | lualib-src/lua-sharedata.c:67-90 | Slots are counted by the keys and taken by the keys as they are cut: one stays free if and only if a key is cut to a place of the array part. |
| SharedTable.CutFits | lualib-src/lua-sharedata.c:67-90 | As many different keys as slots are counted are read if and only if no two keys are cut to the same and none to a place of the array part. |
| SharedTable.FreeForOwner | lualib-src/lua-sharedata.c:255-263 | On any table `fillcolliding` finds a free slot for a key that is not at its main position. |
| SharedTable.LongKeyOverwrites | lualib-src/lua-sharedata.c:192-325 | A conversion in which key 2^32 + 1 overwrites the array place of key 1. |
| SharedTable.AlikeKeysFail | lualib-src/lua-sharedata.c:192-325 | Conversions in which two integers that are cut to the same, and two tables, are keys: a slot is not used or a key there twice. |
| SharedTable.Frozen.ConvTable | lualib-src/lua-sharedata.c:277-325 | For any table with integers of any size, strings and tables as keys: all slots are used, by different keys, if and only if no two keys are cut to the same and none to a place of the array part; then the converted table holds what the source table holds, at the keys as they are cut. The array part does always. |
| SharedTable.Frozen.LookupKey | lualib-src/lua-sharedata.c:502-530 | A key is found exactly when a slot has it. |
| SharedTable.Frozen.IndexConf | lualib-src/lua-sharedata.c:533-566 | Indexing gives what the source table has at the index, cut to an `int`; for strings and 32-bit integers that is the index itself, see `ConvertAndIndex`. |
| SharedTable.Frozen.NextKey | lualib-src/lua-sharedata.c:590-646 | Each key leads to the next one of the order. |
| SharedTable.Frozen.Enumerate | lualib-src/lua-sharedata.c:590-646 | Going from key to key visits each key of the frozen table exactly once. |
| SharedTable.LongIndex | lualib-src/lua-sharedata.c:533-566 | Indexing with a key of any size gives the answer of the source table exactly for the keys it has and those that no key of it is cut to alike. |
| SharedTable.Truncate | lualib-src/lua-sharedata.c:192-197 | An integer is cut to the one of 32 bits that is the same modulo 2^32; one of 32 bits stays. |
| SharedTable.OrdinaryCut | lualib-src/lua-sharedata.c:192-197 | Strings and 32-bit integers are read as they are: no two such keys are cut to the same and none to a place of the array part. |
| SharedTable.ConvertAndIndex | lualib-src/lua-sharedata.c:277-566 | Converting a table with such keys and indexing it with one gives what the table holds at it, and nil exactly where it has no such key. |
| SharedTable.ConvertAndEnumerate | lualib-src/lua-sharedata.c:277-646 | Converting it and going from key to key gives each of its keys once. |
| BigIntegers.Cmp | 3rd/lua-cjson/dtoa.c:1035-1066 | The comparison of the values. |
| BigIntegers.MultAdd | 3rd/lua-cjson/dtoa.c:613-668 | Multiplying by a word and adding one, also when the result needs a word more. |
| BigIntegers.Mult | 3rd/lua-cjson/dtoa.c:806-913 | The product, without leading zeros. |
| BigIntegers.LShift | 3rd/lua-cjson/dtoa.c:975-1032 | The value times a power of two. |
| BigIntegers.Diff | 3rd/lua-cjson/dtoa.c:1069-1160 | The absolute difference, with the sign that says which is larger. |
| BigIntegers.Quorem | 3rd/lua-cjson/dtoa.c:2120-2241 | The quotient is the estimate, or one more if that much was left; what is taken away is what it says; the rest is less than the divisor exactly when the estimate was at most one too small. |
| BigIntegers.EstimateLow | 3rd/lua-cjson/dtoa.c:2135-2150 | The estimate of the quotient from the top words is never too large. |
| BigIntegers.EstimateHigh | 3rd/lua-cjson/dtoa.c:2135-2150 | It is at most one too small unless it reaches the top word of the divisor. |
| BigIntegers.DigitEstimate | 3rd/lua-cjson/dtoa.c:2135-2150 | For the divisors that `dtoa` makes and dividends below 16 of them it is at most one too small. |
| BigIntegers.QuoremOfShaped | 3rd/lua-cjson/dtoa.c:2120-2241 | There `quorem` divides: it returns the quotient and leaves the remainder. |
| BigIntegers.EstimateTooSmall | 3rd/lua-cjson/dtoa.c:2135-2150 | For other divisors it does not: 10 by 1 returns 6 and leaves 4. |
| PowersOfFive.Powers.Reach | 3rd/lua-cjson/dtoa.c:956-968 | The list of squares grows by the next power of five and keeps what it has. |
| PowersOfFive.Powers.Pow5Mult | 3rd/lua-cjson/dtoa.c:918-972 | The value times 5 to the k. |
| Cjson.StringBack | 3rd/lua-cjson/lua_cjson.c:903-961 | The escapes of any bytes are read back as these bytes. |
| Cjson.IntegerBack | 3rd/lua-cjson/lua_cjson.c:1014-1035 | The digits of every 64-bit integer are read back by `strtoll` with base 0 as this integer. |
| Cjson.DoubleToken | 3rd/lua-cjson/lua_cjson.c:1014-1035 | The text of a double with a fraction or an exponent is taken whole by `strtod`, up to what may follow. |
| Cjson.Utf8Exact | 3rd/lua-cjson/lua_cjson.c:793-825 | A code point is encoded in UTF-8, in as many bytes as it needs. |
| Cjson.Parsed | 3rd/lua-cjson/lua_cjson.c:560-719 | The text of a value, with anything behind it that may follow a value, is parsed as the value, up to that. |
| Cjson.DecodeEncode | 3rd/lua-cjson/lua_cjson.c:721-1317 | Decoding undoes encoding for every value whose encoding does not fail, but that holes of arrays become nulls and number keys strings. |
| Cjson.BackExactly | 3rd/lua-cjson/lua_cjson.c:721-1317 | A value whose encoding does not fail comes back as it was if and only if no array in it has a hole and no table a number as key. |
| Cjson.SameField | 3rd/lua-cjson/lua_cjson.c:636-676 | A field of a table is there again at its string key, or still absent, if and only if no number key with this text comes behind it, unless with the same value. |
| Cjson.HiddenField | 3rd/lua-cjson/lua_cjson.c:636-676 | A table with the keys "1" and 1, decoded after encoding, has at "1" what was at 1. |
| Cjson.DecodeDigits | 3rd/lua-cjson/lua_cjson.c:1014-1035 | The digits of any integer are decoded as it exactly if it fits in 64 bits, else as the nearest one that does. |
| Cjson.DecodeOctal | 3rd/lua-cjson/lua_cjson.c:1014-1035 | 010 is decoded as 8. |
| CjsonTexts.SpacesSkipped | 3rd/lua-cjson/lua_cjson.c:415-418 | Any run of spaces, tabs, newlines and carriage returns in front of a token is skipped. |
| CjsonTexts.StringRead | 3rd/lua-cjson/lua_cjson.c:837-961 | However a string is written, with characters as they are, letters behind a backslash, and code units of four hexadecimal digits in either case, alone or as surrogate pairs, it is read as the bytes it means. |
| CjsonNumbers.NumeralRead | 3rd/lua-cjson/lua_cjson.c:1014-1024 | A decimal, octal or hexadecimal number with or without a sign is read as its value, or the nearest of 64 bits. |
| CjsonNumbers.FloatTaken | 3rd/lua-cjson/lua_cjson.c:1014-1032 | A number with a point or an exponent, decimal or hexadecimal, is taken whole. |
| CjsonTexts.DecodeWritten | 3rd/lua-cjson/lua_cjson.c:1158-1317 | Every text of a value, with any spaces around any token, any of the ways to write strings and numbers, and anything behind a zero at the end, is decoded as the value. |
| CjsonExact.PiecesOf | 3rd/lua-cjson/lua_cjson.c:837-961 | Every string that is read was written in one of these ways. |
| CjsonExact.DecodeExactly | 3rd/lua-cjson/lua_cjson.c:1037-1317 | A text is decoded as a value if and only if it is one of the texts of this value; every other text is refused. |
| CjsonExact.EscapedExactly | 3rd/lua-cjson/lua_cjson.c:458-487 | Characters from the space up, but for quote, backslash, slash and delete, are written as they are, the others by a letter if they have one and else by four digits in lower case. |
| CjsonExact.EncodableExactly | 3rd/lua-cjson/lua_cjson.c:494-558 | Encoding fails exactly if a table lies in 1000 others, or an array anywhere has more than ten places of which less than half hold something. |
| CjsonBuffers.StrBuf.EnsureEmpty | 3rd/lua-cjson/strbuf.h:95-99 | The buffer is doubled until it has the space asked for, and keeps its contents. |
| CjsonBuffers.StrBuf.AppendJsonString | 3rd/lua-cjson/lua_cjson.c:464-487 | The escaped string is appended, and appending without looking never goes beyond the space reserved. |
| CjsonBuffers.AppendData | 3rd/lua-cjson/lua_cjson.c:678-719 | A value is appended as `Cjson.Encode` says; it fails exactly when something is nested too deep or an array too sparse. |
| CjsonBuffers.JsonEncode | 3rd/lua-cjson/lua_cjson.c:721-749 | The text of the value, or an error. |
| CjsonBuffers.Parser.NextString | 3rd/lua-cjson/lua_cjson.c:903-961 | A string is decoded into the scratch buffer, which never holds more than was read, so that appending without looking stays inside; all malformed strings are refused. |
| CjsonBuffers.Parser.NextToken | 3rd/lua-cjson/lua_cjson.c:1037-1120 | The next token of any text, and where it ends, as `Cjson.NextToken` says; `CjsonExact` says which texts these are. |
| CjsonBuffers.ProcessValue | 3rd/lua-cjson/lua_cjson.c:1158-1277 | Values, arrays and objects of any text are parsed as `Cjson.Value` says, errors included. |
| CjsonBuffers.JsonDecode | 3rd/lua-cjson/lua_cjson.c:1279-1317 | Any text, well formed or not, is decoded as `Cjson.Decode` says, which is exact by `CjsonExact.DecodeExactly`. |
| CjsonBuffers.EncodeDecode | 3rd/lua-cjson/lua_cjson.c:721-1317 | Encoding into the growing buffer and decoding with the scratch buffer gives the value back exactly when it can be encoded. |

## Left out

- LPeg match-time captures and the evaluation of captures, which call Lua code; patterns before their calls are fixed, but for what look-behinds check.
- The limit on the backtrack stack of LPeg (`doublestack`), which only raises an error.
- PegAnalysis.FixedLen and PegAnalysis.HasCaptures: the source marks call nodes while it visits them; the model bounds the calls followed, and remembers the rules visited.
- PegMain.CompiledAnswers: holds for every bound `b`; that it is the code of the source asks for a bound of at least `Budget`, see `PegMain.BoundNotFelt`.
- PegCorrect.EmitCorrect: says nothing where the pattern has no answer, because the code may then end or not (`PegEndless.MoreThanMeant`).
- PegPeephole.CompileCorrect: likewise.
- PegVerify.Terminates: asks for the corrected check and for look-behinds without calls, as it must: `LostVerdictDiverges` and `CallBehindDiverges` are accepted grammars without an answer.
- PegVerify.AcceptedTerminates: likewise; whether a pattern that fails the corrected check has an answer depends on the subjects it meets, so that there is no converse.
- Scheduler.ContextsSafe: registering a handle and storing it, with the queue, in the context is one step, and a handle is not issued again; the handle table is a module of its own.
- Scheduler.Exclusive: the number of messages a worker takes in one round is left open.
- RwLock.SomebodyMoves: the move may be that of a reader backing out. A waiting writer gets in all the same (`RwLock.WriterGetsIn`), and so does a reader where no writer sets the flag (`RwLock.ReaderGetsIn`); where writers keep coming, a reader, or a writer not yet waiting, can be kept out for ever.
- PegAccepts.RejectedOnlyIf: is no if-and-only-if, because `verifyrule` loses verdicts and so accepts left-recursive grammars (`PegVerify.LostVerdictDiverges`); the corrected check has one (`PegAccepts.KeptExactly`).
- HandleTable.NoReissue: counts each registration as the size of the table, since it may skip so many slots that are taken.
- NetPack.Serve: a buffer for a partial packet is the bytes filled so far; closing a stream is a method of its own (`NetPack.Queue.Close`), but no event of these runs, and the messages of the socket library are left out.
- Serialize.RoundTrip: tables with a metatable, which `__pairs` may enumerate, are not modelled; a double and a light userdata are their eight bytes.
- HandleTable.HandleStorage.NameHandle: the assertion that the array of names has at most 2^30 places is left out.
- SharedTable.Frozen.ConvTable: when a slot stays unused, what `lookup_key` makes of it, which was never written, is left out. Nested tables are values converted already, and a string key is its contents; the reference counts and the update mark are left out.
- SerializeBlocks.SeriUnpack: a table key that is a NaN is stored, where `lua_rawset` raises an error. `unpack_one` has no limit on how deep tables are nested, so that a deep one uses up the C stack; that stack is not part of this model.
- BigIntegers.Quorem: asks for a divisor whose top word is not 2^32 - 1, where the source divides by zero.
- Cjson.Decode: a double is its text, the one that `sprintf` writes and `strtod` reads; the rounding in between, doubles that are written without fraction and exponent and so read back as integers, and infinities and NaN are left out, and so are settings other than the defaults, keys that are neither strings nor integers, and what an error message says.
- Weak memory order, memory exhaustion, Lua errors.
- Sockets, harbors, gates, logging, the monitor: they depend on the operating system.
- The conversions between the big integers of `dtoa.c` and floating point.
