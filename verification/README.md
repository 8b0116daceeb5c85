# Verified core of a Skynet game server

Dafny models of the hard parts of the Skynet runtime that the server embeds, and proofs about them: the LPeg
pattern compiler and its virtual machine, the hierarchical timing wheel, the actor scheduler with its mailboxes,
the socket send path, shared versions under a reader/writer lock, the handle registry, and four of the Lua
extension modules. `dafny verify dfyconfig.toml` checks everything. Paths below are relative to the root of the
repository.

Code that computes by recursion is modelled by functions; code that works step by step is modelled by methods and
classes, proved equal to a function whose properties are then proved as lemmas. Concurrent protocols are state
machines over sequences of atomic steps, one step per critical section or shared access, and their theorems
quantify over every such sequence.

## The parts

- **LPeg** (`3rd/lpeg`). `LpegTree` gives the meaning of a pattern, captures included. `LpegAnalysis` holds the static
  analyses of `lpcode.c`, `LpegCodegen` the code each construct is translated to, `LpegVm` the stack machine.
  `LpegCorrect`, `LpegLayout` and `LpegGenCorrect` prove the generated code right in every context;
  `LpegPeephole` does the same for the peephole pass, `LpegJumps` shows that its jump chains end, and
  `LpegGrammar` that checked grammars always have a result. `LpegMain` puts these together. `LpegCompiler` and
  `LpegMatch` are the compiler and the interpreter in imperative form. `LpegEnds` says when an analysis that follows
  calls ends, and `LpegBound` shows that in a checked grammar all of them do. `LpegAccept` shows that the checks refuse
  nothing but what they mean to, `LpegBehind` which patterns look-behind takes. `LpegFix` is the in-place fixing of the
  flat tree, `LpegConstruct` the simplifying constructors, `LpegCharset` the classification of a 32-byte set.
- **Timer** (`skynet_timer.c`). `TimerWheel`: slot arithmetic, the wheel as a map from deadline to queue, and the class
  with the 32-bit clock.
- **Scheduler** (`skynet_mq.c`, `skynet_server.c`). `Scheduler`: senders, retirers, workers and creators interleaved.
  `SchedulerMessages`: what becomes of messages. `SchedulerLaunch`: the end of a launch. `SchedulerOrder`: whose turn
  it is. `MessageQueue`: the ring and the intrusive list that the protocol treats as queues.
- **Socket sends** (`socket_server.c`). `SocketSend`: sending threads against the socket thread, with partial writes; the
  unlocked reads of `can_direct_write` are one step per field. `SocketEvent`: the write event. `SocketPriority`: what
  priority does to the order on the wire. `SocketDrain`: how the queues are emptied.
- **Shared versions** (`rwlock.h`, `lua-stm.c`). `Stm`: spinning lock, with each test and each increment a
  step of its own, and reference counts interleaved.
- **Handles** (`skynet_handle.c`). `HandleRegistry`: the doubling table and the sorted name array.
- **Lua modules**. `Netpack` (`lua-netpack.c`), `SharedData` (`lua-sharedata.c`), `Seri` (`lua-seri.c`), `DiffieHellman`
  and `Des` (`lua-crypt.c`). `DesStandard` is the Data Encryption Standard of FIPS 46-3 as it is printed; `DesKeys` has the
  tables and the key schedule of the source, `DesBits`, `DesBoxes`, `DesConform` and `DesSchedule` prove them equal.

## Where the code does not do what it says

The model follows the code; each gap has a lemma that exhibits it and one that says when it does no harm.

- `verifyrule` (`lptree.c:1038-1039`) returns `nullable(tree)` for a sub-grammar and forgets `nb`, against its own
  comment that a true `nb` makes it return true. `NbKeptIff` is the exact condition under which the comment holds;
  `ForgetfulAccepted` and `ForgetfulDiverges` give a left-recursive grammar that is accepted, and
  `ForgetfulNeverEnds` shows that the analyses of the compiler recurse on it for ever.
- `verifyrule` (`lptree.c:1010`) relies on "look-behind cannot have calls", but `lp_behind` accepts a predicate that
  contains one, since its length is 0: `BackwardAccepted`, `BackwardDiverges`, `BackwardNeverEnds`. It is not enough to
  follow left calls there (`LeftwardDiverges`), while calls of rules that do not recurse do no harm (`BehindMayCall`). The
  compiler may follow a jump to itself for ever: `LoopingAccepted`, `LoopingNeverCompiles`. `SourceAcceptedTotal`,
  `SourceAnalysesEnd`, `SourceCompileCorrect` and `AcceptedCompilable` hold of the code as it is wherever neither gap is met (`Guarded`).
  `AcceptedTotal`, `AnalysesEnd` and `CompileCorrect` are about the check without the gaps (`strict`).
- A worker frees a message unseen when the service has no callback (`skynet_server.c:331-332`), although it holds a
  reference, and the source gets no error. `IgnoredIff` is the exact condition, `IgnoredUnseen` a run, `CarefulNotIgnored`
  what a service can do about it. A dropped message with source 0, as timers and sockets send them, is not reported
  either (`skynet_server.c:714`): `DropsAnsweredIff`, `DroppedUnreported`.
- `skynet_context_new` (`skynet_server.c:164-172`) writes `ctx->init` and logs the launch after it has given up its own
  reference: `LateIff` says from where the context can be gone by then, `EveryLaunchMayBeLate` that every launch comes
  there, and `NotRetiredNotLate` that it takes somebody who retires the service meanwhile.
- `stm_releasereader` (`lua-stm.c:74-83`) unlocks the object after giving up its reference: `DanglingIff` says which
  readers on their way out are in danger, `TwoLeaveDangles` gives a run.
- `powmodp` (`lua-crypt.c:754-758`) reduces a base above P but not P itself, so `P^1` comes out as P: `PowModp` states
  exactly when the result is the power modulo P.
- `ldesdecode` (`lua-crypt.c:425`) compares a position with a `size_t`, so that -1 passes for a large number: for one block
  that deciphers to eight zeros the scan for the padding leaves the buffer. `ScanInsideIff`; `Decode` says for which text.
- `skynet_handle_register` (`skynet_handle.c:43-47`) gives number 0, with which a service of node 0 cannot be addressed,
  once the numbers have wrapped: `ZeroGivenIff`.
- `filter_data_` (`lua-netpack.c:228-307`) hands a package over at once even when earlier ones are still queued:
  `OrderKeptIff` and `OrderKeptForIff` say exactly when the order survives, `UndrainedOvertakes` gives a run that loses it.
- `lindexconf` (`lua-sharedata.c:545`) cuts its key to an `int`: `CutIff`, `CutFinds`.

## Model

| member | source | states |
|---|---|---|
| LpegMain.CompileCorrect | Server/skynet/src/3rd/lpeg/lpcode.c:1001-1010 | for every accepted pattern, subject and start: the pattern has a result, and the compiled, optimised program halts with exactly that result (failure, or end position and captures) and no other |
| LpegMain.SourceCompileCorrect | Server/skynet/src/3rd/lpeg/lpcode.c:1001-1010 | the same for patterns accepted by the checks as they are written, under the guard that closes their two gaps |
| LpegMain.CompileGives | Server/skynet/src/3rd/lpeg/lpcode.c:1001-1010 | for any pattern, checked or not: wherever it has a result the compiled program has that result and no other |
| LpegMain.GeneratedGives | Server/skynet/src/3rd/lpeg/lpcode.c:919-944 | generated code followed by IEnd gives the result of the pattern, before peephole |
| LpegMain.ResultUnique | Server/skynet/src/3rd/lpeg/lpvm.c:149-360 | a program has at most one result |
| LpegMain.MeaningIs | Server/skynet/src/3rd/lpeg/lpcode.c:1001-1010 | the meaning of a pattern does not depend on how deep its evaluation was allowed to go |
| LpegTree.MatchMono | Server/skynet/src/3rd/lpeg/lptree.h:1-77 | a result, once reached, stays when calls may nest deeper |
| LpegAnalysis.NotNullableConsumes | Server/skynet/src/3rd/lpeg/lpcode.c:178-230 | a pattern that is not nullable never matches the empty string; for the other direction see LpegAccept.NullableExact |
| LpegBehind.FixedLenIff | Server/skynet/src/3rd/lpeg/lpcode.c:233-273 | in a pattern without recursion or idle loops fixedlen finds a length exactly when all ways through the pattern pass the same number of characters, and it is that number |
| LpegBehind.MatchTakes | Server/skynet/src/3rd/lpeg/lpcode.c:233-273 | every match takes one of these ways |
| LpegBehind.CapturesExact | Server/skynet/src/3rd/lpeg/lpcode.c:149-175 | hascaptures finds captures exactly when following calls from the pattern meets one |
| LpegBehind.LpBehindSame | Server/skynet/src/3rd/lpeg/lptree.c:680-690 | B(p) is taken exactly when all ways through p have the same length, at most MAXBEHIND, and no capture is met; it then matches, without moving, exactly where p matches up to there, whatever the calls in it are bound to |
| LpegAccept.OnlyPredicatesDiffer | Server/skynet/src/3rd/lpeg/lpcode.c:183-187 | the difference between nullable and nofail is only for predicates: where all of them hold, both agree with what nullable said |
| LpegAccept.NullableExact | Server/skynet/src/3rd/lpeg/lpcode.c:178-230 | nullable is exact but for predicates: where these hold, a nullable pattern never fails, on any subject and from any position, and any other one consumes whenever it matches |
| LpegAccept.PlainNullable | Server/skynet/src/3rd/lpeg/lpcode.c:183-185 | without predicates nullable and nofail are equivalent: such a pattern never fails if it is nullable, and does not match at the end of a subject if it is not |
| LpegAnalysis.NoFailSucceeds | Server/skynet/src/3rd/lpeg/lpcode.c:178-230 | a nofail pattern never fails |
| LpegAnalysis.FixedLenExact | Server/skynet/src/3rd/lpeg/lpcode.c:233-273 | a pattern of fixed length n consumes exactly n whenever it matches |
| LpegAnalysis.FixedLenOpen | Server/skynet/src/3rd/lpeg/lpcode.c:133-146 | a length found while calls are still unbound stays the length after they are bound |
| LpegAnalysis.NoCapturesYieldsNone | Server/skynet/src/3rd/lpeg/lpcode.c:149-175 | a pattern without captures yields none |
| LpegAnalysis.NoCapturesOpen | Server/skynet/src/3rd/lpeg/lptree.c:680-690 | the same for look-behind, whose captures are looked for before calls are bound |
| LpegAnalysis.GetFirstSound | Server/skynet/src/3rd/lpeg/lpcode.c:276-370 | outside the first set a pattern fails, or matches empty with the next character outside the follow set |
| LpegAnalysis.FirstFailsAtEnd | Server/skynet/src/3rd/lpeg/lpcode.c:276-370 | result 0 of getfirst: the pattern fails at the end of the subject |
| LpegAnalysis.HeadFailNotEmpty | Server/skynet/src/3rd/lpeg/lpcode.c:373-399 | a headfail pattern has getfirst result 0 |
| LpegAnalysis.HeadFailSucceeds | Server/skynet/src/3rd/lpeg/lpcode.c:373-399 | a headfail pattern does not fail on a character of its first set |
| LpegAnalysis.HeadFailExact | Server/skynet/src/3rd/lpeg/lpcode.c:373-399 | a headfail pattern succeeds exactly when the next character is in its first set |
| LpegGenCorrect.GenCorrect | Server/skynet/src/3rd/lpeg/lpcode.c:919-944 | the contextual theorem of codegen: placed anywhere, under any stack, with any dominating test, option mode and follow set, generated code simulates the pattern, given that what comes next fails on characters outside the follow set |
| LpegGenCorrect.ChoiceByTestCorrect | Server/skynet/src/3rd/lpeg/lpcode.c:677-712 | a choice whose first part is headfail or disjoint from the second, compiled to a test without a backtrack entry |
| LpegGenCorrect.ChoiceByPartialCorrect | Server/skynet/src/3rd/lpeg/lpcode.c:677-712 | p/true in option position, reusing the entry of the enclosing choice by a partial commit |
| LpegGenCorrect.ChoiceByChoiceCorrect | Server/skynet/src/3rd/lpeg/lpcode.c:677-712 | the general choice, with and without a dominating test |
| LpegGenCorrect.RepByTestCorrect | Server/skynet/src/3rd/lpeg/lpcode.c:777-813 | a repetition compiled to a test loop |
| LpegGenCorrect.RepCorrect | Server/skynet/src/3rd/lpeg/lpcode.c:777-813 | a repetition compiled to choice and partial commit, also reusing an enclosing choice |
| LpegGenCorrect.SpanCorrect | Server/skynet/src/3rd/lpeg/lpcode.c:777-813 | the repetition of a character set compiled to ISpan |
| LpegGenCorrect.NotByTestCorrect | Server/skynet/src/3rd/lpeg/lpcode.c:823-837 | a headfail not-predicate compiled to a test and a failure |
| LpegGenCorrect.NotCorrect | Server/skynet/src/3rd/lpeg/lpcode.c:823-837 | the general not-predicate through IFailTwice |
| LpegGenCorrect.AndCorrect | Server/skynet/src/3rd/lpeg/lpcode.c:720-736 | an and-predicate, by IBehind when its length is fixed and it has no captures, by IBackCommit otherwise |
| LpegGenCorrect.BehindCorrect | Server/skynet/src/3rd/lpeg/lpcode.c:659-663 | look-behind |
| LpegGenCorrect.FullCaptureCorrect | Server/skynet/src/3rd/lpeg/lpcode.c:745-757 | a capture of a pattern of fixed short length without captures, as one full capture |
| LpegGenCorrect.OpenCaptureCorrect | Server/skynet/src/3rd/lpeg/lpcode.c:745-757 | any other capture, as open and close |
| LpegGenCorrect.SeqCorrect | Server/skynet/src/3rd/lpeg/lpcode.c:899-911 | a sequence, whose first part is compiled with the first set of the second when it needs one |
| LpegGenCorrect.CallCorrect | Server/skynet/src/3rd/lpeg/lpcode.c:887-891 | a call, also when correctcalls has turned it into a jump |
| LpegGenCorrect.GrammarCorrect | Server/skynet/src/3rd/lpeg/lpcode.c:868-884 | a grammar: initial call, jump over the rules, rules |
| LpegGenCorrect.CharCorrect | Server/skynet/src/3rd/lpeg/lpcode.c:561-605 | a character or set, or IAny when a test has already decided it |
| LpegCorrect.SeqSim | Server/skynet/src/3rd/lpeg/lpcode.c:899-911 | two simulations with a follow set between them compose |
| LpegCorrect.ChoiceByTestSim | Server/skynet/src/3rd/lpeg/lpcode.c:677-712 | test, first alternative, jump, second alternative simulate ordered choice when the test decides |
| LpegCorrect.ChoiceByPartialSim | Server/skynet/src/3rd/lpeg/lpcode.c:677-712 | a partial commit that moves the enclosing entry forward simulates an optional part |
| LpegCorrect.ChoiceByChoiceSim | Server/skynet/src/3rd/lpeg/lpcode.c:677-712 | IChoice and ICommit simulate ordered choice |
| LpegCorrect.NotSim | Server/skynet/src/3rd/lpeg/lpcode.c:823-837 | IChoice and IFailTwice simulate the not-predicate |
| LpegCorrect.AndSim | Server/skynet/src/3rd/lpeg/lpcode.c:720-736 | IChoice, IBackCommit, IFail simulate the and-predicate |
| LpegCorrect.AndByLengthSim | Server/skynet/src/3rd/lpeg/lpcode.c:720-736 | stepping back by the fixed length simulates the and-predicate |
| LpegCorrect.BehindSim | Server/skynet/src/3rd/lpeg/lpcode.c:659-663 | IBehind n simulates look-behind, and fails where there are fewer than n characters |
| LpegCorrect.FullCaptureSim | Server/skynet/src/3rd/lpeg/lpcode.c:745-757 | IFullCapture records the capture of a fixed-length match |
| LpegCorrect.OpenCloseSim | Server/skynet/src/3rd/lpeg/lpcode.c:745-757 | open and close capture bracket the captures inside |
| LpegCorrect.CloseCaptureFlatten | Server/skynet/src/3rd/lpeg/lpvm.c:323-338 | closing turns an open entry into a full one when the capture is short and empty, and appends a close otherwise; either way the list is that of the capture |
| LpegCorrect.CallSim | Server/skynet/src/3rd/lpeg/lpvm.c:180-255 | ICall and IRet run the rule and come back |
| LpegCorrect.TailCallSim | Server/skynet/src/3rd/lpeg/lpcode.c:844-861 | a call followed by a return may be a jump |
| LpegCorrect.JumpChain | Server/skynet/src/3rd/lpeg/lpcode.c:641-645 | running from an instruction and from its final target meet |
| LpegCorrect.TestDominates | Server/skynet/src/3rd/lpeg/lpcode.c:614-635 | after a test has passed, its condition holds at the current position |
| LpegLayout.CorrectCallsSpec | Server/skynet/src/3rd/lpeg/lpcode.c:844-861 | correctcalls changes open calls only: each becomes a call of its rule, or a jump when a return follows |
| LpegLayout.JumpsToRetPersists | Server/skynet/src/3rd/lpeg/lpcode.c:844-861 | corrections made earlier do not hide a following return |
| LpegLayout.GrammarLayout | Server/skynet/src/3rd/lpeg/lpcode.c:868-884 | after correctcalls every rule lies at its recorded position and every call leads to its rule |
| LpegVm.FlattenConcat | Server/skynet/src/3rd/lpeg/lpvm.c:323-356 | the capture list of two forests is the two lists one after the other |
| LpegJumps.StartResolves | Server/skynet/src/3rd/lpeg/lpcode.c:641-645 | no generated code starts with an endless chain of jumps: following jumps from its start ends |
| LpegJumps.GrammarResolves | Server/skynet/src/3rd/lpeg/lpcode.c:868-884 | nor does any instruction of a verified grammar start one |
| LpegJumps.CompiledResolves | Server/skynet/src/3rd/lpeg/lpcode.c:641-653 | finaltarget and finallabel end everywhere in the code generated for patterns that the strict checks accept, or the checks as written under the guard that closes their gaps |
| LpegJumps.LandsUnique | Server/skynet/src/3rd/lpeg/lpcode.c:641-645 | the end of a jump chain does not depend on how many jumps were allowed |
| LpegPeephole.PeepholeCorrect | Server/skynet/src/3rd/lpeg/lpcode.c:956-995 | on every program, also one that jumps into cycles, peephole keeps exactly the results |
| LpegPeephole.OptimizeAtRefines | Server/skynet/src/3rd/lpeg/lpcode.c:956-995 | changing one instruction replaces its label by a later end of the same chain, or a jump by what it reaches |
| LpegPeephole.RefinesGives | Server/skynet/src/3rd/lpeg/lpcode.c:956-995 | programs related that way have the same results |
| LpegPeephole.ForwardSim | Server/skynet/src/3rd/lpeg/lpcode.c:956-995 | the optimised program follows the original to its end |
| LpegPeephole.BackwardSim | Server/skynet/src/3rd/lpeg/lpcode.c:956-995 | and never ends otherwise than the original |
| LpegPeephole.PeepholeTight | Server/skynet/src/3rd/lpeg/lpcode.c:947-995 | after the pass there is nothing left to optimise: every label leads straight to an instruction that is no jump, and no jump leads to a return, a failure, a commit or the end, which it would have become |
| LpegMain.CompiledTight | Server/skynet/src/3rd/lpeg/lpcode.c:947-1010 | so it is in the program of every accepted pattern |
| LpegPeephole.PeepholeAtSettles | Server/skynet/src/3rd/lpeg/lpcode.c:956-995 | one optimisation keeps all jump chains finite, so the next one terminates |
| LpegGrammar.AcceptedTotal | Server/skynet/src/3rd/lpeg/lptree.c:1002-1063 | with nb kept, and no recursion in the rules that look-behind calls, an accepted grammar has a result on every subject |
| LpegGrammar.SourceAcceptedTotal | Server/skynet/src/3rd/lpeg/lptree.c:1002-1063 | the checks as written guarantee a result on every subject where no needed nb is forgotten and the rules that look-behind calls do not recurse |
| LpegAccept.GrammarAcceptedIff | Server/skynet/src/3rd/lpeg/lptree.c:952-1063 | a grammar is accepted exactly when it has rules and not too many, no rule in use can come to call itself before consuming, and no loop in one has a nullable body; and nullable is exact for each such body: where its predicates hold it never fails if it is nullable, and never matches the empty string if it is not. So it is for the check with nb kept, which also looks into look-behind, and for the check as written where no needed nb is forgotten |
| LpegAccept.RejectsIffChain | Server/skynet/src/3rd/lpeg/lptree.c:991-1042 | verifyrule rejects a rule exactly for a chain of left calls that is longer than its limit |
| LpegAccept.RejectsIffRecursive | Server/skynet/src/3rd/lpeg/lptree.c:972-1042 | in a grammar that is not too large that is so exactly when some rule in use is left recursive: "too many left calls" never happens |
| LpegAccept.LoopIffNullable | Server/skynet/src/3rd/lpeg/lptree.c:952-969 | checkloops finds a loop exactly when some repetition outside the sub-grammars has a nullable body |
| LpegAccept.LoopBodyExact | Server/skynet/src/3rd/lpeg/lptree.c:952-969 | in a grammar without left recursion the body of such a loop is nullable if and only if, where its predicates hold, it never fails |
| LpegGrammar.NbKeptIff | Server/skynet/src/3rd/lpeg/lptree.c:991-1042 | the comment "nb true makes the function return true" holds exactly when the tail the check follows does not end in a sub-grammar that always consumes |
| LpegGrammar.ChecksAgree | Server/skynet/src/3rd/lpeg/lptree.c:1002-1042 | where no needed nb is forgotten the check passes the same rules as one that keeps nb |
| LpegGrammar.ForgetfulAccepted | Server/skynet/src/3rd/lpeg/lptree.c:1038-1039 | the check accepts A <- G* A with G a sub-grammar for one character |
| LpegGrammar.ForgetfulDiverges | Server/skynet/src/3rd/lpeg/lptree.c:1038-1039 | although that grammar is left recursive: matching it at the end of any subject never ends |
| LpegGrammar.BackwardAccepted | Server/skynet/src/3rd/lpeg/lptree.c:1009-1011 | the check accepts A <- B(!A) a, since a predicate has length 0 |
| LpegGrammar.BackwardDiverges | Server/skynet/src/3rd/lpeg/lptree.c:680-690 | although matching it never ends |
| LpegGrammar.LeftwardDiverges | Server/skynet/src/3rd/lpeg/lptree.c:1009-1011 | the check accepts A <- B("b" &A) a as well, which has no left call in its look-behind: following that like an and-predicate would not reject it, and matching it after a b never ends |
| LpegGrammar.BehindMayCall | Server/skynet/src/3rd/lpeg/lptree.c:1009-1011 | A <- B(&C) a with C <- c is accepted and inside the guard |
| LpegGrammar.UnfoldTotal | Server/skynet/src/3rd/lpeg/lptree.c:952-1042 | a pattern whose calls can all be followed to their ends has a result from every position, also where it goes back |
| LpegGrammar.UnfoldsPass | Server/skynet/src/3rd/lpeg/lptree.c:1002-1042 | such a pattern passes the check, however many rules have been entered that its calls leave room for |
| LpegGrammar.VerdictAccumulates | Server/skynet/src/3rd/lpeg/lptree.c:991-1042 | with nb kept, nb only accumulates: it decides neither acceptance nor anything but the returned value |
| LpegGrammar.VerdictConsumes | Server/skynet/src/3rd/lpeg/lptree.c:991-1042 | a rule reported as not nullable consumes |
| LpegGrammar.Total | Server/skynet/src/3rd/lpeg/lptree.c:952-1042 | no left recursion and no loop with a nullable body give a result, by remaining input and then remaining left calls |
| LpegBound.AnalysesEnd | Server/skynet/src/3rd/lpeg/lpcode.c:133-399 | for an accepted pattern every analysis of every part and every rule comes to an end: following calls never uses up a depth computed from the pattern, and beyond it neither acceptance nor the code changes |
| LpegBound.SourceAnalysesEnd | Server/skynet/src/3rd/lpeg/lpcode.c:133-399 | so it is for patterns that the checks as written accept, where they do what they mean to |
| LpegBound.PartsAnswered | Server/skynet/src/3rd/lpeg/lpcode.c:133-399 | the same for a pattern inside a verified grammar |
| LpegBound.CheckTerminates | Server/skynet/src/3rd/lpeg/lpcode.c:196-230 | checkaux ends within as many calls as verifyrule has rules left, with its short cuts, and nullable is verifyrule's verdict |
| LpegBound.FirstTerminates | Server/skynet/src/3rd/lpeg/lpcode.c:294-370 | getfirst ends within as many calls and those of one look-behind more, though it also looks into predicates and look-behind |
| LpegBound.HeadTerminates | Server/skynet/src/3rd/lpeg/lpcode.c:377-399 | headfail ends, one more search for nofail included |
| LpegBound.LenTerminates | Server/skynet/src/3rd/lpeg/lpcode.c:236-273 | fixedlen ends: each call it follows marks one more rule |
| LpegBound.CapturesTerminate | Server/skynet/src/3rd/lpeg/lpcode.c:152-175 | so does hascaptures |
| LpegEnds.CheckSettled | Server/skynet/src/3rd/lpeg/lpcode.c:196-230 | where checkaux ends, its answer does not depend on how many calls it was allowed |
| LpegEnds.FirstSettled | Server/skynet/src/3rd/lpeg/lpcode.c:294-370 | the same for getfirst and every follow set |
| LpegEnds.HeadSettled | Server/skynet/src/3rd/lpeg/lpcode.c:377-399 | the same for headfail |
| LpegEnds.LenSettled | Server/skynet/src/3rd/lpeg/lpcode.c:236-273 | the same for fixedlen |
| LpegEnds.CapturesSettled | Server/skynet/src/3rd/lpeg/lpcode.c:152-175 | the same for hascaptures |
| LpegEnds.ForgetfulNeverEnds | Server/skynet/src/3rd/lpeg/lpcode.c:196-320 | on the left-recursive grammar that the check accepts, nullable, nofail and getfirst recurse for ever |
| LpegEnds.BackwardNeverEnds | Server/skynet/src/3rd/lpeg/lpcode.c:311-365 | on the other grammar that it should not accept, getfirst does |
| LpegBound.VerdictStable | Server/skynet/src/3rd/lpeg/lptree.c:1002-1042 | the verdict of verifyrule is the same for every depth from the bound on |
| LpegBound.LoopsStable | Server/skynet/src/3rd/lpeg/lptree.c:952-969 | the answer of checkloops is the same for every depth from the bound on |
| LpegBound.GenStable | Server/skynet/src/3rd/lpeg/lpcode.c:919-944 | generated code does not depend on the depth |
| LpegBound.BoundImmaterial | Server/skynet/src/3rd/lpeg/lpcode.c:1001-1010 | acceptance and compilation do not depend on the depth |
| LpegCompiler.Compile | Server/skynet/src/3rd/lpeg/lpcode.c:1001-1010 | wherever the chains of jumps in the generated code end, the compiler that appends to and patches one code array, followed by peephole, produces exactly the specified code |
| LpegCompiler.CompileState.CodeGen | Server/skynet/src/3rd/lpeg/lpcode.c:919-944 | appends exactly the code of the pattern, with the tail calls of the source as a loop |
| LpegCompiler.CompileState.CodeChoice | Server/skynet/src/3rd/lpeg/lpcode.c:677-712 | appends the code of a choice in the three forms of the source |
| LpegCompiler.CompileState.CodeChoiceTest | Server/skynet/src/3rd/lpeg/lpcode.c:677-712 | the form with a test, patched when its targets are known |
| LpegCompiler.CompileState.CodeChoiceStack | Server/skynet/src/3rd/lpeg/lpcode.c:677-712 | the form with a backtrack entry |
| LpegCompiler.CompileState.CodeRep | Server/skynet/src/3rd/lpeg/lpcode.c:777-813 | appends the code of a repetition |
| LpegCompiler.CompileState.CodeRepStack | Server/skynet/src/3rd/lpeg/lpcode.c:777-813 | its form with a backtrack entry |
| LpegCompiler.CompileState.CodeNot | Server/skynet/src/3rd/lpeg/lpcode.c:823-837 | appends the code of a not-predicate |
| LpegCompiler.CompileState.CodeAnd | Server/skynet/src/3rd/lpeg/lpcode.c:720-736 | appends the code of an and-predicate |
| LpegCompiler.CompileState.CodeCapture | Server/skynet/src/3rd/lpeg/lpcode.c:745-757 | appends the code of a capture |
| LpegCompiler.CompileState.CodeBehind | Server/skynet/src/3rd/lpeg/lpcode.c:659-663 | appends the code of look-behind |
| LpegCompiler.CompileState.CodeSeq1 | Server/skynet/src/3rd/lpeg/lpcode.c:899-911 | appends the first part of a sequence and passes on the test that still dominates the second |
| LpegCompiler.CompileState.CodeGrammar | Server/skynet/src/3rd/lpeg/lpcode.c:868-884 | appends a grammar and corrects its calls |
| LpegCompiler.CompileState.CorrectCalls | Server/skynet/src/3rd/lpeg/lpcode.c:844-861 | rewrites the open calls of a range of the code as specified |
| LpegCompiler.CompileState.PeepholePass | Server/skynet/src/3rd/lpeg/lpcode.c:956-995 | the pass over the code, with its redo, computes Peephole |
| LpegCompiler.CompileState.OptimizeInstruction | Server/skynet/src/3rd/lpeg/lpcode.c:956-995 | one instruction of the pass |
| LpegCompiler.CompileState.FinalTarget | Server/skynet/src/3rd/lpeg/lpcode.c:641-645 | the loop finds the end of a jump chain |
| LpegCompiler.CompileState.FinalLabel | Server/skynet/src/3rd/lpeg/lpcode.c:651-653 | where the label of an instruction finally leads |
| LpegCompiler.CompileState.CodeTestSet | Server/skynet/src/3rd/lpeg/lpcode.c:614-635 | appends the cheapest test for a set |
| LpegCompiler.CompileState.CodeCharset | Server/skynet/src/3rd/lpeg/lpcode.c:588-605 | appends a set instruction, or IAny after the same test |
| LpegCompiler.CompileState.CodeChar | Server/skynet/src/3rd/lpeg/lpcode.c:561-567 | appends a character instruction, or IAny after the same test |
| LpegCompiler.CompileState.JumpToThere | Server/skynet/src/3rd/lpeg/lpcode.c:543-546 | patches one label and nothing else |
| LpegCompiler.AcceptedCompilable | Server/skynet/src/3rd/lpeg/lpcode.c:641-653 | those chains end for every pattern that the strict checks accept, and for every pattern that the checks as written accept under their guard |
| LpegCompiler.LoopingAccepted | Server/skynet/src/3rd/lpeg/lptree.c:1009-1011 | the check accepts A <- B(&A) |
| LpegCompiler.LoopingNeverCompiles | Server/skynet/src/3rd/lpeg/lpcode.c:720-736 | although its code is a jump to itself, which correctcalls and peephole follow for ever |
| LpegCharset.BitmapMembers | Server/skynet/src/3rd/lpeg/lpcode.c:41-82 | every character set is the set of a bitmap of 32 bytes |
| LpegCompiler.CorrectableGrammar | Server/skynet/src/3rd/lpeg/lpcode.c:844-861 | in a verified grammar correctcalls can follow the jumps behind every call |
| LpegMatch.Match | Server/skynet/src/3rd/lpeg/lpvm.c:149-360 | wherever compiling and matching end, compiling and running a pattern gives its result: no match exactly when it fails, otherwise its end and its captures |
| LpegMatch.AcceptedMatches | Server/skynet/src/3rd/lpeg/lpvm.c:149-360 | both end for every accepted pattern and every subject |
| LpegMatch.Interpret | Server/skynet/src/3rd/lpeg/lpvm.c:149-360 | the interpreter loop over program counter, position, capture list and backtrack stack computes the machine's result |
| LpegMatch.Execute | Server/skynet/src/3rd/lpeg/lpvm.c:149-360 | one instruction on the explicit stack is one step of the machine |
| LpegMatch.Backtrack | Server/skynet/src/3rd/lpeg/lpvm.c:276-294 | failing pops returns until a choice and restores its position and capture level |
| LpegMatch.SkipSpan | Server/skynet/src/3rd/lpeg/lpvm.c:225-232 | ISpan skips the longest run of characters in the set |
| LpegFix.FinalFix | Server/skynet/src/3rd/lpeg/lptree.c:100-126 | on the flat array: when every name is defined the tree at i becomes its right-associated form with bound calls, used rules get their names, and nothing else changes; otherwise it reports the error |
| LpegFix.CorrectAssociativity | Server/skynet/src/3rd/lpeg/lptree.c:78-90 | the loop rotates in place until the left child has another kind; nodes outside stay |
| LpegFix.RotateAt | Server/skynet/src/3rd/lpeg/lptree.c:78-90 | one rotation of the flat array by block moves |
| LpegFix.MemMove | Server/skynet/src/3rd/lpeg/lptree.c:85-85 | moving a block of nodes down |
| LpegFix.FixOneCall | Server/skynet/src/3rd/lpeg/lptree.c:54-68 | binds a call by its offset to the rule with its name and marks that rule as used |
| LpegFix.FixGrammar | Server/skynet/src/3rd/lpeg/lptree.c:100-126 | fixes every rule of a grammar in turn |
| LpegFix.FixSame | Server/skynet/src/3rd/lpeg/lptree.c:70-126 | fixing keeps the meaning of every rule of a grammar |
| LpegFix.FixSameIn | Server/skynet/src/3rd/lpeg/lptree.c:70-126 | fixing keeps the meaning of a tree whatever it calls, given that its rules keep theirs |
| LpegFix.FixRightForm | Server/skynet/src/3rd/lpeg/lptree.c:70-90 | afterwards no sequence or choice has a left child of its own kind |
| LpegFix.Associates | Server/skynet/src/3rd/lpeg/lptree.c:70-77 | sequence and choice associate, captures included |
| LpegFix.CallsLand | Server/skynet/src/3rd/lpeg/lptree.c:54-68 | every bound call lands on the rule with its name, wherever its subtree was moved |
| LpegFix.RotatedLies | Server/skynet/src/3rd/lpeg/lptree.c:78-90 | the moved nodes decode to the rotated tree |
| LpegFix.NamedIffCalled | Server/skynet/src/3rd/lpeg/lptree.c:54-68 | a rule that had no name gets one exactly when some rule calls it |
| LpegFix.ChainOrder | Server/skynet/src/3rd/lpeg/lptree.c:930-946 | rules of a grammar lie one behind the other |
| LpegFix.BodiesFree | Server/skynet/src/3rd/lpeg/lptree.c:930-946 | no rule node lies inside another rule's body, so fixing one leaves the others' nodes alone |
| LpegConstruct.LpSeqSame | Server/skynet/src/3rd/lpeg/lptree.c:532-542 | the simplifications of lp_seq keep the meaning of the sequence |
| LpegConstruct.LpChoiceSame | Server/skynet/src/3rd/lpeg/lptree.c:551-566 | those of lp_choice keep the meaning of the choice |
| LpegConstruct.LpSubSame | Server/skynet/src/3rd/lpeg/lptree.c:627-646 | lp_sub means "not the second, then the first", also as a set difference |
| LpegConstruct.AtMostIsUpTo | Server/skynet/src/3rd/lpeg/lptree.c:572-602 | p^-n matches up to n times, taking as many as it can, and never fails |
| LpegConstruct.AtLeastIsTimes | Server/skynet/src/3rd/lpeg/lptree.c:572-602 | p^n matches n times and then as often as possible |
| LpegConstruct.LpStarSame | Server/skynet/src/3rd/lpeg/lptree.c:572-602 | p^n is refused exactly for n >= 0 and a nullable body; otherwise it matches as promised, at most -n times or n times and then as often as possible, and each round of its loop consumes if the calls in it do |
| LpegAccept.LpStarRefuses | Server/skynet/src/3rd/lpeg/lptree.c:572-602 | p^n is refused for no other body than one that never fails where its predicates hold, whatever its calls are bound to; one that is not refused does not match at the end of a subject unless a call does; so a body without predicates that fails somewhere is never refused |
| LpegAccept.OpenNeverFails | Server/skynet/src/3rd/lpeg/lpcode.c:183-192 | a body that counts as nullable while its calls are open never fails where its predicates hold, whatever the calls are bound to |
| LpegAccept.OpenNeverEmpty | Server/skynet/src/3rd/lpeg/lpcode.c:183-192 | any other one does not match at the end of a subject unless one of its calls does |
| LpegAccept.VerifiedEnd | Server/skynet/src/3rd/lpeg/lpcode.c:183-192 | the sub-grammars in such a body have an answer to the question, since they were verified |
| LpegConstruct.OpenConsumes | Server/skynet/src/3rd/lpeg/lptree.c:572-602 | a pattern that is not nullable while its calls are open consumes once they are bound to rules that do |
| LpegConstruct.NoFailOpen | Server/skynet/src/3rd/lpeg/lptree.c:551-566 | nofail judged before calls are bound holds after |
| LpegConstruct.NullableOpenAgrees | Server/skynet/src/3rd/lpeg/lptree.c:572-602 | without calls, the nullable test on an unfinished tree is the one on the finished tree |
| LpegCharset.CharsetType | Server/skynet/src/3rd/lpeg/lpcode.c:41-82 | the loop over the 32 bytes of a set finds whether it is empty, one character (and which), full, or none of these |
| TimerWheel.FiresExactly | Server/skynet/src/skynet-src/skynet_timer.c:75-185 | over every run of adds and ticks, across wraps of the 32-bit clock: at each tick exactly the timers due then fire, in the order they were added, and all others are still waiting in place |
| TimerWheel.SlotWrap | Server/skynet/src/skynet-src/skynet_timer.c:75-93 | placement by the wrapped expiry and clock is placement by the true ones, for delays below 2^31 |
| TimerWheel.SlotTick | Server/skynet/src/skynet-src/skynet_timer.c:75-139 | a node's slot changes at a tick only when that slot is the one cascaded |
| TimerWheel.SlotNow | Server/skynet/src/skynet-src/skynet_timer.c:75-170 | a node is in the near slot of the current time exactly when it is due |
| TimerWheel.Carry | Server/skynet/src/skynet-src/skynet_timer.c:119-139 | which levels' digits advance at a tick |
| TimerWheel.MaskDivides | Server/skynet/src/skynet-src/skynet_timer.c:119-139 | the growing mask tests those digits one by one |
| TimerWheel.AddNodeInPlace | Server/skynet/src/skynet-src/skynet_timer.c:75-93 | linking a node keeps every node in place |
| TimerWheel.AddNodePending | Server/skynet/src/skynet-src/skynet_timer.c:75-93 | linking a node appends it to its deadline's queue and to no other |
| TimerWheel.ShiftKeeps | Server/skynet/src/skynet-src/skynet_timer.c:119-139 | after a cascade every node sits where add_node would put it for the new time, and each deadline's queue is unchanged |
| TimerWheel.NowDue | Server/skynet/src/skynet-src/skynet_timer.c:160-170 | the current near slot is exactly the queue of the current deadline |
| TimerWheel.TickKeeps | Server/skynet/src/skynet-src/skynet_timer.c:173-185 | a tick fires its deadline's queue in order and keeps all others |
| TimerWheel.AddTimerKeeps | Server/skynet/src/skynet-src/skynet_timer.c:96-106 | an add appends to the queue of its deadline only |
| TimerWheel.Timer.AddNode | Server/skynet/src/skynet-src/skynet_timer.c:75-93 | the class version links the node at the specified slot |
| TimerWheel.Timer.TimerAdd | Server/skynet/src/skynet-src/skynet_timer.c:96-106 | sets the expiry from the wrapped clock and links the node |
| TimerWheel.Timer.MoveList | Server/skynet/src/skynet-src/skynet_timer.c:109-116 | takes a level's list and links every node again |
| TimerWheel.Timer.TimerShift | Server/skynet/src/skynet-src/skynet_timer.c:119-139 | advances the 32-bit clock and cascades as specified, including the wrap to 0 |
| TimerWheel.Timer.TimerExecute | Server/skynet/src/skynet-src/skynet_timer.c:160-170 | empties the current slot, also when timers are added while it dispatches |
| TimerWheel.Timer.TimerUpdate | Server/skynet/src/skynet-src/skynet_timer.c:173-185 | execute, shift, execute: the tick of the specification |
| Scheduler.Exclusive | Server/skynet/src/skynet-src/skynet_mq.c:44-75 | in every reachable state each mailbox is at most once in the global list, and at most one activity owns it, never while it is listed |
| Scheduler.OneCallback | Server/skynet/src/skynet-src/skynet_server.c:196-351 | no two threads run one service's code at once, its init and its release included; its context is referenced except in release, and initialised when a message is dispatched |
| Scheduler.MessagesKept | Server/skynet/src/skynet-src/skynet_mq.c:138-209 | the messages pushed are those handled, in order (given to the callback, freed for want of one, or dropped), followed by those waiting; none is dropped while a reference exists, and none is left when the mailbox is freed |
| SchedulerOrder.MovesForward | Server/skynet/src/skynet-src/skynet_server.c:297-354 | over every run a listed mailbox moves forward by one place each time a worker takes one, and by nothing else: none is put before it |
| SchedulerOrder.TurnComes | Server/skynet/src/skynet-src/skynet_server.c:297-354 | the mailbox in place k of the global list is the one that is taken after k others |
| SchedulerOrder.ListStep | Server/skynet/src/skynet-src/skynet_mq.c:43-76 | a step takes the first mailbox of the list for the worker that asks, or leaves all in their places and puts at most one behind |
| SchedulerOrder.MessageTaken | Server/skynet/src/skynet-src/skynet_server.c:304-336 | a worker with the mailbox of a registered service hands over the message that has waited longest |
| SchedulerOrder.EmptyGivenUp | Server/skynet/src/skynet-src/skynet_server.c:317-319 | and gives up an empty mailbox, unlisted |
| Scheduler.NotStranded | Server/skynet/src/skynet-src/skynet_mq.c:138-209 | a waiting message's mailbox is listed or owned by exactly one; a mailbox with in_global 0 is empty, and so is one that nobody owns |
| Scheduler.NothingDangles | Server/skynet/src/skynet-src/skynet_server.c:196-227 | contexts and mailboxes are alive while anything still refers to them |
| Scheduler.Quiescence | Server/skynet/src/skynet-src/skynet_server.c:126-227 | when all threads rest, every message of a registered service has been taken by a worker and none dropped, and a retired service is freed with no message left |
| SchedulerMessages.IgnoredIff | Server/skynet/src/skynet-src/skynet_server.c:313-335 | over every run, no message of a service is freed unseen exactly when every worker that takes one finds the callback set |
| SchedulerMessages.IgnoredUnseen | Server/skynet/src/skynet-src/skynet_server.c:331-332 | a run in which a message for a registered service without a callback is freed, although the service lives on |
| SchedulerMessages.CarefulNotIgnored | Server/skynet/src/skynet-src/skynet_server.c:778-781 | it does not happen to a service whose init succeeds only with the callback set, and whose code never clears it |
| SchedulerMessages.QuiescenceDispatched | Server/skynet/src/skynet-src/skynet_server.c:297-351 | when all threads rest, every message of a registered service whose callback was always found set has been dispatched |
| SchedulerMessages.DropsReported | Server/skynet/src/skynet-src/skynet_server.c:115-123 | the errors sent on behalf of a service are exactly one for each dropped message that has a source, sent to that source, in the order of the drops |
| SchedulerMessages.DropsAnsweredIff | Server/skynet/src/skynet-src/skynet_server.c:699-738 | there are as many errors as dropped messages exactly when no dropped message has source 0 |
| SchedulerMessages.DroppedUnreported | Server/skynet/src/skynet-src/skynet_server.c:714-716 | a run in which a message with source 0 is dropped and no error is sent |
| SchedulerMessages.StepHandles | Server/skynet/src/skynet-src/skynet_server.c:297-351 | each step handles at most the message at the head of one mailbox, as taken or as dropped, and only a drop brings about a report |
| SchedulerLaunch.LateIff | Server/skynet/src/skynet-src/skynet_server.c:163-172 | skynet_context_new marks the context as initialised, and names it in the log, after giving up its reference: that can come to happen to a deleted context, in some continuation, exactly when the reference given up is not the last one |
| SchedulerLaunch.EveryLaunchMayBeLate | Server/skynet/src/skynet-src/skynet_server.c:163-172 | every launch comes to that point |
| SchedulerLaunch.NotRetiredNotLate | Server/skynet/src/skynet-src/skynet_server.c:163-172 | it never happens to a service that nobody asks to retire |
| Scheduler.InvHolds | Server/skynet/src/skynet-src/skynet_server.c:126-351 | reference counts equal references, owners plus list occurrences are at most one, and the mailbox flags agree with them, in every reachable state |
| Scheduler.StepKeepsInv | Server/skynet/src/skynet-src/skynet_server.c:126-351 | each step of each activity keeps this |
| MessageQueue.Queue.Pop | Server/skynet/src/skynet-src/skynet_mq.c:138-172 | takes the oldest message, or clears the in_global mark when there is none |
| MessageQueue.Queue.Push | Server/skynet/src/skynet-src/skynet_mq.c:190-209 | appends, growing the ring when full, and lists the mailbox if it was not |
| MessageQueue.Queue.ExpandQueue | Server/skynet/src/skynet-src/skynet_mq.c:175-187 | a ring of twice the size with the same messages in order |
| MessageQueue.Queue.CheckOverload | Server/skynet/src/skynet-src/skynet_mq.c:138-172 | the overload threshold doubles above the length and falls back when the mailbox is empty |
| MessageQueue.Queue.Length | Server/skynet/src/skynet-src/skynet_mq.c:112-125 | the number of waiting messages, across the wrap of the ring |
| MessageQueue.Queue.MarkRelease | Server/skynet/src/skynet-src/skynet_mq.c:220-228 | marks the mailbox and lists it if it was not |
| MessageQueue.Queue.Release | Server/skynet/src/skynet-src/skynet_mq.c:240-250 | drops all messages of a marked mailbox, and lists an unmarked one again |
| MessageQueue.Queue.DropQueue | Server/skynet/src/skynet-src/skynet_mq.c:230-237 | drops exactly the waiting messages, in order |
| MessageQueue.GlobalQueue.Push | Server/skynet/src/skynet-src/skynet_mq.c:44-56 | appends to the intrusive list |
| MessageQueue.GlobalQueue.Pop | Server/skynet/src/skynet-src/skynet_mq.c:59-75 | takes the first of the intrusive list and unlinks it |
| SocketSend.WholePackages | Server/skynet/src/skynet-src/socket_server.c:551-880 | for every interleaving of senders, socket thread and partial writes: what is on the wire is whole packages back to back, then at most the beginning of one |
| SocketSend.SenderOrder | Server/skynet/src/skynet-src/socket_server.c:1527-1609 | each sender's packages of one priority are written in call order, none lost or repeated |
| SocketSend.Bookkeeping | Server/skynet/src/skynet-src/socket_server.c:1074-1103 | wb_size is the number of unsent bytes in both lists, the sending counter is the number of requests on their way, and the low list's head is never left half sent |
| SocketSend.AllWritten | Server/skynet/src/skynet-src/socket_server.c:696-763 | when everybody rests and nothing is queued, everything submitted has been written |
| SocketEvent.EventExact | Server/skynet/src/skynet-src/socket_server.c:683-735 | the write event is on exactly while something is queued or left over, unless somebody is on the way to switch it |
| SocketEvent.RestWritten | Server/skynet/src/skynet-src/socket_server.c:683-735 | when everybody rests and the event is off, everything submitted has been written |
| SocketEvent.UserEvent | Server/skynet/src/skynet-src/socket_server.c:1566-1574 | each step of a sending thread keeps the event right: storing a rest, then turning the event on, before the lock is given up |
| SocketEvent.SockEvent | Server/skynet/src/skynet-src/socket_server.c:696-760 | so does each step of the socket thread, which turns it off only with both lists empty and nothing left over |
| SocketPriority.HighFirst | Server/skynet/src/skynet-src/socket_server.c:683-735 | over every run from any reachable state: what is in the high list is written in its order before any package that waits in the low list is started, whatever is sent meanwhile; nothing but one direct write on its way comes in between |
| SocketPriority.QueuedFirst | Server/skynet/src/skynet-src/socket_server.c:815-861 | a package being queued is written before all that wait in the low list if it is a high one; before all that is queued later if nothing is queued, also when it is a low one; and otherwise waits in the low list, after everything in the high list |
| SocketPriority.OneLowInHigh | Server/skynet/src/skynet-src/socket_server.c:657-735 | in every reachable state at most one package in the high list is a low one, it is first but for the rest of a direct write, and the low list holds low ones alone |
| SocketPriority.UserDirect | Server/skynet/src/skynet-src/socket_server.c:1527-1577 | a sending thread comes to write directly only after it has seen the high list empty under the lock |
| SocketPriority.PrioritiesHold | Server/skynet/src/skynet-src/socket_server.c:657-861 | the invariant behind these holds in every reachable state |
| SocketPriority.StepBefore | Server/skynet/src/skynet-src/socket_server.c:551-880 | each step keeps what is known of the lists: the high packages are done in order, with the low ones untouched until the last of them is done |
| SocketDrain.Drains | Server/skynet/src/skynet-src/socket_server.c:683-763 | from every reachable state with the lock free and the socket thread at rest: when the descriptor takes everything, everything queued is written, the rest of a direct write first, then the high list, then the low list, and the event is turned off |
| SocketDrain.WritesDirectly | Server/skynet/src/skynet-src/socket_server.c:1527-1577 | a thread that sends while nothing is pending, and is left alone, writes its package itself and gives the lock back |
| SocketSend.InvHolds | Server/skynet/src/skynet-src/socket_server.c:551-880 | the invariant behind these holds in every reachable state |
| SocketSend.UserKeeps | Server/skynet/src/skynet-src/socket_server.c:1520-1609 | each step of a sending thread keeps it: reading the fields, try-lock, checking again, writing, handing over the rest |
| SocketSend.PipeOrder | Server/skynet/src/skynet-src/socket_server.c:1580-1588 | handing a package to the socket thread keeps call order |
| SocketSend.WriteOrder | Server/skynet/src/skynet-src/socket_server.c:1537-1577 | writing directly keeps call order, because the check made under the lock saw nothing ahead |
| SocketSend.SockKeeps | Server/skynet/src/skynet-src/socket_server.c:696-763 | each step of the socket thread keeps the invariant |
| SocketSend.PrependKeeps | Server/skynet/src/skynet-src/socket_server.c:738-758 | taking over a half-written package puts it first |
| SocketSend.HighKeeps | Server/skynet/src/skynet-src/socket_server.c:551-580 | draining the high list |
| SocketSend.LowKeeps | Server/skynet/src/skynet-src/socket_server.c:696-735 | draining the low list |
| SocketSend.RaiseKeeps | Server/skynet/src/skynet-src/socket_server.c:657-680 | moving an incomplete low package to the high list |
| SocketSend.AppendKeeps | Server/skynet/src/skynet-src/socket_server.c:814-878 | queueing a request by its priority keeps the invariant; what priority does to the order is SocketPriority.QueuedFirst |
| Stm.WriterAlone | Server/skynet/src/skynet-src/rwlock.h:17-48 | while the writer is inside the lock no reader is |
| Stm.CopiesCounted | Server/skynet/src/lualib-src/lua-stm.c:28-115 | a copy's count is the number of its holders, and a held copy is not freed |
| Stm.FreedForGood | Server/skynet/src/lualib-src/lua-stm.c:48-55 | a copy whose count reached 0 stays freed: it is freed once |
| Stm.VersionsInOrder | Server/skynet/src/lualib-src/lua-stm.c:206-235 | each reader sees strictly newer versions whenever it is shown one |
| Stm.ReadShowsCurrent | Server/skynet/src/lualib-src/lua-stm.c:206-235 | over every run: a read that is over leaves the reader with the copy that was current at some time during the read, so none older than the newest when it began, and none only if the writer has left; it has shown that version exactly when the reader had not kept it already |
| Stm.CurrentBetween | Server/skynet/src/lualib-src/lua-stm.c:105-115 | the current copy only gets newer, and once the writer has left there is none |
| Stm.ReadsOn | Server/skynet/src/lualib-src/lua-stm.c:206-235 | each step of a read keeps this: what has been fetched was current, it is what is kept in the end, and it is shown if it is new |
| Stm.ReadEnds | Server/skynet/src/lualib-src/lua-stm.c:206-235 | a reader left alone while the writer is not at the lock ends its read within nine steps, and then keeps the current copy |
| Stm.UpdateEnds | Server/skynet/src/lualib-src/lua-stm.c:105-115 | a writer that finds the lock free publishes a new version |
| Stm.DanglingIff | Server/skynet/src/lualib-src/lua-stm.c:74-83 | a reader about to give up its reference can come to unlock a freed object, in some continuation, exactly when the writer has left and another reader still holds the object |
| Stm.OnlyUnlockDangles | Server/skynet/src/lualib-src/lua-stm.c:74-83 | no other access to the object or its lock happens after it was freed |
| Stm.ObjectFreedOnce | Server/skynet/src/lualib-src/lua-stm.c:58-83 | once the count of the object is 0 it stays 0, and it is never below: the object is freed once |
| Stm.TwoLeaveDangles | Server/skynet/src/lualib-src/lua-stm.c:74-83 | a run of two leaving readers reaches such a point, and from there the freed object is unlocked |
| Stm.WriterFreesLast | Server/skynet/src/lualib-src/lua-stm.c:58-71 | when the writer drops the last reference nobody touches the object any more |
| Stm.InvHolds | Server/skynet/src/lualib-src/lua-stm.c:18-235 | lock counters, reference counts and copies agree with what threads hold in every reachable state |
| Netpack.ChunkingIrrelevant | Server/skynet/src/lualib-src/lua-netpack.c:228-307 | however each stream is cut into chunks and interleaved with other streams, pops and closes: the packages made for an fd are the parse of its bytes, and the saved rest is what the parse leaves |
| Netpack.SameBytesSamePackages | Server/skynet/src/lualib-src/lua-netpack.c:228-307 | two runs with the same bytes for an fd make the same packages for it |
| Netpack.ParseSplit | Server/skynet/src/lualib-src/lua-netpack.c:189-215 | parsing a stream in two pieces, the second behind the rest of the first, is parsing it whole |
| Netpack.FramedParses | Server/skynet/src/lualib-src/lua-netpack.c:437-452 | texts framed by lpack and sent back to back parse to those texts, with nothing left |
| Netpack.EachGivenOnce | Server/skynet/src/lualib-src/lua-netpack.c:397-410 | every package made is handed over once or still queued |
| Netpack.OrderKeptIff | Server/skynet/src/lualib-src/lua-netpack.c:228-307 | at every point of a run the packages made are those handed over followed by those queued, in order, exactly when every package handed over at once finds in the queue nothing, or only its own likes |
| Netpack.OrderKeptForIff | Server/skynet/src/lualib-src/lua-netpack.c:228-307 | the packages of one fd keep their order exactly when each of them handed over at once finds none of that fd in the queue, or only its own likes |
| Netpack.DrainedKeepsOrder | Server/skynet/src/lualib-src/lua-netpack.c:228-307 | so they keep their order when the queue is emptied before each chunk |
| Netpack.DirectOvertakes | Server/skynet/src/lualib-src/lua-netpack.c:259-268 | a package handed over at once comes before all that are queued |
| Netpack.UndrainedOvertakes | Server/skynet/src/lualib-src/lua-netpack.c:259-268 | and a run that does not drain the queue loses the order of one fd |
| Netpack.Replay | Server/skynet/src/lualib-src/lua-netpack.c:228-410 | the object driven through any run ends in the state the run specifies |
| Netpack.Queue.Filter | Server/skynet/src/lualib-src/lua-netpack.c:228-307 | one chunk: reports, queues and saves exactly as the parse of saved bytes plus chunk says, and leaves other fds alone |
| Netpack.Queue.FillUncomplete | Server/skynet/src/lualib-src/lua-netpack.c:232-271 | the branch that completes a saved package, including one of which only the first length byte had come |
| Netpack.Queue.FilterFresh | Server/skynet/src/lualib-src/lua-netpack.c:272-306 | the branch with nothing saved |
| Netpack.Queue.PushMore | Server/skynet/src/lualib-src/lua-netpack.c:189-215 | the remaining packages of a chunk, and what is left over |
| Netpack.Queue.PushData | Server/skynet/src/lualib-src/lua-netpack.c:151-167 | appends to the ring, growing it when it is full |
| Netpack.Queue.ExpandQueue | Server/skynet/src/lualib-src/lua-netpack.c:134-148 | a larger ring with the same packages in order |
| Netpack.Queue.FindUncomplete | Server/skynet/src/lualib-src/lua-netpack.c:93-114 | takes the fd's node out of its hash chain and no other |
| Netpack.Queue.SaveUncomplete | Server/skynet/src/lualib-src/lua-netpack.c:170-180 | saves a rest; each fd has at most one |
| Netpack.Queue.Pop | Server/skynet/src/lualib-src/lua-netpack.c:397-410 | takes the oldest queued package |
| Netpack.Queue.CloseUncomplete | Server/skynet/src/lualib-src/lua-netpack.c:218-225 | forgets the fd's rest |
| SharedData.NewConf | Server/skynet/src/lualib-src/lua-sharedata.c:405-455 | a whole conversion: the result, with its string table, is a copy of the source table, nested tables included |
| SharedData.ConvTable | Server/skynet/src/lualib-src/lua-sharedata.c:277-325 | array part and chained hash together hold exactly the source table |
| SharedData.FillNoColliding | Server/skynet/src/lualib-src/lua-sharedata.c:213-235 | the first pass fills the array part and puts one key in each home slot that has one |
| SharedData.FillColliding | Server/skynet/src/lualib-src/lua-sharedata.c:238-272 | the second pass gives every other key a slot in the chain of its home |
| SharedData.AddColliding | Server/skynet/src/lualib-src/lua-sharedata.c:251-269 | one such key: first empty slot, linked right behind the home |
| SharedData.CountSize | Server/skynet/src/lualib-src/lua-sharedata.c:68-89 | counts the keys outside the array part |
| SharedData.SlotFree | Server/skynet/src/lualib-src/lua-sharedata.c:252-259 | the second pass always finds an empty slot |
| SharedData.ChainKeeps | Server/skynet/src/lualib-src/lua-sharedata.c:260-267 | linking keeps chains acyclic, each with one home slot, and the nocolliding marks right |
| SharedData.AllFilled | Server/skynet/src/lualib-src/lua-sharedata.c:238-272 | in the end no slot is empty |
| SharedData.MainMatches | Server/skynet/src/lualib-src/lua-sharedata.c:249-250 | comparing with the home slot's key tells exactly whether the key is already placed |
| SharedData.OnItsChain | Server/skynet/src/lualib-src/lua-sharedata.c:502-530 | every node is on the chain that starts at its home |
| SharedData.SearchStart | Server/skynet/src/lualib-src/lua-sharedata.c:502-508 | starting at the home slot skips no node, and the nocolliding shortcut rejects only absent keys |
| SharedData.LookupKey | Server/skynet/src/lualib-src/lua-sharedata.c:502-530 | finds the node of a key that is present and nothing for any other |
| SharedData.IndexConf | Server/skynet/src/lualib-src/lua-sharedata.c:533-566 | reading a copy gives the source table's value for the key cut to 32 bits as the code cuts it: nil for an absent one, a copy for a nested table |
| SharedData.CutIff | Server/skynet/src/lualib-src/lua-sharedata.c:533-566 | that is the value under the key itself exactly when the key fits, or nothing is stored under what it is cut to |
| SharedData.CutFinds | Server/skynet/src/lualib-src/lua-sharedata.c:545-545 | otherwise a key that the table does not have finds the value of another |
| SharedData.NextKey | Server/skynet/src/lualib-src/lua-sharedata.c:590-646 | gives the key after any listed key, and the first for none |
| SharedData.Traverse | Server/skynet/src/lualib-src/lua-sharedata.c:590-646 | asking for the next key until there is none lists all keys |
| SharedData.KeysOnce | Server/skynet/src/lualib-src/lua-sharedata.c:590-646 | these are the source table's keys, each exactly once |
| SharedData.CalcHash | Server/skynet/src/lualib-src/lua-sharedata.c:92-100 | the loop computes the string hash |
| SharedData.Context.StringIndex | Server/skynet/src/lualib-src/lua-sharedata.c:103-120 | equal strings get one index, different strings different ones |
| SharedData.Context.ConvertStringMap | Server/skynet/src/lualib-src/lua-sharedata.c:378-402 | every interned string ends up at its index |
| Seri.Roundabout | Server/skynet/src/lualib-src/lua-seri.c:556-612 | packing any values and unpacking the buffer gives the same values back, and fails exactly when one is nested too deeply |
| Seri.RoundTrip | Server/skynet/src/lualib-src/lua-seri.c:297-340 | the bytes of a value, followed by anything, are read back as the same value and leave what follows |
| Seri.RoundTripAll | Server/skynet/src/lualib-src/lua-seri.c:556-612 | the same for any number of values |
| Seri.RoundOne | Server/skynet/src/lualib-src/lua-seri.c:468-532 | reading back gives the entries in the order they were written, for every border and every order of the hash part |
| Seri.RebuiltSame | Server/skynet/src/lualib-src/lua-seri.c:218-257 | the table read back has the same entries as the one written, each once |
| Seri.OrderOnce | Server/skynet/src/lualib-src/lua-seri.c:218-257 | array part and hash part together write every entry exactly once |
| Seri.IntegerRound | Server/skynet/src/lualib-src/lua-seri.c:143-174 | every 64-bit integer is read back from the width chosen for it |
| Seri.Pack | Server/skynet/src/lualib-src/lua-seri.c:600-612 | the packed buffer is the bytes of all values |
| Seri.PackOne | Server/skynet/src/lualib-src/lua-seri.c:297-340 | appends the bytes of a value; false exactly when something lies deeper than 32 |
| Seri.PutTable | Server/skynet/src/lualib-src/lua-seri.c:283-294 | size, array part, hash part, terminating nil |
| Seri.PutArray | Server/skynet/src/lualib-src/lua-seri.c:218-237 | elements 1 to the border, holes as nil |
| Seri.PutPairs | Server/skynet/src/lualib-src/lua-seri.c:240-257 | the entries outside the array part |
| Seri.PutInteger | Server/skynet/src/lualib-src/lua-seri.c:143-174 | the smallest width that fits |
| Seri.PutString | Server/skynet/src/lualib-src/lua-seri.c:191-213 | short and long strings |
| Seri.WriteBlock.Push | Server/skynet/src/lualib-src/lua-seri.c:66-85 | the chain of 128-byte blocks is a flat append |
| Seri.WriteBlock.Flatten | Server/skynet/src/lualib-src/lua-seri.c:535-553 | copying the chain out gives everything appended |
| Seri.ReadBlock.Read | Server/skynet/src/lualib-src/lua-seri.c:119-128 | takes the next bytes, or nothing when there are too few |
| Seri.UnpackOne | Server/skynet/src/lualib-src/lua-seri.c:468-532 | reads what the parse says on every input, with an error wherever bytes are missing or a type is unknown |
| Seri.UnpackTable | Server/skynet/src/lualib-src/lua-seri.c:435-465 | array part by count, then pairs up to a nil key, stored under the key that lua_rawset makes of it |
| Seri.KeyOf | Server/skynet/src/3rd/lua/ltable.c:461-473 | a key is refused exactly when it is NaN |
| Seri.KeyOnce | Server/skynet/src/3rd/lua/ltable.c:461-473 | a key that has been stored is stored under itself |
| Seri.HalvedBack | Server/skynet/src/3rd/lua/ltable.c:467-470 | a real is a whole number exactly when its digits below the point are all 0, and then it is the number above |
| Seri.RealKeys | Server/skynet/src/3rd/lua/ltable.c:461-473 | 2^52 as a real is stored under the integer, 0.5 as it is |
| Seri.GetInteger | Server/skynet/src/lualib-src/lua-seri.c:360-400 | reads an integer of the width the cookie says |
| Seri.Unpack | Server/skynet/src/lualib-src/lua-seri.c:556-597 | reads values up to the end of the buffer |
| DiffieHellman.Handshake | Server/skynet/src/lualib-src/lua-crypt.c:776-810 | both sides arrive at 5^(xy) mod P, and neither step is refused |
| DiffieHellman.MulModP | Server/skynet/src/lualib-src/lua-crypt.c:718-737 | multiplication modulo P, every intermediate value cut to 64 bits, for factors up to P |
| DiffieHellman.PowModP | Server/skynet/src/lualib-src/lua-crypt.c:740-750 | the power modulo P, except that exponent 1 returns the base unreduced |
| DiffieHellman.PowModp | Server/skynet/src/lualib-src/lua-crypt.c:754-758 | the power modulo P exactly unless the base is P and the exponent 1 |
| DiffieHellman.Secret | Server/skynet/src/lualib-src/lua-crypt.c:776-788 | zero is refused; otherwise the power, with the same exception |
| DiffieHellman.Exchange | Server/skynet/src/lualib-src/lua-crypt.c:793-810 | zero is refused; otherwise 5^x mod P |
| DiffieHellman.NeverZero | Server/skynet/src/lualib-src/lua-crypt.c:793-810 | no public value is 0 |
| DiffieHellman.SecretPower | Server/skynet/src/lualib-src/lua-crypt.c:776-788 | a power of a public value is the power of the product |
| DesSchedule.DesEncode | Server/skynet/src/lualib-src/lua-crypt.c:357-399 | a key that has not eight bytes is refused; otherwise every block of the padded text is enciphered as section "Enciphering" of FIPS 46-3 says, under the key schedule of the key |
| DesSchedule.DesDecode | Server/skynet/src/lualib-src/lua-crypt.c:402-439 | the text of which the given one is the enciphered form by that standard, and an error exactly when there is none |
| DesSchedule.EncipheredIff | Server/skynet/src/lualib-src/lua-crypt.c:317-338 | what des_crypt gives block by block under the subkeys of a key is the one text that the standard gives |
| DesSchedule.KeysAreSchedule | Server/skynet/src/lualib-src/lua-crypt.c:247-315 | the 32 subkey words hold K1 to K16 of FIPS 46-3 (Appendix 1), six bits where each box is looked up |
| DesSchedule.StartIs | Server/skynet/src/lualib-src/lua-crypt.c:255-271 | the exchanges and the LHs and RHs lookups are permuted choice 1 |
| DesSchedule.ScheduledIs | Server/skynet/src/lualib-src/lua-crypt.c:273-286 | the rotations are the left shifts of the standard, round by round |
| DesSchedule.SubkeyIs | Server/skynet/src/lualib-src/lua-crypt.c:288-313 | the masks and shifts are permuted choice 2, dealt out to two words |
| DesKeys.MainKs | Server/skynet/src/lualib-src/lua-crypt.c:247-315 | the loop of the key schedule computes these words |
| DesConform.CryptIsEncipher | Server/skynet/src/lualib-src/lua-crypt.c:317-338 | for all subkeys and blocks: des_crypt with the tables of the source enciphers as the standard says |
| DesConform.RoundsAre | Server/skynet/src/lualib-src/lua-crypt.c:325-332 | the rounds are the iterations L, R of the standard, on halves rotated by one bit |
| DesConform.MixIsF | Server/skynet/src/lualib-src/lua-crypt.c:230-243 | what a round adds to a half is the cipher function f(R, K): the bits of table E, the S-boxes, then P |
| DesConform.SixAre | Server/skynet/src/lualib-src/lua-crypt.c:230-243 | each box is looked up with six bits of the half, two shared with each neighbour as table E says, and six bits of the subkey |
| DesConform.InitialIsIP | Server/skynet/src/lualib-src/lua-crypt.c:202-213 | bit by bit, the exchanges of DES_IP are table IP, with the halves rotated by one bit |
| DesConform.FinalIsFP | Server/skynet/src/lualib-src/lua-crypt.c:215-226 | and those of DES_FP its inverse |
| DesBoxes.BoxIs | Server/skynet/src/lualib-src/lua-crypt.c:14-166 | the 512 words of SB1 to SB8 are the values of S1 to S8 of the standard, put where table P puts them and rotated by one bit |
| DesBoxes.PlacedBit | Server/skynet/src/lualib-src/lua-crypt.c:14-166 | each bit of such a word is the bit that table P names, or 0 if that is another box's |
| Des.RoundTrip | Server/skynet/src/lualib-src/lua-crypt.c:367-439 | decoding an encoded text gives the text, for every length and all subkeys |
| Des.Decode | Server/skynet/src/lualib-src/lua-crypt.c:402-439 | decodes a text exactly when it is some text encoded, and then to that text; the scan for the padding leaves the buffer exactly for eight zeros enciphered, and all other texts are refused |
| Des.Encode | Server/skynet/src/lualib-src/lua-crypt.c:367-399 | the padded text, every block through the given S-boxes and subkeys; that this is DES is DesSchedule.DesEncode |
| Des.LastBlock | Server/skynet/src/lualib-src/lua-crypt.c:383-394 | the rest of the text, 0x80, zeros |
| Des.DesCrypt | Server/skynet/src/lualib-src/lua-crypt.c:317-338 | eight times two rounds in place are the sixteen rounds; that these are those of DES is DesConform.CryptIsEncipher |
| Des.CryptBack | Server/skynet/src/lualib-src/lua-crypt.c:317-338 | deciphering is enciphering with the subkeys reversed |
| Des.RoundsBack | Server/skynet/src/lualib-src/lua-crypt.c:230-243 | the rounds undo themselves for arbitrary S-boxes |
| Des.FinalInitial | Server/skynet/src/lualib-src/lua-crypt.c:204-226 | the final permutation inverts the initial one |
| Des.InitialFinal | Server/skynet/src/lualib-src/lua-crypt.c:204-226 | and the other way round |
| Des.Deciphers | Server/skynet/src/lualib-src/lua-crypt.c:317-338 | a text deciphers to padded plain text exactly when it is that text enciphered |
| Des.PadOnce | Server/skynet/src/lualib-src/lua-crypt.c:383-394 | padding is unambiguous |
| Des.Unpad | Server/skynet/src/lualib-src/lua-crypt.c:424-437 | strips the padding exactly when there is one, with the scan compared in unsigned arithmetic as in the source |
| Des.ScanInsideIff | Server/skynet/src/lualib-src/lua-crypt.c:424-433 | the scan for the padding stays inside the buffer exactly when there is more than one block, or some byte is not zero |
| Des.ReversePairs | Server/skynet/src/lualib-src/lua-crypt.c:405-410 | the reversed subkey words are the rounds' pairs in reverse |
| HandleRegistry.HandleStorage.Register | Server/skynet/src/skynet-src/skynet_handle.c:35-67 | the new handle is no live one, and is the first number, counted from the one behind the last given, whose slot is free in the table, which is doubled as often as it is full; the index is left behind it; all other contexts keep their handles; it fails only when all 2^24 numbers are taken |
| HandleRegistry.HandleStorage.Scan | Server/skynet/src/skynet-src/skynet_handle.c:40-54 | scanning as many consecutive numbers as there are slots gives the first one from the index on whose slot is free, and leaves the index behind it; it finds none exactly when the table is full |
| HandleRegistry.HandleStorage.Double | Server/skynet/src/skynet-src/skynet_handle.c:55-65 | doubling the table moves every entry without a collision |
| HandleRegistry.HandleStorage.Retire | Server/skynet/src/skynet-src/skynet_handle.c:70-106 | removes exactly the handle and exactly its names, the order of the others kept |
| HandleRegistry.HandleStorage.Compact | Server/skynet/src/skynet-src/skynet_handle.c:82-93 | the in-place compaction of the name array |
| HandleRegistry.HandleStorage.RetireAll | Server/skynet/src/skynet-src/skynet_handle.c:109-130 | passes over the table until nothing but a handle 0 is left |
| HandleRegistry.HandleStorage.Grab | Server/skynet/src/skynet-src/skynet_handle.c:133-149 | finds a context exactly when its handle is live |
| HandleRegistry.HandleStorage.FindName | Server/skynet/src/skynet-src/skynet_handle.c:152-179 | binary search gives the handle of a known name and 0 for an unknown one |
| HandleRegistry.HandleStorage.InsertName | Server/skynet/src/skynet-src/skynet_handle.c:207-229 | inserts a new name keeping the order, and refuses a taken one |
| HandleRegistry.HandleStorage.InsertNameBefore | Server/skynet/src/skynet-src/skynet_handle.c:181-205 | makes room in place or in an array of twice the size |
| HandleRegistry.NoEarlyReuse | Server/skynet/src/skynet-src/skynet_handle.c:40-54 | over any number of registrations, whatever is retired between them: a number is not given again before every other number has been given or found with its slot taken |
| HandleRegistry.NotTwiceInARow | Server/skynet/src/skynet-src/skynet_handle.c:40-54 | two registrations in a row give different handles, also when the first was retired at once, unless all other 2^24 - 1 numbers are taken |
| HandleRegistry.FirstNumber | Server/skynet/src/skynet-src/skynet_handle.c:243-262 | the first handle of a new registry is number 1 |
| HandleRegistry.ZeroGivenIff | Server/skynet/src/skynet-src/skynet_handle.c:40-54 | number 0 is given exactly when the slots of all numbers from the index on are taken and that of 0 is free |
| HandleRegistry.Halve | Server/skynet/src/skynet-src/skynet_handle.c:152-179 | one probe of the binary search keeps what is excluded sorted out |
| HandleRegistry.WithoutSorted | Server/skynet/src/skynet-src/skynet_handle.c:82-93 | compaction keeps the names sorted |

## Left out

- Code sizes: every instruction takes one slot; operands and character sets lie inside it, and labels are relative.
- LPeg run-time captures (`TRunTime`, `ICloseRunTime`), capture evaluation in `lpcap.c`, and the joining of ktables.
- LPeg limits: the backtrack stack and the capture list grow without bound; `short` and `byte` widths of keys and
  offsets do not overflow. The final close entry that `IEnd` appends to the capture list is not part of a result.
- LpegAnalysis.FixedLenExact: the marks that keep `callrecursive` from following a call twice are kept per rule, not per call node.
- LpegBound.LenTerminates: rules are marked, not call nodes, as above.
- LpegCompiler.Compile: where an analysis does not end, as for the grammars that only the checks as written accept, it is taken to give its default answer; the source does not return.
- LpegMain.CompileGives: nothing is stated for a pattern without a result; a test on the next character may end the program where the pattern itself goes on for ever.
- LpegFix.FinalFix: rule-name lookup through a Lua table is a map; `buildgrammar` itself is represented by the layout it leaves.
- TimerWheel.FiresExactly: delays below 1 never reach the wheel and are excluded, as are delays of 2^31 and more; a slot's linked list is a sequence, and the lock is one step.
- Scheduler.MessagesKept: handles are not reused (`HandleRegistry.NoEarlyReuse` says when they are not), registering a context together with creating its mailbox is one step, and the error report for a dropped message is a new sending activity.
- SchedulerMessages.DropsReported: destinations outside the node go to the harbor, which is not modelled; here they are unknown handles.
- SchedulerMessages.IgnoredIff: taking a message and looking at the callback is one step, since only code of the service itself changes it.
- SocketEvent.EventExact: the event is not limited to when it is on, as one may have been fetched before it was turned off.
- Scheduler.OneCallback: how many messages a worker takes in a row is left open; monitors, statistics and profiling are not modelled.
- MessageQueue.Queue.Push: the spinlock is one step.
- SocketSend.WholePackages: only TCP sends on an open connection; closing, half-closing, warnings, UDP, user-object buffers and errors of `write` other than "try again" are not modelled, and shared memory is sequentially consistent.
- Stm.WriterAlone: one writer thread per object, as the Lua interface has it; shared memory is sequentially consistent.
- Netpack.Queue.Filter: the queue is created at once instead of at its first use; chunks are not empty, as the socket layer delivers them. `lclear` and the other socket events only pass through.
- SharedData.NextKey: for a key that is not listed nothing is stated.
- SharedData.ConvTable: keys are strings or 32-bit integers; float and table keys, memory errors, and the update protocol of `lboxconf` and `lmarkdirty` are not modelled.
- Seri.Roundabout: byte order is little-endian; the `__pairs` branch, unsupported types and stack growth are not modelled. A table key stands for a fresh object, and no key is NaN or a float with an integral value, as in Lua.
- Seri.UnpackOne: a string length of 2^31 or more, which the source turns into a negative int, is an error here.
- DiffieHellman.Exchange: the packing of words into 8 bytes is not modelled.
- Des.Encode: S-boxes and subkeys are parameters here; the tables, the key schedule and the error for a key of the wrong length are in DesSchedule.DesEncode.
- Des.Decode: what the source does once the scan has left the buffer is not modelled (`Outside`); nor are texts of 2^31 bytes or more, for which its `int` positions overflow.
- HandleRegistry.HandleStorage.Register: registering and setting `ctx->handle` are one step; that a handle is not 0 is false once the numbers have wrapped: `ZeroGivenIff`.
- HandleRegistry.HandleStorage.Grab: the reference it takes is part of the scheduler model.
- HandleRegistry.HandleStorage.InsertName: the limit of 2^30 names is not modelled.
- `skynet_context_dispatchall`, harbor, gate, cluster, logging, SHA, MD5, base64, BSON and the Lua compiler files: plumbing, or easier than the above.
