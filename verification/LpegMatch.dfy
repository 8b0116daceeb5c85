/** The interpreter loop of the parsing machine, and matching end to end. */
module LpegMatch {
  import opened LpegTree
  import opened LpegVm
  import opened LpegCodegen
  import opened LpegPeephole
  import opened LpegGrammar
  import LpegMain
  import LpegCompiler
  import opened Wrappers

  /** The backtrack stack as an array, its top at the end. */
  function ToStack(frames: seq<Frame>): Stack {
    if frames == [] then Base
    else Push(frames[|frames| - 1], ToStack(frames[..|frames| - 1]))
  }

  lemma PushIs(frames: seq<Frame>, f: Frame)
    ensures ToStack(frames + [f]) == Push(f, ToStack(frames))
  {
    assert (frames + [f])[..|frames|] == frames;
  }

  lemma TopIs(frames: seq<Frame>)
    ensures ToStack(frames)
         == if frames == [] then Base else Push(frames[|frames| - 1], ToStack(frames[..|frames| - 1]))
  {
  }

  /** The run from `st` ends with success or failure, not in an illegal state. */
  ghost predicate Ends(m: Machine, st: State, n: nat) {
    var r := m.Steps(st, n);
    r.Success? || r.Failure?
  }

  lemma EndsStep(m: Machine, st: State, n: nat)
    requires Ends(m, st, n) && st.Run?
    ensures n > 0 && Ends(m, m.Step(st), n - 1) && m.Step(st) != Stuck
    ensures m.Steps(st, n) == m.Steps(m.Step(st), n - 1)
  {
    if m.Step(st) == Stuck {
      m.FinalStays(Stuck, n - 1);
    }
  }

  /** Pop pending calls until a choice turns up, and resume it. */
  method Backtrack(frames: seq<Frame>, caps: seq<Capture>)
    returns (pc: int, pos: nat, frames': seq<Frame>, caps': seq<Capture>)
    requires Unwind(ToStack(frames), caps) != Stuck
    ensures Unwind(ToStack(frames), caps) == Run(pc, pos, ToStack(frames'), caps')
  {
    var top := |frames| - 1;
    frames' := frames[..top];
    while frames[top].Return?
      invariant 0 <= top < |frames| && frames' == frames[..top]
      invariant Unwind(Push(frames[top], ToStack(frames')), caps) == Unwind(ToStack(frames), caps)
      decreases top
    {
      top := top - 1;
      assert frames[..top + 1][..top] == frames[..top];
      frames' := frames[..top];
    }
    pc, pos, caps' := frames[top].pc, frames[top].pos, caps[..frames[top].level];
  }

  /** Skip the characters of `cs`. */
  method SkipSpan(s: seq<Byte>, i: nat, cs: Charset) returns (j: nat)
    ensures j == Span(s, i, cs)
  {
    j := i;
    while j < |s| && s[j] in cs
      invariant Span(s, j, cs) == Span(s, i, cs)
      decreases |s| - j
    {
      j := j + 1;
    }
  }

  /** Execute the instruction at `pc`. */
  method Execute(code: seq<Instr>, s: seq<Byte>, pc: nat, pos: nat, stack: seq<Frame>, caps: seq<Capture>)
    returns (pc': int, pos': nat, stack': seq<Frame>, caps': seq<Capture>)
    requires pc < |code| && Machine(code, s).StepInstr(code[pc], pc, pos, ToStack(stack), caps).Run?
    ensures Run(pc', pos', ToStack(stack'), caps')
         == Machine(code, s).StepInstr(code[pc], pc, pos, ToStack(stack), caps)
  {
    hide Span, CloseCapture, Unwind, ToStack;
    TopIs(stack);
    pc', pos', stack', caps' := pc, pos, stack, caps;
    var ins, top, fail := code[pc], |stack| - 1, false;
    match ins {
      case IRet => pc', stack' := stack[top].pc, stack[..top];
      case IAny => if pos < |s| { pc', pos' := pc + 1, pos + 1; } else { fail := true; }
      case ITestAny(off) => pc' := pc + (if pos < |s| then 1 else off);
      case IChar(c) => if pos < |s| && s[pos] == c { pc', pos' := pc + 1, pos + 1; } else { fail := true; }
      case ITestChar(c, off) => pc' := pc + (if pos < |s| && s[pos] == c then 1 else off);
      case ISet(cs) => if pos < |s| && s[pos] in cs { pc', pos' := pc + 1, pos + 1; } else { fail := true; }
      case ITestSet(cs, off) => pc' := pc + (if pos < |s| && s[pos] in cs then 1 else off);
      case IBehind(n) => if n > pos { fail := true; } else { pc', pos' := pc + 1, pos - n; }
      case ISpan(cs) =>
        pos' := SkipSpan(s, pos, cs);
        pc' := pc + 1;
      case IJmp(off) => pc' := pc + off;
      case IChoice(off) =>
        PushIs(stack, Back(pc + off, pos, |caps|));
        pc', stack' := pc + 1, stack + [Back(pc + off, pos, |caps|)];
      case ICall(off) =>
        PushIs(stack, Return(pc + 1));
        pc', stack' := pc + off, stack + [Return(pc + 1)];
      case ICommit(off) => pc', stack' := pc + off, stack[..top];
      case IPartialCommit(off) =>
        PushIs(stack[..top], Back(stack[top].pc, pos, |caps|));
        pc', stack' := pc + off, stack[..top] + [Back(stack[top].pc, pos, |caps|)];
      case IBackCommit(off) =>
        pc', pos', stack', caps' := pc + off, stack[top].pos, stack[..top], caps[..stack[top].level];
      case IFailTwice =>
        fail := true;
        stack' := stack[..top];
      case IFail => fail := true;
      case ICloseCapture => pc', caps' := pc + 1, CloseCapture(caps, pos);
      case IOpenCapture(kind, key) => pc', caps' := pc + 1, caps + [Capture(kind, key, pos, 0)];
      case IFullCapture(kind, key, len) => pc', caps' := pc + 1, caps + [Capture(kind, key, pos - len, len + 1)];
    }
    if fail {
      pc', pos', stack', caps' := Backtrack(stack', caps);
    }
  }

  /** Run `code` on `s` from position `i` until it ends or gives up; `n` bounds the
      length of the run. */
  method Interpret(code: seq<Instr>, s: seq<Byte>, i: nat, ghost n0: nat) returns (r: Option<(nat, seq<Capture>)>)
    requires var m := Machine(code, s); Ends(m, m.Initial(i), n0)
    ensures Machine(code, s).Steps(Machine(code, s).Initial(i), n0)
         == if r.Some? then Success(r.value.0, r.value.1) else Failure
  {
    hide *;
    ghost var m, n := Machine(code, s), n0;
    var pc, pos := 0, i;
    var stack: seq<Frame> := [Back(GIVEUP, i, 0)];
    var caps: seq<Capture> := [];
    InitialIs(m, i);
    while true
      invariant Ends(m, Run(pc, pos, ToStack(stack), caps), n)
      invariant m.Steps(Run(pc, pos, ToStack(stack), caps), n) == m.Steps(m.Initial(i), n0)
      decreases n
    {
      ghost var st := Run(pc, pos, ToStack(stack), caps);
      EndsStep(m, st, n);
      StepShape(m, pc, pos, ToStack(stack), caps);
      if pc == GIVEUP {
        m.FinalStays(Failure, n - 1);
        return None;
      }
      if code[pc].IEnd? {
        m.FinalStays(Success(pos, caps), n - 1);
        return Some((pos, caps));
      }
      pc, pos, stack, caps := Execute(code, s, pc, pos, stack, caps);
      n := n - 1;
    }
  }

  lemma InitialIs(m: Machine, i: nat)
    ensures m.Initial(i) == Run(0, i, ToStack([Back(GIVEUP, i, 0)]), [])
  {
    PushIs([], Back(GIVEUP, i, 0));
    assert [] + [Back(GIVEUP, i, 0)] == [Back(GIVEUP, i, 0)];
  }

  lemma StepShape(m: Machine, pc: int, i: nat, k: Stack, caps: seq<Capture>)
    requires m.Step(Run(pc, i, k, caps)) != Stuck
    ensures pc == GIVEUP || 0 <= pc < |m.code|
    ensures var st := m.Step(Run(pc, i, k, caps));
      if pc == GIVEUP then st == Failure
      else if m.code[pc].IEnd? then st == Success(i, caps)
      else st.Run? && st == m.StepInstr(m.code[pc], pc, i, k, caps)
  {
    hide Span, CloseCapture;
    UnwindRuns(k, caps);
    if k.Push? {
      UnwindRuns(k.below, caps);
    }
  }

  lemma {:induction false} UnwindRuns(k: Stack, caps: seq<Capture>)
    ensures Unwind(k, caps).Run? || Unwind(k, caps) == Stuck
  {
    match k
    case Base =>
    case Push(Return(_), below) => UnwindRuns(below, caps);
    case Push(Back(_, _, _), _) =>
  }

  /** Compile `p` and match it: wherever compiling and matching end, the result is the
      meaning of the pattern. */
  method Match(d: nat, p: Tree, s: seq<Byte>, i: nat) returns (r: Option<(nat, seq<Capture>)>)
    requires LpegCompiler.Compilable(d, p) && Halts([], p, s, i) && i <= |s|
    ensures match LpegMain.Meaning(p, s, i)
      case Fail => r == None
      case Ok(end, f) => r == Some((end, Flatten(f)))
      case Out => false
  {
    hide LpegMain.Compile, LpegMain.Meaning, Gives, Flatten, LpegCompiler.ChainsEnd, LpegTree.Match, WellFormed;
    ghost var n0: nat :| LpegTree.Match(n0, [], p, s, i) != Out;
    LpegMain.MeaningIs(n0, p, s, i);
    LpegMain.CompileGives(n0, d, p, s, i);
    var code := LpegCompiler.Compile(d, p);
    ghost var r0 := LpegMain.Final(LpegMain.Meaning(p, s, i));
    ghost var n := RunLength(code, s, i, r0);
    r := Interpret(code, s, i, n);
  }

  /** They end for every accepted pattern, on every subject. */
  lemma AcceptedMatches(d: nat, p: Tree, s: seq<Byte>, i: nat)
    requires Accepted(true, d, p) || (Accepted(false, d, p) && Guarded(d, p))
    requires i <= |s|
    ensures LpegCompiler.Compilable(d, p) && Halts([], p, s, i)
  {
    LpegCompiler.AcceptedCompilable(d, p);
    if Accepted(true, d, p) {
      AcceptedTotal(d, p, s, i);
    } else {
      SourceAcceptedTotal(d, p, s, i);
    }
  }

  lemma RunLength(code: seq<Instr>, s: seq<Byte>, i: nat, r: State) returns (n: nat)
    requires Gives(code, s, i, r) && (r.Success? || r.Failure?)
    ensures var m := Machine(code, s); Ends(m, m.Initial(i), n) && m.Steps(m.Initial(i), n) == r
  {
    n :| Machine(code, s).Steps(Machine(code, s).Initial(i), n) == r;
  }
}
