/** The peephole pass, and why it never changes the result of a program. */
module LpegPeephole {
  import opened LpegTree
  import opened LpegVm
  import opened LpegCodegen
  import opened LpegJumps

  function SetLabel(ins: Instr, off: int): Instr
    requires HasLabel(ins)
  {
    ins.(off := off)
  }

  /** Address at which a label finally leads.  Where jumps go round in a circle the
      pass would not return; nothing is changed there. */
  ghost function FinalLabel(code: seq<Instr>, target: int): int {
    if Resolves(code, target) then JumpEnd(code, target) else target
  }

  /** A jump to one of these becomes that instruction. */
  predicate ImplicitJump(ins: Instr) { ins.IRet? || ins.IFail? || ins.IFailTwice? || ins.IEnd? }

  predicate ExplicitJump(ins: Instr) { ins.ICommit? || ins.IPartialCommit? || ins.IBackCommit? }

  /** One look at instruction `i`. */
  ghost function OptimizeAt(code: seq<Instr>, i: nat): Instr
    requires i < |code|
  {
    var ins := code[i];
    if ins.IJmp? then
      if !Resolves(code, i) then ins
      else
        var ft := JumpEnd(code, i);
        if ImplicitJump(code[ft]) then code[ft]
        else if ExplicitJump(code[ft]) then
          SetLabel(code[ft], FinalLabel(code, ft + code[ft].off) - i)
        else IJmp(ft - i)
    else if HasLabel(ins) then SetLabel(ins, FinalLabel(code, i + ins.off) - i)
    else ins
  }

  /** A jump that became an explicit jump has its label optimized again. */
  ghost function PeepholeAt(code: seq<Instr>, i: nat): (code': seq<Instr>)
    requires i < |code|
    ensures |code'| == |code|
  {
    var code1 := code[i := OptimizeAt(code, i)];
    if code[i].IJmp? && ExplicitJump(code1[i]) then code1[i := OptimizeAt(code1, i)] else code1
  }

  ghost function Peephole(code: seq<Instr>, i: nat): (code': seq<Instr>)
    requires i <= |code|
    ensures |code'| == |code|
    decreases |code| - i
  {
    if i == |code| then code else Peephole(PeepholeAt(code, i), i + 1)
  }

  // ---------- simulation ----------

  /** Jumps alone lead from `x` to `y`. */
  ghost predicate JumpsTo(code: seq<Instr>, x: int, y: int) {
    exists f: nat :: FinalTarget(code, x, f) == y
  }

  lemma JumpsToSelf(code: seq<Instr>, x: int)
    ensures JumpsTo(code, x, x)
  {
    assert FinalTarget(code, x, 0) == x;
  }

  ghost predicate FrameRel(code: seq<Instr>, f: Frame, f': Frame) {
    match f
    case Return(pc) => f'.Return? && JumpsTo(code, pc, f'.pc)
    case Back(pc, pos, level) => f'.Back? && f'.pos == pos && f'.level == level && JumpsTo(code, pc, f'.pc)
  }

  ghost predicate StackRel(code: seq<Instr>, k: Stack, k': Stack) {
    match k
    case Base => k' == Base
    case Push(f, below) => k'.Push? && FrameRel(code, f, k'.top) && StackRel(code, below, k'.below)
  }

  /** The original is where the optimized program is, up to jumps still to do. */
  ghost predicate StateRel(code: seq<Instr>, st: State, st': State) {
    match st
    case Run(pc, i, k, caps) =>
      st'.Run? && JumpsTo(code, pc, st'.pc) && st'.pos == i && StackRel(code, k, st'.stack) && st'.caps == caps
    case _ => st' == st
  }

  /** Instruction `ins` at `pc` and `ins'` at `pc'` have corresponding effects. */
  ghost predicate InstrRel(code: seq<Instr>, ins: Instr, pc: int, ins': Instr, pc': int) {
    if HasLabel(ins) then
      && HasLabel(ins') && ins' == SetLabel(ins, ins'.off)
      && JumpsTo(code, pc + ins.off, pc' + ins'.off)
      && (pc' == pc || ins.IJmp? || ExplicitJump(ins))
    else ins' == ins && (pc' == pc || ImplicitJump(ins))
  }

  /** After some jumps, the original does at `z` what `code'` does at `y`. */
  ghost predicate Replaced(code: seq<Instr>, code': seq<Instr>, y: nat)
    requires y < |code| == |code'|
  {
    exists f: nat ::
      var z := FinalTarget(code, y, f);
      0 <= z < |code| && InstrRel(code, code[z], z, code'[y], y)
  }

  ghost predicate Refines(code: seq<Instr>, code': seq<Instr>) {
    |code| == |code'| && forall y :: 0 <= y < |code| ==> Replaced(code, code', y)
  }

  lemma {:induction false} UnwindRel(code: seq<Instr>, k: Stack, k': Stack, caps: seq<Capture>)
    requires StackRel(code, k, k')
    ensures StateRel(code, Unwind(k, caps), Unwind(k', caps))
  {
    match k
    case Base =>
    case Push(Return(_), below) => UnwindRel(code, below, k'.below, caps);
    case Push(Back(_, _, _), _) =>
  }

  lemma StepRel(m: Machine, m': Machine, ins: Instr, pc: int, ins': Instr, pc': int, i: nat, k: Stack, k': Stack, caps: seq<Capture>)
    requires m'.s == m.s && InstrRel(m.code, ins, pc, ins', pc')
    requires StackRel(m.code, k, k')
    ensures StateRel(m.code, m.StepInstr(ins, pc, i, k, caps), m'.StepInstr(ins', pc', i, k', caps))
  {
    if HasLabel(ins) {
      StepRelLabel(m, m', ins, pc, ins', pc', i, k, k', caps);
    } else {
      StepRelPlain(m, m', ins, pc, pc', i, k, k', caps);
    }
  }

  lemma StepRelLabel(m: Machine, m': Machine, ins: Instr, pc: int, ins': Instr, pc': int, i: nat, k: Stack, k': Stack, caps: seq<Capture>)
    requires m'.s == m.s && HasLabel(ins) && InstrRel(m.code, ins, pc, ins', pc')
    requires StackRel(m.code, k, k')
    ensures StateRel(m.code, m.StepInstr(ins, pc, i, k, caps), m'.StepInstr(ins', pc', i, k', caps))
  {
    if ExplicitJump(ins) {
      StepRelCommit(m, m', ins, pc, ins', pc', i, k, k', caps);
    } else if ins.IChoice? || ins.ICall? {
      StepRelPush(m, m', ins, pc, ins', i, k, k', caps);
    } else {
      StepRelTest(m, m', ins, pc, ins', pc', i, k, k', caps);
    }
  }

  lemma StepRelCommit(m: Machine, m': Machine, ins: Instr, pc: int, ins': Instr, pc': int, i: nat, k: Stack, k': Stack, caps: seq<Capture>)
    requires m'.s == m.s && HasLabel(ins) && InstrRel(m.code, ins, pc, ins', pc')
    requires StackRel(m.code, k, k')
    requires ExplicitJump(ins)
    ensures StateRel(m.code, m.StepInstr(ins, pc, i, k, caps), m'.StepInstr(ins', pc', i, k', caps))
  {
    hide JumpsTo, Unwind, Span;
  }

  lemma StepRelPush(m: Machine, m': Machine, ins: Instr, pc: int, ins': Instr, i: nat, k: Stack, k': Stack, caps: seq<Capture>)
    requires m'.s == m.s && HasLabel(ins) && InstrRel(m.code, ins, pc, ins', pc)
    requires StackRel(m.code, k, k')
    requires ins.IChoice? || ins.ICall?
    ensures StateRel(m.code, m.StepInstr(ins, pc, i, k, caps), m'.StepInstr(ins', pc, i, k', caps))
  {
    hide JumpsTo, Unwind, Span, CloseCapture;
    JumpsToSelf(m.code, pc + 1);
    hide Machine.StepInstr, InstrRel;
    LabelRel(m.code, ins, pc, ins');
    StepInstrPush(m, ins, pc, i, k, caps);
    StepInstrPush(m', ins', pc, i, k', caps);
  }

  lemma StepInstrPush(m: Machine, ins: Instr, pc: int, i: nat, k: Stack, caps: seq<Capture>)
    requires ins.IChoice? || ins.ICall?
    ensures m.StepInstr(ins, pc, i, k, caps)
         == if ins.IChoice? then Run(pc + 1, i, Push(Back(pc + ins.off, i, |caps|), k), caps)
            else Run(pc + ins.off, i, Push(Return(pc + 1), k), caps)
  {
  }

  lemma LabelRel(code: seq<Instr>, ins: Instr, pc: int, ins': Instr)
    requires HasLabel(ins) && InstrRel(code, ins, pc, ins', pc) && (ins.IChoice? || ins.ICall?)
    ensures HasLabel(ins') && (ins.IChoice? <==> ins'.IChoice?) && (ins.ICall? <==> ins'.ICall?)
    ensures JumpsTo(code, pc + ins.off, pc + ins'.off)
  {
    hide JumpsTo;
  }

  lemma StepRelTest(m: Machine, m': Machine, ins: Instr, pc: int, ins': Instr, pc': int, i: nat, k: Stack, k': Stack, caps: seq<Capture>)
    requires m'.s == m.s && HasLabel(ins) && InstrRel(m.code, ins, pc, ins', pc')
    requires StackRel(m.code, k, k')
    requires !ExplicitJump(ins) && !ins.IChoice? && !ins.ICall?
    ensures StateRel(m.code, m.StepInstr(ins, pc, i, k, caps), m'.StepInstr(ins', pc', i, k', caps))
  {
    hide JumpsTo, Unwind, Span;
    JumpsToSelf(m.code, pc + 1);
  }

  lemma StepRelPlain(m: Machine, m': Machine, ins: Instr, pc: int, pc': int, i: nat, k: Stack, k': Stack, caps: seq<Capture>)
    requires m'.s == m.s && !HasLabel(ins) && (pc' == pc || ImplicitJump(ins))
    requires StackRel(m.code, k, k')
    ensures StateRel(m.code, m.StepInstr(ins, pc, i, k, caps), m'.StepInstr(ins, pc', i, k', caps))
  {
    UnwindRel(m.code, k, k', caps);
    if k.Push? {
      UnwindRel(m.code, k.below, k'.below, caps);
    }
    hide JumpsTo, Unwind, Span, CloseCapture;
    JumpsToSelf(m.code, pc + 1);
  }

  /** Jumps done first do not change where a run ends. */
  lemma {:induction false} CatchUp(m: Machine, x: int, f: nat, i: nat, k: Stack, caps: seq<Capture>, n: nat) returns (n': nat)
    requires !m.Steps(Run(x, i, k, caps), n).Run?
    ensures n' <= n
    ensures m.Steps(Run(FinalTarget(m.code, x, f), i, k, caps), n') == m.Steps(Run(x, i, k, caps), n)
    decreases f
  {
    n' := n;
    if f > 0 && 0 <= x < |m.code| && m.code[x].IJmp? {
      n' := CatchUp(m, x + m.code[x].off, f - 1, i, k, caps, n - 1);
    }
  }

  lemma {:induction false} FallBehind(m: Machine, x: int, f: nat, i: nat, k: Stack, caps: seq<Capture>) returns (n: nat)
    ensures m.Steps(Run(x, i, k, caps), n) == Run(FinalTarget(m.code, x, f), i, k, caps)
    decreases f
  {
    n := 0;
    if f > 0 && 0 <= x < |m.code| && m.code[x].IJmp? {
      n := FallBehind(m, x + m.code[x].off, f - 1, i, k, caps);
      n := n + 1;
    }
  }

  /** Every result of the original is a result of the optimized program. */
  lemma {:induction false} ForwardSim(m: Machine, m': Machine, st: State, st': State, n: nat) returns (n': nat)
    requires m'.s == m.s && Refines(m.code, m'.code)
    requires StateRel(m.code, st, st')
    requires !m.Steps(st, n).Run?
    ensures m'.Steps(st', n') == m.Steps(st, n)
    decreases n
  {
    if !st.Run? {
      m.FinalStays(st, n);
      n' := 0;
    } else {
      var i, k, k', caps := st.pos, st.stack, st'.stack, st.caps;
      var f: nat :| FinalTarget(m.code, st.pc, f) == st'.pc;
      var y := st'.pc;
      var n1 := CatchUp(m, st.pc, f, i, k, caps, n);
      if 0 <= y < |m.code| {
        assert Replaced(m.code, m'.code, y);
        var f': nat :|
          var z := FinalTarget(m.code, y, f');
          0 <= z < |m.code| && InstrRel(m.code, m.code[z], z, m'.code[y], y);
        var z := FinalTarget(m.code, y, f');
        var n2 := CatchUp(m, y, f', i, k, caps, n1);
        StepRel(m, m', m.code[z], z, m'.code[y], y, i, k, k', caps);
        n' := ForwardSim(m, m', m.Step(Run(z, i, k, caps)), m'.Step(st'), n2 - 1);
        n' := n' + 1;
      } else {
        OutsideSim(m, m', y, i, k, k', caps, n1);
        n' := 1;
      }
    }
  }

  lemma OutsideSim(m: Machine, m': Machine, y: int, i: nat, k: Stack, k': Stack, caps: seq<Capture>, n: nat)
    requires |m'.code| == |m.code| && (k == Base <==> k' == Base)
    requires !(0 <= y < |m.code|)
    ensures n > 0 ==> m.Steps(Run(y, i, k, caps), n) == m'.Steps(Run(y, i, k', caps), 1)
    ensures !m.Step(Run(y, i, k, caps)).Run?
  {
    if n > 0 {
      m.FinalStays(m.Step(Run(y, i, k, caps)), n - 1);
      assert m'.Steps(m'.Step(Run(y, i, k', caps)), 0) == m'.Step(Run(y, i, k', caps));
    }
  }

  /** Every result of the optimized program is a result of the original. */
  lemma {:induction false} BackwardSim(m: Machine, m': Machine, st: State, st': State, n': nat) returns (n: nat)
    requires m'.s == m.s && Refines(m.code, m'.code)
    requires StateRel(m.code, st, st')
    requires !m'.Steps(st', n').Run?
    ensures m.Steps(st, n) == m'.Steps(st', n')
    decreases n'
  {
    if !st.Run? {
      m'.FinalStays(st', n');
      n := 0;
    } else {
      var i, k, k', caps := st.pos, st.stack, st'.stack, st.caps;
      var y := st'.pc;
      if 0 <= y < |m.code| {
        var n1 := BackwardStep(m, m', st, st');
        var a := m.Steps(st, n1);
        var n2 := BackwardSim(m, m', a, m'.Step(st'), n' - 1);
        hide Refines, StateRel, Machine.Step, Machine.StepInstr;
        m.StepsAdd(st, n1, n2);
        n := n1 + n2;
      } else {
        var f: nat :| FinalTarget(m.code, st.pc, f) == st'.pc;
        var n1 := FallBehind(m, st.pc, f, i, k, caps);
        OutsideSim(m', m, y, i, k', k, caps, n');
        m.StepsAdd(st, n1, 1);
        n := n1 + 1;
      }
    }
  }

  /** One step of the optimized program is some of the original. */
  lemma BackwardStep(m: Machine, m': Machine, st: State, st': State) returns (n: nat)
    requires m'.s == m.s && Refines(m.code, m'.code)
    requires StateRel(m.code, st, st') && st.Run? && 0 <= st'.pc < |m.code|
    ensures StateRel(m.code, m.Steps(st, n), m'.Step(st'))
  {
    var i, k, k', caps := st.pos, st.stack, st'.stack, st.caps;
    var f: nat :| FinalTarget(m.code, st.pc, f) == st'.pc;
    var y := st'.pc;
    var n1 := FallBehind(m, st.pc, f, i, k, caps);
    assert Replaced(m.code, m'.code, y);
    var f': nat :|
      var z := FinalTarget(m.code, y, f');
      0 <= z < |m.code| && InstrRel(m.code, m.code[z], z, m'.code[y], y);
    var z := FinalTarget(m.code, y, f');
    var n2 := FallBehind(m, y, f', i, k, caps);
    StepRel(m, m', m.code[z], z, m'.code[y], y, i, k, k', caps);
    hide Machine.StepInstr, Unwind, InstrRel, Refines;
    StepAt(m, z, i, k, caps);
    StepAt(m', y, i, k', caps);
    m.StepsAdd(st, n1, n2);
    m.StepsAdd(st, n1 + n2, 1);
    n := n1 + n2 + 1;
  }

  lemma StepAt(m: Machine, pc: int, i: nat, k: Stack, caps: seq<Capture>)
    requires 0 <= pc < |m.code|
    ensures var st := Run(pc, i, k, caps);
      m.Step(st) == m.StepInstr(m.code[pc], pc, i, k, caps) && m.Steps(st, 1) == m.Step(st)
  {
    assert m.Steps(m.Step(Run(pc, i, k, caps)), 0) == m.Step(Run(pc, i, k, caps));
    hide Machine.StepInstr;
  }

  // ---------- the pass refines ----------

  lemma FinalLabelJumps(code: seq<Instr>, x: int)
    ensures JumpsTo(code, x, FinalLabel(code, x))
  {
    if !Resolves(code, x) {
      JumpsToSelf(code, x);
    }
  }

  lemma OptimizeAtReplaced(code: seq<Instr>, i: nat)
    requires i < |code|
    ensures Replaced(code, code[i := OptimizeAt(code, i)], i)
  {
    var code' := code[i := OptimizeAt(code, i)];
    var ins := code[i];
    if ins.IJmp? && Resolves(code, i) {
      var ft := JumpEnd(code, i);
      var f: nat :| FinalTarget(code, i, f) == ft;
      if ImplicitJump(code[ft]) {
        assert InstrRel(code, code[ft], ft, code'[i], i);
      } else if ExplicitJump(code[ft]) {
        FinalLabelJumps(code, ft + code[ft].off);
        assert InstrRel(code, code[ft], ft, code'[i], i);
      } else {
        assert FinalTarget(code, i + ins.off, f - 1) == ft;
        assert JumpsTo(code, i + ins.off, ft);
        assert FinalTarget(code, i, 0) == i && InstrRel(code, code[i], i, code'[i], i);
      }
    } else {
      if HasLabel(ins) {
        FinalLabelJumps(code, i + ins.off);
        JumpsToSelf(code, i + ins.off);
      }
      assert FinalTarget(code, i, 0) == i && InstrRel(code, code[i], i, code'[i], i);
    }
  }

  lemma OptimizeAtRefines(code: seq<Instr>, i: nat)
    requires i < |code|
    ensures Refines(code, code[i := OptimizeAt(code, i)])
  {
    var code' := code[i := OptimizeAt(code, i)];
    OptimizeAtReplaced(code, i);
    forall y | 0 <= y < |code| ensures Replaced(code, code', y) {
      if y != i {
        if HasLabel(code[y]) {
          JumpsToSelf(code, y + code[y].off);
        }
        assert FinalTarget(code, y, 0) == y && InstrRel(code, code[y], y, code'[y], y);
      }
    }
  }

  /** The program gives result `r` when started at position `i`. */
  ghost predicate Gives(code: seq<Instr>, s: seq<Byte>, i: nat, r: State) {
    !r.Run? && exists n: nat :: Machine(code, s).Steps(Machine(code, s).Initial(i), n) == r
  }

  lemma RefinesGives(code: seq<Instr>, code': seq<Instr>, s: seq<Byte>, i: nat, r: State)
    requires Refines(code, code')
    ensures Gives(code, s, i, r) <==> Gives(code', s, i, r)
  {
    var m, m' := Machine(code, s), Machine(code', s);
    var st := m.Initial(i);
    JumpsToSelf(code, 0);
    JumpsToSelf(code, GIVEUP);
    assert StackRel(code, Base, Base);
    assert StateRel(code, st, st);
    if Gives(code, s, i, r) {
      var n: nat :| m.Steps(st, n) == r;
      var n' := ForwardSim(m, m', st, st, n);
      assert m'.Steps(m'.Initial(i), n') == r;
    }
    if Gives(code', s, i, r) {
      var n': nat :| m'.Steps(st, n') == r;
      var n := BackwardSim(m, m', st, st, n');
      assert m.Steps(m.Initial(i), n) == r;
    }
  }

  /** The peephole pass preserves the result of every program on every subject:
      whatever the optimized program gives, the original gives, and conversely. */
  lemma {:induction false} PeepholeCorrect(code: seq<Instr>, k: nat, s: seq<Byte>, i: nat, r: State)
    requires k <= |code|
    ensures Gives(code, s, i, r) <==> Gives(Peephole(code, k), s, i, r)
    decreases |code| - k
  {
    if k < |code| {
      var code1 := code[k := OptimizeAt(code, k)];
      OptimizeAtRefines(code, k);
      RefinesGives(code, code1, s, i, r);
      if code[k].IJmp? && ExplicitJump(code1[k]) {
        OptimizeAtRefines(code1, k);
        RefinesGives(code1, PeepholeAt(code, k), s, i, r);
      }
      PeepholeCorrect(PeepholeAt(code, k), k + 1, s, i, r);
    }
  }

  // ---------- the pass keeps chains of jumps finite ----------

  lemma {:induction false} ReplaceResolves(code: seq<Instr>, i: nat, ins: Instr, x: int, f: nat)
    requires i < |code| && Lands(code, x, f)
    requires ins.IJmp? ==> 0 <= i + ins.off < |code| && i + ins.off != i && !code[i + ins.off].IJmp?
    ensures Resolves(code[i := ins], x)
    decreases f
  {
    var code' := code[i := ins];
    if 0 <= x < |code| {
      if x == i {
        if ins.IJmp? {
          HereResolves(code', i + ins.off);
          JumpResolves(code', i, i + ins.off);
        } else {
          HereResolves(code', i);
        }
      } else if code[x].IJmp? {
        ReplaceResolves(code, i, ins, x + code[x].off, f - 1);
        JumpResolves(code', x, x + code[x].off);
      } else {
        HereResolves(code', x);
      }
    }
  }

  lemma OptimizeAtSettles(code: seq<Instr>, i: nat)
    requires i < |code| && RangeResolves(code, 0, |code|)
    ensures RangeResolves(code[i := OptimizeAt(code, i)], 0, |code|)
  {
    var ins := OptimizeAt(code, i);
    var code' := code[i := ins];
    assert Settles(code, i);
    if code[i].IJmp? {
      var ft := JumpEnd(code, i);
      assert Settles(code, ft);
    }
    forall x: int | Resolves(code, x) ensures Resolves(code', x) {
      var f: nat :| Lands(code, x, f);
      ReplaceResolves(code, i, ins, x, f);
    }
    forall x | 0 <= x < |code| ensures Settles(code', x) {
      assert Settles(code, x);
      if x == i && HasLabel(ins) {
        HereResolves(code, i + ins.off);
      }
    }
  }

  lemma PeepholeAtSettles(code: seq<Instr>, i: nat)
    requires i < |code| && RangeResolves(code, 0, |code|)
    ensures RangeResolves(PeepholeAt(code, i), 0, |code|)
  {
    OptimizeAtSettles(code, i);
    OptimizeAtSettles(code[i := OptimizeAt(code, i)], i);
  }

  // ---------- the pass leaves nothing to do ----------

  /** Instruction `i` leads straight to where it finally leads: its label is no jump, and
      if it is a jump itself, to nothing that it could have become. */
  predicate Tight(code: seq<Instr>, i: nat) {
    && i < |code|
    && (HasLabel(code[i]) ==>
          var t := i + code[i].off;
          && 0 <= t < |code| && !code[t].IJmp?
          && (code[i].IJmp? ==> !ImplicitJump(code[t]) && !ExplicitJump(code[t])))
  }

  /** Looking at one instruction makes it tight unless a jump became an explicit jump, and
      keeps the others tight. */
  lemma OptimizeAtTight(code: seq<Instr>, i: nat)
    requires i < |code| && RangeResolves(code, 0, |code|)
    ensures var code' := code[i := OptimizeAt(code, i)];
      && ((code[i].IJmp? && ExplicitJump(code'[i])) || Tight(code', i))
      && forall y: nat :: y < |code| && y != i && Tight(code, y) ==> Tight(code', y)
  {
    assert Settles(code, i);
  }

  lemma PeepholeAtTight(code: seq<Instr>, i: nat)
    requires i < |code| && RangeResolves(code, 0, |code|)
    ensures Tight(PeepholeAt(code, i), i)
    ensures forall y: nat :: y < |code| && y != i && Tight(code, y) ==> Tight(PeepholeAt(code, i), y)
  {
    hide OptimizeAt, Tight, RangeResolves;
    OptimizeAtTight(code, i);
    OptimizeAtSettles(code, i);
    OptimizeAtTight(code[i := OptimizeAt(code, i)], i);
  }

  /** After the pass every label leads straight to an instruction that is no jump, and no
      jump leads to a return, a failure, a commit or the end. */
  lemma {:induction false} PeepholeTight(code: seq<Instr>, k: nat)
    requires k <= |code| && RangeResolves(code, 0, |code|)
    requires forall y: nat :: y < k ==> Tight(code, y)
    ensures forall y: nat :: y < |code| ==> Tight(Peephole(code, k), y)
    decreases |code| - k
  {
    hide Tight, RangeResolves, PeepholeAt;
    if k < |code| {
      PeepholeAtTight(code, k);
      PeepholeAtSettles(code, k);
      PeepholeTight(PeepholeAt(code, k), k + 1);
    }
  }
}
