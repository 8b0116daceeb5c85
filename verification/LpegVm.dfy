/** The parsing machine of LPeg: instructions, states, single steps and runs.

    One instruction takes one slot; offsets are relative to the instruction.
    The backtrack stack grows without bound. */
module LpegVm {
  import opened LpegTree

  datatype Instr =
    | IAny
    | IChar(c: Byte)
    | ISet(cs: Charset)
    | ITestAny(off: int)
    | ITestChar(c: Byte, off: int)
    | ITestSet(cs: Charset, off: int)
    | ISpan(cs: Charset)
    | IBehind(n: nat)
    | IRet
    | IEnd
    | IChoice(off: int)
    | IJmp(off: int)
    | ICall(off: int)
    | IOpenCall(rule: nat)
    | ICommit(off: int)
    | IPartialCommit(off: int)
    | IBackCommit(off: int)
    | IFailTwice
    | IFail
    | IFullCapture(kind: CapKind, key: nat, len: nat)
    | IOpenCapture(kind: CapKind, key: nat)
    | ICloseCapture

  /** Does the instruction hold the offset of another one? */
  predicate HasLabel(ins: Instr) {
    ins.IChoice? || ins.ICall? || ins.ICommit? || ins.IPartialCommit? || ins.IBackCommit?
    || ins.ITestChar? || ins.ITestSet? || ins.ITestAny? || ins.IJmp?
  }

  /** An entry of the run-time capture list: `siz` is 0 while the entry is open,
      else the size of the capture plus one. */
  datatype Capture = Capture(kind: CapKind, key: nat, pos: nat, siz: nat)

  /** Longest capture that fits one closed entry. */
  const UCHAR_MAX: nat := 255

  /** How a forest of captures is laid out in the run-time list. */
  function Flatten(f: seq<CapTree>): (caps: seq<Capture>)
    ensures f == [] <==> caps == []
    ensures caps != [] ==> caps[|caps| - 1].siz != 0
    decreases f
  {
    if f == [] then [] else Flatten(f[..|f| - 1]) + FlattenOne(f[|f| - 1])
  }

  function FlattenOne(t: CapTree): (caps: seq<Capture>)
    ensures caps != [] && caps[|caps| - 1].siz != 0
    decreases t
  {
    if t.nested == [] && t.start <= t.end < t.start + UCHAR_MAX then
      [Capture(t.kind, t.key, t.start, t.end - t.start + 1)]
    else
      [Capture(t.kind, t.key, t.start, 0)] + Flatten(t.nested) + [Capture(Cclose, 0, t.end, 1)]
  }

  lemma {:induction false} FlattenConcat(f: seq<CapTree>, f': seq<CapTree>)
    ensures Flatten(f + f') == Flatten(f) + Flatten(f')
    decreases |f'|
  {
    hide Flatten, FlattenOne;
    if f' == [] {
      FlattenNone(f);
    } else {
      var h, t := f'[..|f'| - 1], f'[|f'| - 1];
      FlattenConcat(f, h);
      FlattenSnoc(f + h, t);
      FlattenSnoc(h, t);
      assert f' == h + [t];
      Reassociate(f, h, [t]);
      Reassociate(Flatten(f), Flatten(h), FlattenOne(t));
    }
  }

  lemma FlattenNone(f: seq<CapTree>)
    ensures Flatten(f + []) == Flatten(f) + Flatten([])
  {
    assert f + [] == f;
    assert Flatten([]) == [];
    hide Flatten;
    assert Flatten(f) + [] == Flatten(f);
  }

  lemma Reassociate<T>(a: seq<T>, b: seq<T>, c: seq<T>)
    ensures a + b + c == a + (b + c)
  {
  }

  lemma FlattenSnoc(f: seq<CapTree>, t: CapTree)
    ensures Flatten(f + [t]) == Flatten(f) + FlattenOne(t)
  {
    hide FlattenOne;
    assert (f + [t])[..|f|] == f;
  }

  lemma FlattenSingle(t: CapTree)
    ensures Flatten([t]) == FlattenOne(t)
  {
    assert [t][..0] == [];
    assert Flatten([]) + FlattenOne(t) == FlattenOne(t);
  }

  /** Stack entries: a choice to fall back to, or a pending call. */
  datatype Frame = Back(pc: int, pos: nat, level: nat) | Return(pc: int)

  datatype Stack = Base | Push(top: Frame, below: Stack)

  datatype State =
    | Run(pc: int, pos: nat, stack: Stack, caps: seq<Capture>)
    | Success(end: nat, captured: seq<Capture>)
    | Failure
    | Stuck

  /** Address of the instruction that makes the whole match fail. */
  const GIVEUP: int := -1

  /** Backtrack: drop pending calls, resume the top choice. */
  function Unwind(k: Stack, caps: seq<Capture>): State {
    match k
    case Base => Stuck
    case Push(Return(_), k') => Unwind(k', caps)
    case Push(Back(pc, pos, level), k') =>
      if level <= |caps| then Run(pc, pos, k', caps[..level]) else Stuck
  }

  /** The capture list after closing the innermost open capture. */
  function CloseCapture(caps: seq<Capture>, pos: nat): seq<Capture>
    requires caps != []
  {
    var last := caps[|caps| - 1];
    if last.siz == 0 && last.pos <= pos < last.pos + UCHAR_MAX then
      caps[|caps| - 1 := last.(siz := pos - last.pos + 1)]
    else
      caps + [Capture(Cclose, 0, pos, 1)]
  }

  function Span(s: seq<Byte>, i: nat, cs: Charset): (j: nat)
    ensures i <= j
    ensures i <= |s| ==> j <= |s|
    ensures forall k :: i <= k < j ==> k < |s| && s[k] in cs
    ensures j < |s| ==> s[j] !in cs
    decreases |s| - i
  {
    if i < |s| && s[i] in cs then Span(s, i + 1, cs) else i
  }

  datatype Machine = Machine(code: seq<Instr>, s: seq<Byte>) {

    function Step(st: State): State {
      match st
      case Run(pc, i, k, caps) =>
        if pc == GIVEUP then (if k == Base then Failure else Stuck)
        else if !(0 <= pc < |code|) then Stuck
        else StepInstr(code[pc], pc, i, k, caps)
      case _ => st
    }

    function StepInstr(ins: Instr, pc: int, i: nat, k: Stack, caps: seq<Capture>): State {
      match ins
      case IEnd =>
        if k.Push? && k.below == Base then Success(i, caps) else Stuck
      case IRet =>
        if k.Push? && k.top.Return? then Run(k.top.pc, i, k.below, caps) else Stuck
      case IAny => if i < |s| then Run(pc + 1, i + 1, k, caps) else Unwind(k, caps)
      case IChar(c) => if i < |s| && s[i] == c then Run(pc + 1, i + 1, k, caps) else Unwind(k, caps)
      case ISet(cs) => if i < |s| && s[i] in cs then Run(pc + 1, i + 1, k, caps) else Unwind(k, caps)
      case ITestAny(off) => Run(pc + (if i < |s| then 1 else off), i, k, caps)
      case ITestChar(c, off) => Run(pc + (if i < |s| && s[i] == c then 1 else off), i, k, caps)
      case ITestSet(cs, off) => Run(pc + (if i < |s| && s[i] in cs then 1 else off), i, k, caps)
      case IBehind(n) => if n > i then Unwind(k, caps) else Run(pc + 1, i - n, k, caps)
      case ISpan(cs) => Run(pc + 1, Span(s, i, cs), k, caps)
      case IJmp(off) => Run(pc + off, i, k, caps)
      case IChoice(off) => Run(pc + 1, i, Push(Back(pc + off, i, |caps|), k), caps)
      case ICall(off) => Run(pc + off, i, Push(Return(pc + 1), k), caps)
      case ICommit(off) =>
        if k.Push? && k.top.Back? then Run(pc + off, i, k.below, caps) else Stuck
      case IPartialCommit(off) =>
        if k.Push? && k.top.Back?
        then Run(pc + off, i, Push(Back(k.top.pc, i, |caps|), k.below), caps)
        else Stuck
      case IBackCommit(off) =>
        if k.Push? && k.top.Back? && k.top.level <= |caps|
        then Run(pc + off, k.top.pos, k.below, caps[..k.top.level])
        else Stuck
      case IFailTwice => if k.Push? then Unwind(k.below, caps) else Stuck
      case IFail => Unwind(k, caps)
      case IFullCapture(kind, key, len) =>
        if len > i then Stuck
        else Run(pc + 1, i, k, caps + [Capture(kind, key, i - len, len + 1)])
      case IOpenCapture(kind, key) => Run(pc + 1, i, k, caps + [Capture(kind, key, i, 0)])
      case ICloseCapture => if caps == [] then Stuck else Run(pc + 1, i, k, CloseCapture(caps, i))
      case IOpenCall(_) => Stuck
    }

    function Steps(st: State, n: nat): State
      decreases n
    {
      if n == 0 then st else Steps(Step(st), n - 1)
    }

    lemma {:induction false} StepsAdd(st: State, m: nat, n: nat)
      ensures Steps(st, m + n) == Steps(Steps(st, m), n)
      decreases m
    {
      if m > 0 {
        StepsAdd(Step(st), m - 1, n);
      }
    }

    lemma {:induction false} FinalStays(st: State, n: nat)
      requires !st.Run?
      ensures Steps(st, n) == st
    {
      if n > 0 {
        FinalStays(st, n - 1);
      }
    }

    /** The runs from `a` and from `b` meet.  The machine is deterministic, so they
        have the same future. */
    ghost predicate Meet(a: State, b: State) {
      exists m: nat, n: nat :: Steps(a, m) == Steps(b, n)
    }

    lemma MeetRefl(a: State)
      ensures Meet(a, a)
    {
      assert Steps(a, 0) == Steps(a, 0);
    }

    lemma MeetSym(a: State, b: State)
      requires Meet(a, b)
      ensures Meet(b, a)
    {
      var m: nat, n: nat :| Steps(a, m) == Steps(b, n);
      assert Steps(b, n) == Steps(a, m);
    }

    lemma MeetStep(a: State)
      ensures Meet(a, Step(a))
    {
      assert Steps(a, 1) == Steps(Step(a), 0);
    }

    lemma MeetTrans(a: State, b: State, c: State)
      requires Meet(a, b) && Meet(b, c)
      ensures Meet(a, c)
    {
      var m: nat, n: nat :| Steps(a, m) == Steps(b, n);
      var m': nat, n': nat :| Steps(b, m') == Steps(c, n');
      if n <= m' {
        StepsAdd(a, m, m' - n);
        StepsAdd(b, n, m' - n);
        assert Steps(a, m + (m' - n)) == Steps(c, n');
      } else {
        StepsAdd(b, m', n - m');
        StepsAdd(c, n', n - m');
        assert Steps(a, m) == Steps(c, n' + (n - m'));
      }
    }

    /** One step from `a`, then the future of `b`. */
    lemma MeetAfterStep(a: State, b: State)
      requires Meet(Step(a), b)
      ensures Meet(a, b)
    {
      MeetStep(a);
      MeetTrans(a, Step(a), b);
    }

    lemma MeetFinal(a: State, b: State)
      requires Meet(a, b) && !b.Run?
      ensures exists m: nat :: Steps(a, m) == b
    {
      var m: nat, n: nat :| Steps(a, m) == Steps(b, n);
      FinalStays(b, n);
    }

    /** The state in which a match of the whole pattern starts at position `i`. */
    function Initial(i: nat): State {
      Run(0, i, Push(Back(GIVEUP, i, 0), Base), [])
    }
  }

  /** All frames were pushed when at most `n` captures were open. */
  predicate LevelsWithin(k: Stack, n: nat) {
    match k
    case Base => true
    case Push(Return(_), k') => LevelsWithin(k', n)
    case Push(Back(_, _, level), k') => level <= n && LevelsWithin(k', n)
  }

  lemma {:induction false} LevelsMono(k: Stack, m: nat, n: nat)
    requires LevelsWithin(k, m) && m <= n
    ensures LevelsWithin(k, n)
  {
    match k
    case Base =>
    case Push(_, k') => LevelsMono(k', m, n);
  }

  /** Captures made after a choice are forgotten when it is resumed. */
  lemma {:induction false} UnwindForgets(k: Stack, caps: seq<Capture>, more: seq<Capture>)
    requires LevelsWithin(k, |caps|)
    ensures Unwind(k, caps + more) == Unwind(k, caps)
  {
    match k
    case Base =>
    case Push(Return(_), k') => UnwindForgets(k', caps, more);
    case Push(Back(_, _, level), _) => assert (caps + more)[..level] == caps[..level];
  }
}
