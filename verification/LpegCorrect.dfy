/** Generated code does what the pattern means.

    `Sim` is the contract of a piece of code: run from its first instruction it
    has the same future as the machine state that the pattern's result calls
    for.  Code generated with a follow set may also backtrack where the pattern
    succeeds, provided the next character lies outside that set; code generated
    inside an optional pattern (`opt`) leaves through the choice it reuses. */
module LpegCorrect {
  import opened LpegTree
  import opened LpegAnalysis
  import opened LpegVm
  import opened LpegCodegen

  /** State reached after code that ends at `b` has matched up to `j`. */
  function Exit(opt: bool, b: int, j: nat, k: Stack, caps: seq<Capture>): State {
    if opt && k.Push? && k.top.Back? then Run(k.top.pc, j, k.below, caps) else Run(b, j, k, caps)
  }

  ghost predicate Sim(m: Machine, a: int, b: int, i: nat, k: Stack, caps: seq<Capture>, r: Res, opt: bool, fl: Charset) {
    match r
    case Out => true
    case Fail => m.Meet(Run(a, i, k, caps), Unwind(k, caps))
    case Ok(j, f) =>
      || m.Meet(Run(a, i, k, caps), Exit(opt, b, j, k, caps + Flatten(f)))
      || (Outside(m.s, j, fl) && m.Meet(Run(a, i, k, caps), Unwind(k, caps)))
  }

  /** Where code that ends at `b` may run.  Inside an optional pattern the end is
      the commit of the choice on top of the stack. */
  predicate Context(m: Machine, b: int, k: Stack, caps: seq<Capture>, opt: bool, fl: Charset) {
    && LevelsWithin(k, |caps|)
    && (opt ==>
      && fl == FULL && k.Push? && k.top.Back?
      && 0 <= b < |m.code| && m.code[b].ICommit? && b + m.code[b].off == k.top.pc)
  }

  ghost predicate InstrAt(code: seq<Instr>, a: int, ins: Instr, pos: seq<int>) {
    && 0 <= a < |code|
    && if ins.IOpenCall? then
         ins.rule < |pos| ==>
           || code[a] == ICall(pos[ins.rule] - a)
           || (code[a] == IJmp(pos[ins.rule] - a) && ReachesRet(code, a + 1))
       else code[a] == ins
  }

  /** Code `c` stands at `a`, its open calls corrected to the rule addresses `pos`. */
  ghost predicate CodeAt(code: seq<Instr>, a: int, c: seq<Instr>, pos: seq<int>) {
    && 0 <= a && a + |c| <= |code|
    && forall x :: 0 <= x < |c| ==> InstrAt(code, a + x, c[x], pos)
  }

  lemma CodeAtSplit(code: seq<Instr>, a: int, c: seq<Instr>, c': seq<Instr>, pos: seq<int>)
    requires CodeAt(code, a, c + c', pos)
    ensures CodeAt(code, a, c, pos)
    ensures CodeAt(code, a + |c|, c', pos)
  {
    forall x | 0 <= x < |c| ensures InstrAt(code, a + x, c[x], pos) {
      assert (c + c')[x] == c[x];
      assert InstrAt(code, a + x, (c + c')[x], pos);
    }
    forall x | 0 <= x < |c'| ensures InstrAt(code, a + |c| + x, c'[x], pos) {
      assert (c + c')[|c| + x] == c'[x];
      assert InstrAt(code, a + (|c| + x), (c + c')[|c| + x], pos);
    }
  }

  lemma CodeAtHead(code: seq<Instr>, a: int, ins: Instr, pos: seq<int>)
    requires CodeAt(code, a, [ins], pos)
    ensures InstrAt(code, a, ins, pos)
  {
    assert InstrAt(code, a + 0, [ins][0], pos);
  }

  ghost predicate RulesAt(code: seq<Instr>, d: nat, g: seq<Tree>, pos: seq<int>) {
    && |pos| == |g|
    && forall r :: 0 <= r < |g| ==> RuleAt(code, d, g, pos, r)
  }

  ghost predicate RuleAt(code: seq<Instr>, d: nat, g: seq<Tree>, pos: seq<int>, r: nat)
    requires r < |g| == |pos|
  {
    WellFormed(d, g, g[r]) && CodeAt(code, pos[r], GenRule(d, g, r), pos)
  }

  // ---------- single instructions ----------

  lemma TestStep(m: Machine, a: int, cs: Charset, off: int, i: nat, k: Stack, caps: seq<Capture>)
    requires 0 <= a < |m.code| && m.code[a] == CodeTest(cs, off)
    ensures m.Step(Run(a, i, k, caps))
         == Run(if i < |m.s| && m.s[i] in cs then a + 1 else a + off, i, k, caps)
  {
    if i < |m.s| {
      assert m.s[i] in FULL;
    }
  }

  lemma TestDominates(cs: Charset, e: bool, s: seq<Byte>, i: nat)
    requires !e ==> i < |s| && s[i] in cs
    ensures Dominates(TestDom(cs, e), s, i)
  {
  }

  /** Matching one character of a set, whatever instruction was chosen for it. */
  lemma CharsetStep(m: Machine, a: int, cs: Charset, tt: Dom, i: nat, k: Stack, caps: seq<Capture>)
    requires 0 <= a < |m.code| && m.code[a] == CodeCharset(cs, tt)
    requires Dominates(tt, m.s, i)
    ensures m.Step(Run(a, i, k, caps))
         == if i < |m.s| && m.s[i] in cs then Run(a + 1, i + 1, k, caps) else Unwind(k, caps)
  {
    if i < |m.s| {
      assert m.s[i] in FULL;
    }
  }

  lemma StepSim(m: Machine, a: int, b: int, i: nat, k: Stack, caps: seq<Capture>, r: Res, opt: bool, fl: Charset, a': int)
    requires m.Step(Run(a, i, k, caps)) == Run(a', i, k, caps)
    requires Sim(m, a', b, i, k, caps, r, opt, fl)
    ensures Sim(m, a, b, i, k, caps, r, opt, fl)
  {
    m.MeetStep(Run(a, i, k, caps));
    if r.Fail? || (r.Ok? && m.Meet(Run(a', i, k, caps), Unwind(k, caps))) {
      m.MeetTrans(Run(a, i, k, caps), Run(a', i, k, caps), Unwind(k, caps));
    }
    if r.Ok? {
      var x := Exit(opt, b, r.pos, k, caps + Flatten(r.caps));
      if m.Meet(Run(a', i, k, caps), x) {
        m.MeetTrans(Run(a, i, k, caps), Run(a', i, k, caps), x);
      }
    }
  }

  /** Plain code whose end `b'` has the same future as the end `b` wanted. */
  lemma EndSim(m: Machine, a: int, b': int, b: int, i: nat, k: Stack, caps: seq<Capture>, r: Res, opt: bool, fl: Charset)
    requires Sim(m, a, b', i, k, caps, r, false, fl)
    requires r.Ok? ==>
      var caps' := caps + Flatten(r.caps);
      m.Meet(Run(b', r.pos, k, caps'), Exit(opt, b, r.pos, k, caps'))
    ensures Sim(m, a, b, i, k, caps, r, opt, fl)
  {
    if r.Ok? {
      var caps' := caps + Flatten(r.caps);
      if m.Meet(Run(a, i, k, caps), Run(b', r.pos, k, caps')) {
        m.MeetTrans(Run(a, i, k, caps), Run(b', r.pos, k, caps'), Exit(opt, b, r.pos, k, caps'));
      }
    }
  }

  /** At its end, code inside an optional pattern leaves through the commit. */
  lemma ExitMeet(m: Machine, b: int, j: nat, k: Stack, caps: seq<Capture>, caps0: seq<Capture>, opt: bool, fl: Charset)
    requires Context(m, b, k, caps0, opt, fl)
    ensures m.Meet(Run(b, j, k, caps), Exit(opt, b, j, k, caps))
  {
    if opt {
      m.MeetStep(Run(b, j, k, caps));
    } else {
      m.MeetRefl(Run(b, j, k, caps));
    }
  }

  /** Plain code is also correct inside an optional pattern. */
  lemma OptSim(m: Machine, a: int, b: int, i: nat, k: Stack, caps: seq<Capture>, r: Res, opt: bool, fl: Charset)
    requires Sim(m, a, b, i, k, caps, r, false, fl)
    requires Context(m, b, k, caps, opt, fl)
    ensures Sim(m, a, b, i, k, caps, r, opt, fl)
  {
    if r.Ok? {
      ExitMeet(m, b, r.pos, k, caps + Flatten(r.caps), caps, opt, fl);
    }
    EndSim(m, a, b, b, i, k, caps, r, opt, fl);
  }

  lemma JumpMeet(m: Machine, a: int, b: int, j: nat, k: Stack, caps: seq<Capture>, caps0: seq<Capture>, opt: bool, fl: Charset)
    requires Context(m, b, k, caps0, opt, fl)
    requires 0 <= a < |m.code| && m.code[a] == IJmp(b - a)
    ensures m.Meet(Run(a, j, k, caps), Exit(opt, b, j, k, caps))
  {
    ExitMeet(m, b, j, k, caps, caps0, opt, fl);
    m.MeetAfterStep(Run(a, j, k, caps), Exit(opt, b, j, k, caps));
  }

  // ---------- sequence ----------

  /** Results of a sequence from those of its parts. */
  function SeqRes(r1: Res, r2: Res): Res {
    if !r1.Ok? then r1 else if r2.Ok? then Ok(r2.pos, r1.caps + r2.caps) else r2
  }

  lemma SeqSim(m: Machine, a: int, c: int, b: int, i: nat, k: Stack, caps: seq<Capture>, r1: Res, r2: Res,
               opt: bool, fl1: Charset, fl: Charset)
    requires Context(m, b, k, caps, opt, fl)
    requires Sim(m, a, c, i, k, caps, r1, false, fl1)
    requires r1.Ok? ==> Sim(m, c, b, r1.pos, k, caps + Flatten(r1.caps), r2, opt, fl)
    requires r1.Ok? && r2.Ok? && Outside(m.s, r1.pos, fl1) ==> r2.pos == r1.pos && Outside(m.s, r1.pos, fl)
    ensures Sim(m, a, b, i, k, caps, SeqRes(r1, r2), opt, fl)
  {
    if r1.Ok? {
      hide Flatten, Machine.Meet;
      var st, caps1 := Run(a, i, k, caps), caps + Flatten(r1.caps);
      var mid := Run(c, r1.pos, k, caps1);
      UnwindForgets(k, caps, Flatten(r1.caps));
      if m.Meet(st, mid) {
        if m.Meet(mid, Unwind(k, caps1)) {
          m.MeetTrans(st, mid, Unwind(k, caps));
        }
        if r2.Ok? {
          FlattenConcat(r1.caps, r2.caps);
          Reassociate(caps, Flatten(r1.caps), Flatten(r2.caps));
          var x := Exit(opt, b, r2.pos, k, caps1 + Flatten(r2.caps));
          if m.Meet(mid, x) {
            m.MeetTrans(st, mid, x);
          }
        }
      }
    }
  }

  // ---------- ordered choice ----------

  function ChoiceRes(r1: Res, r2: Res): Res { if r1.Fail? then r2 else r1 }

  /** `test L1; p1; jmp b; L1: p2; b:` */
  lemma ChoiceByTestSim(m: Machine, a: int, e1: int, l1: int, b: int, i: nat, k: Stack, caps: seq<Capture>, cs: Charset,
                        r1: Res, r2: Res, opt: bool, fl: Charset)
    requires Context(m, b, k, caps, opt, fl)
    requires 0 <= a < |m.code| && m.code[a] == CodeTest(cs, l1 - a)
    requires e1 == b || (0 <= e1 < |m.code| && m.code[e1] == IJmp(b - e1))
    requires i < |m.s| && m.s[i] in cs ==> Sim(m, a + 1, e1, i, k, caps, r1, false, fl)
    requires !(i < |m.s| && m.s[i] in cs) ==> !r1.Ok?
    requires i < |m.s| && m.s[i] in cs && r1.Fail? && r2.Ok? ==> r2.pos == i && Outside(m.s, i, fl)
    requires Sim(m, l1, b, i, k, caps, r2, opt, fl)
    ensures Sim(m, a, b, i, k, caps, ChoiceRes(r1, r2), opt, fl)
  {
    TestStep(m, a, cs, l1 - a, i, k, caps);
    if i < |m.s| && m.s[i] in cs {
      if r1.Fail? {
        if r2.Ok? {
          assert Sim(m, a + 1, b, i, k, caps, r2, opt, fl);
        } else if r2.Fail? {
          assert Sim(m, a + 1, b, i, k, caps, r2, opt, fl);
        }
      } else {
        if r1.Ok? {
          if e1 == b {
            ExitMeet(m, b, r1.pos, k, caps + Flatten(r1.caps), caps, opt, fl);
          } else {
            JumpMeet(m, e1, b, r1.pos, k, caps + Flatten(r1.caps), caps, opt, fl);
          }
        }
        EndSim(m, a + 1, e1, b, i, k, caps, r1, opt, fl);
      }
      StepSim(m, a, b, i, k, caps, ChoiceRes(r1, r2), opt, fl, a + 1);
    } else if r1.Fail? {
      StepSim(m, a, b, i, k, caps, r2, opt, fl, l1);
    }
  }

  /** `partialcommit; p1` reusing the choice on top of the stack. */
  lemma ChoiceByPartialSim(m: Machine, a: int, b: int, i: nat, k: Stack, caps: seq<Capture>, r1: Res)
    requires Context(m, b, k, caps, true, FULL)
    requires 0 <= a < |m.code| && m.code[a] == IPartialCommit(1)
    requires Sim(m, a + 1, b, i, Push(Back(k.top.pc, i, |caps|), k.below), caps, r1, true, FULL)
    ensures Sim(m, a, b, i, k, caps, ChoiceRes(r1, Ok(i, [])), true, FULL)
  {
    var k' := Push(Back(k.top.pc, i, |caps|), k.below);
    var st := Run(a, i, k, caps);
    if r1.Ok? {
      assert !Outside(m.s, r1.pos, FULL);
      m.MeetAfterStep(st, Exit(true, b, r1.pos, k', caps + Flatten(r1.caps)));
    } else if r1.Fail? {
      assert caps[..|caps|] == caps == caps + Flatten([]);
      m.MeetAfterStep(st, Unwind(k', caps));
    }
  }

  /** `choice L1; p1; commit b; L1: p2; b:` */
  lemma ChoiceByChoiceSim(m: Machine, a: int, e1: int, b: int, i: nat, k: Stack, caps: seq<Capture>,
                          r1: Res, r2: Res, opt1: bool, opt: bool, fl: Charset)
    requires Context(m, b, k, caps, opt, fl)
    requires 0 <= a < e1 < |m.code| && m.code[a] == IChoice(e1 + 1 - a) && m.code[e1] == ICommit(b - e1)
    requires opt1 ==> b == e1 + 1
    requires Sim(m, a + 1, e1, i, Push(Back(e1 + 1, i, |caps|), k), caps, r1, opt1, FULL)
    requires Sim(m, e1 + 1, b, i, k, caps, r2, opt, fl)
    ensures Sim(m, a, b, i, k, caps, ChoiceRes(r1, r2), opt, fl)
  {
    var k' := Push(Back(e1 + 1, i, |caps|), k);
    var st := Run(a, i, k, caps);
    if r1.Fail? {
      assert caps[..|caps|] == caps;
      m.MeetAfterStep(st, Unwind(k', caps));
      if r2.Ok? && m.Meet(Run(e1 + 1, i, k, caps), Exit(opt, b, r2.pos, k, caps + Flatten(r2.caps))) {
        m.MeetTrans(st, Run(e1 + 1, i, k, caps), Exit(opt, b, r2.pos, k, caps + Flatten(r2.caps)));
      }
      if !r2.Out? && m.Meet(Run(e1 + 1, i, k, caps), Unwind(k, caps)) {
        m.MeetTrans(st, Run(e1 + 1, i, k, caps), Unwind(k, caps));
      }
    } else if r1.Ok? {
      assert !Outside(m.s, r1.pos, FULL);
      var caps' := caps + Flatten(r1.caps);
      var x := Exit(opt1, e1, r1.pos, k', caps');
      m.MeetAfterStep(st, x);
      if !opt1 {
        m.MeetStep(x);
        m.MeetTrans(st, x, Run(b, r1.pos, k, caps'));
      }
      ExitMeet(m, b, r1.pos, k, caps', caps, opt, fl);
      m.MeetTrans(st, Run(b, r1.pos, k, caps'), Exit(opt, b, r1.pos, k, caps'));
    }
  }

  /** A test that jumps only where the first alternative fails anyway. */
  lemma TestSkipSim(m: Machine, a: int, l1: int, b: int, i: nat, k: Stack, caps: seq<Capture>, cs: Charset,
                    r: Res, opt: bool, fl: Charset)
    requires 0 <= a < |m.code| && m.code[a] == CodeTest(cs, l1 - a)
    requires i < |m.s| && m.s[i] in cs ==> Sim(m, a + 1, b, i, k, caps, r, opt, fl)
    requires !(i < |m.s| && m.s[i] in cs) ==> Sim(m, l1, b, i, k, caps, r, opt, fl)
    ensures Sim(m, a, b, i, k, caps, r, opt, fl)
  {
    TestStep(m, a, cs, l1 - a, i, k, caps);
    StepSim(m, a, b, i, k, caps, r, opt, fl, if i < |m.s| && m.s[i] in cs then a + 1 else l1);
  }

  // ---------- predicates ----------

  function NotRes(r: Res, i: nat): Res {
    match r case Out => Out case Fail => Ok(i, []) case Ok(_, _) => Fail
  }

  /** `choice L1; p; failtwice; L1:` */
  lemma NotSim(m: Machine, a: int, e: int, i: nat, k: Stack, caps: seq<Capture>, r: Res, fl: Charset)
    requires LevelsWithin(k, |caps|)
    requires 0 <= a < e < |m.code| && m.code[a] == IChoice(e + 1 - a) && m.code[e] == IFailTwice
    requires Sim(m, a + 1, e, i, Push(Back(e + 1, i, |caps|), k), caps, r, false, FULL)
    ensures Sim(m, a, e + 1, i, k, caps, NotRes(r, i), false, fl)
  {
    var k' := Push(Back(e + 1, i, |caps|), k);
    var st := Run(a, i, k, caps);
    if r.Fail? {
      assert caps[..|caps|] == caps == caps + Flatten([]);
      m.MeetAfterStep(st, Unwind(k', caps));
    } else if r.Ok? {
      assert !Outside(m.s, r.pos, FULL);
      var x := Run(e, r.pos, k', caps + Flatten(r.caps));
      UnwindForgets(k, caps, Flatten(r.caps));
      m.MeetStep(x);
      m.MeetTrans(Run(a + 1, i, k', caps), x, Unwind(k, caps));
      m.MeetAfterStep(st, Unwind(k, caps));
    }
  }

  function AndRes(r: Res, i: nat): Res { if r.Ok? then Ok(i, []) else r }

  /** `choice L1; p; backcommit L2; L1: fail; L2:` */
  lemma AndSim(m: Machine, a: int, e: int, i: nat, k: Stack, caps: seq<Capture>, r: Res, fl: Charset)
    requires LevelsWithin(k, |caps|)
    requires 0 <= a < e < |m.code| - 1 && m.code[a] == IChoice(e + 1 - a)
    requires m.code[e] == IBackCommit(2) && m.code[e + 1] == IFail
    requires Sim(m, a + 1, e, i, Push(Back(e + 1, i, |caps|), k), caps, r, false, FULL)
    ensures Sim(m, a, e + 2, i, k, caps, AndRes(r, i), false, fl)
  {
    var k' := Push(Back(e + 1, i, |caps|), k);
    var st := Run(a, i, k, caps);
    assert caps[..|caps|] == caps == caps + Flatten([]);
    if r.Fail? {
      var x := Run(e + 1, i, k, caps);
      m.MeetAfterStep(st, x);
      m.MeetStep(x);
      m.MeetTrans(st, x, Unwind(k, caps));
    } else if r.Ok? {
      assert !Outside(m.s, r.pos, FULL);
      hide Flatten;
      var x := Run(e, r.pos, k', caps + Flatten(r.caps));
      assert (caps + Flatten(r.caps))[..|caps|] == caps;
      m.MeetStep(x);
      m.MeetTrans(Run(a + 1, i, k', caps), x, Run(e + 2, i, k, caps));
      m.MeetAfterStep(st, Run(e + 2, i, k, caps));
    }
  }

  /** `p; behind n` for a capture-free `p` of length `n`. */
  lemma AndByLengthSim(m: Machine, a: int, e: int, n: nat, i: nat, k: Stack, caps: seq<Capture>, r: Res, fl: Charset)
    requires Sim(m, a, e, i, k, caps, r, false, FULL)
    requires r.Ok? ==> r.pos == i + n && r.caps == []
    requires n > 0 ==> 0 <= e < |m.code| && m.code[e] == IBehind(n)
    ensures Sim(m, a, if n > 0 then e + 1 else e, i, k, caps, AndRes(r, i), false, fl)
  {
    if r.Ok? {
      assert !Outside(m.s, r.pos, FULL);
      assert caps + Flatten([]) == caps;
      var st, x := Run(a, i, k, caps), Run(e, r.pos, k, caps);
      if n > 0 {
        m.MeetStep(x);
        m.MeetTrans(st, x, Run(e + 1, i, k, caps));
      }
    }
  }

  /** `behind n; p` for a capture-free `p` of length `n`. */
  lemma BehindSim(m: Machine, a: int, e: int, n: nat, i: nat, k: Stack, caps: seq<Capture>, r: Res, fl: Charset)
    requires n > 0 ==> 0 <= a < |m.code| && m.code[a] == IBehind(n)
    requires n <= i ==> Sim(m, if n > 0 then a + 1 else a, e, i - n, k, caps, r, false, FULL)
    requires n <= i && r.Ok? ==> r.pos == i && r.caps == []
    ensures Sim(m, a, e, i, k, caps, if n > i then Fail else r, false, fl)
  {
    var st := Run(a, i, k, caps);
    if n > i {
      m.MeetStep(st);
    } else if n > 0 {
      if r.Fail? {
        m.MeetAfterStep(st, Unwind(k, caps));
      } else if r.Ok? {
        assert !Outside(m.s, r.pos, FULL);
        m.MeetAfterStep(st, Exit(false, e, r.pos, k, caps + Flatten(r.caps)));
      }
    } else if r.Ok? {
      assert !Outside(m.s, r.pos, FULL);
    }
  }

  // ---------- captures ----------

  function CaptureRes(r: Res, kind: CapKind, key: nat, i: nat): Res {
    if r.Ok? then Ok(r.pos, [CapTree(kind, key, i, r.pos, r.caps)]) else r
  }

  /** `p; fullcapture` for a short capture-free `p`. */
  lemma FullCaptureSim(m: Machine, a: int, e: int, kind: CapKind, key: nat, n: nat, i: nat, k: Stack, caps: seq<Capture>,
                       r: Res, fl: Charset)
    requires LevelsWithin(k, |caps|)
    requires Sim(m, a, e, i, k, caps, r, false, fl)
    requires r.Ok? ==> r.pos == i + n && r.caps == []
    requires n <= MAXOFF
    requires 0 <= e < |m.code| && m.code[e] == IFullCapture(kind, key, n)
    ensures Sim(m, a, e + 1, i, k, caps, CaptureRes(r, kind, key, i), false, fl)
  {
    if r.Ok? {
      assert caps + Flatten([]) == caps;
      var st, x := Run(a, i, k, caps), Run(e, r.pos, k, caps);
      var t := CapTree(kind, key, i, r.pos, []);
      FlattenSingle(t);
      m.MeetStep(x);
      assert m.Step(x) == Run(e + 1, r.pos, k, caps + Flatten([t]));
      hide Flatten, FlattenOne, Machine.Step, Machine.StepInstr, Machine.Meet, Unwind;
      if m.Meet(st, x) {
        m.MeetTrans(st, x, m.Step(x));
      }
    }
  }

  /** Closing a capture turns the list into the layout of the enclosing capture. */
  lemma CloseCaptureFlatten(caps: seq<Capture>, kind: CapKind, key: nat, i: nat, j: nat, f: seq<CapTree>)
    requires i <= j
    ensures var open := caps + [Capture(kind, key, i, 0)] + Flatten(f);
      CloseCapture(open, j) == caps + Flatten([CapTree(kind, key, i, j, f)])
  {
    var t := CapTree(kind, key, i, j, f);
    FlattenSingle(t);
    var first := Capture(kind, key, i, 0);
    var inner := Flatten(f);
    var open := caps + [first] + inner;
    if f == [] {
      assert open == caps + [first];
    } else {
      assert open[|open| - 1] == inner[|inner| - 1];
      assert FlattenOne(t) == [first] + inner + [Capture(Cclose, 0, j, 1)];
      hide Flatten, FlattenOne;
      assert CloseCapture(open, j) == caps + ([first] + inner + [Capture(Cclose, 0, j, 1)]);
    }
  }

  /** `opencapture; p; closecapture` */
  lemma OpenCloseSim(m: Machine, a: int, e: int, kind: CapKind, key: nat, i: nat, k: Stack, caps: seq<Capture>,
                     r: Res, fl: Charset)
    requires LevelsWithin(k, |caps|)
    requires 0 <= a < e < |m.code| && m.code[a] == IOpenCapture(kind, key) && m.code[e] == ICloseCapture
    requires Sim(m, a + 1, e, i, k, caps + [Capture(kind, key, i, 0)], r, false, fl)
    requires r.Ok? ==> i <= r.pos
    ensures Sim(m, a, e + 1, i, k, caps, CaptureRes(r, kind, key, i), false, fl)
  {
    var st := Run(a, i, k, caps);
    var open := caps + [Capture(kind, key, i, 0)];
    var st1 := Run(a + 1, i, k, open);
    UnwindForgets(k, caps, [Capture(kind, key, i, 0)]);
    if !r.Out? && m.Meet(st1, Unwind(k, open)) {
      m.MeetAfterStep(st, Unwind(k, caps));
    }
    if r.Ok? {
      var x := Run(e, r.pos, k, open + Flatten(r.caps));
      if m.Meet(st1, x) {
        CloseCaptureFlatten(caps, kind, key, i, r.pos, r.caps);
        m.MeetStep(x);
        assert m.Step(x) == Run(e + 1, r.pos, k, caps + Flatten([CapTree(kind, key, i, r.pos, r.caps)]));
        assert m.Step(st) == st1;
        hide Flatten, FlattenOne, CloseCapture, Machine.Step, Machine.StepInstr, Machine.Meet, Unwind;
        m.MeetTrans(st1, x, m.Step(x));
        m.MeetAfterStep(st, m.Step(x));
      }
    }
  }

  // ---------- rule calls ----------

  lemma {:induction false} JumpChain(m: Machine, a: int, fuel: nat, i: nat, k: Stack, caps: seq<Capture>)
    ensures m.Meet(Run(a, i, k, caps), Run(FinalTarget(m.code, a, fuel), i, k, caps))
    decreases fuel
  {
    if fuel > 0 && 0 <= a < |m.code| && m.code[a].IJmp? {
      var a' := a + m.code[a].off;
      JumpChain(m, a', fuel - 1, i, k, caps);
      m.MeetAfterStep(Run(a, i, k, caps), Run(FinalTarget(m.code, a', fuel - 1), i, k, caps));
    } else {
      m.MeetRefl(Run(a, i, k, caps));
    }
  }

  /** A jump to a rule does what a call would: the return that follows the call
      and the one that ends the rule have the same effect. */
  lemma TailCallSim(m: Machine, a: int, q: int, e: int, i: nat, k: Stack, caps: seq<Capture>, r: Res)
    requires LevelsWithin(k, |caps|)
    requires 0 <= a < |m.code| && m.code[a] == IJmp(q - a) && ReachesRet(m.code, a + 1)
    requires 0 <= e < |m.code| && m.code[e] == IRet
    requires Sim(m, q, e, i, k, caps, r, false, FULL)
    ensures Sim(m, a, a + 1, i, k, caps, r, false, FULL)
  {
    var st, st' := Run(a, i, k, caps), Run(q, i, k, caps);
    assert m.Step(st) == st';
    if r.Fail? {
      m.MeetAfterStep(st, Unwind(k, caps));
    } else if r.Ok? {
      assert !Outside(m.s, r.pos, FULL);
      var caps' := caps + Flatten(r.caps);
      var fuel: nat :| JumpsToRet(m.code, a + 1, fuel);
      var x := Run(e, r.pos, k, caps');
      var y := Run(FinalTarget(m.code, a + 1, fuel), r.pos, k, caps');
      JumpChain(m, a + 1, fuel, r.pos, k, caps');
      assert m.Step(x) == m.Step(y);
      m.MeetStep(x);
      m.MeetStep(y);
      m.MeetAfterStep(st, x);
      m.MeetTrans(st, x, m.Step(x));
      m.MeetSym(y, m.Step(y));
      m.MeetTrans(st, m.Step(y), y);
      m.MeetSym(Run(a + 1, r.pos, k, caps'), y);
      m.MeetTrans(st, y, Run(a + 1, r.pos, k, caps'));
    }
  }

  lemma CallSim(m: Machine, a: int, q: int, e: int, i: nat, k: Stack, caps: seq<Capture>, r: Res)
    requires LevelsWithin(k, |caps|)
    requires 0 <= a < |m.code| && m.code[a] == ICall(q - a)
    requires 0 <= e < |m.code| && m.code[e] == IRet
    requires Sim(m, q, e, i, Push(Return(a + 1), k), caps, r, false, FULL)
    ensures Sim(m, a, a + 1, i, k, caps, r, false, FULL)
  {
    var k' := Push(Return(a + 1), k);
    var st, st' := Run(a, i, k, caps), Run(q, i, k', caps);
    assert m.Step(st) == st';
    if r.Fail? {
      m.MeetAfterStep(st, Unwind(k, caps));
    } else if r.Ok? {
      assert !Outside(m.s, r.pos, FULL);
      var x := Run(e, r.pos, k', caps + Flatten(r.caps));
      m.MeetAfterStep(st, x);
      m.MeetStep(x);
      m.MeetTrans(st, x, m.Step(x));
    }
  }
}
