/** Compiler correctness: the code of a pattern simulates its meaning. */
module LpegGenCorrect {
  import opened LpegTree
  import opened LpegAnalysis
  import opened LpegVm
  import opened LpegCodegen
  import opened LpegCorrect
  import opened LpegLayout

  // ---------- the main theorem ----------

  /** Where a pattern is compiled and run: analysis depth, rules, machine and the
      addresses of the rules. */
  datatype Unit = Unit(d: nat, g: seq<Tree>, m: Machine, pos: seq<int>)

  ghost predicate Placed(u: Unit, p: Tree, opt: bool, tt: Dom, fl: Charset, a: int, i: nat, k: Stack, caps: seq<Capture>) {
    && i <= |u.m.s|
    && WellFormed(u.d, u.g, p)
    && RulesAt(u.m.code, u.d, u.g, u.pos)
    && CodeAt(u.m.code, a, Gen(u.d, u.g, p, opt, tt, fl), u.pos)
    && Dominates(tt, u.m.s, i)
    && Context(u.m, a + |Gen(u.d, u.g, p, opt, tt, fl)|, k, caps, opt, fl)
  }

  ghost predicate Simulates(n: nat, u: Unit, p: Tree, opt: bool, tt: Dom, fl: Charset, a: int, i: nat, k: Stack, caps: seq<Capture>) {
    Sim(u.m, a, a + |Gen(u.d, u.g, p, opt, tt, fl)|, i, k, caps, Match(n, u.g, p, u.m.s, i), opt, fl)
  }

  lemma {:induction false} GenCorrect(n: nat, u: Unit, p: Tree, opt: bool, tt: Dom, fl: Charset,
                                      a: int, i: nat, k: Stack, caps: seq<Capture>)
    requires Placed(u, p, opt, tt, fl, a, i, k, caps)
    ensures Simulates(n, u, p, opt, tt, fl, a, i, k, caps)
    decreases n, p, 1
  {
    hide Placed, Simulates;
    match p
    case TChar(c) => CharCorrect(n, u, p, {c}, opt, tt, fl, a, i, k, caps);
    case TSet(cs) => CharCorrect(n, u, p, cs, opt, tt, fl, a, i, k, caps);
    case TAny => CharCorrect(n, u, p, FULL, opt, tt, fl, a, i, k, caps);
    case TTrue => ConstantCorrect(n, u, p, opt, tt, fl, a, i, k, caps);
    case TFalse => ConstantCorrect(n, u, p, opt, tt, fl, a, i, k, caps);
    case TChoice(p1, p2) =>
      if ChoiceByTest(u.d, u.g, p1, p2, fl) {
        ChoiceByTestCorrect(n, u, p1, p2, opt, tt, fl, a, i, k, caps);
      } else if opt && p2.TTrue? {
        ChoiceByPartialCorrect(n, u, p1, p2, tt, fl, a, i, k, caps);
      } else {
        ChoiceByChoiceCorrect(n, u, p1, p2, opt, tt, fl, a, i, k, caps);
      }
    case TRep(p1) =>
      if IsCharset(p1) {
        SpanCorrect(n, u, p1, opt, tt, fl, a, i, k, caps);
      } else if RepByTest(u.d, u.g, p1, fl) {
        RepByTestCorrect(n, u, p1, opt, tt, fl, a, i, k, caps);
      } else {
        RepCorrect(n, u, p1, opt, tt, fl, a, i, k, caps);
      }
    case TBehind(j, p1) => BehindCorrect(n, u, j, p1, opt, tt, fl, a, i, k, caps);
    case TNot(p1) =>
      if HeadFail(u.d, u.g, p1) {
        NotByTestCorrect(n, u, p1, opt, tt, fl, a, i, k, caps);
      } else {
        NotCorrect(n, u, p1, opt, tt, fl, a, i, k, caps);
      }
    case TAnd(p1) => AndCorrect(n, u, p1, opt, tt, fl, a, i, k, caps);
    case TCapture(kind, key, p1) =>
      if FullCapture(u.d, u.g, p1) {
        FullCaptureCorrect(n, u, kind, key, p1, opt, tt, fl, a, i, k, caps);
      } else {
        OpenCaptureCorrect(n, u, kind, key, p1, opt, tt, fl, a, i, k, caps);
      }
    case TSeq(p1, p2) => SeqCorrect(n, u, p1, p2, opt, tt, fl, a, i, k, caps);
    case TCall(r) => CallCorrect(n, u, r, opt, tt, fl, a, i, k, caps);
    case TGrammar(rules) => GrammarCorrect(n, u, rules, opt, tt, fl, a, i, k, caps);
  }

  lemma ConstantCorrect(n: nat, u: Unit, p: Tree, opt: bool, tt: Dom, fl: Charset,
                        a: int, i: nat, k: Stack, caps: seq<Capture>)
    requires Placed(u, p, opt, tt, fl, a, i, k, caps)
    requires p.TTrue? || p.TFalse?
    ensures Simulates(n, u, p, opt, tt, fl, a, i, k, caps)
  {
    if p.TTrue? {
      assert caps + Flatten([]) == caps;
      ExitMeet(u.m, a, i, k, caps, caps, opt, fl);
    } else {
      CodeAtHead(u.m.code, a, IFail, u.pos);
      u.m.MeetStep(Run(a, i, k, caps));
    }
  }

  lemma CharCorrect(n: nat, u: Unit, p: Tree, cs: Charset, opt: bool, tt: Dom, fl: Charset,
                    a: int, i: nat, k: Stack, caps: seq<Capture>)
    requires Placed(u, p, opt, tt, fl, a, i, k, caps)
    requires p == TSet(cs) || (p == TAny && cs == FULL) || (p.TChar? && cs == {p.c})
    ensures Simulates(n, u, p, opt, tt, fl, a, i, k, caps)
  {
    var m, c := u.m, Gen(u.d, u.g, p, opt, tt, fl);
    CodeAtHead(m.code, a, c[0], u.pos);
    var st := Run(a, i, k, caps);
    if p.TSet? {
      CharsetStep(m, a, cs, tt, i, k, caps);
    } else if i < |m.s| {
      assert m.s[i] in FULL;
    }
    assert caps + Flatten([]) == caps;
    m.MeetStep(st);
    OptSim(m, a, a + 1, i, k, caps, AtChar(m.s, i, cs), opt, fl);
  }

  /** Where a usable test on the first set fails, so does the pattern. */
  lemma FirstMiss(n: nat, u: Unit, p: Tree, i: nat)
    requires i <= |u.m.s|
    requires var f := GetFirst(u.d, u.g, p, FULL);
      !f.empty && !(i < |u.m.s| && u.m.s[i] in f.cs)
    ensures !Match(n, u.g, p, u.m.s, i).Ok?
  {
    if i == |u.m.s| {
      FirstFailsAtEnd(u.d, n, u.g, p, FULL, u.m.s);
    } else {
      GetFirstSound(u.d, n, u.g, p, FULL, u.m.s, i);
    }
  }

  lemma WellFormedParts(d: nat, g: seq<Tree>, p: Tree)
    requires WellFormed(d, g, p)
    ensures p.TSeq? ==> WellFormed(d, g, p.sib1) && WellFormed(d, g, p.sib2)
    ensures p.TChoice? ==> WellFormed(d, g, p.alt1) && WellFormed(d, g, p.alt2)
    ensures p.TRep? || p.TNot? || p.TAnd? || p.TCapture? ==> WellFormed(d, g, p.body)
  {
  }

  lemma MatchTrue(n: nat, g: seq<Tree>, p: Tree, s: seq<Byte>, i: nat)
    requires p.TTrue?
    ensures Match(n, g, p, s, i) == Ok(i, [])
  {
  }

  lemma MatchChoice(n: nat, g: seq<Tree>, p1: Tree, p2: Tree, s: seq<Byte>, i: nat)
    ensures Match(n, g, TChoice(p1, p2), s, i) == ChoiceRes(Match(n, g, p1, s, i), Match(n, g, p2, s, i))
  {
  }

  lemma {:induction false} ChoiceByTestCorrect(n: nat, u: Unit, p1: Tree, p2: Tree, opt: bool, tt: Dom, fl: Charset,
                                               a: int, i: nat, k: Stack, caps: seq<Capture>)
    requires Placed(u, TChoice(p1, p2), opt, tt, fl, a, i, k, caps)
    requires ChoiceByTest(u.d, u.g, p1, p2, fl)
    ensures Simulates(n, u, TChoice(p1, p2), opt, tt, fl, a, i, k, caps)
    decreases n, TChoice(p1, p2), 0
  {
    var d, g, m := u.d, u.g, u.m;
    hide Gen, Match, Sim, CodeAt, RulesAt, GetFirst, HeadFail, ChoiceTestCode, CodeTest, TestDom, LevelsWithin,
      Machine.Meet, Machine.Step, Machine.StepInstr, Unwind, Flatten, CheckAux, Span, FixedLen, HasCaptures,
      WellFormed;
    WellFormedParts(d, g, TChoice(p1, p2));
    var f1 := GetFirst(d, g, p1, FULL);
    var r1, r2 := Match(n, g, p1, m.s, i), Match(n, g, p2, m.s, i);
    var tt1 := TestDom(f1.cs, false);
    var c1, c2 := Gen(d, g, p1, false, tt1, fl), Gen(d, g, p2, opt, NoTest, fl);
    GenChoice(d, g, p1, p2, opt, tt, fl);
    MatchChoice(n, g, p1, p2, m.s, i);
    if p2.TTrue? {
      GenTrue(d, g, p2, opt, NoTest, fl);
    }
    ChoiceTestLayout(m.code, a, f1.cs, c1, c2, p2.TTrue?, u.pos);
    var e1 := a + 1 + |c1|;
    var l1 := if p2.TTrue? then e1 else e1 + 1;
    var b := l1 + |c2|;
    if HeadFail(d, g, p1) {
      HeadFailNotEmpty(d, g, p1, FULL);
    }
    if i < |m.s| && m.s[i] in f1.cs {
      TestDominates(f1.cs, false, m.s, i);
      GenCorrect(n, u, p1, false, tt1, fl, a + 1, i, k, caps);
      if HeadFail(d, g, p1) {
        HeadFailSucceeds(d, n, g, p1, FULL, m.s, i);
      } else {
        GetFirstSound(d, n, g, p2, fl, m.s, i);
      }
    } else {
      FirstMiss(n, u, p1, i);
    }
    GenCorrect(n, u, p2, opt, NoTest, fl, l1, i, k, caps);
    ChoiceByTestSim(m, a, e1, l1, b, i, k, caps, f1.cs, r1, r2, opt, fl);
  }

  lemma {:induction false} ChoiceByPartialCorrect(n: nat, u: Unit, p1: Tree, p2: Tree, tt: Dom, fl: Charset,
                                                  a: int, i: nat, k: Stack, caps: seq<Capture>)
    requires Placed(u, TChoice(p1, p2), true, tt, fl, a, i, k, caps)
    requires !ChoiceByTest(u.d, u.g, p1, p2, fl) && p2.TTrue?
    ensures Simulates(n, u, TChoice(p1, p2), true, tt, fl, a, i, k, caps)
    decreases n, TChoice(p1, p2), 0
  {
    var d, g, m := u.d, u.g, u.m;
    hide Gen, Match, Sim, CodeAt, RulesAt, GetFirst, HeadFail, ChoiceTestCode, ChoiceCode, CodeTest, TestDom,
      Machine.Meet, Machine.Step, Machine.StepInstr, Unwind, Flatten, CheckAux, Span, FixedLen, HasCaptures, WellFormed;
    WellFormedParts(d, g, TChoice(p1, p2));
    var c1 := Gen(d, g, p1, true, NoTest, FULL);
    MatchChoice(n, g, p1, p2, m.s, i);
    MatchTrue(n, g, p2, m.s, i);
    GenChoice(d, g, p1, p2, true, tt, fl);
    CodeAtCons(m.code, a, IPartialCommit(1), c1, u.pos);
    var k' := Push(Back(k.top.pc, i, |caps|), k.below);
    GenCorrect(n, u, p1, true, NoTest, FULL, a + 1, i, k', caps);
    ChoiceByPartialSim(m, a, a + 1 + |c1|, i, k, caps, Match(n, g, p1, m.s, i));
  }

  lemma {:induction false} ChoiceByChoiceCorrect(n: nat, u: Unit, p1: Tree, p2: Tree, opt: bool, tt: Dom, fl: Charset,
                                                 a: int, i: nat, k: Stack, caps: seq<Capture>)
    requires Placed(u, TChoice(p1, p2), opt, tt, fl, a, i, k, caps)
    requires !ChoiceByTest(u.d, u.g, p1, p2, fl) && !(opt && p2.TTrue?)
    ensures Simulates(n, u, TChoice(p1, p2), opt, tt, fl, a, i, k, caps)
    decreases n, TChoice(p1, p2), 0
  {
    var d, g, m := u.d, u.g, u.m;
    hide Gen, Match, Sim, CodeAt, RulesAt, GetFirst, HeadFail, ChoiceTestCode, ChoiceCode, CodeTest, TestDom,
      Machine.Meet, Machine.Step, Machine.StepInstr, Unwind, Flatten, CheckAux, Span, FixedLen, HasCaptures,
      WellFormed;
    WellFormedParts(d, g, TChoice(p1, p2));
    var f1 := GetFirst(d, g, p1, FULL);
    var r1, r2 := Match(n, g, p1, m.s, i), Match(n, g, p2, m.s, i);
    var tt1, opt1 := TestDom(f1.cs, f1.empty), p2.TTrue?;
    var c1, c2 := Gen(d, g, p1, opt1, tt1, FULL), Gen(d, g, p2, opt, NoTest, fl);
    GenChoice(d, g, p1, p2, opt, tt, fl);
    MatchChoice(n, g, p1, p2, m.s, i);
    if opt1 {
      GenTrue(d, g, p2, opt, NoTest, fl);
    }
    ChoiceLayout(m.code, a, f1.cs, f1.empty, c1, c2, u.pos);
    var a1 := if f1.empty then a else a + 1;
    var e1 := a1 + 1 + |c1|;
    var b := e1 + 1 + |c2|;
    GenCorrect(n, u, p2, opt, NoTest, fl, e1 + 1, i, k, caps);
    var inFirst := i < |m.s| && m.s[i] in f1.cs;
    if f1.empty || inFirst {
      TestDominates(f1.cs, f1.empty, m.s, i);
      GenCorrect(n, u, p1, opt1, tt1, FULL, a1 + 1, i, Push(Back(e1 + 1, i, |caps|), k), caps);
      ChoiceByChoiceSim(m, a1, e1, b, i, k, caps, r1, r2, opt1, opt, fl);
    }
    if !f1.empty {
      if !inFirst {
        FirstMiss(n, u, p1, i);
        SkipSim(m, e1 + 1, b, i, k, caps, r1, r2, opt, fl);
      }
      TestSkipSim(m, a, e1 + 1, b, i, k, caps, f1.cs, ChoiceRes(r1, r2), opt, fl);
    }
  }

  lemma SkipSim(m: Machine, a: int, b: int, i: nat, k: Stack, caps: seq<Capture>, r1: Res, r2: Res, opt: bool, fl: Charset)
    requires !r1.Ok? && Sim(m, a, b, i, k, caps, r2, opt, fl)
    ensures Sim(m, a, b, i, k, caps, ChoiceRes(r1, r2), opt, fl)
  {
  }

  /** Nothing matched, nothing done: the end of the code is reached at once. */
  lemma EmptySim(m: Machine, b: int, i: nat, k: Stack, caps: seq<Capture>, opt: bool, fl: Charset)
    requires Context(m, b, k, caps, opt, fl)
    ensures Sim(m, b, b, i, k, caps, Ok(i, []), opt, fl)
  {
    assert caps + Flatten([]) == caps;
    ExitMeet(m, b, i, k, caps, caps, opt, fl);
  }

  // ---------- repetition ----------

  function RepRes(r1: Res, i: nat, r2: Res): Res {
    match r1
    case Out => Out
    case Fail => Ok(i, [])
    case Ok(_, f) => if r2.Ok? then Ok(r2.pos, f + r2.caps) else r2
  }

  lemma MatchRep(n: nat, g: seq<Tree>, p1: Tree, s: seq<Byte>, i: nat)
    ensures var r1 := Match(n, g, p1, s, i);
      && !Match(n, g, TRep(p1), s, i).Fail?
      && Match(n, g, TRep(p1), s, i)
        == RepRes(r1, i, if r1.Ok? && n > 0 then Match(n - 1, g, TRep(p1), s, r1.pos) else Out)
  {
    NoFailSucceeds(0, n, g, TRep(p1), s, i);
  }

  lemma {:induction false} RepCorrect(n: nat, u: Unit, p1: Tree, opt: bool, tt: Dom, fl: Charset,
                                      a: int, i: nat, k: Stack, caps: seq<Capture>)
    requires Placed(u, TRep(p1), opt, tt, fl, a, i, k, caps)
    requires !IsCharset(p1) && !RepByTest(u.d, u.g, p1, fl)
    ensures Simulates(n, u, TRep(p1), opt, tt, fl, a, i, k, caps)
    decreases n, TRep(p1), 0
  {
    var d, g, m := u.d, u.g, u.m;
    hide Gen, Match, Sim, CodeAt, RulesAt, GetFirst, HeadFail, RepTestCode, RepCode, CodeTest, TestDom,
      Machine.Meet, Machine.Step, Machine.StepInstr, Unwind, Flatten, CheckAux, Span, FixedLen, HasCaptures,
      WellFormed;
    WellFormedParts(d, g, TRep(p1));
    var f := GetFirst(d, g, p1, FULL);
    var c := Gen(d, g, p1, false, NoTest, FULL);
    GenRep(d, g, p1, opt, tt, fl);
    RepLayout(m.code, a, f.cs, f.empty, c, opt, u.pos);
    MatchRep(n, g, p1, m.s, i);
    var a1 := if f.empty then a else a + 1;
    var b := a1 + |c| + 2;
    var x, k' := if opt then k.top.pc else b, if opt then k.below else k;
    RepLoop(n, u, p1, a1 + 1, b - 1, x, i, k', caps);
    var r := Match(n, g, TRep(p1), m.s, i);
    RepEnterSim(m, a1, b, x, i, k, caps, r, opt, fl);
    if !f.empty {
      if !(i < |m.s| && m.s[i] in f.cs) {
        FirstMiss(n, u, p1, i);
        EmptySim(m, b, i, k, caps, opt, fl);
        OutSim(m, b, b, i, k, caps, opt, fl);
      }
      TestSkipSim(m, a, b, b, i, k, caps, f.cs, r, opt, fl);
    }
  }

  lemma OutSim(m: Machine, a: int, b: int, i: nat, k: Stack, caps: seq<Capture>, opt: bool, fl: Charset)
    ensures Sim(m, a, b, i, k, caps, Out, opt, fl)
  {
  }

  lemma RepEnterSim(m: Machine, a: int, b: int, x: int, i: nat, k: Stack, caps: seq<Capture>, r: Res, opt: bool, fl: Charset)
    requires Context(m, b, k, caps, opt, fl)
    requires 0 <= a < |m.code| && m.code[a] == (if opt then IPartialCommit(1) else IChoice(b - a))
    requires x == if opt then k.top.pc else b
    requires !r.Fail?
    requires LoopEnds(m, a + 1, x, i, if opt then k.below else k, caps, r)
    ensures Sim(m, a, b, i, k, caps, r, opt, fl)
  {
    if r.Ok? {
      m.MeetAfterStep(Run(a, i, k, caps), Exit(opt, b, r.pos, k, caps + Flatten(r.caps)));
    }
  }

  /** From inside a loop, with the choice that ends it on the stack. */
  ghost predicate LoopEnds(m: Machine, l1: int, x: int, i: nat, k: Stack, caps: seq<Capture>, r: Res) {
    r.Ok? ==>
      m.Meet(Run(l1, i, Push(Back(x, i, |caps|), k), caps), Run(x, r.pos, k, caps + Flatten(r.caps)))
  }

  ghost predicate LoopPlaced(u: Unit, p1: Tree, l1: int, e: int, i: nat, k: Stack, caps: seq<Capture>) {
    && i <= |u.m.s| && WellFormed(u.d, u.g, p1) && RulesAt(u.m.code, u.d, u.g, u.pos)
    && LevelsWithin(k, |caps|)
    && e == l1 + |Gen(u.d, u.g, p1, false, NoTest, FULL)|
    && CodeAt(u.m.code, l1, Gen(u.d, u.g, p1, false, NoTest, FULL), u.pos)
    && 0 <= l1 <= e < |u.m.code| && u.m.code[e] == IPartialCommit(l1 - e)
  }

  lemma {:induction false} RepLoop(n: nat, u: Unit, p1: Tree, l1: int, e: int, x: int, i: nat, k: Stack, caps: seq<Capture>)
    requires LoopPlaced(u, p1, l1, e, i, k, caps)
    ensures LoopEnds(u.m, l1, x, i, k, caps, Match(n, u.g, TRep(p1), u.m.s, i))
    decreases n, p1, 2
  {
    hide Gen, Match, Sim, CodeAt, RulesAt, LoopEnds, Flatten, WellFormed, Machine.Meet, Machine.Step,
      Machine.StepInstr, Unwind, CheckAux, Span;
    GenCorrect(n, u, p1, false, NoTest, FULL, l1, i, Push(Back(x, i, |caps|), k), caps);
    var r1 := Match(n, u.g, p1, u.m.s, i);
    MatchRep(n, u.g, p1, u.m.s, i);
    var r2 := if r1.Ok? && n > 0 then Match(n - 1, u.g, TRep(p1), u.m.s, r1.pos) else Out;
    if r1.Ok? {
      var caps1 := caps + Flatten(r1.caps);
      LevelsMono(k, |caps|, |caps1|);
      MatchBounds(n, u.g, p1, u.m.s, i);
      if n > 0 {
        RepLoop(n - 1, u, p1, l1, e, x, r1.pos, k, caps1);
      } else {
        NoLoop(u.m, l1, x, r1.pos, k, caps1);
      }
    }
    LoopStep(u.m, l1, e, x, i, k, caps, r1, r2);
  }

  lemma NoLoop(m: Machine, l1: int, x: int, i: nat, k: Stack, caps: seq<Capture>)
    ensures LoopEnds(m, l1, x, i, k, caps, Out)
  {
  }

  lemma MatchBounds(n: nat, g: seq<Tree>, p: Tree, s: seq<Byte>, i: nat)
    ensures var r := Match(n, g, p, s, i); r.Ok? ==> i <= r.pos && (i <= |s| ==> r.pos <= |s|)
  {
  }

  lemma LoopStep(m: Machine, l1: int, e: int, x: int, i: nat, k: Stack, caps: seq<Capture>, r1: Res, r2: Res)
    requires LevelsWithin(k, |caps|)
    requires 0 <= e < |m.code| && m.code[e] == IPartialCommit(l1 - e)
    requires Sim(m, l1, e, i, Push(Back(x, i, |caps|), k), caps, r1, false, FULL)
    requires r1.Ok? ==> LoopEnds(m, l1, x, r1.pos, k, caps + Flatten(r1.caps), r2)
    ensures LoopEnds(m, l1, x, i, k, caps, RepRes(r1, i, r2))
  {
    var k1 := Push(Back(x, i, |caps|), k);
    var st := Run(l1, i, k1, caps);
    if r1.Fail? {
      assert caps[..|caps|] == caps == caps + Flatten([]);
    } else if r1.Ok? && r2.Ok? {
      assert !Outside(m.s, r1.pos, FULL);
      var caps1 := caps + Flatten(r1.caps);
      var y := Run(e, r1.pos, k1, caps1);
      assert m.Step(y) == Run(l1, r1.pos, Push(Back(x, r1.pos, |caps1|), k), caps1);
      hide Flatten, Machine.Step, Machine.StepInstr, Machine.Meet, Unwind;
      FlattenConcat(r1.caps, r2.caps);
      var z := Run(x, r2.pos, k, caps1 + Flatten(r2.caps));
      Reassociate(caps, Flatten(r1.caps), Flatten(r2.caps));
      m.MeetAfterStep(y, z);
      m.MeetTrans(st, y, z);
    }
  }

  lemma {:induction false} RepByTestCorrect(n: nat, u: Unit, p1: Tree, opt: bool, tt: Dom, fl: Charset,
                                            a: int, i: nat, k: Stack, caps: seq<Capture>)
    requires Placed(u, TRep(p1), opt, tt, fl, a, i, k, caps)
    requires !IsCharset(p1) && RepByTest(u.d, u.g, p1, fl)
    ensures Simulates(n, u, TRep(p1), opt, tt, fl, a, i, k, caps)
    decreases n, TRep(p1), 0
  {
    var d, g, m := u.d, u.g, u.m;
    hide Gen, Match, Sim, CodeAt, RulesAt, GetFirst, HeadFail, RepTestCode, RepCode, CodeTest, TestDom, Flatten,
      Machine.Meet, Machine.Step, Machine.StepInstr, Unwind, CheckAux, Span, FixedLen, HasCaptures, LevelsWithin,
      WellFormed;
    WellFormedParts(d, g, TRep(p1));
    var f := GetFirst(d, g, p1, FULL);
    if HeadFail(d, g, p1) {
      HeadFailNotEmpty(d, g, p1, FULL);
    }
    var tt1 := TestDom(f.cs, false);
    var c := Gen(d, g, p1, false, tt1, FULL);
    GenRep(d, g, p1, opt, tt, fl);
    GenRep(d, g, p1, opt, NoTest, fl);
    RepTestLayout(m.code, a, f.cs, c, u.pos);
    MatchRep(n, g, p1, m.s, i);
    var e, b := a + 1 + |c|, a + |c| + 2;
    var r1 := Match(n, g, p1, m.s, i);
    var r2 := if r1.Ok? && n > 0 then Match(n - 1, g, TRep(p1), m.s, r1.pos) else Out;
    if i < |m.s| && m.s[i] in f.cs {
      TestDominates(f.cs, false, m.s, i);
      GenCorrect(n, u, p1, false, tt1, FULL, a + 1, i, k, caps);
      if HeadFail(d, g, p1) {
        HeadFailSucceeds(d, n, g, p1, FULL, m.s, i);
      }
      if r1.Ok? {
        var caps1 := caps + Flatten(r1.caps);
        LevelsMono(k, |caps|, |caps1|);
        MatchBounds(n, g, p1, m.s, i);
        if n > 0 {
          RepByTestCorrect(n - 1, u, p1, opt, NoTest, fl, a, r1.pos, k, caps1);
        } else {
          OutSim(m, a, b, r1.pos, k, caps1, opt, fl);
        }
      }
      RepByTestSim(m, a, e, b, i, k, caps, r1, r2, opt, fl);
    } else {
      FirstMiss(n, u, p1, i);
      EmptySim(m, b, i, k, caps, opt, fl);
      OutSim(m, b, b, i, k, caps, opt, fl);
    }
    TestSkipSim(m, a, b, b, i, k, caps, f.cs, Match(n, g, TRep(p1), m.s, i), opt, fl);
  }

  /** One round of a loop that needs no choice: where its body fails after the
      test succeeded, whatever follows the loop fails as well. */
  lemma RepByTestSim(m: Machine, a: int, e: int, b: int, i: nat, k: Stack, caps: seq<Capture>, r1: Res, r2: Res,
                     opt: bool, fl: Charset)
    requires Context(m, b, k, caps, opt, fl)
    requires 0 <= e < |m.code| && m.code[e] == IJmp(a - e)
    requires Sim(m, a + 1, e, i, k, caps, r1, false, FULL)
    requires r1.Fail? ==> Outside(m.s, i, fl)
    requires r1.Ok? ==> Sim(m, a, b, r1.pos, k, caps + Flatten(r1.caps), r2, opt, fl)
    requires !r2.Fail?
    ensures Sim(m, a + 1, b, i, k, caps, RepRes(r1, i, r2), opt, fl)
  {
    if r1.Ok? && r2.Ok? {
      assert !Outside(m.s, r1.pos, FULL);
      var caps1 := caps + Flatten(r1.caps);
      var st, y := Run(a + 1, i, k, caps), Run(a, r1.pos, k, caps1);
      m.MeetStep(Run(e, r1.pos, k, caps1));
      assert m.Step(Run(e, r1.pos, k, caps1)) == y;
      hide Flatten, Machine.Step, Machine.StepInstr, Machine.Meet, Unwind;
      m.MeetTrans(st, Run(e, r1.pos, k, caps1), y);
      FlattenConcat(r1.caps, r2.caps);
      Reassociate(caps, Flatten(r1.caps), Flatten(r2.caps));
      UnwindForgets(k, caps, Flatten(r1.caps));
      var x := Exit(opt, b, r2.pos, k, caps1 + Flatten(r2.caps));
      if m.Meet(y, x) {
        m.MeetTrans(st, y, x);
      } else {
        m.MeetTrans(st, y, Unwind(k, caps));
      }
    }
  }

  lemma SpanCorrect(n: nat, u: Unit, p1: Tree, opt: bool, tt: Dom, fl: Charset,
                    a: int, i: nat, k: Stack, caps: seq<Capture>)
    requires Placed(u, TRep(p1), opt, tt, fl, a, i, k, caps)
    requires IsCharset(p1)
    ensures Simulates(n, u, TRep(p1), opt, tt, fl, a, i, k, caps)
  {
    hide Gen, Match, RulesAt;
    GenRep(u.d, u.g, p1, opt, tt, fl);
    CodeAtHead(u.m.code, a, ISpan(ToCharset(p1)), u.pos);
    SpanMatch(n, u.g, p1, u.m.s, i);
    assert caps + Flatten([]) == caps;
    u.m.MeetStep(Run(a, i, k, caps));
    OptSim(u.m, a, a + 1, i, k, caps, Match(n, u.g, TRep(p1), u.m.s, i), opt, fl);
  }

  /** Repeating a set of characters spans the longest run of them. */
  lemma {:induction false} SpanMatch(n: nat, g: seq<Tree>, p1: Tree, s: seq<Byte>, i: nat)
    requires IsCharset(p1) && i <= |s|
    ensures var r := Match(n, g, TRep(p1), s, i);
      r.Out? || r == Ok(Span(s, i, ToCharset(p1)), [])
    decreases n
  {
    var cs := ToCharset(p1);
    CharsetMatch(n, g, p1, s, i);
    MatchRep(n, g, p1, s, i);
    if i < |s| && s[i] in cs {
      if n > 0 {
        SpanMatch(n - 1, g, p1, s, i + 1);
      }
    }
  }

  lemma CharsetMatch(n: nat, g: seq<Tree>, p1: Tree, s: seq<Byte>, i: nat)
    requires IsCharset(p1)
    ensures Match(n, g, p1, s, i) == AtChar(s, i, ToCharset(p1))
  {
  }

  // ---------- predicates, captures, sequences ----------

  lemma {:induction false} BehindCorrect(n: nat, u: Unit, j: nat, p1: Tree, opt: bool, tt: Dom, fl: Charset,
                                         a: int, i: nat, k: Stack, caps: seq<Capture>)
    requires Placed(u, TBehind(j, p1), opt, tt, fl, a, i, k, caps)
    ensures Simulates(n, u, TBehind(j, p1), opt, tt, fl, a, i, k, caps)
    decreases n, TBehind(j, p1), 0
  {
    var m, c := u.m, Gen(u.d, u.g, p1, false, NoTest, FULL);
    MatchBehind(n, u.g, j, p1, m.s, i);
    hide Gen, Match, Sim, CodeAt, RulesAt, FixedLen, HasCaptures, Machine.Meet, Machine.Step, Machine.StepInstr,
      Unwind, CheckAux, Span, GetFirst, HeadFail;
    GenBehind(u.d, u.g, j, p1, opt, tt, fl);
    CodeAtSplit(m.code, a, BehindInstr(j), c, u.pos);
    if j > 0 {
      CodeAtHead(m.code, a, IBehind(j), u.pos);
    }
    var a1 := if j > 0 then a + 1 else a;
    var r := if j <= i then Match(n, u.g, p1, m.s, i - j) else Fail;
    if j <= i {
      GenCorrect(n, u, p1, false, NoTest, FULL, a1, i - j, k, caps);
      FixedLenOpen(u.d, u.g, p1);
      FixedLenExact(u.d, n, u.g, p1, {}, m.s, i - j);
      NoCapturesOpen(u.d, n, u.g, p1, m.s, i - j);
    }
    BehindSim(m, a, a1 + |c|, j, i, k, caps, r, fl);
    OptSim(m, a, a1 + |c|, i, k, caps, r, opt, fl);
  }

  lemma MatchBehind(n: nat, g: seq<Tree>, j: nat, p1: Tree, s: seq<Byte>, i: nat)
    ensures Match(n, g, TBehind(j, p1), s, i) == if j > i then Fail else AndRes(Match(n, g, p1, s, i - j), i)
  {
  }

  lemma MatchNot(n: nat, g: seq<Tree>, p1: Tree, s: seq<Byte>, i: nat)
    ensures Match(n, g, TNot(p1), s, i) == NotRes(Match(n, g, p1, s, i), i)
  {
  }

  lemma {:induction false} NotByTestCorrect(n: nat, u: Unit, p1: Tree, opt: bool, tt: Dom, fl: Charset,
                                      a: int, i: nat, k: Stack, caps: seq<Capture>)
    requires Placed(u, TNot(p1), opt, tt, fl, a, i, k, caps)
    requires HeadFail(u.d, u.g, p1)
    ensures Simulates(n, u, TNot(p1), opt, tt, fl, a, i, k, caps)
    decreases n, TNot(p1), 0
  {
    var d, g, m := u.d, u.g, u.m;
    hide Gen, Match, Sim, CodeAt, RulesAt, GetFirst, HeadFail, NotCode, CodeTest, Machine.Meet, Machine.Step,
      Machine.StepInstr, Unwind, Flatten, CheckAux, Span, FixedLen, HasCaptures, WellFormed;
    WellFormedParts(d, g, TNot(p1));
    var f := GetFirst(d, g, p1, FULL);
    var r1 := Match(n, g, p1, m.s, i);
    GenNot(d, g, p1, opt, tt, fl);
    MatchNot(n, g, p1, m.s, i);
    var b := a + |Gen(d, g, TNot(p1), opt, tt, fl)|;
    var inFirst := i < |m.s| && m.s[i] in f.cs;
    HeadFailNotEmpty(d, g, p1, FULL);
    if !f.empty && !inFirst {
      FirstMiss(n, u, p1, i);
      SkipNotSim(m, b, i, k, caps, r1, fl);
    }
    TestSetLayout(m.code, a, f.cs, false, 2, [IFail], u.pos);
    CodeAtHead(m.code, a + 1, IFail, u.pos);
    if inFirst {
      HeadFailSucceeds(d, n, g, p1, FULL, m.s, i);
      FailSim(m, a + 1, b, i, k, caps, fl);
      OutSim(m, a + 1, b, i, k, caps, false, fl);
    }
    TestSkipSim(m, a, b, b, i, k, caps, f.cs, NotRes(r1, i), false, fl);
    OptSim(m, a, b, i, k, caps, NotRes(r1, i), opt, fl);
  }

  lemma {:induction false} NotCorrect(n: nat, u: Unit, p1: Tree, opt: bool, tt: Dom, fl: Charset,
                                      a: int, i: nat, k: Stack, caps: seq<Capture>)
    requires Placed(u, TNot(p1), opt, tt, fl, a, i, k, caps)
    requires !HeadFail(u.d, u.g, p1)
    ensures Simulates(n, u, TNot(p1), opt, tt, fl, a, i, k, caps)
    decreases n, TNot(p1), 0
  {
    var d, g, m := u.d, u.g, u.m;
    hide Gen, Match, Sim, CodeAt, RulesAt, GetFirst, HeadFail, NotCode, CodeTest, Machine.Meet, Machine.Step,
      Machine.StepInstr, Unwind, Flatten, CheckAux, Span, FixedLen, HasCaptures, WellFormed;
    WellFormedParts(d, g, TNot(p1));
    var f := GetFirst(d, g, p1, FULL);
    var r1 := Match(n, g, p1, m.s, i);
    GenNot(d, g, p1, opt, tt, fl);
    MatchNot(n, g, p1, m.s, i);
    var b := a + |Gen(d, g, TNot(p1), opt, tt, fl)|;
    var inFirst := i < |m.s| && m.s[i] in f.cs;
    if !f.empty && !inFirst {
      FirstMiss(n, u, p1, i);
      SkipNotSim(m, b, i, k, caps, r1, fl);
    }
    var c := Gen(d, g, p1, false, NoTest, FULL);
    NotLayout(m.code, a, f.cs, f.empty, c, u.pos);
    var a1 := if f.empty then a else a + 1;
    GenCorrect(n, u, p1, false, NoTest, FULL, a1 + 1, i, Push(Back(b, i, |caps|), k), caps);
    NotSim(m, a1, b - 1, i, k, caps, r1, fl);
    if !f.empty {
      TestSkipSim(m, a, b, b, i, k, caps, f.cs, NotRes(r1, i), false, fl);
    }
    OptSim(m, a, b, i, k, caps, NotRes(r1, i), opt, fl);
  }

  lemma SkipNotSim(m: Machine, b: int, i: nat, k: Stack, caps: seq<Capture>, r1: Res, fl: Charset)
    requires !r1.Ok?
    ensures Sim(m, b, b, i, k, caps, NotRes(r1, i), false, fl)
  {
    assert caps + Flatten([]) == caps;
    m.MeetRefl(Run(b, i, k, caps));
  }

  lemma FailSim(m: Machine, a: int, b: int, i: nat, k: Stack, caps: seq<Capture>, fl: Charset)
    requires 0 <= a < |m.code| && m.code[a] == IFail
    ensures Sim(m, a, b, i, k, caps, Fail, false, fl)
  {
    m.MeetStep(Run(a, i, k, caps));
  }

  lemma MatchAnd(n: nat, g: seq<Tree>, p1: Tree, s: seq<Byte>, i: nat)
    ensures Match(n, g, TAnd(p1), s, i) == AndRes(Match(n, g, p1, s, i), i)
  {
  }

  lemma {:induction false} AndCorrect(n: nat, u: Unit, p1: Tree, opt: bool, tt: Dom, fl: Charset,
                                      a: int, i: nat, k: Stack, caps: seq<Capture>)
    requires Placed(u, TAnd(p1), opt, tt, fl, a, i, k, caps)
    ensures Simulates(n, u, TAnd(p1), opt, tt, fl, a, i, k, caps)
    decreases n, TAnd(p1), 0
  {
    var d, g, m := u.d, u.g, u.m;
    hide Gen, Match, Sim, CodeAt, RulesAt, FixedLen, HasCaptures, AndCode, Machine.Meet, Machine.Step,
      Machine.StepInstr, Unwind, CheckAux, Span, GetFirst, HeadFail, WellFormed;
    WellFormedParts(d, g, TAnd(p1));
    var c := Gen(d, g, p1, false, tt, FULL);
    var r1 := Match(n, g, p1, m.s, i);
    GenAnd(d, g, p1, opt, tt, fl);
    MatchAnd(n, g, p1, m.s, i);
    var b := a + |Gen(d, g, TAnd(p1), opt, tt, fl)|;
    if AndByLength(d, g, p1) {
      var len := FixedLen(d, g, p1, {});
      CodeAtSplit(m.code, a, c, BehindInstr(len), u.pos);
      if len > 0 {
        CodeAtHead(m.code, a + |c|, IBehind(len), u.pos);
      }
      GenCorrect(n, u, p1, false, tt, FULL, a, i, k, caps);
      FixedLenExact(d, n, g, p1, {}, m.s, i);
      NoCapturesYieldsNone(d, n, g, p1, m.s, i);
      AndByLengthSim(m, a, a + |c|, len, i, k, caps, r1, fl);
    } else {
      AndLayout(m.code, a, c, u.pos);
      var e := a + 1 + |c|;
      GenCorrect(n, u, p1, false, tt, FULL, a + 1, i, Push(Back(e + 1, i, |caps|), k), caps);
      AndSim(m, a, e, i, k, caps, r1, fl);
    }
    OptSim(m, a, b, i, k, caps, AndRes(r1, i), opt, fl);
  }

  lemma MatchCapture(n: nat, g: seq<Tree>, kind: CapKind, key: nat, p1: Tree, s: seq<Byte>, i: nat)
    ensures Match(n, g, TCapture(kind, key, p1), s, i) == CaptureRes(Match(n, g, p1, s, i), kind, key, i)
  {
  }

  lemma {:induction false} FullCaptureCorrect(n: nat, u: Unit, kind: CapKind, key: nat, p1: Tree, opt: bool, tt: Dom, fl: Charset,
                                              a: int, i: nat, k: Stack, caps: seq<Capture>)
    requires Placed(u, TCapture(kind, key, p1), opt, tt, fl, a, i, k, caps)
    requires FullCapture(u.d, u.g, p1)
    ensures Simulates(n, u, TCapture(kind, key, p1), opt, tt, fl, a, i, k, caps)
    decreases n, TCapture(kind, key, p1), 0
  {
    var d, g, m := u.d, u.g, u.m;
    hide Gen, Match, Sim, CodeAt, RulesAt, FixedLen, HasCaptures, Machine.Meet, Machine.Step, Machine.StepInstr,
      Unwind, CheckAux, Span, GetFirst, HeadFail, WellFormed;
    WellFormedParts(d, g, TCapture(kind, key, p1));
    var c := Gen(d, g, p1, false, tt, fl);
    var r1 := Match(n, g, p1, m.s, i);
    GenCapture(d, g, kind, key, p1, opt, tt, fl);
    MatchCapture(n, g, kind, key, p1, m.s, i);
    var len := FixedLen(d, g, p1, {});
    CodeAtSnoc(m.code, a, c, IFullCapture(kind, key, len), u.pos);
    GenCorrect(n, u, p1, false, tt, fl, a, i, k, caps);
    FixedLenExact(d, n, g, p1, {}, m.s, i);
    NoCapturesYieldsNone(d, n, g, p1, m.s, i);
    FullCaptureSim(m, a, a + |c|, kind, key, len, i, k, caps, r1, fl);
    OptSim(m, a, a + |c| + 1, i, k, caps, CaptureRes(r1, kind, key, i), opt, fl);
  }

  lemma {:induction false} OpenCaptureCorrect(n: nat, u: Unit, kind: CapKind, key: nat, p1: Tree, opt: bool, tt: Dom, fl: Charset,
                                              a: int, i: nat, k: Stack, caps: seq<Capture>)
    requires Placed(u, TCapture(kind, key, p1), opt, tt, fl, a, i, k, caps)
    requires !FullCapture(u.d, u.g, p1)
    ensures Simulates(n, u, TCapture(kind, key, p1), opt, tt, fl, a, i, k, caps)
    decreases n, TCapture(kind, key, p1), 0
  {
    var d, g, m := u.d, u.g, u.m;
    hide Gen, Match, Sim, CodeAt, RulesAt, FixedLen, HasCaptures, Machine.Meet, Machine.Step, Machine.StepInstr,
      Unwind, CheckAux, Span, GetFirst, HeadFail, WellFormed;
    WellFormedParts(d, g, TCapture(kind, key, p1));
    var c := Gen(d, g, p1, false, tt, fl);
    var r1 := Match(n, g, p1, m.s, i);
    GenCapture(d, g, kind, key, p1, opt, tt, fl);
    MatchCapture(n, g, kind, key, p1, m.s, i);
    MatchBounds(n, g, p1, m.s, i);
    BracketLayout(m.code, a, IOpenCapture(kind, key), c, ICloseCapture, u.pos);
    var caps1 := caps + [Capture(kind, key, i, 0)];
    LevelsMono(k, |caps|, |caps1|);
    GenCorrect(n, u, p1, false, tt, fl, a + 1, i, k, caps1);
    OpenCloseSim(m, a, a + 1 + |c|, kind, key, i, k, caps, r1, fl);
    OptSim(m, a, a + |c| + 2, i, k, caps, CaptureRes(r1, kind, key, i), opt, fl);
  }

  lemma MatchSeq(n: nat, g: seq<Tree>, p1: Tree, p2: Tree, s: seq<Byte>, i: nat)
    ensures var r1 := Match(n, g, p1, s, i);
      Match(n, g, TSeq(p1, p2), s, i) == SeqRes(r1, if r1.Ok? then Match(n, g, p2, s, r1.pos) else r1)
  {
  }

  lemma {:induction false} SeqCorrect(n: nat, u: Unit, p1: Tree, p2: Tree, opt: bool, tt: Dom, fl: Charset,
                                      a: int, i: nat, k: Stack, caps: seq<Capture>)
    requires Placed(u, TSeq(p1, p2), opt, tt, fl, a, i, k, caps)
    ensures Simulates(n, u, TSeq(p1, p2), opt, tt, fl, a, i, k, caps)
    decreases n, TSeq(p1, p2), 0
  {
    var d, g, m := u.d, u.g, u.m;
    hide Gen, Match, Sim, CodeAt, RulesAt, FixedLen, GetFirst, Flatten, Machine.Meet, Machine.Step,
      Machine.StepInstr, Unwind, CheckAux, Span, HeadFail, WellFormed;
    WellFormedParts(d, g, TSeq(p1, p2));
    var fl1, tt2 := SeqFollow(d, g, p1, p2, fl), SeqTest(d, g, p1, tt);
    var c1, c2 := Gen(d, g, p1, false, tt, fl1), Gen(d, g, p2, opt, tt2, fl);
    GenSeq(d, g, p1, p2, opt, tt, fl);
    MatchSeq(n, g, p1, p2, m.s, i);
    CodeAtSplit(m.code, a, c1, c2, u.pos);
    GenCorrect(n, u, p1, false, tt, fl1, a, i, k, caps);
    var r1 := Match(n, g, p1, m.s, i);
    var r2 := if r1.Ok? then Match(n, g, p2, m.s, r1.pos) else r1;
    if r1.Ok? {
      var caps1 := caps + Flatten(r1.caps);
      LevelsMono(k, |caps|, |caps1|);
      MatchBounds(n, g, p1, m.s, i);
      if FixedLen(d, g, p1, {}) == 0 {
        FixedLenExact(d, n, g, p1, {}, m.s, i);
      }
      GenCorrect(n, u, p2, opt, tt2, fl, a + |c1|, r1.pos, k, caps1);
      if Outside(m.s, r1.pos, fl1) {
        GetFirstSound(d, n, g, p2, fl, m.s, r1.pos);
      }
    }
    SeqSim(m, a, a + |c1|, a + |c1| + |c2|, i, k, caps, r1, r2, opt, fl1, fl);
  }

  // ---------- calls and grammars ----------

  lemma MatchCall(n: nat, g: seq<Tree>, r: nat, s: seq<Byte>, i: nat)
    requires r < |g|
    ensures Match(n, g, TCall(r), s, i) == if n > 0 then Match(n - 1, g, g[r], s, i) else Out
  {
  }

  lemma RuleLookup(u: Unit, r: nat)
    requires r < |u.g| && RulesAt(u.m.code, u.d, u.g, u.pos)
    ensures var c := Gen(u.d, u.g, u.g[r], false, NoTest, FULL);
      && |u.pos| == |u.g| && WellFormed(u.d, u.g, u.g[r])
      && CodeAt(u.m.code, u.pos[r], c, u.pos)
      && 0 <= u.pos[r] + |c| < |u.m.code| && u.m.code[u.pos[r] + |c|] == IRet
  {
    hide Gen, CodeAt;
    assert RuleAt(u.m.code, u.d, u.g, u.pos, r);
    GenRuleIs(u.d, u.g, r);
    CodeAtSnoc(u.m.code, u.pos[r], Gen(u.d, u.g, u.g[r], false, NoTest, FULL), IRet, u.pos);
  }

  lemma {:induction false} CallCorrect(n: nat, u: Unit, r: nat, opt: bool, tt: Dom, fl: Charset,
                                       a: int, i: nat, k: Stack, caps: seq<Capture>)
    requires Placed(u, TCall(r), opt, tt, fl, a, i, k, caps)
    ensures Simulates(n, u, TCall(r), opt, tt, fl, a, i, k, caps)
    decreases n, TCall(r), 0
  {
    var d, g, m := u.d, u.g, u.m;
    hide Gen, Match, Sim, CodeAt, RulesAt;
    GenCall(d, g, r, opt, tt, fl);
    MatchCall(n, g, r, m.s, i);
    RuleLookup(u, r);
    CodeAtHead(m.code, a, IOpenCall(r), u.pos);
    var q, e := u.pos[r], u.pos[r] + |Gen(d, g, g[r], false, NoTest, FULL)|;
    if n > 0 {
      var res := Match(n - 1, g, g[r], m.s, i);
      if m.code[a].ICall? {
        GenCorrect(n - 1, u, g[r], false, NoTest, FULL, q, i, Push(Return(a + 1), k), caps);
        CallSim(m, a, q, e, i, k, caps, res);
      } else {
        GenCorrect(n - 1, u, g[r], false, NoTest, FULL, q, i, k, caps);
        TailCallSim(m, a, q, e, i, k, caps, res);
      }
      FullSim(m, a, a + 1, i, k, caps, res, fl);
      OptSim(m, a, a + 1, i, k, caps, res, opt, fl);
    } else {
      OutSim(m, a, a + 1, i, k, caps, opt, fl);
    }
  }

  /** Code that does not depend on what follows is correct for every follow set. */
  lemma FullSim(m: Machine, a: int, b: int, i: nat, k: Stack, caps: seq<Capture>, r: Res, fl: Charset)
    requires Sim(m, a, b, i, k, caps, r, false, FULL)
    ensures Sim(m, a, b, i, k, caps, r, false, fl)
  {
    if r.Ok? {
      assert !Outside(m.s, r.pos, FULL);
    }
  }

  lemma MatchGrammar(n: nat, g: seq<Tree>, rules: seq<Tree>, s: seq<Byte>, i: nat)
    requires rules != []
    ensures Match(n, g, TGrammar(rules), s, i) == Match(n, rules, rules[0], s, i)
  {
  }

  lemma {:induction false} GrammarCorrect(n: nat, u: Unit, rules: seq<Tree>, opt: bool, tt: Dom, fl: Charset,
                                          a: int, i: nat, k: Stack, caps: seq<Capture>)
    requires Placed(u, TGrammar(rules), opt, tt, fl, a, i, k, caps)
    ensures Simulates(n, u, TGrammar(rules), opt, tt, fl, a, i, k, caps)
    decreases n, TGrammar(rules), 0
  {
    var d, m := u.d, u.m;
    hide Gen, Match, Sim, CodeAt, RulesAt, GrammarBody, RulePositions, GrammarCode;
    var body := GrammarBody(d, rules);
    var b := a + 2 + |body|;
    GenGrammar(d, u.g, rules, opt, tt, fl);
    MatchGrammar(n, u.g, rules, m.s, i);
    GrammarCodeLayout(m.code, a, d, rules, u.pos);
    var pos := seq(|rules|, r requires 0 <= r < |rules| => a + 2 + RulePositions(d, rules, |rules|)[r]);
    GrammarLayout(m.code, a + 2, d, rules, pos);
    var u' := Unit(d, rules, m, pos);
    RuleLookup(u', 0);
    var e := a + 2 + |Gen(d, rules, rules[0], false, NoTest, FULL)|;
    GenCorrect(n, u', rules[0], false, NoTest, FULL, a + 2, i, Push(Return(a + 1), k), caps);
    var r := Match(n, rules, rules[0], m.s, i);
    CallSim(m, a, a + 2, e, i, k, caps, r);
    FullSim(m, a, a + 1, i, k, caps, r, fl);
    if r.Ok? {
      JumpMeet(m, a + 1, b, r.pos, k, caps + Flatten(r.caps), caps, opt, fl);
    }
    EndSim(m, a, a + 1, b, i, k, caps, r, opt, fl);
  }
}
