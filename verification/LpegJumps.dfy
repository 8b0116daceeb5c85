/** Compiled code has no cycle of bare jumps.

    Both loops of the compiler that follow chains of jumps therefore end.  A cycle
    could only arise from tail calls, and one of those would be a left
    recursion. */
module LpegJumps {
  import opened LpegTree
  import opened LpegAnalysis
  import opened LpegVm
  import opened LpegCodegen
  import opened LpegCorrect
  import opened LpegLayout
  import opened LpegGrammar

  lemma HereResolves(code: seq<Instr>, x: int)
    requires 0 <= x < |code| && !code[x].IJmp?
    ensures Resolves(code, x)
  {
    assert Lands(code, x, 0);
  }

  lemma JumpResolves(code: seq<Instr>, x: int, y: int)
    requires 0 <= x < |code| && (code[x].IJmp? ==> code[x] == IJmp(y - x) && Resolves(code, y))
    ensures Resolves(code, x)
  {
    if code[x].IJmp? {
      var f: nat :| Lands(code, y, f);
      assert Lands(code, x, f + 1);
    } else {
      HereResolves(code, x);
    }
  }

  lemma TestResolves(code: seq<Instr>, x: int, cs: Charset, y: int)
    requires 0 <= x < |code| && code[x] == CodeTest(cs, y - x)
    requires Resolves(code, y)
    ensures Resolves(code, x)
  {
    JumpResolves(code, x, y);
  }

  lemma {:induction false} LandsShift(code: seq<Instr>, a: int, c: seq<Instr>, x: int, f: nat)
    requires Literally(code, a, c) && Lands(c, x, f)
    ensures Lands(code, a + x, f)
    decreases f
  {
    if 0 <= x < |c| {
      assert code[a + x] == code[a..a + |c|][x];
      if f > 0 && c[x].IJmp? {
        LandsShift(code, a, c, x + c[x].off, f - 1);
      }
    }
  }

  /** Code that stands in a larger program, with its rules. */
  ghost predicate Standing(code: seq<Instr>, d: nat, g: seq<Tree>, pos: seq<int>, p: Tree, opt: bool, tt: Dom, fl: Charset, a: int) {
    && CodeAt(code, a, Gen(d, g, p, opt, tt, fl), pos)
    && RulesAt(code, d, g, pos)
    && BehindUnfolds(g, p)
    && forall r: nat :: r < |g| ==> BehindUnfolds(g, g[r])
  }

  /** The verdict lets control pass `p` without consuming only when the end of its
      code resolves.  `inside` look-behind the calls left are those that may be passed. */
  ghost predicate EndResolves(code: seq<Instr>, d: nat, g: seq<Tree>, p: Tree, passed: int, inside: bool, nb: bool, b: int)
    requires -1 <= passed <= MAXRULES
  {
    var v := VerifyRule(true, d, g, p, passed, nb);
    && v.Pass? && (v.nb ==> Resolves(code, b))
    && (inside ==> Unfolds(MAXRULES - passed, g, p))
  }

  /** The first instruction of the code of a verified pattern resolves. */
  lemma {:induction false} StartResolves(code: seq<Instr>, d: nat, g: seq<Tree>, pos: seq<int>, p: Tree, opt: bool, tt: Dom,
                                         fl: Charset, a: int, passed: int, inside: bool, nb: bool)
    requires -1 <= passed <= MAXRULES
    requires Standing(code, d, g, pos, p, opt, tt, fl, a)
    requires EndResolves(code, d, g, p, passed, inside, nb, a + |Gen(d, g, p, opt, tt, fl)|)
    ensures Resolves(code, a)
    decreases if inside then 0 else 1, MAXRULES - passed, p, 1
  {
    hide Gen, CodeAt, RulesAt, GetFirst, HeadFail, FixedLen, HasCaptures, CheckAux, CodeTest, ChoiceTestCode, ChoiceCode,
      RepTestCode, RepCode, NotCode, AndCode, GrammarCode, TestDom, Resolves;
    var b := a + |Gen(d, g, p, opt, tt, fl)|;
    match p
    case TChoice(p1, p2) => StartChoice(code, d, g, pos, p1, p2, opt, tt, fl, a, passed, inside, nb);
    case TRep(p1) =>
      VerdictAccumulates(d, g, p1, passed);
      StartRep(code, d, g, pos, p1, opt, tt, fl, a, b);
    case TNot(p1) =>
      VerdictAccumulates(d, g, p1, passed);
      StartNot(code, d, g, pos, p1, opt, tt, fl, a, b);
    case TAnd(p1) => StartAnd(code, d, g, pos, p1, opt, tt, fl, a, passed, inside, nb);
    case TCapture(kind, key, p1) =>
      GenCapture(d, g, kind, key, p1, opt, tt, fl);
      var c := Gen(d, g, p1, false, tt, fl);
      if FullCapture(d, g, p1) {
        var ins := IFullCapture(kind, key, FixedLen(d, g, p1, {}));
        CodeAtSnoc(code, a, c, ins, pos);
        HereResolves(code, a + |c|);
        StartResolves(code, d, g, pos, p1, false, tt, fl, a, passed, inside, nb);
      } else {
        BracketLayout(code, a, IOpenCapture(kind, key), c, ICloseCapture, pos);
        HereResolves(code, a);
      }
    case TBehind(n, p1) => StartBehind(code, d, g, pos, n, p1, opt, tt, fl, a, passed, inside, nb);
    case TSeq(p1, p2) => StartSeq(code, d, g, pos, p1, p2, opt, tt, fl, a, passed, inside, nb);
    case TCall(r) =>
      GenCall(d, g, r, opt, tt, fl);
      CodeAtHead(code, a, IOpenCall(r), pos);
      RuleStands(code, d, g, pos, r);
      var c := Gen(d, g, g[r], false, NoTest, FULL);
      HereResolves(code, pos[r] + |c|);
      StartResolves(code, d, g, pos, g[r], false, NoTest, FULL, pos[r], passed + 1, inside, nb);
      JumpResolves(code, a, pos[r]);
    case TGrammar(rules) =>
      GenGrammar(d, g, rules, opt, tt, fl);
      GrammarCodeLayout(code, a, d, rules, pos);
      HereResolves(code, a);
    case _ =>
      if p.TTrue? {
        GenTrue(d, g, p, opt, tt, fl);
      }
      StartLeaf(code, d, g, pos, p, opt, tt, fl, a);
  }

  lemma {:induction false} StartBehind(code: seq<Instr>, d: nat, g: seq<Tree>, pos: seq<int>, n: nat, p1: Tree, opt: bool,
                                       tt: Dom, fl: Charset, a: int, passed: int, inside: bool, nb: bool)
    requires -1 <= passed <= MAXRULES
    requires Standing(code, d, g, pos, TBehind(n, p1), opt, tt, fl, a)
    requires EndResolves(code, d, g, TBehind(n, p1), passed, inside, nb, a + |Gen(d, g, TBehind(n, p1), opt, tt, fl)|)
    ensures Resolves(code, a)
    decreases if inside then 0 else 1, MAXRULES - passed, TBehind(n, p1), 0
  {
    hide Gen, CodeAt, RulesAt, GetFirst, HeadFail, FixedLen, HasCaptures, CheckAux, CodeTest, ChoiceTestCode, ChoiceCode,
      RepTestCode, RepCode, NotCode, AndCode, GrammarCode, TestDom, Resolves;
    GenBehind(d, g, n, p1, opt, tt, fl);
    CodeAtSplit(code, a, BehindInstr(n), Gen(d, g, p1, false, NoTest, FULL), pos);
    if n > 0 {
      CodeAtHead(code, a, IBehind(n), pos);
      HereResolves(code, a);
    } else {
      var entered := if inside then passed else 0;
      UnfoldsPass(d, g, p1, entered);
      StartResolves(code, d, g, pos, p1, false, NoTest, FULL, a, entered, true, false);
    }
  }

  lemma {:induction false} StartAnd(code: seq<Instr>, d: nat, g: seq<Tree>, pos: seq<int>, p1: Tree, opt: bool, tt: Dom,
                                    fl: Charset, a: int, passed: int, inside: bool, nb: bool)
    requires -1 <= passed <= MAXRULES
    requires Standing(code, d, g, pos, TAnd(p1), opt, tt, fl, a)
    requires EndResolves(code, d, g, TAnd(p1), passed, inside, nb, a + |Gen(d, g, TAnd(p1), opt, tt, fl)|)
    ensures Resolves(code, a)
    decreases if inside then 0 else 1, MAXRULES - passed, TAnd(p1), 0
  {
    hide Gen, CodeAt, RulesAt, GetFirst, HeadFail, FixedLen, HasCaptures, CheckAux, CodeTest, ChoiceTestCode, ChoiceCode,
      RepTestCode, RepCode, NotCode, AndCode, GrammarCode, TestDom, Resolves;
    VerdictAccumulates(d, g, p1, passed);
    GenAnd(d, g, p1, opt, tt, fl);
    var c := Gen(d, g, p1, false, tt, FULL);
    if AndByLength(d, g, p1) {
      var n := FixedLen(d, g, p1, {});
      CodeAtSplit(code, a, c, BehindInstr(n), pos);
      if n > 0 {
        CodeAtHead(code, a + |c|, IBehind(n), pos);
        HereResolves(code, a + |c|);
      }
      StartResolves(code, d, g, pos, p1, false, tt, FULL, a, passed, inside, true);
    } else {
      AndLayout(code, a, c, pos);
      HereResolves(code, a);
    }
  }

  lemma {:induction false} StartSeq(code: seq<Instr>, d: nat, g: seq<Tree>, pos: seq<int>, p1: Tree, p2: Tree, opt: bool, tt: Dom,
                                    fl: Charset, a: int, passed: int, inside: bool, nb: bool)
    requires -1 <= passed <= MAXRULES
    requires Standing(code, d, g, pos, TSeq(p1, p2), opt, tt, fl, a)
    requires EndResolves(code, d, g, TSeq(p1, p2), passed, inside, nb, a + |Gen(d, g, TSeq(p1, p2), opt, tt, fl)|)
    ensures Resolves(code, a)
    decreases if inside then 0 else 1, MAXRULES - passed, TSeq(p1, p2), 0
  {
    hide Gen, CodeAt, RulesAt, GetFirst, HeadFail, FixedLen, HasCaptures, CheckAux, CodeTest, ChoiceTestCode, ChoiceCode,
      RepTestCode, RepCode, NotCode, AndCode, GrammarCode, TestDom, Resolves;
    GenSeq(d, g, p1, p2, opt, tt, fl);
    var fl1, tt2 := SeqFollow(d, g, p1, p2, fl), SeqTest(d, g, p1, tt);
    var c1, c2 := Gen(d, g, p1, false, tt, fl1), Gen(d, g, p2, opt, tt2, fl);
    CodeAtSplit(code, a, c1, c2, pos);
    if VerifyRule(true, d, g, p1, passed, false) == Pass(true) {
      StartResolves(code, d, g, pos, p2, opt, tt2, fl, a + |c1|, passed, inside, nb);
    }
    StartResolves(code, d, g, pos, p1, false, tt, fl1, a, passed, inside, false);
  }

  lemma RuleStands(code: seq<Instr>, d: nat, g: seq<Tree>, pos: seq<int>, r: nat)
    requires r < |g| && RulesAt(code, d, g, pos)
    ensures var c := Gen(d, g, g[r], false, NoTest, FULL);
      && |pos| == |g| && CodeAt(code, pos[r], c, pos)
      && 0 <= pos[r] + |c| < |code| && code[pos[r] + |c|] == IRet
  {
    hide Gen, CodeAt;
    assert RuleAt(code, d, g, pos, r);
    GenRuleIs(d, g, r);
    CodeAtSnoc(code, pos[r], Gen(d, g, g[r], false, NoTest, FULL), IRet, pos);
  }

  lemma StartLeaf(code: seq<Instr>, d: nat, g: seq<Tree>, pos: seq<int>, p: Tree, opt: bool, tt: Dom, fl: Charset, a: int)
    requires p.TChar? || p.TSet? || p.TAny? || p.TTrue? || p.TFalse?
    requires CodeAt(code, a, Gen(d, g, p, opt, tt, fl), pos)
    requires p.TTrue? ==> Resolves(code, a)
    ensures Resolves(code, a)
  {
    var c := Gen(d, g, p, opt, tt, fl);
    if !p.TTrue? {
      CodeAtHead(code, a, c[0], pos);
      HereResolves(code, a);
    }
  }

  lemma {:induction false} StartChoice(code: seq<Instr>, d: nat, g: seq<Tree>, pos: seq<int>, p1: Tree, p2: Tree, opt: bool, tt: Dom,
                                       fl: Charset, a: int, passed: int, inside: bool, nb: bool)
    requires -1 <= passed <= MAXRULES
    requires Standing(code, d, g, pos, TChoice(p1, p2), opt, tt, fl, a)
    requires EndResolves(code, d, g, TChoice(p1, p2), passed, inside, nb, a + |Gen(d, g, TChoice(p1, p2), opt, tt, fl)|)
    ensures Resolves(code, a)
    decreases if inside then 0 else 1, MAXRULES - passed, TChoice(p1, p2), 0
  {
    hide Gen, CodeAt, RulesAt, GetFirst, HeadFail, FixedLen, HasCaptures, CheckAux, CodeTest, ChoiceTestCode, ChoiceCode,
      TestDom, Resolves;
    GenChoice(d, g, p1, p2, opt, tt, fl);
    var f1 := GetFirst(d, g, p1, FULL);
    var c2 := Gen(d, g, p2, opt, NoTest, fl);
    if p2.TTrue? {
      GenTrue(d, g, p2, opt, NoTest, fl);
    }
    var nb1 := VerifyRule(true, d, g, p1, passed, nb).nb;
    if ChoiceByTest(d, g, p1, p2, fl) {
      var c1 := Gen(d, g, p1, false, TestDom(f1.cs, false), fl);
      ChoiceTestLayout(code, a, f1.cs, c1, c2, p2.TTrue?, pos);
      var l1 := if p2.TTrue? then a + 1 + |c1| else a + 2 + |c1|;
      StartResolves(code, d, g, pos, p2, opt, NoTest, fl, l1, passed, inside, nb1);
      TestResolves(code, a, f1.cs, l1);
    } else if opt && p2.TTrue? {
      CodeAtCons(code, a, IPartialCommit(1), Gen(d, g, p1, true, NoTest, FULL), pos);
      HereResolves(code, a);
    } else {
      var c1 := Gen(d, g, p1, p2.TTrue?, TestDom(f1.cs, f1.empty), FULL);
      ChoiceLayout(code, a, f1.cs, f1.empty, c1, c2, pos);
      if f1.empty {
        HereResolves(code, a);
      } else {
        var l1 := a + 3 + |c1|;
        StartResolves(code, d, g, pos, p2, opt, NoTest, fl, l1, passed, inside, nb1);
        TestResolves(code, a, f1.cs, l1);
      }
    }
  }

  lemma StartRep(code: seq<Instr>, d: nat, g: seq<Tree>, pos: seq<int>, p1: Tree, opt: bool, tt: Dom, fl: Charset, a: int, b: int)
    requires CodeAt(code, a, Gen(d, g, TRep(p1), opt, tt, fl), pos)
    requires b == a + |Gen(d, g, TRep(p1), opt, tt, fl)| && Resolves(code, b)
    ensures Resolves(code, a)
  {
    hide Gen, CodeAt, GetFirst, HeadFail, CodeTest, RepTestCode, RepCode, TestDom, Resolves;
    GenRep(d, g, p1, opt, tt, fl);
    var f := GetFirst(d, g, p1, FULL);
    if IsCharset(p1) {
      CodeAtHead(code, a, ISpan(ToCharset(p1)), pos);
      HereResolves(code, a);
    } else if RepByTest(d, g, p1, fl) {
      RepTestLayout(code, a, f.cs, Gen(d, g, p1, false, TestDom(f.cs, false), FULL), pos);
      TestResolves(code, a, f.cs, b);
    } else {
      RepLayout(code, a, f.cs, f.empty, Gen(d, g, p1, false, NoTest, FULL), opt, pos);
      if f.empty {
        HereResolves(code, a);
      } else {
        TestResolves(code, a, f.cs, b);
      }
    }
  }

  lemma StartNot(code: seq<Instr>, d: nat, g: seq<Tree>, pos: seq<int>, p1: Tree, opt: bool, tt: Dom, fl: Charset, a: int, b: int)
    requires CodeAt(code, a, Gen(d, g, TNot(p1), opt, tt, fl), pos)
    requires b == a + |Gen(d, g, TNot(p1), opt, tt, fl)| && Resolves(code, b)
    ensures Resolves(code, a)
  {
    hide Gen, CodeAt, GetFirst, HeadFail, CodeTest, NotCode, Resolves;
    GenNot(d, g, p1, opt, tt, fl);
    var f := GetFirst(d, g, p1, FULL);
    if HeadFail(d, g, p1) {
      HeadFailNotEmpty(d, g, p1, FULL);
      TestSetLayout(code, a, f.cs, false, 2, [IFail], pos);
      TestResolves(code, a, f.cs, b);
    } else {
      NotLayout(code, a, f.cs, f.empty, Gen(d, g, p1, false, NoTest, FULL), pos);
      if f.empty {
        HereResolves(code, a);
      } else {
        TestResolves(code, a, f.cs, b);
      }
    }
  }

  // ---------- every instruction ----------

  /** From `x` on, and from the label of instruction `x` on, following jumps ends. */
  ghost predicate Settles(code: seq<Instr>, x: int) {
    && 0 <= x < |code| && Resolves(code, x)
    && (HasLabel(code[x]) ==> Resolves(code, x + code[x].off))
  }

  ghost predicate RangeResolves(code: seq<Instr>, a: int, b: int) {
    forall x :: a <= x < b ==> Settles(code, x)
  }

  lemma RangeJoin(code: seq<Instr>, a: int, b: int, c: int)
    requires RangeResolves(code, a, b) && RangeResolves(code, b, c)
    ensures RangeResolves(code, a, c)
  {
  }

  lemma OnePlain(code: seq<Instr>, a: int)
    requires 0 <= a < |code| && !HasLabel(code[a])
    ensures RangeResolves(code, a, a + 1)
  {
    HereResolves(code, a);
  }

  lemma OneLabel(code: seq<Instr>, a: int, t: int)
    requires 0 <= a < |code| && HasLabel(code[a]) && code[a].off == t - a && Resolves(code, t)
    ensures RangeResolves(code, a, a + 1) && Resolves(code, a)
  {
    JumpResolves(code, a, t);
  }

  lemma OneTest(code: seq<Instr>, a: int, cs: Charset, t: int)
    requires 0 <= a < |code| && code[a] == CodeTest(cs, t - a) && Resolves(code, t)
    ensures RangeResolves(code, a, a + 1) && Resolves(code, a)
  {
    OneLabel(code, a, t);
  }

  /** Where the rules that `p` calls start, jumps resolve. */
  ghost predicate CalleesResolve(code: seq<Instr>, pos: seq<int>, p: Tree) {
    forall r: nat :: Calls(p, r) ==> r < |pos| && Resolves(code, pos[r])
  }

  lemma CalleesResolveSub(code: seq<Instr>, pos: seq<int>, p: Tree, p1: Tree)
    requires CalleesResolve(code, pos, p) && forall r: nat :: Calls(p1, r) ==> Calls(p, r)
    ensures CalleesResolve(code, pos, p1)
  {
  }

  /** Every instruction in the code of a pattern resolves once its end and the
      starts of the rules it calls do. */
  lemma {:induction false} AllResolve(code: seq<Instr>, d: nat, g: seq<Tree>, pos: seq<int>, p: Tree, opt: bool, tt: Dom, fl: Charset, a: int, b: int)
    requires CodeAt(code, a, Gen(d, g, p, opt, tt, fl), pos)
    requires b == a + |Gen(d, g, p, opt, tt, fl)| && Resolves(code, b)
    requires WellFormed(d, g, p) && Verified(true, d, p) && CalleesResolve(code, pos, p)
    ensures RangeResolves(code, a, b)
    decreases p, 1
  {
    hide Gen, CodeAt, GetFirst, HeadFail, FixedLen, HasCaptures, CheckAux, CodeTest, ChoiceTestCode, ChoiceCode,
      RepTestCode, RepCode, NotCode, AndCode, GrammarCode, TestDom, Resolves, RangeResolves, CalleesResolve;
    match p
    case TChoice(p1, p2) => AllChoice(code, d, g, pos, p1, p2, opt, tt, fl, a, b);
    case TRep(p1) => AllRep(code, d, g, pos, p1, opt, tt, fl, a, b);
    case TNot(p1) => AllNot(code, d, g, pos, p1, opt, tt, fl, a, b);
    case TAnd(p1) => AllAnd(code, d, g, pos, p1, opt, tt, fl, a, b);
    case TCapture(kind, key, p1) => AllCapture(code, d, g, pos, kind, key, p1, opt, tt, fl, a, b);
    case TBehind(n, p1) =>
      CalleesResolveSub(code, pos, p, p1);
      GenBehind(d, g, n, p1, opt, tt, fl);
      var a1 := a + |BehindInstr(n)|;
      CodeAtSplit(code, a, BehindInstr(n), Gen(d, g, p1, false, NoTest, FULL), pos);
      AllResolve(code, d, g, pos, p1, false, NoTest, FULL, a1, b);
      if n > 0 {
        CodeAtHead(code, a, IBehind(n), pos);
        OnePlain(code, a);
        RangeJoin(code, a, a1, b);
      }
    case TSeq(p1, p2) =>
      CalleesResolveSub(code, pos, p, p1);
      CalleesResolveSub(code, pos, p, p2);
      GenSeq(d, g, p1, p2, opt, tt, fl);
      var fl1, tt2 := SeqFollow(d, g, p1, p2, fl), SeqTest(d, g, p1, tt);
      var c1, c2 := Gen(d, g, p1, false, tt, fl1), Gen(d, g, p2, opt, tt2, fl);
      CodeAtSplit(code, a, c1, c2, pos);
      AllResolve(code, d, g, pos, p2, opt, tt2, fl, a + |c1|, b);
      RangeStart(code, a + |c1|, b);
      AllResolve(code, d, g, pos, p1, false, tt, fl1, a, a + |c1|);
      RangeJoin(code, a, a + |c1|, b);
    case TCall(r) =>
      GenCall(d, g, r, opt, tt, fl);
      CodeAtHead(code, a, IOpenCall(r), pos);
      CalleeResolves(code, pos, r);
      OneLabel(code, a, pos[r]);
    case TGrammar(rules) => AllGrammar(code, d, g, pos, rules, opt, tt, fl, a, b);
    case _ => AllLeaf(code, d, g, pos, p, opt, tt, fl, a, b);
  }

  lemma CalleeResolves(code: seq<Instr>, pos: seq<int>, r: nat)
    requires CalleesResolve(code, pos, TCall(r))
    ensures r < |pos| && Resolves(code, pos[r])
  {
    assert Calls(TCall(r), r);
  }

  /** The start of a range that resolves, or its end when the range is empty. */
  lemma RangeStart(code: seq<Instr>, a: int, b: int)
    requires a <= b && RangeResolves(code, a, b) && Resolves(code, b)
    ensures Resolves(code, a)
  {
    if a < b {
      assert Settles(code, a);
    }
  }

  lemma AllLeaf(code: seq<Instr>, d: nat, g: seq<Tree>, pos: seq<int>, p: Tree, opt: bool, tt: Dom, fl: Charset, a: int, b: int)
    requires p.TChar? || p.TSet? || p.TAny? || p.TTrue? || p.TFalse?
    requires CodeAt(code, a, Gen(d, g, p, opt, tt, fl), pos)
    requires b == a + |Gen(d, g, p, opt, tt, fl)| && Resolves(code, b)
    ensures RangeResolves(code, a, b)
  {
    var c := Gen(d, g, p, opt, tt, fl);
    if !p.TTrue? {
      CodeAtHead(code, a, c[0], pos);
      OnePlain(code, a);
    }
  }

  lemma {:induction false} AllChoice(code: seq<Instr>, d: nat, g: seq<Tree>, pos: seq<int>, p1: Tree, p2: Tree, opt: bool, tt: Dom,
                                     fl: Charset, a: int, b: int)
    requires CodeAt(code, a, Gen(d, g, TChoice(p1, p2), opt, tt, fl), pos)
    requires b == a + |Gen(d, g, TChoice(p1, p2), opt, tt, fl)| && Resolves(code, b)
    requires WellFormed(d, g, TChoice(p1, p2)) && Verified(true, d, TChoice(p1, p2)) && CalleesResolve(code, pos, TChoice(p1, p2))
    ensures RangeResolves(code, a, b)
    decreases TChoice(p1, p2), 0
  {
    hide Gen, CodeAt, GetFirst, HeadFail, CodeTest, ChoiceTestCode, ChoiceCode, TestDom, Resolves, RangeResolves,
      CalleesResolve, ChoiceByTest;
    CalleesResolveSub(code, pos, TChoice(p1, p2), p1);
    CalleesResolveSub(code, pos, TChoice(p1, p2), p2);
    GenChoice(d, g, p1, p2, opt, tt, fl);
    var f1 := GetFirst(d, g, p1, FULL);
    var c2 := Gen(d, g, p2, opt, NoTest, fl);
    if p2.TTrue? {
      GenTrue(d, g, p2, opt, NoTest, fl);
    }
    if ChoiceByTest(d, g, p1, p2, fl) {
      var c1 := Gen(d, g, p1, false, TestDom(f1.cs, false), fl);
      ChoiceTestLayout(code, a, f1.cs, c1, c2, p2.TTrue?, pos);
      var e1 := a + 1 + |c1|;
      var l1 := if p2.TTrue? then e1 else e1 + 1;
      AllResolve(code, d, g, pos, p2, opt, NoTest, fl, l1, b);
      RangeStart(code, l1, b);
      OneTest(code, a, f1.cs, l1);
      if !p2.TTrue? {
        OneLabel(code, e1, b);
        RangeJoin(code, e1, l1, b);
      }
      AllResolve(code, d, g, pos, p1, false, TestDom(f1.cs, false), fl, a + 1, e1);
      RangeJoin(code, a, a + 1, e1);
      RangeJoin(code, a, e1, b);
    } else if opt && p2.TTrue? {
      CodeAtCons(code, a, IPartialCommit(1), Gen(d, g, p1, true, NoTest, FULL), pos);
      AllResolve(code, d, g, pos, p1, true, NoTest, FULL, a + 1, b);
      RangeStart(code, a + 1, b);
      OneLabel(code, a, a + 1);
      RangeJoin(code, a, a + 1, b);
    } else {
      var tt1, opt1 := TestDom(f1.cs, f1.empty), p2.TTrue?;
      var c1 := Gen(d, g, p1, opt1, tt1, FULL);
      ChoiceLayout(code, a, f1.cs, f1.empty, c1, c2, pos);
      var a1 := if f1.empty then a else a + 1;
      var e1 := a1 + 1 + |c1|;
      AllResolve(code, d, g, pos, p2, opt, NoTest, fl, e1 + 1, b);
      RangeStart(code, e1 + 1, b);
      OneLabel(code, e1, b);
      RangeJoin(code, e1, e1 + 1, b);
      AllResolve(code, d, g, pos, p1, opt1, tt1, FULL, a1 + 1, e1);
      OneLabel(code, a1, e1 + 1);
      RangeJoin(code, a1, a1 + 1, e1);
      RangeJoin(code, a1, e1, b);
      if !f1.empty {
        OneTest(code, a, f1.cs, e1 + 1);
        RangeJoin(code, a, a1, b);
      }
    }
  }

  lemma {:induction false} AllRep(code: seq<Instr>, d: nat, g: seq<Tree>, pos: seq<int>, p1: Tree, opt: bool, tt: Dom,
                                  fl: Charset, a: int, b: int)
    requires CodeAt(code, a, Gen(d, g, TRep(p1), opt, tt, fl), pos)
    requires b == a + |Gen(d, g, TRep(p1), opt, tt, fl)| && Resolves(code, b)
    requires WellFormed(d, g, TRep(p1)) && Verified(true, d, TRep(p1)) && CalleesResolve(code, pos, TRep(p1))
    ensures RangeResolves(code, a, b)
    decreases TRep(p1), 0
  {
    hide Gen, CodeAt, GetFirst, HeadFail, CodeTest, RepTestCode, RepCode, TestDom, Resolves, RangeResolves, CalleesResolve,
      RepByTest;
    CalleesResolveSub(code, pos, TRep(p1), p1);
    GenRep(d, g, p1, opt, tt, fl);
    var f := GetFirst(d, g, p1, FULL);
    if IsCharset(p1) {
      CodeAtHead(code, a, ISpan(ToCharset(p1)), pos);
      OnePlain(code, a);
    } else if RepByTest(d, g, p1, fl) {
      var tt1 := TestDom(f.cs, false);
      var c := Gen(d, g, p1, false, tt1, FULL);
      RepTestLayout(code, a, f.cs, c, pos);
      var e := a + 1 + |c|;
      OneTest(code, a, f.cs, b);
      OneLabel(code, e, a);
      AllResolve(code, d, g, pos, p1, false, tt1, FULL, a + 1, e);
      RangeJoin(code, a, a + 1, e);
      RangeJoin(code, a, e, b);
    } else {
      var c := Gen(d, g, p1, false, NoTest, FULL);
      RepLayout(code, a, f.cs, f.empty, c, opt, pos);
      var a1 := if f.empty then a else a + 1;
      var e := a1 + 1 + |c|;
      HereResolves(code, e);
      AllResolve(code, d, g, pos, p1, false, NoTest, FULL, a1 + 1, e);
      RangeStart(code, a1 + 1, e);
      OneLabel(code, e, a1 + 1);
      OneLabel(code, a1, if opt then a1 + 1 else b);
      RangeJoin(code, a1, a1 + 1, e);
      RangeJoin(code, a1, e, b);
      if !f.empty {
        OneTest(code, a, f.cs, b);
        RangeJoin(code, a, a1, b);
      }
    }
  }

  lemma {:induction false} AllNot(code: seq<Instr>, d: nat, g: seq<Tree>, pos: seq<int>, p1: Tree, opt: bool, tt: Dom,
                                  fl: Charset, a: int, b: int)
    requires CodeAt(code, a, Gen(d, g, TNot(p1), opt, tt, fl), pos)
    requires b == a + |Gen(d, g, TNot(p1), opt, tt, fl)| && Resolves(code, b)
    requires WellFormed(d, g, TNot(p1)) && Verified(true, d, TNot(p1)) && CalleesResolve(code, pos, TNot(p1))
    ensures RangeResolves(code, a, b)
    decreases TNot(p1), 0
  {
    hide Gen, CodeAt, GetFirst, HeadFail, CodeTest, NotCode, Resolves, RangeResolves, CalleesResolve;
    CalleesResolveSub(code, pos, TNot(p1), p1);
    GenNot(d, g, p1, opt, tt, fl);
    var f := GetFirst(d, g, p1, FULL);
    if HeadFail(d, g, p1) {
      HeadFailNotEmpty(d, g, p1, FULL);
      TestSetLayout(code, a, f.cs, false, 2, [IFail], pos);
      CodeAtHead(code, a + 1, IFail, pos);
      OneTest(code, a, f.cs, b);
      OnePlain(code, a + 1);
      RangeJoin(code, a, a + 1, b);
    } else {
      var c := Gen(d, g, p1, false, NoTest, FULL);
      NotLayout(code, a, f.cs, f.empty, c, pos);
      var a1 := if f.empty then a else a + 1;
      var e := a1 + 1 + |c|;
      HereResolves(code, e);
      OnePlain(code, e);
      AllResolve(code, d, g, pos, p1, false, NoTest, FULL, a1 + 1, e);
      OneLabel(code, a1, b);
      RangeJoin(code, a1, a1 + 1, e);
      RangeJoin(code, a1, e, b);
      if !f.empty {
        OneTest(code, a, f.cs, b);
        RangeJoin(code, a, a1, b);
      }
    }
  }

  lemma {:induction false} AllAnd(code: seq<Instr>, d: nat, g: seq<Tree>, pos: seq<int>, p1: Tree, opt: bool, tt: Dom,
                                  fl: Charset, a: int, b: int)
    requires CodeAt(code, a, Gen(d, g, TAnd(p1), opt, tt, fl), pos)
    requires b == a + |Gen(d, g, TAnd(p1), opt, tt, fl)| && Resolves(code, b)
    requires WellFormed(d, g, TAnd(p1)) && Verified(true, d, TAnd(p1)) && CalleesResolve(code, pos, TAnd(p1))
    ensures RangeResolves(code, a, b)
    decreases TAnd(p1), 0
  {
    hide Gen, CodeAt, FixedLen, HasCaptures, AndCode, Resolves, RangeResolves, CalleesResolve;
    CalleesResolveSub(code, pos, TAnd(p1), p1);
    GenAnd(d, g, p1, opt, tt, fl);
    var c := Gen(d, g, p1, false, tt, FULL);
    if AndByLength(d, g, p1) {
      var n := FixedLen(d, g, p1, {});
      CodeAtSplit(code, a, c, BehindInstr(n), pos);
      if n > 0 {
        CodeAtHead(code, a + |c|, IBehind(n), pos);
        HereResolves(code, a + |c|);
        OnePlain(code, a + |c|);
      }
      AllResolve(code, d, g, pos, p1, false, tt, FULL, a, a + |c|);
      if n > 0 {
        RangeJoin(code, a, a + |c|, b);
      }
    } else {
      AndLayout(code, a, c, pos);
      var e := a + 1 + |c|;
      HereResolves(code, e);
      HereResolves(code, e + 1);
      OneLabel(code, a, e + 1);
      OneLabel(code, e, b);
      OnePlain(code, e + 1);
      AllResolve(code, d, g, pos, p1, false, tt, FULL, a + 1, e);
      RangeJoin(code, a, a + 1, e);
      RangeJoin(code, a, e, e + 1);
      RangeJoin(code, a, e + 1, b);
    }
  }

  lemma {:induction false} AllCapture(code: seq<Instr>, d: nat, g: seq<Tree>, pos: seq<int>, kind: CapKind, key: nat, p1: Tree,
                                      opt: bool, tt: Dom, fl: Charset, a: int, b: int)
    requires CodeAt(code, a, Gen(d, g, TCapture(kind, key, p1), opt, tt, fl), pos)
    requires b == a + |Gen(d, g, TCapture(kind, key, p1), opt, tt, fl)| && Resolves(code, b)
    requires WellFormed(d, g, TCapture(kind, key, p1)) && Verified(true, d, TCapture(kind, key, p1))
    requires CalleesResolve(code, pos, TCapture(kind, key, p1))
    ensures RangeResolves(code, a, b)
    decreases TCapture(kind, key, p1), 0
  {
    hide Gen, CodeAt, FixedLen, HasCaptures, Resolves, RangeResolves, CalleesResolve;
    CalleesResolveSub(code, pos, TCapture(kind, key, p1), p1);
    GenCapture(d, g, kind, key, p1, opt, tt, fl);
    var c := Gen(d, g, p1, false, tt, fl);
    if FullCapture(d, g, p1) {
      CodeAtSnoc(code, a, c, IFullCapture(kind, key, FixedLen(d, g, p1, {})), pos);
      HereResolves(code, a + |c|);
      OnePlain(code, a + |c|);
      AllResolve(code, d, g, pos, p1, false, tt, fl, a, a + |c|);
      RangeJoin(code, a, a + |c|, b);
    } else {
      BracketLayout(code, a, IOpenCapture(kind, key), c, ICloseCapture, pos);
      var e := a + 1 + |c|;
      HereResolves(code, e);
      OnePlain(code, a);
      OnePlain(code, e);
      AllResolve(code, d, g, pos, p1, false, tt, fl, a + 1, e);
      RangeJoin(code, a, a + 1, e);
      RangeJoin(code, a, e, b);
    }
  }

  lemma {:induction false} AllGrammar(code: seq<Instr>, d: nat, g: seq<Tree>, pos: seq<int>, rules: seq<Tree>, opt: bool, tt: Dom,
                                      fl: Charset, a: int, b: int)
    requires CodeAt(code, a, Gen(d, g, TGrammar(rules), opt, tt, fl), pos)
    requires b == a + |Gen(d, g, TGrammar(rules), opt, tt, fl)| && Resolves(code, b)
    requires WellFormed(d, g, TGrammar(rules)) && Verified(true, d, TGrammar(rules))
    ensures RangeResolves(code, a, b)
    decreases TGrammar(rules), 0
  {
    hide Gen, CodeAt, GrammarCode, GrammarBody, VerifyGrammar;
    GenGrammar(d, g, rules, opt, tt, fl);
    GrammarCodeLayout(code, a, d, rules, pos);
    GrammarResolves(d, rules);
    var body := GrammarBody(d, rules);
    forall x | a + 2 <= x < b ensures Settles(code, x) {
      SettlesShift(code, a + 2, body, x - (a + 2));
    }
    BodyNonEmpty(d, rules);
    assert Settles(code, a + 2);
    OneLabel(code, a, a + 2);
    OneLabel(code, a + 1, b);
  }

  lemma BodyNonEmpty(d: nat, rules: seq<Tree>)
    requires rules != []
    ensures |GrammarBody(d, rules)| > 0
  {
    hide Gen;
    GenRuleIs(d, rules, |rules| - 1);
  }

  lemma SettlesShift(code: seq<Instr>, a: int, c: seq<Instr>, x: int)
    requires Literally(code, a, c) && Settles(c, x)
    ensures Settles(code, a + x)
  {
    var f: nat :| Lands(c, x, f);
    LandsShift(code, a, c, x, f);
    assert code[a + x] == code[a..a + |c|][x];
    if HasLabel(c[x]) {
      var f': nat :| Lands(c, x + c[x].off, f');
      LandsShift(code, a, c, x + c[x].off, f');
    }
  }

  /** In the finished code of a verified grammar every chain of jumps ends, in the
      rules that are used and in those that are not. */
  lemma {:induction false} GrammarResolves(d: nat, rules: seq<Tree>)
    requires WellFormed(d, [], TGrammar(rules)) && Verified(true, d, TGrammar(rules))
    ensures RangeResolves(GrammarBody(d, rules), 0, |GrammarBody(d, rules)|)
    decreases rules, 2
  {
    hide Gen, CodeAt, GrammarBody, GenRules, Resolves, RangeResolves, Settles, CalleesResolve, RulesAt, WellFormed;
    var code, pos := GrammarBody(d, rules), RulePositions(d, rules, |rules|);
    assert code[0..0 + |code|] == code;
    RulesWellFormed(d, rules);
    GrammarLayout(code, 0, d, rules, pos);
    forall r: nat | r < |rules| && Used(rules, r) ensures Resolves(code, pos[r]) {
      RuleStands(code, d, rules, pos, r);
      var e := pos[r] + |Gen(d, rules, rules[r], false, NoTest, FULL)|;
      HereResolves(code, e);
      StartResolves(code, d, rules, pos, rules[r], false, NoTest, FULL, pos[r], 0, false, false);
    }
    RulesResolve(d, rules, code, pos);
    BodyLength(d, rules);
    forall x | 0 <= x < |code| ensures Settles(code, x) {
      RuleSettles(d, rules, code, pos, x);
    }
    RangeIntro(code, 0, |code|);
  }

  lemma RuleSettles(d: nat, rules: seq<Tree>, code: seq<Instr>, pos: seq<int>, x: int)
    requires pos == RulePositions(d, rules, |rules|) && RulesAt(code, d, rules, pos)
    requires 0 <= x < |code| == |GenRules(d, rules, |rules|)|
    requires forall r: nat | r < |rules| ::
      RangeResolves(code, pos[r], pos[r] + |Gen(d, rules, rules[r], false, NoTest, FULL)|)
    ensures Settles(code, x)
  {
    hide Gen, CodeAt, Resolves, RangeResolves, RulesAt, Settles;
    var r := RuleCover(d, rules, |rules|, x);
    RuleSlice(d, rules, |rules|, r);
    GenRuleIs(d, rules, r);
    RuleStands(code, d, rules, pos, r);
    var e := pos[r] + |Gen(d, rules, rules[r], false, NoTest, FULL)|;
    HereResolves(code, e);
    OnePlain(code, e);
    RangeAt(code, pos[r], e, x);
  }

  lemma BodyLength(d: nat, rules: seq<Tree>)
    ensures |GrammarBody(d, rules)| == |GenRules(d, rules, |rules|)|
  {
  }

  lemma RulesWellFormed(d: nat, rules: seq<Tree>)
    requires WellFormed(d, [], TGrammar(rules))
    ensures rules != [] && forall r | 0 <= r < |rules| :: WellFormed(d, rules, rules[r])
  {
  }

  lemma RangeAt(code: seq<Instr>, a: int, b: int, x: int)
    requires RangeResolves(code, a, b) && RangeResolves(code, b, b + 1) && a <= x <= b
    ensures Settles(code, x)
  {
  }

  lemma RangeIntro(code: seq<Instr>, a: int, b: int)
    requires forall x | a <= x < b :: Settles(code, x)
    ensures RangeResolves(code, a, b)
  {
  }

  lemma {:induction false} RulesResolve(d: nat, rules: seq<Tree>, code: seq<Instr>, pos: seq<int>)
    requires WellFormed(d, [], TGrammar(rules)) && Verified(true, d, TGrammar(rules))
    requires |pos| == |rules| && RulesAt(code, d, rules, pos)
    requires forall r: nat | r < |rules| && Used(rules, r) :: Resolves(code, pos[r])
    ensures forall r: nat | r < |rules| ::
      RangeResolves(code, pos[r], pos[r] + |Gen(d, rules, rules[r], false, NoTest, FULL)|)
    decreases rules, 1
  {
    hide Gen, CodeAt, Resolves, RangeResolves, RulesAt, WellFormed, VerifyGrammar, CalleesResolve;
    RulesWellFormed(d, rules);
    forall r: nat | r < |rules|
      ensures RangeResolves(code, pos[r], pos[r] + |Gen(d, rules, rules[r], false, NoTest, FULL)|)
    {
      RuleStands(code, d, rules, pos, r);
      var e := pos[r] + |Gen(d, rules, rules[r], false, NoTest, FULL)|;
      HereResolves(code, e);
      UsedCalleesResolve(d, rules, code, pos, r);
      AllResolve(code, d, rules, pos, rules[r], false, NoTest, FULL, pos[r], e);
    }
  }

  lemma UsedCalleesResolve(d: nat, rules: seq<Tree>, code: seq<Instr>, pos: seq<int>, r: nat)
    requires |pos| == |rules| && r < |rules| && WellFormed(d, rules, rules[r])
    requires forall q: nat | q < |rules| && Used(rules, q) :: Resolves(code, pos[q])
    ensures CalleesResolve(code, pos, rules[r])
  {
    forall q: nat | Calls(rules[r], q) ensures q < |pos| && Resolves(code, pos[q]) {
      RuleCallsInRange(d, rules, rules[r], q);
      assert Used(rules, q);
    }
  }

  /** Every instruction of a grammar belongs to one of its rules. */
  lemma {:induction false} RuleCover(d: nat, rules: seq<Tree>, k: nat, x: int) returns (r: nat)
    requires k <= |rules| && 0 <= x < |GenRules(d, rules, k)|
    ensures r < k
    ensures |GenRules(d, rules, r)| <= x < |GenRules(d, rules, r)| + |GenRule(d, rules, r)|
    decreases k
  {
    r := k - 1;
    if x < |GenRules(d, rules, k - 1)| {
      r := RuleCover(d, rules, k - 1, x);
    }
  }

  /** Following jumps ends everywhere in the code of an accepted pattern, and of one
      that the checks of the repository accept where they do what they mean to. */
  lemma CompiledResolves(d: nat, p: Tree)
    requires Accepted(true, d, p) || (Accepted(false, d, p) && Guarded(d, p))
    ensures var code := Gen(d, [], p, false, NoTest, FULL) + [IEnd];
      RangeResolves(code, 0, |code|)
  {
    hide Gen, Resolves, CheckAux;
    if !Accepted(true, d, p) {
      GuardedVerified(d, p);
    }
    var c := Gen(d, [], p, false, NoTest, FULL);
    var code := c + [IEnd];
    forall x | 0 <= x < |c| ensures InstrAt(code, 0 + x, c[x], []) {
    }
    WellFormedNoCalls(d, p);
    forall r: nat ensures !Calls(p, r) {
      NoCallsNone(p, r);
    }
    HereResolves(code, |c|);
    OnePlain(code, |c|);
    AllResolve(code, d, [], [], p, false, NoTest, FULL, 0, |c|);
    RangeJoin(code, 0, |c|, |code|);
  }

  // ---------- following jumps ----------

  lemma {:induction false} LandsUnique(code: seq<Instr>, x: int, f: nat, f': nat)
    requires Lands(code, x, f) && Lands(code, x, f')
    ensures FinalTarget(code, x, f) == FinalTarget(code, x, f')
    decreases f
  {
    if 0 <= x < |code| && code[x].IJmp? {
      LandsUnique(code, x + code[x].off, f - 1, f' - 1);
    }
  }

  lemma JumpEndIs(code: seq<Instr>, x: int, f: nat)
    requires Lands(code, x, f)
    ensures JumpEnd(code, x) == FinalTarget(code, x, f)
  {
    assert Resolves(code, x);
    var t := JumpEnd(code, x);
    var f': nat :| FinalTarget(code, x, f') == t;
    assert 0 <= t < |code| && !code[t].IJmp?;
    assert Lands(code, x, f');
    LandsUnique(code, x, f, f');
  }

  lemma ReachesRetIff(code: seq<Instr>, x: int)
    requires Resolves(code, x)
    ensures ReachesRet(code, x) <==> code[JumpEnd(code, x)] == IRet
  {
    var f: nat :| FinalTarget(code, x, f) == JumpEnd(code, x);
    if code[JumpEnd(code, x)] == IRet {
      assert JumpsToRet(code, x, f);
    }
    if ReachesRet(code, x) {
      var f': nat :| JumpsToRet(code, x, f');
      JumpEndIs(code, x, f');
    }
  }

  lemma JumpEndShift(code: seq<Instr>, a: int, c: seq<Instr>, x: int)
    requires Literally(code, a, c) && Resolves(c, x)
    ensures Resolves(code, a + x) && JumpEnd(code, a + x) == a + JumpEnd(c, x)
  {
    var f: nat :| Lands(c, x, f);
    LandsShift(code, a, c, x, f);
    FinalTargetShift(code, a, c, x, f);
    JumpEndIs(code, a + x, f);
    JumpEndIs(c, x, f);
  }

  lemma {:induction false} FinalTargetShift(code: seq<Instr>, a: int, c: seq<Instr>, x: int, f: nat)
    requires Literally(code, a, c) && Lands(c, x, f)
    ensures FinalTarget(code, a + x, f) == a + FinalTarget(c, x, f)
    decreases f
  {
    if 0 <= x < |c| {
      assert code[a + x] == code[a..a + |c|][x];
      if f > 0 && c[x].IJmp? {
        FinalTargetShift(code, a, c, x + c[x].off, f - 1);
      }
    }
  }

  /** Fewer jumps: chains end no later. */
  lemma {:induction false} ResolvesEarlier(code: seq<Instr>, code': seq<Instr>, x: int, f: nat)
    requires |code| == |code'| && Lands(code', x, f)
    requires forall y :: 0 <= y < |code| && code[y].IJmp? ==> code'[y] == code[y]
    ensures Resolves(code, x)
    decreases f
  {
    if 0 <= x < |code| && code[x].IJmp? {
      ResolvesEarlier(code, code', x + code[x].off, f - 1);
      JumpResolves(code, x, x + code[x].off);
    } else if 0 <= x < |code| {
      HereResolves(code, x);
    }
  }
}
