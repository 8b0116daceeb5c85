/** Where the parts of a piece of code stand, and how the code of a composite
    pattern is put together. */
module LpegLayout {
  import opened LpegTree
  import opened LpegAnalysis
  import opened LpegVm
  import opened LpegCodegen
  import opened LpegCorrect

  // ---------- grammars ----------

  /** `c` stands literally at `a`. */
  predicate Literally(code: seq<Instr>, a: int, c: seq<Instr>) {
    0 <= a && a + |c| <= |code| && code[a..a + |c|] == c
  }

  lemma {:induction false} JumpsToRetPersists(code: seq<Instr>, code': seq<Instr>, x: int, fuel: nat)
    requires |code| == |code'|
    requires forall y :: 0 <= y < |code| && (code[y].IJmp? || code[y].IRet?) ==> code'[y] == code[y]
    requires JumpsToRet(code, x, fuel)
    ensures JumpsToRet(code', x, fuel)
    decreases fuel
  {
    if fuel > 0 && 0 <= x < |code| && code[x].IJmp? {
      JumpsToRetPersists(code, code', x + code[x].off, fuel - 1);
    }
  }

  lemma {:induction false} JumpsToRetShift(code: seq<Instr>, a: int, c: seq<Instr>, x: int, fuel: nat)
    requires Literally(code, a, c)
    requires JumpsToRet(c, x, fuel)
    ensures JumpsToRet(code, a + x, fuel)
    decreases fuel
  {
    if 0 <= x < |c| {
      assert code[a + x] == code[a..a + |c|][x];
      if fuel > 0 && c[x].IJmp? {
        JumpsToRetShift(code, a, c, x + c[x].off, fuel - 1);
      }
    }
  }

  /** What `CorrectCalls` makes of instruction `x`. */
  ghost predicate Corrected(code: seq<Instr>, code': seq<Instr>, positions: seq<int>, x: nat)
    requires x < |code| == |code'|
  {
    if code[x].IOpenCall? then
      var off := RulePosition(positions, code[x].rule) - x;
      code'[x] == ICall(off) || (code'[x] == IJmp(off) && ReachesRet(code', x + 1))
    else code'[x] == code[x]
  }

  /** Every open call becomes a call of its rule, or a jump to it where a return
      follows in the corrected code; nothing else changes. */
  lemma {:induction false} CorrectCallsSpec(code: seq<Instr>, positions: seq<int>, i: nat)
    requires i <= |code|
    ensures var code' := CorrectCalls(code, positions, i);
      && (forall x :: 0 <= x < i ==> code'[x] == code[x])
      && (forall x :: i <= x < |code| ==> Corrected(code, code', positions, x))
    decreases |code| - i
  {
    if i < |code| {
      var ins := CorrectCall(code, positions, i);
      var code1 := code[i := ins];
      var code' := CorrectCalls(code1, positions, i + 1);
      CorrectCallsSpec(code1, positions, i + 1);
      assert code'[i] == ins;
      if code[i].IOpenCall? && ins.IJmp? {
        forall y | 0 <= y < |code| && (code[y].IJmp? || code[y].IRet?) ensures code'[y] == code[y] {
          if y > i {
            assert Corrected(code1, code', positions, y);
          }
        }
        var f: nat :| JumpsToRet(code, i + 1, f);
        JumpsToRetPersists(code, code', i + 1, f);
      }
      forall x | i < x < |code| ensures Corrected(code, code', positions, x) {
        assert Corrected(code1, code', positions, x);
      }
    }
  }

  lemma NoOpenCalls(code: seq<Instr>, positions: seq<int>, x: nat)
    requires x < |code|
    ensures !CorrectCalls(code, positions, 0)[x].IOpenCall?
  {
    CorrectCallsSpec(code, positions, 0);
    assert Corrected(code, CorrectCalls(code, positions, 0), positions, x);
  }

  lemma GrammarClosed(d: nat, rules: seq<Tree>, x: nat)
    requires x < |GrammarBody(d, rules)|
    ensures !GrammarBody(d, rules)[x].IOpenCall?
  {
    NoOpenCalls(GenRules(d, rules, |rules|), RulePositions(d, rules, |rules|), x);
  }

  /** Rule `r` stands in the code of its grammar at the position recorded for it. */
  lemma {:induction false} RuleSlice(d: nat, rules: seq<Tree>, k: nat, r: nat)
    requires r < k <= |rules|
    ensures var q := RulePositions(d, rules, k)[r];
      && q == |GenRules(d, rules, r)|
      && Literally(GenRules(d, rules, k), q, GenRule(d, rules, r))
    decreases k
  {
    var q := |GenRules(d, rules, r)|;
    if r < k - 1 {
      RuleSlice(d, rules, k - 1, r);
      var c := GenRules(d, rules, k - 1);
      assert (c + GenRule(d, rules, k - 1))[q..q + |GenRule(d, rules, r)|] == c[q..q + |GenRule(d, rules, r)|];
    }
  }

  /** The rules of a grammar whose code stands at `a`. */
  lemma GrammarLayout(code: seq<Instr>, a: int, d: nat, rules: seq<Tree>, pos: seq<int>)
    requires rules != [] && forall r | 0 <= r < |rules| :: WellFormed(d, rules, rules[r])
    requires Literally(code, a, GrammarBody(d, rules))
    requires |pos| == |rules|
    requires forall r | 0 <= r < |rules| :: pos[r] == a + RulePositions(d, rules, |rules|)[r]
    ensures RulesAt(code, d, rules, pos)
    ensures pos[0] == a
  {
    RuleSlice(d, rules, |rules|, 0);
    forall r | 0 <= r < |rules| ensures RuleAt(code, d, rules, pos, r) {
      RuleLayout(code, a, d, rules, pos, r);
    }
  }

  lemma RuleLayout(code: seq<Instr>, a: int, d: nat, rules: seq<Tree>, pos: seq<int>, r: nat)
    requires r < |rules| == |pos|
    requires Literally(code, a, GrammarBody(d, rules))
    requires forall q | 0 <= q < |rules| :: pos[q] == a + RulePositions(d, rules, |rules|)[q]
    ensures CodeAt(code, pos[r], GenRule(d, rules, r), pos)
  {
    var positions := RulePositions(d, rules, |rules|);
    var body := GenRules(d, rules, |rules|);
    RuleSlice(d, rules, |rules|, r);
    assert CorrectCalls(body, positions, 0) == GrammarBody(d, rules);
    hide GenRule, GenRules, RulePositions, GrammarBody, CorrectCalls, Literally, CodeAt;
    SliceLands(code, a, body, positions, positions[r], GenRule(d, rules, r), pos);
  }

  /** A slice of the uncorrected code, where it comes to stand. */
  lemma SliceLands(code: seq<Instr>, a: int, body: seq<Instr>, positions: seq<int>, q: int, c: seq<Instr>, pos: seq<int>)
    requires Literally(code, a, CorrectCalls(body, positions, 0)) && Literally(body, q, c)
    requires |pos| == |positions| && forall p | 0 <= p < |pos| :: pos[p] == a + positions[p]
    ensures CodeAt(code, a + q, c, pos)
  {
    hide CorrectCalls, Corrected, InstrAt, Literally;
    var body' := CorrectCalls(body, positions, 0);
    SliceFits(code, a, body', q, |c|, body, c);
    forall x | 0 <= x < |c| ensures InstrAt(code, a + q + x, c[x], pos) {
      SliceAt(body, q, c, x);
      CorrectedAt(body, positions, q + x);
      CorrectedInstrAt(code, a, body, body', positions, q + x, pos);
    }
  }

  lemma SliceAt(body: seq<Instr>, q: int, c: seq<Instr>, x: nat)
    requires Literally(body, q, c) && x < |c|
    ensures 0 <= q && q + x < |body| && body[q + x] == c[x]
  {
    assert body[q..q + |c|][x] == body[q + x];
  }

  lemma SliceFits(code: seq<Instr>, a: int, body': seq<Instr>, q: int, n: nat, body: seq<Instr>, c: seq<Instr>)
    requires Literally(code, a, body') && |body| == |body'| && Literally(body, q, c) && n == |c|
    ensures 0 <= a + q && a + q + n <= |code|
  {
  }

  lemma CorrectedAt(body: seq<Instr>, positions: seq<int>, y: nat)
    requires y < |body|
    ensures Corrected(body, CorrectCalls(body, positions, 0), positions, y)
  {
    hide CorrectCalls, Corrected;
    CorrectCallsSpec(body, positions, 0);
  }

  lemma CorrectedInstrAt(code: seq<Instr>, a: int, body: seq<Instr>, body': seq<Instr>, positions: seq<int>, y: nat, pos: seq<int>)
    requires y < |body| == |body'| && Literally(code, a, body')
    requires Corrected(body, body', positions, y)
    requires |pos| == |positions| && forall q | 0 <= q < |pos| :: pos[q] == a + positions[q]
    ensures InstrAt(code, a + y, body[y], pos)
  {
    hide ReachesRet;
    SliceAt(code, a, body', y);
    if ReachesRet(body', y + 1) {
      ReachesRetShift(code, a, body', y + 1);
    }
    hide Literally;
  }

  lemma ReachesRetShift(code: seq<Instr>, a: int, c: seq<Instr>, x: int)
    requires Literally(code, a, c) && ReachesRet(c, x)
    ensures ReachesRet(code, a + x)
  {
    hide JumpsToRet, Literally;
    var f: nat :| JumpsToRet(c, x, f);
    JumpsToRetShift(code, a, c, x, f);
  }

  // ---------- shapes ----------

  lemma CodeAtCons(code: seq<Instr>, a: int, ins: Instr, c: seq<Instr>, pos: seq<int>)
    requires CodeAt(code, a, [ins] + c, pos)
    ensures InstrAt(code, a, ins, pos) && CodeAt(code, a + 1, c, pos)
  {
    CodeAtSplit(code, a, [ins], c, pos);
    CodeAtHead(code, a, ins, pos);
  }

  lemma CodeAtSnoc(code: seq<Instr>, a: int, c: seq<Instr>, ins: Instr, pos: seq<int>)
    requires CodeAt(code, a, c + [ins], pos)
    ensures CodeAt(code, a, c, pos) && InstrAt(code, a + |c|, ins, pos)
  {
    CodeAtSplit(code, a, c, [ins], pos);
    CodeAtHead(code, a + |c|, ins, pos);
  }

  lemma TestSetLayout(code: seq<Instr>, a: int, cs: Charset, e: bool, off: int, c: seq<Instr>, pos: seq<int>)
    requires CodeAt(code, a, CodeTestSet(cs, e, off) + c, pos)
    ensures !e ==> 0 <= a < |code| && code[a] == CodeTest(cs, off)
    ensures CodeAt(code, if e then a else a + 1, c, pos)
  {
    CodeAtSplit(code, a, CodeTestSet(cs, e, off), c, pos);
    if !e {
      CodeAtHead(code, a, CodeTest(cs, off), pos);
    }
  }

  lemma ChoiceTestLayout(code: seq<Instr>, a: int, cs: Charset, c1: seq<Instr>, c2: seq<Instr>, empty2: bool, pos: seq<int>)
    requires CodeAt(code, a, ChoiceTestCode(cs, c1, c2, empty2), pos)
    requires empty2 ==> c2 == []
    ensures var e1 := a + 1 + |c1|;
      var l1 := if empty2 then e1 else e1 + 1;
      && |ChoiceTestCode(cs, c1, c2, empty2)| == l1 + |c2| - a
      && 0 <= a < |code| && code[a] == CodeTest(cs, l1 - a)
      && CodeAt(code, a + 1, c1, pos) && CodeAt(code, l1, c2, pos)
      && (!empty2 ==> 0 <= e1 < |code| && code[e1] == IJmp(l1 + |c2| - e1))
  {
    hide CodeAt, CodeTest;
    if empty2 {
      CodeAtCons(code, a, CodeTest(cs, |c1| + 1), c1, pos);
      CodeAtSplit(code, a + 1, c1, [], pos) by { assert c1 + [] == c1; }
    } else {
      var head := [CodeTest(cs, |c1| + 2)] + c1;
      var jump := IJmp(|c2| + 1);
      assert ChoiceTestCode(cs, c1, c2, empty2) == head + [jump] + c2;
      hide ChoiceTestCode;
      CodeAtSplit(code, a, head + [jump], c2, pos);
      CodeAtSnoc(code, a, head, jump, pos);
      CodeAtCons(code, a, CodeTest(cs, |c1| + 2), c1, pos);
    }
    TestNotOpen(cs, if empty2 then |c1| + 1 else |c1| + 2);
  }

  lemma TestNotOpen(cs: Charset, off: int)
    ensures !CodeTest(cs, off).IOpenCall?
  {
  }

  lemma ChoiceLayout(code: seq<Instr>, a: int, cs: Charset, e: bool, c1: seq<Instr>, c2: seq<Instr>, pos: seq<int>)
    requires CodeAt(code, a, ChoiceCode(cs, e, c1, c2), pos)
    ensures var a1 := if e then a else a + 1;
      var e1 := a1 + 1 + |c1|;
      && |ChoiceCode(cs, e, c1, c2)| == e1 + 1 + |c2| - a
      && (!e ==> 0 <= a < |code| && code[a] == CodeTest(cs, e1 + 1 - a))
      && 0 <= a1 < e1 < |code| && code[a1] == IChoice(e1 + 1 - a1)
      && CodeAt(code, a1 + 1, c1, pos)
      && code[e1] == ICommit(|c2| + 1) && CodeAt(code, e1 + 1, c2, pos)
  {
    var t := CodeTestSet(cs, e, |c1| + 3);
    hide CodeAt, CodeTest;
    CodeAtSplit(code, a, t + [IChoice(|c1| + 2)] + c1 + [ICommit(|c2| + 1)], c2, pos);
    CodeAtSnoc(code, a, t + [IChoice(|c1| + 2)] + c1, ICommit(|c2| + 1), pos);
    CodeAtSplit(code, a, t + [IChoice(|c1| + 2)], c1, pos);
    TestSetLayout(code, a, cs, e, |c1| + 3, [IChoice(|c1| + 2)], pos);
    CodeAtHead(code, if e then a else a + 1, IChoice(|c1| + 2), pos);
  }

  lemma RepTestLayout(code: seq<Instr>, a: int, cs: Charset, c: seq<Instr>, pos: seq<int>)
    requires CodeAt(code, a, RepTestCode(cs, c), pos)
    ensures var e := a + 1 + |c|;
      && |RepTestCode(cs, c)| == |c| + 2
      && 0 <= a < e < |code| && code[a] == CodeTest(cs, |c| + 2)
      && CodeAt(code, a + 1, c, pos) && code[e] == IJmp(a - e)
  {
    hide CodeAt, CodeTest;
    CodeAtSnoc(code, a, [CodeTest(cs, |c| + 2)] + c, IJmp(-|c| - 1), pos);
    CodeAtCons(code, a, CodeTest(cs, |c| + 2), c, pos);
    TestNotOpen(cs, |c| + 2);
  }

  lemma RepLayout(code: seq<Instr>, a: int, cs: Charset, e: bool, c: seq<Instr>, opt: bool, pos: seq<int>)
    requires CodeAt(code, a, RepCode(cs, e, c, opt), pos)
    ensures var a1 := if e then a else a + 1;
      var e1 := a1 + 1 + |c|;
      && |RepCode(cs, e, c, opt)| == e1 + 1 - a
      && (!e ==> 0 <= a < |code| && code[a] == CodeTest(cs, e1 + 1 - a))
      && 0 <= a1 < e1 < |code| && code[a1] == (if opt then IPartialCommit(1) else IChoice(e1 + 1 - a1))
      && CodeAt(code, a1 + 1, c, pos) && code[e1] == IPartialCommit(a1 + 1 - e1)
  {
    var t := CodeTestSet(cs, e, |c| + 3);
    var first := if opt then IPartialCommit(1) else IChoice(|c| + 2);
    hide CodeAt, CodeTest;
    CodeAtSnoc(code, a, t + [first] + c, IPartialCommit(-|c|), pos);
    CodeAtSplit(code, a, t + [first], c, pos);
    TestSetLayout(code, a, cs, e, |c| + 3, [first], pos);
    CodeAtHead(code, if e then a else a + 1, first, pos);
  }

  lemma NotLayout(code: seq<Instr>, a: int, cs: Charset, e: bool, c: seq<Instr>, pos: seq<int>)
    requires CodeAt(code, a, NotCode(cs, e, c), pos)
    ensures var a1 := if e then a else a + 1;
      var e1 := a1 + 1 + |c|;
      && |NotCode(cs, e, c)| == e1 + 1 - a
      && (!e ==> 0 <= a < |code| && code[a] == CodeTest(cs, e1 + 1 - a))
      && 0 <= a1 < e1 < |code| && code[a1] == IChoice(e1 + 1 - a1)
      && CodeAt(code, a1 + 1, c, pos) && code[e1] == IFailTwice
  {
    var t := CodeTestSet(cs, e, |c| + 3);
    hide CodeAt, CodeTest;
    CodeAtSnoc(code, a, t + [IChoice(|c| + 2)] + c, IFailTwice, pos);
    CodeAtSplit(code, a, t + [IChoice(|c| + 2)], c, pos);
    TestSetLayout(code, a, cs, e, |c| + 3, [IChoice(|c| + 2)], pos);
    CodeAtHead(code, if e then a else a + 1, IChoice(|c| + 2), pos);
  }

  lemma AndLayout(code: seq<Instr>, a: int, c: seq<Instr>, pos: seq<int>)
    requires CodeAt(code, a, AndCode(c), pos)
    ensures var e := a + 1 + |c|;
      && |AndCode(c)| == |c| + 3
      && 0 <= a < e < |code| - 1 && code[a] == IChoice(|c| + 2) && CodeAt(code, a + 1, c, pos)
      && code[e] == IBackCommit(2) && code[e + 1] == IFail
  {
    hide CodeAt;
    CodeAtSnoc(code, a, [IChoice(|c| + 2)] + c + [IBackCommit(2)], IFail, pos);
    CodeAtSnoc(code, a, [IChoice(|c| + 2)] + c, IBackCommit(2), pos);
    CodeAtCons(code, a, IChoice(|c| + 2), c, pos);
  }

  lemma BracketLayout(code: seq<Instr>, a: int, first: Instr, c: seq<Instr>, last: Instr, pos: seq<int>)
    requires CodeAt(code, a, [first] + c + [last], pos)
    requires !first.IOpenCall? && !last.IOpenCall?
    ensures var e := a + 1 + |c|;
      && 0 <= a < e < |code| && code[a] == first && CodeAt(code, a + 1, c, pos) && code[e] == last
  {
    hide CodeAt;
    CodeAtSnoc(code, a, [first] + c, last, pos);
    CodeAtCons(code, a, first, c, pos);
  }

  lemma GrammarCodeLayout(code: seq<Instr>, a: int, d: nat, rules: seq<Tree>, pos: seq<int>)
    requires CodeAt(code, a, GrammarCode(GrammarBody(d, rules)), pos)
    ensures var body := GrammarBody(d, rules);
      && |GrammarCode(body)| == |body| + 2
      && 0 <= a < |code| - 1 && code[a] == ICall(2) && code[a + 1] == IJmp(|body| + 1)
      && Literally(code, a + 2, body)
  {
    var body := GrammarBody(d, rules);
    CodeAtSplit(code, a, [ICall(2)] + [IJmp(|body| + 1)], body, pos);
    CodeAtSnoc(code, a, [ICall(2)], IJmp(|body| + 1), pos);
    CodeAtHead(code, a, ICall(2), pos);
    forall x | 0 <= x < |body| ensures code[a + 2..a + 2 + |body|][x] == body[x] {
      GrammarClosed(d, rules, x);
      assert InstrAt(code, a + 2 + x, body[x], pos);
    }
  }

  // ---------- one level of the definitions ----------

  lemma GenChoice(d: nat, g: seq<Tree>, p1: Tree, p2: Tree, opt: bool, tt: Dom, fl: Charset)
    ensures var f1 := GetFirst(d, g, p1, FULL);
      Gen(d, g, TChoice(p1, p2), opt, tt, fl) ==
      if ChoiceByTest(d, g, p1, p2, fl) then
        ChoiceTestCode(f1.cs, Gen(d, g, p1, false, TestDom(f1.cs, false), fl),
                       Gen(d, g, p2, opt, NoTest, fl), p2.TTrue?)
      else if opt && p2.TTrue? then
        [IPartialCommit(1)] + Gen(d, g, p1, true, NoTest, FULL)
      else
        ChoiceCode(f1.cs, f1.empty, Gen(d, g, p1, p2.TTrue?, TestDom(f1.cs, f1.empty), FULL),
                   Gen(d, g, p2, opt, NoTest, fl))
  {
    hide GetFirst, HeadFail, ChoiceTestCode, ChoiceCode, TestDom, ChoiceByTest;
  }

  lemma GenTrue(d: nat, g: seq<Tree>, p: Tree, opt: bool, tt: Dom, fl: Charset)
    requires p.TTrue?
    ensures Gen(d, g, p, opt, tt, fl) == []
  {
  }

  lemma GenRep(d: nat, g: seq<Tree>, p1: Tree, opt: bool, tt: Dom, fl: Charset)
    ensures var f := GetFirst(d, g, p1, FULL);
      Gen(d, g, TRep(p1), opt, tt, fl) ==
      if IsCharset(p1) then [ISpan(ToCharset(p1))]
      else if RepByTest(d, g, p1, fl) then RepTestCode(f.cs, Gen(d, g, p1, false, TestDom(f.cs, false), FULL))
      else RepCode(f.cs, f.empty, Gen(d, g, p1, false, NoTest, FULL), opt)
  {
    hide GetFirst, HeadFail, RepTestCode, RepCode, TestDom, RepByTest;
  }

  lemma GenBehind(d: nat, g: seq<Tree>, n: nat, p1: Tree, opt: bool, tt: Dom, fl: Charset)
    ensures Gen(d, g, TBehind(n, p1), opt, tt, fl) == BehindInstr(n) + Gen(d, g, p1, false, NoTest, FULL)
  {
  }

  lemma GenNot(d: nat, g: seq<Tree>, p1: Tree, opt: bool, tt: Dom, fl: Charset)
    ensures var f := GetFirst(d, g, p1, FULL);
      Gen(d, g, TNot(p1), opt, tt, fl) ==
      if HeadFail(d, g, p1) then CodeTestSet(f.cs, f.empty, 2) + [IFail]
      else NotCode(f.cs, f.empty, Gen(d, g, p1, false, NoTest, FULL))
  {
    hide GetFirst, HeadFail, CodeTestSet, NotCode;
  }

  lemma GenAnd(d: nat, g: seq<Tree>, p1: Tree, opt: bool, tt: Dom, fl: Charset)
    ensures var c := Gen(d, g, p1, false, tt, FULL);
      Gen(d, g, TAnd(p1), opt, tt, fl) ==
      if AndByLength(d, g, p1) then c + BehindInstr(FixedLen(d, g, p1, {})) else AndCode(c)
  {
    hide FixedLen, HasCaptures, AndCode;
  }

  lemma GenCapture(d: nat, g: seq<Tree>, kind: CapKind, key: nat, p1: Tree, opt: bool, tt: Dom, fl: Charset)
    ensures var c := Gen(d, g, p1, false, tt, fl);
      Gen(d, g, TCapture(kind, key, p1), opt, tt, fl) ==
      if FullCapture(d, g, p1) then c + [IFullCapture(kind, key, FixedLen(d, g, p1, {}))]
      else [IOpenCapture(kind, key)] + c + [ICloseCapture]
  {
    hide FixedLen, HasCaptures;
  }

  lemma GenSeq(d: nat, g: seq<Tree>, p1: Tree, p2: Tree, opt: bool, tt: Dom, fl: Charset)
    ensures Gen(d, g, TSeq(p1, p2), opt, tt, fl) ==
      Gen(d, g, p1, false, tt, SeqFollow(d, g, p1, p2, fl)) + Gen(d, g, p2, opt, SeqTest(d, g, p1, tt), fl)
  {
    hide GetFirst, FixedLen;
  }

  lemma GenCall(d: nat, g: seq<Tree>, r: nat, opt: bool, tt: Dom, fl: Charset)
    ensures Gen(d, g, TCall(r), opt, tt, fl) == [IOpenCall(r)]
  {
  }

  lemma GenGrammar(d: nat, g: seq<Tree>, rules: seq<Tree>, opt: bool, tt: Dom, fl: Charset)
    ensures Gen(d, g, TGrammar(rules), opt, tt, fl) == GrammarCode(GrammarBody(d, rules))
  {
  }

  lemma GenRuleIs(d: nat, rules: seq<Tree>, r: nat)
    requires r < |rules|
    ensures GenRule(d, rules, r) == Gen(d, rules, rules[r], false, NoTest, FULL) + [IRet]
  {
  }
}
